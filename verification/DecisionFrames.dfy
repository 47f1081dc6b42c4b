/**
  The ring of analysed frames that decisions were made on (app/vision/decision_frames.py):
  per camera, oldest first, under a frame ceiling and a byte ceiling.

  A camera's `OrderedDict` is a sequence of frames with distinct refs; a frame's subject
  dictionary is a sequence of subjects with distinct object ids; a missing crop is an
  empty one, as the source treats them alike.
*/
module DecisionFrames {
  import opened Basics

  const MAX_FRAMES_PER_CAMERA := 64
  const MAX_BYTES_PER_CAMERA := 32 * 1024 * 1024
  const MAX_CROPS_PER_FRAME := 12

  datatype Subject = Subject(
    objectId: string,
    box: (real, real, real, real),
    crop: seq<bv8>,
    cropId: string,
    sentToModel: bool,
    objectClass: string)

  datatype Frame = Frame(
    frameRef: string,
    capturedAtNs: int,
    width: int,
    height: int,
    jpeg: seq<bv8>,
    subjects: seq<Subject>)
  {
    predicate Shows(objectId: string) {
      exists i :: 0 <= i < |subjects| && subjects[i].objectId == objectId
    }

    function Size(): nat {
      |jpeg| + CropBytes(subjects)
    }
  }

  function CropBytes(subjects: seq<Subject>): nat {
    if subjects == [] then 0 else |subjects[0].crop| + CropBytes(subjects[1..])
  }

  function Total(frames: seq<Frame>): nat {
    if frames == [] then 0 else frames[0].Size() + Total(frames[1..])
  }

  /* ------------------------------------------------------------------ eviction */

  /** Both ceilings; a single frame is kept whatever it weighs. */
  predicate Fits(frames: seq<Frame>) {
    |frames| <= MAX_FRAMES_PER_CAMERA && (Total(frames) <= MAX_BYTES_PER_CAMERA || |frames| <= 1)
  }

  /** How many of the oldest frames have to go. */
  function Surplus(frames: seq<Frame>): (k: nat)
    ensures k <= |frames|
  {
    if Fits(frames) then 0 else 1 + Surplus(frames[1..])
  }

  function Kept(frames: seq<Frame>): seq<Frame> {
    frames[Surplus(frames)..]
  }

  /** What is kept is the longest suffix that fits, and nothing else is. */
  lemma {:induction false} KeptIsLongestFittingSuffix(frames: seq<Frame>)
    ensures Fits(Kept(frames))
    ensures forall j :: 0 <= j < Surplus(frames) ==> !Fits(frames[j..])
    ensures frames != [] ==> Kept(frames) != []
    decreases |frames|
  {
    if !Fits(frames) {
      KeptIsLongestFittingSuffix(frames[1..]);
      assert Kept(frames) == Kept(frames[1..]);
      forall j | 0 <= j < Surplus(frames)
        ensures !Fits(frames[j..])
      {
        if j > 0 {
          assert frames[j..] == frames[1..][j - 1..];
        }
      }
    }
  }

  /** One turn of either eviction loop leaves the outcome where it was. */
  lemma EvictOne(frames: seq<Frame>)
    requires !Fits(frames)
    ensures Surplus(frames) == 1 + Surplus(frames[1..]) && Kept(frames) == Kept(frames[1..])
  {
  }

  /** Everything stored with a frame: its image, and one crop for each subject. */
  function Payloads(frames: seq<Frame>): seq<seq<bv8>> {
    if frames == [] then []
    else [frames[0].jpeg] + Crops(frames[0].subjects) + Payloads(frames[1..])
  }

  function Crops(subjects: seq<Subject>): seq<seq<bv8>> {
    seq(|subjects|, i requires 0 <= i < |subjects| => subjects[i].crop)
  }

  function Weight(payloads: seq<seq<bv8>>): nat {
    if payloads == [] then 0 else |payloads[0]| + Weight(payloads[1..])
  }

  /** The two ceilings in numbers: 64 frames, and 32 MiB of images and crops unless one frame is left. */
  ghost predicate WithinCeilings(frames: seq<Frame>) {
    |frames| <= 64 && (Weight(Payloads(frames)) <= 33_554_432 || |frames| <= 1)
  }

  lemma {:induction false} WeightAdds(a: seq<seq<bv8>>, b: seq<seq<bv8>>)
    ensures Weight(a + b) == Weight(a) + Weight(b)
    decreases |a|
  {
    if a == [] {
      assert a + b == b;
    } else {
      WeightAdds(a[1..], b);
      assert (a + b)[0] == a[0] && (a + b)[1..] == a[1..] + b;
    }
  }

  lemma {:induction false} CropsWeigh(subjects: seq<Subject>)
    ensures Weight(Crops(subjects)) == CropBytes(subjects)
    decreases |subjects|
  {
    if subjects != [] {
      CropsWeigh(subjects[1..]);
      assert Crops(subjects)[1..] == Crops(subjects[1..]);
    }
  }

  lemma {:induction false} PayloadsWeigh(frames: seq<Frame>)
    ensures Weight(Payloads(frames)) == Total(frames)
    decreases |frames|
  {
    if frames != [] {
      var f := frames[0];
      PayloadsWeigh(frames[1..]);
      CropsWeigh(f.subjects);
      WeightAdds([f.jpeg] + Crops(f.subjects), Payloads(frames[1..]));
      WeightAdds([f.jpeg], Crops(f.subjects));
      assert [f.jpeg][1..] == [];
      assert Weight([f.jpeg]) == |f.jpeg| + Weight([]);
    }
  }

  lemma FitsIsWithinCeilings(frames: seq<Frame>)
    ensures Fits(frames) <==> WithinCeilings(frames)
  {
    PayloadsWeigh(frames);
  }

  /* --------------------------------------------------------------------- store */

  datatype Store = Store(
    cameras: map<string, seq<Frame>>,
    stores: nat,
    evictions: nat,
    cropsRetained: nat,
    cropsDropped: nat)

  const EMPTY_STORE := Store(map[], 0, 0, 0, 0)

  function FramesOf(st: Store, cameraId: string): seq<Frame> {
    if cameraId in st.cameras then st.cameras[cameraId] else []
  }

  function Without(frames: seq<Frame>, frameRef: string): seq<Frame> {
    if frames == [] then []
    else (if frames[0].frameRef == frameRef then [] else [frames[0]]) + Without(frames[1..], frameRef)
  }

  function Evict(st: Store, cameraId: string, frames: seq<Frame>): Store {
    st.(cameras := st.cameras[cameraId := Kept(frames)], evictions := st.evictions + Surplus(frames))
  }

  /** `remember`: set the key and move it to the end, then both ceilings. */
  function Remembered(st: Store, cameraId: string, frame: Frame): Store {
    if frame.jpeg == [] then st
    else Evict(st.(stores := st.stores + 1), cameraId,
               Without(FramesOf(st, cameraId), frame.frameRef) + [frame.(subjects := [])])
  }

  function IndexOf(frames: seq<Frame>, frameRef: string): (r: Option<nat>)
    ensures r.Some? ==> r.value < |frames| && frames[r.value].frameRef == frameRef
    ensures r.None? ==> forall i :: 0 <= i < |frames| ==> frames[i].frameRef != frameRef
  {
    if frames == [] then None
    else
      var n := |frames| - 1;
      if frames[n].frameRef == frameRef then Some(n) else IndexOf(frames[..n], frameRef)
  }

  function SubjectAt(subjects: seq<Subject>, objectId: string): (r: Option<nat>)
    ensures r.Some? ==> r.value < |subjects| && subjects[r.value].objectId == objectId
    ensures r.None? ==> forall i :: 0 <= i < |subjects| ==> subjects[i].objectId != objectId
  {
    if subjects == [] then None
    else
      var n := |subjects| - 1;
      if subjects[n].objectId == objectId then Some(n) else SubjectAt(subjects[..n], objectId)
  }

  function WithSubject(subjects: seq<Subject>, s: Subject): seq<Subject> {
    match SubjectAt(subjects, s.objectId)
    case Some(i) => subjects[i := s]
    case None => subjects + [s]
  }

  function CropCount(subjects: seq<Subject>): nat {
    if subjects == [] then 0
    else CropCount(subjects[..|subjects| - 1]) + (if subjects[|subjects| - 1].crop == [] then 0 else 1)
  }

  /** The crop is refused when it belongs to a new subject and the frame already holds its fill. */
  predicate CropRefused(subjects: seq<Subject>, s: Subject) {
    s.crop != [] && SubjectAt(subjects, s.objectId).None? && CropCount(subjects) >= MAX_CROPS_PER_FRAME
  }

  function Admitted(subjects: seq<Subject>, s: Subject): Subject {
    if CropRefused(subjects, s) then s.(crop := []) else s
  }

  /** `attach_subject` on a frame that is retained, by its place in the ring. */
  function AttachedAt(st: Store, cameraId: string, i: nat, s: Subject): Store
    requires i < |FramesOf(st, cameraId)|
  {
    var frames := FramesOf(st, cameraId);
    var subjects := frames[i].subjects;
    var admitted := Admitted(subjects, s);
    var counted := st.(cropsRetained := st.cropsRetained + (if admitted.crop == [] then 0 else 1),
                       cropsDropped := st.cropsDropped + (if CropRefused(subjects, s) then 1 else 0));
    Evict(counted, cameraId, frames[i := frames[i].(subjects := WithSubject(subjects, admitted))])
  }

  /** `attach_subject`. */
  function Attached(st: Store, cameraId: string, frameRef: string, s: Subject): (Store, bool) {
    match IndexOf(FramesOf(st, cameraId), frameRef)
    case None => (st, false)
    case Some(i) => (AttachedAt(st, cameraId, i, s), true)
  }

  datatype Op =
    | Remember(cameraId: string, frame: Frame)
    | Attach(cameraId: string, frameRef: string, subject: Subject)

  function Happen(st: Store, op: Op): Store {
    match op
    case Remember(cameraId, frame) => Remembered(st, cameraId, frame)
    case Attach(cameraId, frameRef, subject) => Attached(st, cameraId, frameRef, subject).0
  }

  function Run(st: Store, ops: seq<Op>): Store {
    if ops == [] then st else Happen(Run(st, ops[..|ops| - 1]), ops[|ops| - 1])
  }

  /* -------------------------------------------------------------------- bounds */

  ghost predicate DistinctRefs(frames: seq<Frame>) {
    forall i, j :: 0 <= i < j < |frames| ==> frames[i].frameRef != frames[j].frameRef
  }

  ghost predicate Bounded(st: Store) {
    forall c :: c in st.cameras ==> Fits(st.cameras[c]) && DistinctRefs(st.cameras[c])
  }

  lemma {:induction false} WithoutMembers(frames: seq<Frame>, frameRef: string)
    ensures forall f :: f in Without(frames, frameRef) <==> f in frames && f.frameRef != frameRef
    decreases |frames|
  {
    if frames != [] {
      var rest := frames[1..];
      WithoutMembers(rest, frameRef);
      assert frames == [frames[0]] + rest;
    }
  }

  lemma {:induction false} WithoutStaysDistinct(frames: seq<Frame>, frameRef: string)
    requires DistinctRefs(frames)
    ensures DistinctRefs(Without(frames, frameRef))
    decreases |frames|
  {
    if frames != [] {
      var rest := frames[1..];
      WithoutStaysDistinct(rest, frameRef);
      WithoutMembers(rest, frameRef);
      var kept := Without(rest, frameRef);
      forall i | 0 <= i < |kept|
        ensures kept[i].frameRef != frames[0].frameRef
      {
        assert kept[i] in kept;
      }
    }
  }

  lemma {:induction false} WithoutAbsent(frames: seq<Frame>, frameRef: string)
    requires forall i :: 0 <= i < |frames| ==> frames[i].frameRef != frameRef
    ensures Without(frames, frameRef) == frames
    decreases |frames|
  {
    if frames != [] {
      WithoutAbsent(frames[1..], frameRef);
    }
  }

  lemma {:induction false} WithoutDropsOne(frames: seq<Frame>, frameRef: string)
    requires DistinctRefs(frames)
    ensures |Without(frames, frameRef)| == |frames| - (if IndexOf(frames, frameRef).Some? then 1 else 0)
    decreases |frames|
  {
    if frames != [] {
      var rest := frames[1..];
      if frames[0].frameRef == frameRef {
        WithoutAbsent(rest, frameRef);
      } else {
        WithoutDropsOne(rest, frameRef);
        var i, j := IndexOf(frames, frameRef), IndexOf(rest, frameRef);
        if i.Some? {
          assert rest[i.value - 1].frameRef == frameRef;
        }
        if j.Some? {
          assert frames[j.value + 1].frameRef == frameRef;
        }
      }
    }
  }

  lemma KeptStaysDistinct(frames: seq<Frame>)
    requires DistinctRefs(frames)
    ensures Fits(Kept(frames)) && DistinctRefs(Kept(frames))
  {
    KeptIsLongestFittingSuffix(frames);
  }

  /** The frames of the camera an operation touches, before the ceilings are applied. */
  function Placed(st: Store, op: Op): seq<Frame> {
    var frames := FramesOf(st, op.cameraId);
    match op
    case Remember(_, frame) =>
      if frame.jpeg == [] then frames else Without(frames, frame.frameRef) + [frame.(subjects := [])]
    case Attach(_, frameRef, subject) =>
      match IndexOf(frames, frameRef)
      case None => frames
      case Some(i) =>
        frames[i := frames[i].(subjects := WithSubject(frames[i].subjects, Admitted(frames[i].subjects, subject)))]
  }

  /** Whether the operation reaches the ceilings at all: an empty image or an aged-out frame does not. */
  predicate Takes(st: Store, op: Op) {
    match op
    case Remember(_, frame) => frame.jpeg != []
    case Attach(_, frameRef, _) => IndexOf(FramesOf(st, op.cameraId), frameRef).Some?
  }

  lemma HappenEvicts(st: Store, op: Op)
    ensures !Takes(st, op) ==> Happen(st, op) == st
    ensures Takes(st, op) ==> Happen(st, op).cameras == st.cameras[op.cameraId := Kept(Placed(st, op))]
    ensures Takes(st, op) ==> Happen(st, op).evictions == st.evictions + Surplus(Placed(st, op))
  {
  }

  lemma PlacedStaysDistinct(st: Store, op: Op)
    requires Bounded(st)
    ensures DistinctRefs(Placed(st, op))
  {
    var frames := FramesOf(st, op.cameraId);
    if op.Remember? && op.frame.jpeg != [] {
      WithoutStaysDistinct(frames, op.frame.frameRef);
      WithoutMembers(frames, op.frame.frameRef);
      var rest := Without(frames, op.frame.frameRef);
      forall i | 0 <= i < |rest|
        ensures rest[i].frameRef != op.frame.frameRef
      {
        assert rest[i] in rest;
      }
    }
  }

  lemma HappenKeepsBounds(st: Store, op: Op)
    requires Bounded(st)
    ensures Bounded(Happen(st, op))
  {
    HappenEvicts(st, op);
    PlacedStaysDistinct(st, op);
    KeptStaysDistinct(Placed(st, op));
  }

  lemma {:induction false} RunKeepsBounds(st: Store, ops: seq<Op>)
    requires Bounded(st)
    ensures Bounded(Run(st, ops))
    decreases |ops|
  {
    if ops != [] {
      RunKeepsBounds(st, ops[..|ops| - 1]);
      HappenKeepsBounds(Run(st, ops[..|ops| - 1]), ops[|ops| - 1]);
    }
  }

  /**
    After every operation of every run, each camera holds at most 64 frames and at most
    32 MiB (or one frame); and the camera the operation touched holds exactly the longest
    suffix of its pre-eviction order for which that is true.
  */
  lemma EveryOperationKeepsLongestSuffix(ops: seq<Op>, op: Op)
    ensures
      var st := Run(EMPTY_STORE, ops);
      var st' := Run(EMPTY_STORE, ops + [op]);
      && (forall c :: c in st'.cameras ==> WithinCeilings(st'.cameras[c]) && DistinctRefs(st'.cameras[c]))
      && (Takes(st, op) ==>
            var placed := Placed(st, op);
            var k := Surplus(placed);
            && FramesOf(st', op.cameraId) == placed[k..]
            && (forall j :: 0 <= j < k ==> !WithinCeilings(placed[j..])))
      && (forall c :: c != op.cameraId ==> FramesOf(st', c) == FramesOf(st, c))
  {
    var st, st' := Run(EMPTY_STORE, ops), Run(EMPTY_STORE, ops + [op]);
    RunKeepsBounds(EMPTY_STORE, ops);
    assert (ops + [op])[..|ops|] == ops;
    HappenEvicts(st, op);
    HappenKeepsBounds(st, op);
    var placed := Placed(st, op);
    KeptIsLongestFittingSuffix(placed);
    forall c | c in st'.cameras
      ensures WithinCeilings(st'.cameras[c])
    {
      FitsIsWithinCeilings(st'.cameras[c]);
    }
    forall j | 0 <= j < Surplus(placed)
      ensures !WithinCeilings(placed[j..])
    {
      FitsIsWithinCeilings(placed[j..]);
    }
  }

  /**
    What an operation writes, before the ceilings: a remembered frame stands last, with
    nothing on it yet, behind the other frames; an attach changes one frame, where the object
    now has the subject that was given, without its pixels exactly when the object is new to
    a frame that has pixels of twelve.
  */
  lemma OperationWrites(st: Store, op: Op)
    requires Takes(st, op)
    ensures op.Remember? ==>
              var frames, placed := FramesOf(st, op.cameraId), Placed(st, op);
              && placed != [] && placed[|placed| - 1] == op.frame.(subjects := [])
              && (forall f :: f in placed[..|placed| - 1] <==> f in frames && f.frameRef != op.frame.frameRef)
    ensures op.Attach? ==>
              var frames, placed := FramesOf(st, op.cameraId), Placed(st, op);
              var i := IndexOf(frames, op.frameRef).value;
              && |placed| == |frames| && (forall j :: 0 <= j < |frames| && j != i ==> placed[j] == frames[j])
              && placed[i] == frames[i].(subjects := placed[i].subjects)
              && IsRecorded(frames[i].subjects, placed[i].subjects, op.subject)
  {
    if op.Remember? {
      WithoutMembers(FramesOf(st, op.cameraId), op.frame.frameRef);
      var rest := Without(FramesOf(st, op.cameraId), op.frame.frameRef);
      assert (rest + [op.frame.(subjects := [])])[..|rest|] == rest;
    }
  }

  /** The subject is recorded in place of the object's earlier one, or at the end. */
  ghost predicate IsRecorded(before: seq<Subject>, after: seq<Subject>, s: Subject) {
    var full := s.crop != [] && CropCount(before) >= 12;
    if exists k :: 0 <= k < |before| && before[k].objectId == s.objectId
    then exists k :: 0 <= k < |before| && before[k].objectId == s.objectId && after == before[k := s]
    else after == before + [if full then s.(crop := []) else s]
  }

  /* ---------------------------------------------------------------- conservation */

  ghost function Retained(cameras: map<string, seq<Frame>>): nat {
    if cameras == map[] then 0
    else
      var c :| c in cameras;
      |cameras[c]| + Retained(cameras - {c})
  }

  lemma {:induction false} RetainedSplits(cameras: map<string, seq<Frame>>, c: string)
    requires c in cameras
    ensures Retained(cameras) == |cameras[c]| + Retained(cameras - {c})
    decreases cameras
  {
    var d :| d in cameras && Retained(cameras) == |cameras[d]| + Retained(cameras - {d});
    if d != c {
      RetainedSplits(cameras - {d}, c);
      RetainedSplits(cameras - {c}, d);
      assert cameras - {d} - {c} == cameras - {c} - {d};
    }
  }

  lemma RetainedUpdate(cameras: map<string, seq<Frame>>, c: string, frames: seq<Frame>)
    ensures Retained(cameras[c := frames]) == Retained(cameras) - (if c in cameras then |cameras[c]| else 0) + |frames|
  {
    RetainedSplits(cameras[c := frames], c);
    assert cameras[c := frames] - {c} == cameras - {c};
    if c in cameras {
      RetainedSplits(cameras, c);
    } else {
      assert cameras - {c} == cameras;
    }
  }

  /** The operation stores a ref that is still retained. */
  predicate Replaces(st: Store, op: Op) {
    op.Remember? && op.frame.jpeg != [] && IndexOf(FramesOf(st, op.cameraId), op.frame.frameRef).Some?
  }

  function Replacements(ops: seq<Op>): nat {
    if ops == [] then 0
    else
      var earlier, op := ops[..|ops| - 1], ops[|ops| - 1];
      Replacements(earlier) + (if Replaces(Run(EMPTY_STORE, earlier), op) then 1 else 0)
  }

  /** Over every run: stores = retained + evictions + replacements, over all cameras. */
  lemma {:induction false} StoresAreConserved(ops: seq<Op>)
    ensures
      var st := Run(EMPTY_STORE, ops);
      st.stores == Retained(st.cameras) + st.evictions + Replacements(ops)
    decreases |ops|
  {
    if ops != [] {
      var earlier, op := ops[..|ops| - 1], ops[|ops| - 1];
      StoresAreConserved(earlier);
      RunKeepsBounds(EMPTY_STORE, earlier);
      var st := Run(EMPTY_STORE, earlier);
      HappenEvicts(st, op);
      if Takes(st, op) {
        RetainedUpdate(st.cameras, op.cameraId, Kept(Placed(st, op)));
        PlacedGrows(st, op);
      }
    }
  }

  lemma PlacedGrows(st: Store, op: Op)
    requires Bounded(st) && Takes(st, op)
    ensures |Placed(st, op)| + (if Replaces(st, op) then 1 else 0)
         == |FramesOf(st, op.cameraId)| + (if op.Remember? then 1 else 0)
  {
    if op.Remember? {
      WithoutDropsOne(FramesOf(st, op.cameraId), op.frame.frameRef);
    }
  }

  /** One camera's share of a run: what it stored, what it evicted, what it replaced. */
  datatype Share = Share(stored: nat, evicted: nat, replaced: nat)

  function ShareOf(ops: seq<Op>, cameraId: string): Share {
    if ops == [] then Share(0, 0, 0)
    else
      var earlier, op := ops[..|ops| - 1], ops[|ops| - 1];
      var st, share := Run(EMPTY_STORE, earlier), ShareOf(earlier, cameraId);
      if op.cameraId != cameraId || !Takes(st, op) then share
      else Share(share.stored + (if op.Remember? then 1 else 0),
                 share.evicted + Surplus(Placed(st, op)),
                 share.replaced + (if Replaces(st, op) then 1 else 0))
  }

  /** And camera by camera: what a camera stored is what it retains, evicted and replaced. */
  lemma {:induction false} EachCameraConserves(ops: seq<Op>, cameraId: string)
    ensures
      var share := ShareOf(ops, cameraId);
      share.stored == |FramesOf(Run(EMPTY_STORE, ops), cameraId)| + share.evicted + share.replaced
    decreases |ops|
  {
    if ops != [] {
      var earlier, op := ops[..|ops| - 1], ops[|ops| - 1];
      EachCameraConserves(earlier, cameraId);
      RunKeepsBounds(EMPTY_STORE, earlier);
      var st := Run(EMPTY_STORE, earlier);
      HappenEvicts(st, op);
      if Takes(st, op) {
        PlacedGrows(st, op);
      }
    }
  }

  predicate StoresRef(op: Op, cameraId: string, frameRef: string) {
    op.Remember? && op.frame.jpeg != [] && op.cameraId == cameraId && op.frame.frameRef == frameRef
  }

  /** No (camera, frame ref) is stored twice. */
  ghost predicate FreshRefs(ops: seq<Op>) {
    forall i, j :: 0 <= i < j < |ops| && ops[j].Remember? && ops[j].frame.jpeg != []
      ==> !StoresRef(ops[i], ops[j].cameraId, ops[j].frame.frameRef)
  }

  /** A frame retained after an operation was stored by it or was retained before it. */
  lemma RetainedFrom(st: Store, op: Op, cameraId: string, frame: Frame)
    requires frame in FramesOf(Happen(st, op), cameraId) && !StoresRef(op, cameraId, frame.frameRef)
    ensures exists j :: 0 <= j < |FramesOf(st, cameraId)| && FramesOf(st, cameraId)[j].frameRef == frame.frameRef
  {
    var frames := FramesOf(st, cameraId);
    HappenEvicts(st, op);
    if cameraId == op.cameraId && Takes(st, op) {
      var placed := Placed(st, op);
      assert frame in placed;
      var at :| 0 <= at < |placed| && placed[at] == frame;
      if op.Remember? {
        WithoutMembers(frames, op.frame.frameRef);
        assert frame in frames;
      } else {
        assert frames[at].frameRef == frame.frameRef;
      }
    } else {
      assert frame in frames;
    }
  }

  lemma {:induction false} RetainedWereStored(ops: seq<Op>, cameraId: string, frame: Frame)
    requires frame in FramesOf(Run(EMPTY_STORE, ops), cameraId)
    ensures exists k :: 0 <= k < |ops| && StoresRef(ops[k], cameraId, frame.frameRef)
    decreases |ops|
  {
    var earlier, op := ops[..|ops| - 1], ops[|ops| - 1];
    if !StoresRef(op, cameraId, frame.frameRef) {
      var st := Run(EMPTY_STORE, earlier);
      RetainedFrom(st, op, cameraId, frame);
      var j :| 0 <= j < |FramesOf(st, cameraId)| && FramesOf(st, cameraId)[j].frameRef == frame.frameRef;
      RetainedWereStored(earlier, cameraId, FramesOf(st, cameraId)[j]);
      var k :| 0 <= k < |earlier| && StoresRef(earlier[k], cameraId, frame.frameRef);
      assert ops[k] == earlier[k];
    }
  }

  lemma ReplacingRepeatsRef(ops: seq<Op>, op: Op)
    requires Replaces(Run(EMPTY_STORE, ops), op)
    ensures !FreshRefs(ops + [op])
  {
    var frames := FramesOf(Run(EMPTY_STORE, ops), op.cameraId);
    RetainedWereStored(ops, op.cameraId, frames[IndexOf(frames, op.frame.frameRef).value]);
    var k :| 0 <= k < |ops| && StoresRef(ops[k], op.cameraId, op.frame.frameRef);
    var all := ops + [op];
    assert all[k] == ops[k] && all[|ops|] == op;
  }

  lemma {:induction false} FreshRefsReplaceNothing(ops: seq<Op>, cameraId: string)
    requires FreshRefs(ops)
    ensures Replacements(ops) == 0 && ShareOf(ops, cameraId).replaced == 0
    decreases |ops|
  {
    if ops != [] {
      var earlier, op := ops[..|ops| - 1], ops[|ops| - 1];
      assert ops == earlier + [op];
      FreshRefsReplaceNothing(earlier, cameraId);
      if Replaces(Run(EMPTY_STORE, earlier), op) {
        ReplacingRepeatsRef(earlier, op);
      }
    }
  }

  /** With fresh frame refs, everything stored is retained or was evicted, in all and for each camera. */
  lemma FreshStoresAreConserved(ops: seq<Op>, cameraId: string)
    requires FreshRefs(ops)
    ensures
      var st := Run(EMPTY_STORE, ops);
      var share := ShareOf(ops, cameraId);
      && st.stores == Retained(st.cameras) + st.evictions
      && share.stored == |FramesOf(st, cameraId)| + share.evicted
  {
    StoresAreConserved(ops);
    EachCameraConserves(ops, cameraId);
    FreshRefsReplaceNothing(ops, cameraId);
  }

  /* ------------------------------------------------------------------- crop cap */

  lemma {:induction false} CropCountUpdate(subjects: seq<Subject>, i: nat, s: Subject)
    requires i < |subjects|
    ensures CropCount(subjects[i := s]) - (if s.crop == [] then 0 else 1)
         == CropCount(subjects) - (if subjects[i].crop == [] then 0 else 1)
    decreases |subjects|
  {
    var n := |subjects| - 1;
    if i < n {
      CropCountUpdate(subjects[..n], i, s);
      assert subjects[i := s][..n] == subjects[..n][i := s];
    } else {
      assert subjects[i := s][..n] == subjects[..n];
    }
  }

  /** An attach the cap does not look at: pixels for an object recorded without any, on a full frame. */
  predicate MissesCap(subjects: seq<Subject>, s: Subject) {
    var at := SubjectAt(subjects, s.objectId);
    CropCount(subjects) == MAX_CROPS_PER_FRAME && s.crop != [] && at.Some? && subjects[at.value].crop == []
  }

  /**
    The cap on crops holds for a frame after an attach exactly when the attach is not the one
    the check misses: pixels for a subject recorded without any, on a frame already at the cap.
  */
  lemma CropCapIff(subjects: seq<Subject>, s: Subject)
    requires CropCount(subjects) <= MAX_CROPS_PER_FRAME
    ensures
      var after := WithSubject(subjects, Admitted(subjects, s));
      CropCount(after) <= MAX_CROPS_PER_FRAME <==> !MissesCap(subjects, s)
  {
    var at := SubjectAt(subjects, s.objectId);
    if at.Some? {
      CropCountUpdate(subjects, at.value, s);
    } else {
      var after := subjects + [Admitted(subjects, s)];
      assert after[..|subjects|] == subjects;
    }
  }

  predicate Attaches(op: Op, cameraId: string, frameRef: string, objectId: string) {
    op.Attach? && op.cameraId == cameraId && op.frameRef == frameRef && op.subject.objectId == objectId
  }

  /** Each object is attached at most once to each frame. */
  ghost predicate NeverReattaches(ops: seq<Op>) {
    forall i, j :: 0 <= i < j < |ops| && ops[j].Attach?
      ==> !Attaches(ops[i], ops[j].cameraId, ops[j].frameRef, ops[j].subject.objectId)
  }

  ghost predicate WasAttached(ops: seq<Op>, cameraId: string, frameRef: string, objectId: string) {
    exists k :: 0 <= k < |ops| && Attaches(ops[k], cameraId, frameRef, objectId)
  }

  /** At most twelve crops, and every subject was attached by the run. */
  ghost predicate Capped(frame: Frame, cameraId: string, ops: seq<Op>) {
    && CropCount(frame.subjects) <= MAX_CROPS_PER_FRAME
    && forall i :: 0 <= i < |frame.subjects| ==> WasAttached(ops, cameraId, frame.frameRef, frame.subjects[i].objectId)
  }

  ghost predicate AllCapped(st: Store, ops: seq<Op>) {
    forall c, i :: c in st.cameras && 0 <= i < |st.cameras[c]| ==> Capped(st.cameras[c][i], c, ops)
  }

  lemma CappedGrows(frame: Frame, cameraId: string, ops: seq<Op>, op: Op)
    requires Capped(frame, cameraId, ops)
    ensures Capped(frame, cameraId, ops + [op])
  {
    forall i | 0 <= i < |frame.subjects|
      ensures WasAttached(ops + [op], cameraId, frame.frameRef, frame.subjects[i].objectId)
    {
      var k :| 0 <= k < |ops| && Attaches(ops[k], cameraId, frame.frameRef, frame.subjects[i].objectId);
      assert (ops + [op])[k] == ops[k];
    }
  }

  lemma SecondAttachRepeats(ops: seq<Op>, op: Op)
    requires op.Attach? && WasAttached(ops, op.cameraId, op.frameRef, op.subject.objectId)
    ensures !NeverReattaches(ops + [op])
  {
    var k :| 0 <= k < |ops| && Attaches(ops[k], op.cameraId, op.frameRef, op.subject.objectId);
    assert (ops + [op])[k] == ops[k] && (ops + [op])[|ops|] == op;
  }

  lemma AttachStaysCapped(frame: Frame, ops: seq<Op>, op: Op)
    requires op.Attach? && op.frameRef == frame.frameRef && Capped(frame, op.cameraId, ops)
    requires NeverReattaches(ops + [op])
    ensures
      var subjects := WithSubject(frame.subjects, Admitted(frame.subjects, op.subject));
      Capped(frame.(subjects := subjects), op.cameraId, ops + [op])
  {
    var ops', s := ops + [op], op.subject;
    assert ops'[|ops|] == op;
    var at := SubjectAt(frame.subjects, s.objectId);
    if at.Some? {
      SecondAttachRepeats(ops, op);
    }
    CropCapIff(frame.subjects, s);
    CappedGrows(frame, op.cameraId, ops, op);
    assert Attaches(ops'[|ops|], op.cameraId, frame.frameRef, s.objectId);
  }

  lemma PlacedStaysCapped(st: Store, ops: seq<Op>, op: Op, i: nat)
    requires AllCapped(st, ops) && NeverReattaches(ops + [op]) && i < |Placed(st, op)|
    ensures Capped(Placed(st, op)[i], op.cameraId, ops + [op])
  {
    var frames, placed := FramesOf(st, op.cameraId), Placed(st, op);
    if placed[i] in frames {
      var j :| 0 <= j < |frames| && frames[j] == placed[i];
      CappedGrows(frames[j], op.cameraId, ops, op);
    } else if op.Remember? {
      WithoutMembers(frames, op.frame.frameRef);
    } else {
      AttachStaysCapped(frames[i], ops, op);
    }
  }

  /**
    Over every run that attaches each object at most once to each frame, no retained frame
    holds more than twelve crops.
  */
  lemma {:induction false} CropCapHolds(ops: seq<Op>)
    requires NeverReattaches(ops)
    ensures AllCapped(Run(EMPTY_STORE, ops), ops)
    decreases |ops|
  {
    if ops != [] {
      var earlier, op := ops[..|ops| - 1], ops[|ops| - 1];
      assert ops == earlier + [op];
      CropCapHolds(earlier);
      var st := Run(EMPTY_STORE, earlier);
      HappenEvicts(st, op);
      var st' := Happen(st, op);
      forall c, i | c in st'.cameras && 0 <= i < |st'.cameras[c]|
        ensures Capped(st'.cameras[c][i], c, ops)
      {
        if Takes(st, op) && c == op.cameraId {
          PlacedStaysCapped(st, earlier, op, i + Surplus(Placed(st, op)));
        } else {
          CappedGrows(st.cameras[c][i], c, earlier, op);
        }
      }
    }
  }

  lemma LoneFrameStays(frame: Frame)
    ensures Surplus([frame]) == 0 && Kept([frame]) == [frame]
  {
  }

  /** Attaching to the only frame a camera has changes that frame and nothing else. */
  lemma AttachToLoneFrame(st: Store, cameraId: string, frame: Frame, s: Subject)
    requires FramesOf(st, cameraId) == [frame]
    ensures FramesOf(Attached(st, cameraId, frame.frameRef, s).0, cameraId)
         == [frame.(subjects := WithSubject(frame.subjects, Admitted(frame.subjects, s)))]
  {
    var after := frame.(subjects := WithSubject(frame.subjects, Admitted(frame.subjects, s)));
    assert IndexOf([frame], frame.frameRef) == Some(0);
    assert [frame][0 := after] == [after];
    LoneFrameStays(after);
  }

  /** Object ids that differ in length. */
  function Tag(k: nat): (id: string)
    ensures |id| == k
  {
    seq(k, _ => 'o')
  }

  function Person(k: nat, pixels: bool): Subject {
    Subject(Tag(k), (0.0, 0.0, 1.0, 1.0), if pixels then [0] else [], "", true, "person")
  }

  function Picture(subjects: seq<Subject>): Frame {
    Frame("f", 0, 960, 576, [0], subjects)
  }

  /** One frame, and that many objects attached to it in turn, each with pixels. */
  function Crowd(n: nat): seq<Op> {
    if n == 0 then [Remember("cam", Picture([]))] else Crowd(n - 1) + [Attach("cam", "f", Person(n - 1, true))]
  }

  /** What the frame then shows: pixels for the first twelve. */
  function People(n: nat): (people: seq<Subject>)
    ensures |people| == n && forall k :: 0 <= k < n ==> people[k].objectId == Tag(k)
  {
    if n == 0 then [] else People(n - 1) + [Person(n - 1, n - 1 < MAX_CROPS_PER_FRAME)]
  }

  lemma CropCountGrows(subjects: seq<Subject>, s: Subject)
    ensures CropCount(subjects + [s]) == CropCount(subjects) + (if s.crop == [] then 0 else 1)
  {
    assert (subjects + [s])[..|subjects|] == subjects;
  }

  function AtMost(n: nat, limit: nat): nat {
    if n <= limit then n else limit
  }

  lemma {:induction false} PeopleWithPixels(n: nat)
    ensures CropCount(People(n)) == AtMost(n, MAX_CROPS_PER_FRAME)
    decreases n
  {
    if n > 0 {
      PeopleWithPixels(n - 1);
      LastPerson(n - 1, People(n - 1));
    }
  }

  lemma LastPerson(n: nat, people: seq<Subject>)
    ensures CropCount(people + [Person(n, n < MAX_CROPS_PER_FRAME)])
         == CropCount(people) + (if n < MAX_CROPS_PER_FRAME then 1 else 0)
  {
    CropCountGrows(people, Person(n, n < MAX_CROPS_PER_FRAME));
  }

  lemma PersonAt(n: nat, k: nat)
    ensures SubjectAt(People(n), Tag(k)) == if k < n then Some(k) else None
  {
    var people, at := People(n), SubjectAt(People(n), Tag(k));
    if k < n {
      assert people[k].objectId == Tag(k);
    }
    if at.Some? {
      assert |people[at.value].objectId| == k;
    }
  }

  lemma CrowdStarts()
    ensures FramesOf(Run(EMPTY_STORE, Crowd(0)), "cam") == [Picture([])]
  {
    assert Crowd(0)[..0] == [] && Run(EMPTY_STORE, []) == EMPTY_STORE;
    LoneFrameStays(Picture([]));
    assert Without([], "f") + [Picture([])] == [Picture([])];
  }

  lemma CrowdGrows(n: nat)
    ensures Run(EMPTY_STORE, Crowd(n + 1)) == Attached(Run(EMPTY_STORE, Crowd(n)), "cam", "f", Person(n, true)).0
  {
    assert Crowd(n + 1)[..|Crowd(n)|] == Crowd(n);
  }

  lemma OneMorePerson(n: nat)
    ensures WithSubject(People(n), Admitted(People(n), Person(n, true))) == People(n + 1)
  {
    PeopleWithPixels(n);
    PersonAt(n, n);
  }

  lemma {:induction false} CrowdFillsFrame(n: nat)
    ensures FramesOf(Run(EMPTY_STORE, Crowd(n)), "cam") == [Picture(People(n))]
    decreases n
  {
    if n == 0 {
      CrowdStarts();
    } else {
      CrowdFillsFrame(n - 1);
      CrowdGrows(n - 1);
      OneMorePerson(n - 1);
      AttachToLoneFrame(Run(EMPTY_STORE, Crowd(n - 1)), "cam", Picture(People(n - 1)), Person(n - 1, true));
    }
  }

  lemma {:induction false} RefusedHasNoPixels(n: nat, k: nat)
    requires MAX_CROPS_PER_FRAME <= k < n
    ensures People(n)[k].crop == []
    decreases n
  {
    if k < n - 1 {
      RefusedHasNoPixels(n - 1, k);
    }
  }

  /**
    The cap is passed from an empty store: after thirteen or more objects with pixels, any
    one that was refused its crop is attached again.
  */
  lemma ReattachPassesCap(n: nat, k: nat)
    requires MAX_CROPS_PER_FRAME <= k < n
    ensures
      var ops := Crowd(n) + [Attach("cam", "f", Person(k, true))];
      var frames := FramesOf(Run(EMPTY_STORE, ops), "cam");
      |frames| == 1 && CropCount(frames[0].subjects) == MAX_CROPS_PER_FRAME + 1
  {
    var again := Attach("cam", "f", Person(k, true));
    assert (Crowd(n) + [again])[..|Crowd(n)|] == Crowd(n);
    CrowdFillsFrame(n);
    PeopleWithPixels(n);
    PersonAt(n, k);
    RefusedHasNoPixels(n, k);
    AttachToLoneFrame(Run(EMPTY_STORE, Crowd(n)), "cam", Picture(People(n)), Person(k, true));
    CropCountUpdate(People(n), k, Person(k, true));
  }

  /* --------------------------------------------------- an attach and its own frame */

  lemma {:induction false} SuffixStillFits(frames: seq<Frame>, i: nat)
    requires Fits(frames) && i <= |frames|
    ensures Fits(frames[i..])
    decreases i
  {
    if i > 0 {
      SuffixStillFits(frames[1..], i - 1);
      assert frames[1..][i - 1..] == frames[i..];
    }
  }

  /** A place survives eviction exactly when it and every newer one fit together. */
  lemma KeptReachesIff(frames: seq<Frame>, i: nat)
    requires i < |frames|
    ensures Surplus(frames) <= i <==> Fits(frames[i..])
  {
    var k := Surplus(frames);
    KeptIsLongestFittingSuffix(frames);
    if k <= i {
      SuffixStillFits(frames[k..], i - k);
      assert frames[k..][i - k..] == frames[i..];
    }
  }

  lemma KeptHoldsIff(frames: seq<Frame>, i: nat)
    requires DistinctRefs(frames) && i < |frames|
    ensures IndexOf(Kept(frames), frames[i].frameRef).Some? <==> Fits(frames[i..])
  {
    var k := Surplus(frames);
    KeptReachesIff(frames, i);
    if k <= i {
      assert frames[k..][i - k].frameRef == frames[i].frameRef;
    }
  }

  /**
    What happens to the frame a subject is attached to: the call succeeds exactly when the
    frame is retained, and the frame is still retained afterwards exactly when it, with the
    subject on it, and every newer frame fit the ceilings together.
  */
  lemma AttachKeepsItsFrameIff(st: Store, cameraId: string, frameRef: string, s: Subject)
    requires Bounded(st)
    ensures
      var (st', ok) := Attached(st, cameraId, frameRef, s);
      var at, placed := IndexOf(FramesOf(st, cameraId), frameRef), Placed(st, Attach(cameraId, frameRef, s));
      && (ok <==> at.Some?)
      && (ok ==> at.value < |placed| && placed[at.value].frameRef == frameRef)
      && (ok ==> (IndexOf(FramesOf(st', cameraId), frameRef).Some? <==> Fits(placed[at.value..])))
  {
    var op := Attach(cameraId, frameRef, s);
    var at, placed := IndexOf(FramesOf(st, cameraId), frameRef), Placed(st, op);
    if at.Some? {
      HappenEvicts(st, op);
      PlacedStaysDistinct(st, op);
      KeptHoldsIff(placed, at.value);
    }
  }

  /** A crop over the byte ceiling on the older of two frames. */
  lemma HeavyCropEvictsFrame(st: Store, cameraId: string, older: Frame, newer: Frame, s: Subject)
    requires FramesOf(st, cameraId) == [older, newer] && older.frameRef != newer.frameRef && older.subjects == []
    requires |s.crop| > MAX_BYTES_PER_CAMERA
    ensures
      var (st', ok) := Attached(st, cameraId, older.frameRef, s);
      ok && FramesOf(st', cameraId) == [newer]
  {
    var admitted := Admitted([], s);
    var heavier := older.(subjects := [admitted]);
    var frames := [heavier, newer];
    assert IndexOf([older, newer], older.frameRef) == Some(0);
    assert [older, newer][0 := heavier] == frames;
    assert WithSubject([], admitted) == [admitted];
    assert CropBytes([admitted]) == |s.crop| + CropBytes([admitted][1..]);
    assert !Fits(frames) && frames[1..] == [newer] && Fits([newer]);
    assert Surplus(frames[1..]) == 0 && Surplus(frames) == 1;
    assert Kept(frames) == [newer];
  }

  lemma RunPrefix(ops: seq<Op>, k: nat)
    requires k < |ops|
    ensures Run(EMPTY_STORE, ops[..k + 1]) == Happen(Run(EMPTY_STORE, ops[..k]), ops[k])
  {
    assert ops[..k + 1][..k] == ops[..k];
  }

  /** A new frame that fits beside the others is added to them. */
  lemma RememberAdds(st: Store, cameraId: string, frame: Frame)
    requires frame.jpeg != [] && IndexOf(FramesOf(st, cameraId), frame.frameRef).None?
    requires Fits(FramesOf(st, cameraId) + [frame.(subjects := [])])
    ensures FramesOf(Remembered(st, cameraId, frame), cameraId) == FramesOf(st, cameraId) + [frame.(subjects := [])]
  {
    var frames := FramesOf(st, cameraId);
    WithoutAbsent(frames, frame.frameRef);
    FittingStays(frames + [frame.(subjects := [])]);
  }

  lemma FittingStays(frames: seq<Frame>)
    requires Fits(frames)
    ensures Surplus(frames) == 0 && Kept(frames) == frames
  {
  }

  lemma TotalOfTwo(a: Frame, b: Frame)
    ensures Total([a, b]) == a.Size() + b.Size()
  {
    assert [a, b][1..] == [b] && [b][1..] == [];
    assert Total([b]) == b.Size() + Total([]);
  }

  lemma TwoRemembered(cameraId: string, older: Frame, newer: Frame, ops: seq<Op>)
    requires |ops| >= 2 && ops[0] == Remember(cameraId, older) && ops[1] == Remember(cameraId, newer)
    requires older.frameRef != newer.frameRef && older.jpeg != [] && newer.jpeg != []
    requires |older.jpeg| + |newer.jpeg| <= MAX_BYTES_PER_CAMERA
    ensures FramesOf(Run(EMPTY_STORE, ops[..2]), cameraId) == [older.(subjects := []), newer.(subjects := [])]
  {
    var a, b := older.(subjects := []), newer.(subjects := []);
    assert ops[..0] == [];
    RunPrefix(ops, 0);
    RememberAdds(EMPTY_STORE, cameraId, older);
    assert [] + [a] == [a];
    RunPrefix(ops, 1);
    TotalOfTwo(a, b);
    assert [a] + [b] == [a, b];
    RememberAdds(Run(EMPTY_STORE, ops[..1]), cameraId, newer);
  }

  /**
    From an empty store, an attach that succeeds and loses its own frame: two frames are
    remembered and a crop over the byte ceiling is attached to the older.
  */
  lemma AttachCanEvictItsFrame(cameraId: string, older: Frame, newer: Frame, s: Subject, ops: seq<Op>)
    requires |ops| == 3 && ops[0] == Remember(cameraId, older) && ops[1] == Remember(cameraId, newer)
    requires ops[2] == Attach(cameraId, older.frameRef, s)
    requires older.frameRef != newer.frameRef && older.jpeg != [] && newer.jpeg != []
    requires |older.jpeg| + |newer.jpeg| <= MAX_BYTES_PER_CAMERA < |s.crop|
    ensures Attached(Run(EMPTY_STORE, ops[..2]), cameraId, older.frameRef, s).1
    ensures FramesOf(Run(EMPTY_STORE, ops), cameraId) == [newer.(subjects := [])]
  {
    TwoRemembered(cameraId, older, newer, ops);
    HeavyCropEvictsFrame(Run(EMPTY_STORE, ops[..2]), cameraId, older.(subjects := []), newer.(subjects := []), s);
    RunPrefix(ops, 2);
    assert ops[..3] == ops;
  }

  /* ------------------------------------------------------------ the cap over a run */

  /** Such an attach, on a frame that then stays retained. */
  predicate PassesCap(st: Store, op: Op) {
    && op.Attach? && Takes(st, op)
    && var frames, i := FramesOf(st, op.cameraId), IndexOf(FramesOf(st, op.cameraId), op.frameRef).value;
       MissesCap(frames[i].subjects, op.subject) && Fits(Placed(st, op)[i..])
  }

  /** At most twelve crops. */
  predicate IsWithinCap(frame: Frame) {
    CropCount(frame.subjects) <= MAX_CROPS_PER_FRAME
  }

  ghost predicate FramesWithinCap(frames: seq<Frame>) {
    forall i :: 0 <= i < |frames| ==> IsWithinCap(frames[i])
  }

  ghost predicate WithinCap(st: Store) {
    forall c :: c in st.cameras ==> FramesWithinCap(st.cameras[c])
  }

  /** What holds of every frame but one holds of a suffix unless that one is in it and fails. */
  lemma SuffixHoldsIff(frames: seq<Frame>, k: nat, i: nat, holds: Frame -> bool)
    requires k <= |frames| && i < |frames|
    requires forall j :: 0 <= j < |frames| && j != i ==> holds(frames[j])
    ensures (forall j :: 0 <= j < |frames[k..]| ==> holds(frames[k..][j])) <==> (k <= i ==> holds(frames[i]))
  {
    if k <= i {
      assert frames[k..][i - k] == frames[i];
    }
  }

  lemma SuffixHolds(frames: seq<Frame>, k: nat, holds: Frame -> bool)
    requires k <= |frames| && forall j :: 0 <= j < |frames| ==> holds(frames[j])
    ensures forall j :: 0 <= j < |frames[k..]| ==> holds(frames[k..][j])
  {
  }

  lemma KeptStaysWithinCap(frames: seq<Frame>)
    requires FramesWithinCap(frames)
    ensures FramesWithinCap(Kept(frames))
  {
    SuffixHolds(frames, Surplus(frames), IsWithinCap);
  }

  lemma WithoutStaysWithinCap(frames: seq<Frame>, frameRef: string)
    requires FramesWithinCap(frames)
    ensures FramesWithinCap(Without(frames, frameRef))
  {
    WithoutMembers(frames, frameRef);
    var rest := Without(frames, frameRef);
    forall i | 0 <= i < |rest|
      ensures IsWithinCap(rest[i])
    {
      assert rest[i] in rest;
      assert rest[i] in frames;
    }
  }

  lemma RememberStaysWithinCap(frames: seq<Frame>, frame: Frame)
    requires FramesWithinCap(frames)
    ensures FramesWithinCap(Kept(Without(frames, frame.frameRef) + [frame.(subjects := [])]))
  {
    WithoutStaysWithinCap(frames, frame.frameRef);
    KeptStaysWithinCap(Without(frames, frame.frameRef) + [frame.(subjects := [])]);
  }

  lemma AttachWithinCapIff(frames: seq<Frame>, i: nat, s: Subject)
    requires FramesWithinCap(frames) && i < |frames|
    ensures
      var subjects := frames[i].subjects;
      var placed := frames[i := frames[i].(subjects := WithSubject(subjects, Admitted(subjects, s)))];
      FramesWithinCap(Kept(placed)) <==> !(MissesCap(subjects, s) && Fits(placed[i..]))
  {
    var subjects := frames[i].subjects;
    var after := frames[i].(subjects := WithSubject(subjects, Admitted(subjects, s)));
    var placed := frames[i := after];
    AttachedFrameWithinCapIff(frames[i], s);
    KeptReachesIff(placed, i);
    SuffixHoldsIff(placed, Surplus(placed), i, IsWithinCap);
  }

  lemma AttachedFrameWithinCapIff(frame: Frame, s: Subject)
    requires IsWithinCap(frame)
    ensures
      var after := frame.(subjects := WithSubject(frame.subjects, Admitted(frame.subjects, s)));
      IsWithinCap(after) <==> !MissesCap(frame.subjects, s)
  {
    CropCapIff(frame.subjects, s);
  }

  lemma OneCameraDecides(st: Store, op: Op)
    requires WithinCap(st) && Takes(st, op)
    ensures FramesWithinCap(FramesOf(st, op.cameraId))
    ensures WithinCap(Happen(st, op)) <==> FramesWithinCap(Kept(Placed(st, op)))
  {
    HappenEvicts(st, op);
    var st' := Happen(st, op);
    assert st'.cameras[op.cameraId] == Kept(Placed(st, op));
    assert forall c :: c in st'.cameras && c != op.cameraId ==> c in st.cameras && st'.cameras[c] == st.cameras[c];
  }

  lemma CapStepIff(st: Store, op: Op)
    requires WithinCap(st)
    ensures WithinCap(Happen(st, op)) <==> !PassesCap(st, op)
  {
    HappenEvicts(st, op);
    if Takes(st, op) {
      OneCameraDecides(st, op);
      var frames := FramesOf(st, op.cameraId);
      match op
      case Remember(_, frame) => RememberStaysWithinCap(frames, frame);
      case Attach(_, frameRef, s) => AttachWithinCapIff(frames, IndexOf(frames, frameRef).value, s);
    }
  }

  /** At every moment of a run. */
  ghost predicate AlwaysWithinCap(ops: seq<Op>) {
    WithinCap(Run(EMPTY_STORE, ops)) && (ops != [] ==> AlwaysWithinCap(ops[..|ops| - 1]))
  }

  /** No operation of a run passes the cap, in the state it finds. */
  ghost predicate NeverPassesCap(ops: seq<Op>) {
    ops != [] ==>
      && NeverPassesCap(ops[..|ops| - 1])
      && !PassesCap(Run(EMPTY_STORE, ops[..|ops| - 1]), ops[|ops| - 1])
  }

  /**
    The cap over runs: no retained frame ever holds more than twelve crops exactly when no
    attach of the run gives pixels to an object recorded without any, on a full frame that
    then stays retained.
  */
  lemma {:induction false} CropCapAlwaysIff(ops: seq<Op>)
    ensures AlwaysWithinCap(ops) <==> NeverPassesCap(ops)
    decreases |ops|
  {
    if ops != [] {
      var earlier := ops[..|ops| - 1];
      CropCapAlwaysIff(earlier);
      if AlwaysWithinCap(earlier) {
        CapStepIff(Run(EMPTY_STORE, earlier), ops[|ops| - 1]);
      }
    }
  }

  /* ------------------------------------------------------------------- look-ups */

  predicate Candidate(f: Frame, objectId: string, at: int) {
    f.Shows(objectId) && f.capturedAtNs <= at
  }

  /** The frame shows the object, is not after the instant, and is within the tolerance of it. */
  predicate Qualifies(f: Frame, objectId: string, at: int, toleranceNs: int) {
    && (exists i :: 0 <= i < |f.subjects| && f.subjects[i].objectId == objectId)
    && at - toleranceNs <= f.capturedAtNs <= at
  }

  /** The reverse scan with its early exit. */
  function Scan(frames: seq<Frame>, objectId: string, at: int, toleranceNs: int): (r: Option<nat>)
    ensures r.Some? ==> r.value < |frames| && Qualifies(frames[r.value], objectId, at, toleranceNs)
  {
    if frames == [] then None
    else
      var n := |frames| - 1;
      if !Candidate(frames[n], objectId, at) then Scan(frames[..n], objectId, at, toleranceNs)
      else if at - frames[n].capturedAtNs > toleranceNs then None
      else Some(n)
  }

  /** The newest candidate by ring position, if any. */
  ghost predicate LastCandidate(frames: seq<Frame>, objectId: string, at: int, p: nat) {
    && p < |frames| && Candidate(frames[p], objectId, at)
    && forall j :: p < j < |frames| ==> !Candidate(frames[j], objectId, at)
  }

  lemma {:induction false} ScanLooksAtLastCandidate(frames: seq<Frame>, objectId: string, at: int, toleranceNs: int)
    returns (p: Option<nat>)
    ensures p.Some? ==> LastCandidate(frames, objectId, at, p.value)
    ensures p.None? ==> forall j :: 0 <= j < |frames| ==> !Candidate(frames[j], objectId, at)
    ensures Scan(frames, objectId, at, toleranceNs)
         == if p.Some? && at - frames[p.value].capturedAtNs <= toleranceNs then p else None
    decreases |frames|
  {
    if frames == [] {
      return None;
    }
    var n := |frames| - 1;
    if Candidate(frames[n], objectId, at) {
      return Some(n);
    }
    p := ScanLooksAtLastCandidate(frames[..n], objectId, at, toleranceNs);
  }

  /**
    Brute force over all retained frames: a qualifying frame that no qualifying frame is
    newer than, or none at all.
  */
  ghost predicate IsNewest(frames: seq<Frame>, objectId: string, at: int, toleranceNs: int, r: Option<nat>) {
    match r
    case None => forall j :: 0 <= j < |frames| ==> !Qualifies(frames[j], objectId, at, toleranceNs)
    case Some(i) =>
      && i < |frames| && Qualifies(frames[i], objectId, at, toleranceNs)
      && forall j :: 0 <= j < |frames| && Qualifies(frames[j], objectId, at, toleranceNs)
           ==> frames[j].capturedAtNs <= frames[i].capturedAtNs
  }

  ghost predicate CaptureOrder(frames: seq<Frame>) {
    forall i, j :: 0 <= i < j < |frames| ==> frames[i].capturedAtNs <= frames[j].capturedAtNs
  }

  /** No candidate within tolerance is newer than the last-inserted candidate. */
  ghost predicate LastInsertedIsNewest(frames: seq<Frame>, objectId: string, at: int, toleranceNs: int) {
    forall p: nat, j: nat :: LastCandidate(frames, objectId, at, p) && j < |frames|
                   && Qualifies(frames[j], objectId, at, toleranceNs)
      ==> frames[j].capturedAtNs <= frames[p].capturedAtNs
  }

  /**
    `nearest_before` on any ring at all: it is the brute-force answer exactly when the
    last-inserted candidate is the newest one that qualifies.
  */
  lemma ScanIsNewestIff(frames: seq<Frame>, objectId: string, at: int, toleranceNs: int)
    ensures IsNewest(frames, objectId, at, toleranceNs, Scan(frames, objectId, at, toleranceNs))
       <==> LastInsertedIsNewest(frames, objectId, at, toleranceNs)
  {
    var p := ScanLooksAtLastCandidate(frames, objectId, at, toleranceNs);
    var r := Scan(frames, objectId, at, toleranceNs);
    if p.None? {
      assert forall j :: 0 <= j < |frames| ==> !Qualifies(frames[j], objectId, at, toleranceNs);
    } else {
      assert forall q: nat :: LastCandidate(frames, objectId, at, q) ==> q == p.value;
      assert LastCandidate(frames, objectId, at, p.value);
      if r.None? && IsNewest(frames, objectId, at, toleranceNs, r) {
        assert forall j :: 0 <= j < |frames| ==> !Qualifies(frames[j], objectId, at, toleranceNs);
      }
      if r.None? && LastInsertedIsNewest(frames, objectId, at, toleranceNs) {
        forall j | 0 <= j < |frames|
          ensures !Qualifies(frames[j], objectId, at, toleranceNs)
        {
        }
      }
    }
  }

  /** With frames inserted in capture order the early exit loses nothing. */
  lemma CaptureOrderMakesScanExact(frames: seq<Frame>, objectId: string, at: int, toleranceNs: int)
    requires CaptureOrder(frames)
    ensures IsNewest(frames, objectId, at, toleranceNs, Scan(frames, objectId, at, toleranceNs))
  {
    ScanIsNewestIff(frames, objectId, at, toleranceNs);
  }

  lemma StaleFrameHides(frames: seq<Frame>, objectId: string, at: int, toleranceNs: int)
    requires |frames| == 2 && frames[0].Shows(objectId) && frames[1].Shows(objectId) && toleranceNs >= 0
    requires frames[0].capturedAtNs == at && at - frames[1].capturedAtNs > toleranceNs
    ensures Scan(frames, objectId, at, toleranceNs).None? && Qualifies(frames[0], objectId, at, toleranceNs)
  {
  }

  /** Attaching to a frame with nothing on it yet, when everything still fits. */
  lemma AttachAdds(st: Store, cameraId: string, i: nat, s: Subject)
    requires i < |FramesOf(st, cameraId)| && FramesOf(st, cameraId)[i].subjects == []
    requires IndexOf(FramesOf(st, cameraId), FramesOf(st, cameraId)[i].frameRef) == Some(i)
    requires Fits(FramesOf(st, cameraId)[i := FramesOf(st, cameraId)[i].(subjects := [s])])
    ensures
      var frames := FramesOf(st, cameraId);
      FramesOf(Attached(st, cameraId, frames[i].frameRef, s).0, cameraId) == frames[i := frames[i].(subjects := [s])]
  {
    var frames := FramesOf(st, cameraId);
    assert WithSubject([], Admitted([], s)) == [s];
    FittingStays(frames[i := frames[i].(subjects := [s])]);
  }

  lemma ShownSize(frame: Frame, s: Subject)
    ensures frame.(subjects := [s]).Size() == |frame.jpeg| + |s.crop| && frame.(subjects := [s]).Shows(s.objectId)
  {
    assert [s][1..] == [];
    assert CropBytes([s]) == |s.crop| + CropBytes([]);
    assert [s][0].objectId == s.objectId;
  }

  /** Two frames and the object attached to both, everything fitting. */
  lemma BothShown(st: Store, cameraId: string, f: Frame, g: Frame, s: Subject)
    requires FramesOf(st, cameraId) == [f, g] && f.subjects == [] && g.subjects == [] && f.frameRef != g.frameRef
    requires |f.jpeg| + |g.jpeg| + 2 * |s.crop| <= MAX_BYTES_PER_CAMERA
    ensures
      var st' := Attached(Attached(st, cameraId, f.frameRef, s).0, cameraId, g.frameRef, s).0;
      FramesOf(st', cameraId) == [f.(subjects := [s]), g.(subjects := [s])]
  {
    var f', g' := f.(subjects := [s]), g.(subjects := [s]);
    ShownSize(f, s);
    ShownSize(g, s);
    TotalOfTwo(f', g);
    TotalOfTwo(f', g');
    assert IndexOf([f, g], f.frameRef) == Some(0) && [f, g][0 := f'] == [f', g];
    AttachAdds(st, cameraId, 0, s);
    assert IndexOf([f', g], g.frameRef) == Some(1) && [f', g][1 := g'] == [f', g'];
    AttachAdds(Attached(st, cameraId, f.frameRef, s).0, cameraId, 1, s);
  }

  lemma LastTwo(ops: seq<Op>)
    requires |ops| == 4
    ensures Run(EMPTY_STORE, ops) == Happen(Happen(Run(EMPTY_STORE, ops[..2]), ops[2]), ops[3])
  {
    var second, third := Run(EMPTY_STORE, ops[..2]), Run(EMPTY_STORE, ops[..3]);
    assert third == Happen(second, ops[2]) by {
      RunPrefix(ops, 2);
    }
    assert Run(EMPTY_STORE, ops) == Happen(third, ops[3]) by {
      RunPrefix(ops, 3);
      assert ops[..4] == ops;
    }
  }

  lemma BothShownAfter(cameraId: string, f: Frame, g: Frame, s: Subject, ops: seq<Op>)
    requires |ops| == 4 && ops[0] == Remember(cameraId, f) && ops[1] == Remember(cameraId, g)
    requires ops[2] == Attach(cameraId, f.frameRef, s) && ops[3] == Attach(cameraId, g.frameRef, s)
    requires f.frameRef != g.frameRef && f.jpeg != [] && g.jpeg != []
    requires |f.jpeg| + |g.jpeg| + 2 * |s.crop| <= MAX_BYTES_PER_CAMERA
    ensures FramesOf(Run(EMPTY_STORE, ops), cameraId) == [f.(subjects := [s]), g.(subjects := [s])]
  {
    TwoRemembered(cameraId, f, g, ops);
    BothShown(Run(EMPTY_STORE, ops[..2]), cameraId, f.(subjects := []), g.(subjects := []), s);
    LastTwo(ops);
  }

  /**
    Out of capture order it does, from an empty store: two frames, the later-remembered one
    captured before the tolerance, and the object attached to both. The frame captured at the
    very instant asked for is retained, shows the object, and is not found.
  */
  lemma OutOfOrderHidesFrame(cameraId: string, recent: Frame, stale: Frame, s: Subject, ops: seq<Op>,
                             toleranceNs: nat)
    requires |ops| == 4 && ops[0] == Remember(cameraId, recent) && ops[1] == Remember(cameraId, stale)
    requires ops[2] == Attach(cameraId, recent.frameRef, s) && ops[3] == Attach(cameraId, stale.frameRef, s)
    requires recent.frameRef != stale.frameRef && recent.jpeg != [] && stale.jpeg != []
    requires |recent.jpeg| + |stale.jpeg| + 2 * |s.crop| <= MAX_BYTES_PER_CAMERA
    requires recent.capturedAtNs - stale.capturedAtNs > toleranceNs
    ensures
      var frames, at := FramesOf(Run(EMPTY_STORE, ops), cameraId), recent.capturedAtNs;
      && Scan(frames, s.objectId, at, toleranceNs).None?
      && |frames| == 2 && Qualifies(frames[0], s.objectId, at, toleranceNs)
  {
    BothShownAfter(cameraId, recent, stale, s, ops);
    ShownSize(recent, s);
    ShownSize(stale, s);
    StaleFrameHides([recent.(subjects := [s]), stale.(subjects := [s])], s.objectId, recent.capturedAtNs, toleranceNs);
  }

  lemma {:induction false} WithoutKeepsOrder(frames: seq<Frame>, frameRef: string)
    requires CaptureOrder(frames)
    ensures CaptureOrder(Without(frames, frameRef))
    decreases |frames|
  {
    if frames != [] {
      WithoutKeepsOrder(frames[1..], frameRef);
      WithoutMembers(frames[1..], frameRef);
    }
  }

  predicate StoresAt(op: Op, cameraId: string, capturedAtNs: int) {
    op.Remember? && op.frame.jpeg != [] && op.cameraId == cameraId && op.frame.capturedAtNs == capturedAtNs
  }

  ghost predicate WasStoredAt(ops: seq<Op>, cameraId: string, capturedAtNs: int) {
    exists k :: 0 <= k < |ops| && StoresAt(ops[k], cameraId, capturedAtNs)
  }

  /** Each camera's frames are remembered in nondecreasing capture order. */
  ghost predicate RemembersInOrder(ops: seq<Op>) {
    forall i, j :: 0 <= i < j < |ops| && ops[i].Remember? && ops[j].Remember? && ops[i].cameraId == ops[j].cameraId
      ==> ops[i].frame.capturedAtNs <= ops[j].frame.capturedAtNs
  }

  /** In capture order, and every capture time is that of a frame the run stored. */
  ghost predicate OrderedBy(frames: seq<Frame>, cameraId: string, ops: seq<Op>) {
    CaptureOrder(frames) && forall i :: 0 <= i < |frames| ==> WasStoredAt(ops, cameraId, frames[i].capturedAtNs)
  }

  lemma OrderedGrows(frames: seq<Frame>, cameraId: string, ops: seq<Op>, op: Op)
    requires OrderedBy(frames, cameraId, ops)
    ensures OrderedBy(frames, cameraId, ops + [op])
  {
    forall i | 0 <= i < |frames|
      ensures WasStoredAt(ops + [op], cameraId, frames[i].capturedAtNs)
    {
      var k :| 0 <= k < |ops| && StoresAt(ops[k], cameraId, frames[i].capturedAtNs);
      assert (ops + [op])[k] == ops[k];
    }
  }

  lemma StoredIsNotAfter(ops: seq<Op>, op: Op, capturedAtNs: int)
    requires op.Remember? && RemembersInOrder(ops + [op]) && WasStoredAt(ops, op.cameraId, capturedAtNs)
    ensures capturedAtNs <= op.frame.capturedAtNs
  {
    var k :| 0 <= k < |ops| && StoresAt(ops[k], op.cameraId, capturedAtNs);
    assert (ops + [op])[k] == ops[k] && (ops + [op])[|ops|] == op;
  }

  lemma RememberedStaysOrdered(frames: seq<Frame>, ops: seq<Op>, op: Op)
    requires op.Remember? && op.frame.jpeg != [] && RemembersInOrder(ops + [op]) && OrderedBy(frames, op.cameraId, ops)
    ensures OrderedBy(frames + [op.frame.(subjects := [])], op.cameraId, ops + [op])
  {
    OrderedGrows(frames, op.cameraId, ops, op);
    forall i | 0 <= i < |frames|
      ensures frames[i].capturedAtNs <= op.frame.capturedAtNs
    {
      StoredIsNotAfter(ops, op, frames[i].capturedAtNs);
    }
    assert StoresAt((ops + [op])[|ops|], op.cameraId, op.frame.capturedAtNs);
  }

  lemma WithoutStaysOrdered(frames: seq<Frame>, frameRef: string, cameraId: string, ops: seq<Op>)
    requires OrderedBy(frames, cameraId, ops)
    ensures OrderedBy(Without(frames, frameRef), cameraId, ops)
  {
    WithoutKeepsOrder(frames, frameRef);
    WithoutMembers(frames, frameRef);
    var rest := Without(frames, frameRef);
    forall i | 0 <= i < |rest|
      ensures WasStoredAt(ops, cameraId, rest[i].capturedAtNs)
    {
      assert rest[i] in rest;
    }
  }

  lemma PlacedStaysOrdered(st: Store, ops: seq<Op>, op: Op)
    requires OrderedBy(FramesOf(st, op.cameraId), op.cameraId, ops) && RemembersInOrder(ops + [op])
    ensures OrderedBy(Placed(st, op), op.cameraId, ops + [op])
  {
    var frames := FramesOf(st, op.cameraId);
    if op.Remember? && op.frame.jpeg != [] {
      WithoutStaysOrdered(frames, op.frame.frameRef, op.cameraId, ops);
      RememberedStaysOrdered(Without(frames, op.frame.frameRef), ops, op);
    } else {
      OrderedGrows(frames, op.cameraId, ops, op);
      assert forall i :: 0 <= i < |frames| ==> Placed(st, op)[i].capturedAtNs == frames[i].capturedAtNs;
    }
  }

  lemma {:induction false} RunKeepsCaptureOrder(ops: seq<Op>, cameraId: string)
    requires RemembersInOrder(ops)
    ensures OrderedBy(FramesOf(Run(EMPTY_STORE, ops), cameraId), cameraId, ops)
    decreases |ops|
  {
    if ops != [] {
      var earlier, op := ops[..|ops| - 1], ops[|ops| - 1];
      assert ops == earlier + [op];
      RunKeepsCaptureOrder(earlier, cameraId);
      var st := Run(EMPTY_STORE, earlier);
      HappenEvicts(st, op);
      if Takes(st, op) && op.cameraId == cameraId {
        PlacedStaysOrdered(st, earlier, op);
      } else {
        OrderedGrows(FramesOf(st, cameraId), cameraId, earlier, op);
      }
    }
  }

  /**
    Over every run that remembers each camera's frames in nondecreasing capture order, with
    any attachments and evictions between, `nearest_before` is the brute-force maximum over
    everything retained.
  */
  lemma NearestBeforeIsExact(ops: seq<Op>, cameraId: string, objectId: string, at: int, toleranceNs: int)
    requires RemembersInOrder(ops)
    ensures
      var frames := FramesOf(Run(EMPTY_STORE, ops), cameraId);
      IsNewest(frames, objectId, at, toleranceNs, Scan(frames, objectId, at, toleranceNs))
  {
    RunKeepsCaptureOrder(ops, cameraId);
    CaptureOrderMakesScanExact(FramesOf(Run(EMPTY_STORE, ops), cameraId), objectId, at, toleranceNs);
  }

  /* ------------------------------------------------------------------- the class */

  class DecisionFrameStore {
    var cameras: map<string, seq<Frame>>
    var stores: nat
    var evictions: nat
    var hits: nat
    var misses: nat
    var cropsRetained: nat
    var cropsDropped: nat

    ghost function View(): Store
      reads this
    {
      Store(cameras, stores, evictions, cropsRetained, cropsDropped)
    }

    /** Both ceilings and distinct refs, for every camera. */
    ghost predicate Valid()
      reads this
    {
      Bounded(View())
    }

    constructor ()
      ensures Valid() && View() == EMPTY_STORE && hits == misses == 0
    {
      cameras := map[];
      stores, evictions, hits, misses, cropsRetained, cropsDropped := 0, 0, 0, 0, 0, 0;
    }

    /** `_evict`: two loops, the second with a running byte total. */
    method EvictFrom(frames0: seq<Frame>) returns (frames: seq<Frame>)
      modifies this`evictions
      ensures frames == Kept(frames0)
      ensures evictions == old(evictions) + Surplus(frames0)
    {
      frames := frames0;
      while |frames| > MAX_FRAMES_PER_CAMERA
        invariant Kept(frames) == Kept(frames0)
        invariant evictions + Surplus(frames) == old(evictions) + Surplus(frames0)
        decreases |frames|
      {
        EvictOne(frames);
        frames := frames[1..];
        evictions := evictions + 1;
      }
      var total := Total(frames);
      while total > MAX_BYTES_PER_CAMERA && |frames| > 1
        invariant Kept(frames) == Kept(frames0) && |frames| <= MAX_FRAMES_PER_CAMERA
        invariant total == Total(frames)
        invariant evictions + Surplus(frames) == old(evictions) + Surplus(frames0)
        decreases |frames|
      {
        EvictOne(frames);
        total := total - frames[0].Size();
        frames := frames[1..];
        evictions := evictions + 1;
      }
    }

    method Remember(cameraId: string, frame: Frame)
      requires Valid()
      modifies this
      ensures Valid()
      ensures View() == Remembered(old(View()), cameraId, frame)
      ensures hits == old(hits) && misses == old(misses)
    {
      HappenKeepsBounds(View(), Op.Remember(cameraId, frame));
      if frame.jpeg == [] {
        return;
      }
      var frames := if cameraId in cameras then cameras[cameraId] else [];
      frames := Without(frames, frame.frameRef) + [frame.(subjects := [])];
      stores := stores + 1;
      frames := EvictFrom(frames);
      cameras := cameras[cameraId := frames];
    }

    method AttachSubject(cameraId: string, frameRef: string, s: Subject) returns (ok: bool)
      requires Valid()
      modifies this
      ensures Valid()
      ensures (View(), ok) == Attached(old(View()), cameraId, frameRef, s)
      ensures hits == old(hits) && misses == old(misses)
    {
      HappenKeepsBounds(View(), Attach(cameraId, frameRef, s));
      var frames := if cameraId in cameras then cameras[cameraId] else [];
      var at := IndexOf(frames, frameRef);
      if at.None? {
        return false;
      }
      AttachAt(cameraId, at.value, s);
      return true;
    }

    /** The part of `attach_subject` after the frame was found. */
    method AttachAt(cameraId: string, i: nat, s: Subject)
      requires i < |FramesOf(View(), cameraId)|
      modifies this`cameras, this`evictions, this`cropsRetained, this`cropsDropped
      ensures View() == AttachedAt(old(View()), cameraId, i, s)
    {
      var frames := if cameraId in cameras then cameras[cameraId] else [];
      var subjects := frames[i].subjects;
      var kept := AdmitCrop(subjects, s);
      frames := frames[i := frames[i].(subjects := WithSubject(subjects, kept))];
      frames := EvictFrom(frames);
      cameras := cameras[cameraId := frames];
    }

    /** The cap on crops, tested for an object new to the frame. */
    method AdmitCrop(subjects: seq<Subject>, s: Subject) returns (kept: Subject)
      modifies this`cropsRetained, this`cropsDropped
      ensures kept == Admitted(subjects, s)
      ensures cropsRetained == old(cropsRetained) + (if kept.crop == [] then 0 else 1)
      ensures cropsDropped == old(cropsDropped) + (if CropRefused(subjects, s) then 1 else 0)
    {
      kept := s;
      if s.crop != [] && SubjectAt(subjects, s.objectId).None? {
        if CropCount(subjects) >= MAX_CROPS_PER_FRAME {
          kept := s.(crop := []);
          cropsDropped := cropsDropped + 1;
        }
      }
      cropsRetained := cropsRetained + (if kept.crop == [] then 0 else 1);
    }

    method NearestBefore(cameraId: string, objectId: string, at: int, toleranceNs: int) returns (best: Option<Frame>)
      modifies this`hits, this`misses
      ensures var frames := FramesOf(View(), cameraId);
              var r := Scan(frames, objectId, at, toleranceNs);
              best == if r.Some? then Some(frames[r.value]) else None
      ensures best.Some? ==> Qualifies(best.value, objectId, at, toleranceNs)
      ensures hits == old(hits) + (if best.Some? then 1 else 0)
      ensures misses == old(misses) + (if best.Some? then 0 else 1)
    {
      best := None;
      var frames := if cameraId in cameras then cameras[cameraId] else [];
      var i := |frames|;
      assert frames[..i] == frames;
      while i > 0
        invariant 0 <= i <= |frames|
        invariant best.None? && Scan(frames, objectId, at, toleranceNs) == Scan(frames[..i], objectId, at, toleranceNs)
      {
        i := i - 1;
        assert frames[..i + 1][..i] == frames[..i];
        var frame := frames[i];
        if !frame.Shows(objectId) || frame.capturedAtNs > at {
          continue;
        }
        if at - frame.capturedAtNs <= toleranceNs {
          best := Some(frame);
        }
        break;
      }
      if best.None? {
        misses := misses + 1;
      } else {
        hits := hits + 1;
      }
    }
  }
}
