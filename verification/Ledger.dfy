/**
  The frame ledger (app/vision/ledger.py): per camera, a bounded ring of frame
  descriptors and an index from frame ref to descriptor that must agree with it.

  The outer dictionary is a sequence of camera ledgers in insertion order. A camera's bound
  is always `DEFAULT_LEDGER_CAPACITY`: the constructor's `capacity` reaches no camera ledger.
*/
module Ledger {
  import opened Basics
  import opened FrameRefs

  const CAPACITY := 5_000

  /* -------------------------------------------------------------------- entries */

  datatype Identity = Identity(
    cameraId: string,
    sequence: int,
    epoch: int,
    capturedAtNs: int,
    receivedAtNs: int,
    width: int,
    height: int,
    sourceKind: string)

  datatype FrameEntry = FrameEntry(
    identity: Identity,
    frameRef: string,
    processed: bool,
    countsReported: bool,
    processingMs: real,
    detectionCount: int,
    observationCount: int,
    objectIds: seq<string>,
    evidenceRefs: seq<string>,
    error: string)

  function RefOf(identity: Identity): string {
    FrameRef(identity.cameraId, identity.epoch, identity.sequence)
  }

  function NewEntry(identity: Identity): FrameEntry {
    FrameEntry(identity, RefOf(identity), false, false, 0.0, 0, 0, [], [], "")
  }

  /** The optional arguments of `annotate`. */
  datatype Annotation = Annotation(
    processingMs: Option<real>,
    detectionCount: Option<int>,
    observationCount: Option<int>,
    objectIds: Option<seq<string>>,
    evidenceRefs: Option<seq<string>>,
    error: Option<string>)

  function Pick<T>(incoming: Option<T>, existing: T): T {
    if incoming.None? then existing else incoming.value
  }

  function Annotated(e: FrameEntry, a: Annotation): FrameEntry {
    FrameEntry(e.identity, e.frameRef, true, e.countsReported || a.detectionCount.Some? || a.observationCount.Some?,
               Pick(a.processingMs, e.processingMs), Pick(a.detectionCount, e.detectionCount),
               Pick(a.observationCount, e.observationCount), Pick(a.objectIds, e.objectIds),
               Pick(a.evidenceRefs, e.evidenceRefs), Pick(a.error, e.error))
  }

  /* ------------------------------------------------------------- a camera's ledger */

  datatype CameraLedger = CameraLedger(cameraId: string, entries: seq<FrameEntry>, byRef: map<string, FrameEntry>)

  /** `record` on one camera: the deque evicts silently and the index follows. */
  function Recorded(l: CameraLedger, e: FrameEntry): CameraLedger {
    var full := |l.entries| > 0 && |l.entries| == CAPACITY;
    var entries := if full then l.entries[1..] else l.entries;
    var byRef := if full then l.byRef - {l.entries[0].frameRef} else l.byRef;
    l.(entries := entries + [e], byRef := byRef[e.frameRef := e])
  }

  function FirstWith(entries: seq<FrameEntry>, ref: string): (r: Option<nat>)
    ensures r.Some? ==> r.value < |entries| && entries[r.value].frameRef == ref
    ensures r.Some? ==> forall i :: 0 <= i < r.value ==> entries[i].frameRef != ref
    ensures r.None? ==> forall i :: 0 <= i < |entries| ==> entries[i].frameRef != ref
  {
    if entries == [] then None
    else
      var n := |entries| - 1;
      var earlier := FirstWith(entries[..n], ref);
      if earlier.Some? then earlier else if entries[n].frameRef == ref then Some(n) else None
  }

  /** `annotate` on the camera that holds the ref: the index first, then the matching place in the ring. */
  function AnnotatedAt(l: CameraLedger, ref: string, a: Annotation): CameraLedger
    requires ref in l.byRef
  {
    var updated := Annotated(l.byRef[ref], a);
    var at := FirstWith(l.entries, ref);
    l.(byRef := l.byRef[ref := updated],
       entries := if at.Some? then l.entries[at.value := updated] else l.entries)
  }

  ghost predicate DistinctRefs(entries: seq<FrameEntry>) {
    forall i, j :: 0 <= i < j < |entries| ==> entries[i].frameRef != entries[j].frameRef
  }

  ghost predicate HasRef(entries: seq<FrameEntry>, ref: string) {
    exists i :: 0 <= i < |entries| && entries[i].frameRef == ref
  }

  predicate Named(e: FrameEntry, cameraId: string) {
    e.identity.cameraId == cameraId && e.frameRef == RefOf(e.identity)
  }

  /** The index a ring calls for: its entries under their own refs. */
  function Index(entries: seq<FrameEntry>): map<string, FrameEntry> {
    if entries == [] then map[]
    else
      var n := |entries| - 1;
      Index(entries[..n])[entries[n].frameRef := entries[n]]
  }

  /** Bound, distinct refs, and an index that holds exactly the ring's entries. */
  ghost predicate Coherent(l: CameraLedger) {
    && |l.entries| <= CAPACITY
    && DistinctRefs(l.entries)
    && (forall e :: e in l.entries ==> Named(e, l.cameraId))
    && l.byRef == Index(l.entries)
  }

  lemma {:induction false} IndexKeys(entries: seq<FrameEntry>, ref: string)
    ensures ref in Index(entries) <==> HasRef(entries, ref)
    decreases |entries|
  {
    if entries != [] {
      var n := |entries| - 1;
      IndexKeys(entries[..n], ref);
      if HasRef(entries[..n], ref) {
        var i :| 0 <= i < n && entries[..n][i].frameRef == ref;
        assert entries[i].frameRef == ref;
      }
      if HasRef(entries, ref) && entries[n].frameRef != ref {
        var i :| 0 <= i < |entries| && entries[i].frameRef == ref;
        assert entries[..n][i].frameRef == ref;
      }
    }
  }

  lemma {:induction false} IndexEntry(entries: seq<FrameEntry>, i: nat)
    requires DistinctRefs(entries) && i < |entries|
    ensures entries[i].frameRef in Index(entries) && Index(entries)[entries[i].frameRef] == entries[i]
    decreases |entries|
  {
    var n := |entries| - 1;
    if i < n {
      IndexEntry(entries[..n], i);
    }
  }

  /** The oldest entry's ref is all that has to leave the index when the ring evicts. */
  lemma {:induction false} IndexWithoutOldest(entries: seq<FrameEntry>)
    requires DistinctRefs(entries) && entries != []
    ensures Index(entries[1..]) == Index(entries) - {entries[0].frameRef}
    decreases |entries|
  {
    var n := |entries| - 1;
    if n == 0 {
      assert entries[..0] == [] && entries[1..] == [];
    } else {
      IndexWithoutOldest(entries[..n]);
      assert entries[1..][..n - 1] == entries[..n][1..];
      assert entries[0].frameRef != entries[n].frameRef;
    }
  }

  lemma {:induction false} IndexUpdate(entries: seq<FrameEntry>, i: nat, u: FrameEntry)
    requires DistinctRefs(entries) && i < |entries| && u.frameRef == entries[i].frameRef
    ensures Index(entries[i := u]) == Index(entries)[u.frameRef := u]
    decreases |entries|
  {
    var n := |entries| - 1;
    if i < n {
      IndexUpdate(entries[..n], i, u);
      assert entries[i := u][..n] == entries[..n][i := u];
      assert entries[i].frameRef != entries[n].frameRef;
    } else {
      assert entries[i := u][..n] == entries[..n];
    }
  }

  /** The entries that stay in the ring when one more is recorded. */
  function Surviving(entries: seq<FrameEntry>): seq<FrameEntry> {
    if |entries| > 0 && |entries| == CAPACITY then entries[1..] else entries
  }

  lemma RecordedParts(l: CameraLedger, e: FrameEntry)
    requires Coherent(l)
    ensures Recorded(l, e) == CameraLedger(l.cameraId, Surviving(l.entries) + [e], Index(Surviving(l.entries) + [e]))
    ensures DistinctRefs(Surviving(l.entries)) && |Surviving(l.entries)| < CAPACITY
  {
    var kept := Surviving(l.entries);
    if l.entries != [] {
      IndexWithoutOldest(l.entries);
    }
    assert (kept + [e])[..|kept|] == kept;
  }

  /** Recording keeps ring and index in agreement exactly when the ref is not one that stays retained. */
  lemma RecordKeepsCoherentIff(l: CameraLedger, e: FrameEntry)
    requires Coherent(l) && Named(e, l.cameraId)
    ensures Coherent(Recorded(l, e)) <==> !HasRef(Surviving(l.entries), e.frameRef)
  {
    RecordedParts(l, e);
    var kept := Surviving(l.entries);
    var all := kept + [e];
    assert all[|kept|] == e && forall i :: 0 <= i < |kept| ==> all[i] == kept[i];
    if HasRef(kept, e.frameRef) {
      var i :| 0 <= i < |kept| && kept[i].frameRef == e.frameRef;
      assert all[i].frameRef == all[|kept|].frameRef;
    }
  }

  lemma AnnotateKeepsCoherent(l: CameraLedger, ref: string, a: Annotation)
    requires Coherent(l) && ref in l.byRef
    ensures Coherent(AnnotatedAt(l, ref, a))
    ensures forall e :: e in AnnotatedAt(l, ref, a).entries ==>
              exists e0 :: e0 in l.entries && e0.identity == e.identity
  {
    IndexKeys(l.entries, ref);
    var at := FirstWith(l.entries, ref);
    IndexEntry(l.entries, at.value);
    var held := l.entries[at.value];
    var updated := Annotated(held, a);
    IndexUpdate(l.entries, at.value, updated);
    forall e | e in l.entries[at.value := updated]
      ensures Named(e, l.cameraId) && exists e0 :: e0 in l.entries && e0.identity == e.identity
    {
      if e == updated {
        assert held in l.entries && held.identity == e.identity;
      } else {
        assert e in l.entries;
      }
    }
  }

  /* ----------------------------------------------------------------- all cameras */

  type Cameras = seq<CameraLedger>

  function CameraAt(cs: Cameras, cameraId: string): (r: Option<nat>)
    ensures r.Some? ==> r.value < |cs| && cs[r.value].cameraId == cameraId
    ensures r.None? ==> forall i :: 0 <= i < |cs| ==> cs[i].cameraId != cameraId
  {
    if cs == [] then None
    else
      var n := |cs| - 1;
      if cs[n].cameraId == cameraId then Some(n) else CameraAt(cs[..n], cameraId)
  }

  /** The first camera whose index has the ref: the loop shared by `annotate`, `get` and `neighbours`. */
  function Holder(cs: Cameras, ref: string): (r: Option<nat>)
    ensures r.Some? ==> r.value < |cs| && ref in cs[r.value].byRef
    ensures r.Some? ==> forall i :: 0 <= i < r.value ==> ref !in cs[i].byRef
    ensures r.None? ==> forall i :: 0 <= i < |cs| ==> ref !in cs[i].byRef
  {
    if cs == [] then None
    else
      var n := |cs| - 1;
      var earlier := Holder(cs[..n], ref);
      if earlier.Some? then earlier else if ref in cs[n].byRef then Some(n) else None
  }

  datatype Op = Record(identity: Identity) | Annotate(ref: string, note: Annotation)

  function Happen(cs: Cameras, op: Op): Cameras {
    match op
    case Record(identity) =>
      (match CameraAt(cs, identity.cameraId)
       case Some(i) => cs[i := Recorded(cs[i], NewEntry(identity))]
       case None => cs + [Recorded(CameraLedger(identity.cameraId, [], map[]), NewEntry(identity))])
    case Annotate(ref, note) =>
      match Holder(cs, ref)
      case Some(i) => cs[i := AnnotatedAt(cs[i], ref, note)]
      case None => cs
  }

  function Run(cs: Cameras, ops: seq<Op>): Cameras {
    if ops == [] then cs else Happen(Run(cs, ops[..|ops| - 1]), ops[|ops| - 1])
  }

  ghost predicate AllCoherent(cs: Cameras) {
    && (forall i, j :: 0 <= i < j < |cs| ==> cs[i].cameraId != cs[j].cameraId)
    && (forall i :: 0 <= i < |cs| ==> Coherent(cs[i]))
  }

  predicate SameFrame(a: Identity, b: Identity) {
    a.cameraId == b.cameraId && a.epoch == b.epoch && a.sequence == b.sequence
  }

  /** No camera repeats an (epoch, sequence) pair. */
  ghost predicate NeverRepeats(ops: seq<Op>) {
    forall i, j :: 0 <= i < j < |ops| && ops[i].Record? && ops[j].Record?
      ==> !SameFrame(ops[i].identity, ops[j].identity)
  }

  /** Everything a camera retains was recorded by the run. */
  ghost predicate FromRun(l: CameraLedger, ops: seq<Op>) {
    forall e :: e in l.entries ==> Record(e.identity) in ops
  }

  /** A ref that is still held can only come back by repeating its frame. */
  lemma HeldRefRepeats(l: CameraLedger, ops: seq<Op>, identity: Identity)
    requires Coherent(l) && FromRun(l, ops) && HasRef(l.entries, RefOf(identity))
    ensures !NeverRepeats(ops + [Record(identity)])
  {
    var i :| 0 <= i < |l.entries| && l.entries[i].frameRef == RefOf(identity);
    var x := l.entries[i].identity;
    assert l.entries[i] in l.entries;
    FrameRefIsInjective(x.cameraId, x.epoch, x.sequence, identity.cameraId, identity.epoch, identity.sequence);
    var k :| 0 <= k < |ops| && ops[k] == Record(x);
    var all := ops + [Record(identity)];
    assert all[k] == Record(x) && all[|ops|] == Record(identity) && SameFrame(x, identity);
  }

  lemma SurvivorsWereHeld(entries: seq<FrameEntry>, ref: string)
    ensures HasRef(Surviving(entries), ref) ==> HasRef(entries, ref)
  {
    var kept := Surviving(entries);
    if HasRef(kept, ref) {
      var i :| 0 <= i < |kept| && kept[i].frameRef == ref;
      assert entries[i + (|entries| - |kept|)].frameRef == ref;
    }
  }

  lemma RecordedFromRun(l: CameraLedger, ops: seq<Op>, identity: Identity)
    requires Coherent(l) && l.cameraId == identity.cameraId && FromRun(l, ops)
    requires NeverRepeats(ops + [Record(identity)])
    ensures Coherent(Recorded(l, NewEntry(identity)))
    ensures FromRun(Recorded(l, NewEntry(identity)), ops + [Record(identity)])
  {
    var e := NewEntry(identity);
    if HasRef(l.entries, e.frameRef) {
      HeldRefRepeats(l, ops, identity);
    }
    SurvivorsWereHeld(l.entries, e.frameRef);
    RecordKeepsCoherentIff(l, e);
    RecordedParts(l, e);
    assert forall x :: x in Surviving(l.entries) ==> x in l.entries;
  }

  /** Coherence of every camera, and that the run accounts for everything retained. */
  ghost predicate Accounted(cs: Cameras, ops: seq<Op>) {
    AllCoherent(cs) && forall i :: 0 <= i < |cs| ==> FromRun(cs[i], ops)
  }

  lemma AccountedGrows(cs: Cameras, ops: seq<Op>, op: Op)
    requires Accounted(cs, ops)
    ensures Accounted(cs, ops + [op])
  {
    forall i | 0 <= i < |cs|
      ensures FromRun(cs[i], ops + [op])
    {
      assert FromRun(cs[i], ops);
    }
  }

  lemma ReplacedCamera(cs: Cameras, ops: seq<Op>, i: nat, l: CameraLedger)
    requires Accounted(cs, ops) && i < |cs| && l.cameraId == cs[i].cameraId
    requires Coherent(l) && FromRun(l, ops)
    ensures Accounted(cs[i := l], ops)
  {
  }

  lemma AddedCamera(cs: Cameras, ops: seq<Op>, l: CameraLedger)
    requires Accounted(cs, ops) && CameraAt(cs, l.cameraId).None?
    requires Coherent(l) && FromRun(l, ops)
    ensures Accounted(cs + [l], ops)
  {
  }

  lemma RecordStaysAccounted(cs: Cameras, ops: seq<Op>, identity: Identity)
    requires Accounted(cs, ops) && NeverRepeats(ops + [Record(identity)])
    ensures Accounted(Happen(cs, Record(identity)), ops + [Record(identity)])
  {
    var ops' := ops + [Record(identity)];
    AccountedGrows(cs, ops, Record(identity));
    var at := CameraAt(cs, identity.cameraId);
    var l := if at.Some? then cs[at.value] else CameraLedger(identity.cameraId, [], map[]);
    RecordedFromRun(l, ops, identity);
    if at.Some? {
      ReplacedCamera(cs, ops', at.value, Recorded(l, NewEntry(identity)));
    } else {
      AddedCamera(cs, ops', Recorded(l, NewEntry(identity)));
    }
  }

  lemma AnnotateStaysAccounted(cs: Cameras, ops: seq<Op>, ref: string, note: Annotation)
    requires Accounted(cs, ops)
    ensures Accounted(Happen(cs, Annotate(ref, note)), ops + [Annotate(ref, note)])
  {
    AccountedGrows(cs, ops, Annotate(ref, note));
    var at := Holder(cs, ref);
    if at.Some? {
      var l := cs[at.value];
      AnnotateKeepsCoherent(l, ref, note);
      ReplacedCamera(cs, ops + [Annotate(ref, note)], at.value, AnnotatedAt(l, ref, note));
    }
  }

  lemma {:induction false} RunStaysAccounted(ops: seq<Op>)
    requires NeverRepeats(ops)
    ensures Accounted(Run([], ops), ops)
    decreases |ops|
  {
    if ops != [] {
      var earlier, op := ops[..|ops| - 1], ops[|ops| - 1];
      RunStaysAccounted(earlier);
      assert ops == earlier + [op];
      match op
      case Record(identity) => RecordStaysAccounted(Run([], earlier), earlier, identity);
      case Annotate(ref, note) => AnnotateStaysAccounted(Run([], earlier), earlier, ref, note);
    }
  }

  /* ------------------------------------------------------------ what a ring holds */

  function EntriesOf(cs: Cameras, cameraId: string): seq<FrameEntry> {
    match CameraAt(cs, cameraId)
    case Some(i) => cs[i].entries
    case None => []
  }

  function Identities(entries: seq<FrameEntry>): (ids: seq<Identity>)
    ensures |ids| == |entries| && forall i :: 0 <= i < |ids| ==> ids[i] == entries[i].identity
  {
    seq(|entries|, i requires 0 <= i < |entries| => entries[i].identity)
  }

  /** Every frame the run recorded for a camera, oldest first. */
  function RecordedFor(ops: seq<Op>, cameraId: string): seq<Identity> {
    if ops == [] then []
    else
      var earlier, op := RecordedFor(ops[..|ops| - 1], cameraId), ops[|ops| - 1];
      if op.Record? && op.identity.cameraId == cameraId then earlier + [op.identity] else earlier
  }

  function Newest<T>(s: seq<T>, n: nat): seq<T> {
    if |s| <= n then s else s[|s| - n..]
  }

  ghost predicate DistinctCameras(cs: Cameras) {
    forall i, j :: 0 <= i < j < |cs| ==> cs[i].cameraId != cs[j].cameraId
  }

  lemma CameraIsAt(cs: Cameras, i: nat)
    requires DistinctCameras(cs) && i < |cs|
    ensures CameraAt(cs, cs[i].cameraId) == Some(i)
  {
  }

  lemma EntriesAfterUpdate(cs: Cameras, i: nat, l: CameraLedger, cameraId: string)
    requires DistinctCameras(cs) && i < |cs| && l.cameraId == cs[i].cameraId
    ensures DistinctCameras(cs[i := l])
    ensures EntriesOf(cs[i := l], cameraId) == if l.cameraId == cameraId then l.entries else EntriesOf(cs, cameraId)
  {
    var at := CameraAt(cs, cameraId);
    if at.Some? {
      CameraIsAt(cs[i := l], at.value);
    }
  }

  lemma EntriesAfterAdd(cs: Cameras, l: CameraLedger, cameraId: string)
    requires DistinctCameras(cs) && CameraAt(cs, l.cameraId).None?
    ensures DistinctCameras(cs + [l])
    ensures EntriesOf(cs + [l], cameraId) == if l.cameraId == cameraId then l.entries else EntriesOf(cs, cameraId)
  {
    var at := CameraAt(cs, cameraId);
    if l.cameraId == cameraId {
      CameraIsAt(cs + [l], |cs|);
    } else if at.Some? {
      CameraIsAt(cs + [l], at.value);
    }
  }

  lemma RecordToRing(cs: Cameras, identity: Identity, cameraId: string)
    requires DistinctCameras(cs)
    ensures DistinctCameras(Happen(cs, Record(identity)))
    ensures EntriesOf(Happen(cs, Record(identity)), cameraId)
         == if identity.cameraId == cameraId then Surviving(EntriesOf(cs, cameraId)) + [NewEntry(identity)]
            else EntriesOf(cs, cameraId)
  {
    match CameraAt(cs, identity.cameraId)
    case Some(i) => EntriesAfterUpdate(cs, i, Recorded(cs[i], NewEntry(identity)), cameraId);
    case None =>
      EntriesAfterAdd(cs, Recorded(CameraLedger(identity.cameraId, [], map[]), NewEntry(identity)), cameraId);
  }

  lemma AnnotateToRing(cs: Cameras, ref: string, note: Annotation, cameraId: string)
    requires DistinctCameras(cs)
    ensures DistinctCameras(Happen(cs, Annotate(ref, note)))
    ensures |EntriesOf(Happen(cs, Annotate(ref, note)), cameraId)| == |EntriesOf(cs, cameraId)|
  {
    var i := Holder(cs, ref);
    if i.Some? {
      EntriesAfterUpdate(cs, i.value, AnnotatedAt(cs[i.value], ref, note), cameraId);
      CameraIsAt(cs, i.value);
    }
  }

  lemma {:induction false} RingLength(ops: seq<Op>, cameraId: string)
    ensures DistinctCameras(Run([], ops))
    ensures |EntriesOf(Run([], ops), cameraId)| == |Newest(RecordedFor(ops, cameraId), 5_000)|
    decreases |ops|
  {
    if ops != [] {
      var cs := Run([], ops[..|ops| - 1]);
      RingLength(ops[..|ops| - 1], cameraId);
      match ops[|ops| - 1]
      case Record(identity) => RecordToRing(cs, identity, cameraId);
      case Annotate(ref, note) => AnnotateToRing(cs, ref, note, cameraId);
    }
  }

  /** Annotating the entry an index shares with its ring leaves every identity in place. */
  lemma AnnotatedKeepsIdentities(l: CameraLedger, ref: string, note: Annotation)
    requires Coherent(l) && ref in l.byRef
    ensures Identities(AnnotatedAt(l, ref, note).entries) == Identities(l.entries)
  {
    IndexKeys(l.entries, ref);
    IndexEntry(l.entries, FirstWith(l.entries, ref).value);
  }

  lemma AnnotateKeepsIdentities(cs: Cameras, ref: string, note: Annotation, cameraId: string)
    requires DistinctCameras(cs) && forall i :: 0 <= i < |cs| ==> Coherent(cs[i])
    ensures Identities(EntriesOf(Happen(cs, Annotate(ref, note)), cameraId)) == Identities(EntriesOf(cs, cameraId))
  {
    var i := Holder(cs, ref);
    if i.Some? {
      EntriesAfterUpdate(cs, i.value, AnnotatedAt(cs[i.value], ref, note), cameraId);
      AnnotatedKeepsIdentities(cs[i.value], ref, note);
      CameraIsAt(cs, i.value);
    }
  }

  lemma NewestGrows(s: seq<Identity>, x: Identity, n: nat)
    requires n > 0
    ensures Newest(s + [x], n) == (if |s| >= n then Newest(s, n)[1..] else s) + [x]
  {
  }

  lemma RecordMovesIdentities(entries: seq<FrameEntry>, recorded: seq<Identity>, identity: Identity)
    requires Identities(entries) == Newest(recorded, CAPACITY)
    ensures Identities(Surviving(entries) + [NewEntry(identity)]) == Newest(recorded + [identity], CAPACITY)
  {
    NewestGrows(recorded, identity, CAPACITY);
    assert Identities(Surviving(entries) + [NewEntry(identity)]) == Identities(Surviving(entries)) + [identity];
    if |entries| == CAPACITY {
      assert Identities(entries[1..]) == Identities(entries)[1..];
    }
  }

  /** The ring of a camera is exactly the newest 5,000 frames recorded for it, in order. */
  lemma {:induction false} RingHoldsNewest(ops: seq<Op>, cameraId: string)
    requires NeverRepeats(ops)
    ensures Identities(EntriesOf(Run([], ops), cameraId)) == Newest(RecordedFor(ops, cameraId), 5_000)
    decreases |ops|
  {
    if ops != [] {
      var earlier := ops[..|ops| - 1];
      var cs := Run([], earlier);
      RingHoldsNewest(earlier, cameraId);
      RunStaysAccounted(earlier);
      match ops[|ops| - 1]
      case Record(identity) =>
        RecordToRing(cs, identity, cameraId);
        RecordMovesIdentities(EntriesOf(cs, cameraId), RecordedFor(earlier, cameraId), identity);
      case Annotate(ref, note) => AnnotateKeepsIdentities(cs, ref, note, cameraId);
    }
  }

  /**
    Over every run of records and annotations in which no camera repeats an (epoch,
    sequence): every camera's ring is exactly the newest 5,000 frames recorded for it, in
    order, and its index holds exactly the ring's entries with equal values.
  */
  lemma IndexAgreesWithRing(ops: seq<Op>, cameraId: string)
    requires NeverRepeats(ops)
    ensures Accounted(Run([], ops), ops)
    ensures
      var cs, recorded := Run([], ops), RecordedFor(ops, cameraId);
      && Identities(EntriesOf(cs, cameraId)) == Newest(recorded, 5_000)
      && (recorded != [] ==>
            CameraAt(cs, cameraId).Some?
            && cs[CameraAt(cs, cameraId).value].byRef == Index(EntriesOf(cs, cameraId)))
  {
    RunStaysAccounted(ops);
    RingHoldsNewest(ops, cameraId);
  }

  /* -------------------------------------------------------- the capacity asked for */

  /** A camera's ring within a bound at every moment of a run. */
  ghost predicate StaysWithin(ops: seq<Op>, cameraId: string, capacity: int) {
    forall k :: 0 <= k <= |ops| ==> |EntriesOf(Run([], ops[..k]), cameraId)| <= capacity
  }

  lemma {:induction false} RecordsOnlyGrow(ops: seq<Op>, k: nat, cameraId: string)
    requires k <= |ops|
    ensures |RecordedFor(ops[..k], cameraId)| <= |RecordedFor(ops, cameraId)|
    decreases |ops|
  {
    if k < |ops| {
      RecordsOnlyGrow(ops[..|ops| - 1], k, cameraId);
      assert ops[..|ops| - 1][..k] == ops[..k];
    } else {
      assert ops[..k] == ops;
    }
  }

  /**
    The capacity a ledger is built with bounds a camera's ring exactly when it did not have
    to: it is at least the built-in 5,000, or the camera never had more frames than that.
  */
  lemma CapacityBoundsIff(ops: seq<Op>, cameraId: string, capacity: int)
    ensures StaysWithin(ops, cameraId, capacity) <==> capacity >= 5_000 || |RecordedFor(ops, cameraId)| <= capacity
  {
    assert ops[..|ops|] == ops;
    forall k | 0 <= k <= |ops|
      ensures |EntriesOf(Run([], ops[..k]), cameraId)| <= CAPACITY
      ensures |EntriesOf(Run([], ops[..k]), cameraId)| <= |RecordedFor(ops, cameraId)|
    {
      RingLength(ops[..k], cameraId);
      RecordsOnlyGrow(ops, k, cameraId);
    }
    RingLength(ops, cameraId);
  }

  /** A ledger built for one frame keeps two. */
  lemma CapacityIsIgnored(a: Identity, b: Identity)
    requires a.cameraId == b.cameraId
    ensures
      var ops := [Record(a), Record(b)];
      |EntriesOf(Run([], ops), a.cameraId)| == 2 && !StaysWithin(ops, a.cameraId, 1)
  {
    var ops := [Record(a), Record(b)];
    assert ops[..1] == [Record(a)] && ops[..1][..0] == [];
    assert RecordedFor(ops[..1], a.cameraId) == [a];
    assert RecordedFor(ops, a.cameraId) == [a, b];
    RingLength(ops, a.cameraId);
    CapacityBoundsIff(ops, a.cameraId, 1);
  }

  /** `get` across cameras is unambiguous: at most one camera holds a ref, and it is the one the ref names. */
  lemma LookupIsUnambiguous(cs: Cameras, c: nat, d: nat, cameraId: string, epoch: int, sequence: int)
    requires AllCoherent(cs) && c < |cs| && d < |cs|
    requires FrameRef(cameraId, epoch, sequence) in cs[c].byRef && FrameRef(cameraId, epoch, sequence) in cs[d].byRef
    ensures c == d && cs[c].cameraId == cameraId
    ensures
      var found := cs[c].byRef[FrameRef(cameraId, epoch, sequence)].identity;
      found.cameraId == cameraId && found.epoch == epoch && found.sequence == sequence
  {
    HolderIsNamed(cs[c], cameraId, epoch, sequence);
    HolderIsNamed(cs[d], cameraId, epoch, sequence);
  }

  lemma HolderIsNamed(l: CameraLedger, cameraId: string, epoch: int, sequence: int)
    requires Coherent(l) && FrameRef(cameraId, epoch, sequence) in l.byRef
    ensures l.cameraId == cameraId
    ensures
      var found := l.byRef[FrameRef(cameraId, epoch, sequence)].identity;
      found.cameraId == cameraId && found.epoch == epoch && found.sequence == sequence
  {
    var ref := FrameRef(cameraId, epoch, sequence);
    IndexKeys(l.entries, ref);
    var i :| 0 <= i < |l.entries| && l.entries[i].frameRef == ref;
    IndexEntry(l.entries, i);
    assert l.entries[i] in l.entries;
    var x := l.entries[i].identity;
    FrameRefIsInjective(x.cameraId, x.epoch, x.sequence, cameraId, epoch, sequence);
  }

  /* --------------------------------------------------------------- entry history */

  ghost predicate Evolves(a: FrameEntry, b: FrameEntry) {
    b.identity == a.identity && (a.processed ==> b.processed) && (a.countsReported ==> b.countsReported)
  }

  predicate Records(op: Op, ref: string) {
    op.Record? && RefOf(op.identity) == ref
  }

  lemma HappenEvolves(cs: Cameras, op: Op, c: nat, ref: string)
    requires c < |Happen(cs, op)| && ref in Happen(cs, op)[c].byRef && !Records(op, ref)
    ensures c < |cs| && ref in cs[c].byRef && Evolves(cs[c].byRef[ref], Happen(cs, op)[c].byRef[ref])
  {
    match op
    case Record(identity) =>
      var at := CameraAt(cs, identity.cameraId);
      if at.None? && c == |cs| {
        RecordedLeavesOthers(CameraLedger(identity.cameraId, [], map[]), NewEntry(identity), ref);
      } else if at == Some(c) {
        RecordedLeavesOthers(cs[c], NewEntry(identity), ref);
      }
    case Annotate(held, note) =>
  }

  lemma RecordedLeavesOthers(l: CameraLedger, e: FrameEntry, ref: string)
    requires ref in Recorded(l, e).byRef && ref != e.frameRef
    ensures ref in l.byRef && Recorded(l, e).byRef[ref] == l.byRef[ref]
  {
  }

  /**
    Between two looks at a retained frame, over any operations that do not record that ref
    again: its identity is the same, and `processed` and `counts_reported` have not reverted.
  */
  lemma {:induction false} EntriesNeverRevert(cs: Cameras, ops: seq<Op>, c: nat, ref: string)
    requires forall k :: 0 <= k < |ops| ==> !Records(ops[k], ref)
    requires c < |Run(cs, ops)| && ref in Run(cs, ops)[c].byRef
    ensures c < |cs| && ref in cs[c].byRef && Evolves(cs[c].byRef[ref], Run(cs, ops)[c].byRef[ref])
    decreases |ops|
  {
    if ops != [] {
      var earlier := ops[..|ops| - 1];
      HappenEvolves(Run(cs, earlier), ops[|ops| - 1], c, ref);
      EntriesNeverRevert(cs, earlier, c, ref);
    }
  }

  /** What was given, or what was there. */
  ghost predicate Replaces<T(!new)>(given: Option<T>, before: T, after: T) {
    match given
    case None => after == before
    case Some(value) => after == value
  }

  /**
    What an annotation stores on the frame it names, in the index: the frame is processed;
    its counts are reported once any count was given; each thing given replaces what was
    there and each thing not given stays; and no other frame of any camera changes.
  */
  lemma AnnotationIsStored(cs: Cameras, ref: string, note: Annotation, i: nat)
    requires Holder(cs, ref) == Some(i)
    ensures
      var cs' := Happen(cs, Annotate(ref, note));
      && |cs'| == |cs| && ref in cs'[i].byRef
      && var before, after := cs[i].byRef[ref], cs'[i].byRef[ref];
         && after.identity == before.identity && after.frameRef == before.frameRef && after.processed
         && (after.countsReported <==>
               before.countsReported || note.detectionCount.Some? || note.observationCount.Some?)
         && Replaces(note.processingMs, before.processingMs, after.processingMs)
         && Replaces(note.detectionCount, before.detectionCount, after.detectionCount)
         && Replaces(note.observationCount, before.observationCount, after.observationCount)
         && Replaces(note.objectIds, before.objectIds, after.objectIds)
         && Replaces(note.evidenceRefs, before.evidenceRefs, after.evidenceRefs)
         && Replaces(note.error, before.error, after.error)
         && (forall other :: other != ref && other in cs[i].byRef ==>
               other in cs'[i].byRef && cs'[i].byRef[other] == cs[i].byRef[other])
         && forall j :: 0 <= j < |cs| && j != i ==> cs'[j] == cs[j]
  {
  }

  /* ------------------------------------------------------------------- stepping */

  /** `(captured_at_ns, sequence)`, compared as Python compares tuples. */
  predicate NotAfter(a: FrameEntry, b: FrameEntry) {
    || a.identity.capturedAtNs < b.identity.capturedAtNs
    || (a.identity.capturedAtNs == b.identity.capturedAtNs && a.identity.sequence <= b.identity.sequence)
  }

  /** Insertion after every entry that is not after it, so equal keys keep their order. */
  function Insert(s: seq<FrameEntry>, e: FrameEntry): seq<FrameEntry> {
    if s == [] then [e]
    else
      var n := |s| - 1;
      if NotAfter(s[n], e) then s + [e] else Insert(s[..n], e) + [s[n]]
  }

  /** `sorted(entries, key=...)` */
  function Sorted(entries: seq<FrameEntry>): seq<FrameEntry> {
    if entries == [] then [] else Insert(Sorted(entries[..|entries| - 1]), entries[|entries| - 1])
  }

  /** By capture time, and by sequence among equal capture times. */
  ghost predicate InOrder(s: seq<FrameEntry>) {
    forall i, j :: 0 <= i < j < |s| ==>
      && s[i].identity.capturedAtNs <= s[j].identity.capturedAtNs
      && (s[i].identity.capturedAtNs == s[j].identity.capturedAtNs ==> s[i].identity.sequence <= s[j].identity.sequence)
  }

  lemma {:induction false} InsertAdds(s: seq<FrameEntry>, e: FrameEntry)
    ensures multiset(Insert(s, e)) == multiset(s) + multiset{e}
    ensures forall x :: x in Insert(s, e) <==> x in s || x == e
    decreases |s|
  {
    if s != [] {
      var n := |s| - 1;
      assert s == s[..n] + [s[n]];
      InsertAdds(s[..n], e);
    }
  }

  lemma {:induction false} InsertSorts(s: seq<FrameEntry>, e: FrameEntry)
    requires InOrder(s)
    ensures InOrder(Insert(s, e))
    decreases |s|
  {
    if s != [] && !NotAfter(s[|s| - 1], e) {
      var n := |s| - 1;
      InsertSorts(s[..n], e);
      InsertAdds(s[..n], e);
      var t := Insert(s[..n], e);
      forall i | 0 <= i < |t|
        ensures NotAfter(t[i], s[n])
      {
        assert t[i] in t;
      }
    }
  }

  lemma {:induction false} SortedSorts(entries: seq<FrameEntry>)
    ensures InOrder(Sorted(entries)) && multiset(Sorted(entries)) == multiset(entries)
    decreases |entries|
  {
    if entries != [] {
      var n := |entries| - 1;
      SortedSorts(entries[..n]);
      InsertSorts(Sorted(entries[..n]), entries[n]);
      InsertAdds(Sorted(entries[..n]), entries[n]);
      assert entries == entries[..n] + [entries[n]];
    }
  }

  lemma SortedKeepsRefsDistinct(entries: seq<FrameEntry>)
    requires DistinctRefs(entries)
    ensures DistinctRefs(Sorted(entries)) && |Sorted(entries)| == |entries|
    ensures forall e :: e in Sorted(entries) <==> e in entries
  {
    SortedSorts(entries);
    var s := Sorted(entries);
    assert |multiset(s)| == |multiset(entries)|;
    assert forall e :: e in s <==> e in multiset(s);
    assert forall e :: e in entries <==> e in multiset(entries);
    forall i, j | 0 <= i < j < |s|
      ensures s[i].frameRef != s[j].frameRef
    {
      if s[i].frameRef == s[j].frameRef {
        SameRefSameEntry(entries, s[i], s[j]);
        TwiceInMultiset(s, i, j);
        OnceInDistinct(entries, s[i]);
      }
    }
  }

  lemma SameRefSameEntry(entries: seq<FrameEntry>, a: FrameEntry, b: FrameEntry)
    requires DistinctRefs(entries) && a in entries && b in entries && a.frameRef == b.frameRef
    ensures a == b
  {
  }

  lemma TwiceInMultiset(s: seq<FrameEntry>, i: nat, j: nat)
    requires i < j < |s| && s[i] == s[j]
    ensures multiset(s)[s[i]] >= 2
  {
    assert s == s[..j] + [s[j]] + s[j + 1..];
    assert s[..j][i] == s[i];
    assert s[i] in multiset(s[..j]);
  }

  lemma {:induction false} OnceInDistinct(s: seq<FrameEntry>, e: FrameEntry)
    requires DistinctRefs(s)
    ensures multiset(s)[e] <= 1
    decreases |s|
  {
    if s != [] {
      var n := |s| - 1;
      OnceInDistinct(s[..n], e);
      assert s == s[..n] + [s[n]];
      if e == s[n] {
        assert e !in s[..n];
        assert e !in multiset(s[..n]);
      }
    }
  }

  /** What comes before and after a ref in a list of entries. */
  function Around(ordered: seq<FrameEntry>, ref: string): (Option<string>, Option<string>) {
    match FirstWith(ordered, ref)
    case None => (None, None)
    case Some(i) =>
      (if i > 0 then Some(ordered[i - 1].frameRef) else None,
       if i + 1 < |ordered| then Some(ordered[i + 1].frameRef) else None)
  }

  /** `neighbours` on the camera that holds the ref. */
  function Neighbours(l: CameraLedger, ref: string): (Option<string>, Option<string>) {
    Around(Sorted(l.entries), ref)
  }

  lemma AroundPosition(ordered: seq<FrameEntry>, i: nat)
    requires DistinctRefs(ordered) && i < |ordered|
    ensures FirstWith(ordered, ordered[i].frameRef) == Some(i)
  {
  }

  lemma AroundIsInverse(ordered: seq<FrameEntry>, a: string, b: string)
    requires DistinctRefs(ordered)
    ensures Around(ordered, a).1 == Some(b) <==> Around(ordered, b).0 == Some(a)
  {
    var i, j := FirstWith(ordered, a), FirstWith(ordered, b);
    if i.Some? && i.value + 1 < |ordered| {
      AroundPosition(ordered, i.value + 1);
    }
    if j.Some? && j.value > 0 {
      AroundPosition(ordered, j.value - 1);
    }
  }

  /** Stepping forward and stepping back undo each other. */
  lemma StepsAreInverse(l: CameraLedger, a: string, b: string)
    requires Coherent(l)
    ensures Neighbours(l, a).1 == Some(b) <==> Neighbours(l, b).0 == Some(a)
  {
    SortedKeepsRefsDistinct(l.entries);
    AroundIsInverse(Sorted(l.entries), a, b);
  }

  /** Following "next" from a frame, at most `steps` times. */
  function Walk(ordered: seq<FrameEntry>, ref: string, steps: nat): seq<string>
    decreases steps
  {
    var next := Around(ordered, ref).1;
    if steps == 0 || next.None? then [ref] else [ref] + Walk(ordered, next.value, steps - 1)
  }

  function RefsFrom(ordered: seq<FrameEntry>, i: nat): seq<string>
    requires i <= |ordered|
  {
    seq(|ordered| - i, k requires 0 <= k < |ordered| - i => ordered[i + k].frameRef)
  }

  lemma {:induction false} WalkFollowsOrder(ordered: seq<FrameEntry>, i: nat, steps: nat)
    requires DistinctRefs(ordered) && i < |ordered| && steps >= |ordered| - i
    ensures Walk(ordered, ordered[i].frameRef, steps) == RefsFrom(ordered, i)
    decreases steps
  {
    AroundPosition(ordered, i);
    if i + 1 < |ordered| {
      WalkFollowsOrder(ordered, i + 1, steps - 1);
      assert RefsFrom(ordered, i) == [ordered[i].frameRef] + RefsFrom(ordered, i + 1);
    } else {
      assert RefsFrom(ordered, i) == [ordered[i].frameRef];
    }
  }

  /**
    Stepping "next" from the first frame visits every retained frame of the camera exactly
    once, in (capture time, sequence) order, and then stops.
  */
  lemma WalkVisitsEveryFrameOnce(l: CameraLedger, steps: nat)
    requires Coherent(l) && l.entries != [] && steps >= |l.entries|
    ensures
      var ordered := Sorted(l.entries);
      && ordered != [] && InOrder(ordered) && multiset(ordered) == multiset(l.entries)
      && Neighbours(l, ordered[0].frameRef).0.None?
      && Neighbours(l, ordered[|ordered| - 1].frameRef).1.None?
      && Walk(ordered, ordered[0].frameRef, steps) == RefsFrom(ordered, 0)
      && NoDuplicates(RefsFrom(ordered, 0))
  {
    SortedSorts(l.entries);
    SortedKeepsRefsDistinct(l.entries);
    var ordered := Sorted(l.entries);
    AroundPosition(ordered, 0);
    AroundPosition(ordered, |ordered| - 1);
    WalkFollowsOrder(ordered, 0, steps);
  }

  /* ------------------------------------------------------------------- the class */

  /** `history` is every operation so far, so that what is proved over runs holds of the object. */
  class FrameLedger {
    const capacity: int
    var cameras: Cameras
    ghost var history: seq<Op>

    ghost predicate Valid()
      reads this
    {
      cameras == Run([], history)
    }

    /** The capacity is kept and never read again. */
    constructor (capacity: int)
      ensures Valid() && this.capacity == capacity && history == []
    {
      this.capacity := capacity;
      cameras, history := [], [];
    }

    method RecordFrame(identity: Identity) returns (e: FrameEntry)
      requires Valid()
      modifies this
      ensures Valid() && history == old(history) + [Record(identity)]
      ensures cameras == Happen(old(cameras), Record(identity))
      ensures e == NewEntry(identity)
      ensures e.identity == identity && e.frameRef == FrameRef(identity.cameraId, identity.epoch, identity.sequence)
      ensures !e.processed && !e.countsReported && e.processingMs == 0.0 && e.detectionCount == e.observationCount == 0
      ensures e.objectIds == [] && e.evidenceRefs == [] && e.error == ""
    {
      e := NewEntry(identity);
      var at := CameraAt(cameras, identity.cameraId);
      var l := if at.Some? then cameras[at.value] else CameraLedger(identity.cameraId, [], map[]);
      var entries, byRef := l.entries, l.byRef;
      if |entries| == CAPACITY {
        byRef := byRef - {entries[0].frameRef};
        entries := entries[1..];
      }
      l := CameraLedger(l.cameraId, entries + [e], byRef[e.frameRef := e]);
      cameras := if at.Some? then cameras[at.value := l] else cameras + [l];
      history := history + [Record(identity)];
      assert history[..|history| - 1] == old(history);
    }

    method HolderOf(ref: string) returns (r: Option<nat>)
      ensures r == Holder(cameras, ref)
    {
      for i := 0 to |cameras|
        invariant forall k :: 0 <= k < i ==> ref !in cameras[k].byRef
      {
        if ref in cameras[i].byRef {
          return Some(i);
        }
      }
      return None;
    }

    method AnnotateFrame(ref: string, note: Annotation) returns (e: Option<FrameEntry>)
      requires Valid()
      modifies this
      ensures Valid() && history == old(history) + [Annotate(ref, note)]
      ensures cameras == Happen(old(cameras), Annotate(ref, note))
      ensures e.Some? <==> Holder(old(cameras), ref).Some?
      ensures e.Some? ==> e.value.processed && e.value == cameras[Holder(old(cameras), ref).value].byRef[ref]
    {
      var at := HolderOf(ref);
      history := history + [Annotate(ref, note)];
      assert history[..|history| - 1] == old(history);
      if at.None? {
        return None;
      }
      var l := cameras[at.value];
      var updated := Annotated(l.byRef[ref], note);
      var entries := l.entries;
      for i := 0 to |l.entries|
        invariant entries == l.entries && forall k :: 0 <= k < i ==> l.entries[k].frameRef != ref
      {
        if l.entries[i].frameRef == ref {
          entries := entries[i := updated];
          break;
        }
      }
      cameras := cameras[at.value := l.(byRef := l.byRef[ref := updated], entries := entries)];
      return Some(updated);
    }

    method Get(ref: string) returns (e: Option<FrameEntry>)
      ensures e == match Holder(cameras, ref)
                   case Some(i) => Some(cameras[i].byRef[ref])
                   case None => None
    {
      var at := HolderOf(ref);
      e := if at.Some? then Some(cameras[at.value].byRef[ref]) else None;
    }

    /** `neighbours`: sort the holder's ring, find the ref, look left and right. */
    method NeighboursOf(ref: string) returns (n: (Option<string>, Option<string>))
      ensures n == match Holder(cameras, ref)
                   case Some(i) => Neighbours(cameras[i], ref)
                   case None => (None, None)
    {
      var at := HolderOf(ref);
      if at.None? {
        return (None, None);
      }
      var ordered := Sorted(cameras[at.value].entries);
      for i := 0 to |ordered|
        invariant forall k :: 0 <= k < i ==> ordered[k].frameRef != ref
      {
        if ordered[i].frameRef == ref {
          var previous := if i > 0 then Some(ordered[i - 1].frameRef) else None;
          var following := if i + 1 < |ordered| then Some(ordered[i + 1].frameRef) else None;
          return (previous, following);
        }
      }
      return (None, None);
    }
  }
}
