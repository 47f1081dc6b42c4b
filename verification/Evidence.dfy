/**
  Durable evidence (app/domain/evidence.py): rows in a table, bytes on a content-addressed
  disk, and a one-way lifecycle RETAINED, EXPIRED, DELETED. The erasing half of the
  retention sweep (app/domain/retention.py) acts on the same rows and is one of the events.

  The digest is a parameter `hash`; that it has no collisions is a hypothesis where it is
  needed. Paths are (organization, digest) pairs. Instants are seconds.
*/
module Evidence {
  import opened Basics

  type Bytes = seq<bv8>
  type Digest = string

  /** A number of days in seconds. */
  function Days(n: int): int {
    86_400 * n
  }

  datatype Path = Path(organizationId: string, digest: Digest)

  datatype EvidenceState = Retained | Expired | Deleted

  datatype About = About(
    cameraKey: string,
    frameRef: string,
    objectId: string,
    observationId: string,
    capturedAt: int,
    purpose: string,
    mediaType: string,
    geometry: string)

  datatype Tombstone = Tombstone(deletedAt: int, deletedBy: string, reason: string)

  datatype Row = Row(
    organizationId: string,
    evidenceRef: string,
    about: About,
    state: EvidenceState,
    expiresAt: Option<int>,
    storage: Option<Path>,
    contentHash: Digest,
    sizeBytes: nat,
    tombstone: Option<Tombstone>)
  {
    predicate Is(organizationId: string, evidenceRef: string) {
      this.organizationId == organizationId && this.evidenceRef == evidenceRef
    }

    predicate Due(now: int) {
      state.Retained? && expiresAt.Some? && expiresAt.value <= now
    }
  }

  type Disk = map<Path, Bytes>

  datatype Vault = Vault(rows: seq<Row>, disk: Disk)

  const EMPTY_VAULT := Vault([], map[])

  datatype FetchError = NoSuchEvidence | WasDeleted | PastRetention | BytesMissing | IntegrityFailed

  /** `metadata`: the tenant's row for this handle; (organization, handle) is unique. */
  function Find(rows: seq<Row>, organizationId: string, evidenceRef: string): (r: Option<nat>)
    ensures r.Some? ==> r.value < |rows| && rows[r.value].Is(organizationId, evidenceRef)
    ensures r.None? ==> forall i :: 0 <= i < |rows| ==> !rows[i].Is(organizationId, evidenceRef)
  {
    if rows == [] then None
    else
      var n := |rows| - 1;
      if rows[n].Is(organizationId, evidenceRef) then Some(n) else Find(rows[..n], organizationId, evidenceRef)
  }

  /* ---------------------------------------------------------------- operations */

  function NewRow(organizationId: string, evidenceRef: string, about: About, payload: Bytes, digest: Digest,
                  now: int, retentionDays: int): Row
  {
    Row(organizationId, evidenceRef, about, Retained, Some(now + Days(retentionDays)),
        Some(Path(organizationId, digest)), digest, |payload|, None)
  }

  function Written(disk: Disk, path: Path, payload: Bytes): Disk {
    if path in disk then disk else disk[path := payload]
  }

  /** `put`: the bytes are written first; a handle already taken is refused by the table. */
  function Stored(v: Vault, hash: Bytes -> Digest, organizationId: string, evidenceRef: string, about: About,
                  payload: Bytes, now: int, retentionDays: int): Vault
  {
    var digest := hash(payload);
    Vault(if Find(v.rows, organizationId, evidenceRef).Some? then v.rows
          else v.rows + [NewRow(organizationId, evidenceRef, about, payload, digest, now, retentionDays)],
          Written(v.disk, Path(organizationId, digest), payload))
  }

  function Fetch(v: Vault, hash: Bytes -> Digest, organizationId: string, evidenceRef: string)
    : Result<(Row, Bytes), FetchError>
  {
    match Find(v.rows, organizationId, evidenceRef)
    case None => Err(NoSuchEvidence)
    case Some(i) =>
      var row := v.rows[i];
      if row.state.Deleted? then Err(WasDeleted)
      else if !row.state.Retained? then Err(PastRetention)
      else if row.storage.None? || row.storage.value !in v.disk then Err(BytesMissing)
      else
        var payload := v.disk[row.storage.value];
        if hash(payload) != row.contentHash then Err(IntegrityFailed) else Ok((row, payload))
  }

  function MarkRow(row: Row, now: int): Row {
    if row.Due(now) then row.(state := Expired) else row
  }

  /** No organization, or an empty one, means every organization. */
  predicate InScope(organizationId: Option<string>, row: Row) {
    organizationId.None? || organizationId.value == "" || organizationId.value == row.organizationId
  }

  /**
    `expire_due`, for one organization or for all: a RETAINED row whose expiry has come becomes
    EXPIRED, and no other row changes.
  */
  function Marked(rows: seq<Row>, organizationId: Option<string>, now: int): (r: seq<Row>)
    ensures |r| == |rows|
    ensures forall i :: 0 <= i < |rows| ==>
              r[i] == if rows[i].state == Retained && rows[i].expiresAt.Some? && rows[i].expiresAt.value <= now
                         && (organizationId in {None, Some("")} || organizationId == Some(rows[i].organizationId))
                      then rows[i].(state := Expired) else rows[i]
  {
    seq(|rows|, i requires 0 <= i < |rows| =>
      if InScope(organizationId, rows[i]) then MarkRow(rows[i], now) else rows[i])
  }

  function Erased(row: Row, tombstone: Tombstone): Row {
    row.(state := Deleted, storage := None, sizeBytes := 0, tombstone := Some(tombstone))
  }

  /** The unlink of this row's file raises: the file is there and cannot be removed. */
  predicate Stuck(row: Row, disk: Disk, undeletable: set<Path>) {
    row.storage.Some? && row.storage.value in disk && row.storage.value in undeletable
  }

  function Clip(s: string): string {
    if |s| <= 255 then s else s[..255]
  }

  /** `delete`: idempotent; a file that cannot be removed leaves the row as it was. */
  function Removed(v: Vault, organizationId: string, evidenceRef: string, actor: string, reason: string,
                   now: int, undeletable: set<Path>): Vault
  {
    match Find(v.rows, organizationId, evidenceRef)
    case None => v
    case Some(i) =>
      var row := v.rows[i];
      if row.state.Deleted? || Stuck(row, v.disk, undeletable) then v
      else Vault(v.rows[i := Erased(row, Tombstone(now, actor, Clip(reason)))],
                 if row.storage.Some? then v.disk - {row.storage.value} else v.disk)
  }

  /** `_erase_expired` on one row. */
  function SweepRow(row: Row, disk: Disk, undeletable: set<Path>, tombstone: Tombstone): Row {
    if row.state.Expired? && !Stuck(row, disk, undeletable) then Erased(row, tombstone) else row
  }

  function SweptRows(rows: seq<Row>, disk: Disk, undeletable: set<Path>, tombstone: Tombstone): (r: seq<Row>)
    ensures |r| == |rows|
    ensures forall i :: 0 <= i < |rows| ==> r[i] == SweepRow(rows[i], disk, undeletable, tombstone)
  {
    seq(|rows|, i requires 0 <= i < |rows| => SweepRow(rows[i], disk, undeletable, tombstone))
  }

  /** A file goes when some expired row names it and it can be removed. */
  predicate Unlinked(rows: seq<Row>, undeletable: set<Path>, path: Path) {
    path !in undeletable && exists i :: 0 <= i < |rows| && rows[i].state.Expired? && rows[i].storage == Some(path)
  }

  function SweptDisk(rows: seq<Row>, disk: Disk, undeletable: set<Path>): Disk {
    map path | path in disk && !Unlinked(rows, undeletable, path) :: disk[path]
  }

  datatype Event =
    | Put(organizationId: string, evidenceRef: string, about: About, payload: Bytes, now: int, retentionDays: int)
    | Expire(scope: Option<string>, now: int)
    | Delete(organizationId: string, evidenceRef: string, actor: string, reason: string, now: int,
             undeletable: set<Path>)
    | EraseExpired(tombstone: Tombstone, undeletable: set<Path>)
    | Corrupt(path: Path, found: Option<Bytes>)

  function Happen(v: Vault, hash: Bytes -> Digest, e: Event): Vault {
    match e
    case Put(organizationId, evidenceRef, about, payload, now, days) =>
      Stored(v, hash, organizationId, evidenceRef, about, payload, now, days)
    case Expire(scope, now) => v.(rows := Marked(v.rows, scope, now))
    case Delete(organizationId, evidenceRef, actor, reason, now, undeletable) =>
      Removed(v, organizationId, evidenceRef, actor, reason, now, undeletable)
    case EraseExpired(tombstone, undeletable) =>
      Vault(SweptRows(v.rows, v.disk, undeletable, tombstone), SweptDisk(v.rows, v.disk, undeletable))
    case Corrupt(path, found) => v.(disk := if found.Some? then v.disk[path := found.value] else v.disk - {path})
  }

  function Run(hash: Bytes -> Digest, events: seq<Event>): Vault {
    if events == [] then EMPTY_VAULT
    else Happen(Run(hash, events[..|events| - 1]), hash, events[|events| - 1])
  }

  /* ---------------------------------------------------------- one-way lifecycle */

  function Rank(s: EvidenceState): nat {
    match s
    case Retained => 0
    case Expired => 1
    case Deleted => 2
  }

  /** How a row may change over time: forward only, and a tombstone not at all. */
  ghost predicate Evolves(a: Row, b: Row) {
    && b.organizationId == a.organizationId && b.evidenceRef == a.evidenceRef && b.about == a.about
    && b.contentHash == a.contentHash && b.expiresAt == a.expiresAt
    && Rank(a.state) <= Rank(b.state)
    && (a.state.Deleted? ==> b == a)
    && (!b.state.Deleted? ==> b.storage == a.storage && b.sizeBytes == a.sizeBytes && b.tombstone == a.tombstone)
    && (b.state.Deleted? && !a.state.Deleted? ==> b.tombstone.Some? && b.storage.None? && b.sizeBytes == 0)
  }

  ghost predicate TableEvolves(a: seq<Row>, b: seq<Row>) {
    |a| <= |b| && forall i :: 0 <= i < |a| ==> Evolves(a[i], b[i])
  }

  lemma HappenEvolves(v: Vault, hash: Bytes -> Digest, e: Event)
    ensures TableEvolves(v.rows, Happen(v, hash, e).rows)
  {
  }

  lemma EvolvesTransitive(a: seq<Row>, b: seq<Row>, c: seq<Row>)
    requires TableEvolves(a, b) && TableEvolves(b, c)
    ensures TableEvolves(a, c)
  {
    forall i | 0 <= i < |a|
      ensures Evolves(a[i], c[i])
    {
      assert Evolves(a[i], b[i]) && Evolves(b[i], c[i]);
    }
  }

  lemma RunOneMore(hash: Bytes -> Digest, events: seq<Event>, e: Event)
    ensures Run(hash, events + [e]) == Happen(Run(hash, events), hash, e)
  {
    assert (events + [e])[..|events|] == events;
  }

  /**
    Over every run, even with arbitrary changes to the disk: no row is ever removed, state
    only moves forward, and the first deletion's who, when and why never change again.
  */
  lemma {:induction false} LifecycleIsOneWay(hash: Bytes -> Digest, earlier: seq<Event>, later: seq<Event>)
    ensures TableEvolves(Run(hash, earlier).rows, Run(hash, earlier + later).rows)
    decreases |later|
  {
    if later == [] {
      assert earlier + later == earlier;
    } else {
      var n := |later| - 1;
      var mid, e := earlier + later[..n], later[n];
      LifecycleIsOneWay(hash, earlier, later[..n]);
      assert earlier + later == mid + [e];
      RunOneMore(hash, mid, e);
      HappenEvolves(Run(hash, mid), hash, e);
      EvolvesTransitive(Run(hash, earlier).rows, Run(hash, mid).rows, Run(hash, mid + [e]).rows);
    }
  }

  /* ------------------------------------------------------- what a fetch returns */

  ghost predicate CollisionFree(hash: Bytes -> Digest) {
    forall a, b :: hash(a) == hash(b) ==> a == b
  }

  /** The `put` that created this handle. */
  function FirstPut(events: seq<Event>, organizationId: string, evidenceRef: string): (r: Option<Event>)
    ensures r.Some? ==> r.value.Put? && r.value.organizationId == organizationId && r.value.evidenceRef == evidenceRef
  {
    if events == [] then None
    else
      var earlier, e := events[..|events| - 1], events[|events| - 1];
      var before := FirstPut(earlier, organizationId, evidenceRef);
      if before.None? && e.Put? && e.organizationId == organizationId && e.evidenceRef == evidenceRef
      then Some(e) else before
  }

  /** Each row stands for its own `put`: what it is about, its digest, its size while it has bytes, and its expiry. */
  ghost predicate FromPut(hash: Bytes -> Digest, events: seq<Event>, row: Row) {
    var put := FirstPut(events, row.organizationId, row.evidenceRef);
    && put.Some? && row.contentHash == hash(put.value.payload) && row.about == put.value.about
    && row.expiresAt == Some(put.value.now + 86_400 * put.value.retentionDays)
    && (row.state != Deleted ==> row.sizeBytes == |put.value.payload| && row.tombstone == None)
  }

  ghost predicate UniqueHandles(rows: seq<Row>) {
    forall i, j :: 0 <= i < j < |rows| ==> !rows[j].Is(rows[i].organizationId, rows[i].evidenceRef)
  }

  lemma FirstPutStays(events: seq<Event>, e: Event, organizationId: string, evidenceRef: string)
    requires FirstPut(events, organizationId, evidenceRef).Some?
    ensures FirstPut(events + [e], organizationId, evidenceRef) == FirstPut(events, organizationId, evidenceRef)
  {
    assert (events + [e])[..|events|] == events;
  }

  lemma {:induction false} HandleMeansRow(hash: Bytes -> Digest, events: seq<Event>, organizationId: string,
                                          evidenceRef: string)
    ensures FirstPut(events, organizationId, evidenceRef).Some?
       <==> Find(Run(hash, events).rows, organizationId, evidenceRef).Some?
    decreases |events|
  {
    if events != [] {
      var earlier, e := events[..|events| - 1], events[|events| - 1];
      HandleMeansRow(hash, earlier, organizationId, evidenceRef);
      var before, after := Run(hash, earlier).rows, Run(hash, events).rows;
      HappenEvolves(Run(hash, earlier), hash, e);
      var at := Find(before, organizationId, evidenceRef);
      if at.Some? {
        assert after[at.value].Is(organizationId, evidenceRef);
      } else {
        RowsAreOldOrPut(Run(hash, earlier), hash, e);
        if e.Put? && e.organizationId == organizationId && e.evidenceRef == evidenceRef {
          assert after[|before|].Is(organizationId, evidenceRef);
        }
      }
    }
  }

  /** An event either keeps the number of rows or is a `put` of a new handle that adds its row at the end. */
  lemma RowsAreOldOrPut(v: Vault, hash: Bytes -> Digest, e: Event)
    ensures
      var rows := Happen(v, hash, e).rows;
      if e.Put? && Find(v.rows, e.organizationId, e.evidenceRef).None?
      then rows == v.rows + [RowOf(hash, e)]
      else |rows| == |v.rows| && forall i :: 0 <= i < |rows| ==> Evolves(v.rows[i], rows[i])
  {
    HappenEvolves(v, hash, e);
  }

  lemma RowStaysFromPut(hash: Bytes -> Digest, events: seq<Event>, e: Event, before: Row, after: Row)
    requires FromPut(hash, events, before) && Evolves(before, after)
    ensures FromPut(hash, events + [e], after)
  {
    FirstPutStays(events, e, before.organizationId, before.evidenceRef);
  }

  lemma NewRowIsFromPut(hash: Bytes -> Digest, events: seq<Event>, e: Event)
    requires e.Put? && FirstPut(events, e.organizationId, e.evidenceRef).None?
    ensures FromPut(hash, events + [e], RowOf(hash, e))
  {
    assert (events + [e])[..|events|] == events;
  }

  lemma {:induction false} RowsComeFromPuts(hash: Bytes -> Digest, events: seq<Event>)
    ensures UniqueHandles(Run(hash, events).rows)
    ensures forall i :: 0 <= i < |Run(hash, events).rows| ==> FromPut(hash, events, Run(hash, events).rows[i])
    decreases |events|
  {
    if events != [] {
      var earlier, e := events[..|events| - 1], events[|events| - 1];
      RowsComeFromPuts(hash, earlier);
      RowsAreOldOrPut(Run(hash, earlier), hash, e);
      assert events == earlier + [e];
      var before, after := Run(hash, earlier).rows, Run(hash, events).rows;
      forall i | 0 <= i < |after|
        ensures FromPut(hash, events, after[i])
      {
        if i < |before| {
          RowStaysFromPut(hash, earlier, e, before[i], after[i]);
        } else {
          HandleMeansRow(hash, earlier, e.organizationId, e.evidenceRef);
          NewRowIsFromPut(hash, earlier, e);
        }
      }
    }
  }

  /**
    Over every run of puts, expiries, deletions, sweeps and arbitrary corruption of the disk:
    a fetch that returns bytes returns them for a RETAINED row, and they are the bytes put
    under that handle.
  */
  lemma FetchReturnsWhatWasPut(hash: Bytes -> Digest, events: seq<Event>, organizationId: string, evidenceRef: string)
    requires CollisionFree(hash)
    ensures
      var r := Fetch(Run(hash, events), hash, organizationId, evidenceRef);
      r.Ok? ==>
        && r.value.0.state.Retained?
        && r.value.0.Is(organizationId, evidenceRef)
        && FirstPut(events, organizationId, evidenceRef).Some?
        && FirstPut(events, organizationId, evidenceRef).value.payload == r.value.1
  {
    RowsComeFromPuts(hash, events);
    var v := Run(hash, events);
    var at := Find(v.rows, organizationId, evidenceRef);
    if at.Some? {
      assert FromPut(hash, events, v.rows[at.value]);
    }
  }

  /**
    Evidence expires when its time has come and not before, over every run: a RETAINED row
    whose handle was first put at `t` for `d` days becomes EXPIRED by an expiry at `now` if
    and only if it is in scope and `d` days of 86,400 seconds have gone by; no other row changes.
  */
  lemma ExpiresExactlyWhenDue(hash: Bytes -> Digest, events: seq<Event>, scope: Option<string>, now: int, i: nat)
    requires i < |Run(hash, events).rows|
    ensures
      var rows, rows' := Run(hash, events).rows, Run(hash, events + [Expire(scope, now)]).rows;
      && |rows'| == |rows| && FirstPut(events, rows[i].organizationId, rows[i].evidenceRef).Some?
      && var put := FirstPut(events, rows[i].organizationId, rows[i].evidenceRef).value;
         var covered := scope.None? || scope.value == "" || scope.value == rows[i].organizationId;
         && (rows[i].state == Retained ==>
               (rows'[i].state == Expired <==> covered && put.now + 86_400 * put.retentionDays <= now))
         && (rows'[i] == rows[i] || rows'[i] == rows[i].(state := Expired))
         && (rows[i].state != Retained ==> rows'[i] == rows[i])
  {
    RowsComeFromPuts(hash, events);
    RunOneMore(hash, events, Expire(scope, now));
    assert FromPut(hash, events, Run(hash, events).rows[i]);
  }

  /* ------------------------------------------------------- bytes behind the rows */

  /** Rows that still claim bytes name their own file, which holds the right bytes. */
  ghost predicate Backed(row: Row, disk: Disk, hash: Bytes -> Digest) {
    !row.state.Deleted? ==>
      && row.storage == Some(Path(row.organizationId, row.contentHash))
      && row.storage.value in disk && hash(disk[row.storage.value]) == row.contentHash
  }

  ghost predicate AllBacked(v: Vault, hash: Bytes -> Digest) {
    forall i :: 0 <= i < |v.rows| ==> Backed(v.rows[i], v.disk, hash)
  }

  predicate SameFile(a: Row, b: Row) {
    a.organizationId == b.organizationId && a.contentHash == b.contentHash
  }

  ghost predicate NoSharing(rows: seq<Row>) {
    forall i, j :: 0 <= i < j < |rows| ==> !SameFile(rows[i], rows[j])
  }

  /** No two puts in an organization store the same digest, and nothing touches the disk from outside. */
  ghost predicate DistinctAndUntouched(hash: Bytes -> Digest, events: seq<Event>) {
    && (forall i :: 0 <= i < |events| ==> !events[i].Corrupt?)
    && (forall i, j :: 0 <= i < j < |events| && events[i].Put? && events[j].Put? ==>
          events[i].organizationId != events[j].organizationId || hash(events[i].payload) != hash(events[j].payload))
  }

  /** A row's (organization, digest) is that of some put of the run. */
  ghost predicate PutBefore(hash: Bytes -> Digest, events: seq<Event>, row: Row) {
    exists k :: 0 <= k < |events| && events[k].Put? && events[k].organizationId == row.organizationId
                && hash(events[k].payload) == row.contentHash
  }

  /**
    Deleting a row keeps every other retained row's bytes exactly when no retained row shares
    its file: two puts of the same image are one file, and erasing either removes it.
  */
  lemma DeleteKeepsBytesIff(v: Vault, hash: Bytes -> Digest, i: nat, actor: string, reason: string, now: int)
    requires AllBacked(v, hash) && UniqueHandles(v.rows) && i < |v.rows| && !v.rows[i].state.Deleted?
    ensures
      var v' := Removed(v, v.rows[i].organizationId, v.rows[i].evidenceRef, actor, reason, now, {});
      AllBacked(v', hash) <==>
        forall j :: 0 <= j < |v.rows| && j != i && !v.rows[j].state.Deleted? ==> !SameFile(v.rows[i], v.rows[j])
  {
    var row := v.rows[i];
    var at := Find(v.rows, row.organizationId, row.evidenceRef);
    assert at.value == i;
    var v' := Removed(v, row.organizationId, row.evidenceRef, actor, reason, now, {});
    assert forall j :: 0 <= j < |v.rows| && j != i ==> v'.rows[j] == v.rows[j];
    forall j | 0 <= j < |v.rows| && j != i && !v.rows[j].state.Deleted?
      ensures Backed(v'.rows[j], v'.disk, hash) <==> !SameFile(row, v.rows[j])
    {
      assert Backed(v.rows[j], v.disk, hash) && Backed(row, v.disk, hash);
    }
  }

  /** The row a put leaves for its handle, when the handle is new. */
  function RowOf(hash: Bytes -> Digest, e: Event): Row
    requires e.Put?
  {
    NewRow(e.organizationId, e.evidenceRef, e.about, e.payload, hash(e.payload), e.now, e.retentionDays)
  }

  lemma PutAddsRow(hash: Bytes -> Digest, events: seq<Event>, e: Event)
    requires e.Put? && Find(Run(hash, events).rows, e.organizationId, e.evidenceRef).None?
    ensures Run(hash, events + [e]).rows == Run(hash, events).rows + [RowOf(hash, e)]
  {
    RunOneMore(hash, events, e);
  }

  /** Deleting a row leaves a retained row that shares its file without bytes. */
  lemma DeleteTakesSharedFile(v: Vault, hash: Bytes -> Digest, e: Event, i: nat, j: nat)
    requires UniqueHandles(v.rows) && i < |v.rows| && j < |v.rows| && i != j
    requires e.Delete? && v.rows[i].Is(e.organizationId, e.evidenceRef) && e.undeletable == {}
    requires !v.rows[i].state.Deleted? && v.rows[j].state.Retained?
    requires v.rows[i].storage.Some? && v.rows[j].storage == v.rows[i].storage
    ensures Fetch(Happen(v, hash, e), hash, v.rows[j].organizationId, v.rows[j].evidenceRef) == Err(BytesMissing)
  {
    var v', other := Happen(v, hash, e), v.rows[j];
    assert Find(v.rows, e.organizationId, e.evidenceRef) == Some(i);
    assert v'.rows[j] == other;
    assert forall k :: 0 <= k < |v.rows| ==> v'.rows[k].Is(v.rows[k].organizationId, v.rows[k].evidenceRef);
    assert Find(v'.rows, other.organizationId, other.evidenceRef) == Some(j);
  }

  lemma TwoPuts(hash: Bytes -> Digest, events: seq<Event>, e0: Event, e1: Event)
    requires e0.Put? && e1.Put? && e0.evidenceRef != e1.evidenceRef
    requires Find(Run(hash, events).rows, e0.organizationId, e0.evidenceRef).None?
    requires Find(Run(hash, events).rows, e1.organizationId, e1.evidenceRef).None?
    ensures Run(hash, events + [e0] + [e1]).rows == Run(hash, events).rows + [RowOf(hash, e0)] + [RowOf(hash, e1)]
  {
    PutAddsRow(hash, events, e0);
    PutAddsRow(hash, events + [e0], e1);
  }

  lemma DeletionLosesBytes(hash: Bytes -> Digest, events: seq<Event>, e: Event, i: nat, j: nat)
    requires i < |Run(hash, events).rows| && j < |Run(hash, events).rows| && i != j
    requires e.Delete? && Run(hash, events).rows[i].Is(e.organizationId, e.evidenceRef) && e.undeletable == {}
    requires !Run(hash, events).rows[i].state.Deleted? && Run(hash, events).rows[j].state.Retained?
    requires Run(hash, events).rows[i].storage.Some?
    requires Run(hash, events).rows[j].storage == Run(hash, events).rows[i].storage
    ensures
      var row := Run(hash, events).rows[j];
      Fetch(Run(hash, events + [e]), hash, row.organizationId, row.evidenceRef) == Err(BytesMissing)
  {
    RowsComeFromPuts(hash, events);
    RunOneMore(hash, events, e);
    DeleteTakesSharedFile(Run(hash, events), hash, e, i, j);
  }

  /**
    The runs that lose bytes: after anything at all, two puts of the same image under new
    handles and a deletion of the first; the second is RETAINED and cannot be served.
  */
  lemma SharedBytesAreLost(hash: Bytes -> Digest, events: seq<Event>, e0: Event, e1: Event, e2: Event)
    requires e0.Put? && e1.Put? && e0.organizationId == e1.organizationId && e0.payload == e1.payload
    requires e0.evidenceRef != e1.evidenceRef
    requires Find(Run(hash, events).rows, e0.organizationId, e0.evidenceRef).None?
    requires Find(Run(hash, events).rows, e1.organizationId, e1.evidenceRef).None?
    requires e2.Delete? && e2.organizationId == e0.organizationId && e2.evidenceRef == e0.evidenceRef
    requires e2.undeletable == {}
    ensures Fetch(Run(hash, events + [e0] + [e1] + [e2]), hash, e1.organizationId, e1.evidenceRef) == Err(BytesMissing)
  {
    TwoPuts(hash, events, e0, e1);
    var n := |Run(hash, events).rows|;
    DeletionLosesBytes(hash, events + [e0] + [e1], e2, n, n + 1);
  }

  /** An expired row whose file the sweep can remove. */
  predicate Removable(row: Row, undeletable: set<Path>) {
    row.state.Expired? && row.storage.Some? && row.storage.value !in undeletable
  }

  lemma SweepSparesRowIff(v: Vault, hash: Bytes -> Digest, tombstone: Tombstone, undeletable: set<Path>, i: nat)
    requires AllBacked(v, hash) && i < |v.rows|
    ensures
      var v' := Happen(v, hash, EraseExpired(tombstone, undeletable));
      Backed(v'.rows[i], v'.disk, hash) <==>
        (v.rows[i].state.Retained? ==>
           forall j :: 0 <= j < |v.rows| && Removable(v.rows[j], undeletable) ==> !SameFile(v.rows[i], v.rows[j]))
  {
    var row := v.rows[i];
    var v' := Happen(v, hash, EraseExpired(tombstone, undeletable));
    assert Backed(row, v.disk, hash);
    if !row.state.Deleted? {
      var path := row.storage.value;
      assert forall j :: 0 <= j < |v.rows| && Removable(v.rows[j], undeletable) ==>
               Backed(v.rows[j], v.disk, hash) && (SameFile(row, v.rows[j]) <==> v.rows[j].storage == Some(path));
      assert path in v'.disk <==> !Unlinked(v.rows, undeletable, path);
    }
  }

  /**
    The same for a sweep: it keeps every other row's bytes exactly when no RETAINED row
    shares a file with an expired row whose file it can remove.
  */
  lemma SweepKeepsBytesIff(v: Vault, hash: Bytes -> Digest, tombstone: Tombstone, undeletable: set<Path>)
    requires AllBacked(v, hash)
    ensures AllBacked(Happen(v, hash, EraseExpired(tombstone, undeletable)), hash) <==>
              forall i, j :: 0 <= i < |v.rows| && 0 <= j < |v.rows|
                             && v.rows[i].state.Retained? && Removable(v.rows[j], undeletable)
                ==> !SameFile(v.rows[i], v.rows[j])
  {
    forall i | 0 <= i < |v.rows|
      ensures
        var v' := Happen(v, hash, EraseExpired(tombstone, undeletable));
        Backed(v'.rows[i], v'.disk, hash) <==>
          (v.rows[i].state.Retained? ==>
             forall j :: 0 <= j < |v.rows| && Removable(v.rows[j], undeletable) ==> !SameFile(v.rows[i], v.rows[j]))
    {
      SweepSparesRowIff(v, hash, tombstone, undeletable, i);
    }
  }

  lemma StoredStaysBacked(v: Vault, hash: Bytes -> Digest, e: Event)
    requires AllBacked(v, hash) && e.Put?
    requires Path(e.organizationId, hash(e.payload)) !in v.disk
    ensures AllBacked(Happen(v, hash, e), hash)
  {
    var v' := Happen(v, hash, e);
    forall i | 0 <= i < |v'.rows|
      ensures Backed(v'.rows[i], v'.disk, hash)
    {
      if i < |v.rows| {
        assert Backed(v.rows[i], v.disk, hash);
      }
    }
  }

  lemma RemovedStaysBacked(v: Vault, hash: Bytes -> Digest, e: Event)
    requires AllBacked(v, hash) && NoSharing(v.rows) && e.Delete?
    ensures AllBacked(Happen(v, hash, e), hash)
  {
    var v' := Happen(v, hash, e);
    var at := Find(v.rows, e.organizationId, e.evidenceRef);
    forall i | 0 <= i < |v'.rows|
      ensures Backed(v'.rows[i], v'.disk, hash)
    {
      assert Backed(v.rows[i], v.disk, hash);
      if at.Some? && at.value != i {
        assert !SameFile(v.rows[at.value], v.rows[i]);
        assert Backed(v.rows[at.value], v.disk, hash);
      }
    }
  }

  /** Without sharing, a sweep unlinks a live row's file only on behalf of that row. */
  lemma UnlinkedByItsOwner(v: Vault, hash: Bytes -> Digest, undeletable: set<Path>, i: nat)
    requires AllBacked(v, hash) && NoSharing(v.rows) && i < |v.rows| && !v.rows[i].state.Deleted?
    requires v.rows[i].storage.Some? && Unlinked(v.rows, undeletable, v.rows[i].storage.value)
    ensures v.rows[i].state.Expired? && v.rows[i].storage.value !in undeletable
  {
    var path := v.rows[i].storage.value;
    var j :| 0 <= j < |v.rows| && v.rows[j].state.Expired? && v.rows[j].storage == Some(path);
    assert Backed(v.rows[j], v.disk, hash) && Backed(v.rows[i], v.disk, hash);
    assert SameFile(v.rows[j], v.rows[i]) && SameFile(v.rows[i], v.rows[j]);
  }

  lemma SweptStaysBacked(v: Vault, hash: Bytes -> Digest, e: Event)
    requires AllBacked(v, hash) && NoSharing(v.rows) && e.EraseExpired?
    ensures AllBacked(Happen(v, hash, e), hash)
  {
    var v' := Happen(v, hash, e);
    forall i | 0 <= i < |v'.rows| && !v'.rows[i].state.Deleted?
      ensures Backed(v'.rows[i], v'.disk, hash)
    {
      var row := v.rows[i];
      assert Backed(row, v.disk, hash) && v'.rows[i] == row;
      if Unlinked(v.rows, e.undeletable, row.storage.value) {
        UnlinkedByItsOwner(v, hash, e.undeletable, i);
      }
    }
  }

  /** Files come from puts too. */
  ghost predicate FilesFromPuts(hash: Bytes -> Digest, events: seq<Event>, disk: Disk) {
    forall path :: path in disk ==>
      exists k :: 0 <= k < |events| && events[k].Put? && path == Path(events[k].organizationId, hash(events[k].payload))
  }

  lemma KnownFileRepeats(hash: Bytes -> Digest, events: seq<Event>, v: Vault, e: Event)
    requires FilesFromPuts(hash, events, v.disk) && e.Put? && Path(e.organizationId, hash(e.payload)) in v.disk
    ensures !DistinctAndUntouched(hash, events + [e])
  {
    var path := Path(e.organizationId, hash(e.payload));
    var k :| 0 <= k < |events| && events[k].Put? && path == Path(events[k].organizationId, hash(events[k].payload));
    var events' := events + [e];
    assert events'[k] == events[k] && events'[|events|] == e;
  }

  lemma HappenFilesFromPuts(hash: Bytes -> Digest, events: seq<Event>, v: Vault, e: Event)
    requires FilesFromPuts(hash, events, v.disk) && !e.Corrupt?
    ensures FilesFromPuts(hash, events + [e], Happen(v, hash, e).disk)
  {
    var events' := events + [e];
    forall path | path in Happen(v, hash, e).disk
      ensures exists k :: 0 <= k < |events'| && events'[k].Put?
                          && path == Path(events'[k].organizationId, hash(events'[k].payload))
    {
      if path in v.disk {
        var k :| 0 <= k < |events| && events[k].Put? && path == Path(events[k].organizationId, hash(events[k].payload));
        assert events'[k] == events[k];
      } else {
        assert events'[|events|] == e;
      }
    }
  }

  lemma HappenKeepsUnshared(hash: Bytes -> Digest, events: seq<Event>, v: Vault, e: Event)
    requires DistinctAndUntouched(hash, events + [e])
    requires NoSharing(v.rows) && forall i :: 0 <= i < |v.rows| ==> PutBefore(hash, events, v.rows[i])
    ensures NoSharing(Happen(v, hash, e).rows)
    ensures forall i :: 0 <= i < |Happen(v, hash, e).rows| ==> PutBefore(hash, events + [e], Happen(v, hash, e).rows[i])
  {
    RowsAreOldOrPut(v, hash, e);
    var events', rows := events + [e], Happen(v, hash, e).rows;
    assert events'[|events|] == e;
    forall i | 0 <= i < |v.rows|
      ensures SameFile(v.rows[i], rows[i]) && PutBefore(hash, events', rows[i])
      ensures e.Put? && |rows| > |v.rows| ==> !SameFile(rows[i], rows[|v.rows|])
    {
      assert PutBefore(hash, events, v.rows[i]);
      var k :| 0 <= k < |events| && events[k].Put? && events[k].organizationId == v.rows[i].organizationId
               && hash(events[k].payload) == v.rows[i].contentHash;
      assert events'[k] == events[k];
    }
  }

  ghost predicate Grounded(hash: Bytes -> Digest, events: seq<Event>, v: Vault) {
    && AllBacked(v, hash)
    && NoSharing(v.rows)
    && FilesFromPuts(hash, events, v.disk)
    && (forall i :: 0 <= i < |v.rows| ==> PutBefore(hash, events, v.rows[i]))
  }

  lemma HappenStaysBacked(hash: Bytes -> Digest, events: seq<Event>, v: Vault, e: Event)
    requires Grounded(hash, events, v) && DistinctAndUntouched(hash, events + [e]) && !e.Corrupt?
    ensures AllBacked(Happen(v, hash, e), hash)
  {
    match e
    case Put(organizationId, _, _, payload, _, _) =>
      if Path(organizationId, hash(payload)) in v.disk {
        KnownFileRepeats(hash, events, v, e);
      }
      StoredStaysBacked(v, hash, e);
    case Delete(_, _, _, _, _, _) => RemovedStaysBacked(v, hash, e);
    case EraseExpired(_, _) => SweptStaysBacked(v, hash, e);
    case Expire(scope, now) =>
      assert forall i :: 0 <= i < |v.rows| ==> Backed(v.rows[i], v.disk, hash);
  }

  /**
    With distinct digests and an untouched disk, the bytes of every row not yet erased are on
    disk under its own file, over every run.
  */
  lemma {:induction false} RetainedMeansOnDisk(hash: Bytes -> Digest, events: seq<Event>)
    requires DistinctAndUntouched(hash, events)
    ensures Grounded(hash, events, Run(hash, events))
    decreases |events|
  {
    if events != [] {
      var earlier, e := events[..|events| - 1], events[|events| - 1];
      assert events == earlier + [e];
      RetainedMeansOnDisk(hash, earlier);
      HappenFilesFromPuts(hash, earlier, Run(hash, earlier), e);
      HappenKeepsUnshared(hash, earlier, Run(hash, earlier), e);
      HappenStaysBacked(hash, earlier, Run(hash, earlier), e);
    }
  }

  /** So there a fetch succeeds exactly for the RETAINED rows. */
  lemma FetchServesExactlyRetained(hash: Bytes -> Digest, events: seq<Event>, organizationId: string,
                                   evidenceRef: string)
    requires DistinctAndUntouched(hash, events)
    ensures
      var v := Run(hash, events);
      var at := Find(v.rows, organizationId, evidenceRef);
      Fetch(v, hash, organizationId, evidenceRef).Ok? <==> at.Some? && v.rows[at.value].state.Retained?
  {
    RetainedMeansOnDisk(hash, events);
    var v := Run(hash, events);
    var at := Find(v.rows, organizationId, evidenceRef);
    if at.Some? {
      assert Backed(v.rows[at.value], v.disk, hash);
    }
  }

  /* ------------------------------------------------------------------- the class */

  /** `history` is every event so far, so that what is proved over runs holds of the object. */
  class EvidenceStore {
    const hash: Bytes -> Digest
    var rows: seq<Row>
    var disk: Disk
    ghost var history: seq<Event>

    ghost function View(): Vault
      reads this
    {
      Vault(rows, disk)
    }

    ghost predicate Valid()
      reads this
    {
      View() == Run(hash, history)
    }

    constructor (hash: Bytes -> Digest)
      ensures Valid() && this.hash == hash && history == []
    {
      this.hash := hash;
      rows, disk, history := [], map[], [];
    }

    method PutEvidence(organizationId: string, evidenceRef: string, about: About, payload: Bytes, now: int,
                       retentionDays: int)
      returns (ok: bool)
      requires Valid()
      modifies this
      ensures Valid()
      ensures history == old(history) + [Put(organizationId, evidenceRef, about, payload, now, retentionDays)]
      ensures View() == Stored(old(View()), hash, organizationId, evidenceRef, about, payload, now, retentionDays)
      ensures ok <==> Find(old(rows), organizationId, evidenceRef).None?
    {
      ok := Store(organizationId, evidenceRef, about, payload, now, retentionDays);
      RunOneMore(hash, history, Put(organizationId, evidenceRef, about, payload, now, retentionDays));
      history := history + [Put(organizationId, evidenceRef, about, payload, now, retentionDays)];
    }

    /** The bytes, then the row. */
    method Store(organizationId: string, evidenceRef: string, about: About, payload: Bytes, now: int,
                 retentionDays: int)
      returns (ok: bool)
      modifies this`rows, this`disk
      ensures View() == Stored(old(View()), hash, organizationId, evidenceRef, about, payload, now, retentionDays)
      ensures ok <==> Find(old(rows), organizationId, evidenceRef).None?
      ensures
        var path := Path(organizationId, hash(payload));
        disk == if path in old(disk) then old(disk) else old(disk)[path := payload]
    {
      var digest := hash(payload);
      var path := Path(organizationId, digest);
      if path !in disk {
        disk := disk[path := payload];
      }
      if Find(rows, organizationId, evidenceRef).Some? {
        return false;
      }
      rows := rows + [NewRow(organizationId, evidenceRef, about, payload, digest, now, retentionDays)];
      return true;
    }

    /** `fetch`: lifecycle first, then the bytes, then their digest. */
    method FetchEvidence(organizationId: string, evidenceRef: string) returns (r: Result<(Row, Bytes), FetchError>)
      requires Valid()
      ensures r == Fetch(View(), hash, organizationId, evidenceRef)
      ensures CollisionFree(hash) && r.Ok? ==>
                && r.value.0.state.Retained?
                && FirstPut(history, organizationId, evidenceRef).Some?
                && FirstPut(history, organizationId, evidenceRef).value.payload == r.value.1
      ensures DistinctAndUntouched(hash, history) ==>
                (r.Ok? <==> Find(rows, organizationId, evidenceRef).Some?
                            && rows[Find(rows, organizationId, evidenceRef).value].state.Retained?)
    {
      if CollisionFree(hash) {
        FetchReturnsWhatWasPut(hash, history, organizationId, evidenceRef);
      }
      if DistinctAndUntouched(hash, history) {
        FetchServesExactlyRetained(hash, history, organizationId, evidenceRef);
      }
      var at := Find(rows, organizationId, evidenceRef);
      if at.None? {
        return Err(NoSuchEvidence);
      }
      var row := rows[at.value];
      if row.state.Deleted? {
        return Err(WasDeleted);
      }
      if !row.state.Retained? {
        return Err(PastRetention);
      }
      if row.storage.None? || row.storage.value !in disk {
        return Err(BytesMissing);
      }
      var payload := disk[row.storage.value];
      if hash(payload) != row.contentHash {
        return Err(IntegrityFailed);
      }
      return Ok((row, payload));
    }

    /** `expire_due`: returns the handles it marked, in row order. */
    method ExpireDue(scope: Option<string>, now: int) returns (expired: seq<string>)
      requires Valid()
      modifies this
      ensures Valid() && history == old(history) + [Expire(scope, now)]
      ensures rows == Marked(old(rows), scope, now) && disk == old(disk)
      ensures expired == DueRefs(old(rows), scope, now)
    {
      expired := MarkDue(scope, now);
      RunOneMore(hash, history, Expire(scope, now));
      history := history + [Expire(scope, now)];
    }

    /** The loop over the due rows. */
    method MarkDue(scope: Option<string>, now: int) returns (expired: seq<string>)
      modifies this`rows
      ensures rows == Marked(old(rows), scope, now)
      ensures expired == DueRefs(old(rows), scope, now)
    {
      expired := [];
      ghost var before := rows;
      for i := 0 to |rows|
        invariant |rows| == |before|
        invariant forall k :: 0 <= k < i ==> rows[k] == Marked(before, scope, now)[k]
        invariant forall k :: i <= k < |rows| ==> rows[k] == before[k]
        invariant expired == DueRefs(before[..i], scope, now)
      {
        assert before[..i + 1][..i] == before[..i];
        var row := rows[i];
        if row.Due(now) && InScope(scope, row) {
          rows := rows[i := row.(state := Expired)];
          expired := expired + [row.evidenceRef];
        }
      }
      assert before[..|before|] == before;
    }

    /** `delete`: the error is the unlink that could not be done. */
    method DeleteEvidence(organizationId: string, evidenceRef: string, actor: string, reason: string,
                          now: int, undeletable: set<Path>)
      returns (r: Result<Row, string>)
      requires Valid()
      modifies this
      ensures Valid()
      ensures history == old(history) + [Delete(organizationId, evidenceRef, actor, reason, now, undeletable)]
      ensures View() == Removed(old(View()), organizationId, evidenceRef, actor, reason, now, undeletable)
      ensures r.Ok? ==> r.value.state.Deleted? && r.value.Is(organizationId, evidenceRef)
      ensures r.Ok? && Find(old(rows), organizationId, evidenceRef).Some?
              && old(rows)[Find(old(rows), organizationId, evidenceRef).value].state != Deleted ==>
                var kept := if |reason| > 255 then reason[..255] else reason;
                r.value.storage == None && r.value.sizeBytes == 0
                && r.value.tombstone == Some(Tombstone(now, actor, kept))
      ensures r.Err? ==> View() == old(View())
      ensures
        var at := Find(old(rows), organizationId, evidenceRef);
        r.Err? <==> at.None? || (old(rows)[at.value].state != Deleted
                                 && exists path :: path in old(disk) && path in undeletable
                                                   && old(rows)[at.value].storage == Some(path))
      ensures r.Ok? ==>
                var row := old(rows)[Find(old(rows), organizationId, evidenceRef).value];
                forall path :: path in disk <==>
                  path in old(disk) && (row.state == Deleted || row.storage != Some(path))
    {
      RunOneMore(hash, history, Delete(organizationId, evidenceRef, actor, reason, now, undeletable));
      history := history + [Delete(organizationId, evidenceRef, actor, reason, now, undeletable)];
      var at := Find(rows, organizationId, evidenceRef);
      if at.None? {
        return Err("no such evidence");
      }
      var row := rows[at.value];
      if row.state.Deleted? {
        return Ok(row);
      }
      if row.storage.Some? && row.storage.value in disk {
        if row.storage.value in undeletable {
          return Err("unlink failed");
        }
        disk := disk - {row.storage.value};
      }
      row := Erased(row, Tombstone(now, actor, Clip(reason)));
      rows := rows[at.value := row];
      assert old(disk) == disk || row.storage.None?;
      return Ok(row);
    }
  }

  /** The handles due in scope, in row order. */
  function DueRefs(rows: seq<Row>, scope: Option<string>, now: int): seq<string> {
    if rows == [] then []
    else
      var n := |rows| - 1;
      DueRefs(rows[..n], scope, now)
      + (if rows[n].Due(now) && InScope(scope, rows[n]) then [rows[n].evidenceRef] else [])
  }
}
