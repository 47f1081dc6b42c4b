/**
  The retention sweep (app/domain/retention.py): evidence expires and is then erased,
  aged resolved incidents and aged audit rows are pruned. The clock is a parameter; one
  sweep sees one instant. `undeletable` are the files whose unlink raises.
*/
module Retention {
  import opened Basics
  import opened Decimals
  import opened Evidence
  import Incidents

  datatype AuditAction = EvidenceExpired | EvidenceDeleted | OtherAction(name: string)

  datatype AuditEvent = AuditEvent(
    action: AuditAction,
    organizationId: string,
    actor: string,
    resourceId: string,
    succeeded: bool,
    occurredAt: int)

  datatype Policy = Policy(evidenceDays: int, incidentDays: int, auditDays: int)

  datatype Report = Report(
    evidenceExpired: int,
    evidenceErased: int,
    incidentsPruned: int,
    auditPruned: int,
    eraseFailures: seq<string>,
    dryRun: bool)

  /** The three tables and the disk. */
  datatype Office = Office(rows: seq<Row>, disk: Disk, incidents: seq<Incidents.Incident>, audit: seq<AuditEvent>)

  /* -------------------------------------------------------------------- evidence */

  function ExpiryEvent(row: Row, now: int): AuditEvent {
    AuditEvent(EvidenceExpired, row.organizationId, "retention", row.evidenceRef, true, now)
  }

  function EraseEvent(row: Row, succeeded: bool, now: int): AuditEvent {
    AuditEvent(EvidenceDeleted, row.organizationId, "retention", row.evidenceRef, succeeded, now)
  }

  function ExpiryTrail(rows: seq<Row>, now: int): seq<AuditEvent> {
    if rows == [] then []
    else
      var n := |rows| - 1;
      ExpiryTrail(rows[..n], now) + (if rows[n].Due(now) then [ExpiryEvent(rows[n], now)] else [])
  }

  function EraseTrail(rows: seq<Row>, disk: Disk, undeletable: set<Path>, now: int): seq<AuditEvent> {
    if rows == [] then []
    else
      var n := |rows| - 1;
      EraseTrail(rows[..n], disk, undeletable, now)
      + (if rows[n].state.Expired? then [EraseEvent(rows[n], !Stuck(rows[n], disk, undeletable), now)] else [])
  }

  /** The handles of expired rows whose file could not be removed. */
  function Failures(rows: seq<Row>, disk: Disk, undeletable: set<Path>): seq<string> {
    if rows == [] then []
    else
      var n := |rows| - 1;
      Failures(rows[..n], disk, undeletable)
      + (if rows[n].state.Expired? && Stuck(rows[n], disk, undeletable) then [rows[n].evidenceRef] else [])
  }

  function CountExpired(rows: seq<Row>): nat {
    if rows == [] then 0
    else CountExpired(rows[..|rows| - 1]) + (if rows[|rows| - 1].state.Expired? then 1 else 0)
  }

  function TombstoneOf(policy: Policy, now: int): Tombstone {
    Tombstone(now, "retention", "retention: " + Decimal(policy.evidenceDays) + " days")
  }

  /* --------------------------------------------------------------------- pruning */

  function IncidentCutoff(policy: Policy, now: int): int {
    now - Days(policy.incidentDays)
  }

  function AuditCutoff(policy: Policy, now: int): int {
    now - Days(policy.auditDays)
  }

  predicate IncidentAged(i: Incidents.Incident, cutoff: int) {
    i.status.Resolved? && i.resolvedAt.Some? && i.resolvedAt.value <= cutoff
  }

  function KeptIncidents(incidents: seq<Incidents.Incident>, cutoff: int): seq<Incidents.Incident> {
    if incidents == [] then []
    else (if IncidentAged(incidents[0], cutoff) then [] else [incidents[0]]) + KeptIncidents(incidents[1..], cutoff)
  }

  function KeptAudit(audit: seq<AuditEvent>, cutoff: int): seq<AuditEvent> {
    if audit == [] then []
    else (if audit[0].occurredAt <= cutoff then [] else [audit[0]]) + KeptAudit(audit[1..], cutoff)
  }

  /* ----------------------------------------------------------------------- sweep */

  /** `_expire_evidence` */
  function ExpiredOffice(o: Office, now: int): Office {
    o.(rows := Marked(o.rows, None, now), audit := o.audit + ExpiryTrail(o.rows, now))
  }

  /** `_erase_expired` */
  function ErasedOffice(o: Office, policy: Policy, now: int, undeletable: set<Path>): Office {
    o.(rows := SweptRows(o.rows, o.disk, undeletable, TombstoneOf(policy, now)),
       disk := SweptDisk(o.rows, o.disk, undeletable),
       audit := o.audit + EraseTrail(o.rows, o.disk, undeletable, now))
  }

  /** `_prune_incidents` and `_prune_audit` */
  function PrunedOffice(o: Office, policy: Policy, now: int): Office {
    o.(incidents := KeptIncidents(o.incidents, IncidentCutoff(policy, now)),
       audit := KeptAudit(o.audit, AuditCutoff(policy, now)))
  }

  /** `sweep`, as a function of the office before it. */
  function Swept(o: Office, policy: Policy, erase: bool, now: int, undeletable: set<Path>): (Office, Report) {
    var expired := |ExpiryTrail(o.rows, now)|;
    var o1 := ExpiredOffice(o, now);
    if !erase then (o1, Report(expired, 0, 0, 0, [], true))
    else
      var failures := Failures(o1.rows, o1.disk, undeletable);
      var o2 := ErasedOffice(o1, policy, now, undeletable);
      var o3 := PrunedOffice(o2, policy, now);
      (o3, Report(expired, CountExpired(o1.rows) - |failures|, |o2.incidents| - |o3.incidents|,
                  |o2.audit| - |o3.audit|, failures, false))
  }

  lemma {:induction false} FailuresBounded(rows: seq<Row>, disk: Disk, undeletable: set<Path>)
    ensures |Failures(rows, disk, undeletable)| <= CountExpired(rows)
    decreases |rows|
  {
    if rows != [] {
      FailuresBounded(rows[..|rows| - 1], disk, undeletable);
    }
  }

  lemma {:induction false} KeptShrinks(incidents: seq<Incidents.Incident>, cutoff: int)
    ensures |KeptIncidents(incidents, cutoff)| <= |incidents|
    ensures forall i :: i in KeptIncidents(incidents, cutoff) <==> i in incidents && !IncidentAged(i, cutoff)
    ensures (forall i :: i in incidents ==> !IncidentAged(i, cutoff)) ==> KeptIncidents(incidents, cutoff) == incidents
    decreases |incidents|
  {
    if incidents != [] {
      var rest := incidents[1..];
      KeptShrinks(rest, cutoff);
      assert incidents == [incidents[0]] + rest;
      assert incidents[0] in incidents && forall i :: i in rest ==> i in incidents;
    }
  }

  lemma {:induction false} KeptAuditShrinks(audit: seq<AuditEvent>, cutoff: int)
    ensures |KeptAudit(audit, cutoff)| <= |audit|
    ensures forall e :: e in KeptAudit(audit, cutoff) <==> e in audit && e.occurredAt > cutoff
    ensures (forall e :: e in audit ==> e.occurredAt > cutoff) ==> KeptAudit(audit, cutoff) == audit
    decreases |audit|
  {
    if audit != [] {
      var rest := audit[1..];
      KeptAuditShrinks(rest, cutoff);
      assert audit == [audit[0]] + rest;
      assert audit[0] in audit && forall e :: e in rest ==> e in audit;
    }
  }

  /* -------------------------------------------------------------------- theorems */

  /** Marking destroys nothing: exactly the due rows change, and only to EXPIRED, one audit row each. */
  lemma MarkOnlySweep(o: Office, policy: Policy, now: int, undeletable: set<Path>)
    ensures
      var (o', r) := Swept(o, policy, false, now, undeletable);
      && o'.disk == o.disk && o'.incidents == o.incidents && |o'.rows| == |o.rows|
      && (forall i :: 0 <= i < |o.rows| ==>
            var row := o.rows[i];
            o'.rows[i] == if row.state == Retained && row.expiresAt.Some? && row.expiresAt.value <= now
                          then row.(state := Expired) else row)
      && (forall e :: e in o'.audit <==> e in o.audit || IsExpiryOf(e, o.rows, now))
      && r.evidenceExpired == CountExpired(o'.rows) - CountExpired(o.rows)
      && o.audit <= o'.audit && |o'.audit| == |o.audit| + r.evidenceExpired
      && r.evidenceErased == r.incidentsPruned == r.auditPruned == 0 && r.eraseFailures == [] && r.dryRun
  {
    MarkingCounts(o.rows, now);
    ExpiryTrailSays(o.rows, now);
  }

  /** The audit row of a piece of evidence whose time has come. */
  ghost predicate IsExpiryOf(e: AuditEvent, rows: seq<Row>, now: int) {
    exists i :: 0 <= i < |rows|
                && rows[i].state == Retained && rows[i].expiresAt.Some? && rows[i].expiresAt.value <= now
                && e == AuditEvent(EvidenceExpired, rows[i].organizationId, "retention", rows[i].evidenceRef, true, now)
  }

  /** The audit row of an attempt to erase: it succeeded unless the file is there and cannot be removed. */
  ghost predicate IsErasureOf(e: AuditEvent, rows: seq<Row>, disk: Disk, undeletable: set<Path>, now: int) {
    exists i :: 0 <= i < |rows| && rows[i].state == Expired
                && e == AuditEvent(EvidenceDeleted, rows[i].organizationId, "retention", rows[i].evidenceRef,
                                   !Immovable(rows[i], disk, undeletable), now)
  }

  predicate Immovable(row: Row, disk: Disk, undeletable: set<Path>) {
    match row.storage
    case None => false
    case Some(path) => path in disk && path in undeletable
  }

  lemma {:induction false} ExpiryTrailSays(rows: seq<Row>, now: int)
    ensures forall e :: e in ExpiryTrail(rows, now) <==> IsExpiryOf(e, rows, now)
    decreases |rows|
  {
    if rows != [] {
      var n := |rows| - 1;
      ExpiryTrailSays(rows[..n], now);
      forall e
        ensures IsExpiryOf(e, rows, now) <==> IsExpiryOf(e, rows[..n], now) || IsExpiryOf(e, [rows[n]], now)
      {
        ExpirySplits(e, rows, now);
      }
    }
  }

  lemma ExpirySplits(e: AuditEvent, rows: seq<Row>, now: int)
    requires rows != []
    ensures IsExpiryOf(e, rows, now)
       <==> IsExpiryOf(e, rows[..|rows| - 1], now) || IsExpiryOf(e, [rows[|rows| - 1]], now)
  {
    var n := |rows| - 1;
    assert forall i :: 0 <= i < n ==> rows[..n][i] == rows[i];
    assert [rows[n]][0] == rows[n];
  }

  lemma {:induction false} EraseTrailSays(rows: seq<Row>, disk: Disk, undeletable: set<Path>, now: int)
    ensures forall e :: e in EraseTrail(rows, disk, undeletable, now) <==> IsErasureOf(e, rows, disk, undeletable, now)
    decreases |rows|
  {
    if rows != [] {
      var n := |rows| - 1;
      EraseTrailSays(rows[..n], disk, undeletable, now);
      forall e
        ensures IsErasureOf(e, rows, disk, undeletable, now) <==>
                  || IsErasureOf(e, rows[..n], disk, undeletable, now)
                  || IsErasureOf(e, [rows[n]], disk, undeletable, now)
      {
        ErasureSplits(e, rows, disk, undeletable, now);
      }
    }
  }

  lemma ErasureSplits(e: AuditEvent, rows: seq<Row>, disk: Disk, undeletable: set<Path>, now: int)
    requires rows != []
    ensures IsErasureOf(e, rows, disk, undeletable, now) <==>
              || IsErasureOf(e, rows[..|rows| - 1], disk, undeletable, now)
              || IsErasureOf(e, [rows[|rows| - 1]], disk, undeletable, now)
  {
    var n := |rows| - 1;
    assert forall i :: 0 <= i < n ==> rows[..n][i] == rows[i];
    assert [rows[n]][0] == rows[n];
  }

  lemma {:induction false} MarkingCounts(rows: seq<Row>, now: int)
    ensures CountExpired(Marked(rows, None, now)) == CountExpired(rows) + |ExpiryTrail(rows, now)|
    decreases |rows|
  {
    if rows != [] {
      var n := |rows| - 1;
      MarkingCounts(rows[..n], now);
      assert Marked(rows, None, now)[..n] == Marked(rows[..n], None, now);
    }
  }

  lemma {:induction false} FailuresAreStuckRows(rows: seq<Row>, disk: Disk, undeletable: set<Path>)
    ensures forall i :: 0 <= i < |rows| && rows[i].state.Expired? && Stuck(rows[i], disk, undeletable)
              ==> rows[i].evidenceRef in Failures(rows, disk, undeletable)
    decreases |rows|
  {
    if rows != [] {
      var n := |rows| - 1;
      FailuresAreStuckRows(rows[..n], disk, undeletable);
      forall i | 0 <= i < |rows| && rows[i].state.Expired? && Stuck(rows[i], disk, undeletable)
        ensures rows[i].evidenceRef in Failures(rows, disk, undeletable)
      {
        if i < n {
          assert rows[..n][i] == rows[i];
        }
      }
    }
  }

  lemma {:induction false} ErasedCounts(rows: seq<Row>, disk: Disk, undeletable: set<Path>, t: Tombstone)
    ensures CountExpired(SweptRows(rows, disk, undeletable, t)) == |Failures(rows, disk, undeletable)|
    decreases |rows|
  {
    if rows != [] {
      var n := |rows| - 1;
      ErasedCounts(rows[..n], disk, undeletable, t);
      assert SweptRows(rows, disk, undeletable, t)[..n] == SweptRows(rows[..n], disk, undeletable, t);
    }
  }

  /** The evidence half of an erasing sweep, on the rows. */
  lemma EvidenceHalf(o: Office, policy: Policy, now: int, undeletable: set<Path>)
    ensures
      var o1 := ExpiredOffice(o, now);
      var o2 := ErasedOffice(o1, policy, now, undeletable);
      var failures := Failures(o1.rows, o1.disk, undeletable);
      && |o2.rows| == |o.rows| && o2.incidents == o.incidents
      && (forall i :: 0 <= i < |o.rows| ==> Handled(o.rows[i], o2.rows[i], o.disk, undeletable, policy, now, failures))
      && |ExpiryTrail(o.rows, now)| + CountExpired(o.rows) == CountExpired(o1.rows)
      && CountExpired(o2.rows) == |failures|
  {
    var o1 := ExpiredOffice(o, now);
    MarkingCounts(o.rows, now);
    FailuresAreStuckRows(o1.rows, o1.disk, undeletable);
    ErasedCounts(o1.rows, o1.disk, undeletable, TombstoneOf(policy, now));
  }

  /**
    What an erasing sweep owes one row. RETAINED past its expiry or EXPIRED, it becomes a
    tombstone that names the policy, without file or size, unless its file is there and
    cannot be removed: then it is EXPIRED and its handle is reported. Else it is untouched.
  */
  ghost predicate Handled(before: Row, after: Row, disk: Disk, undeletable: set<Path>, policy: Policy, now: int,
                          failures: seq<string>)
  {
    if !IsConcerned(before, now) then after == before
    else if Immovable(before, disk, undeletable) then
      after == before.(state := Expired) && before.evidenceRef in failures
    else
      var reason := "retention: " + Decimal(policy.evidenceDays) + " days";
      after == before.(state := Deleted, storage := None, sizeBytes := 0,
                       tombstone := Some(Tombstone(now, "retention", reason)))
  }

  /** Expired, or RETAINED past its expiry. */
  predicate IsConcerned(row: Row, now: int) {
    match row.state
    case Deleted => false
    case Expired => true
    case Retained => row.expiresAt.Some? && row.expiresAt.value <= now
  }

  /**
    An erasing sweep on the evidence. Every row gets what it is owed, and the counts in the
    report are the numbers of rows that changed.
  */
  lemma ErasingSweepErases(o: Office, policy: Policy, now: int, undeletable: set<Path>)
    ensures
      var (o', r) := Swept(o, policy, true, now, undeletable);
      && |o'.rows| == |o.rows|
      && (forall i :: 0 <= i < |o.rows| ==>
            Handled(o.rows[i], o'.rows[i], o.disk, undeletable, policy, now, r.eraseFailures))
      && r.evidenceExpired + CountExpired(o.rows) == r.evidenceErased + |r.eraseFailures|
      && CountExpired(o'.rows) == |r.eraseFailures| && !r.dryRun
  {
    EvidenceHalf(o, policy, now, undeletable);
  }

  /**
    An erasing sweep on incidents: one is removed exactly when it is resolved and aged, so
    never an unresolved one, and the report counts the removed.
  */
  lemma ErasingSweepPrunesIncidents(o: Office, policy: Policy, now: int, undeletable: set<Path>)
    ensures
      var (o', r) := Swept(o, policy, true, now, undeletable);
      && (forall i :: i in o'.incidents <==>
            i in o.incidents
            && !(i.status == Incidents.Resolved && i.resolvedAt.Some?
                 && i.resolvedAt.value <= now - 86_400 * policy.incidentDays))
      && (forall i :: i in o.incidents && i.status != Incidents.Resolved ==> i in o'.incidents)
      && r.incidentsPruned == |o.incidents| - |o'.incidents| >= 0
  {
    var o2 := ErasedOffice(ExpiredOffice(o, now), policy, now, undeletable);
    KeptShrinks(o2.incidents, IncidentCutoff(policy, now));
  }

  /** Everything the sweep itself wrote to the audit trail: one row per expiry, one per erasure attempt. */
  function OwnTrail(o: Office, now: int, undeletable: set<Path>): seq<AuditEvent> {
    ExpiryTrail(o.rows, now) + EraseTrail(Marked(o.rows, None, now), o.disk, undeletable, now)
  }

  /** An erasing sweep on the audit trail: rows go by age alone, and the report counts them. */
  lemma ErasingSweepPrunesAudit(o: Office, policy: Policy, now: int, undeletable: set<Path>)
    ensures
      var (o', r) := Swept(o, policy, true, now, undeletable);
      && (forall e :: e in o'.audit <==>
            (e in o.audit || e in OwnTrail(o, now, undeletable)) && e.occurredAt > now - 86_400 * policy.auditDays)
      && r.auditPruned == |o.audit| + |OwnTrail(o, now, undeletable)| - |o'.audit| >= 0
  {
    var o2 := ErasedOffice(ExpiredOffice(o, now), policy, now, undeletable);
    assert o2.audit == o.audit + OwnTrail(o, now, undeletable);
    KeptAuditShrinks(o2.audit, AuditCutoff(policy, now));
  }

  /** What the sweep writes: one row for each expiry, one for each attempt to erase, and whether that succeeded. */
  lemma OwnTrailSays(o: Office, now: int, undeletable: set<Path>)
    ensures forall e :: e in OwnTrail(o, now, undeletable) <==>
              || IsExpiryOf(e, o.rows, now)
              || IsErasureOf(e, Marked(o.rows, None, now), o.disk, undeletable, now)
  {
    ExpiryTrailSays(o.rows, now);
    EraseTrailSays(Marked(o.rows, None, now), o.disk, undeletable, now);
  }

  /** With a positive audit period a sweep never prunes its own trail. */
  lemma OwnTrailSurvives(o: Office, policy: Policy, now: int, undeletable: set<Path>)
    requires policy.auditDays > 0
    ensures forall e :: e in OwnTrail(o, now, undeletable) ==> e in Swept(o, policy, true, now, undeletable).0.audit
  {
    ErasingSweepPrunesAudit(o, policy, now, undeletable);
    ExpiryTrailIsNow(o.rows, now);
    EraseTrailIsNow(Marked(o.rows, None, now), o.disk, undeletable, now);
  }

  lemma {:induction false} EraseTrailIsNow(rows: seq<Row>, disk: Disk, undeletable: set<Path>, now: int)
    ensures forall e :: e in EraseTrail(rows, disk, undeletable, now) ==> e.occurredAt == now
    decreases |rows|
  {
    if rows != [] {
      EraseTrailIsNow(rows[..|rows| - 1], disk, undeletable, now);
    }
  }

  lemma {:induction false} ExpiryTrailIsNow(rows: seq<Row>, now: int)
    ensures forall e :: e in ExpiryTrail(rows, now) ==> e.occurredAt == now
    decreases |rows|
  {
    if rows != [] {
      ExpiryTrailIsNow(rows[..|rows| - 1], now);
    }
  }

  /** After an erasing sweep no file is left that only tombstones and removable expired rows could have owned. */
  lemma SweepUnlinks(o: Office, policy: Policy, now: int, undeletable: set<Path>, path: Path)
    ensures
      var o' := Swept(o, policy, true, now, undeletable).0;
      && (path in o'.disk <==>
            && path in o.disk
            && (path in undeletable
                || forall i :: 0 <= i < |o.rows| && IsConcerned(o.rows[i], now) ==> o.rows[i].storage != Some(path)))
      && (path in o'.disk && path in o.disk ==> o'.disk[path] == o.disk[path])
  {
    var rows := Marked(o.rows, None, now);
    assert forall i :: 0 <= i < |rows| ==>
             rows[i].storage == o.rows[i].storage
             && (rows[i].state.Expired? <==> IsConcerned(o.rows[i], now));
  }

  /**
    A sweep is two events of the evidence lifecycle, so everything proved over runs of that
    lifecycle covers sweeps.
  */
  lemma SweepIsExpireThenErase(o: Office, policy: Policy, now: int, undeletable: set<Path>, hash: Bytes -> Digest)
    ensures
      var o' := Swept(o, policy, true, now, undeletable).0;
      var marked := Happen(Vault(o.rows, o.disk), hash, Expire(None, now));
      Vault(o'.rows, o'.disk) == Happen(marked, hash, EraseExpired(TombstoneOf(policy, now), undeletable))
  {
  }

  lemma {:induction false} NothingDueNothingMarked(rows: seq<Row>, now: int)
    requires forall i :: 0 <= i < |rows| ==> !rows[i].Due(now)
    ensures ExpiryTrail(rows, now) == [] && Marked(rows, None, now) == rows
    decreases |rows|
  {
    if rows != [] {
      var n := |rows| - 1;
      NothingDueNothingMarked(rows[..n], now);
    }
  }

  lemma {:induction false} NothingExpiredNothingErased(rows: seq<Row>, disk: Disk, undeletable: set<Path>, now: int)
    requires forall i :: 0 <= i < |rows| ==> !rows[i].state.Expired?
    ensures EraseTrail(rows, disk, undeletable, now) == []
    ensures Failures(rows, disk, undeletable) == [] && CountExpired(rows) == 0
    decreases |rows|
  {
    if rows != [] {
      var n := |rows| - 1;
      NothingExpiredNothingErased(rows[..n], disk, undeletable, now);
    }
  }

  lemma {:induction false} NoExpiredRowsWhenNoneCounted(rows: seq<Row>)
    requires CountExpired(rows) == 0
    ensures forall i :: 0 <= i < |rows| ==> !rows[i].state.Expired?
    decreases |rows|
  {
    if rows != [] {
      var n := |rows| - 1;
      NoExpiredRowsWhenNoneCounted(rows[..n]);
      assert forall i :: 0 <= i < n ==> rows[..n][i] == rows[i];
    }
  }

  /** An office with nothing due, nothing expired and nothing aged. */
  ghost predicate Settled(o: Office, policy: Policy, now: int) {
    && (forall i :: 0 <= i < |o.rows| ==> !o.rows[i].Due(now) && !o.rows[i].state.Expired?)
    && (forall i :: i in o.incidents ==> !IncidentAged(i, IncidentCutoff(policy, now)))
    && (forall e :: e in o.audit ==> e.occurredAt > AuditCutoff(policy, now))
  }

  lemma SettledMarks(o: Office, now: int)
    requires forall i :: 0 <= i < |o.rows| ==> !o.rows[i].Due(now)
    ensures ExpiredOffice(o, now) == o && ExpiryTrail(o.rows, now) == []
  {
    NothingDueNothingMarked(o.rows, now);
    assert o.audit + [] == o.audit;
  }

  lemma SettledErases(o: Office, policy: Policy, now: int, undeletable: set<Path>)
    requires forall i :: 0 <= i < |o.rows| ==> !o.rows[i].state.Expired?
    ensures ErasedOffice(o, policy, now, undeletable) == o
    ensures Failures(o.rows, o.disk, undeletable) == [] && CountExpired(o.rows) == 0
  {
    NothingExpiredNothingErased(o.rows, o.disk, undeletable, now);
    assert o.audit + [] == o.audit;
    assert SweptRows(o.rows, o.disk, undeletable, TombstoneOf(policy, now)) == o.rows;
    assert SweptDisk(o.rows, o.disk, undeletable) == o.disk;
  }

  lemma SettledPrunes(o: Office, policy: Policy, now: int)
    requires Settled(o, policy, now)
    ensures PrunedOffice(o, policy, now) == o
  {
    KeptShrinks(o.incidents, IncidentCutoff(policy, now));
    KeptAuditShrinks(o.audit, AuditCutoff(policy, now));
  }

  lemma FixedPoint(o: Office, policy: Policy, erase: bool, now: int, undeletable: set<Path>)
    requires ExpiredOffice(o, now) == o && ExpiryTrail(o.rows, now) == []
    requires ErasedOffice(o, policy, now, undeletable) == o
    requires Failures(o.rows, o.disk, undeletable) == [] && CountExpired(o.rows) == 0
    requires PrunedOffice(o, policy, now) == o
    ensures Swept(o, policy, erase, now, undeletable) == (o, Report(0, 0, 0, 0, [], !erase))
  {
    var expired, failures := |ExpiryTrail(o.rows, now)|, Failures(o.rows, o.disk, undeletable);
    assert expired == 0 && |failures| == 0;
    var (o', r) := Swept(o, policy, erase, now, undeletable);
    assert o' == o;
    assert r == Report(0, 0, 0, 0, [], !erase);
  }

  /** A settled office is a fixed point of the sweep, and the sweep says so. */
  lemma SettledStays(o: Office, policy: Policy, erase: bool, now: int, undeletable: set<Path>)
    requires Settled(o, policy, now)
    ensures Swept(o, policy, erase, now, undeletable) == (o, Report(0, 0, 0, 0, [], !erase))
  {
    SettledMarks(o, now);
    SettledErases(o, policy, now, undeletable);
    SettledPrunes(o, policy, now);
    FixedPoint(o, policy, erase, now, undeletable);
  }

  /**
    The sweep is idempotent: after an erasing sweep without failures, any sweep at that
    instant reports zero and changes nothing.
  */
  lemma SecondSweepFindsNothing(o: Office, policy: Policy, now: int, undeletable: set<Path>, erase: bool,
                                undeletable': set<Path>)
    requires Swept(o, policy, true, now, undeletable).1.eraseFailures == []
    ensures
      var o' := Swept(o, policy, true, now, undeletable).0;
      Swept(o', policy, erase, now, undeletable') == (o', Report(0, 0, 0, 0, [], !erase))
  {
    ErasingSweepErases(o, policy, now, undeletable);
    ErasingSweepPrunesIncidents(o, policy, now, undeletable);
    ErasingSweepPrunesAudit(o, policy, now, undeletable);
    var o' := Swept(o, policy, true, now, undeletable).0;
    NoExpiredRowsWhenNoneCounted(o'.rows);
    assert Settled(o', policy, now);
    SettledStays(o', policy, erase, now, undeletable');
  }

  /* ------------------------------------------------------------------- the class */

  class RetentionService {
    const policy: Policy
    var rows: seq<Row>
    var disk: Disk
    var incidents: seq<Incidents.Incident>
    var audit: seq<AuditEvent>

    ghost function View(): Office
      reads this
    {
      Office(rows, disk, incidents, audit)
    }

    constructor (policy: Policy, o: Office)
      ensures View() == o && this.policy == policy
    {
      this.policy := policy;
      rows, disk, incidents, audit := o.rows, o.disk, o.incidents, o.audit;
    }

    method ExpireEvidence(now: int) returns (count: nat)
      modifies this`rows, this`audit
      ensures rows == Marked(old(rows), None, now)
      ensures audit == old(audit) + ExpiryTrail(old(rows), now)
      ensures count == |ExpiryTrail(old(rows), now)|
    {
      count := 0;
      ghost var before := rows;
      for i := 0 to |rows|
        invariant |rows| == |before|
        invariant forall k :: 0 <= k < i ==> rows[k] == MarkRow(before[k], now)
        invariant forall k :: i <= k < |rows| ==> rows[k] == before[k]
        invariant audit == old(audit) + ExpiryTrail(before[..i], now)
        invariant count == |ExpiryTrail(before[..i], now)|
      {
        assert before[..i + 1][..i] == before[..i];
        var row := rows[i];
        if row.Due(now) {
          rows := rows[i := row.(state := Expired)];
          count := count + 1;
          audit := audit + [ExpiryEvent(row, now)];
        }
      }
      assert before[..|before|] == before;
    }

    /** The body of the loop in `_erase_expired`, for an expired row. */
    method EraseRow(i: nat, now: int, undeletable: set<Path>) returns (failed: bool)
      requires i < |rows| && rows[i].state.Expired?
      modifies this`rows, this`disk, this`audit
      ensures failed == Stuck(old(rows)[i], old(disk), undeletable)
      ensures rows == old(rows)[i := if failed then old(rows)[i] else Erased(old(rows)[i], TombstoneOf(policy, now))]
      ensures disk == if failed || old(rows)[i].storage.None? then old(disk)
                      else old(disk) - {old(rows)[i].storage.value}
      ensures audit == old(audit) + [EraseEvent(old(rows)[i], !failed, now)]
    {
      var row := rows[i];
      failed := false;
      if row.storage.Some? && row.storage.value in disk {
        if row.storage.value in undeletable {
          audit := audit + [EraseEvent(row, false, now)];
          return true;
        }
        disk := disk - {row.storage.value};
      }
      assert row.storage.Some? ==> disk == old(disk) - {row.storage.value};
      rows := rows[i := Erased(row, TombstoneOf(policy, now))];
      audit := audit + [EraseEvent(row, true, now)];
    }

    /** `_erase_expired`: row by row, unlinking as it goes. */
    method EraseExpiredRows(now: int, undeletable: set<Path>) returns (erased: nat, failures: seq<string>)
      modifies this`rows, this`disk, this`audit
      ensures View() == ErasedOffice(old(View()), policy, now, undeletable)
      ensures failures == Failures(old(rows), old(disk), undeletable)
      ensures erased + |failures| == CountExpired(old(rows))
    {
      erased, failures := 0, [];
      ghost var before, disk0, trail := rows, disk, [];
      ghost var t := TombstoneOf(policy, now);
      for i := 0 to |rows|
        invariant |rows| == |before|
        invariant audit == old(audit) + trail
        invariant Progress(before, disk0, undeletable, t, now, i, rows, disk, trail, failures, erased)
      {
        if rows[i].state.Expired? {
          ProgressOn(before, disk0, undeletable, t, now, i, rows, disk, trail, failures, erased);
          var ref := rows[i].evidenceRef;
          trail := trail + [EraseEvent(rows[i], !Stuck(rows[i], disk, undeletable), now)];
          var failed := EraseRow(i, now, undeletable);
          assert audit == old(audit) + trail;
          if failed {
            failures := failures + [ref];
          } else {
            erased := erased + 1;
          }
        } else {
          ProgressOver(before, disk0, undeletable, t, now, i, rows, disk, trail, failures, erased);
        }
      }
      ProgressDone(before, disk0, undeletable, t, now, rows, disk, trail, failures, erased);
      assert View() == ErasedOffice(Office(before, disk0, incidents, old(audit)), policy, now, undeletable);
    }

    method Sweep(erase: bool, now: int, undeletable: set<Path>) returns (report: Report)
      modifies this
      ensures (View(), report) == Swept(old(View()), policy, erase, now, undeletable)
    {
      var expired := ExpireEvidence(now);
      assert View() == ExpiredOffice(old(View()), now);
      if !erase {
        return Report(expired, 0, 0, 0, [], true);
      }
      var erased, failures := EraseExpiredRows(now, undeletable);
      var keptIncidents := KeptIncidents(incidents, IncidentCutoff(policy, now));
      var keptAudit := KeptAudit(audit, AuditCutoff(policy, now));
      report := Report(expired, erased, |incidents| - |keptIncidents|, |audit| - |keptAudit|, failures, false);
      incidents, audit := keptIncidents, keptAudit;
    }
  }

  /** The first `i` rows are done: what the loop of `_erase_expired` has built so far. */
  ghost predicate Progress(before: seq<Row>, disk0: Disk, undeletable: set<Path>, t: Tombstone, now: int, i: nat,
                           rows: seq<Row>, disk: Disk, trail: seq<AuditEvent>, failures: seq<string>, erased: nat)
  {
    && i <= |before| == |rows|
    && (forall k :: 0 <= k < i ==> rows[k] == SweepRow(before[k], disk0, undeletable, t))
    && (forall k :: i <= k < |rows| ==> rows[k] == before[k])
    && disk == SweptDisk(before[..i], disk0, undeletable)
    && trail == EraseTrail(before[..i], disk0, undeletable, now)
    && failures == Failures(before[..i], disk0, undeletable)
    && erased + |failures| == CountExpired(before[..i])
  }

  lemma ProgressOn(before: seq<Row>, disk0: Disk, undeletable: set<Path>, t: Tombstone, now: int, i: nat,
                   rows: seq<Row>, disk: Disk, trail: seq<AuditEvent>, failures: seq<string>, erased: nat)
    requires Progress(before, disk0, undeletable, t, now, i, rows, disk, trail, failures, erased)
    requires i < |rows| && rows[i].state.Expired?
    ensures
      var row, stuck := rows[i], Stuck(rows[i], disk, undeletable);
      Progress(before, disk0, undeletable, t, now, i + 1,
               rows[i := if stuck then row else Erased(row, t)],
               if stuck || row.storage.None? then disk else disk - {row.storage.value},
               trail + [EraseEvent(row, !stuck, now)],
               if stuck then failures + [row.evidenceRef] else failures,
               if stuck then erased else erased + 1)
  {
    SweepOneMore(before, disk0, undeletable, now, i);
    DiskAfterOneMore(before, disk0, undeletable, i);
    var row := rows[i];
    assert Stuck(row, disk, undeletable) == Stuck(row, disk0, undeletable);
    if row.storage.Some? && row.storage.value in undeletable && row.storage.value !in disk {
      assert disk - {row.storage.value} == disk;
    }
  }

  lemma ProgressOver(before: seq<Row>, disk0: Disk, undeletable: set<Path>, t: Tombstone, now: int, i: nat,
                     rows: seq<Row>, disk: Disk, trail: seq<AuditEvent>, failures: seq<string>, erased: nat)
    requires Progress(before, disk0, undeletable, t, now, i, rows, disk, trail, failures, erased)
    requires i < |rows| && !rows[i].state.Expired?
    ensures Progress(before, disk0, undeletable, t, now, i + 1, rows, disk, trail, failures, erased)
  {
    SweepOneMore(before, disk0, undeletable, now, i);
    DiskAfterOneMore(before, disk0, undeletable, i);
  }

  lemma ProgressDone(before: seq<Row>, disk0: Disk, undeletable: set<Path>, t: Tombstone, now: int,
                     rows: seq<Row>, disk: Disk, trail: seq<AuditEvent>, failures: seq<string>, erased: nat)
    requires Progress(before, disk0, undeletable, t, now, |before|, rows, disk, trail, failures, erased)
    ensures rows == SweptRows(before, disk0, undeletable, t) && disk == SweptDisk(before, disk0, undeletable)
    ensures trail == EraseTrail(before, disk0, undeletable, now) && failures == Failures(before, disk0, undeletable)
    ensures erased + |failures| == CountExpired(before)
  {
    assert before[..|before|] == before;
  }

  lemma SweepOneMore(rows: seq<Row>, disk: Disk, undeletable: set<Path>, now: int, i: nat)
    requires i < |rows|
    ensures
      var row, stuck := rows[i], Stuck(rows[i], disk, undeletable);
      && EraseTrail(rows[..i + 1], disk, undeletable, now)
           == EraseTrail(rows[..i], disk, undeletable, now)
              + (if row.state.Expired? then [EraseEvent(row, !stuck, now)] else [])
      && Failures(rows[..i + 1], disk, undeletable)
           == Failures(rows[..i], disk, undeletable) + (if row.state.Expired? && stuck then [row.evidenceRef] else [])
      && CountExpired(rows[..i + 1]) == CountExpired(rows[..i]) + (if row.state.Expired? then 1 else 0)
  {
    assert rows[..i + 1][..i] == rows[..i];
  }

  lemma DiskAfterOneMore(rows: seq<Row>, disk: Disk, undeletable: set<Path>, i: nat)
    requires i < |rows|
    ensures
      var before, after := SweptDisk(rows[..i], disk, undeletable), SweptDisk(rows[..i + 1], disk, undeletable);
      var row := rows[i];
      && (row.storage.Some? && row.storage.value in undeletable ==>
            (row.storage.value in before <==> row.storage.value in disk))
      && after == if row.state.Expired? && row.storage.Some? && row.storage.value !in undeletable
                  then before - {row.storage.value} else before
  {
    var head, more := rows[..i], rows[..i + 1];
    assert more == head + [rows[i]];
    forall path
      ensures Unlinked(more, undeletable, path) <==>
                || Unlinked(head, undeletable, path)
                || (path !in undeletable && rows[i].state.Expired? && rows[i].storage == Some(path))
    {
      if Unlinked(head, undeletable, path) {
        var k :| 0 <= k < |head| && head[k].state.Expired? && head[k].storage == Some(path);
        assert more[k] == head[k];
      }
      if path !in undeletable && rows[i].state.Expired? && rows[i].storage == Some(path) {
        assert more[i] == rows[i];
      }
    }
  }
}
