/**
  The incident queue (app/domain/incidents.py) and the driver that moves it from findings
  (app/vision/compliance_driver.py). The table is a sequence of rows seen by one writer;
  row ids are fresh.
*/
module Incidents {
  import opened Basics
  import opened EvidenceRefs
  import opened Findings

  datatype Status = Active | Acknowledged | Resolved

  datatype Incident = Incident(
    id: nat,
    key: Key,
    status: Status,
    observedAt: int,
    severity: string,
    rulesetVersion: string,
    snapshot: Finding,
    evidenceRefs: string,
    acknowledgedAt: Option<int>,
    acknowledgedBy: Option<string>,
    resolvedAt: Option<int>,
    resolvedBy: Option<string>,
    resolutionKind: Option<string>,
    resolutionNote: Option<string>)

  datatype Key = Key(organizationId: string, cameraKey: string, objectId: string, ruleId: string)

  datatype Store = Store(rows: seq<Incident>, nextId: nat)

  const EMPTY_STORE := Store([], 0)

  const OBSERVED_NOTE := "a later observation showed the rule satisfied"

  predicate OpenOn(row: Incident, key: Key) {
    row.key == key && !row.status.Resolved?
  }

  /** `_open_for`. */
  function FirstOpen(rows: seq<Incident>, key: Key): (r: Option<nat>)
    ensures r.Some? ==> r.value < |rows| && OpenOn(rows[r.value], key)
    ensures r.Some? ==> forall i :: 0 <= i < r.value ==> !OpenOn(rows[i], key)
    ensures r.None? ==> forall i :: 0 <= i < |rows| ==> !OpenOn(rows[i], key)
  {
    if rows == [] then None
    else
      var n := |rows| - 1;
      var earlier := FirstOpen(rows[..n], key);
      if earlier.Some? then earlier else if OpenOn(rows[n], key) then Some(n) else None
  }

  /** `get`: the tenant's row with this id. */
  function Find(rows: seq<Incident>, organizationId: string, id: nat): (r: Option<nat>)
    ensures r.Some? ==> r.value < |rows| && rows[r.value].id == id && rows[r.value].key.organizationId == organizationId
    ensures r.None? ==>
              forall i :: 0 <= i < |rows| ==> !(rows[i].id == id && rows[i].key.organizationId == organizationId)
  {
    if rows == [] then None
    else
      var n := |rows| - 1;
      if rows[n].id == id && rows[n].key.organizationId == organizationId then Some(n)
      else Find(rows[..n], organizationId, id)
  }

  /* ------------------------------------------------------------------- service */

  function Later(a: int, b: int): int {
    if a >= b then a else b
  }

  function NewRow(id: nat, key: Key, f: Finding, observedAt: int, refs: seq<string>): Incident {
    Incident(id, key, Active, observedAt, f.severity, f.rulesetVersion, f, Join(refs),
             None, None, None, None, None, None)
  }

  /** `open` on a row that is still open: the clock moves forward and new handles are merged. */
  function Repeated(row: Incident, observedAt: int, refs: seq<string>): Incident {
    row.(observedAt := Later(row.observedAt, observedAt),
         evidenceRefs := if refs == [] then row.evidenceRefs else MergedColumn(row.evidenceRefs, refs))
  }

  /** `open`. */
  function Opened(st: Store, key: Key, f: Finding, observedAt: int, refs: seq<string>): Store {
    match FirstOpen(st.rows, key)
    case Some(i) => st.(rows := st.rows[i := Repeated(st.rows[i], observedAt, refs)])
    case None => Store(st.rows + [NewRow(st.nextId, key, f, observedAt, refs)], st.nextId + 1)
  }

  function Closed(row: Incident, actor: string, kind: string, note: string, at: int): Incident {
    if row.status.Resolved? then row
    else row.(status := Resolved, resolvedAt := Some(at), resolvedBy := Some(actor), resolutionKind := Some(kind),
              resolutionNote := if note == "" then None else Some(Clip(note, 2000)))
  }

  function Clip(s: string, n: nat): string {
    if |s| <= n then s else s[..n]
  }

  function ObservedClosed(st: Store, key: Key, at: int): Store {
    match FirstOpen(st.rows, key)
    case Some(i) =>
      st.(rows := st.rows[i := Closed(st.rows[i], "vision-os", "observation", OBSERVED_NOTE, at)])
    case None => st
  }

  /** The characters `str.strip` removes. */
  predicate IsSpace(c: char) {
    var n := c as int;
    || 0x9 <= n <= 0xd || 0x1c <= n <= 0x20 || n == 0x85 || n == 0xa0 || n == 0x1680 || 0x2000 <= n <= 0x200a
    || n == 0x2028 || n == 0x2029 || n == 0x202f || n == 0x205f || n == 0x3000
  }

  /** Tab to carriage return, the four separators, space, next line, and the Unicode spaces. */
  lemma SpacesAreThese(c: char)
    ensures IsSpace(c) <==> c in "\U{9}\U{A}\U{B}\U{C}\U{D}\U{1C}\U{1D}\U{1E}\U{1F}\U{20}\U{85}\U{A0}\U{1680}"
                                 + "\U{2000}\U{2001}\U{2002}\U{2003}\U{2004}\U{2005}\U{2006}\U{2007}\U{2008}\U{2009}"
                                 + "\U{200A}\U{2028}\U{2029}\U{202F}\U{205F}\U{3000}"
  {
  }

  predicate Blank(note: string) {
    forall i :: 0 <= i < |note| ==> IsSpace(note[i])
  }

  /** What `resolve` accepts before it looks at any row. */
  predicate Acceptable(kind: string, note: string) {
    (kind == "observation" || kind == "operator") && !(kind == "operator" && Blank(note))
  }

  /* -------------------------------------------------------------------- driver */

  predicate Raises(severity: string) {
    severity == "low" || severity == "medium" || severity == "high" || severity == "critical"
  }

  function KeyOf(organizationId: string, f: Finding): Key {
    Key(organizationId, f.subject.cameraId, f.subject.objectId, f.ruleId)
  }

  /** `_observed_at`: the finding's own instant, or the clock when it has none. */
  function ObservedAt(f: Finding, clock: int): int {
    if f.evaluatedAtNs > 0 then f.evaluatedAtNs else clock
  }

  /**
    How applying a finding went: it ran to the end, having captured a handle or the empty
    one; the table could not be reached; or the capture raised after the row was created.
  */
  datatype Course = Ran(captured: string) | TableRaised | CaptureRaised

  /** What happens to the table: a finding is applied, or an operator acts. */
  datatype Event =
    | Observed(organizationId: string, finding: Finding, clock: int, course: Course)
    | Acknowledges(organizationId: string, id: nat, actor: string, at: int)
    | Resolves(organizationId: string, id: nat, actor: string, kind: string, note: string, at: int)

  /** A finding the driver acts on at all. */
  predicate Decisive(f: Finding) {
    Raises(f.severity) && (f.state.Violation? || f.state.Compliant?)
  }

  /** An event in which the driver gets to act on a finding. */
  predicate Speaks(e: Event) {
    e.Observed? && Decisive(e.finding) && !e.course.TableRaised?
  }

  /** The driver's `open`, which passes no handles, and the handle it stores on a row it has just created. */
  function OpenedByDriver(st: Store, key: Key, f: Finding, observedAt: int, course: Course): Store {
    var st' := Opened(st, key, f, observedAt, []);
    if FirstOpen(st.rows, key).None? && course.Ran? && course.captured != "" then
      st'.(rows := st'.rows[|st.rows| := st'.rows[|st.rows|].(evidenceRefs := course.captured)])
    else st'
  }

  function Applied(st: Store, organizationId: string, f: Finding, clock: int, course: Course): Store {
    if !Decisive(f) || course.TableRaised? then st
    else if f.state.Violation? then OpenedByDriver(st, KeyOf(organizationId, f), f, ObservedAt(f, clock), course)
    else ObservedClosed(st, KeyOf(organizationId, f), clock)
  }

  function Happen(st: Store, e: Event): Store {
    match e
    case Observed(organizationId, f, clock, course) => Applied(st, organizationId, f, clock, course)
    case Acknowledges(organizationId, id, actor, at) =>
      (match Find(st.rows, organizationId, id)
       case Some(i) =>
         if st.rows[i].status.Active?
         then st.(rows := st.rows[i := st.rows[i].(status := Acknowledged, acknowledgedAt := Some(at),
                                                   acknowledgedBy := Some(actor))])
         else st
       case None => st)
    case Resolves(organizationId, id, actor, kind, note, at) =>
      if !Acceptable(kind, note) then st
      else match Find(st.rows, organizationId, id)
        case Some(i) => st.(rows := st.rows[i := Closed(st.rows[i], actor, kind, note, at)])
        case None => st
  }

  /** A run, oldest event first. */
  function Run(st: Store, events: seq<Event>): Store {
    if events == [] then st else Happen(Run(st, events[..|events| - 1]), events[|events| - 1])
  }

  /* ------------------------------------------------------------ one open per key */

  ghost predicate HasOpen(st: Store, key: Key) {
    exists i :: 0 <= i < |st.rows| && OpenOn(st.rows[i], key)
  }

  ghost predicate OneOpenPerKey(st: Store) {
    forall i, j :: 0 <= i < j < |st.rows| && !st.rows[i].status.Resolved? && !st.rows[j].status.Resolved?
      ==> st.rows[i].key != st.rows[j].key
  }

  ghost predicate FreshIds(st: Store) {
    && (forall i :: 0 <= i < |st.rows| ==> st.rows[i].id < st.nextId)
    && (forall i, j :: 0 <= i < j < |st.rows| ==> st.rows[i].id != st.rows[j].id)
  }

  ghost predicate Consistent(st: Store) {
    OneOpenPerKey(st) && FreshIds(st)
  }

  lemma UpdateKeepsConsistent(st: Store, i: nat, row: Incident)
    requires Consistent(st) && i < |st.rows|
    requires row.id == st.rows[i].id && row.key == st.rows[i].key
    requires st.rows[i].status.Resolved? ==> row.status.Resolved?
    ensures Consistent(st.(rows := st.rows[i := row]))
  {
  }

  lemma OpenedKeepsConsistent(st: Store, key: Key, f: Finding, observedAt: int, refs: seq<string>)
    requires Consistent(st)
    ensures Consistent(Opened(st, key, f, observedAt, refs))
  {
    var at := FirstOpen(st.rows, key);
    if at.Some? {
      UpdateKeepsConsistent(st, at.value, Repeated(st.rows[at.value], observedAt, refs));
    }
  }

  lemma DriverKeepsConsistent(st: Store, key: Key, f: Finding, observedAt: int, course: Course)
    requires Consistent(st)
    ensures Consistent(OpenedByDriver(st, key, f, observedAt, course))
  {
    var st' := Opened(st, key, f, observedAt, []);
    OpenedKeepsConsistent(st, key, f, observedAt, []);
    if FirstOpen(st.rows, key).None? && course.Ran? {
      var n := |st.rows|;
      UpdateKeepsConsistent(st', n, st'.rows[n].(evidenceRefs := course.captured));
    }
  }

  lemma ObservedKeepsConsistent(st: Store, organizationId: string, f: Finding, clock: int, course: Course)
    requires Consistent(st)
    ensures Consistent(Applied(st, organizationId, f, clock, course))
  {
    var key := KeyOf(organizationId, f);
    DriverKeepsConsistent(st, key, f, ObservedAt(f, clock), course);
    var at := FirstOpen(st.rows, key);
    if at.Some? {
      UpdateKeepsConsistent(st, at.value, ObservedClosed(st, key, clock).rows[at.value]);
    }
  }

  lemma HappenKeepsConsistent(st: Store, e: Event)
    requires Consistent(st)
    ensures Consistent(Happen(st, e))
  {
    match e
    case Observed(organizationId, f, clock, course) => ObservedKeepsConsistent(st, organizationId, f, clock, course);
    case Acknowledges(organizationId, id, _, _) =>
      var at := Find(st.rows, organizationId, id);
      if at.Some? {
        UpdateKeepsConsistent(st, at.value, Happen(st, e).rows[at.value]);
      }
    case Resolves(organizationId, id, _, _, _, _) =>
      var at := Find(st.rows, organizationId, id);
      if at.Some? {
        UpdateKeepsConsistent(st, at.value, Happen(st, e).rows[at.value]);
      }
  }

  lemma {:induction false} RunKeepsConsistent(st: Store, events: seq<Event>)
    requires Consistent(st)
    ensures Consistent(Run(st, events))
    decreases |events|
  {
    if events != [] {
      RunKeepsConsistent(st, events[..|events| - 1]);
      HappenKeepsConsistent(Run(st, events[..|events| - 1]), events[|events| - 1]);
    }
  }

  /* -------------------------------------------------- the queue, read off the events */

  /** A finding that is to move the queue: severe enough, and decided. */
  predicate Decided(f: Finding) {
    f.severity in {"low", "medium", "high", "critical"} && f.state in {Violation, Compliant}
  }

  /** A decided finding that reaches the table. */
  predicate Heard(e: Event) {
    e.Observed? && Decided(e.finding) && e.course != TableRaised
  }

  /** The event is about this organization, camera, object and rule. */
  predicate IsAbout(e: Event, key: Key) {
    && e.Observed? && e.organizationId == key.organizationId && e.finding.subject.cameraId == key.cameraKey
    && e.finding.subject.objectId == key.objectId && e.finding.ruleId == key.ruleId
  }

  lemma DecidedIsDecisive()
    ensures forall f :: Decided(f) <==> Decisive(f)
    ensures forall e :: Heard(e) <==> Speaks(e)
    ensures forall e: Event, key: Key :: e.Observed? ==>
              (IsAbout(e, key) <==> KeyOf(e.organizationId, e.finding) == key)
  {
  }

  /** The id under which a key is open after one more event, given what it was and the next free id. */
  function Moved(open: Option<nat>, next: nat, e: Event, key: Key): Option<nat> {
    if Heard(e) && IsAbout(e, key) then
      if e.finding.state.Compliant? then None else if open.Some? then open else Some(next)
    else if e.Resolves? && Acceptable(e.kind, e.note) && e.organizationId == key.organizationId && open == Some(e.id)
    then None
    else open
  }

  /** The last word spoken about a key: a violation opens, a compliant finding or an accepted resolution closes. */
  function LastWord(events: seq<Event>, key: Key): Option<nat>
    decreases |events|, 0
  {
    if events == [] then None
    else
      var earlier, e := events[..|events| - 1], events[|events| - 1];
      Moved(LastWord(earlier, key), Openings(earlier), e, key)
  }

  /** The event is a violation about a key that is not open. */
  predicate IsOpening(events: seq<Event>, e: Event)
    decreases |events|, 1
  {
    && Heard(e) && e.finding.state.Violation?
    && var about := e.finding.subject;
       LastWord(events, Key(e.organizationId, about.cameraId, about.objectId, e.finding.ruleId)).None?
  }

  /** How many incidents the events have opened. */
  function Openings(events: seq<Event>): nat
    decreases |events|, 0
  {
    if events == [] then 0
    else
      var earlier, e := events[..|events| - 1], events[|events| - 1];
      Openings(earlier) + (if IsOpening(earlier, e) then 1 else 0)
  }

  /** The id of the key's open row. */
  function OpenId(rows: seq<Incident>, key: Key): Option<nat> {
    match FirstOpen(rows, key)
    case Some(i) => Some(rows[i].id)
    case None => None
  }

  lemma OpenIsUnique(st: Store, i: nat, key: Key)
    requires Consistent(st) && i < |st.rows| && OpenOn(st.rows[i], key)
    ensures FirstOpen(st.rows, key) == Some(i)
  {
  }

  lemma OthersAreNotOpen(st: Store, i: nat, key: Key)
    requires Consistent(st) && i < |st.rows| && OpenOn(st.rows[i], key)
    ensures forall j :: 0 <= j < |st.rows| && j != i ==> !OpenOn(st.rows[j], key)
  {
  }

  /** A changed row matters only to its own key. */
  lemma OpenIdAfterUpdate(st: Store, i: nat, row: Incident, key: Key)
    requires Consistent(st) && i < |st.rows| && row.key == st.rows[i].key && row.id == st.rows[i].id
    requires st.rows[i].status.Resolved? ==> row.status.Resolved?
    ensures OpenId(st.rows[i := row], key)
         == if OpenOn(st.rows[i], key) && row.status.Resolved? then None else OpenId(st.rows, key)
  {
    var rows, at := st.rows[i := row], FirstOpen(st.rows, key);
    assert forall j :: 0 <= j < |rows| && j != i ==> rows[j] == st.rows[j];
    if OpenOn(st.rows[i], key) {
      OpenIsUnique(st, i, key);
      OthersAreNotOpen(st, i, key);
      var now := FirstOpen(rows, key);
      assert rows[i] == row && (OpenOn(row, key) <==> !row.status.Resolved?);
      if row.status.Resolved? {
        assert now.None?;
      } else {
        assert now == Some(i);
      }
    } else {
      assert forall j :: 0 <= j < |rows| ==> (OpenOn(rows[j], key) <==> OpenOn(st.rows[j], key));
      assert FirstOpen(rows, key) == at;
    }
  }

  lemma OpenIdAfterAppend(rows: seq<Incident>, row: Incident, key: Key)
    requires FirstOpen(rows, row.key).None? && !row.status.Resolved?
    ensures OpenId(rows + [row], key) == if row.key == key then Some(row.id) else OpenId(rows, key)
  {
    var all := rows + [row];
    assert all[|rows|] == row && forall j :: 0 <= j < |rows| ==> all[j] == rows[j];
  }

  lemma ViolationMovesOneKey(st: Store, k: Key, f: Finding, observedAt: int, course: Course, key: Key)
    requires Consistent(st)
    ensures
      var st' := OpenedByDriver(st, k, f, observedAt, course);
      && OpenId(st'.rows, key)
           == (if k == key && OpenId(st.rows, key).None? then Some(st.nextId) else OpenId(st.rows, key))
      && st'.nextId == st.nextId + (if OpenId(st.rows, k).None? then 1 else 0)
  {
    var st', at := OpenedByDriver(st, k, f, observedAt, course), FirstOpen(st.rows, k);
    if at.Some? {
      OpenIdAfterUpdate(st, at.value, Repeated(st.rows[at.value], observedAt, []), key);
    } else {
      var row := st'.rows[|st.rows|];
      assert st'.rows == st.rows + [row];
      OpenIdAfterAppend(st.rows, row, key);
    }
  }

  lemma ResolutionMovesOneKey(st: Store, e: Event, key: Key)
    requires Consistent(st) && e.Resolves? && Acceptable(e.kind, e.note)
    ensures OpenId(Happen(st, e).rows, key) == Moved(OpenId(st.rows, key), st.nextId, e, key)
  {
    DecidedIsDecisive();
    var at, open := Find(st.rows, e.organizationId, e.id), FirstOpen(st.rows, key);
    if at.Some? {
      OpenIdAfterUpdate(st, at.value, Closed(st.rows[at.value], e.actor, e.kind, e.note, e.at), key);
      if OpenOn(st.rows[at.value], key) {
        OpenIsUnique(st, at.value, key);
      }
    }
  }

  /** One event, on the table and on the abstract queue. */
  lemma HappenMovesOneKey(st: Store, e: Event, key: Key)
    requires Consistent(st)
    ensures OpenId(Happen(st, e).rows, key) == Moved(OpenId(st.rows, key), st.nextId, e, key)
    ensures Happen(st, e).nextId
         == st.nextId + (if Speaks(e) && e.finding.state.Violation?
                            && OpenId(st.rows, KeyOf(e.organizationId, e.finding)).None? then 1 else 0)
  {
    DecidedIsDecisive();
    match e
    case Observed(organizationId, f, clock, course) =>
      var k := KeyOf(organizationId, f);
      var at := FirstOpen(st.rows, k);
      if Speaks(e) && f.state.Violation? {
        ViolationMovesOneKey(st, k, f, ObservedAt(f, clock), course, key);
      } else if Speaks(e) && at.Some? {
        OpenIdAfterUpdate(st, at.value, ObservedClosed(st, k, clock).rows[at.value], key);
      }
    case Acknowledges(organizationId, id, _, _) =>
      var at := Find(st.rows, organizationId, id);
      if at.Some? && st.rows[at.value].status.Active? {
        OpenIdAfterUpdate(st, at.value, Happen(st, e).rows[at.value], key);
      }
    case Resolves(_, _, _, _, _, _) =>
      if Acceptable(e.kind, e.note) {
        ResolutionMovesOneKey(st, e, key);
      }
  }

  lemma {:induction false} TableFollowsEvents(events: seq<Event>, key: Key)
    ensures OpenId(Run(EMPTY_STORE, events).rows, key) == LastWord(events, key)
    ensures Run(EMPTY_STORE, events).nextId == Openings(events)
    decreases |events|
  {
    DecidedIsDecisive();
    if events != [] {
      var earlier, e := events[..|events| - 1], events[|events| - 1];
      TableFollowsEvents(earlier, key);
      RunKeepsConsistent(EMPTY_STORE, earlier);
      HappenMovesOneKey(Run(EMPTY_STORE, earlier), e, key);
      if e.Observed? {
        TableFollowsEvents(earlier, KeyOf(e.organizationId, e.finding));
      }
    }
  }

  /**
    Over every run of driver findings, acknowledgements and resolutions from an empty table,
    an incident is open for a key exactly when the last word about that key opened it, and
    its id is the one that opening gave it; there is at most one. UNKNOWN, NOT_APPLICABLE and
    non-raising findings never have a word.
  */
  lemma OpenIffLastWordOpen(events: seq<Event>, key: Key)
    ensures
      var st := Run(EMPTY_STORE, events);
      && (HasOpen(st, key) <==> LastWord(events, key).Some?)
      && (forall i :: 0 <= i < |st.rows| && OpenOn(st.rows[i], key) ==> LastWord(events, key) == Some(st.rows[i].id))
      && OneOpenPerKey(st)
  {
    TableFollowsEvents(events, key);
    RunKeepsConsistent(EMPTY_STORE, events);
    var st := Run(EMPTY_STORE, events);
    forall i | 0 <= i < |st.rows| && OpenOn(st.rows[i], key)
      ensures LastWord(events, key) == Some(st.rows[i].id)
    {
      OpenIsUnique(st, i, key);
    }
  }

  /** The last finding that decides this key, read off the events alone. */
  predicate LastFindingViolates(events: seq<Event>, key: Key) {
    if events == [] then false
    else
      var e := events[|events| - 1];
      if Heard(e) && IsAbout(e, key) then e.finding.state.Violation?
      else LastFindingViolates(events[..|events| - 1], key)
  }

  /**
    Left to the driver, with acknowledgements but no resolution by hand, an incident is open
    for a key exactly when the last raising, decided finding about it was a VIOLATION.
  */
  lemma OpenIffLastFindingViolates(events: seq<Event>, key: Key)
    requires forall i :: 0 <= i < |events| ==> !events[i].Resolves?
    ensures HasOpen(Run(EMPTY_STORE, events), key) <==> LastFindingViolates(events, key)
  {
    OpenIffLastWordOpen(events, key);
    LastWordIsLastFinding(events, key);
  }

  lemma {:induction false} LastWordIsLastFinding(events: seq<Event>, key: Key)
    requires forall i :: 0 <= i < |events| ==> !events[i].Resolves?
    ensures LastWord(events, key).Some? <==> LastFindingViolates(events, key)
    decreases |events|
  {
    if events != [] {
      LastWordIsLastFinding(events[..|events| - 1], key);
    }
  }

  /** A run without the findings that decide nothing. */
  function Essential(events: seq<Event>): seq<Event> {
    if events == [] then []
    else
      var earlier, e := Essential(events[..|events| - 1]), events[|events| - 1];
      if e.Observed? && !Heard(e) then earlier else earlier + [e]
  }

  /** Deleting every UNKNOWN, NOT_APPLICABLE, non-raising or unapplied finding leaves the same table, row for row. */
  lemma {:induction false} UndecidedFindingsDoNothing(st: Store, events: seq<Event>)
    ensures Run(st, Essential(events)) == Run(st, events)
    decreases |events|
  {
    DecidedIsDecisive();
    if events != [] {
      var earlier, e := events[..|events| - 1], events[|events| - 1];
      UndecidedFindingsDoNothing(st, earlier);
      if !(e.Observed? && !Heard(e)) {
        var kept := Essential(earlier);
        assert (kept + [e])[..|kept|] == kept;
      }
    }
  }

  /* ------------------------------------------------- one finding and one table */

  /** An unresolved row for this organization, camera, object and rule. */
  predicate IsOpenFor(row: Incident, organizationId: string, cameraId: string, objectId: string, ruleId: string) {
    && row.status != Resolved && row.key.organizationId == organizationId && row.key.cameraKey == cameraId
    && row.key.objectId == objectId && row.key.ruleId == ruleId
  }

  lemma OneRowMoves(st: Store, organizationId: string, f: Finding, clock: int, course: Course)
    requires Decisive(f) && !course.TableRaised?
    ensures
      var st', at := Applied(st, organizationId, f, clock, course), FirstOpen(st.rows, KeyOf(organizationId, f));
      && |st.rows| <= |st'.rows|
      && (forall i :: 0 <= i < |st.rows| && Some(i) != at ==> st'.rows[i] == st.rows[i])
      && (at.Some? ==> |st'.rows| == |st.rows| && st'.rows[at.value].key == st.rows[at.value].key
                       && (st'.rows[at.value].status.Resolved? <==> f.state.Compliant?))
      && (at.None? && f.state.Compliant? ==> st' == st)
      && (at.None? && f.state.Violation? ==>
            |st'.rows| == |st.rows| + 1 && st'.rows[|st.rows|].key == KeyOf(organizationId, f)
            && st'.rows[|st.rows|].status.Active?)
  {
  }

  ghost predicate NoneOpen(rows: seq<Incident>, organizationId: string, cameraId: string, objectId: string,
                           ruleId: string)
  {
    forall i :: 0 <= i < |rows| ==> !IsOpenFor(rows[i], organizationId, cameraId, objectId, ruleId)
  }

  ghost predicate OneOpen(rows: seq<Incident>, organizationId: string, cameraId: string, objectId: string,
                          ruleId: string)
  {
    exists i :: 0 <= i < |rows| && IsOpenFor(rows[i], organizationId, cameraId, objectId, ruleId)
                && forall j :: 0 <= j < |rows| && j != i ==>
                     !IsOpenFor(rows[j], organizationId, cameraId, objectId, ruleId)
  }

  lemma OpenForIsOpenOn(row: Incident, organizationId: string, f: Finding)
    ensures IsOpenFor(row, organizationId, f.subject.cameraId, f.subject.objectId, f.ruleId)
       <==> OpenOn(row, KeyOf(organizationId, f))
  {
  }

  lemma CompliantCloses(st: Store, organizationId: string, f: Finding, clock: int, course: Course)
    requires Consistent(st) && Decisive(f) && !course.TableRaised? && f.state.Compliant?
    ensures NoneOpen(Applied(st, organizationId, f, clock, course).rows, organizationId, f.subject.cameraId,
                     f.subject.objectId, f.ruleId)
  {
    var rows, key := Applied(st, organizationId, f, clock, course).rows, KeyOf(organizationId, f);
    OneRowMoves(st, organizationId, f, clock, course);
    var at := FirstOpen(st.rows, key);
    if at.Some? {
      OthersAreNotOpen(st, at.value, key);
    }
    forall i | 0 <= i < |rows|
      ensures !IsOpenFor(rows[i], organizationId, f.subject.cameraId, f.subject.objectId, f.ruleId)
    {
      OpenForIsOpenOn(rows[i], organizationId, f);
    }
  }

  lemma ViolationOpens(st: Store, organizationId: string, f: Finding, clock: int, course: Course)
    requires Consistent(st) && Decisive(f) && !course.TableRaised? && f.state.Violation?
    ensures OneOpen(Applied(st, organizationId, f, clock, course).rows, organizationId, f.subject.cameraId,
                    f.subject.objectId, f.ruleId)
  {
    var rows, key := Applied(st, organizationId, f, clock, course).rows, KeyOf(organizationId, f);
    OneRowMoves(st, organizationId, f, clock, course);
    var at := FirstOpen(st.rows, key);
    if at.Some? {
      OthersAreNotOpen(st, at.value, key);
    }
    var i := if at.Some? then at.value else |st.rows|;
    assert OpenOn(rows[i], key) && forall j :: 0 <= j < |rows| && j != i ==> !OpenOn(rows[j], key);
    forall j | 0 <= j < |rows|
      ensures IsOpenFor(rows[j], organizationId, f.subject.cameraId, f.subject.objectId, f.ruleId)
         <==> OpenOn(rows[j], key)
    {
      OpenForIsOpenOn(rows[j], organizationId, f);
    }
  }

  /**
    What one finding does to any consistent table it reaches. At a severity of low, medium,
    high or critical, a COMPLIANT finding leaves no open row for its organization, camera,
    object and rule, and a VIOLATION leaves exactly one; at any other severity, and for
    UNKNOWN and NOT_APPLICABLE, the table stays as it is.
  */
  lemma FindingMovesTable(st: Store, organizationId: string, f: Finding, clock: int, course: Course)
    requires Consistent(st) && course != TableRaised
    ensures
      var st', about := Applied(st, organizationId, f, clock, course), f.subject;
      var raising := f.severity in {"low", "medium", "high", "critical"};
      && (raising && f.state == Compliant ==>
            NoneOpen(st'.rows, organizationId, about.cameraId, about.objectId, f.ruleId))
      && (raising && f.state == Violation ==>
            OneOpen(st'.rows, organizationId, about.cameraId, about.objectId, f.ruleId))
      && (!raising || f.state == Unknown || f.state == NotApplicable ==> st' == st)
  {
    DecidedIsDecisive();
    if Decided(f) {
      if f.state == Compliant {
        CompliantCloses(st, organizationId, f, clock, course);
      } else {
        ViolationOpens(st, organizationId, f, clock, course);
      }
    }
  }

  /**
    What the row then says. A new row is ACTIVE, carries the finding as its snapshot with the
    finding's severity and rule set, the instant the finding was made (the clock only if it
    has none), and the handle that was captured; a row still open keeps everything and moves
    its instant forward only.
  */
  lemma FindingWritesRow(st: Store, organizationId: string, f: Finding, clock: int, course: Course)
    requires course != TableRaised && f.state == Violation && f.severity in {"low", "medium", "high", "critical"}
    ensures
      var st' := Applied(st, organizationId, f, clock, course);
      var at := FirstOpen(st.rows, Key(organizationId, f.subject.cameraId, f.subject.objectId, f.ruleId));
      var instant := if f.evaluatedAtNs <= 0 then clock else f.evaluatedAtNs;
      && (at.None? ==>
            var row := st'.rows[|st.rows|];
            && row.id == st.nextId && row.observedAt == instant && row.snapshot == f && row.severity == f.severity
            && row.rulesetVersion == f.rulesetVersion
            && row.evidenceRefs == (match course case Ran(captured) => captured case _ => "")
            && row.acknowledgedAt == None && row.acknowledgedBy == None && row.resolvedAt == None
            && row.resolvedBy == None && row.resolutionKind == None && row.resolutionNote == None)
      && (at.Some? ==>
            var before, row := st.rows[at.value], st'.rows[at.value];
            row == before.(observedAt := if before.observedAt < instant then instant else before.observedAt))
  {
    DecidedIsDecisive();
  }

  /* ---------------------------------------------------------------- frozen history */

  /** How a row may change: never its identity or its snapshot, its clock only forward, a resolution never again. */
  ghost predicate Evolves(a: Incident, b: Incident) {
    && b.id == a.id && b.key == a.key && b.snapshot == a.snapshot && b.rulesetVersion == a.rulesetVersion
    && b.severity == a.severity
    && b.observedAt >= a.observedAt
    && (a.status.Resolved? ==> b == a)
    && (a.status.Acknowledged? ==> !b.status.Active? && b.acknowledgedBy == a.acknowledgedBy
                                   && b.acknowledgedAt == a.acknowledgedAt)
    && (b.status.Resolved? && !a.status.Resolved? ==>
          b.resolutionKind == Some("observation") || b.resolutionKind == Some("operator"))
    && (b.status.Resolved? && !a.status.Resolved? && b.resolutionKind == Some("operator") ==>
          b.resolutionNote.Some?)
  }

  ghost predicate TableEvolves(a: Store, b: Store) {
    && |a.rows| <= |b.rows|
    && forall i :: 0 <= i < |a.rows| ==> Evolves(a.rows[i], b.rows[i])
  }

  lemma ClosedEvolves(row: Incident, actor: string, kind: string, note: string, at: int)
    requires Acceptable(kind, note)
    ensures Evolves(row, Closed(row, actor, kind, note, at))
  {
  }

  lemma AppliedEvolves(st: Store, organizationId: string, f: Finding, clock: int, course: Course)
    ensures TableEvolves(st, Applied(st, organizationId, f, clock, course))
  {
    var at := FirstOpen(st.rows, KeyOf(organizationId, f));
    if at.Some? {
      ClosedEvolves(st.rows[at.value], "vision-os", "observation", OBSERVED_NOTE, clock);
    }
  }

  lemma HappenEvolves(st: Store, e: Event)
    ensures TableEvolves(st, Happen(st, e))
  {
    match e
    case Observed(organizationId, f, clock, course) => AppliedEvolves(st, organizationId, f, clock, course);
    case Acknowledges(_, _, _, _) =>
    case Resolves(organizationId, id, actor, kind, note, at) =>
      var i := Find(st.rows, organizationId, id);
      if i.Some? && Acceptable(kind, note) {
        ClosedEvolves(st.rows[i.value], actor, kind, note, at);
      }
  }

  lemma EvolvesTransitive(a: Store, b: Store, c: Store)
    requires TableEvolves(a, b) && TableEvolves(b, c)
    ensures TableEvolves(a, c)
  {
    forall i | 0 <= i < |a.rows|
      ensures Evolves(a.rows[i], c.rows[i])
    {
      assert Evolves(a.rows[i], b.rows[i]) && Evolves(b.rows[i], c.rows[i]);
    }
  }

  /** Over every run no row disappears, no snapshot is rewritten, and what was resolved stays exactly as it was. */
  lemma {:induction false} HistoryIsFrozen(st: Store, events: seq<Event>)
    ensures TableEvolves(st, Run(st, events))
    decreases |events|
  {
    if events != [] {
      var earlier := events[..|events| - 1];
      HistoryIsFrozen(st, earlier);
      HappenEvolves(Run(st, earlier), events[|events| - 1]);
      EvolvesTransitive(st, Run(st, earlier), Run(st, events));
    }
  }

  /* ------------------------------------------------------------- counting a pass */

  function OpenCount(rows: seq<Incident>): nat {
    if rows == [] then 0
    else OpenCount(rows[..|rows| - 1]) + (if rows[|rows| - 1].status.Resolved? then 0 else 1)
  }

  lemma {:induction false} OpenCountUpdate(rows: seq<Incident>, i: nat, row: Incident)
    requires i < |rows|
    ensures OpenCount(rows[i := row]) - (if row.status.Resolved? then 0 else 1)
         == OpenCount(rows) - (if rows[i].status.Resolved? then 0 else 1)
    decreases |rows|
  {
    var n := |rows| - 1;
    if i < n {
      OpenCountUpdate(rows[..n], i, row);
      assert rows[i := row][..n] == rows[..n][i := row];
    } else {
      assert rows[i := row][..n] == rows[..n];
    }
  }

  lemma OpenCountAppend(rows: seq<Incident>, row: Incident)
    ensures OpenCount(rows + [row]) == OpenCount(rows) + (if row.status.Resolved? then 0 else 1)
  {
    assert (rows + [row])[..|rows|] == rows;
  }

  /** Rows that carry evidence. */
  function EvidenceCount(rows: seq<Incident>): nat {
    if rows == [] then 0
    else EvidenceCount(rows[..|rows| - 1]) + (if rows[|rows| - 1].evidenceRefs == "" then 0 else 1)
  }

  lemma {:induction false} EvidenceCountUpdate(rows: seq<Incident>, i: nat, row: Incident)
    requires i < |rows| && row.evidenceRefs == rows[i].evidenceRefs
    ensures EvidenceCount(rows[i := row]) == EvidenceCount(rows)
    decreases |rows|
  {
    var n := |rows| - 1;
    if i < n {
      EvidenceCountUpdate(rows[..n], i, row);
      assert rows[i := row][..n] == rows[..n][i := row];
    } else {
      assert rows[i := row][..n] == rows[..n];
    }
  }

  lemma EvidenceCountAppend(rows: seq<Incident>, row: Incident)
    ensures EvidenceCount(rows + [row]) == EvidenceCount(rows) + (if row.evidenceRefs == "" then 0 else 1)
  {
    assert (rows + [row])[..|rows|] == rows;
  }

  datatype Tally = Tally(
    incidentsOpened: nat,
    incidentsUpdated: nat,
    incidentsResolved: nat,
    evidenceCaptured: nat,
    errors: nat)

  /** What one finding adds to the pass's incident counters. */
  function Counted(t: Tally, st: Store, organizationId: string, f: Finding, course: Course): Tally {
    var open := FirstOpen(st.rows, KeyOf(organizationId, f)).Some?;
    if !Decisive(f) then t
    else if course.TableRaised? then t.(errors := t.errors + 1)
    else if f.state.Compliant? then if open then t.(incidentsResolved := t.incidentsResolved + 1) else t
    else if open then t.(incidentsUpdated := t.incidentsUpdated + 1)
    else t.(incidentsOpened := t.incidentsOpened + 1,
            evidenceCaptured := t.evidenceCaptured + (if course.Ran? && course.captured != "" then 1 else 0),
            errors := t.errors + (if course.CaptureRaised? then 1 else 0))
  }

  /** What one finding did to the table, in numbers. */
  datatype Change = Change(open: int, rows: int, evidence: int)

  function ChangeOf(before: seq<Incident>, after: seq<Incident>): Change {
    Change(OpenCount(after) - OpenCount(before), |after| - |before|, EvidenceCount(after) - EvidenceCount(before))
  }

  lemma UpdateCounts(rows: seq<Incident>, i: nat, row: Incident)
    requires i < |rows| && row.evidenceRefs == rows[i].evidenceRefs && !rows[i].status.Resolved?
    ensures ChangeOf(rows, rows[i := row]) == Change(if row.status.Resolved? then -1 else 0, 0, 0)
  {
    OpenCountUpdate(rows, i, row);
    EvidenceCountUpdate(rows, i, row);
  }

  lemma AppendCounts(rows: seq<Incident>, row: Incident)
    requires !row.status.Resolved?
    ensures ChangeOf(rows, rows + [row]) == Change(1, 1, if row.evidenceRefs == "" then 0 else 1)
  {
    OpenCountAppend(rows, row);
    EvidenceCountAppend(rows, row);
  }

  /** What one finding adds to the counters is what it did to the table. */
  lemma CountedMatchesTable(t: Tally, st: Store, organizationId: string, f: Finding, clock: int, course: Course)
    ensures
      var st', t' := Applied(st, organizationId, f, clock, course), Counted(t, st, organizationId, f, course);
      var added := t'.incidentsOpened - t.incidentsOpened;
      ChangeOf(st.rows, st'.rows)
      == Change(added - (t'.incidentsResolved - t.incidentsResolved), added, t'.evidenceCaptured - t.evidenceCaptured)
  {
    var st' := Applied(st, organizationId, f, clock, course);
    var at := FirstOpen(st.rows, KeyOf(organizationId, f));
    if Decisive(f) && !course.TableRaised? {
      if at.Some? {
        UpdateCounts(st.rows, at.value, st'.rows[at.value]);
      } else if f.state.Violation? {
        var row := st'.rows[|st.rows|];
        assert st'.rows == st.rows + [row];
        AppendCounts(st.rows, row);
      }
    }
  }

  function EventsOf(organizationId: string, findings: seq<Finding>, clock: int, courses: seq<Course>): seq<Event>
    requires |courses| == |findings|
  {
    seq(|findings|, i requires 0 <= i < |findings| => Observed(organizationId, findings[i], clock, courses[i]))
  }

  /** Raising violations the driver got to act on. */
  function Acted(findings: seq<Finding>, courses: seq<Course>): nat
    requires |courses| == |findings|
  {
    if findings == [] then 0
    else
      var n := |findings| - 1;
      var f := findings[n];
      Acted(findings[..n], courses[..n])
      + (if Decided(f) && f.state.Violation? && courses[n] != TableRaised then 1 else 0)
  }

  /** Decided, raising findings for which the table could not be reached. */
  function Unreached(findings: seq<Finding>, courses: seq<Course>): nat
    requires |courses| == |findings|
  {
    if findings == [] then 0
    else
      var n := |findings| - 1;
      Unreached(findings[..n], courses[..n]) + (if Decided(findings[n]) && courses[n] == TableRaised then 1 else 0)
  }

  /** The event creates a row and then its capture raises. */
  predicate CaptureFails(st: Store, e: Event) {
    && Heard(e) && e.finding.state.Violation? && e.course.CaptureRaised?
    && FirstOpen(st.rows, KeyOf(e.organizationId, e.finding)).None?
  }

  /** How many rows of a run were created by a capture that raised. */
  function FailedCaptures(st: Store, events: seq<Event>): nat {
    if events == [] then 0
    else
      var earlier, e := events[..|events| - 1], events[|events| - 1];
      FailedCaptures(st, earlier) + (if CaptureFails(Run(st, earlier), e) then 1 else 0)
  }

  /** How the counters of a pass relate to its findings: raising violations acted on, and what went wrong. */
  ghost predicate Accounts(t: Tally, findings: seq<Finding>, courses: seq<Course>, failedCaptures: nat)
    requires |courses| == |findings|
  {
    && t.incidentsOpened + t.incidentsUpdated == Acted(findings, courses)
    && t.errors == Unreached(findings, courses) + failedCaptures
  }

  lemma CountedAccounts(t: Tally, st: Store, organizationId: string, findings: seq<Finding>, clock: int,
                        courses: seq<Course>, i: nat, failed: nat)
    requires |courses| == |findings| && i < |findings| && Accounts(t, findings[..i], courses[..i], failed)
    ensures
      var e := Observed(organizationId, findings[i], clock, courses[i]);
      Accounts(Counted(t, st, organizationId, findings[i], courses[i]), findings[..i + 1], courses[..i + 1],
               failed + (if CaptureFails(st, e) then 1 else 0))
  {
    DecidedIsDecisive();
    assert findings[..i + 1][..i] == findings[..i] && courses[..i + 1][..i] == courses[..i];
  }

  /** A pass after its first `i` findings: the table it has made and the counters it has. */
  ghost predicate PassSoFar(st0: Store, organizationId: string, findings: seq<Finding>, clock: int,
                            courses: seq<Course>, i: nat, st: Store, t: Tally)
    requires |courses| == |findings|
  {
    var events := EventsOf(organizationId, findings, clock, courses);
    && i <= |findings| && st == Run(st0, events[..i])
    && ChangeOf(st0.rows, st.rows)
         == Change(t.incidentsOpened - t.incidentsResolved, t.incidentsOpened, t.evidenceCaptured)
    && Accounts(t, findings[..i], courses[..i], FailedCaptures(st0, events[..i]))
  }

  lemma PassGoesOn(st0: Store, organizationId: string, findings: seq<Finding>, clock: int, courses: seq<Course>, i: nat,
                   st: Store, t: Tally)
    requires |courses| == |findings| && i < |findings|
    requires PassSoFar(st0, organizationId, findings, clock, courses, i, st, t)
    ensures PassSoFar(st0, organizationId, findings, clock, courses, i + 1,
                      Applied(st, organizationId, findings[i], clock, courses[i]),
                      Counted(t, st, organizationId, findings[i], courses[i]))
  {
    var events := EventsOf(organizationId, findings, clock, courses);
    CountedMatchesTable(t, st, organizationId, findings[i], clock, courses[i]);
    CountedAccounts(t, st, organizationId, findings, clock, courses, i, FailedCaptures(st0, events[..i]));
    RunOneMore(st0, events, i);
    assert events[..i + 1][..i] == events[..i];
  }

  /** The incident table and the driver's pass over it. */
  class IncidentTable {
    var rows: seq<Incident>
    var nextId: nat

    ghost function View(): Store
      reads this
    {
      Store(rows, nextId)
    }

    /** At most one open row per key, and unique ids. */
    ghost predicate Valid()
      reads this
    {
      Consistent(View())
    }

    constructor ()
      ensures Valid() && View() == EMPTY_STORE
    {
      rows, nextId := [], 0;
    }

    method OpenFor(key: Key) returns (r: Option<nat>)
      ensures r == FirstOpen(rows, key)
    {
      for i := 0 to |rows|
        invariant forall k :: 0 <= k < i ==> !OpenOn(rows[k], key)
      {
        if OpenOn(rows[i], key) {
          return Some(i);
        }
      }
      return None;
    }

    method Open(key: Key, f: Finding, observedAt: int, refs: seq<string>) returns (created: bool)
      requires Valid()
      modifies this
      ensures Valid()
      ensures View() == Opened(old(View()), key, f, observedAt, refs)
      ensures created <==> FirstOpen(old(rows), key).None?
    {
      OpenedKeepsConsistent(View(), key, f, observedAt, refs);
      var existing := OpenFor(key);
      if existing.Some? {
        var row := rows[existing.value];
        row := row.(observedAt := Later(row.observedAt, observedAt));
        if refs != [] {
          var merged := MergeRefs(row.evidenceRefs, refs);
          row := row.(evidenceRefs := merged);
        }
        rows := rows[existing.value := row];
        return false;
      }
      rows := rows + [NewRow(nextId, key, f, observedAt, refs)];
      nextId := nextId + 1;
      return true;
    }

    method ResolveByObservation(key: Key, at: int) returns (resolved: bool)
      requires Valid()
      modifies this
      ensures Valid()
      ensures View() == ObservedClosed(old(View()), key, at)
      ensures resolved <==> FirstOpen(old(rows), key).Some?
      ensures resolved ==>
                var i := FirstOpen(old(rows), key).value;
                rows == old(rows)[i := old(rows)[i].(
                  status := Resolved, resolvedAt := Some(at), resolvedBy := Some("vision-os"),
                  resolutionKind := Some("observation"),
                  resolutionNote := Some("a later observation showed the rule satisfied"))]
    {
      var existing := OpenFor(key);
      if existing.None? {
        return false;
      }
      var row := Closed(rows[existing.value], "vision-os", "observation", OBSERVED_NOTE, at);
      UpdateKeepsConsistent(View(), existing.value, row);
      rows := rows[existing.value := row];
      return true;
    }

    /** `acknowledge`: refused for a resolved or foreign incident, idempotent for an acknowledged one. */
    method Acknowledge(organizationId: string, id: nat, actor: string, at: int) returns (r: Result<nat, string>)
      requires Valid()
      modifies this
      ensures Valid()
      ensures View() == Happen(old(View()), Acknowledges(organizationId, id, actor, at))
      ensures r.Ok? <==> Find(old(rows), organizationId, id).Some?
                         && !old(rows)[Find(old(rows), organizationId, id).value].status.Resolved?
      ensures r.Ok? ==>
                var i := Find(old(rows), organizationId, id).value;
                var row := old(rows)[i];
                rows == old(rows)[i := if row.status == Acknowledged then row
                                       else row.(status := Acknowledged, acknowledgedAt := Some(at),
                                                 acknowledgedBy := Some(actor))]
    {
      HappenKeepsConsistent(View(), Acknowledges(organizationId, id, actor, at));
      var at' := Find(rows, organizationId, id);
      if at'.None? {
        return Err("no such incident");
      }
      var row := rows[at'.value];
      if row.status.Resolved? {
        return Err("a resolved incident cannot be acknowledged");
      }
      if row.status.Active? {
        row := row.(status := Acknowledged, acknowledgedAt := Some(at), acknowledgedBy := Some(actor));
        rows := rows[at'.value := row];
      }
      return Ok(at'.value);
    }

    /** `resolve`: by observation or by an operator who says why, and no third way. */
    method Resolve(organizationId: string, id: nat, actor: string, kind: string, note: string, at: int)
      returns (r: Result<nat, string>)
      requires Valid()
      modifies this
      ensures Valid()
      ensures View() == Happen(old(View()), Resolves(organizationId, id, actor, kind, note, at))
      ensures r.Ok? <==>
                && (kind == "observation" || (kind == "operator" && exists k :: 0 <= k < |note| && !IsSpace(note[k])))
                && Find(old(rows), organizationId, id).Some?
      ensures r.Ok? ==>
                var i := Find(old(rows), organizationId, id).value;
                var row, kept := old(rows)[i], if |note| > 2000 then note[..2000] else note;
                rows == old(rows)[i := if row.status == Resolved then row
                                       else row.(status := Resolved, resolvedAt := Some(at), resolvedBy := Some(actor),
                                                 resolutionKind := Some(kind),
                                                 resolutionNote := if note == "" then None else Some(kept))]
    {
      HappenKeepsConsistent(View(), Resolves(organizationId, id, actor, kind, note, at));
      if kind != "observation" && kind != "operator" {
        return Err("nothing else closes one");
      }
      if kind == "operator" && Blank(note) {
        return Err("an operator resolution must carry a reason");
      }
      var at' := Find(rows, organizationId, id);
      if at'.None? {
        return Err("no such incident");
      }
      rows := rows[at'.value := Closed(rows[at'.value], actor, kind, note, at)];
      return Ok(at'.value);
    }

    /** The body of the loop in `ComplianceDriver.apply`, exceptions and all. */
    method ApplyOne(organizationId: string, f: Finding, clock: int, course: Course, before: Tally) returns (t: Tally)
      requires Valid()
      modifies this
      ensures Valid()
      ensures View() == Applied(old(View()), organizationId, f, clock, course)
      ensures t == Counted(before, old(View()), organizationId, f, course)
    {
      ObservedKeepsConsistent(View(), organizationId, f, clock, course);
      t := before;
      if !Raises(f.severity) || !(f.state.Violation? || f.state.Compliant?) {
        return;
      }
      if course.TableRaised? {
        return t.(errors := t.errors + 1);
      }
      var key := KeyOf(organizationId, f);
      if f.state.Compliant? {
        var resolved := ResolveByObservation(key, clock);
        return if resolved then t.(incidentsResolved := t.incidentsResolved + 1) else t;
      }
      var created, captured := OpenAndCapture(key, f, ObservedAt(f, clock), course);
      if !created {
        return t.(incidentsUpdated := t.incidentsUpdated + 1);
      }
      return t.(incidentsOpened := t.incidentsOpened + 1,
                evidenceCaptured := t.evidenceCaptured + (if captured then 1 else 0),
                errors := t.errors + (if course.CaptureRaised? then 1 else 0));
    }

    /** The violation branch: open or update, and on a new row store the handle that was captured. */
    method OpenAndCapture(key: Key, f: Finding, observedAt: int, course: Course) returns (created: bool, captured: bool)
      requires Valid()
      modifies this
      ensures Valid()
      ensures View() == OpenedByDriver(old(View()), key, f, observedAt, course)
      ensures created <==> FirstOpen(old(rows), key).None?
      ensures captured <==> created && course.Ran? && course.captured != ""
    {
      DriverKeepsConsistent(View(), key, f, observedAt, course);
      created := Open(key, f, observedAt, []);
      captured := created && course.Ran? && course.captured != "";
      if captured {
        var n := |rows| - 1;
        rows := rows[n := rows[n].(evidenceRefs := course.captured)];
      }
    }

    /**
      `ComplianceDriver.apply`. The pass is the run of its findings, and its counters balance:
      opened minus resolved is the change in open incidents, opened is the number of new rows,
      captured the number of new rows with evidence, every raising violation acted on opened
      or updated exactly one, and the errors are the findings that could not be applied and the
      rows whose capture raised.
    */
    method Apply(organizationId: string, findings: seq<Finding>, clock: int, courses: seq<Course>)
      returns (t: Tally)
      requires Valid() && |courses| == |findings|
      modifies this
      ensures Valid()
      ensures View() == Run(old(View()), EventsOf(organizationId, findings, clock, courses))
      ensures ChangeOf(old(rows), rows)
           == Change(t.incidentsOpened - t.incidentsResolved, t.incidentsOpened, t.evidenceCaptured)
      ensures
        var events := EventsOf(organizationId, findings, clock, courses);
        Accounts(t, findings, courses, FailedCaptures(old(View()), events))
    {
      t := Tally(0, 0, 0, 0, 0);
      for i := 0 to |findings|
        invariant Valid() && PassSoFar(old(View()), organizationId, findings, clock, courses, i, View(), t)
      {
        PassGoesOn(old(View()), organizationId, findings, clock, courses, i, View(), t);
        t := ApplyOne(organizationId, findings[i], clock, courses[i], t);
      }
      ghost var events := EventsOf(organizationId, findings, clock, courses);
      assert events[..|findings|] == events;
      assert findings[..|findings|] == findings && courses[..|courses|] == courses;
    }
  }

  lemma RunOneMore(st: Store, events: seq<Event>, i: nat)
    requires i < |events|
    ensures Run(st, events[..i + 1]) == Happen(Run(st, events[..i]), events[i])
  {
    assert events[..i + 1][..i] == events[..i];
  }
}
