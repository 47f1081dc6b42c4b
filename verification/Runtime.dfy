/**
  The runtime that owns the sessions (app/vision/manager.py) and its one rule: a camera
  has at most one active session.

  `World` holds every session object that exists. `registered` are the keys of
  `_sessions`; `orphaned` are sessions that `stop_all` has taken out of the dictionary but
  whose `stop` coroutine has not had its first turn yet.
*/
module Runtime {
  import opened Basics
  import opened Sessions

  type SessionId = string

  datatype Entry = Entry(cameraId: string, tenantId: string, session: Session)

  datatype World = World(all: map<SessionId, Entry>, registered: set<SessionId>, orphaned: set<SessionId>)

  datatype Event =
    | StartSession(id: SessionId, cameraId: string, tenantId: string, capacity: nat, intervalNs: nat)
    | StopSession(id: SessionId, tenantId: string)
    | Deregister(id: SessionId)
    | StopAll
    | StopAllReaches(id: SessionId)
    | Within(id: SessionId, step: Step)

  const EMPTY_WORLD := World(map[], {}, {})

  predicate Active(w: World, id: SessionId) {
    id in w.all && w.all[id].session.state in {Running, Paused}
  }

  predicate ActiveOn(w: World, id: SessionId, cameraId: string) {
    Active(w, id) && w.all[id].cameraId == cameraId
  }

  /** The check `_start` makes under its lock. */
  ghost predicate Occupied(w: World, cameraId: string) {
    exists id :: id in w.registered && ActiveOn(w, id, cameraId)
  }

  /** An active session of this camera that the check cannot see. */
  ghost predicate HiddenActive(w: World, cameraId: string) {
    exists id :: id in w.orphaned && ActiveOn(w, id, cameraId)
  }

  ghost predicate Admits(w: World, e: Event) {
    e.StartSession? && e.id !in w.all && e.capacity >= 1 && !Occupied(w, e.cameraId)
  }

  function SetSession(w: World, id: SessionId, s: Session): World
    requires id in w.all
  {
    w.(all := w.all[id := w.all[id].(session := s)])
  }

  function Registered(w: World, e: Event): World
    requires e.StartSession?
  {
    var entry := Entry(e.cameraId, e.tenantId, Started(NewSession(e.capacity, e.intervalNs)));
    w.(all := w.all[e.id := entry], registered := w.registered + {e.id})
  }

  /** From the check under the lock to RUNNING there is no suspension point, so starting is one step. */
  ghost function Happen(w: World, e: Event): World {
    match e
    case StartSession(_, _, _, _, _) => if Admits(w, e) then Registered(w, e) else w
    case StopSession(id, tenantId) =>
      if id in w.registered && id in w.all && w.all[id].tenantId == tenantId
      then SetSession(w, id, StopBegun(w.all[id].session)) else w
    case Deregister(id) =>
      if id in w.all && w.all[id].session.state.Stopped? then w.(registered := w.registered - {id}) else w
    case StopAll => w.(registered := {}, orphaned := w.orphaned + w.registered)
    case StopAllReaches(id) =>
      if id in w.orphaned && id in w.all
      then SetSession(w, id, StopBegun(w.all[id].session)).(orphaned := w.orphaned - {id}) else w
    case Within(id, step) =>
      if id in w.all && !step.Start? then SetSession(w, id, Apply(w.all[id].session, step)) else w
  }

  ghost function History(w: World, events: seq<Event>): World
    decreases |events|
  {
    if events == [] then w else History(Happen(w, events[0]), events[1..])
  }

  ghost predicate OnePerCamera(w: World) {
    forall i, j :: Active(w, i) && Active(w, j) && i != j ==> w.all[i].cameraId != w.all[j].cameraId
  }

  /** Every active session is in the dictionary or on its way out through `stop_all`; sessions have been started. */
  ghost predicate Tracked(w: World) {
    && (forall id :: Active(w, id) ==> id in w.registered || id in w.orphaned)
    && (forall id :: id in w.registered || id in w.orphaned ==> id in w.all)
    && (forall id :: id in w.all ==> !w.all[id].session.state.Created?)
  }

  lemma StopDeactivates(s: Session)
    ensures !StopBegun(s).state.IsActive() && !StopBegun(s).state.Created?
  {
  }

  /** No event but a start makes any session active; a start makes only its own. */
  lemma ActivatedOnlyByStart(w: World, e: Event, id: SessionId)
    requires Tracked(w) && !Active(w, id) && Active(Happen(w, e), id)
    ensures e.StartSession? && e.id == id && id !in w.all
  {
    if e.Within? && e.id == id && id in w.all && !e.step.Start? {
      OnlyStartActivates(w.all[id].session, e.step);
    }
  }

  lemma SetKeepsTracked(w: World, id: SessionId, s: Session)
    requires Tracked(w) && id in w.all && !s.state.Created? && (s.state.IsActive() ==> Active(w, id))
    ensures Tracked(SetSession(w, id, s))
    ensures SetSession(w, id, s).all.Keys == w.all.Keys
    ensures forall i :: i in w.all ==> SetSession(w, id, s).all[i].cameraId == w.all[i].cameraId
  {
    var w' := SetSession(w, id, s);
    assert forall i :: i in w.all && i != id ==> w'.all[i] == w.all[i];
  }

  /** Sessions stay where they are: none is forgotten and none changes camera. */
  ghost predicate Follows(w: World, w': World) {
    forall id :: id in w.all ==> id in w'.all && w'.all[id].cameraId == w.all[id].cameraId
  }

  lemma RegisteredKeepsTracked(w: World, e: Event)
    requires Tracked(w) && Admits(w, e)
    ensures Tracked(Registered(w, e)) && Follows(w, Registered(w, e))
  {
    var w' := Registered(w, e);
    assert forall i :: i in w.all ==> w'.all[i] == w.all[i];
  }

  lemma StopKeepsTracked(w: World, id: SessionId)
    requires Tracked(w) && id in w.all
    ensures Tracked(SetSession(w, id, StopBegun(w.all[id].session)))
    ensures Follows(w, SetSession(w, id, StopBegun(w.all[id].session)))
    ensures !Active(SetSession(w, id, StopBegun(w.all[id].session)), id)
  {
    StopDeactivates(w.all[id].session);
    SetKeepsTracked(w, id, StopBegun(w.all[id].session));
  }

  lemma WithinKeepsTracked(w: World, id: SessionId, step: Step)
    requires Tracked(w) && id in w.all && !step.Start?
    ensures Tracked(SetSession(w, id, Apply(w.all[id].session, step)))
    ensures Follows(w, SetSession(w, id, Apply(w.all[id].session, step)))
  {
    var s := w.all[id].session;
    StaysStarted(s, step);
    if !s.state.IsActive() {
      OnlyStartActivates(s, step);
    }
    SetKeepsTracked(w, id, Apply(s, step));
  }

  lemma StopEventKeepsTracked(w: World, e: Event)
    requires Tracked(w) && (e.StopSession? || e.StopAllReaches?)
    ensures Tracked(Happen(w, e)) && Follows(w, Happen(w, e))
  {
    if e.id in w.all {
      StopKeepsTracked(w, e.id);
    }
  }

  lemma BooksKeepTracked(w: World, e: Event)
    requires Tracked(w) && (e.Deregister? || e.StopAll?)
    ensures Tracked(Happen(w, e)) && Follows(w, Happen(w, e))
  {
    assert Happen(w, e).all == w.all;
  }

  lemma HappenKeepsTracked(w: World, e: Event)
    requires Tracked(w)
    ensures Tracked(Happen(w, e)) && Follows(w, Happen(w, e))
  {
    if e.StartSession? {
      if Admits(w, e) {
        RegisteredKeepsTracked(w, e);
      }
    } else if e.Within? {
      if e.id in w.all && !e.step.Start? {
        WithinKeepsTracked(w, e.id, e.step);
      }
    } else if e.Deregister? || e.StopAll? {
      BooksKeepTracked(w, e);
    } else {
      StopEventKeepsTracked(w, e);
    }
  }

  /** A start is the only event that can break the rule, and it does so exactly over a hidden active session. */
  lemma RuleBreaksExactlyWhen(w: World, e: Event)
    requires Tracked(w) && OnePerCamera(w)
    ensures OnePerCamera(Happen(w, e)) <==> !(Admits(w, e) && HiddenActive(w, e.cameraId))
  {
    var w' := Happen(w, e);
    HappenKeepsTracked(w, e);
    if Admits(w, e) {
      assert Active(w', e.id);
      forall i | i != e.id
        ensures Active(w', i) <==> Active(w, i)
        ensures Active(w, i) ==> w'.all[i].cameraId == w.all[i].cameraId
      {
      }
      if HiddenActive(w, e.cameraId) {
        var id :| id in w.orphaned && ActiveOn(w, id, e.cameraId);
        assert Active(w', id) && id != e.id && w'.all[id].cameraId == w'.all[e.id].cameraId;
      }
    } else {
      forall i | Active(w', i)
        ensures Active(w, i)
      {
        if !Active(w, i) {
          ActivatedOnlyByStart(w, e, i);
        }
      }
    }
  }

  ghost predicate RuleAlways(w: World, events: seq<Event>)
    decreases |events|
  {
    OnePerCamera(w) && (events != [] ==> RuleAlways(Happen(w, events[0]), events[1..]))
  }

  /** No start is admitted while `stop_all` still owes an active session of that camera its first turn. */
  ghost predicate NoStartOverHidden(w: World, events: seq<Event>)
    decreases |events|
  {
    events != [] ==>
      && !(Admits(w, events[0]) && HiddenActive(w, events[0].cameraId))
      && NoStartOverHidden(Happen(w, events[0]), events[1..])
  }

  /**
    Over every interleaving of starts, stops, shutdowns and anything any session does,
    one active session per camera holds throughout exactly when no start slips in between
    `stop_all` emptying the dictionary and the old session's `stop` beginning.
  */
  lemma {:induction false} OneSessionPerCameraIff(w: World, events: seq<Event>)
    requires Tracked(w) && OnePerCamera(w)
    ensures RuleAlways(w, events) <==> NoStartOverHidden(w, events)
    decreases |events|
  {
    if events != [] {
      var w' := Happen(w, events[0]);
      RuleBreaksExactlyWhen(w, events[0]);
      HappenKeepsTracked(w, events[0]);
      if OnePerCamera(w') {
        OneSessionPerCameraIff(w', events[1..]);
      }
    }
  }

  lemma {:induction false} NothingHiddenWithoutShutdown(w: World, events: seq<Event>)
    requires w.orphaned == {}
    requires forall i :: 0 <= i < |events| ==> !events[i].StopAll?
    ensures NoStartOverHidden(w, events)
    decreases |events|
  {
    if events != [] {
      NothingHiddenWithoutShutdown(Happen(w, events[0]), events[1..]);
    }
  }

  /** In particular the rule holds over every run without a shutdown. */
  lemma OneSessionPerCamera(events: seq<Event>)
    requires forall i :: 0 <= i < |events| ==> !events[i].StopAll?
    ensures RuleAlways(EMPTY_WORLD, events)
  {
    NothingHiddenWithoutShutdown(EMPTY_WORLD, events);
    OneSessionPerCameraIff(EMPTY_WORLD, events);
  }

  /** The window is real: start, shutdown, start again before the shutdown's tasks run. */
  lemma ShutdownWindow(a: SessionId, b: SessionId, cameraId: string)
    requires a != b
    ensures
      var events := [StartSession(a, cameraId, "t", 8, 0), StopAll, StartSession(b, cameraId, "t", 8, 0)];
      var w := History(EMPTY_WORLD, events);
      ActiveOn(w, a, cameraId) && ActiveOn(w, b, cameraId)
  {
    var e0, e2 := StartSession(a, cameraId, "t", 8, 0), StartSession(b, cameraId, "t", 8, 0);
    var w1 := Happen(EMPTY_WORLD, e0);
    var w2 := Happen(w1, StopAll);
    var w3 := Happen(w2, e2);
    var events := [e0, StopAll, e2];
    assert Admits(EMPTY_WORLD, e0);
    assert ActiveOn(w1, a, cameraId);
    assert Admits(w2, e2);
    assert events[1..] == [StopAll, e2] && [StopAll, e2][1..] == [e2] && [e2][1..] == [];
    assert History(w3, []) == w3;
    assert History(w2, [e2]) == w3;
    assert History(w1, [StopAll, e2]) == w3;
  }

  /** The dictionary and its lock-protected operations, as `LiveRuntime` performs them. */
  class LiveRuntime {
    var sessions: seq<SessionId>
    var objects: map<SessionId, Entry>
    var orphans: set<SessionId>

    ghost function View(): World
      reads this
    {
      World(objects, (set id | id in sessions), orphans)
    }

    ghost predicate Valid()
      reads this
    {
      Tracked(View())
    }

    constructor ()
      ensures Valid() && View() == EMPTY_WORLD
    {
      sessions, objects, orphans := [], map[], {};
      new;
      assert View() == EMPTY_WORLD;
    }

    /** `_start`: scan the dictionary, refuse a second active session, else register and run. */
    method StartOn(id: SessionId, cameraId: string, tenantId: string, capacity: nat, intervalNs: nat)
      returns (r: Result<SessionId, SessionId>)
      requires Valid() && id !in objects && capacity >= 1
      modifies this
      ensures Valid() && View() == Happen(old(View()), StartSession(id, cameraId, tenantId, capacity, intervalNs))
      ensures r.Err? <==> Occupied(old(View()), cameraId)
      ensures r.Err? ==> r.error in old(sessions) && ActiveOn(old(View()), r.error, cameraId)
      ensures r.Ok? ==> r.value == id && ActiveOn(View(), id, cameraId)
    {
      ghost var before := View();
      ghost var e := StartSession(id, cameraId, tenantId, capacity, intervalNs);
      HappenKeepsTracked(before, e);
      for i := 0 to |sessions|
        invariant forall k :: 0 <= k < i ==> !ActiveOn(before, sessions[k], cameraId)
        invariant View() == before
      {
        var other := sessions[i];
        assert other in before.registered;
        if objects[other].cameraId == cameraId && objects[other].session.state.IsActive() {
          assert ActiveOn(before, other, cameraId);
          return Err(other);
        }
      }
      assert !Occupied(before, cameraId);
      objects := objects[id := Entry(cameraId, tenantId, Started(NewSession(capacity, intervalNs)))];
      sessions := sessions + [id];
      assert View() == Happen(before, e);
      return Ok(id);
    }

    /** `stop` up to its first await; unknown and foreign sessions are both "no such session". */
    method Stop(id: SessionId, tenantId: string) returns (found: bool)
      requires Valid()
      modifies this
      ensures Valid() && View() == Happen(old(View()), StopSession(id, tenantId))
      ensures found <==> id in old(sessions) && old(objects)[id].tenantId == tenantId
      ensures found ==> !Active(View(), id)
    {
      HappenKeepsTracked(View(), StopSession(id, tenantId));
      if id !in sessions || objects[id].tenantId != tenantId {
        return false;
      }
      StopDeactivates(objects[id].session);
      objects := objects[id := objects[id].(session := StopBegun(objects[id].session))];
      return true;
    }

    /** `stop_all` up to its await: the dictionary is emptied before any session is told. */
    method ShutDown()
      requires Valid()
      modifies this
      ensures Valid() && View() == Happen(old(View()), StopAll)
      ensures sessions == []
    {
      HappenKeepsTracked(View(), StopAll);
      orphans := orphans + (set id | id in sessions);
      sessions := [];
    }
  }
}
