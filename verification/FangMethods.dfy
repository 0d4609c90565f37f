/** The registry, the shared child trackers and a termination, as they are changed in place. */
module FangMethods {
  import opened Basics
  import opened Fangs

  /** The tracker a listener and the registry share. */
  class FangCancellation {
    var accepting: bool
    var handles: set<Task>

    ghost function Contents(): Tracker
      reads this
    {
      Tracker(accepting, handles)
    }

    constructor ()
      ensures Contents() == Tracker(true, {})
    {
      accepting, handles := true, {};
    }

    /** A running listener's spawn is the Spawn step on this tracker. */
    method SpawnChild(ghost s: State, ghost fang: Fang, running: set<Task>, child: Task) returns (ok: bool)
      requires fang in s.trackers && s.trackers[fang] == Contents()
      requires fang in s.listener && s.listener[fang] in s.running && running == s.running && child == s.next
      modifies this
      ensures ok == StepSpawn(s, fang).1
      ensures fang in StepSpawn(s, fang).0.trackers && Contents() == StepSpawn(s, fang).0.trackers[fang]
    {
      if !accepting {
        return false;
      }
      handles := set t | t in handles && t in running;
      handles := handles + {child};
      return true;
    }

    method CloseAdmission()
      modifies this`accepting
      ensures Contents() == old(Contents()).(accepting := false)
    {
      accepting := false;
    }

    method TakeChildren() returns (taken: set<Task>)
      modifies this`handles
      ensures taken == old(handles) && Contents() == old(Contents()).(handles := {})
    {
      taken := handles;
      handles := {};
    }
  }

  /** `n` turns of termination `k` in a row. */
  ghost function Turned(s: State, k: nat, n: nat): State {
    if n == 0 then s else StepProceed(Turned(s, k, n - 1), k)
  }

  function CountIn(ids: seq<Id>, names: set<Id>): nat {
    if ids == [] then 0 else CountIn(ids[..|ids| - 1], names) + if ids[|ids| - 1] in names then 1 else 0
  }

  /** The records whose name is not among `ids`, in their order. */
  function Retained(records: seq<Id>, ids: seq<Id>): (r: seq<Id>)
    ensures forall id :: id in r <==> id in records && id !in ids
  {
    if records == [] then []
    else
      var rest := Retained(records[..|records| - 1], ids);
      assert records == records[..|records| - 1] + [records[|records| - 1]];
      if records[|records| - 1] in ids then rest else rest + [records[|records| - 1]]
  }

  method Retain(records: seq<Id>, ids: seq<Id>) returns (r: seq<Id>)
    ensures r == Retained(records, ids)
  {
    r := [];
    for i := 0 to |records|
      invariant r == Retained(records[..i], ids)
    {
      assert records[..i + 1][..i] == records[..i];
      if records[i] !in ids {
        r := r + [records[i]];
      }
    }
    assert records[..|records|] == records;
  }

  /** The part of a map under the names in `names`. */
  function Kept<V>(m: map<Id, V>, names: set<Id>): map<Id, V> {
    map id | id in m && id in names :: m[id]
  }

  lemma {:induction false} KeptOneMore<V>(m: map<Id, V>, names: set<Id>, id: Id)
    ensures Kept(m, names + {id}) == if id in m then Kept(m, names)[id := m[id]] else Kept(m, names)
    ensures id in names ==> Kept(m, names + {id}) == Kept(m, names)
    ensures m - (names + {id}) == (m - names) - {id}
  {
    if id in names {
      assert names + {id} == names;
    }
  }

  lemma {:induction false} KeptNone<V>(m: map<Id, V>)
    ensures Kept(m, {}) == map[] && m - {} == m
  {
  }

  /** Every Fang has a tracker of its own. */
  ghost predicate Apart(cancellations: map<Id, FangCancellation>) {
    forall a, b :: a in cancellations && b in cancellations && a != b ==> cancellations[a] != cancellations[b]
  }

  lemma {:induction false} ApartWithout(m: map<Id, FangCancellation>, names: set<Id>)
    requires Apart(m)
    ensures Apart(m - names)
  {
  }

  lemma {:induction false} NotAmong(m: map<Id, FangCancellation>, names: set<Id>, id: Id)
    requires Apart(m) && id in m && id in names
    ensures m[id] !in (m - names).Values
  {
  }

  lemma {:induction false} NoElems(ids: seq<Id>)
    ensures Elems(ids[..0]) == {} && forall names :: CountIn(ids[..0], names) == 0
  {
  }

  lemma {:induction false} OneMoreName(ids: seq<Id>, i: nat, names: set<Id>)
    requires i < |ids|
    ensures Elems(ids[..i + 1]) == Elems(ids[..i]) + {ids[i]}
    ensures CountIn(ids[..i + 1], names) == CountIn(ids[..i], names) + if ids[i] in names then 1 else 0
  {
    assert ids[..i + 1] == ids[..i] + [ids[i]] && ids[..i + 1][..i] == ids[..i];
    ElemsOfAppend(ids[..i], ids[i]);
  }

  class FangRegistry {
    /** The names of the records, in order. */
    var records: seq<Id>
    var cancellations: map<Id, FangCancellation>
    var tasks: map<Id, Task>

    /** The maps hold, name by name, the tracker and the listener of the Fang that `s` has there. */
    ghost predicate Represents(s: State)
      reads this, cancellations.Values
    {
      && cancellations.Keys == tasks.Keys == s.registry.Keys
      && Apart(cancellations)
      && forall id :: id in cancellations ==> Stands(s, id, cancellations[id].Contents(), tasks[id])
    }

    constructor ()
      ensures Represents(INITIAL) && records == []
    {
      records, cancellations, tasks := [], map[], map[];
    }

    /** One name: its shared tracker is closed and the registry lets go of it. */
    method CloseName(id: Id) returns (tracker: Option<FangCancellation>, listener: Option<Task>)
      requires Apart(cancellations)
      modifies this`cancellations, this`tasks, cancellations.Values`accepting
      ensures cancellations == old(cancellations) - {id} && tasks == old(tasks) - {id}
      ensures tracker == if id in old(cancellations) then Some(old(cancellations)[id]) else None
      ensures listener == if id in old(tasks) then Some(old(tasks)[id]) else None
      ensures forall i :: i in old(cancellations) ==>
        old(cancellations)[i].accepting == (old(cancellations[i].accepting) && i != id)
    {
      tracker, listener := None, None;
      if id in cancellations {
        cancellations[id].CloseAdmission();
        tracker := Some(cancellations[id]);
        cancellations := cancellations - {id};
      }
      if id in tasks {
        listener := Some(tasks[id]);
        tasks := tasks - {id};
      }
    }

    /** The loop over the names: every shared tracker named is closed and handed over with its listener, and
        every name that has a record is counted. */
    method CloseNames(ids: seq<Id>) returns (handed: map<Id, FangCancellation>, listeners: map<Id, Task>, closed: nat)
      requires Apart(cancellations)
      modifies this`cancellations, this`tasks, cancellations.Values`accepting
      ensures cancellations == old(cancellations) - Elems(ids) && tasks == old(tasks) - Elems(ids)
      ensures forall id :: id in old(cancellations) ==>
        old(cancellations)[id].accepting == (old(cancellations[id].accepting) && id !in Elems(ids))
      ensures handed == Kept(old(cancellations), Elems(ids)) && listeners == Kept(old(tasks), Elems(ids))
      ensures closed == CountIn(ids, Elems(records))
    {
      hide Kept;
      hide Apart;
      hide CountIn;
      handed, listeners, closed := map[], map[], 0;
      ghost var before, jobs := cancellations, tasks;
      ghost var names := Elems(records);
      assert forall id :: id in names <==> id in records;
      hide Elems;
      ghost var done: set<Id> := {};
      var i := 0;
      NoElems(ids);
      KeptNone(before);
      KeptNone(jobs);
      while i < |ids|
        invariant i <= |ids| && done == Elems(ids[..i])
        invariant cancellations == before - done && tasks == jobs - done
        invariant forall id :: id in before ==> before[id].accepting == (old(before[id].accepting) && id !in done)
        invariant handed == Kept(before, done) && listeners == Kept(jobs, done)
        invariant closed == CountIn(ids[..i], names)
      {
        var id := ids[i];
        OneMoreName(ids, i, names);
        KeptOneMore(before, done, id);
        KeptOneMore(jobs, done, id);
        if id in records {
          closed := closed + 1;
        }
        forall n | n in before && n in done ensures before[n] !in cancellations.Values {
          NotAmong(before, done, n);
        }
        ApartWithout(before, done);
        assert cancellations.Values <= before.Values;
        ghost var here := cancellations;
        var tracker, listener := CloseName(id);
        forall n | n in before ensures before[n].accepting == (old(before[n].accepting) && n !in done + {id}) {
          if n !in done {
            assert n in here && here[n] == before[n];
          }
        }
        if tracker.Some? {
          handed := handed[id := tracker.value];
        }
        if listener.Some? {
          listeners := listeners[id := listener.value];
        }
        done := done + {id};
        i := i + 1;
      }
      assert ids[..|ids|] == ids;
    }

    /** Detaches the named Fangs: every shared tracker, named or not, then stands as the model's does after
        the same turns; what is handed over is exactly the named Fangs' trackers and listeners. */
    method DetachIds(ghost s: State, ids: seq<Id>)
      returns (handed: map<Id, FangCancellation>, listeners: map<Id, Task>, closed: nat)
      requires Inv(s) && Represents(s)
      modifies this, cancellations.Values`accepting
      ensures cancellations.Keys == tasks.Keys == Closing(s, ids).registry.Keys
      ensures forall id :: id in old(cancellations) ==>
        Stands(Closing(s, ids).(registry := s.registry), id, old(cancellations)[id].Contents(), old(tasks)[id])
      ensures handed == Kept(old(cancellations), Elems(ids)) && listeners == Kept(old(tasks), Elems(ids))
      ensures closed == CountIn(ids, Elems(old(records))) && records == Retained(old(records), ids)
    {
      hide Closing;
      hide Elems;
      hide Kept;
      hide Inv;
      hide Retained;
      hide CountIn;
      ghost var before, jobs := cancellations, tasks;
      handed, listeners, closed := CloseNames(ids);
      records := Retain(records, ids);
      InvKnows(s);
      hide Known;
      ClosingStands(s, ids);
      forall id | id in before
        ensures Stands(Closing(s, ids).(registry := s.registry), id, before[id].Contents(), jobs[id])
      {
        StandsAfter(s, ids, id, old(before[id].Contents()), jobs[id]);
      }
    }
  }

  /** The Fang that `s` has under `id` has this tracker and this listener. */
  ghost predicate Stands(s: State, id: Id, tracker: Tracker, listener: Task) {
    && id in s.registry && s.registry[id] in s.trackers && s.registry[id] in s.listener
    && tracker == s.trackers[s.registry[id]] && listener == s.listener[s.registry[id]]
  }

  lemma {:induction false} ClosingStands(s: State, ids: seq<Id>)
    requires Known(s)
    ensures Closing(s, ids).registry == s.registry - Elems(ids)
  {
    ClosingTrackers(s, ids);
  }

  lemma {:induction false} StandsAfter(s: State, ids: seq<Id>, id: Id, tracker: Tracker, listener: Task)
    requires Known(s) && Stands(s, id, tracker, listener)
    ensures Stands(Closing(s, ids).(registry := s.registry), id,
      tracker.(accepting := tracker.accepting && id !in Elems(ids)), listener)
  {
    ClosingTrackers(s, ids);
    hide Closing;
    hide Elems;
  }

  lemma {:induction false} InvKnows(s: State)
    requires Inv(s)
    ensures Known(s)
  {
  }

  /** The model after a close of `ids` has taken all its detaching turns. */
  ghost function Closing(s: State, ids: seq<Id>): State {
    Turned(Step(s, Close(ids)), |s.terminations|, |ids|)
  }

  lemma {:induction false} DetachTurn(s: State, k: nat)
    requires k < |s.terminations| && s.terminations[k].phase.Detaching? && s.terminations[k].phase.todo != []
    ensures StepProceed(s, k) ==
      InPhase(DetachOne(s, k, s.terminations[k].phase.todo[0]), k, Detaching(s.terminations[k].phase.todo[1..]))
  {
  }

  /** The state `r` is `s` with a close under way that has detached the names in `done`. */
  ghost predicate Detaches(s: State, r: State, done: set<Id>, todo: seq<Id>) {
    && r.registry == s.registry - done
    && r.listener == s.listener && r.running == s.running && r.parent == s.parent && r.next == s.next
    && r.dropped == s.dropped && r.told == s.told
    && TrackersAfter(s, r.trackers, done)
    && r.terminations == s.terminations + [Termination(Detaching(todo), {})]
  }

  ghost predicate TrackerAfter(s: State, trackers: map<Fang, Tracker>, done: set<Id>, id: Id)
    requires id in s.registry && s.registry[id] in s.trackers && s.registry[id] in trackers
  {
    var before := s.trackers[s.registry[id]];
    trackers[s.registry[id]] == if id in done then before.(accepting := false) else before
  }

  lemma {:induction false} DetachOneShape(r: State, k: nat, id: Id)
    requires id in r.registry && r.registry[id] in r.trackers
    ensures var d, fang := DetachOne(r, k, id), r.registry[id];
      && d.registry == r.registry - {id}
      && d.trackers == r.trackers[fang := r.trackers[fang].(accepting := false)]
      && d == r.(registry := d.registry, trackers := d.trackers, owner := d.owner)
  {
  }

  lemma {:induction false} TrackersOneMore(
      s: State, trackers: map<Fang, Tracker>, trackers': map<Fang, Tracker>, done: set<Id>, id: Id)
    requires Known(s) && id in s.registry && TrackersAfter(s, trackers, done)
    requires trackers' == trackers[s.registry[id] := trackers[s.registry[id]].(accepting := false)]
    ensures TrackersAfter(s, trackers', done + {id})
  {
    assert s.registry[id] in s.registry.Values;
    forall i | i in s.registry && s.registry[i] in s.trackers ensures TrackerAfter(s, trackers', done + {id}, i) {
      assert TrackerAfter(s, trackers, done, i);
    }
  }

  lemma {:induction false} TrackersSame(s: State, trackers: map<Fang, Tracker>, done: set<Id>, id: Id)
    requires TrackersAfter(s, trackers, done) && (id in s.registry ==> id in done)
    ensures TrackersAfter(s, trackers, done + {id})
  {
    forall i | i in s.registry && s.registry[i] in s.trackers ensures TrackerAfter(s, trackers, done + {id}, i) {
      assert TrackerAfter(s, trackers, done, i);
    }
  }

  ghost predicate TrackersAfter(s: State, trackers: map<Fang, Tracker>, done: set<Id>) {
    && trackers.Keys == s.trackers.Keys
    && (forall id :: id in s.registry && s.registry[id] in s.trackers ==> TrackerAfter(s, trackers, done, id))
    && (forall f :: f in s.trackers && f !in s.registry.Values ==> trackers[f] == s.trackers[f])
  }

  lemma {:induction false} DetachesPresent(s: State, r: State, done: set<Id>, todo: seq<Id>, id: Id)
    requires Known(s) && Detaches(s, r, done, todo) && id in r.registry
    ensures Detaches(s, DetachOne(r, |s.terminations|, id), done + {id}, todo)
  {
    var k := |s.terminations|;
    var d := DetachOne(r, k, id);
    KeptOneMore(s.registry, done, id);
    assert s.registry[id] in s.trackers && s.registry[id] in s.registry.Values;
    DetachOneShape(r, k, id);
    TrackersOneMore(s, r.trackers, d.trackers, done, id);
    hide Kept;
    hide DetachOne;
    hide TrackersAfter;
    hide Known;
  }

  lemma {:induction false} DetachesAbsent(s: State, r: State, done: set<Id>, todo: seq<Id>, id: Id)
    requires Detaches(s, r, done, todo) && id !in r.registry
    ensures Detaches(s, DetachOne(r, |s.terminations|, id), done + {id}, todo)
  {
    KeptOneMore(s.registry, done, id);
    TrackersSame(s, r.trackers, done, id);
    hide Kept;
    hide TrackersAfter;
  }

  /** One detachment, seen from the state before the close. */
  lemma {:induction false} DetachesOneMore(s: State, r: State, done: set<Id>, todo: seq<Id>)
    requires Known(s) && todo != [] && Detaches(s, r, done, todo)
    ensures Detaches(s, InPhase(DetachOne(r, |s.terminations|, todo[0]), |s.terminations|, Detaching(todo[1..])),
      done + {todo[0]}, todo[1..])
  {
    if todo[0] in r.registry {
      DetachesPresent(s, r, done, todo, todo[0]);
    } else {
      DetachesAbsent(s, r, done, todo, todo[0]);
    }
    hide DetachOne;
    hide TrackersAfter;
    hide Known;
  }

  lemma {:induction false} TurnsDetach(s: State, ids: seq<Id>, n: nat)
    requires Known(s) && n <= |ids|
    ensures Detaches(s, Turned(Step(s, Close(ids)), |s.terminations|, n), Elems(ids[..n]), ids[n..])
  {
    if n == 0 {
      NoElems(ids);
      assert ids[0..] == ids;
      hide Elems;
    } else {
      TurnsDetach(s, ids, n - 1);
      var r := Turned(Step(s, Close(ids)), |s.terminations|, n - 1);
      assert ids[n - 1..][0] == ids[n - 1] && ids[n - 1..][1..] == ids[n..];
      assert r.terminations[|s.terminations|].phase == Detaching(ids[n - 1..]);
      DetachTurn(r, |s.terminations|);
      OneMoreName(ids, n - 1, {});
      DetachesOneMore(s, r, Elems(ids[..n - 1]), ids[n - 1..]);
      hide Detaches;
      hide StepProceed;
      hide Elems;
    }
  }

  /** Detaching a list closes exactly the named Fangs' trackers, with their children untouched, and leaves
      every other Fang and every task alone. */
  lemma {:induction false} ClosingDetaches(s: State, ids: seq<Id>)
    requires Known(s)
    ensures Detaches(s, Closing(s, ids), Elems(ids), [])
  {
    assert ids[..|ids|] == ids && ids[|ids|..] == [];
    TurnsDetach(s, ids, |ids|);
  }

  lemma {:induction false} ClosingTrackers(s: State, ids: seq<Id>)
    requires Known(s)
    ensures var r := Closing(s, ids);
      && r.registry == s.registry - Elems(ids) && r.listener == s.listener
      && (forall id :: id in s.registry ==>
            && s.registry[id] in s.trackers && s.registry[id] in r.trackers
            && r.trackers[s.registry[id]] ==
                 s.trackers[s.registry[id]].(accepting := s.trackers[s.registry[id]].accepting && id !in Elems(ids)))
  {
    ClosingDetaches(s, ids);
    hide Closing;
    hide Elems;
    var r := Closing(s, ids);
    forall id | id in s.registry
      ensures
        && s.registry[id] in s.trackers && s.registry[id] in r.trackers
        && r.trackers[s.registry[id]] ==
             s.trackers[s.registry[id]].(accepting := s.trackers[s.registry[id]].accepting && id !in Elems(ids))
    {
      assert TrackerAfter(s, r.trackers, Elems(ids), id);
    }
  }

  /** Takes the children out of every tracker handed over: exactly those the model's Taking step takes. */
  method TakeAll(ghost s: State, ghost k: nat, ghost fangs: map<Id, Fang>, handed: map<Id, FangCancellation>)
    returns (children: set<Task>)
    requires k < |s.terminations| && fangs.Keys == handed.Keys
    requires Apart(handed)
    requires forall id :: id in handed ==> fangs[id] in s.trackers && handed[id].Contents() == s.trackers[fangs[id]]
    requires Detached(s, k) == fangs.Values
    modifies handed.Values
    ensures children == ChildrenOf(s, k)
    ensures forall id :: id in handed ==>
      fangs[id] in StepTake(s, k).trackers && handed[id].Contents() == StepTake(s, k).trackers[fangs[id]]
  {
    children := {};
    var todo := handed.Keys;
    while todo != {}
      invariant todo <= handed.Keys
      invariant forall id :: id in todo ==> handed[id].Contents() == s.trackers[fangs[id]]
      invariant forall id :: id in handed && id !in todo ==>
        handed[id].Contents() == s.trackers[fangs[id]].(handles := {}) && s.trackers[fangs[id]].handles <= children
      invariant forall t :: t in children ==> exists id :: id in handed && t in s.trackers[fangs[id]].handles
      decreases todo
    {
      var id :| id in todo;
      var taken := handed[id].TakeChildren();
      children := children + taken;
      todo := todo - {id};
    }
    TakenIsAll(s, k, fangs, children);
  }

  lemma {:induction false} TakenIsAll(s: State, k: nat, fangs: map<Id, Fang>, children: set<Task>)
    requires forall id :: id in fangs ==> fangs[id] in s.trackers && s.trackers[fangs[id]].handles <= children
    requires forall t :: t in children ==> exists id :: id in fangs && t in s.trackers[fangs[id]].handles
    requires Detached(s, k) == fangs.Values
    ensures children == ChildrenOf(s, k)
  {
    forall t | t in children ensures t in ChildrenOf(s, k) {
      var id :| id in fangs && t in s.trackers[fangs[id]].handles;
      assert fangs[id] in fangs.Values;
    }
    forall t | t in ChildrenOf(s, k) ensures t in children {
      var f :| f in Detached(s, k) && f in s.trackers && t in s.trackers[f].handles;
      assert f in fangs.Values;
    }
  }
}
