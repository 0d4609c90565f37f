/** Closing Fangs while their listeners are still spawning: any number of detachments and quiescence
    barriers, interleaved with each other and with everything the Fangs do. */
module Fangs {
  type Id = string
  type Task = nat
  /** One opening of a Fang; a name may be opened again once it is closed. */
  type Fang = nat

  /** A Fang's shared child tracker. It outlives the registry entry: the listener holds it too. */
  datatype Tracker = Tracker(accepting: bool, handles: set<Task>)

  /** Where one termination stands. */
  datatype Phase =
    | Detaching(todo: seq<Id>)
    | AwaitingListeners(listeners: set<Task>)
    | Taking
    | AwaitingChildren
    | Quiesced

  datatype Termination = Termination(phase: Phase, children: set<Task>)

  /** `listener` and `parent` record, for every Fang and child ever started, who belongs to whom; `owner` the
      termination that detached a Fang; `dropped` the Fangs closed without one, and `told` their tasks, which
      have been told to stop. */
  datatype State = State(
    registry: map<Id, Fang>,
    trackers: map<Fang, Tracker>,
    listener: map<Fang, Task>,
    parent: map<Task, Fang>,
    running: set<Task>,
    next: Task,
    owner: map<Fang, nat>,
    terminations: seq<Termination>,
    dropped: set<Fang>,
    told: set<Task>)

  const INITIAL := State(map[], map[], map[], map[], {}, 0, map[], [], {}, {})

  datatype Action =
    | Open(id: Id)
    | Spawn(fang: Fang)
    | Stop(task: Task)
    | Close(ids: seq<Id>)
    | Proceed(k: nat)
    | Abandon(ids: seq<Id>)
    | Reap

  /** A Fang is opened under a name not in use; its listener's number names the opening. */
  function StepOpen(s: State, id: Id): State {
    if id in s.registry then s
    else
      s.(registry := s.registry[id := s.next],
         trackers := s.trackers[s.next := Tracker(true, {})],
         listener := s.listener[s.next := s.next],
         running := s.running + {s.next},
         next := s.next + 1)
  }

  function Admitted(t: Tracker, running: set<Task>, child: Task): Tracker {
    Tracker(true, (set h | h in t.handles && h in running) + {child})
  }

  /** A running listener starts a child: refused, or admitted and registered in one step. */
  function StepSpawn(s: State, fang: Fang): (State, bool) {
    if fang !in s.listener || fang !in s.trackers || s.listener[fang] !in s.running || !s.trackers[fang].accepting
    then (s, false)
    else
      (s.(trackers := s.trackers[fang := Admitted(s.trackers[fang], s.running, s.next)],
          parent := s.parent[s.next := fang],
          running := s.running + {s.next},
          next := s.next + 1),
       true)
  }

  /** Detaches the Fang under one name: admission closes, and the registry lets go of it. */
  function DetachOne(s: State, k: nat, id: Id): State {
    if id !in s.registry || s.registry[id] !in s.trackers then s
    else
      var fang := s.registry[id];
      s.(registry := s.registry - {id},
         trackers := s.trackers[fang := s.trackers[fang].(accepting := false)],
         owner := s.owner[fang := k])
  }

  /** The Fangs a termination has detached. */
  function Detached(s: State, k: nat): set<Fang> {
    set fang | fang in s.owner && s.owner[fang] == k
  }

  function ListenersOf(s: State, k: nat): set<Task> {
    set fang | fang in Detached(s, k) && fang in s.listener :: s.listener[fang]
  }

  function ChildrenOf(s: State, k: nat): set<Task> {
    set fang, t | fang in Detached(s, k) && fang in s.trackers && t in s.trackers[fang].handles :: t
  }

  function InPhase(s: State, k: nat, phase: Phase): State
    requires k < |s.terminations|
  {
    s.(terminations := s.terminations[k := s.terminations[k].(phase := phase)])
  }

  function StepTake(s: State, k: nat): State
    requires k < |s.terminations|
  {
    s.(trackers := map fang | fang in s.trackers ::
         if fang in Detached(s, k) then s.trackers[fang].(handles := {}) else s.trackers[fang],
       terminations :=
         s.terminations[k := Termination(AwaitingChildren, s.terminations[k].children + ChildrenOf(s, k))])
  }

  function StepDetach(s: State, k: nat): State
    requires k < |s.terminations| && s.terminations[k].phase.Detaching?
  {
    var todo := s.terminations[k].phase.todo;
    if todo == [] then InPhase(s, k, AwaitingListeners(ListenersOf(s, k)))
    else InPhase(DetachOne(s, k, todo[0]), k, Detaching(todo[1..]))
  }

  function StepListen(s: State, k: nat): State
    requires k < |s.terminations| && s.terminations[k].phase.AwaitingListeners?
  {
    var listeners := s.terminations[k].phase.listeners;
    if listeners == {} then InPhase(s, k, Taking)
    else InPhase(s, k, AwaitingListeners(set t | t in listeners && t in s.running))
  }

  function StepWait(s: State, k: nat): State
    requires k < |s.terminations| && s.terminations[k].phase.AwaitingChildren?
  {
    var children := s.terminations[k].children;
    if children == {} then InPhase(s, k, Quiesced)
    else s.(terminations := s.terminations[k := Termination(AwaitingChildren, set t | t in children && t in s.running)])
  }

  /** A termination's next step; waiting for a task does nothing until it has ended. */
  function StepProceed(s: State, k: nat): State {
    if k >= |s.terminations| then s
    else match s.terminations[k].phase
      case Detaching(_) => StepDetach(s, k)
      case AwaitingListeners(_) => StepListen(s, k)
      case Taking => StepTake(s, k)
      case AwaitingChildren => StepWait(s, k)
      case Quiesced => s
  }

  function FangsOf(s: State, ids: seq<Id>): set<Fang> {
    set id | id in ids && id in s.registry :: s.registry[id]
  }

  function TasksOf(s: State, fangs: set<Fang>): set<Task> {
    (set f | f in fangs && f in s.listener :: s.listener[f])
    + (set f, t | f in fangs && f in s.trackers && t in s.trackers[f].handles :: t)
  }

  /** Closes the named Fangs and tells all their tasks to stop, with nobody waiting for them. */
  function StepAbandon(s: State, ids: seq<Id>): State {
    var fangs := FangsOf(s, ids);
    s.(registry := s.registry - (set id | id in ids),
       trackers := map f | f in s.trackers :: if f in fangs then Tracker(false, {}) else s.trackers[f],
       dropped := s.dropped + fangs,
       told := s.told + TasksOf(s, fangs))
  }

  /** The registry lets go of every Fang whose listener has ended. */
  function StepReap(s: State): State {
    s.(registry := map id |
         id in s.registry && !(s.registry[id] in s.listener && s.listener[s.registry[id]] !in s.running) ::
         s.registry[id])
  }

  /** Closes are numbered as they come. */
  function Step(s: State, a: Action): State {
    match a
    case Open(id) => StepOpen(s, id)
    case Spawn(fang) => StepSpawn(s, fang).0
    case Stop(task) => s.(running := s.running - {task})
    case Close(ids) => s.(terminations := s.terminations + [Termination(Detaching(ids), {})])
    case Proceed(k) => StepProceed(s, k)
    case Abandon(ids) => StepAbandon(s, ids)
    case Reap => StepReap(s)
  }

  ghost function From(s: State, actions: seq<Action>): State {
    if actions == [] then s else Step(From(s, actions[..|actions| - 1]), actions[|actions| - 1])
  }

  // ---------------------------------------------------------------- what every interleaving keeps

  /** Tasks and openings are numbered in order of creation. */
  ghost predicate Numbered(s: State) {
    && (forall fang :: fang in s.listener ==> s.listener[fang] < s.next && fang < s.next)
    && (forall t :: t in s.parent ==> t < s.next)
    && (forall t :: t in s.running ==> t < s.next)
  }

  /** Every opening is under exactly one name, or detached by exactly one termination. */
  ghost predicate Known(s: State) {
    && s.listener.Keys == s.trackers.Keys
    && (forall id :: id in s.registry ==> s.registry[id] in s.trackers && s.registry[id] !in s.owner)
    && (forall a, b :: a in s.registry && b in s.registry && s.registry[a] == s.registry[b] ==> a == b)
    && (forall fang :: fang in s.owner ==> fang in s.trackers && s.owner[fang] < |s.terminations|)
    && (forall t :: t in s.parent ==> s.parent[t] in s.trackers)
    && (forall fang :: fang in s.dropped ==> fang in s.trackers && fang !in s.owner)
    && (forall id :: id in s.registry ==> s.registry[id] !in s.dropped)
  }

  /** A detached Fang admits no one; a dropped one holds no one either, and its listener is told to stop. */
  ghost predicate Closed(s: State) {
    && (forall fang :: fang in s.owner && fang in s.trackers ==> !s.trackers[fang].accepting)
    && (forall fang :: fang in s.dropped && fang in s.trackers ==> s.trackers[fang] == Tracker(false, {}))
    && (forall fang :: fang in s.dropped && fang in s.listener ==> s.listener[fang] in s.told)
  }

  /** An opened Fang that is no longer in the registry. */
  ghost predicate Gone(s: State, fang: Fang) {
    fang in s.listener && forall id :: id in s.registry ==> s.registry[id] != fang
  }

  /** Whoever is gone can start no one. */
  ghost predicate Mute(s: State) {
    forall fang :: Gone(s, fang) && fang in s.trackers && s.listener[fang] in s.running ==> !s.trackers[fang].accepting
  }

  ghost predicate Held(s: State, t: Task)
    requires t in s.parent
  {
    var fang := s.parent[t];
    || (fang in s.trackers && t in s.trackers[fang].handles)
    || (fang in s.owner && s.owner[fang] < |s.terminations| && t in s.terminations[s.owner[fang]].children)
    || (fang in s.dropped && t in s.told)
  }

  /** Every running child is in its Fang's tracker, in the hands of the termination that detached it, or told
      to stop. */
  ghost predicate Tracked(s: State) {
    forall t :: t in s.parent && t in s.running ==> Held(s, t)
  }

  predicate ListenersEnded(phase: Phase) {
    phase.Taking? || phase.AwaitingChildren? || phase.Quiesced?
  }

  /** What a Fang of termination `k` has been through by the time `k` is in its phase. */
  ghost predicate Awaited(s: State, k: nat, fang: Fang)
    requires k < |s.terminations| && fang in s.listener && fang in s.trackers
  {
    var t := s.terminations[k];
    && (t.phase.AwaitingListeners? && s.listener[fang] in s.running ==> s.listener[fang] in t.phase.listeners)
    && (ListenersEnded(t.phase) ==> s.listener[fang] !in s.running)
    && (t.phase.AwaitingChildren? || t.phase.Quiesced? ==> s.trackers[fang].handles == {})
    && (t.phase.Quiesced? ==> t.children == {})
  }

  ghost predicate AllAwaited(s: State) {
    forall fang :: fang in s.owner && fang in s.listener && fang in s.trackers && s.owner[fang] < |s.terminations| ==>
      Awaited(s, s.owner[fang], fang)
  }

  ghost predicate Inv(s: State) {
    Numbered(s) && Known(s) && Closed(s) && Mute(s) && Tracked(s) && AllAwaited(s)
  }

  /** A step that leaves detached Fangs and their terminations alone leaves their progress alone. */
  lemma {:induction false} OthersLeaveAwaited(s: State, s': State)
    requires AllAwaited(s) && Known(s) && s'.owner == s.owner && s.terminations <= s'.terminations
    requires forall f :: f in s.owner ==>
      && f in s'.listener && f in s'.trackers && s'.listener[f] == s.listener[f] && s'.trackers[f] == s.trackers[f]
      && (s'.listener[f] in s'.running ==> s.listener[f] in s.running)
    ensures AllAwaited(s')
  {
    forall f | f in s'.owner && f in s'.listener && f in s'.trackers && s'.owner[f] < |s'.terminations|
      ensures Awaited(s', s'.owner[f], f)
    {
      assert f in s.listener && f in s.trackers && s.owner[f] < |s.terminations|;
      assert Awaited(s, s.owner[f], f);
    }
  }

  lemma {:induction false} OpenKeepsKnown(s: State, id: Id)
    requires Numbered(s) && Known(s)
    ensures Known(StepOpen(s, id))
  {
    assert s.next !in s.listener;
  }

  lemma {:induction false} OpenKeepsMute(s: State, id: Id)
    requires Numbered(s) && Known(s) && Mute(s)
    ensures Mute(StepOpen(s, id))
  {
    var s' := StepOpen(s, id);
    if id !in s.registry {
      forall f | Gone(s', f) && f in s'.trackers && s'.listener[f] in s'.running ensures !s'.trackers[f].accepting {
        assert id in s'.registry && s'.registry[id] == s.next;
        assert f != s.next && s'.listener[f] != s.next;
        assert forall i :: i in s.registry ==> i in s'.registry && s'.registry[i] == s.registry[i];
        assert Gone(s, f);
      }
    }
  }

  lemma {:induction false} OpenKeepsClosed(s: State, id: Id)
    requires Numbered(s) && Known(s) && Closed(s)
    ensures Numbered(StepOpen(s, id)) && Closed(StepOpen(s, id))
  {
    assert s.next !in s.listener;
  }

  lemma {:induction false} OpenKeepsTracked(s: State, id: Id)
    requires Numbered(s) && Known(s) && Tracked(s)
    ensures Tracked(StepOpen(s, id))
  {
    var s' := StepOpen(s, id);
    forall t | t in s'.parent && t in s'.running ensures Held(s', t) {
      assert t < s.next && t in s.running;
      assert Held(s, t);
    }
  }

  lemma {:induction false} OpenKeepsAwaited(s: State, id: Id)
    requires Numbered(s) && Known(s) && AllAwaited(s)
    ensures AllAwaited(StepOpen(s, id))
  {
    hide AllAwaited;
    OthersLeaveAwaited(s, StepOpen(s, id));
  }

  lemma {:induction false} OpenKeepsInv(s: State, id: Id)
    requires Inv(s)
    ensures Inv(StepOpen(s, id))
  {
    hide Known;
    hide Closed;
    hide Mute;
    hide Numbered;
    hide Tracked;
    hide AllAwaited;
    hide StepOpen;
    OpenKeepsKnown(s, id);
    OpenKeepsMute(s, id);
    OpenKeepsClosed(s, id);
    OpenKeepsTracked(s, id);
    OpenKeepsAwaited(s, id);
  }

  lemma {:induction false} SpawnKeepsMute(s: State, fang: Fang)
    requires Numbered(s) && Mute(s)
    ensures Mute(StepSpawn(s, fang).0)
  {
    var s' := StepSpawn(s, fang).0;
    if StepSpawn(s, fang).1 {
      forall f | Gone(s', f) && f in s'.trackers && s'.listener[f] in s'.running ensures !s'.trackers[f].accepting {
        assert Gone(s, f) && s.listener[f] != s.next;
      }
    }
  }

  lemma {:induction false} SpawnKeepsKnown(s: State, fang: Fang)
    requires Numbered(s) && Known(s) && Closed(s)
    ensures var s' := StepSpawn(s, fang).0; Numbered(s') && Known(s') && Closed(s')
  {
    if StepSpawn(s, fang).1 {
      assert fang !in s.owner && fang !in s.dropped;
    }
  }

  lemma {:induction false} SpawnKeepsTracked(s: State, fang: Fang)
    requires Numbered(s) && Tracked(s)
    ensures Tracked(StepSpawn(s, fang).0)
  {
    var s' := StepSpawn(s, fang).0;
    if StepSpawn(s, fang).1 {
      forall t | t in s'.parent && t in s'.running ensures Held(s', t) {
        if t != s.next {
          assert Held(s, t);
        }
      }
    }
  }

  lemma {:induction false} SpawnKeepsAwaited(s: State, fang: Fang)
    requires Numbered(s) && Known(s) && Closed(s) && AllAwaited(s)
    ensures AllAwaited(StepSpawn(s, fang).0)
  {
    hide AllAwaited;
    if StepSpawn(s, fang).1 {
      assert fang !in s.owner;
      OthersLeaveAwaited(s, StepSpawn(s, fang).0);
    }
  }

  lemma {:induction false} SpawnKeepsInv(s: State, fang: Fang)
    requires Inv(s)
    ensures Inv(StepSpawn(s, fang).0)
  {
    hide Known;
    hide Closed;
    hide Mute;
    hide Numbered;
    hide Tracked;
    hide AllAwaited;
    hide StepSpawn;
    SpawnKeepsKnown(s, fang);
    SpawnKeepsMute(s, fang);
    SpawnKeepsTracked(s, fang);
    SpawnKeepsAwaited(s, fang);
  }

  lemma {:induction false} StopKeepsInv(s: State, task: Task)
    requires Inv(s)
    ensures Inv(Step(s, Stop(task)))
  {
    var s' := Step(s, Stop(task));
    forall t | t in s'.parent && t in s'.running ensures Held(s', t) {
      assert Held(s, t);
    }
    forall f | f in s'.owner && f in s'.listener && f in s'.trackers && s'.owner[f] < |s'.terminations|
      ensures Awaited(s', s'.owner[f], f)
    {
      assert Awaited(s, s.owner[f], f);
    }
  }

  lemma {:induction false} CloseKeepsInv(s: State, ids: seq<Id>)
    requires Inv(s)
    ensures Inv(Step(s, Close(ids)))
  {
    var s' := Step(s, Close(ids));
    forall t | t in s'.parent && t in s'.running ensures Held(s', t) {
      assert Held(s, t);
    }
    forall f | f in s'.owner && f in s'.listener && f in s'.trackers && s'.owner[f] < |s'.terminations|
      ensures Awaited(s', s'.owner[f], f)
    {
      assert Awaited(s, s.owner[f], f);
    }
  }

  lemma {:induction false} AbandonFrame(s: State, ids: seq<Id>)
    requires Known(s)
    ensures var s', fangs := StepAbandon(s, ids), FangsOf(s, ids);
      && s'.trackers.Keys == s.trackers.Keys
      && (forall f :: f in s.trackers ==> s'.trackers[f] == if f in fangs then Tracker(false, {}) else s.trackers[f])
      && (forall f :: f in fangs ==> f in s.trackers && f !in s.owner)
      && (forall id :: id in s'.registry ==>
            id in s.registry && s'.registry[id] == s.registry[id] && s.registry[id] !in fangs)
      && (forall id :: id in s.registry && id !in s'.registry ==> s.registry[id] in fangs)
      && (forall f, t :: f in fangs && f in s.trackers && t in s.trackers[f].handles ==> t in s'.told)
      && (forall f :: f in fangs && f in s.listener ==> s.listener[f] in s'.told)
      && s' == s.(registry := s'.registry, trackers := s'.trackers, told := s'.told, dropped := s.dropped + fangs)
      && s.told <= s'.told
  {
  }

  lemma {:induction false} AbandonKeepsMute(s: State, ids: seq<Id>)
    requires Known(s) && Mute(s)
    ensures Mute(StepAbandon(s, ids))
  {
    AbandonFrame(s, ids);
    var s' := StepAbandon(s, ids);
    hide StepAbandon;
    forall f | Gone(s', f) && f in s'.trackers && s'.listener[f] in s'.running ensures !s'.trackers[f].accepting {
      if !Gone(s, f) {
        var id :| id in s.registry && s.registry[id] == f;
        assert id !in s'.registry;
      }
    }
  }

  lemma {:induction false} AbandonKeepsKnown(s: State, ids: seq<Id>)
    requires Known(s) && Closed(s)
    ensures Known(StepAbandon(s, ids)) && Closed(StepAbandon(s, ids))
  {
    AbandonFrame(s, ids);
    hide StepAbandon;
    hide FangsOf;
  }

  lemma {:induction false} AbandonKeepsTracked(s: State, ids: seq<Id>)
    requires Known(s) && Tracked(s)
    ensures Tracked(StepAbandon(s, ids))
  {
    var s' := StepAbandon(s, ids);
    AbandonFrame(s, ids);
    hide StepAbandon;
    hide FangsOf;
    forall t | t in s'.parent && t in s'.running ensures Held(s', t) {
      assert Held(s, t);
    }
  }

  lemma {:induction false} AbandonKeepsAwaited(s: State, ids: seq<Id>)
    requires Known(s) && AllAwaited(s)
    ensures AllAwaited(StepAbandon(s, ids))
  {
    AbandonFrame(s, ids);
    hide StepAbandon;
    hide FangsOf;
    hide AllAwaited;
    OthersLeaveAwaited(s, StepAbandon(s, ids));
  }

  lemma {:induction false} AbandonKeepsInv(s: State, ids: seq<Id>)
    requires Inv(s)
    ensures Inv(StepAbandon(s, ids))
  {
    assert Numbered(StepAbandon(s, ids)) by {
      AbandonFrame(s, ids);
    }
    hide Known;
    hide Closed;
    hide Mute;
    hide Numbered;
    hide Tracked;
    hide AllAwaited;
    hide StepAbandon;
    AbandonKeepsMute(s, ids);
    AbandonKeepsKnown(s, ids);
    AbandonKeepsTracked(s, ids);
    AbandonKeepsAwaited(s, ids);
  }

  lemma {:induction false} ReapKeepsMute(s: State)
    requires Mute(s)
    ensures Mute(StepReap(s))
  {
    var s' := StepReap(s);
    forall f | Gone(s', f) && f in s'.trackers && s'.listener[f] in s'.running ensures !s'.trackers[f].accepting {
      forall id | id in s.registry ensures s.registry[id] != f {
        if id !in s'.registry {
          assert s.listener[s.registry[id]] !in s.running;
        }
      }
      assert Gone(s, f);
    }
  }

  lemma {:induction false} ReapKeepsTracked(s: State)
    requires Tracked(s)
    ensures Tracked(StepReap(s))
  {
    var s' := StepReap(s);
    forall t | t in s'.parent && t in s'.running ensures Held(s', t) {
      assert Held(s, t);
    }
  }

  lemma {:induction false} ReapKeepsInv(s: State)
    requires Inv(s)
    ensures Inv(StepReap(s))
  {
    var s' := StepReap(s);
    assert Known(s') && Closed(s') && Numbered(s') by {
      hide Mute;
      hide Tracked;
      hide AllAwaited;
    }
    ReapKeepsMute(s);
    ReapKeepsTracked(s);
    hide AllAwaited;
    OthersLeaveAwaited(s, s');
    hide Known;
    hide Closed;
    hide Numbered;
    hide Mute;
    hide Tracked;
  }

  // ---------------------------------------------------------------- what a termination's step may change

  /** Nothing but termination `k` and the Fangs it has detached differs. */
  ghost predicate OnlyOwn(s: State, s': State, k: nat) {
    && s'.listener == s.listener && s'.parent == s.parent && s'.running == s.running && s'.next == s.next
    && s'.dropped == s.dropped && s'.told == s.told
    && |s'.terminations| == |s.terminations|
    && (forall j :: 0 <= j < |s.terminations| && j != k ==> s'.terminations[j] == s.terminations[j])
    && (forall f :: f in s.owner ==> f in s'.owner && s'.owner[f] == s.owner[f])
    && (forall f :: f in s'.owner && f !in s.owner ==> s'.owner[f] == k)
    && s'.trackers.Keys == s.trackers.Keys
    && (forall f :: f in s.trackers ==> SameTracker(s, s', k, f))
    && (forall id :: id in s'.registry ==> id in s.registry && s'.registry[id] == s.registry[id])
    && (forall id :: id in s.registry && id !in s'.registry ==>
          s.registry[id] in s'.owner && s.registry[id] !in s.owner)
  }

  ghost predicate SameTracker(s: State, s': State, k: nat, f: Fang)
    requires f in s.trackers && f in s'.trackers
  {
    || s'.trackers[f] == s.trackers[f]
    || (&& f in s'.owner && s'.owner[f] == k
        && s'.trackers[f].handles <= s.trackers[f].handles && !s'.trackers[f].accepting)
  }

  lemma {:induction false} DetachOnlyOwn(s: State, k: nat, id: Id, rest: seq<Id>)
    requires Known(s) && k < |s.terminations|
    ensures OnlyOwn(s, InPhase(DetachOne(s, k, id), k, Detaching(rest)), k)
  {
  }

  lemma {:induction false} TakeOnlyOwn(s: State, k: nat)
    requires Closed(s) && k < |s.terminations|
    ensures OnlyOwn(s, StepTake(s, k), k)
  {
    hide ChildrenOf;
  }

  lemma {:induction false} EntryOnlyOwn(s: State, k: nat, t: Termination)
    requires k < |s.terminations|
    ensures OnlyOwn(s, s.(terminations := s.terminations[k := t]), k)
  {
  }

  /** A termination changes nothing of other terminations or of Fangs it has not detached, and stops no
      task. */
  lemma {:induction false} OthersUntouched(s: State, k: nat)
    requires Inv(s)
    ensures k < |s.terminations| ==> OnlyOwn(s, StepProceed(s, k), k)
    ensures k >= |s.terminations| ==> StepProceed(s, k) == s
  {
    if k < |s.terminations| {
      var t := s.terminations[k];
      match t.phase
      case Detaching(todo) =>
        if todo == [] {
          EntryOnlyOwn(s, k, t.(phase := AwaitingListeners(ListenersOf(s, k))));
        } else {
          DetachOnlyOwn(s, k, todo[0], todo[1..]);
        }
      case AwaitingListeners(_) => EntryOnlyOwn(s, k, StepListen(s, k).terminations[k]);
      case Taking => TakeOnlyOwn(s, k);
      case AwaitingChildren => EntryOnlyOwn(s, k, StepWait(s, k).terminations[k]);
      case Quiesced => EntryOnlyOwn(s, k, t);
      hide OnlyOwn;
      hide Inv;
    }
  }

  // ---------------------------------------------------------------- terminations keep the books

  lemma {:induction false} OwnKeepsKnown(s: State, s': State, k: nat)
    requires Numbered(s) && Known(s) && Closed(s) && k < |s.terminations| && OnlyOwn(s, s', k)
    requires forall f :: f in s'.owner && f !in s.owner ==>
      f in s.trackers && f !in s.dropped && !s'.trackers[f].accepting
    requires forall id :: id in s'.registry ==> s'.registry[id] !in s'.owner
    ensures Numbered(s') && Known(s') && Closed(s')
  {
    forall f | f in s'.owner && f in s'.trackers ensures !s'.trackers[f].accepting {
      assert f in s.trackers && SameTracker(s, s', k, f);
    }
    forall f | f in s'.dropped && f in s'.trackers ensures s'.trackers[f] == Tracker(false, {}) {
      assert f in s.trackers && SameTracker(s, s', k, f);
    }
  }

  lemma {:induction false} OwnKeepsMute(s: State, s': State, k: nat)
    requires Mute(s) && Closed(s') && Known(s') && OnlyOwn(s, s', k)
    ensures Mute(s')
  {
    forall f | Gone(s', f) && f in s'.trackers && s'.listener[f] in s'.running ensures !s'.trackers[f].accepting {
      assert SameTracker(s, s', k, f);
      if Gone(s, f) {
      } else {
        var id :| id in s.registry && s.registry[id] == f;
        assert id !in s'.registry;
      }
    }
  }

  lemma {:induction false} OthersAwaited(s: State, s': State, k: nat)
    requires AllAwaited(s) && OnlyOwn(s, s', k)
    requires forall f ::
      f in s'.owner && s'.owner[f] == k && k < |s'.terminations| && f in s'.listener && f in s'.trackers ==>
      Awaited(s', k, f)
    ensures AllAwaited(s')
  {
    forall f | f in s'.owner && f in s'.listener && f in s'.trackers && s'.owner[f] < |s'.terminations|
      ensures Awaited(s', s'.owner[f], f)
    {
      if s'.owner[f] != k {
        assert Awaited(s, s.owner[f], f);
        assert SameTracker(s, s', k, f);
      }
    }
  }

  lemma {:induction false} DetachRecords(s: State, k: nat, id: Id, rest: seq<Id>)
    requires Known(s) && k < |s.terminations|
    ensures var s' := InPhase(DetachOne(s, k, id), k, Detaching(rest));
      && (forall f :: f in s'.owner && f !in s.owner ==>
            f in s.trackers && f !in s.dropped && f in s'.trackers && !s'.trackers[f].accepting)
      && (forall i :: i in s'.registry ==> s'.registry[i] !in s'.owner)
      && (forall f :: f in s.trackers ==> f in s'.trackers && s'.trackers[f].handles == s.trackers[f].handles)
      && s'.terminations[k] == s.terminations[k].(phase := Detaching(rest))
  {
  }

  lemma {:induction false} DetachKeepsTracked(s: State, k: nat, id: Id, rest: seq<Id>)
    requires Known(s) && Tracked(s) && k < |s.terminations|
    ensures Tracked(InPhase(DetachOne(s, k, id), k, Detaching(rest)))
  {
    var s' := InPhase(DetachOne(s, k, id), k, Detaching(rest));
    DetachOnlyOwn(s, k, id, rest);
    DetachRecords(s, k, id, rest);
    hide DetachOne;
    hide InPhase;
    forall t | t in s'.parent && t in s'.running ensures Held(s', t) {
      assert Held(s, t);
    }
  }

  lemma {:induction false} DetachKeepsInv(s: State, k: nat, id: Id, rest: seq<Id>)
    requires Inv(s) && k < |s.terminations| && s.terminations[k].phase.Detaching?
    ensures Inv(InPhase(DetachOne(s, k, id), k, Detaching(rest)))
  {
    var s' := InPhase(DetachOne(s, k, id), k, Detaching(rest));
    DetachOnlyOwn(s, k, id, rest);
    DetachRecords(s, k, id, rest);
    hide DetachOne;
    hide InPhase;
    OwnKeepsKnown(s, s', k);
    OwnKeepsMute(s, s', k);
    OthersAwaited(s, s', k);
    hide Numbered;
    hide Known;
    hide Closed;
    hide Mute;
    hide AllAwaited;
    hide OnlyOwn;
    DetachKeepsTracked(s, k, id, rest);
  }

  /** Moving on between phases, with the Fangs as they are. */
  lemma {:induction false} PhaseKeepsInv(s: State, k: nat, t': Termination)
    requires Inv(s) && k < |s.terminations|
    requires forall t :: t in s.terminations[k].children && t in s.running ==> t in t'.children
    requires var s' := s.(terminations := s.terminations[k := t']);
      forall f :: f in Detached(s, k) && f in s.listener && f in s.trackers ==> Awaited(s', k, f)
    ensures Inv(s.(terminations := s.terminations[k := t']))
  {
    var s' := s.(terminations := s.terminations[k := t']);
    EntryOnlyOwn(s, k, t');
    assert forall f :: f in s.owner && s.owner[f] == k ==> f in Detached(s, k);
    OthersAwaited(s, s', k);
    hide AllAwaited;
    hide OnlyOwn;
    forall t | t in s'.parent && t in s'.running ensures Held(s', t) {
      assert Held(s, t);
    }
  }

  lemma {:induction false} TakeKeepsInv(s: State, k: nat)
    requires Inv(s) && k < |s.terminations| && s.terminations[k].phase.Taking?
    ensures Inv(StepTake(s, k))
  {
    var s' := StepTake(s, k);
    TakeOnlyOwn(s, k);
    OwnKeepsKnown(s, s', k);
    OwnKeepsMute(s, s', k);
    forall f | f in s'.owner && s'.owner[f] == k && f in s'.listener && f in s'.trackers ensures Awaited(s', k, f) {
      assert Awaited(s, k, f);
    }
    OthersAwaited(s, s', k);
    hide AllAwaited;
    hide OnlyOwn;
    forall t | t in s'.parent && t in s'.running ensures Held(s', t) {
      assert Held(s, t);
      var fang := s.parent[t];
      if fang in Detached(s, k) && t in s.trackers[fang].handles {
        assert t in ChildrenOf(s, k);
      }
    }
  }

  lemma {:induction false} ListeningKeepsInv(s: State, k: nat)
    requires Inv(s) && k < |s.terminations|
    requires s.terminations[k].phase == Detaching([]) || s.terminations[k].phase.AwaitingListeners?
    ensures Inv(StepProceed(s, k))
  {
    hide Numbered;
    hide Known;
    hide Closed;
    hide Tracked;
    var t' := StepProceed(s, k).terminations[k];
    var s' := s.(terminations := s.terminations[k := t']);
    assert StepProceed(s, k) == s';
    forall f | f in Detached(s, k) && f in s.listener && f in s.trackers ensures Awaited(s', k, f) {
      assert Awaited(s, k, f);
      assert s.listener[f] in ListenersOf(s, k);
    }
    hide StepProceed;
    hide AllAwaited;
    PhaseKeepsInv(s, k, t');
  }

  lemma {:induction false} WaitingKeepsInv(s: State, k: nat)
    requires Inv(s) && k < |s.terminations| && s.terminations[k].phase.AwaitingChildren?
    ensures Inv(StepWait(s, k))
  {
    hide Numbered;
    hide Known;
    hide Closed;
    hide Tracked;
    var t' := StepWait(s, k).terminations[k];
    var s' := s.(terminations := s.terminations[k := t']);
    assert StepWait(s, k) == s';
    forall f | f in Detached(s, k) && f in s.listener && f in s.trackers ensures Awaited(s', k, f) {
      assert Awaited(s, k, f);
    }
    hide StepWait;
    hide AllAwaited;
    PhaseKeepsInv(s, k, t');
  }

  lemma {:induction false} ProceedKeepsInv(s: State, k: nat)
    requires Inv(s)
    ensures Inv(StepProceed(s, k))
  {
    hide Inv;
    if k < |s.terminations| {
      match s.terminations[k].phase
      case Detaching(todo) =>
        if todo == [] {
          ListeningKeepsInv(s, k);
        } else {
          DetachKeepsInv(s, k, todo[0], todo[1..]);
        }
      case AwaitingListeners(_) => ListeningKeepsInv(s, k);
      case Taking => TakeKeepsInv(s, k);
      case AwaitingChildren => WaitingKeepsInv(s, k);
      case Quiesced =>
    }
  }

  lemma {:induction false} StepKeepsInv(s: State, a: Action)
    requires Inv(s)
    ensures Inv(Step(s, a))
  {
    hide Inv;
    match a
    case Open(id) => OpenKeepsInv(s, id);
    case Spawn(fang) => SpawnKeepsInv(s, fang);
    case Stop(task) => StopKeepsInv(s, task);
    case Close(ids) => CloseKeepsInv(s, ids);
    case Proceed(k) => ProceedKeepsInv(s, k);
    case Abandon(ids) => AbandonKeepsInv(s, ids);
    case Reap => ReapKeepsInv(s);
  }

  /** Under every interleaving of openings, spawns, ends, closes and barriers, the books are right. */
  lemma {:induction false} EveryInterleavingKeepsInv(actions: seq<Action>)
    ensures Inv(From(INITIAL, actions))
  {
    if actions != [] {
      EveryInterleavingKeepsInv(actions[..|actions| - 1]);
      StepKeepsInv(From(INITIAL, actions[..|actions| - 1]), actions[|actions| - 1]);
    }
  }

  // ---------------------------------------------------------------- the barrier

  /** What no step undoes: who detached or dropped a Fang, that it is gone, and that a termination is over. */
  ghost predicate Lasts(s: State, s': State) {
    && |s.terminations| <= |s'.terminations|
    && (forall f :: f in s.owner ==> f in s'.owner && s'.owner[f] == s.owner[f])
    && (forall k :: 0 <= k < |s.terminations| && s.terminations[k].phase.Quiesced? ==>
          s'.terminations[k].phase.Quiesced?)
    && s.dropped <= s'.dropped
    && (forall f :: Gone(s, f) ==> Gone(s', f))
  }

  lemma {:induction false} OwnLasts(s: State, s': State, k: nat)
    requires OnlyOwn(s, s', k)
    ensures forall f :: Gone(s, f) ==> Gone(s', f)
  {
  }

  lemma {:induction false} GoneLasts(s: State, a: Action)
    requires Numbered(s) && !a.Proceed?
    ensures forall f :: Gone(s, f) ==> Gone(Step(s, a), f)
  {
    hide StepProceed;
    hide FangsOf;
    hide TasksOf;
    var s' := Step(s, a);
    assert forall id :: id in s'.registry ==>
      (id in s.registry && s'.registry[id] == s.registry[id]) || s'.registry[id] == s.next;
    assert forall f :: f in s.listener ==> f in s'.listener && f != s.next;
  }

  lemma {:induction false} StepLasts(s: State, a: Action)
    requires Inv(s)
    ensures Lasts(s, Step(s, a))
  {
    assert Numbered(s);
    hide Inv;
    hide Numbered;
    hide Gone;
    if a.Proceed? {
      OthersUntouched(s, a.k);
      if a.k < |s.terminations| {
        OwnLasts(s, StepProceed(s, a.k), a.k);
        if s.terminations[a.k].phase.Quiesced? {
          StaysQuiesced(s, a.k);
        }
      }
    } else {
      GoneLasts(s, a);
    }
    hide StepProceed;
    hide FangsOf;
    hide TasksOf;
  }

  lemma {:induction false} StaysQuiesced(s: State, k: nat)
    requires k < |s.terminations| && s.terminations[k].phase.Quiesced?
    ensures StepProceed(s, k) == s
  {
  }

  lemma {:induction false} FromLasts(s: State, actions: seq<Action>)
    requires Inv(s)
    ensures Inv(From(s, actions)) && Lasts(s, From(s, actions))
  {
    hide Inv;
    if actions != [] {
      var mid, a := From(s, actions[..|actions| - 1]), actions[|actions| - 1];
      FromLasts(s, actions[..|actions| - 1]);
      StepKeepsInv(mid, a);
      StepLasts(mid, a);
      hide Step;
    }
  }

  /** Once a Fang has left the registry, detached, dropped or reaped, no spawn on it ever succeeds. */
  lemma {:induction false} NoSpawnOnceGone(before: seq<Action>, later: seq<Action>, fang: Fang)
    requires var s := From(INITIAL, before); Gone(s, fang) || fang in s.owner || fang in s.dropped
    ensures var s := From(From(INITIAL, before), later); StepSpawn(s, fang) == (s, false)
  {
    EveryInterleavingKeepsInv(before);
    FromLasts(From(INITIAL, before), later);
    hide From;
    assert Gone(From(INITIAL, before), fang);
  }

  /** Every running task of a Fang closed without a barrier has been told to stop, then and ever after. */
  lemma {:induction false} DroppedAreTold(before: seq<Action>, later: seq<Action>, fang: Fang)
    requires fang in From(INITIAL, before).dropped
    ensures var s := From(From(INITIAL, before), later);
      && fang in s.listener && s.listener[fang] in s.told
      && forall t :: t in s.parent && s.parent[t] == fang && t in s.running ==> t in s.told
  {
    EveryInterleavingKeepsInv(before);
    FromLasts(From(INITIAL, before), later);
    hide From;
    var s := From(From(INITIAL, before), later);
    hide AllAwaited;
    hide Mute;
    forall t | t in s.parent && s.parent[t] == fang && t in s.running ensures t in s.told {
      assert Held(s, t);
    }
  }

  /** Every Fang in the registry admits children. */
  ghost predicate Admitting(s: State) {
    forall id :: id in s.registry && s.registry[id] in s.trackers ==> s.trackers[s.registry[id]].accepting
  }

  lemma {:induction false} OwnAdmits(s: State, s': State, k: nat)
    requires Admitting(s) && Known(s') && OnlyOwn(s, s', k)
    ensures Admitting(s')
  {
    forall id | id in s'.registry && s'.registry[id] in s'.trackers ensures s'.trackers[s'.registry[id]].accepting {
      assert SameTracker(s, s', k, s'.registry[id]);
    }
  }

  lemma {:induction false} AbandonAdmits(s: State, ids: seq<Id>)
    requires Known(s) && Admitting(s)
    ensures Admitting(StepAbandon(s, ids))
  {
    AbandonFrame(s, ids);
    hide StepAbandon;
    hide FangsOf;
  }

  lemma {:induction false} StepAdmits(s: State, a: Action)
    requires Inv(s) && Admitting(s)
    ensures Admitting(Step(s, a))
  {
    match a
    case Proceed(k) =>
      OthersUntouched(s, k);
      ProceedKeepsInv(s, k);
      hide StepProceed;
      if k < |s.terminations| {
        OwnAdmits(s, StepProceed(s, k), k);
      }
    case Abandon(ids) => AbandonAdmits(s, ids); hide StepAbandon;
    case Open(_) =>
    case Spawn(_) =>
    case Stop(_) =>
    case Close(_) =>
    case Reap =>
  }

  lemma {:induction false} EveryInterleavingAdmits(actions: seq<Action>)
    ensures Admitting(From(INITIAL, actions))
  {
    hide Step;
    if actions != [] {
      EveryInterleavingAdmits(actions[..|actions| - 1]);
      EveryInterleavingKeepsInv(actions[..|actions| - 1]);
      hide Inv;
      hide Admitting;
      StepAdmits(From(INITIAL, actions[..|actions| - 1]), actions[|actions| - 1]);
    }
  }

  /** Under every interleaving a spawn succeeds exactly on a Fang that is still in the registry and whose
      listener runs; the child then runs, is in the Fang's tracker, and no other Fang is touched. */
  lemma {:induction false} SpawnsExactly(actions: seq<Action>, fang: Fang)
    ensures var s := From(INITIAL, actions);
      var (s', ok) := StepSpawn(s, fang);
      && (ok <==> fang in s.listener && !Gone(s, fang) && s.listener[fang] in s.running)
      && (ok ==>
            && fang in s.trackers && fang in s'.trackers && s.next !in s.running && s'.running == s.running + {s.next}
            && s.next in s'.parent && s'.parent[s.next] == fang && s.next in s'.trackers[fang].handles
            && s'.trackers == s.trackers[fang := s'.trackers[fang]])
      && (!ok ==> s' == s)
  {
    EveryInterleavingKeepsInv(actions);
    EveryInterleavingAdmits(actions);
    var s := From(INITIAL, actions);
    hide From;
    hide AllAwaited;
    hide Tracked;
    if fang in s.listener && !Gone(s, fang) {
      var id :| id in s.registry && s.registry[id] == fang;
    }
  }

  /** Opening under a name not in use registers a new Fang with a running listener, and only that. */
  lemma {:induction false} OpensExactly(actions: seq<Action>, id: Id)
    ensures var s := From(INITIAL, actions);
      var s' := StepOpen(s, id);
      if id in s.registry then s' == s
      else
        && s.next !in s.listener && s'.registry == s.registry[id := s.next]
        && s.next in s'.listener && s'.listener[s.next] in s'.running && s'.running == s.running + {s.next}
        && s'.trackers == s.trackers[s.next := Tracker(true, {})]
        && StepSpawn(s', s.next).1
  {
    EveryInterleavingKeepsInv(actions);
    hide From;
    hide AllAwaited;
    hide Tracked;
  }

  /** Closing without a barrier takes exactly the named Fangs out of the registry, with their trackers closed
      and emptied; cleaning up takes out exactly those whose listener has ended. Neither touches another. */
  lemma {:induction false} RemovalsExactly(actions: seq<Action>, ids: seq<Id>)
    ensures var s := From(INITIAL, actions);
      var s' := StepAbandon(s, ids);
      && s'.running == s.running && s'.listener == s.listener && s'.terminations == s.terminations
      && (forall id :: id in s'.registry <==> id in s.registry && id !in ids)
      && (forall id :: id in s'.registry ==> s'.registry[id] == s.registry[id])
      && (forall id :: id in s.registry ==>
            && s.registry[id] in s.trackers && s.registry[id] in s'.trackers
            && s'.trackers[s.registry[id]] == (if id in ids then Tracker(false, {}) else s.trackers[s.registry[id]]))
    ensures var s := From(INITIAL, actions);
      var s' := StepReap(s);
      && s' == s.(registry := s'.registry)
      && (forall id :: id in s.registry ==> s.registry[id] in s.listener)
      && (forall id :: id in s'.registry <==> id in s.registry && s.listener[s.registry[id]] in s.running)
      && (forall id :: id in s'.registry ==> s'.registry[id] == s.registry[id])
  {
    EveryInterleavingKeepsInv(actions);
    var s := From(INITIAL, actions);
    hide From;
    hide AllAwaited;
    hide Tracked;
    hide Mute;
    hide Numbered;
    hide Closed;
    hide TasksOf;
    var s' := StepAbandon(s, ids);
    forall id | id in s.registry
      ensures
        && s.registry[id] in s.trackers && s.registry[id] in s'.trackers
        && s'.trackers[s.registry[id]] == (if id in ids then Tracker(false, {}) else s.trackers[s.registry[id]])
    {
      assert s.registry[id] in FangsOf(s, ids) <==> id in ids;
    }
  }

  /** A Fang of termination `k` has no running task. */
  ghost predicate Quiet(s: State, fang: Fang) {
    && (fang in s.listener ==> s.listener[fang] !in s.running)
    && forall t :: t in s.parent && s.parent[t] == fang ==> t !in s.running
  }

  lemma {:induction false} QuiescedFang(s: State, k: nat, fang: Fang)
    requires Inv(s) && k < |s.terminations| && s.terminations[k].phase.Quiesced?
    requires fang in s.owner && s.owner[fang] == k
    ensures Quiet(s, fang)
  {
    assert Awaited(s, k, fang);
    forall t | t in s.parent && s.parent[t] == fang ensures t !in s.running {
      assert t in s.running ==> Held(s, t);
    }
  }

  /** When termination `k` is over, no listener and no child of any Fang it detached runs, then or later,
      whatever other closes do meanwhile. */
  lemma {:induction false} QuiescedIsQuiet(before: seq<Action>, later: seq<Action>, k: nat, fang: Fang)
    requires k < |From(INITIAL, before).terminations| && From(INITIAL, before).terminations[k].phase.Quiesced?
    requires fang in Detached(From(INITIAL, before), k)
    ensures Quiet(From(From(INITIAL, before), later), fang)
  {
    EveryInterleavingKeepsInv(before);
    FromLasts(From(INITIAL, before), later);
    hide From;
    hide Inv;
    QuiescedFang(From(From(INITIAL, before), later), k, fang);
  }

  // ---------------------------------------------------------------- progress

  /** Whatever is held or awaited was created before. */
  ghost predicate Bounded(s: State) {
    && (forall f, t :: f in s.trackers && t in s.trackers[f].handles ==> t < s.next)
    && (forall f :: f in s.listener ==> s.listener[f] < s.next)
    && (forall k :: 0 <= k < |s.terminations| ==> Old(s.terminations[k], s.next))
  }

  ghost predicate Old(t: Termination, next: Task) {
    && (forall x :: x in t.children ==> x < next)
    && (t.phase.AwaitingListeners? ==> forall x :: x in t.phase.listeners ==> x < next)
  }

  lemma {:induction false} OwnKeepsBounded(s: State, s': State, k: nat)
    requires Bounded(s) && k < |s.terminations| && OnlyOwn(s, s', k) && Old(s'.terminations[k], s.next)
    ensures Bounded(s')
  {
    forall f, t | f in s'.trackers && t in s'.trackers[f].handles ensures t < s'.next {
      assert SameTracker(s, s', k, f);
    }
    forall j | 0 <= j < |s'.terminations| ensures Old(s'.terminations[j], s'.next) {
      if j != k {
        assert s'.terminations[j] == s.terminations[j];
      }
    }
  }

  lemma {:induction false} TakenAreOld(s: State, k: nat)
    requires Bounded(s) && k < |s.terminations|
    ensures Old(StepTake(s, k).terminations[k], s.next)
  {
    assert Old(s.terminations[k], s.next);
    assert forall t :: t in ChildrenOf(s, k) ==> t < s.next;
    hide ChildrenOf;
  }

  lemma {:induction false} ListenersAreOld(s: State, k: nat)
    requires Bounded(s)
    ensures forall t :: t in ListenersOf(s, k) ==> t < s.next
  {
  }

  lemma {:induction false} DetachingStaysOld(s: State, k: nat)
    requires Bounded(s) && k < |s.terminations| && s.terminations[k].phase.Detaching?
    ensures k < |StepDetach(s, k).terminations| && Old(StepDetach(s, k).terminations[k], s.next)
  {
    assert Old(s.terminations[k], s.next);
    ListenersAreOld(s, k);
    hide Bounded;
    hide ListenersOf;
    var todo := s.terminations[k].phase.todo;
    if todo != [] {
      DetachKeepsEntries(s, k, todo[0]);
    }
    hide DetachOne;
  }

  lemma {:induction false} ListeningStaysOld(s: State, k: nat)
    requires Bounded(s) && k < |s.terminations| && s.terminations[k].phase.AwaitingListeners?
    ensures Old(StepListen(s, k).terminations[k], s.next)
  {
    assert Old(s.terminations[k], s.next);
  }

  lemma {:induction false} WaitingStaysOld(s: State, k: nat)
    requires Bounded(s) && k < |s.terminations| && s.terminations[k].phase.AwaitingChildren?
    ensures Old(StepWait(s, k).terminations[k], s.next)
  {
    assert Old(s.terminations[k], s.next);
  }

  lemma {:induction false} EntryStaysOld(s: State, k: nat)
    requires Bounded(s) && k < |s.terminations|
    ensures k < |StepProceed(s, k).terminations| && Old(StepProceed(s, k).terminations[k], s.next)
  {
    assert Old(s.terminations[k], s.next);
    hide Old;
    match s.terminations[k].phase
    case Detaching(_) => DetachingStaysOld(s, k); hide StepDetach;
    case AwaitingListeners(_) => ListeningStaysOld(s, k);
    case Taking => TakenAreOld(s, k);
    case AwaitingChildren => WaitingStaysOld(s, k);
    case Quiesced =>
  }

  lemma {:induction false} DetachKeepsEntries(s: State, k: nat, id: Id)
    ensures DetachOne(s, k, id).terminations == s.terminations
  {
  }

  lemma {:induction false} ProceedKeepsBounded(s: State, k: nat)
    requires Inv(s) && Bounded(s)
    ensures Bounded(StepProceed(s, k))
  {
    hide Inv;
    OthersUntouched(s, k);
    if k < |s.terminations| {
      EntryStaysOld(s, k);
      hide StepProceed;
      OwnKeepsBounded(s, StepProceed(s, k), k);
    }
  }

  lemma {:induction false} StepKeepsBounded(s: State, a: Action)
    requires Inv(s) && Bounded(s)
    ensures Bounded(Step(s, a))
  {
    hide Inv;
    if a.Proceed? {
      ProceedKeepsBounded(s, a.k);
    } else {
      hide StepProceed;
      var s' := Step(s, a);
      forall j | 0 <= j < |s'.terminations| ensures Old(s'.terminations[j], s'.next) {
        if j < |s.terminations| {
          assert Old(s.terminations[j], s.next);
        }
      }
    }
  }

  lemma {:induction false} EveryInterleavingIsBounded(actions: seq<Action>)
    ensures Bounded(From(INITIAL, actions))
  {
    hide Step;
    if actions != [] {
      EveryInterleavingIsBounded(actions[..|actions| - 1]);
      EveryInterleavingKeepsInv(actions[..|actions| - 1]);
      hide Bounded;
      hide Inv;
      StepKeepsBounded(From(INITIAL, actions[..|actions| - 1]), actions[|actions| - 1]);
    }
  }

  /** Everything termination `k` waits for, now or later, has ended. */
  ghost predicate Ended(s: State, k: nat) {
    && k < |s.terminations|
    && (forall f :: f in Detached(s, k) && f in s.listener ==> s.listener[f] !in s.running)
    && (forall f, t :: f in Detached(s, k) && f in s.trackers && t in s.trackers[f].handles ==> t !in s.running)
    && (forall t :: t in s.terminations[k].children ==> t !in s.running)
    && (s.terminations[k].phase.AwaitingListeners? ==>
          forall t :: t in s.terminations[k].phase.listeners ==> t !in s.running)
  }

  predicate PastDetaching(s: State, k: nat) {
    k < |s.terminations| && (s.terminations[k].phase.Detaching? ==> s.terminations[k].phase.todo == [])
  }

  /** Steps a termination whose tasks have ended still needs. */
  ghost function Remaining(t: Termination): nat {
    match t.phase
    case Detaching(todo) => 6
    case AwaitingListeners(listeners) => if listeners == {} then 4 else 5
    case Taking => 3
    case AwaitingChildren => if t.children == {} then 1 else 2
    case Quiesced => 0
  }

  ghost predicate Ready(s: State, k: nat) {
    Inv(s) && Bounded(s) && PastDetaching(s, k) && Ended(s, k)
  }

  /** Detached Fangs and terminations are as before, and no old task starts again. */
  ghost predicate LeavesDetached(s: State, s': State) {
    && s'.owner == s.owner && s.terminations <= s'.terminations
    && (forall f :: f in s.owner && f in s'.listener ==> f in s.listener && s'.listener[f] == s.listener[f])
    && (forall f :: f in s.owner && f in s'.trackers ==> f in s.trackers && s'.trackers[f] == s.trackers[f])
    && (forall t :: t < s.next && t in s'.running ==> t in s.running)
  }

  lemma {:induction false} OthersLeaveDetached(s: State, a: Action)
    requires Inv(s) && !a.Proceed?
    ensures LeavesDetached(s, Step(s, a))
  {
    hide StepProceed;
    hide Tracked;
    hide AllAwaited;
    hide Mute;
    hide TasksOf;
    if a.Abandon? {
      AbandonFrame(s, a.ids);
      hide StepAbandon;
      hide FangsOf;
    }
  }

  lemma {:induction false} LeftDetachedEnded(s: State, s': State, k: nat)
    requires Bounded(s) && PastDetaching(s, k) && Ended(s, k) && LeavesDetached(s, s')
    ensures PastDetaching(s', k) && Ended(s', k) && s'.terminations[k] == s.terminations[k]
  {
    assert Old(s.terminations[k], s.next);
    assert Detached(s', k) == Detached(s, k);
  }

  /** Nothing another thread does can set such a termination back. */
  lemma {:induction false} OthersDoNotDelay(s: State, a: Action, k: nat)
    requires Inv(s) && Bounded(s) && PastDetaching(s, k) && Ended(s, k) && !a.Proceed?
    ensures var s' := Step(s, a);
      PastDetaching(s', k) && Ended(s', k) && s'.terminations[k] == s.terminations[k]
  {
    hide Inv;
    hide Bounded;
    hide Ended;
    hide LeavesDetached;
    hide Step;
    OthersLeaveDetached(s, a);
    LeftDetachedEnded(s, Step(s, a), k);
  }

  lemma {:induction false} OtherTerminationsDoNotDelay(s: State, j: nat, k: nat)
    requires Inv(s) && PastDetaching(s, k) && Ended(s, k) && j != k
    ensures var s' := StepProceed(s, j);
      PastDetaching(s', k) && Ended(s', k) && s'.terminations[k] == s.terminations[k]
  {
    OthersUntouched(s, j);
    hide Inv;
    var s' := StepProceed(s, j);
    hide StepProceed;
    if j < |s.terminations| {
      assert Detached(s', k) == Detached(s, k);
      forall f, t | f in Detached(s', k) && f in s'.trackers && t in s'.trackers[f].handles ensures t !in s'.running {
        assert SameTracker(s, s', j, f);
      }
    }
  }

  lemma {:induction false} DetachedAdvances(s: State, k: nat)
    requires Ended(s, k) && s.terminations[k].phase == Detaching([])
    ensures var s' := StepDetach(s, k);
      && PastDetaching(s', k) && Ended(s', k)
      && Remaining(s'.terminations[k]) < Remaining(s.terminations[k])
  {
    assert Detached(StepDetach(s, k), k) == Detached(s, k);
    assert forall t :: t in ListenersOf(s, k) ==> t !in s.running;
    hide ListenersOf;
    hide DetachOne;
  }

  lemma {:induction false} ListenAdvances(s: State, k: nat)
    requires Ended(s, k) && s.terminations[k].phase.AwaitingListeners?
    ensures var s' := StepListen(s, k);
      && PastDetaching(s', k) && Ended(s', k)
      && Remaining(s'.terminations[k]) < Remaining(s.terminations[k])
  {
    assert Detached(StepListen(s, k), k) == Detached(s, k);
    assert (set t | t in s.terminations[k].phase.listeners && t in s.running) == {};
  }

  lemma {:induction false} WaitAdvances(s: State, k: nat)
    requires Ended(s, k) && s.terminations[k].phase.AwaitingChildren?
    ensures var s' := StepWait(s, k);
      && PastDetaching(s', k) && Ended(s', k)
      && Remaining(s'.terminations[k]) < Remaining(s.terminations[k])
  {
    assert Detached(StepWait(s, k), k) == Detached(s, k);
    assert (set t | t in s.terminations[k].children && t in s.running) == {};
  }

  lemma {:induction false} TakeAdvances(s: State, k: nat)
    requires Ended(s, k) && s.terminations[k].phase.Taking?
    ensures var s' := StepTake(s, k);
      && PastDetaching(s', k) && Ended(s', k)
      && Remaining(s'.terminations[k]) < Remaining(s.terminations[k])
  {
    var s' := StepTake(s, k);
    assert Detached(s', k) == Detached(s, k);
    assert forall t :: t in ChildrenOf(s, k) ==> t !in s.running;
  }

  /** Its own steps bring it nearer to the end. */
  lemma {:induction false} OwnStepsAdvance(s: State, k: nat)
    requires PastDetaching(s, k) && Ended(s, k)
    ensures var s' := StepProceed(s, k);
      && PastDetaching(s', k) && Ended(s', k)
      && (Remaining(s.terminations[k]) > 0 ==> Remaining(s'.terminations[k]) < Remaining(s.terminations[k]))
      && (Remaining(s.terminations[k]) == 0 ==> Remaining(s'.terminations[k]) == 0)
  {
    hide Ended;
    match s.terminations[k].phase
    case Detaching(_) => DetachedAdvances(s, k);
    case AwaitingListeners(_) => ListenAdvances(s, k);
    case Taking => TakeAdvances(s, k);
    case AwaitingChildren => WaitAdvances(s, k);
    case Quiesced =>
    hide StepDetach;
    hide StepListen;
    hide StepTake;
    hide StepWait;
  }

  ghost function Turns(actions: seq<Action>, k: nat): nat {
    if actions == [] then 0
    else Turns(actions[..|actions| - 1], k) + if actions[|actions| - 1] == Proceed(k) then 1 else 0
  }

  lemma {:induction false} TurnsFinish(s: State, actions: seq<Action>, k: nat)
    requires Ready(s, k)
    ensures var s' := From(s, actions);
      && Ready(s', k)
      && (Remaining(s'.terminations[k]) == 0 || Remaining(s'.terminations[k]) + Turns(actions, k) <= 6)
  {
    hide Inv;
    hide Bounded;
    hide Ended;
    if actions != [] {
      var before, a := actions[..|actions| - 1], actions[|actions| - 1];
      TurnsFinish(s, before, k);
      var mid := From(s, before);
      StepKeepsInv(mid, a);
      StepKeepsBounded(mid, a);
      if a == Proceed(k) {
        OwnStepsAdvance(mid, k);
      } else if a.Proceed? {
        OtherTerminationsDoNotDelay(mid, a.k, k);
      } else {
        OthersDoNotDelay(mid, a, k);
      }
      hide StepProceed;
      hide StepOpen;
      hide StepSpawn;
    }
  }

  /** Once the tasks of the Fangs it detached have ended, six turns finish a termination, whatever runs in
      between: the barrier waits for nothing else. */
  lemma {:induction false} QuiesceFinishes(before: seq<Action>, later: seq<Action>, k: nat)
    requires PastDetaching(From(INITIAL, before), k) && Ended(From(INITIAL, before), k) && Turns(later, k) >= 6
    ensures var s := From(From(INITIAL, before), later); k < |s.terminations| && s.terminations[k].phase.Quiesced?
  {
    hide Inv;
    hide Bounded;
    hide Ended;
    EveryInterleavingKeepsInv(before);
    EveryInterleavingIsBounded(before);
    TurnsFinish(From(INITIAL, before), later, k);
  }
}
