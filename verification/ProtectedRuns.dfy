/** The store over whole runs: commits, faults, crashes and restarts in any order. */
module ProtectedRuns {
  import opened Basics
  import opened LocalFs
  import opened ProtectedDocuments
  import opened ProtectedState
  import opened ProtectedTheorems

  /** A node and its directory. After a write left in doubt it refuses mutations until restarted. */
  datatype Node = Node(world: World, degraded: bool) {
    predicate Serving() {
      world.up && !degraded
    }
  }

  datatype Event =
    | Committing(current: U64, state: State)
    | Restarting(files: Files, faults: seq<Fault>)

  /** A restart finds some resolution of the directory; other restarts cannot happen. */
  ghost function Step(f: Store, n: Node, e: Event): Node {
    match e
    case Committing(current, s) =>
      if !n.Serving() then n
      else
        var (w, t) := Commit(f, n.world, current, s);
        Node(w, t.Unsure?)
    case Restarting(files, faults) =>
      if Resolves(n.world, files) then Node(Started(files, faults), false) else n
  }

  ghost function Run(f: Store, n: Node, events: seq<Event>): Node {
    if events == [] then n else Step(f, Run(f, n, events[..|events| - 1]), events[|events| - 1])
  }

  /** A generation and what loading it gives. */
  datatype Position = Position(generation: Generation, loaded: Loaded)

  /** `at` is the last generation known active, `successor` the one a doubtful commit may have made active. */
  datatype Record = Record(at: Position, successor: Option<Position>)

  ghost predicate HoldsAt(f: Store, files: Files, p: Position) {
    Holds(f, files, p.generation, p.loaded)
  }

  /** A serving node reads exactly `at`; a stopped one will find `at` or `successor`. */
  ghost predicate Tracks(f: Store, n: Node, r: Record) {
    if n.Serving() then r.successor.None? && Quiet(n.world) && HoldsAt(f, n.world.view, r.at)
    else forall files :: Resolves(n.world, files) ==>
      HoldsAt(f, files, r.at) || (r.successor.Some? && HoldsAt(f, files, r.successor.value))
  }

  ghost function Successor(f: Store, g: Generation, s: State): Option<Position> {
    if g.number == U64_MAX then None else Some(Position(Next(g), After(f, Next(g), s)))
  }

  /** The record after one event, read off the commit's answer or the restarted directory. */
  ghost function Advance(f: Store, n: Node, e: Event, r: Record): Record {
    match e
    case Committing(current, s) =>
      if !n.Serving() then r
      else
        var (w, t) := Commit(f, n.world, current, s);
        if t.Activated? then Record(Position(t.generation, After(f, t.generation, s)), None)
        else if t.Unsure? then Record(r.at, Successor(f, r.at.generation, s))
        else r
    case Restarting(files, faults) =>
      if !Resolves(n.world, files) then r
      else if r.successor.Some? && !HoldsAt(f, files, r.at) then Record(r.successor.value, None)
      else Record(r.at, None)
  }

  ghost function Recorded(f: Store, n: Node, events: seq<Event>, r: Record): Record {
    if events == [] then r
    else
      var before := events[..|events| - 1];
      Advance(f, Run(f, n, before), events[|events| - 1], Recorded(f, n, before, r))
  }

  lemma {:induction false} CommitTracks(f: Store, n: Node, current: U64, s: State, r: Record)
    requires f.Faithful() && Tracks(f, n, r)
    ensures Tracks(f, Step(f, n, Committing(current, s)), Advance(f, n, Committing(current, s), r))
  {
    hide Store.Faithful;
    hide Holds;
    hide Quiet;
    hide Commit;
    hide After;
    if n.Serving() {
      var g, loaded := r.at.generation, r.at.loaded;
      CommitEnds(f, n.world, g, loaded, current, s);
      var (w, t) := Commit(f, n.world, current, s);
      if t.Rejected? {
        QuietRestarts(f, w, g, loaded);
      }
    }
  }

  lemma {:induction false} RestartTracks(f: Store, n: Node, files: Files, faults: seq<Fault>, r: Record)
    requires Tracks(f, n, r)
    ensures Tracks(f, Step(f, n, Restarting(files, faults)), Advance(f, n, Restarting(files, faults), r))
  {
    hide Holds;
    if Resolves(n.world, files) {
      if n.Serving() {
        QuietRestarts(f, n.world, r.at.generation, r.at.loaded);
      }
      hide Quiet;
      hide Resolves;
      StartedQuiet(files, faults);
    }
  }

  lemma {:induction false} StartedQuiet(files: Files, faults: seq<Fault>)
    ensures Quiet(Started(files, faults))
  {
  }

  /** Crash safety: over any run of commits, faults, crashes and restarts, the directory loads as the
      last activated generation or, while a commit is in doubt, as exactly its complete successor. */
  lemma {:induction false} StoreIsCrashSafe(f: Store, n: Node, events: seq<Event>, r: Record)
    requires f.Faithful() && Tracks(f, n, r)
    ensures Tracks(f, Run(f, n, events), Recorded(f, n, events, r))
  {
    hide Store.Faithful;
    hide Tracks;
    if events != [] {
      var before := events[..|events| - 1];
      StoreIsCrashSafe(f, n, before, r);
      hide Step;
      hide Advance;
      match events[|events| - 1]
      case Committing(current, s) => CommitTracks(f, Run(f, n, before), current, s, Recorded(f, n, before, r));
      case Restarting(files, faults) => RestartTracks(f, Run(f, n, before), files, faults, Recorded(f, n, before, r));
    }
  }

  /** What any start after any run finds. */
  lemma {:induction false} EveryStartLoads(f: Store, n: Node, events: seq<Event>, r: Record, files: Files)
    requires f.Faithful() && Tracks(f, n, r) && Resolves(Run(f, n, events).world, files)
    ensures var last := Recorded(f, n, events, r);
      || Load(f, files) == last.at.loaded
      || (last.successor.Some? && Load(f, files) == last.successor.value.loaded)
  {
    StoreIsCrashSafe(f, n, events, r);
    hide Store.Faithful;
    hide Run;
    hide Recorded;
    hide Holds;
    var last := Recorded(f, n, events, r);
    var w := Run(f, n, events).world;
    if Run(f, n, events).Serving() {
      QuietRestarts(f, w, last.at.generation, last.at.loaded);
    }
    hide Resolves;
    if HoldsAt(f, files, last.at) {
      HoldsLoads(f, files, last.at.generation, last.at.loaded);
    } else {
      HoldsLoads(f, files, last.successor.value.generation, last.successor.value.loaded);
    }
  }

  // ---------------------------------------------------------------- numbers and slots

  /** `steps` activations after `g`: the number rises by one each time and the slot alternates. */
  ghost predicate Reached(g: Generation, later: Generation, steps: nat) {
    && later.number == g.number + steps
    && later.slot == if steps % 2 == 0 then g.slot else g.slot.Inactive()
  }

  ghost predicate Chained(r: Record) {
    r.successor.Some? ==> Reached(r.at.generation, r.successor.value.generation, 1)
  }

  lemma {:induction false} AdvanceByOne(f: Store, n: Node, e: Event, r: Record)
    requires f.Faithful() && Tracks(f, n, r) && Chained(r)
    ensures Chained(Advance(f, n, e, r))
    ensures exists steps :: 0 <= steps <= 1 && Reached(r.at.generation, Advance(f, n, e, r).at.generation, steps)
  {
    hide Store.Faithful;
    hide Holds;
    hide Quiet;
    hide Commit;
    hide After;
    hide Resolves;
    assert Reached(r.at.generation, r.at.generation, 0);
    if n.Serving() {
      if e.Committing? {
        CommitEnds(f, n.world, r.at.generation, r.at.loaded, e.current, e.state);
        if Commit(f, n.world, e.current, e.state).1.Activated? {
          assert Reached(r.at.generation, Advance(f, n, e, r).at.generation, 1);
        }
      }
    } else if r.successor.Some? {
      assert Reached(r.at.generation, r.successor.value.generation, 1);
    }
  }

  lemma {:induction false} ReachedFurther(g: Generation, a: Generation, b: Generation, m: nat, n: nat)
    requires Reached(g, a, m) && Reached(a, b, n) && n <= 1
    ensures Reached(g, b, m + n)
  {
  }

  /** Generation numbers rise one at a time and slots alternate, over any run. */
  lemma {:induction false} GenerationsAlternate(f: Store, n: Node, events: seq<Event>, r: Record)
    requires f.Faithful() && Tracks(f, n, r) && Chained(r)
    ensures Chained(Recorded(f, n, events, r))
    ensures exists steps: nat ::
      steps <= |events| && Reached(r.at.generation, Recorded(f, n, events, r).at.generation, steps)
  {
    hide Store.Faithful;
    hide Tracks;
    hide Chained;
    if events == [] {
      assert Reached(r.at.generation, r.at.generation, 0);
    } else {
      var before, e := events[..|events| - 1], events[|events| - 1];
      GenerationsAlternate(f, n, before, r);
      StoreIsCrashSafe(f, n, before, r);
      var mid := Recorded(f, n, before, r);
      AdvanceByOne(f, Run(f, n, before), e, mid);
      hide Advance;
      hide Reached;
      var m: nat :| m <= |before| && Reached(r.at.generation, mid.at.generation, m);
      var last := Advance(f, Run(f, n, before), e, mid);
      var k: nat :| k <= 1 && Reached(mid.at.generation, last.at.generation, k);
      ReachedFurther(r.at.generation, mid.at.generation, last.at.generation, m, k);
    }
  }

  lemma {:induction false} OtherGenerationRejected(f: Store, w: World, g: Generation, current: U64, s: State)
    requires LoadCurrent(f, w.view) == Selects(g) && g.number != current
    ensures var (w', t) := Commit(f, w, current, s);
      t == Rejected && w'.view == w.view && w'.synced == w.synced
  {
    hide LoadCurrent;
    hide WriteSlot;
  }

  ghost predicate SameFiles(a: World, b: World) {
    a.view == b.view && a.synced == b.synced
  }

  /** No lost update: once a commit naming a generation is activated, another one naming the same
      generation changes no file, whatever commits, crashes and restarts come between. */
  lemma {:induction false} StaleCommitChangesNothing(f: Store, n: Node, r: Record, current: U64, s: State,
                                                    events: seq<Event>, stale: State)
    requires f.Faithful() && Tracks(f, n, r) && n.Serving() && Commit(f, n.world, current, s).1.Activated?
    ensures var later := Run(f, Step(f, n, Committing(current, s)), events);
      && SameFiles(Step(f, later, Committing(current, stale)).world, later.world)
      && (later.Serving() ==> Commit(f, later.world, current, stale).1 == Rejected)
  {
    hide Store.Faithful;
    hide Holds;
    hide Quiet;
    hide Commit;
    hide After;
    var first := Committing(current, s);
    var m, r' := Step(f, n, first), Advance(f, n, first, r);
    CommitEnds(f, n.world, r.at.generation, r.at.loaded, current, s);
    assert r'.at.generation.number == current + 1 && r'.successor.None?;
    CommitTracks(f, n, current, s, r);
    hide Step;
    hide Advance;
    GenerationsAlternate(f, m, events, r');
    StoreIsCrashSafe(f, m, events, r');
    hide Run;
    hide Recorded;
    var later, last := Run(f, m, events), Recorded(f, m, events, r');
    assert last.at.generation.number > current;
    StaleStep(f, later, last, current, stale);
  }

  lemma {:induction false} StaleStep(f: Store, n: Node, r: Record, current: U64, s: State)
    requires Tracks(f, n, r) && current < r.at.generation.number
    ensures SameFiles(Step(f, n, Committing(current, s)).world, n.world)
    ensures n.Serving() ==> Commit(f, n.world, current, s).1 == Rejected
  {
    if n.Serving() {
      assert LoadCurrent(f, n.world.view) == Selects(r.at.generation);
      OtherGenerationRejected(f, n.world, r.at.generation, current, s);
      hide Commit;
    }
  }

  /** Committing a state with a readable policy and loading it gives the state's normal form. */
  lemma {:induction false} CommitThenLoad(f: Store, w: World, g: Generation, loaded: Loaded, s: State)
    requires f.Faithful() && Quiet(w) && Holds(f, w.view, g, loaded)
    requires TP.WellFormed(s.policy)
    requires Commit(f, w, g.number, s).1.Activated?
    ensures Load(f, Commit(f, w, g.number, s).0.view) ==
      if TP.Readable(s.policy) then Loaded(Next(g), Normal(s)) else Refused
  {
    CommitEnds(f, w, g, loaded, g.number, s);
    var w' := Commit(f, w, g.number, s).0;
    CommittedHasDocuments(f, w, g, s);
    hide Commit;
    hide Holds;
    hide DocumentsOf;
    hide ParseDocuments;
    hide TP.Readable;
    hide TP.WellFormed;
    StateReadsBack(f.formats, s);
    HoldsLoads(f, w'.view, Next(g), After(f, Next(g), s));
  }

  lemma {:induction false} CommittedHasDocuments(f: Store, w: World, g: Generation, s: State)
    requires LoadCurrent(f, w.view) == Selects(g) && Commit(f, w, g.number, s).1.Activated?
    ensures DocumentsOf(f.formats, s).Some?
  {
    hide LoadCurrent;
    hide DocumentsOf;
    hide WriteAll;
  }
}
