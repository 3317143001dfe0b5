/** `_read_contexts` as the event loop runs it: whichever task can go on is resumed, until all
    are through. */
module ContextsLoop {
  import opened Oids
  import opened Agent
  import opened Text
  import opened Walk
  import opened WalkBounds
  import opened Fdb
  import opened Contexts
  import opened ContextsProofs
  import opened ContextsRuns
  import opened ContextsEnds

  /** What a reader is asked in: ifStackTable is read in the default context. */
  function ViewOf(r: Reader, vid: int): Context {
    if r.ReadingStack? then DefaultView else VlanView(vid)
  }

  /** A task that is not waiting for another one. */
  predicate Awake(setup: Setup, b: Board, i: nat) {
    i < |b.readers| && Enabled(setup, b, if b.readers[i].Waiting? then Start(i, 0) else Answer(i, 0, Raised, 0))
  }

  function AwakeIn(setup: Setup, b: Board, n: nat): (list: seq<nat>)
    ensures forall i :: 0 <= i < |list| ==> Awake(setup, b, list[i])
    ensures forall i: nat :: i < n && Awake(setup, b, i) ==> i in list
  {
    if n == 0 then []
    else AwakeIn(setup, b, n - 1) + (if Awake(setup, b, n - 1) then [n - 1] else [])
  }

  /** The task that is resumed: any that can go on, by some rule. */
  function Chosen(setup: Setup, b: Board, pick: nat): (i: nat)
    requires AwakeIn(setup, b, |b.readers|) != []
    ensures Awake(setup, b, i)
  {
    var awake := AwakeIn(setup, b, |b.readers|);
    awake[Turn(pick, |awake|)]
  }

  /** What the task that is resumed meets: the clock, and the answer to what it asked. */
  function Resumed(world: World, setup: Setup, b: Board, i: nat, at: nat): (a: Action)
    requires Awake(setup, b, i)
    ensures Enabled(setup, b, a) && a.i == i
  {
    var r := b.readers[i];
    if r.Waiting? then Start(i, world.clock(at))
    else Answer(i, world.clock(at), world.answer(at, ViewOf(r, b.vlans[i]), r.w.Names(), r.w.maxRep),
                world.clock(at + 1))
  }

  /** The answers of a run are the world's: each step takes two moments, the first of them at
      moment `at`. */
  ghost predicate FromWorld(world: World, setup: Setup, b: Board, run: seq<Action>, at: nat)
    decreases |run|
  {
    run == [] ||
    (&& Enabled(setup, b, run[0]) && Awake(setup, b, run[0].i)
     && run[0] == Resumed(world, setup, b, run[0].i, at)
     && FromWorld(world, setup, Step(setup, b, run[0]), run[1..], at + 2))
  }

  lemma {:induction false} OneMoreStep(world: World, setup: Setup, b: Board, run: seq<Action>, m: Board, a: Action,
                                       at: nat)
    requires Runs(setup, b, run, m) && FromWorld(world, setup, b, run, at)
    requires Awake(setup, m, a.i) && a == Resumed(world, setup, m, a.i, at + 2 * |run|)
    ensures Runs(setup, b, run + [a], Step(setup, m, a)) && FromWorld(world, setup, b, run + [a], at)
    decreases |run|
  {
    hide Step;
    hide Resumed;
    hide Awake;
    var longer := run + [a];
    if run == [] {
      assert longer[1..] == [];
      assert FromWorld(world, setup, Step(setup, b, a), longer[1..], at + 2);
    } else {
      assert longer[1..] == run[1..] + [a];
      OneMoreStep(world, setup, Step(setup, b, run[0]), run[1..], m, a, at + 2);
    }
  }

  /** Someone can always be resumed. */
  lemma SomeoneAwake(setup: Setup, b: Board, allowance: int, parsed: int)
    requires Good(setup, b, allowance, parsed) && !Finished(b)
    ensures AwakeIn(setup, b, |b.readers|) != []
  {
    hide Good;
    NeverStuck(setup, b, allowance, parsed);
    var a :| Enabled(setup, b, a);
    assert Awake(setup, b, a.i);
  }

  lemma OpeningLegal(shared: Shared, vlans: seq<int>)
    ensures LegalReaders(Opening(shared, vlans).readers)
  {
  }

  /** One step of the loop keeps everything the loop relies on. */
  lemma LoopStep(setup: Setup, b: Board, a: Action, allowance: int, parsed: int, depth: nat)
    requires LegalScheme(setup.oids) && depth >= MAX_LENGTH
    requires Good(setup, b, allowance, parsed) && LegalReaders(b.readers) && Enabled(setup, b, a)
    ensures var b' := Step(setup, b, a);
            && Good(setup, b', allowance, parsed) && LegalReaders(b'.readers)
            && 0 <= TotalSteps(setup.oids, b'.readers, depth) < TotalSteps(setup.oids, b.readers, depth)
  {
    hide Good;
    hide Step;
    hide LegalScheme;
    hide TotalSteps;
    hide LegalReaders;
    var b' := Step(setup, b, a);
    GoodReaders(setup, b, allowance, parsed);
    StepGood(setup, b, a, allowance, parsed);
    StepShrinks(setup, b, a, depth);
    GoodReaders(setup, b', allowance, parsed);
    StepsNonNegative(setup, b'.shared, b'.vlans, b'.readers, depth);
  }

  /** The board a finished read of some VLANs leaves, and the steps that led to it. */
  ghost predicate ReadBy(world: World, setup: Setup, shared: Shared, vlans: seq<int>, at: nat, run: seq<Action>,
                         b: Board)
  {
    && Runs(setup, Opening(shared, vlans), run, b)
    && FromWorld(world, setup, Opening(shared, vlans), run, at)
    && Finished(b)
  }

  /** Where the loop stands after the steps of `run`. */
  ghost predicate Looping(world: World, setup: Setup, shared: Shared, vlans: seq<int>, at: nat, run: seq<Action>,
                          b: Board)
  {
    && Runs(setup, Opening(shared, vlans), run, b) && FromWorld(world, setup, Opening(shared, vlans), run, at)
    && Good(setup, b, shared.budget.rowsLeft, shared.parsed - shared.dropped.Total()) && LegalReaders(b.readers)
  }

  lemma LoopBegins(world: World, setup: Setup, shared: Shared, vlans: seq<int>, at: nat)
    requires Accounted(shared) && forall i, j :: 0 <= i < j < |vlans| ==> vlans[i] != vlans[j]
    ensures Looping(world, setup, shared, vlans, at, [], Opening(shared, vlans))
  {
    OpeningGood(setup, shared, vlans);
    hide Good;
    OpeningLegal(shared, vlans);
  }

  lemma LoopAwake(world: World, setup: Setup, shared: Shared, vlans: seq<int>, at: nat, run: seq<Action>, b: Board)
    requires Looping(world, setup, shared, vlans, at, run, b) && !Finished(b)
    ensures AwakeIn(setup, b, |b.readers|) != []
  {
    SomeoneAwake(setup, b, shared.budget.rowsLeft, shared.parsed - shared.dropped.Total());
  }

  lemma LoopGoesOn(world: World, setup: Setup, shared: Shared, vlans: seq<int>, at: nat, run: seq<Action>, b: Board,
                   i: nat, next: nat, a: Action, b': Board, depth: nat)
    requires LegalScheme(setup.oids) && depth >= MAX_LENGTH
    requires Looping(world, setup, shared, vlans, at, run, b) && Awake(setup, b, i) && next == at + 2 * |run|
    requires a == Resumed(world, setup, b, i, next) && b' == Step(setup, b, a)
    ensures Looping(world, setup, shared, vlans, at, run + [a], b') && next + 2 == at + 2 * |run + [a]|
    ensures 0 <= TotalSteps(setup.oids, b'.readers, depth) < TotalSteps(setup.oids, b.readers, depth)
  {
    hide Step;
    hide Good;
    hide Resumed;
    hide Awake;
    hide Runs;
    hide FromWorld;
    hide LegalScheme;
    hide TotalSteps;
    hide LegalReaders;
    OneMoreStep(world, setup, Opening(shared, vlans), run, b, a, at);
    LoopStep(setup, b, a, shared.budget.rowsLeft, shared.parsed - shared.dropped.Total(), depth);
  }

  /** The tasks are resumed one by one until all are through, which they are in the end. */
  method RunContexts(world: World, setup: Setup, resume: nat -> nat, at: nat, shared: Shared, vlans: seq<int>)
    returns (board: Board, next: nat, ghost run: seq<Action>)
    requires LegalScheme(setup.oids) && Accounted(shared)
    requires forall i, j :: 0 <= i < j < |vlans| ==> vlans[i] != vlans[j]
    ensures Finished(board) && next >= at && next == at + 2 * |run|
    ensures ReadBy(world, setup, shared, vlans, at, run, board)
  {
    hide LegalScheme;
    ghost var depth :| depth >= MAX_LENGTH;
    hide *;
    board, next, run := Opening(shared, vlans), at, [];
    LoopBegins(world, setup, shared, vlans, at);
    while !Finished(board)
      invariant next == at + 2 * |run|
      invariant Looping(world, setup, shared, vlans, at, run, board)
      decreases TotalSteps(setup.oids, board.readers, depth)
    {
      LoopAwake(world, setup, shared, vlans, at, run, board);
      var i := Chosen(setup, board, resume(next));
      var a := Resumed(world, setup, board, i, next);
      var after := Step(setup, board, a);
      LoopGoesOn(world, setup, shared, vlans, at, run, board, i, next, a, after, depth);
      board, run, next := after, run + [a], next + 2;
    }
    HasRead(world, setup, shared, vlans, at, run, board);
  }

  lemma HasRead(world: World, setup: Setup, shared: Shared, vlans: seq<int>, at: nat, run: seq<Action>, b: Board)
    requires Looping(world, setup, shared, vlans, at, run, b) && Finished(b)
    ensures ReadBy(world, setup, shared, vlans, at, run, b)
  {
  }
}
