/** Which VLANs a per-VLAN read skips, and which it has rows of. */
module ContextsSkips {
  import opened Oids
  import opened Agent
  import opened Text
  import opened Walk
  import opened Fdb
  import opened Contexts
  import opened ContextsProofs
  import opened ContextsRuns
  import opened ContextsLoop

  // ---- In any run ----

  /** The VLANs whose tasks came to the gate after the deadline, in that order. */
  function LateStarts(run: seq<Action>, vlans: seq<int>, deadline: int): seq<int> {
    if run == [] then []
    else LateStart(run[0], vlans, deadline) + LateStarts(run[1..], vlans, deadline)
  }

  function LateStart(a: Action, vlans: seq<int>, deadline: int): seq<int> {
    if a.Start? && a.i < |vlans| && a.now >= deadline then [vlans[a.i]] else []
  }

  /** No task came to the gate after the deadline. */
  predicate OnTime(run: seq<Action>, deadline: int) {
    forall k | 0 <= k < |run| && run[k].Start? :: run[k].now < deadline
  }

  lemma StepSkips(setup: Setup, b: Board, a: Action, allowance: int, parsed: int)
    requires Good(setup, b, allowance, parsed) && Enabled(setup, b, a)
    requires var b' := Step(setup, b, a); b'.aborted == [] && !b'.shared.budget.truncated
    ensures b.aborted == [] && !b.shared.budget.truncated
    ensures Step(setup, b, a).skipped == b.skipped + LateStart(a, b.vlans, b.shared.budget.deadline)
  {
    hide TurnOf;
    hide Sane;
    hide ReaderSane;
    hide Good;
    if a.Answer? {
      var r := b.readers[a.i];
      GoodReader(setup, b, a.i, allowance, parsed);
      TurnFair(setup, b.shared, b.vlans[a.i], r, a.now, a.reply, a.later);
    }
  }

  /** Unless the readers gave up or the budget was spent, the VLANs skipped are those that came
      to the gate too late. */
  lemma {:induction false} RunsSkip(setup: Setup, b: Board, run: seq<Action>, b': Board, allowance: int, parsed: int)
    requires Good(setup, b, allowance, parsed) && Runs(setup, b, run, b')
    requires b'.aborted == [] && !b'.shared.budget.truncated
    ensures b.aborted == [] && !b.shared.budget.truncated
    ensures b'.skipped == b.skipped + LateStarts(run, b.vlans, b.shared.budget.deadline)
    decreases |run|
  {
    hide Good;
    hide Step;
    hide LateStart;
    if run != [] {
      var m := Step(setup, b, run[0]);
      StepGood(setup, b, run[0], allowance, parsed);
      StepSameVlans(setup, b, run[0]);
      RunsSkip(setup, m, run[1..], b', allowance, parsed);
      StepSkips(setup, b, run[0], allowance, parsed);
    }
  }

  /** A read that leaves no problem and no spent budget behind has skipped exactly the VLANs that
      came to the gate after the deadline. */
  lemma SkippedExactly(setup: Setup, shared: Shared, vlans: seq<int>, run: seq<Action>, b: Board)
    requires forall i, j :: 0 <= i < j < |vlans| ==> vlans[i] != vlans[j]
    requires Accounted(shared) && Runs(setup, Opening(shared, vlans), run, b)
    requires Reported(b) == [] && !b.shared.budget.truncated
    ensures b.skipped == LateStarts(run, vlans, shared.budget.deadline)
  {
    hide Accounted;
    hide Runs;
    OpeningGood(setup, shared, vlans);
    RunsSkip(setup, Opening(shared, vlans), run, b, shared.budget.rowsLeft, shared.parsed - shared.dropped.Total());
  }

  lemma {:induction false} NoLateStarts(setup: Setup, b: Board, run: seq<Action>, b': Board, deadline: int)
    requires Runs(setup, b, run, b') && |b.readers| == |b.vlans|
    ensures LateStarts(run, b.vlans, deadline) == [] <==> OnTime(run, deadline)
    decreases |run|
  {
    hide Step;
    if run != [] {
      StepSameVlans(setup, b, run[0]);
      StepSameReaders(setup, b, run[0]);
      NoLateStarts(setup, Step(setup, b, run[0]), run[1..], b', deadline);
      assert forall k | 0 < k < |run| :: run[k] == run[1..][k - 1];
      assert forall k | 0 <= k < |run| - 1 :: run[1..][k] == run[k + 1];
    }
  }

  lemma StepSameReaders(setup: Setup, b: Board, a: Action)
    requires Enabled(setup, b, a)
    ensures |Step(setup, b, a).readers| == |b.readers|
  {
    hide TurnOf;
  }

  /** So it has skipped nothing if and only if every task came to the gate in time. */
  lemma NothingSkippedIff(setup: Setup, shared: Shared, vlans: seq<int>, run: seq<Action>, b: Board)
    requires forall i, j :: 0 <= i < j < |vlans| ==> vlans[i] != vlans[j]
    requires Accounted(shared) && Runs(setup, Opening(shared, vlans), run, b)
    requires Reported(b) == [] && !b.shared.budget.truncated
    ensures b.skipped == [] <==> OnTime(run, shared.budget.deadline)
  {
    hide Accounted;
    hide Reported;
    SkippedExactly(setup, shared, vlans, run, b);
    NoLateStarts(setup, Opening(shared, vlans), run, b, shared.budget.deadline);
  }

  // ---- Whose rows there are ----

  /** Rows are kept of VLANs that were read, that failed, or that a spent budget cut short. */
  ghost predicate ResultsFiled(b: Board) {
    forall v | v in b.results :: v in b.read || v in b.failed || b.shared.budget.truncated
  }

  lemma StepResultsFiled(setup: Setup, b: Board, a: Action, allowance: int, parsed: int)
    requires Good(setup, b, allowance, parsed) && Enabled(setup, b, a) && ResultsFiled(b)
    ensures ResultsFiled(Step(setup, b, a))
  {
    hide TurnOf;
    hide Sane;
    hide ReaderSane;
    hide Good;
    if a.Answer? {
      var r := b.readers[a.i];
      GoodReader(setup, b, a.i, allowance, parsed);
      TurnFair(setup, b.shared, b.vlans[a.i], r, a.now, a.reply, a.later);
    }
  }

  lemma {:induction false} RunsResultsFiled(setup: Setup, b: Board, run: seq<Action>, b': Board, allowance: int,
                                            parsed: int)
    requires Good(setup, b, allowance, parsed) && Runs(setup, b, run, b') && ResultsFiled(b)
    ensures ResultsFiled(b') && Good(setup, b', allowance, parsed)
    decreases |run|
  {
    hide Good;
    hide Step;
    hide ResultsFiled;
    if run != [] {
      StepGood(setup, b, run[0], allowance, parsed);
      StepResultsFiled(setup, b, run[0], allowance, parsed);
      RunsResultsFiled(setup, Step(setup, b, run[0]), run[1..], b', allowance, parsed);
    }
  }

  lemma {:induction false} GatheredFrom(b: Board, n: nat)
    requires n <= |b.vlans| && ResultsFiled(b) && b.failed == [] && !b.shared.budget.truncated
    requires forall v | v in b.results :: OnVlan(b.results[v], v)
    ensures forall r | r in Gathered(b, n) :: exists v :: v in b.read && r.vlan == Some(v)
  {
    if n > 0 {
      GatheredFrom(b, n - 1);
      var v := b.vlans[n - 1];
      if v in b.results {
        assert forall r | r in b.results[v] :: r.vlan == Some(v);
      }
    }
  }

  /** A read that leaves no problem and no spent budget behind has rows of the VLANs it has read,
      and of no other. */
  lemma RowsOfRead(setup: Setup, shared: Shared, vlans: seq<int>, run: seq<Action>, b: Board)
    requires forall i, j :: 0 <= i < j < |vlans| ==> vlans[i] != vlans[j]
    requires Accounted(shared) && Runs(setup, Opening(shared, vlans), run, b) && Finished(b)
    requires Reported(b) == [] && !b.shared.budget.truncated
    ensures forall r | r in Gathered(b, |b.vlans|) :: exists v :: v in b.read && r.vlan == Some(v)
  {
    hide Accounted;
    hide Runs;
    hide Reported;
    hide Finished;
    hide Gathered;
    FinishedRead(setup, shared, vlans, run, b);
    OpeningGood(setup, shared, vlans);
    RunsResultsFiled(setup, Opening(shared, vlans), run, b, shared.budget.rowsLeft,
                     shared.parsed - shared.dropped.Total());
    assert forall v | v in b.results :: OnVlan(b.results[v], v);
    GatheredFrom(b, |b.vlans|);
  }

  // ---- In the world ----

  /** The clock does not show the deadline from moment `from` up to moment `to`. */
  ghost predicate InTime(world: World, deadline: int, from: nat, to: nat) {
    forall n: nat :: from <= n < to ==> world.clock(n) < deadline
  }

  /** Every reading of the clock in a run is one of the world's, at a moment of the run. */
  lemma {:induction false} RunInTime(world: World, setup: Setup, b: Board, run: seq<Action>, at: nat, deadline: int)
    requires FromWorld(world, setup, b, run, at) && InTime(world, deadline, at, at + 2 * |run|)
    ensures OnTime(run, deadline)
    decreases |run|
  {
    hide Step;
    hide Awake;
    if run != [] {
      RunInTime(world, setup, Step(setup, b, run[0]), run[1..], at + 2, deadline);
      assert forall k | 0 < k < |run| :: run[k] == run[1..][k - 1];
      assert world.clock(at) < deadline;
    }
  }

  /** While the clock is before the deadline, a read that leaves no problem and no spent budget
      behind skips nothing. */
  lemma NothingSkipped(world: World, setup: Setup, shared: Shared, vlans: seq<int>, at: nat, run: seq<Action>, b: Board)
    requires forall i, j :: 0 <= i < j < |vlans| ==> vlans[i] != vlans[j]
    requires Accounted(shared) && ReadBy(world, setup, shared, vlans, at, run, b)
    requires InTime(world, shared.budget.deadline, at, at + 2 * |run|)
    requires Reported(b) == [] && !b.shared.budget.truncated
    ensures b.skipped == []
  {
    hide Accounted;
    hide InTime;
    hide FromWorld;
    hide Runs;
    hide OnTime;
    RunInTime(world, setup, Opening(shared, vlans), run, at, shared.budget.deadline);
    NothingSkippedIff(setup, shared, vlans, run, b);
  }

  /** A read whose time is up when it turns to its one VLAN: the VLAN is skipped, nothing is
      reported, and the budget is not marked spent. */
  lemma SilentSkip(setup: Setup, shared: Shared, v: int)
    requires shared.problems == [] && !shared.budget.truncated
    ensures exists world, run, b ::
              && ReadBy(world, setup, shared, [v], 0, run, b)
              && Reported(b) == [] && !b.shared.budget.truncated && b.skipped == [v]
  {
    var deadline := shared.budget.deadline;
    var world := World((n: nat) => deadline, (n: nat, c: Context, names: seq<Oid>, r: nat) => Raised);
    var opening, a := Opening(shared, [v]), Start(0, deadline);
    var b := Enter(setup, opening, 0, deadline);
    assert opening.readers == [Waiting] && Flying(opening.readers[..0]) == 0;
    assert Enabled(setup, opening, a) && Awake(setup, opening, 0);
    assert Step(setup, opening, a) == b && [a][1..] == [];
    assert Runs(setup, b, [], b) && FromWorld(world, setup, b, [], 2);
    assert ReadBy(world, setup, shared, [v], 0, [a], b);
  }
}
