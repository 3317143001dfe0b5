/** The converse of honesty: what a read complains of did happen. Whenever a problem is on file,
    the budget is spent, or a context failed, some walk has ended early. */
module ContextsBlame {
  import opened Oids
  import opened Agent
  import opened Walk
  import opened WalkSafety
  import opened WalkBounds
  import opened Fdb
  import opened Contexts
  import opened ContextsProofs
  import opened ContextsRuns

  predicate SomeEnded(walks: seq<bool>) {
    exists i :: 0 <= i < |walks| && !walks[i]
  }

  predicate Blame(s: Shared) {
    s.problems != [] || s.budget.truncated ==> SomeEnded(s.walks)
  }

  lemma EndedStays(walks: seq<bool>, more: seq<bool>)
    requires walks <= more && SomeEnded(walks)
    ensures SomeEnded(more)
  {
    var i :| 0 <= i < |walks| && !walks[i];
    assert !more[i];
  }

  lemma EndedNow(walks: seq<bool>)
    ensures SomeEnded(walks + [false])
  {
    assert !(walks + [false])[|walks|];
  }

  /** A request spends the budget only by cutting its walk. */
  lemma AttemptBlames(setup: Setup, s: Shared, r: Reader, now: int, reply: Reply)
    requires r.InFlight() && Sane(ConfigOf(setup, r), r.w) && r.w.open
    ensures var a := Attempt(ConfigOf(setup, r), State(r.w, s.budget), now, reply);
            && Sane(ConfigOf(setup, r), a.walk)
            && (a.walk.open || a.walk.complete ==> a.budget.truncated == s.budget.truncated)
  {
    hide Attempt;
    hide TableSane;
    AttemptSafe(ConfigOf(setup, r), State(r.w, s.budget), now, reply);
    AttemptSpends(ConfigOf(setup, r), State(r.w, s.budget), now, reply);
  }

  lemma TurnBlames(setup: Setup, s: Shared, vid: int, r: Reader, now: int, reply: Reply, later: int)
    requires r.InFlight() && ReaderSane(setup, s, vid, r) && Shaped(ConfigOf(setup, r), r.w)
    requires Blame(s) && (HasFailed(r) ==> SomeEnded(s.walks))
    ensures var t := TurnOf(setup, s, vid, r, now, reply, later);
            && s.walks <= t.shared.walks
            && Blame(t.shared) && (FailedAfter(t) ==> SomeEnded(t.shared.walks))
  {
    hide Attempt;
    hide Sane;
    hide SomeEnded;
    hide Learned;
    hide ParseRows;
    hide HasLogical;
    hide FoldIf;
    hide FoldRows;
    hide UnitPortsOf;
    hide Begin;
    AttemptBlames(setup, s, r, now, reply);
    EndedNow(s.walks);
    if SomeEnded(s.walks) {
      EndedStays(s.walks, s.walks + [true]);
    }
  }

  ghost predicate BoardBlame(b: Board) {
    && Blame(b.shared)
    && (b.failed != [] || b.aborted != [] || b.streak != [] ==> SomeEnded(b.shared.walks))
    && forall i {:trigger b.readers[i]} :: 0 <= i < |b.readers| && HasFailed(b.readers[i]) ==> SomeEnded(b.shared.walks)
  }

  lemma StepBlames(setup: Setup, b: Board, a: Action, allowance: int, parsed: int)
    requires Good(setup, b, allowance, parsed) && Enabled(setup, b, a) && BoardBlame(b)
    ensures BoardBlame(Step(setup, b, a))
  {
    hide TurnOf;
    hide Good;
    hide ReaderSane;
    hide SomeEnded;
    if a.Answer? {
      var r := b.readers[a.i];
      GoodReader(setup, b, a.i, allowance, parsed);
      TurnBlames(setup, b.shared, b.vlans[a.i], r, a.now, a.reply, a.later);
      var t := TurnOf(setup, b.shared, b.vlans[a.i], r, a.now, a.reply, a.later);
      if SomeEnded(b.shared.walks) {
        EndedStays(b.shared.walks, t.shared.walks);
      }
    }
    var b' := Step(setup, b, a);
    assert forall i {:trigger b'.readers[i]} :: 0 <= i < |b'.readers| && i != a.i ==> b'.readers[i] == b.readers[i];
  }

  /** Over every interleaving of the tasks. */
  lemma {:induction false} RunsBlame(setup: Setup, b: Board, run: seq<Action>, b': Board, allowance: int, parsed: int)
    requires Good(setup, b, allowance, parsed) && BoardBlame(b) && Runs(setup, b, run, b')
    ensures BoardBlame(b')
    decreases |run|
  {
    hide Good;
    hide Step;
    hide BoardBlame;
    if run != [] {
      StepBlames(setup, b, run[0], allowance, parsed);
      StepGood(setup, b, run[0], allowance, parsed);
      RunsBlame(setup, Step(setup, b, run[0]), run[1..], b', allowance, parsed);
    }
  }

  /** What is reported when all tasks are through. */
  lemma FinishedBlame(setup: Setup, shared: Shared, vlans: seq<int>, run: seq<Action>, b: Board)
    requires forall i, j :: 0 <= i < j < |vlans| ==> vlans[i] != vlans[j]
    requires Accounted(shared) && Blame(shared) && Runs(setup, Opening(shared, vlans), run, b)
    ensures Blame(b.shared.(problems := Reported(b)))
  {
    hide Accounted;
    hide SomeEnded;
    OpeningGood(setup, shared, vlans);
    hide Good;
    RunsBlame(setup, Opening(shared, vlans), run, b, shared.budget.rowsLeft, shared.parsed - shared.dropped.Total());
    var others := set v | v in b.failed && v !in b.aborted;
    assert b.failed == [] ==> others == {};
  }
}
