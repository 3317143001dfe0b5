/** Safety of the per-VLAN reader over all its runs. */
module ContextsRuns {
  import opened Oids
  import opened Agent
  import opened Text
  import opened Walk
  import opened WalkRun
  import opened Fdb
  import opened Contexts
  import opened ContextsProofs

  /** A reader went on to its next await. */
  function Going(b: Board, i: nat, shared: Shared, reader: Reader): Board
    requires i < |b.readers|
  {
    b.(shared := shared, readers := b.readers[i := reader])
  }

  // ---- The abort rule ----

  lemma OneMoreDone(done: seq<Done>, d: Done)
    ensures InARow(done + [d]) ==
              match d.outcome case Whole => [] case CutShort => InARow(done) case Failed => InARow(done) + [d.vid]
    ensures Tripped(done + [d]) <==> Tripped(done) || |InARow(done + [d])| >= ABORT_AFTER
  {
    assert (done + [d])[..|done|] == done;
  }

  lemma EnterAborts(setup: Setup, b: Board, i: nat, now: int)
    requires i < |b.readers| == |b.vlans| && b.readers[i].Waiting? && Flying(b.readers) < CONCURRENCY
    requires AbortRule(b)
    ensures AbortRule(Enter(setup, b, i, now))
  {
    ReplaceReader(b.readers, i, Closed(0, 0));
    ReplaceReader(b.readers, i, ReadingBase(Begin([setup.oids.basePort], REPETITIONS)));
  }

  lemma GoingAborts(b: Board, i: nat, shared: Shared, reader: Reader)
    requires i < |b.readers| && b.readers[i].InFlight() && reader.InFlight() && AbortRule(b)
    ensures AbortRule(Going(b, i, shared, reader))
  {
    ReplaceReader(b.readers, i, reader);
  }

  lemma FileAborts(b: Board, i: nat, turn: Progress)
    requires i < |b.readers| == |b.vlans| && b.readers[i].InFlight() && turn.Ends? && AbortRule(b)
    ensures AbortRule(File(b, i, turn))
  {
    ReplaceReader(b.readers, i, Closed(turn.made, |turn.rows|));
    OneMoreDone(b.done, Done(b.vlans[i], turn.outcome));
  }

  // ---- Filing ----

  lemma Refiled(b: Board, b': Board, i: nat)
    requires Filing(b) && i < |b.readers| && !b.readers[i].Closed?
    requires b'.vlans == b.vlans && |b'.readers| == |b.readers| && b'.readers[i].Closed?
    requires forall j :: 0 <= j < |b.readers| && j != i ==> b'.readers[j] == b.readers[j]
    requires Filed(b') == Filed(b) + multiset{b.vlans[i]}
    ensures Filing(b')
  {
    forall j {:trigger b'.readers[j]} | 0 <= j < |b'.readers|
      ensures Filed(b')[b'.vlans[j]] == if b'.readers[j].Closed? then 1 else 0
    {
      assert b.readers[j] == b.readers[j];
    }
  }

  lemma EnterFiles(setup: Setup, b: Board, i: nat, now: int)
    requires i < |b.readers| && b.readers[i].Waiting? && Filing(b)
    ensures Filing(Enter(setup, b, i, now))
  {
    var b' := Enter(setup, b, i, now);
    if b'.readers[i].Closed? {
      Refiled(b, b', i);
    } else {
      assert Filed(b') == Filed(b);
    }
  }

  lemma FileFiles(b: Board, i: nat, turn: Progress)
    requires i < |b.readers| && b.readers[i].InFlight() && turn.Ends? && Filing(b)
    ensures Filing(File(b, i, turn))
  {
    Refiled(b, File(b, i, turn), i);
  }

  /** When all tasks are through, every planned VLAN is in exactly one list, exactly once. */
  lemma FinishedFiles(b: Board)
    requires Filing(b) && Finished(b)
    ensures Filed(b) == multiset(b.vlans)
  {
    forall v ensures Filed(b)[v] == multiset(b.vlans)[v] {
      if v in b.vlans {
        var i :| 0 <= i < |b.vlans| && b.vlans[i] == v;
        assert b.readers[i].Closed?;
        OnceIn(b.vlans, i);
      } else {
        assert v !in Filed(b);
      }
    }
  }

  lemma {:induction false} OnceIn(s: seq<int>, i: nat)
    requires i < |s| && forall j, k :: 0 <= j < k < |s| ==> s[j] != s[k]
    ensures multiset(s)[s[i]] == 1
  {
    var rest := s[..i] + s[i + 1..];
    assert s == s[..i] + [s[i]] + s[i + 1..];
    assert multiset(s) == multiset(rest) + multiset{s[i]};
    assert s[i] !in rest;
  }

  // ---- Tallies ----

  lemma EnterTallies(setup: Setup, b: Board, i: nat, now: int, allowance: int, parsed: int)
    requires i < |b.readers| == |b.vlans| && b.readers[i].Waiting? && Tallies(b, allowance, parsed)
    ensures Tallies(Enter(setup, b, i, now), allowance, parsed)
  {
    ReplaceReader(b.readers, i, Closed(0, 0));
    ReplaceReader(b.readers, i, ReadingBase(Begin([setup.oids.basePort], REPETITIONS)));
  }

  lemma GoingTallies(setup: Setup, b: Board, i: nat, turn: Progress, allowance: int, parsed: int)
    requires i < |b.readers| == |b.vlans| && turn.Goes? && Tallies(b, allowance, parsed)
    requires FairTurn(setup, b.shared, b.vlans[i], b.readers[i], turn)
    ensures Tallies(Going(b, i, turn.shared, turn.reader), allowance, parsed)
  {
    ReplaceReader(b.readers, i, turn.reader);
  }

  lemma FileTallies(setup: Setup, b: Board, i: nat, turn: Progress, allowance: int, parsed: int)
    requires i < |b.readers| == |b.vlans| && turn.Ends? && Tallies(b, allowance, parsed)
    requires FairTurn(setup, b.shared, b.vlans[i], b.readers[i], turn)
    ensures Tallies(File(b, i, turn), allowance, parsed)
  {
    ReplaceReader(b.readers, i, Closed(turn.made, |turn.rows|));
  }

  // ---- Honesty, results, readers ----

  lemma EnterHonest(setup: Setup, b: Board, i: nat, now: int)
    requires i < |b.readers| == |b.vlans| && b.readers[i].Waiting? && Honesty(b)
    ensures Honesty(Enter(setup, b, i, now))
  {
    var b' := Enter(setup, b, i, now);
    if j :| 0 <= j < |b.readers| && HasFailed(b.readers[j]) {
      assert HasFailed(b'.readers[j]);
    }
  }

  lemma GoingHonest(setup: Setup, b: Board, i: nat, turn: Progress)
    requires i < |b.readers| == |b.vlans| && turn.Goes? && Honesty(b)
    requires FairTurn(setup, b.shared, b.vlans[i], b.readers[i], turn)
    ensures Honesty(Going(b, i, turn.shared, turn.reader))
  {
    hide Accounted;
    var b' := Going(b, i, turn.shared, turn.reader);
    if j :| 0 <= j < |b.readers| && HasFailed(b.readers[j]) {
      assert HasFailed(b'.readers[j]);
    } else if FailedAfter(turn) {
      assert HasFailed(b'.readers[i]);
    }
  }

  lemma FileHonest(setup: Setup, b: Board, i: nat, turn: Progress)
    requires i < |b.readers| == |b.vlans| && turn.Ends? && Honesty(b)
    requires FairTurn(setup, b.shared, b.vlans[i], b.readers[i], turn)
    ensures Honesty(File(b, i, turn))
  {
    hide Accounted;
    var b' := File(b, i, turn);
    if j :| 0 <= j < |b.readers| && HasFailed(b.readers[j]) {
      if j != i {
        assert HasFailed(b'.readers[j]);
      }
    }
  }

  lemma FileResults(setup: Setup, b: Board, i: nat, turn: Progress)
    requires i < |b.readers| && turn.Ends? && Results(b) && b.readers[i].InFlight()
    requires forall i, j :: 0 <= i < j < |b.vlans| ==> b.vlans[i] != b.vlans[j]
    requires FairTurn(setup, b.shared, b.vlans[i], b.readers[i], turn)
    ensures Results(File(b, i, turn))
  {
    var b' := File(b, i, turn);
    forall j {:trigger b'.readers[j]} | 0 <= j < |b'.readers|
      ensures if b'.vlans[j] in b'.results then b'.readers[j].Closed? && b'.readers[j].kept == |b'.results[b'.vlans[j]]|
              else b'.readers[j].Kept() == 0 || b'.readers[j].InFlight()
    {
      assert b.readers[j] == b.readers[j];
    }
  }

  lemma EnterResults(setup: Setup, b: Board, i: nat, now: int)
    requires i < |b.readers| && b.readers[i].Waiting? && Results(b)
    ensures Results(Enter(setup, b, i, now))
  {
    var b' := Enter(setup, b, i, now);
    forall j {:trigger b'.readers[j]} | 0 <= j < |b'.readers|
      ensures if b'.vlans[j] in b'.results then b'.readers[j].Closed? && b'.readers[j].kept == |b'.results[b'.vlans[j]]|
              else b'.readers[j].Kept() == 0 || b'.readers[j].InFlight()
    {
      assert b.readers[j] == b.readers[j] && b.readers[i] == b.readers[i];
    }
  }

  lemma GoingResults(b: Board, i: nat, shared: Shared, reader: Reader)
    requires i < |b.readers| && b.readers[i].InFlight() && reader.InFlight() && Results(b)
    ensures Results(Going(b, i, shared, reader))
  {
    var b' := Going(b, i, shared, reader);
    forall j {:trigger b'.readers[j]} | 0 <= j < |b'.readers|
      ensures if b'.vlans[j] in b'.results then b'.readers[j].Closed? && b'.readers[j].kept == |b'.results[b'.vlans[j]]|
              else b'.readers[j].Kept() == 0 || b'.readers[j].InFlight()
    {
      assert b.readers[j] == b.readers[j] && b.readers[i] == b.readers[i];
    }
  }

  lemma ReadersKept(setup: Setup, b: Board, b': Board, i: nat)
    requires Readers(setup, b) && i < |b.readers| == |b'.readers| && b'.vlans == b.vlans
    requires b'.readers == b.readers[i := b'.readers[i]]
    requires ReaderSane(setup, b'.shared, b.vlans[i], b'.readers[i])
    requires b.shared.budget.truncated ==> b'.shared.budget.truncated
    ensures Readers(setup, b')
  {
    forall j {:trigger b'.readers[j]} | 0 <= j < |b'.readers|
      ensures ReaderSane(setup, b'.shared, b'.vlans[j], b'.readers[j])
    {
      assert ReaderSane(setup, b.shared, b.vlans[j], b.readers[j]);
    }
  }

  // ---- Every run ----

  ghost predicate Good(setup: Setup, b: Board, allowance: int, parsed: int) {
    && Readers(setup, b)
    && AbortRule(b)
    && Filing(b)
    && Tallies(b, allowance, parsed)
    && Honesty(b)
    && Results(b)
  }

  lemma EnterGood(setup: Setup, b: Board, i: nat, now: int, allowance: int, parsed: int)
    requires Good(setup, b, allowance, parsed) && i < |b.readers| && b.readers[i].Waiting?
    requires Flying(b.readers) < CONCURRENCY
    ensures Good(setup, Enter(setup, b, i, now), allowance, parsed)
    ensures Moves(b.shared, Enter(setup, b, i, now).shared)
  {
    EnterAborts(setup, b, i, now);
    EnterFiles(setup, b, i, now);
    EnterTallies(setup, b, i, now, allowance, parsed);
    EnterHonest(setup, b, i, now);
    EnterResults(setup, b, i, now);
    assert Readers(setup, Enter(setup, b, i, now)) by { EnterReaders(setup, b, i, now); }
  }

  lemma EnterReaders(setup: Setup, b: Board, i: nat, now: int)
    requires Readers(setup, b) && i < |b.readers| == |b.vlans|
    ensures Readers(setup, Enter(setup, b, i, now))
  {
    hide Sane;
    hide Begin;
    var reader := ReadingBase(Begin([setup.oids.basePort], REPETITIONS));
    BeginFair(setup, reader, [setup.oids.basePort]);
    ReadersKept(setup, b, Enter(setup, b, i, now), i);
  }

  lemma FilingDistinct(b: Board)
    requires Filing(b)
    ensures |b.readers| == |b.vlans|
    ensures forall i, j :: 0 <= i < j < |b.vlans| ==> b.vlans[i] != b.vlans[j]
  {
  }

  lemma FairMoves(setup: Setup, s: Shared, vid: int, r: Reader, t: Progress)
    requires FairTurn(setup, s, vid, r, t)
    ensures Moves(s, t.shared)
    ensures t.Goes? ==> t.reader.InFlight() && ReaderSane(setup, t.shared, vid, t.reader)
  {
  }

  lemma ClosedSane(setup: Setup, s: Shared, vid: int, made: nat, kept: nat)
    ensures ReaderSane(setup, s, vid, Closed(made, kept))
  {
  }

  lemma AnswerGood(setup: Setup, b: Board, i: nat, turn: Progress, allowance: int, parsed: int)
    requires Good(setup, b, allowance, parsed) && i < |b.readers| && b.readers[i].InFlight()
    requires FairTurn(setup, b.shared, b.vlans[i], b.readers[i], turn)
    ensures var b' := if turn.Goes? then Going(b, i, turn.shared, turn.reader) else File(b, i, turn);
            Good(setup, b', allowance, parsed) && Moves(b.shared, b'.shared)
  {
    hide ReaderSane;
    hide Readers;
    hide AbortRule;
    hide Filing;
    hide Tallies;
    hide Honesty;
    hide Results;
    hide FairTurn;
    FilingDistinct(b);
    FairMoves(setup, b.shared, b.vlans[i], b.readers[i], turn);
    if turn.Goes? {
      GoingAborts(b, i, turn.shared, turn.reader);
      GoingTallies(setup, b, i, turn, allowance, parsed);
      GoingHonest(setup, b, i, turn);
      GoingResults(b, i, turn.shared, turn.reader);
      ReadersKept(setup, b, Going(b, i, turn.shared, turn.reader), i);
      assert Filing(Going(b, i, turn.shared, turn.reader)) by { GoingFiles(b, i, turn.shared, turn.reader); }
    } else {
      FileAborts(b, i, turn);
      FileFiles(b, i, turn);
      FileTallies(setup, b, i, turn, allowance, parsed);
      FileHonest(setup, b, i, turn);
      FileResults(setup, b, i, turn);
      ClosedSane(setup, turn.shared, b.vlans[i], turn.made, |turn.rows|);
      ReadersKept(setup, b, File(b, i, turn), i);
    }
  }

  lemma GoingFiles(b: Board, i: nat, shared: Shared, reader: Reader)
    requires i < |b.readers| && b.readers[i].InFlight() && reader.InFlight() && Filing(b)
    ensures Filing(Going(b, i, shared, reader))
  {
    var b' := Going(b, i, shared, reader);
    assert Filed(b') == Filed(b);
    forall j {:trigger b'.readers[j]} | 0 <= j < |b'.readers|
      ensures Filed(b')[b'.vlans[j]] == if b'.readers[j].Closed? then 1 else 0
    {
      assert b.readers[j] == b.readers[j] && b.readers[i] == b.readers[i];
    }
  }

  lemma StepGood(setup: Setup, b: Board, a: Action, allowance: int, parsed: int)
    requires Good(setup, b, allowance, parsed) && Enabled(setup, b, a)
    ensures Good(setup, Step(setup, b, a), allowance, parsed)
    ensures Moves(b.shared, Step(setup, b, a).shared)
  {
    hide Good;
    hide TurnOf;
    hide Enter;
    hide File;
    hide Moves;
    hide FairTurn;
    match a
    case Start(i, now) => EnterGood(setup, b, i, now, allowance, parsed);
    case Answer(i, now, reply, later) =>
      assert ReaderSane(setup, b.shared, b.vlans[i], b.readers[i]) by { GoodReader(setup, b, i, allowance, parsed); }
      TurnFair(setup, b.shared, b.vlans[i], b.readers[i], now, reply, later);
      AnswerGood(setup, b, i, TurnOf(setup, b.shared, b.vlans[i], b.readers[i], now, reply, later),
                 allowance, parsed);
  }

  lemma GoodReader(setup: Setup, b: Board, i: nat, allowance: int, parsed: int)
    requires Good(setup, b, allowance, parsed) && i < |b.readers|
    ensures |b.vlans| == |b.readers| && ReaderSane(setup, b.shared, b.vlans[i], b.readers[i])
  {
  }

  lemma MovesOn(a: Shared, b: Shared, c: Shared)
    requires Moves(a, b) && Moves(b, c)
    ensures Moves(a, c)
  {
  }

  lemma OpeningGood(setup: Setup, shared: Shared, vlans: seq<int>)
    requires forall i, j :: 0 <= i < j < |vlans| ==> vlans[i] != vlans[j]
    requires Accounted(shared)
    ensures Good(setup, Opening(shared, vlans), shared.budget.rowsLeft,
                 shared.parsed - shared.dropped.Total())
  {
    var b := Opening(shared, vlans);
    NobodyFlies(b.readers);
    NothingYet(b.readers);
  }

  lemma {:induction false} NothingYet(readers: seq<Reader>)
    requires forall i :: 0 <= i < |readers| ==> readers[i] == Waiting
    ensures TotalMade(readers) == 0 && TotalKept(readers) == 0
  {
    if readers != [] {
      NothingYet(readers[..|readers| - 1]);
    }
  }

  /** Whatever the order in which tasks enter and agents answer, the board stays good: at most
      CONCURRENCY contexts in flight, the abort rule and its bound, one place per VLAN, the
      shared row allowance, every entry accounted for, no early end unmentioned. */
  lemma {:induction false} RunsGood(setup: Setup, b: Board, run: seq<Action>, b': Board,
                                    allowance: int, parsed: int)
    requires Good(setup, b, allowance, parsed) && Runs(setup, b, run, b')
    ensures Good(setup, b', allowance, parsed) && Moves(b.shared, b'.shared)
    decreases |run|
  {
    hide Good;
    hide Step;
    if run != [] {
      StepGood(setup, b, run[0], allowance, parsed);
      RunsGood(setup, Step(setup, b, run[0]), run[1..], b', allowance, parsed);
      MovesOn(b.shared, Step(setup, b, run[0]).shared, b'.shared);
    }
  }

  /** What a run of the readers shows at any moment. */
  lemma EveryMoment(setup: Setup, shared: Shared, vlans: seq<int>, run: seq<Action>, b: Board)
    requires forall i, j :: 0 <= i < j < |vlans| ==> vlans[i] != vlans[j]
    requires Accounted(shared) && shared.budget.rowsLeft >= 0
    requires Runs(setup, Opening(shared, vlans), run, b)
    ensures Flying(b.readers) <= CONCURRENCY
    ensures b.aborted != [] <==> Tripped(b.done)
    ensures |b.aborted| <= ABORT_AFTER + CONCURRENCY - 1
    ensures b.shared.budget.rowsLeft + TotalMade(b.readers) == shared.budget.rowsLeft
    ensures b.shared.budget.rowsLeft >= 0
    ensures shared.budget.truncated ==> b.shared.budget.truncated
    ensures shared.budget.reason != Unset ==> b.shared.budget.reason == shared.budget.reason
    ensures forall v | v in b.results :: OnVlan(b.results[v], v)
  {
    OpeningGood(setup, shared, vlans);
    RunsGood(setup, Opening(shared, vlans), run, b, shared.budget.rowsLeft,
             shared.parsed - shared.dropped.Total());
  }

  // ---- After the abort ----

  lemma StepSkips(setup: Setup, b: Board, a: Action, i: nat)
    requires Enabled(setup, b, a) && AbortRule(b) && Tripped(b.done)
    requires i < |b.readers| && (b.readers[i] == Waiting || b.readers[i] == Closed(0, 0))
    ensures var b' := Step(setup, b, a);
            && |b'.readers| == |b.readers|
            && Tripped(b'.done) && (b'.readers[i] == Waiting || b'.readers[i] == Closed(0, 0))
  {
    hide TurnOf;
    if a.Answer? {
      var turn := TurnOf(setup, b.shared, b.vlans[a.i], b.readers[a.i], a.now, a.reply, a.later);
      if turn.Ends? {
        OneMoreDone(b.done, Done(b.vlans[a.i], turn.outcome));
      }
    }
  }

  /** Once ABORT_AFTER contexts have failed with no success between, no further context is
      ever started: what was waiting is waiting still, or was skipped unread. */
  lemma {:induction false} NothingStarts(setup: Setup, b: Board, run: seq<Action>, b': Board, i: nat,
                                         allowance: int, parsed: int)
    requires Good(setup, b, allowance, parsed) && Runs(setup, b, run, b') && Tripped(b.done)
    requires i < |b.readers| && (b.readers[i] == Waiting || b.readers[i] == Closed(0, 0))
    ensures i < |b'.readers| && (b'.readers[i] == Waiting || b'.readers[i] == Closed(0, 0))
    decreases |run|
  {
    hide Step;
    hide Good;
    if run != [] {
      assert AbortRule(b) by { GoodAborts(setup, b, allowance, parsed); }
      StepSkips(setup, b, run[0], i);
      StepGood(setup, b, run[0], allowance, parsed);
      NothingStarts(setup, Step(setup, b, run[0]), run[1..], b', i, allowance, parsed);
    }
  }

  lemma GoodAborts(setup: Setup, b: Board, allowance: int, parsed: int)
    requires Good(setup, b, allowance, parsed)
    ensures AbortRule(b)
  {
  }

  lemma {:induction false} SomeoneFlies(readers: seq<Reader>)
    requires Flying(readers) > 0
    ensures exists i :: 0 <= i < |readers| && readers[i].InFlight()
  {
    if !readers[|readers| - 1].InFlight() {
      SomeoneFlies(readers[..|readers| - 1]);
      var i :| 0 <= i < |readers| - 1 && readers[..|readers| - 1][i].InFlight();
      assert readers[i].InFlight();
    }
  }

  /** The tasks never wait for each other for good: until all are through, one can go on. */
  lemma NeverStuck(setup: Setup, b: Board, allowance: int, parsed: int)
    requires Good(setup, b, allowance, parsed) && !Finished(b)
    ensures exists a :: Enabled(setup, b, a)
  {
    hide Sane;
    if Flying(b.readers) > 0 {
      SomeoneFlies(b.readers);
      var i :| 0 <= i < |b.readers| && b.readers[i].InFlight();
      assert ReaderSane(setup, b.shared, b.vlans[i], b.readers[i]);
      SaneShaped(ConfigOf(setup, b.readers[i]), b.readers[i].w);
      assert Enabled(setup, b, Answer(i, 0, Raised, 0));
    } else {
      var i :| 0 <= i < |b.readers| && !b.readers[i].Closed?;
      FlyingCounts(b.readers, i);
      assert Enabled(setup, b, Start(i, 0));
    }
  }

  lemma {:induction false} FlyingCounts(readers: seq<Reader>, i: nat)
    requires i < |readers|
    ensures readers[i].InFlight() ==> Flying(readers) > 0
  {
    if i < |readers| - 1 {
      FlyingCounts(readers[..|readers| - 1], i);
    }
  }

  // ---- When all tasks are through ----

  lemma {:induction false} GatheredCount(b: Board, n: nat)
    requires Results(b) && Finished(b) && n <= |b.vlans|
    ensures |Gathered(b, n)| == TotalKept(b.readers[..n])
  {
    if n > 0 {
      GatheredCount(b, n - 1);
      assert b.readers[..n][..n - 1] == b.readers[..n - 1];
      assert b.readers[n - 1].Closed?;
    }
  }

  lemma {:induction false} GatheredFrom(b: Board, n: nat, r: Row)
    requires n <= |b.vlans| && r in Gathered(b, n)
    ensures exists i :: 0 <= i < n && b.vlans[i] in b.results && r in b.results[b.vlans[i]]
  {
    if n > 0 && !(b.vlans[n - 1] in b.results && r in b.results[b.vlans[n - 1]]) {
      GatheredFrom(b, n - 1, r);
    }
  }

  /** A finished per-VLAN read: each planned VLAN is in exactly one of read, skipped and failed;
      every entry handed to the filter is a row or a counted drop; every row carries a planned
      VLAN; and if nothing is reported and the budget held, every walk issued ran to its end
      and no context failed. */
  lemma FinishedRead(setup: Setup, shared: Shared, vlans: seq<int>, run: seq<Action>, b: Board)
    requires forall i, j :: 0 <= i < j < |vlans| ==> vlans[i] != vlans[j]
    requires Accounted(shared)
    requires Runs(setup, Opening(shared, vlans), run, b) && Finished(b)
    ensures b.vlans == vlans
    ensures multiset(b.read) + multiset(b.skipped) + multiset(b.failed) == multiset(vlans)
    ensures b.shared.parsed - shared.parsed
            == |Gathered(b, |b.vlans|)| + b.shared.dropped.Total() - shared.dropped.Total()
    ensures forall r | r in Gathered(b, |b.vlans|) :: exists v :: v in vlans && r.vlan == Some(v)
    ensures Reported(b) == [] && !b.shared.budget.truncated ==>
              b.failed == [] && forall i :: 0 <= i < |b.shared.walks| ==> b.shared.walks[i]
    ensures shared.problems <= Reported(b) && Moves(shared, b.shared)
  {
    var parsed := shared.parsed - shared.dropped.Total();
    OpeningGood(setup, shared, vlans);
    RunsGood(setup, Opening(shared, vlans), run, b, shared.budget.rowsLeft, parsed);
    assert b.vlans == vlans by { RunsSameVlans(setup, Opening(shared, vlans), run, b); }
    FinishedFiles(b);
    GatheredCount(b, |b.vlans|);
    assert b.readers[..|b.vlans|] == b.readers;
    forall r | r in Gathered(b, |b.vlans|) ensures exists v :: v in vlans && r.vlan == Some(v) {
      GatheredFrom(b, |b.vlans|, r);
    }
    ReportedMeaning(b);
  }

  lemma {:induction false} RunsSameVlans(setup: Setup, b: Board, run: seq<Action>, b': Board)
    requires Runs(setup, b, run, b')
    ensures b'.vlans == b.vlans
    decreases |run|
  {
    if run != [] {
      StepSameVlans(setup, b, run[0]);
      RunsSameVlans(setup, Step(setup, b, run[0]), run[1..], b');
    }
  }

  lemma StepSameVlans(setup: Setup, b: Board, a: Action)
    requires Enabled(setup, b, a)
    ensures Step(setup, b, a).vlans == b.vlans
  {
    hide TurnOf;
  }

  lemma ReportedMeaning(b: Board)
    requires Honesty(b) && Finished(b)
    ensures b.shared.problems <= Reported(b)
    ensures Reported(b) == [] && !b.shared.budget.truncated ==>
              b.failed == [] && forall i :: 0 <= i < |b.shared.walks| ==> b.shared.walks[i]
  {
    var others := set v | v in b.failed && v !in b.aborted;
    assert b.failed != [] && b.aborted == [] ==> b.failed[0] in others;
  }
}
