/** A per-VLAN read ends: no agent and no order of events keeps the tasks busy for good. */
module ContextsEnds {
  import opened Oids
  import opened Agent
  import opened Text
  import opened Walk
  import opened WalkBounds
  import opened Fdb
  import opened Contexts
  import opened ContextsProofs
  import opened ContextsRuns

  ghost predicate LegalScheme(oids: Scheme) {
    && Legal(oids.basePort) && Legal(oids.qPort) && Legal(oids.qStatus) && Legal(oids.vlanFdb)
    && Legal(oids.vlanName) && Legal(oids.dPort) && Legal(oids.dStatus) && Legal(oids.ifStack)
    && LegalCursors(oids.entLogical) && Legal(oids.vlanState)
  }

  /** Requests a walk can still send, at most. */
  function RequestsLeft(w: Walk, depth: nat): int {
    2 * (Ahead(w.last, depth) + |w.active| + Halvings(w.maxRep)) + 1 - w.attempt
  }

  function FullRequests(bases: seq<Oid>, depth: nat): int {
    RequestsLeft(Begin(bases, REPETITIONS), depth)
  }

  /** Steps a reader can still take, at most. */
  function StepsLeft(oids: Scheme, r: Reader, depth: nat): int {
    var stack := 1 + FullRequests([oids.ifStack], depth);
    var fdb := 1 + FullRequests([oids.dPort, oids.dStatus], depth);
    match r
    case Waiting => 2 + FullRequests([oids.basePort], depth) + fdb + stack
    case ReadingBase(w) => 1 + RequestsLeft(w, depth) + fdb + stack
    case ReadingFdb(_, w) => 1 + RequestsLeft(w, depth) + stack
    case ReadingStack(_, _, _, w) => 1 + RequestsLeft(w, depth)
    case Closed(_, _) => 0
  }

  ghost predicate LegalReader(r: Reader) {
    r.InFlight() ==> LegalCursors(r.w.last)
  }

  lemma BeginLegal(bases: seq<Oid>, depth: nat)
    requires LegalCursors(bases)
    ensures LegalCursors(Begin(bases, REPETITIONS).last) && FullRequests(bases, depth) >= 1
  {
  }

  /** A request costs at least one of the requests left. */
  lemma RequestCosts(setup: Setup, s: Shared, r: Reader, now: int, reply: Reply, depth: nat)
    requires r.InFlight() && Sane(ConfigOf(setup, r), r.w) && r.w.open
    requires LegalCursors(r.w.last) && depth >= MAX_LENGTH
    ensures var w := Attempt(ConfigOf(setup, r), State(r.w, s.budget), now, reply).walk;
            && RequestsLeft(r.w, depth) >= 0
            && (w.open ==> LegalCursors(w.last) && RequestsLeft(w, depth) < RequestsLeft(r.w, depth))
  {
    hide Attempt;
    hide Ahead;
    hide Halvings;
    hide LegalCursors;
    AttemptAdvances(ConfigOf(setup, r), State(r.w, s.budget), now, reply, depth);
  }

  lemma TurnShrinks(setup: Setup, s: Shared, vid: int, r: Reader, now: int, reply: Reply, later: int, depth: nat)
    requires LegalScheme(setup.oids) && depth >= MAX_LENGTH
    requires r.InFlight() && Sane(ConfigOf(setup, r), r.w) && r.w.open && LegalCursors(r.w.last)
    ensures var t := TurnOf(setup, s, vid, r, now, reply, later);
            && (t.Goes? ==> LegalReader(t.reader)
                            && StepsLeft(setup.oids, t.reader, depth) < StepsLeft(setup.oids, r, depth))
            && (t.Ends? ==> StepsLeft(setup.oids, r, depth) > 0)
  {
    hide Attempt;
    hide Sane;
    hide RequestsLeft;
    hide Begin;
    hide Learned;
    hide FoldIf;
    hide FoldRows;
    hide UnitPortsOf;
    hide ParseRows;
    hide HasLogical;
    RequestCosts(setup, s, r, now, reply, depth);
    BeginLegal([setup.oids.basePort], depth);
    BeginLegal([setup.oids.dPort, setup.oids.dStatus], depth);
    BeginLegal([setup.oids.ifStack], depth);
  }

  function TotalSteps(oids: Scheme, readers: seq<Reader>, depth: nat): int {
    if readers == [] then 0
    else TotalSteps(oids, readers[..|readers| - 1], depth) + StepsLeft(oids, readers[|readers| - 1], depth)
  }

  lemma {:induction false} ReplaceSteps(oids: Scheme, readers: seq<Reader>, i: nat, r: Reader, depth: nat)
    requires i < |readers|
    ensures TotalSteps(oids, readers[i := r], depth) + StepsLeft(oids, readers[i], depth)
            == TotalSteps(oids, readers, depth) + StepsLeft(oids, r, depth)
  {
    hide StepsLeft;
    var after, n := readers[i := r], |readers| - 1;
    if i == n {
      assert after[..n] == readers[..n];
    } else {
      assert after[..n] == readers[..n][i := r];
      ReplaceSteps(oids, readers[..n], i, r, depth);
    }
  }

  ghost predicate LegalReaders(readers: seq<Reader>) {
    forall i {:trigger readers[i]} :: 0 <= i < |readers| ==> LegalReader(readers[i])
  }

  /** Each step of any task brings the whole read nearer to its end. */
  lemma StepShrinks(setup: Setup, b: Board, a: Action, depth: nat)
    requires LegalScheme(setup.oids) && depth >= MAX_LENGTH
    requires Enabled(setup, b, a) && Readers(setup, b) && LegalReaders(b.readers)
    ensures LegalReaders(Step(setup, b, a).readers)
    ensures TotalSteps(setup.oids, Step(setup, b, a).readers, depth) < TotalSteps(setup.oids, b.readers, depth)
  {
    hide TurnOf;
    hide Sane;
    hide StepsLeft;
    hide LegalScheme;
    hide LegalCursors;
    var after := Step(setup, b, a).readers;
    assert LegalReader(b.readers[a.i]) && ReaderSane(setup, b.shared, b.vlans[a.i], b.readers[a.i]);
    match a {
      case Start(i, now) => EnterShrinks(setup, b, i, now, depth);
      case Answer(i, now, reply, later) =>
        TurnShrinks(setup, b.shared, b.vlans[i], b.readers[i], now, reply, later, depth);
        ClosedSteps(setup.oids, depth);
    }
    ReplaceSteps(setup.oids, b.readers, a.i, after[a.i], depth);
    assert after == b.readers[a.i := after[a.i]];
  }

  lemma ClosedSteps(oids: Scheme, depth: nat)
    ensures forall made, kept :: StepsLeft(oids, Closed(made, kept), depth) == 0
  {
  }

  lemma EnterShrinks(setup: Setup, b: Board, i: nat, now: int, depth: nat)
    requires LegalScheme(setup.oids) && i < |b.readers| == |b.vlans| && b.readers[i].Waiting?
    ensures var r := Enter(setup, b, i, now).readers[i];
            LegalReader(r) && StepsLeft(setup.oids, r, depth) < StepsLeft(setup.oids, b.readers[i], depth)
  {
    hide RequestsLeft;
    hide Begin;
    BeginLegal([setup.oids.basePort], depth);
    BeginLegal([setup.oids.dPort, setup.oids.dStatus], depth);
    BeginLegal([setup.oids.ifStack], depth);
  }

  lemma {:induction false} StepsNonNegative(setup: Setup, shared: Shared, vlans: seq<int>, readers: seq<Reader>,
                                            depth: nat)
    requires LegalScheme(setup.oids) && |readers| == |vlans|
    requires forall i {:trigger readers[i]} :: 0 <= i < |readers| ==> ReaderSane(setup, shared, vlans[i], readers[i])
    ensures TotalSteps(setup.oids, readers, depth) >= 0
  {
    hide StepsLeft;
    hide ReaderSane;
    hide LegalScheme;
    if readers != [] {
      var n := |readers| - 1;
      forall i {:trigger readers[..n][i]} | 0 <= i < n
        ensures ReaderSane(setup, shared, vlans[..n][i], readers[..n][i])
      {
        assert readers[..n][i] == readers[i];
      }
      StepsNonNegative(setup, shared, vlans[..n], readers[..n], depth);
      OneNonNegative(setup, shared, vlans[n], readers[n], depth);
    }
  }

  lemma OneNonNegative(setup: Setup, shared: Shared, vid: int, r: Reader, depth: nat)
    requires LegalScheme(setup.oids) && ReaderSane(setup, shared, vid, r)
    ensures StepsLeft(setup.oids, r, depth) >= 0
  {
    hide Begin;
    hide Ahead;
    hide Halvings;
    hide TableSane;
    BeginLegal([setup.oids.basePort], depth);
    BeginLegal([setup.oids.dPort, setup.oids.dStatus], depth);
    BeginLegal([setup.oids.ifStack], depth);
  }

  /** No run of the tasks is longer than what they had to do when it began. */
  lemma {:induction false} RunsEnd(setup: Setup, b: Board, run: seq<Action>, b': Board, allowance: int,
                                   parsed: int, depth: nat)
    requires LegalScheme(setup.oids) && depth >= MAX_LENGTH
    requires Good(setup, b, allowance, parsed) && LegalReaders(b.readers) && Runs(setup, b, run, b')
    ensures |run| <= TotalSteps(setup.oids, b.readers, depth)
    decreases |run|
  {
    hide Good;
    hide Step;
    hide LegalScheme;
    hide TotalSteps;
    assert Readers(setup, b) by { GoodReaders(setup, b, allowance, parsed); }
    if run == [] {
      StepsNonNegative(setup, b.shared, b.vlans, b.readers, depth);
    } else {
      StepGood(setup, b, run[0], allowance, parsed);
      StepShrinks(setup, b, run[0], depth);
      RunsEnd(setup, Step(setup, b, run[0]), run[1..], b', allowance, parsed, depth);
    }
  }

  lemma GoodReaders(setup: Setup, b: Board, allowance: int, parsed: int)
    requires Good(setup, b, allowance, parsed)
    ensures Readers(setup, b)
  {
  }
}
