/** Where each VLAN of a per-VLAN read is filed, told from what its own walks said of themselves
    and from the gate; and what is reported of it. */
module ContextsTold {
  import opened Oids
  import opened Agent
  import opened Text
  import opened Walk
  import opened WalkSafety
  import opened Fdb
  import opened Contexts
  import opened ContextsProofs
  import opened ContextsRuns

  // ---- What happens to one task ----

  /** How a walk in a VLAN's own context ended. */
  datatype WalkEnd = WalkEnd(complete: bool, stats: Stats)

  /** The end of one of task `i`'s two walks in its VLAN's context, if the step is that. */
  function EndIn(setup: Setup, b: Board, a: Action, i: nat): seq<WalkEnd>
    requires Enabled(setup, b, a)
  {
    if a.Answer? && a.i == i && !b.readers[i].ReadingStack? then
      var w := Attempt(ConfigOf(setup, b.readers[i]), State(b.readers[i].w, b.shared.budget), a.now, a.reply).walk;
      if w.open then [] else [WalkEnd(w.complete, w.stats)]
    else []
  }

  /** Task `i` is turned away at the gate: the read was given up, or the budget is spent, or time
      is up. */
  predicate TurnedAway(b: Board, a: Action, i: nat) {
    a.Start? && a.i == i && (b.aborted != [] || b.shared.budget.truncated || a.now >= b.shared.budget.deadline)
  }

  /** The ends of task `i`'s walks in its own context, in a run. */
  function OwnEnds(setup: Setup, b: Board, run: seq<Action>, i: nat): seq<WalkEnd>
    decreases |run|
  {
    if run == [] || !Enabled(setup, b, run[0]) then []
    else EndIn(setup, b, run[0], i) + OwnEnds(setup, Step(setup, b, run[0]), run[1..], i)
  }

  predicate WasTurnedAway(setup: Setup, b: Board, run: seq<Action>, i: nat)
    decreases |run|
  {
    && run != [] && Enabled(setup, b, run[0])
    && (TurnedAway(b, run[0], i) || WasTurnedAway(setup, Step(setup, b, run[0]), run[1..], i))
  }

  // ---- Where it is filed ----

  /** A context is whole if both walks were complete. */
  predicate AllWell(ends: seq<WalkEnd>) {
    |ends| == 2 && ends[0].complete && ends[1].complete
  }

  /** The agent ended a walk early. */
  predicate AgentFailed(ends: seq<WalkEnd>) {
    exists k :: 0 <= k < |ends| && !ends[k].complete && !ends[k].stats.truncated
  }

  /** The budget ended a walk early. */
  predicate BudgetCut(ends: seq<WalkEnd>) {
    exists k :: 0 <= k < |ends| && !ends[k].complete && ends[k].stats.truncated
  }

  ghost predicate Nowhere(b: Board, v: int) {
    v !in b.read && v !in b.failed && v !in b.skipped
  }

  /** The outcome a walk's end amounts to. */
  ghost predicate Means(e: WalkEnd, outcome: Outcome) {
    match outcome
    case Whole => e.complete
    case CutShort => !e.complete && e.stats.truncated
    case Failed => !e.complete && !e.stats.truncated
  }

  /** Where task `i` stands, by the ends of its walks. */
  ghost predicate Told(b: Board, i: nat, ends: seq<WalkEnd>, away: bool) {
    && i < |b.readers| == |b.vlans|
    && var v := b.vlans[i];
    && match b.readers[i]
       case Waiting => ends == [] && !away && Nowhere(b, v)
       case ReadingBase(_) => ends == [] && !away && Nowhere(b, v)
       case ReadingFdb(_, _) => |ends| == 1 && ends[0].complete && !away && Nowhere(b, v)
       case ReadingStack(_, _, outcome, _) =>
         |ends| == 2 && ends[0].complete && Means(ends[1], outcome) && !away && Nowhere(b, v)
       case Closed(_, _) =>
         && (v in b.read <==> !away && AllWell(ends))
         && (v in b.failed <==> !away && AgentFailed(ends))
         && (v in b.skipped <==> away || BudgetCut(ends))
         && (away ==> ends == [])
  }

  // ---- Steps ----

  lemma EnterTold(setup: Setup, b: Board, k: nat, now: int, i: nat, ends: seq<WalkEnd>, away: bool)
    requires Told(b, i, ends, away) && k < |b.readers| && b.readers[k].Waiting?
    requires forall i, j :: 0 <= i < j < |b.vlans| ==> b.vlans[i] != b.vlans[j]
    ensures Told(Enter(setup, b, k, now), i, ends, away || TurnedAway(b, Start(k, now), i))
  {
    hide AllWell;
    hide Begin;
    assert k != i ==> b.vlans[k] != b.vlans[i];
  }

  lemma GoingTold(b: Board, k: nat, shared: Shared, reader: Reader, i: nat, ends: seq<WalkEnd>, more: seq<WalkEnd>,
                  away: bool)
    requires Told(b, i, ends, away) && k < |b.readers|
    requires k != i ==> more == []
    requires k == i ==> Nowhere(b, b.vlans[i]) && !away && GoesOn(b.readers[i], reader, ends, more)
    ensures Told(Going(b, k, shared, reader), i, ends + more, away)
  {
    hide AllWell;
    hide Means;
    if k != i {
      assert ends + more == ends;
    }
  }

  /** What a reader that goes on has behind it. */
  ghost predicate GoesOn(r: Reader, next: Reader, ends: seq<WalkEnd>, more: seq<WalkEnd>) {
    match next
    case ReadingBase(_) => ends + more == []
    case ReadingFdb(_, _) => |ends + more| == 1 && (ends + more)[0].complete
    case ReadingStack(_, _, outcome, _) =>
      |ends + more| == 2 && (ends + more)[0].complete && Means((ends + more)[1], outcome)
    case _ => false
  }

  /** What a reader that is through has behind it. */
  ghost predicate Amounts(all: seq<WalkEnd>, outcome: Outcome) {
    && 1 <= |all| <= 2 && Means(all[|all| - 1], outcome)
    && (|all| == 2 ==> all[0].complete)
    && (|all| == 1 ==> outcome != Whole)
  }

  lemma AmountsTo(all: seq<WalkEnd>, outcome: Outcome)
    requires Amounts(all, outcome)
    ensures AllWell(all) <==> outcome == Whole
    ensures AgentFailed(all) <==> outcome == Failed
    ensures BudgetCut(all) <==> outcome == CutShort
  {
    var last := all[|all| - 1];
    assert forall k :: 0 <= k < |all| && !all[k].complete ==> k == |all| - 1;
  }

  lemma FileTold(b: Board, k: nat, t: Progress, i: nat, ends: seq<WalkEnd>, more: seq<WalkEnd>, away: bool)
    requires Told(b, i, ends, away) && k < |b.readers| && t.Ends?
    requires forall i, j :: 0 <= i < j < |b.vlans| ==> b.vlans[i] != b.vlans[j]
    requires k != i ==> more == []
    requires k == i ==> Nowhere(b, b.vlans[i]) && !away && Amounts(ends + more, t.outcome)
    ensures Told(File(b, k, t), i, ends + more, away)
  {
    hide AllWell;
    hide AgentFailed;
    hide BudgetCut;
    hide Means;
    hide Amounts;
    if k != i {
      assert ends + more == ends && b.vlans[k] != b.vlans[i];
    } else {
      AmountsTo(ends + more, t.outcome);
    }
  }

  /** A turn of the task's own reader. */
  lemma OwnTurnTold(setup: Setup, b: Board, a: Action, i: nat, ends: seq<WalkEnd>)
    requires Enabled(setup, b, a) && a.Answer? && a.i == i && Told(b, i, ends, false)
    ensures var t := TurnOf(setup, b.shared, b.vlans[i], b.readers[i], a.now, a.reply, a.later);
            var more := EndIn(setup, b, a, i);
            if t.Goes? then GoesOn(b.readers[i], t.reader, ends, more) else Amounts(ends + more, t.outcome)
  {
    hide Attempt;
    hide Learned;
    hide ParseRows;
    hide HasLogical;
    hide FoldRows;
    hide FoldIf;
    hide UnitPortsOf;
    hide Begin;
    hide AllWell;
    hide AgentFailed;
    hide BudgetCut;
    assert ends + [] == ends;
  }

  lemma StepTold(setup: Setup, b: Board, a: Action, i: nat, ends: seq<WalkEnd>, away: bool, allowance: int, parsed: int)
    requires Good(setup, b, allowance, parsed) && Enabled(setup, b, a) && Told(b, i, ends, away)
    ensures Told(Step(setup, b, a), i, ends + EndIn(setup, b, a, i), away || TurnedAway(b, a, i))
  {
    hide TurnOf;
    hide Enter;
    hide File;
    hide Good;
    hide Attempt;
    hide GoesOn;
    hide Amounts;
    hide AllWell;
    hide AgentFailed;
    hide BudgetCut;
    GoodDistinct(setup, b, allowance, parsed);
    match a
    case Start(k, now) =>
      EnterTold(setup, b, k, now, i, ends, away);
      assert ends + [] == ends;
    case Answer(k, now, reply, later) =>
      var t := TurnOf(setup, b.shared, b.vlans[k], b.readers[k], now, reply, later);
      if k == i {
        OwnTurnTold(setup, b, a, i, ends);
      }
      if t.Goes? {
        GoingTold(b, k, t.shared, t.reader, i, ends, EndIn(setup, b, a, i), away);
      } else {
        FileTold(b, k, t, i, ends, EndIn(setup, b, a, i), away);
      }
  }

  lemma GoodDistinct(setup: Setup, b: Board, allowance: int, parsed: int)
    requires Good(setup, b, allowance, parsed)
    ensures |b.readers| == |b.vlans|
    ensures forall i, j :: 0 <= i < j < |b.vlans| ==> b.vlans[i] != b.vlans[j]
  {
  }

  lemma {:induction false} RunsTold(setup: Setup, b: Board, run: seq<Action>, b': Board, i: nat, ends: seq<WalkEnd>,
                                    away: bool, allowance: int, parsed: int)
    requires Good(setup, b, allowance, parsed) && Runs(setup, b, run, b') && Told(b, i, ends, away)
    ensures Told(b', i, ends + OwnEnds(setup, b, run, i), away || WasTurnedAway(setup, b, run, i))
    decreases |run|
  {
    hide Good;
    hide Step;
    hide Told;
    hide EndIn;
    hide TurnedAway;
    if run == [] {
      assert ends + [] == ends;
    } else {
      var more := EndIn(setup, b, run[0], i);
      StepTold(setup, b, run[0], i, ends, away, allowance, parsed);
      StepGood(setup, b, run[0], allowance, parsed);
      var rest := OwnEnds(setup, Step(setup, b, run[0]), run[1..], i);
      RunsTold(setup, Step(setup, b, run[0]), run[1..], b', i, ends + more, away || TurnedAway(b, run[0], i),
               allowance, parsed);
      assert (ends + more) + rest == ends + (more + rest);
    }
  }

  lemma OpeningTold(shared: Shared, vlans: seq<int>, i: nat)
    requires i < |vlans|
    ensures Told(Opening(shared, vlans), i, [], false)
  {
  }

  /** When `gather` returns, a VLAN was read if and only if its task got through the gate and both
      its walks were complete; it failed if and only if one of them ended early and the budget was
      not the cause; and it was skipped if and only if its task was turned away at the gate or the
      budget cut one of them. */
  lemma FiledByWalks(setup: Setup, shared: Shared, vlans: seq<int>, run: seq<Action>, b: Board, i: nat)
    requires forall i, j :: 0 <= i < j < |vlans| ==> vlans[i] != vlans[j]
    requires Accounted(shared) && Runs(setup, Opening(shared, vlans), run, b) && Finished(b) && i < |vlans|
    ensures var opening := Opening(shared, vlans);
            var ends, away := OwnEnds(setup, opening, run, i), WasTurnedAway(setup, opening, run, i);
            && (vlans[i] in b.read <==> !away && AllWell(ends))
            && (vlans[i] in b.failed <==> !away && AgentFailed(ends))
            && (vlans[i] in b.skipped <==> away || BudgetCut(ends))
            && (away ==> ends == [])
  {
    hide Accounted;
    hide Runs;
    hide OwnEnds;
    hide WasTurnedAway;
    hide AllWell;
    hide AgentFailed;
    hide BudgetCut;
    var opening := Opening(shared, vlans);
    var allowance, parsed := shared.budget.rowsLeft, shared.parsed - shared.dropped.Total();
    OpeningGood(setup, shared, vlans);
    OpeningTold(shared, vlans, i);
    RunsTold(setup, opening, run, b, i, [], false, allowance, parsed);
    RunsSameVlans(setup, opening, run, b);
    assert [] + OwnEnds(setup, opening, run, i) == OwnEnds(setup, opening, run, i);
    assert b.readers[i].Closed?;
  }

  // ---- What is reported ----

  /** The VLANs a problem blames. */
  function Blamed(p: Problem): set<int> {
    match p
    case ContextsAborted(vlans) => set v | v in vlans
    case ContextsFailed(others) => others
    case _ => {}
  }

  ghost predicate BlamedIn(problems: seq<Problem>, v: int) {
    exists k :: 0 <= k < |problems| && v in Blamed(problems[k])
  }

  /** Contexts whose failures ended the read did fail. */
  ghost predicate AbortedFailed(b: Board) {
    && (forall v :: v in b.aborted ==> v in b.failed)
    && (forall v :: v in b.streak ==> v in b.failed)
  }

  /** No problem of a walk blames a VLAN. */
  ghost predicate WalksOnly(problems: seq<Problem>) {
    forall k :: 0 <= k < |problems| ==> Blamed(problems[k]) == {}
  }

  lemma StepAbortedFailed(setup: Setup, b: Board, a: Action)
    requires Enabled(setup, b, a) && AbortedFailed(b) && WalksOnly(b.shared.problems)
    ensures AbortedFailed(Step(setup, b, a)) && WalksOnly(Step(setup, b, a).shared.problems)
  {
    hide Attempt;
    hide Learned;
    hide ParseRows;
    hide HasLogical;
    hide FoldRows;
    hide FoldIf;
    hide UnitPortsOf;
    hide Begin;
  }

  lemma {:induction false} RunsAbortedFailed(setup: Setup, b: Board, run: seq<Action>, b': Board)
    requires Runs(setup, b, run, b') && AbortedFailed(b) && WalksOnly(b.shared.problems)
    ensures AbortedFailed(b') && WalksOnly(b'.shared.problems)
    decreases |run|
  {
    hide Step;
    hide AbortedFailed;
    hide WalksOnly;
    if run != [] {
      StepAbortedFailed(setup, b, run[0]);
      RunsAbortedFailed(setup, Step(setup, b, run[0]), run[1..], b');
    }
  }

  /** The problems filed when all are through blame exactly the VLANs that failed, and each once:
      those whose failures ended the read together, the others together. */
  lemma BlamedFailed(setup: Setup, shared: Shared, vlans: seq<int>, run: seq<Action>, b: Board, v: int)
    requires WalksOnly(shared.problems) && Runs(setup, Opening(shared, vlans), run, b)
    ensures BlamedIn(Reported(b), v) <==> v in b.failed
    ensures forall k, n :: 0 <= k < n < |Reported(b)| ==> !(v in Blamed(Reported(b)[k]) && v in Blamed(Reported(b)[n]))
    ensures b.shared.problems <= Reported(b) && |Reported(b)| <= |b.shared.problems| + 2
  {
    hide Runs;
    RunsAbortedFailed(setup, Opening(shared, vlans), run, b);
    ReportBlames(b, v);
  }

  lemma ReportBlames(b: Board, v: int)
    requires AbortedFailed(b) && WalksOnly(b.shared.problems)
    ensures BlamedIn(Reported(b), v) <==> v in b.failed
    ensures forall k, n :: 0 <= k < n < |Reported(b)| ==> !(v in Blamed(Reported(b)[k]) && v in Blamed(Reported(b)[n]))
  {
    var all, n := Reported(b), |b.shared.problems|;
    assert forall k :: 0 <= k < n ==> all[k] == b.shared.problems[k];
    if v in b.failed {
      if v in b.aborted {
        assert all[n] == ContextsAborted(b.aborted);
        assert v in Blamed(all[n]);
      } else {
        var others := set x | x in b.failed && x !in b.aborted;
        assert v in others;
        assert all[|all| - 1] == ContextsFailed(others);
        assert v in Blamed(all[|all| - 1]);
      }
    }
  }

  /** The failures that ended the read, and those of the contexts then still in flight. */
  function Aborting(done: seq<Done>): seq<int> {
    if done == [] then []
    else
      var front, last := done[..|done| - 1], done[|done| - 1];
      if Tripped(front) then Aborting(front) + (if last.outcome == Failed then [last.vid] else [])
      else if Tripped(done) then InARow(done) else []
  }

  lemma StepAborting(setup: Setup, b: Board, a: Action, allowance: int, parsed: int)
    requires Good(setup, b, allowance, parsed) && Enabled(setup, b, a) && b.aborted == Aborting(b.done)
    ensures Step(setup, b, a).aborted == Aborting(Step(setup, b, a).done)
  {
    hide TurnOf;
    hide ReaderSane;
    hide Filing;
    hide Results;
    hide Honesty;
    hide Tallies;
    hide Flying;
    if a.Answer? {
      var t := TurnOf(setup, b.shared, b.vlans[a.i], b.readers[a.i], a.now, a.reply, a.later);
      if t.Ends? {
        var d := Done(b.vlans[a.i], t.outcome);
        assert (b.done + [d])[..|b.done|] == b.done;
      }
    }
  }

  /** The contexts said to have ended the read are those that failed in a row when it was given up,
      and those in flight that failed after. */
  lemma {:induction false} RunsAborting(setup: Setup, b: Board, run: seq<Action>, b': Board, allowance: int,
                                        parsed: int)
    requires Good(setup, b, allowance, parsed) && Runs(setup, b, run, b') && b.aborted == Aborting(b.done)
    ensures b'.aborted == Aborting(b'.done)
    decreases |run|
  {
    hide Good;
    hide Step;
    hide Aborting;
    if run != [] {
      StepGood(setup, b, run[0], allowance, parsed);
      StepAborting(setup, b, run[0], allowance, parsed);
      RunsAborting(setup, Step(setup, b, run[0]), run[1..], b', allowance, parsed);
    }
  }

  // ---- Silence in the default context ----

  /** A walk of ifStackTable that this step ends, as the agent fell silent on it. */
  predicate SilentStack(setup: Setup, b: Board, a: Action)
    requires Enabled(setup, b, a)
  {
    a.Answer? && b.readers[a.i].ReadingStack?
    && var w := Attempt(ConfigOf(setup, b.readers[a.i]), State(b.readers[a.i].w, b.shared.budget), a.now, a.reply).walk;
       !w.open && !w.complete && !w.stats.truncated && w.stats.timeout
  }

  /** The default context is given up exactly when the agent falls silent on a walk of its
      ifStackTable, and from then on no reader begins another. */
  lemma HaltsBySilence(setup: Setup, b: Board, a: Action)
    requires Enabled(setup, b, a)
    ensures Step(setup, b, a).shared.halted <==> b.shared.halted || SilentStack(setup, b, a)
    ensures b.shared.halted ==>
              forall j :: 0 <= j < |b.readers| && Step(setup, b, a).readers[j].ReadingStack? ==>
                b.readers[j].ReadingStack?
  {
    hide Attempt;
    hide Learned;
    hide ParseRows;
    hide HasLogical;
    hide FoldRows;
    hide FoldIf;
    hide UnitPortsOf;
    hide Begin;
  }

  // ---- Requests, lookups and port maps ----

  /** A request a reader would make at or after the deadline is not made: its walk is cut and the
      budget is spent, whatever would have come back. */
  lemma LateRequestCuts(setup: Setup, b: Board, a: Action)
    requires Enabled(setup, b, a) && a.Answer? && a.now >= b.shared.budget.deadline
    ensures var r := b.readers[a.i];
            var w := Attempt(ConfigOf(setup, r), State(r.w, b.shared.budget), a.now, a.reply).walk;
            !w.open && w.stats.truncated && w.table == r.w.table
    ensures Step(setup, b, a).shared.budget.truncated
  {
    hide Learned;
    hide ParseRows;
    hide HasLogical;
    hide FoldRows;
    hide FoldIf;
    hide UnitPortsOf;
    hide Begin;
    hide Handle;
  }

  /** After its table a reader reads ifStackTable exactly when a row is on a known interface that is
      no port, nobody has read it, the default context is not given up, and time is left. */
  lemma StackReadIff(setup: Setup, s: Shared, vid: int, base: Column, w: Walk, later: int)
    ensures var entries := WithVlan(ParseRows(w.table, w.table.order, false), vid);
            var rows := Learned(entries, base, setup.ifaces, s.dropped).rows;
            AfterTable(setup, s, vid, base, w, later).Goes? <==>
              && s.stack == None && !s.halted && later < s.budget.deadline
              && exists r :: r in rows && r.ifIndex in setup.ifaces.types && !setup.ifaces.IsPort(r.ifIndex)
  {
    hide Learned;
    hide ParseRows;
    hide FoldRows;
    hide Begin;
    hide Ifaces.IsPort;
  }

  /** A context whose table has learned hosts adds how their ports were mapped, and only then. */
  lemma PortMapsTold(setup: Setup, s: Shared, vid: int, base: Column, w: Walk, later: int)
    ensures var entries := WithVlan(ParseRows(w.table, w.table.order, false), vid);
            var kept := Keep(entries, setup.ifaces.own);
            AfterTable(setup, s, vid, base, w, later).shared.portMaps
            == s.portMaps + if kept == [] then [] else [MapPorts(PortsOf(kept), base, setup.ifaces).1]
  {
    hide Keep;
    hide ParseRows;
    hide FoldRows;
    hide Begin;
    hide MapPorts;
    hide Filtered;
    hide MapRows;
  }

  // ---- The order of the rows ----

  ghost predicate VlansAscend(rows: seq<Row>) {
    forall i, j :: 0 <= i < j < |rows| && rows[i].vlan.Some? && rows[j].vlan.Some? ==>
      rows[i].vlan.value <= rows[j].vlan.value
  }

  /** The rows gathered come by ascending VLAN. */
  lemma {:induction false} GatheredAscends(b: Board, n: nat)
    requires n <= |b.vlans| && forall i, j :: 0 <= i < j < |b.vlans| ==> b.vlans[i] < b.vlans[j]
    requires forall v | v in b.results :: OnVlan(b.results[v], v)
    ensures VlansAscend(Gathered(b, n))
    ensures forall r | r in Gathered(b, n) :: exists i :: 0 <= i < n && r.vlan == Some(b.vlans[i])
  {
    if n > 0 {
      GatheredAscends(b, n - 1);
      var front, v := Gathered(b, n - 1), b.vlans[n - 1];
      var more: seq<Row> := if v in b.results then b.results[v] else [];
      var all := front + more;
      forall i, j | 0 <= i < j < |all| && all[i].vlan.Some? && all[j].vlan.Some?
        ensures all[i].vlan.value <= all[j].vlan.value
      {
        if j >= |front| {
          assert more[j - |front|] in more && more[j - |front|].vlan == Some(v);
          if i < |front| {
            assert front[i] in front;
          } else {
            assert more[i - |front|] in more;
          }
        } else {
          assert front[i] in front && front[j] in front;
        }
      }
    }
  }
}
