/** What every interleaving of the per-VLAN readers keeps. */
module ContextsProofs {
  import opened Oids
  import opened Agent
  import opened Text
  import opened Walk
  import opened WalkSafety
  import opened WalkBounds
  import opened WalkRun
  import opened Fdb
  import opened FdbProofs
  import opened Contexts

  ghost predicate OnVlan(rows: seq<Row>, vid: int) {
    forall r | r in rows :: r.vlan == Some(vid)
  }

  /** A reader between two awaits. */
  ghost predicate ReaderSane(setup: Setup, s: Shared, vid: int, r: Reader) {
    && (r.InFlight() ==> Sane(ConfigOf(setup, r), r.w) && r.w.open)
    && (r.ReadingStack? ==> OnVlan(r.rows, vid) && (r.outcome == CutShort ==> s.budget.truncated))
  }

  /** How the shared state moves in any step. */
  ghost predicate Moves(s: Shared, s': Shared) {
    && s'.budget.deadline == s.budget.deadline
    && (s.budget.rowsLeft >= 0 ==> s'.budget.rowsLeft >= 0)
    && (s.budget.truncated ==> s'.budget.truncated)
    && (s.budget.reason != Unset ==> s'.budget.reason == s.budget.reason)
    && s.problems <= s'.problems
    && s.walks <= s'.walks
    && (s.halted ==> s'.halted)
    && (s.stack.Some? ==> s'.stack.Some?)
  }

  function MadeAfter(t: Progress): nat {
    match t case Goes(_, r) => r.Made() case Ends(_, _, made, _) => made
  }

  function KeptAfter(t: Progress): nat {
    match t case Goes(_, r) => r.Kept() case Ends(_, rows, _, _) => |rows|
  }

  /** The outcome a reader has settled on, if it has. */
  predicate HasFailed(r: Reader) {
    r.ReadingStack? && r.outcome == Failed
  }

  predicate FailedAfter(t: Progress) {
    match t case Goes(_, r) => HasFailed(r) case Ends(_, _, _, outcome) => outcome == Failed
  }

  /** Every walk that ended called itself complete, or something says why not. */
  ghost predicate Accounted(s: Shared) {
    (forall i :: 0 <= i < |s.walks| ==> s.walks[i]) || s.budget.truncated || s.problems != []
  }

  /** What one turn does, beyond its own reader. */
  ghost predicate FairTurn(setup: Setup, s: Shared, vid: int, r: Reader, t: Progress) {
    && Moves(s, t.shared)
    && t.shared.budget.rowsLeft + MadeAfter(t) == s.budget.rowsLeft + r.Made()
    && t.shared.parsed + s.dropped.Total() + r.Kept() == s.parsed + t.shared.dropped.Total() + KeptAfter(t)
    && (Accounted(s) ==> Accounted(t.shared) || FailedAfter(t))
    && (HasFailed(r) ==> FailedAfter(t))
    && (t.Goes? ==> t.reader.InFlight() && ReaderSane(setup, t.shared, vid, t.reader))
    && (t.Ends? ==> OnVlan(t.rows, vid) && (t.outcome == CutShort ==> t.shared.budget.truncated))
  }

  /** The request itself, before the reader acts on the walk's end. */
  lemma AttemptFair(setup: Setup, s: Shared, r: Reader, now: int, reply: Reply)
    requires r.InFlight() && Sane(ConfigOf(setup, r), r.w) && r.w.open
    ensures var a := Attempt(ConfigOf(setup, r), State(r.w, s.budget), now, reply);
            && Sane(ConfigOf(setup, r), a.walk)
            && Spends(ConfigOf(setup, r), r.w.table, s.budget, a.walk.table, a.budget)
            && (a.walk.stats.truncated ==> a.budget.truncated)
  {
    hide Attempt;
    hide Sane;
    hide Spends;
    AttemptSafe(ConfigOf(setup, r), State(r.w, s.budget), now, reply);
    AttemptSpends(ConfigOf(setup, r), State(r.w, s.budget), now, reply);
  }

  lemma BeginFair(setup: Setup, r: Reader, bases: seq<Oid>)
    requires r.InFlight() && ConfigOf(setup, r).bases == bases != []
    requires r.w == Begin(bases, REPETITIONS)
    ensures Sane(ConfigOf(setup, r), r.w) && r.w.open && r.w.table.order == []
  {
    BeginSane(ConfigOf(setup, r), REPETITIONS);
  }

  lemma SaneShaped(cfg: Config, w: Walk)
    requires Sane(cfg, w)
    ensures Shaped(cfg, w)
  {
  }

  lemma BaseTurnFair(setup: Setup, s: Shared, vid: int, r: Reader, now: int, reply: Reply, later: int)
    requires r.ReadingBase? && ReaderSane(setup, s, vid, r) && Shaped(ConfigOf(setup, r), r.w)
    ensures FairTurn(setup, s, vid, r, TurnOf(setup, s, vid, r, now, reply, later))
  {
    hide Attempt;
    hide Sane;
    AttemptFair(setup, s, r, now, reply);
    var t := TurnOf(setup, s, vid, r, now, reply, later);
    if t.Goes? && t.reader.ReadingFdb? {
      BeginFair(setup, t.reader, [setup.oids.dPort, setup.oids.dStatus]);
    }
  }

  lemma LearnedOnVlan(entries: seq<Entry>, vid: int, base: Column, ifaces: Ifaces, dropped: Drops)
    ensures OnVlan(Learned(WithVlan(entries, vid), base, ifaces, dropped).rows, vid)
  {
    var all := WithVlan(entries, vid);
    hide Learned;
    hide MapPorts;
    hide VerdictOf;
    forall r | r in Learned(all, base, ifaces, dropped).rows ensures r.vlan == Some(vid) {
      LearnedExactly(all, base, ifaces, dropped, r);
    }
  }

  lemma FoldOnVlan(rows: seq<Row>, out: map<string, string>, vid: int)
    requires OnVlan(rows, vid)
    ensures OnVlan(FoldRows(rows, out), vid)
  {
  }

  /** The filter over a context's table keeps the entries accounted for. */
  lemma AfterTableFair(setup: Setup, s: Shared, vid: int, base: Column, w: Walk, later: int)
    requires w.stats.truncated ==> s.budget.truncated
    ensures var t := AfterTable(setup, s, vid, base, w, later);
            && Moves(s, t.shared) && t.shared.budget == s.budget
            && MadeAfter(t) == |w.table.order|
            && t.shared.parsed + s.dropped.Total() == s.parsed + t.shared.dropped.Total() + KeptAfter(t)
            && (Accounted(s) ==> Accounted(t.shared) || FailedAfter(t))
            && (t.Goes? ==>
                  && t.reader.ReadingStack? && t.reader.w == Begin([setup.oids.ifStack], REPETITIONS)
                  && OnVlan(t.reader.rows, vid) && (t.reader.outcome == CutShort ==> s.budget.truncated))
            && (t.Ends? ==> OnVlan(t.rows, vid) && (t.outcome == CutShort ==> s.budget.truncated))
  {
    hide Learned;
    hide HasLogical;
    hide ParseRows;
    var entries := ParseRows(w.table, w.table.order, false);
    LearnedOnVlan(entries, vid, base, setup.ifaces, s.dropped);
    FilterConserves(WithVlan(entries, vid), base, setup.ifaces, s.dropped);
    var rows := Learned(WithVlan(entries, vid), base, setup.ifaces, s.dropped).rows;
    if s.stack.Some? {
      FoldOnVlan(rows, s.stack.value, vid);
    }
  }

  lemma FdbTurnFair(setup: Setup, s: Shared, vid: int, r: Reader, now: int, reply: Reply, later: int)
    requires r.ReadingFdb? && ReaderSane(setup, s, vid, r) && Shaped(ConfigOf(setup, r), r.w)
    ensures FairTurn(setup, s, vid, r, TurnOf(setup, s, vid, r, now, reply, later))
  {
    hide Attempt;
    hide Sane;
    hide AfterTable;
    AttemptFair(setup, s, r, now, reply);
    var after := Attempt(ConfigOf(setup, r), State(r.w, s.budget), now, reply);
    var t := TurnOf(setup, s, vid, r, now, reply, later);
    if !after.walk.open {
      AfterTableFair(setup, s.(budget := after.budget), vid, r.base, after.walk, later);
      if t.Goes? {
        BeginFair(setup, t.reader, [setup.oids.ifStack]);
      }
    }
  }

  lemma StackTurnFair(setup: Setup, s: Shared, vid: int, r: Reader, now: int, reply: Reply, later: int)
    requires r.ReadingStack? && ReaderSane(setup, s, vid, r) && Shaped(ConfigOf(setup, r), r.w)
    ensures FairTurn(setup, s, vid, r, TurnOf(setup, s, vid, r, now, reply, later))
  {
    hide Attempt;
    hide Sane;
    hide UnitPortsOf;
    AttemptFair(setup, s, r, now, reply);
    var after := Attempt(ConfigOf(setup, r), State(r.w, s.budget), now, reply);
    if !after.walk.open {
      FoldOnVlan(r.rows, UnitPortsOf(ColumnOf(after.walk.table, 0), setup.ifaces), vid);
    }
  }

  lemma TurnFair(setup: Setup, s: Shared, vid: int, r: Reader, now: int, reply: Reply, later: int)
    requires r.InFlight() && ReaderSane(setup, s, vid, r) && Shaped(ConfigOf(setup, r), r.w)
    ensures FairTurn(setup, s, vid, r, TurnOf(setup, s, vid, r, now, reply, later))
  {
    hide TurnOf;
    hide FairTurn;
    match r
    case ReadingBase(_) => BaseTurnFair(setup, s, vid, r, now, reply, later);
    case ReadingFdb(_, _) => FdbTurnFair(setup, s, vid, r, now, reply, later);
    case ReadingStack(_, _, _, _) => StackTurnFair(setup, s, vid, r, now, reply, later);
  }

  // ---- Sums over the readers ----

  function TotalMade(readers: seq<Reader>): nat {
    if readers == [] then 0 else TotalMade(readers[..|readers| - 1]) + readers[|readers| - 1].Made()
  }

  function TotalKept(readers: seq<Reader>): nat {
    if readers == [] then 0 else TotalKept(readers[..|readers| - 1]) + readers[|readers| - 1].Kept()
  }

  lemma {:induction false} ReplaceReader(readers: seq<Reader>, i: nat, r: Reader)
    requires i < |readers|
    ensures var after := readers[i := r];
            && TotalMade(after) + readers[i].Made() == TotalMade(readers) + r.Made()
            && TotalKept(after) + readers[i].Kept() == TotalKept(readers) + r.Kept()
            && Flying(after) + (if readers[i].InFlight() then 1 else 0)
               == Flying(readers) + (if r.InFlight() then 1 else 0)
  {
    var after := readers[i := r];
    var n := |readers| - 1;
    if i == n {
      assert after[..n] == readers[..n];
    } else {
      assert after[..n] == readers[..n][i := r];
      ReplaceReader(readers[..n], i, r);
    }
  }

  lemma {:induction false} NobodyFlies(readers: seq<Reader>)
    requires forall i :: 0 <= i < |readers| ==> !readers[i].InFlight()
    ensures Flying(readers) == 0
  {
    if readers != [] {
      NobodyFlies(readers[..|readers| - 1]);
    }
  }

  // ---- The abort rule, by the history alone ----

  /** The contexts that failed since one last succeeded. */
  function InARow(done: seq<Done>): seq<int> {
    if done == [] then []
    else
      var front, last := InARow(done[..|done| - 1]), done[|done| - 1];
      match last.outcome
      case Whole => []
      case CutShort => front
      case Failed => front + [last.vid]
  }

  /** At some point that many contexts had failed with no success between. */
  predicate Tripped(done: seq<Done>) {
    done != [] && (Tripped(done[..|done| - 1]) || |InARow(done)| >= ABORT_AFTER)
  }

  ghost predicate AbortRule(b: Board) {
    && b.streak == InARow(b.done)
    && (b.aborted != [] <==> Tripped(b.done))
    && (b.aborted == [] ==> |b.streak| < ABORT_AFTER)
    && (b.aborted != [] ==> |b.aborted| + Flying(b.readers) <= ABORT_AFTER + CONCURRENCY - 1)
    && Flying(b.readers) <= CONCURRENCY
  }

  // ---- Where each VLAN is filed ----

  function Filed(b: Board): multiset<int> {
    multiset(b.read) + multiset(b.skipped) + multiset(b.failed)
  }

  ghost predicate Filing(b: Board) {
    && |b.readers| == |b.vlans|
    && (forall i, j :: 0 <= i < j < |b.vlans| ==> b.vlans[i] != b.vlans[j])
    && (forall v :: v in Filed(b) ==> v in b.vlans)
    && (forall i {:trigger b.readers[i]} :: 0 <= i < |b.readers| ==>
          Filed(b)[b.vlans[i]] == if b.readers[i].Closed? then 1 else 0)
  }

  // ---- The shared tallies ----

  /** Rows still allowed plus rows made is constant; entries parsed are rows or drops. */
  ghost predicate Tallies(b: Board, allowance: int, parsed: int) {
    && b.shared.budget.rowsLeft + TotalMade(b.readers) == allowance
    && b.shared.parsed - b.shared.dropped.Total() - TotalKept(b.readers) == parsed
  }

  /** No walk that was cut short or failed goes unmentioned. */
  ghost predicate Honesty(b: Board) {
    Accounted(b.shared) || b.failed != [] || exists i :: 0 <= i < |b.readers| && HasFailed(b.readers[i])
  }

  /** Rows are kept per VLAN, and carry it. */
  ghost predicate Results(b: Board) {
    && |b.readers| == |b.vlans|
    && (forall v :: v in b.results ==> v in b.vlans && OnVlan(b.results[v], v))
    && (forall i {:trigger b.readers[i]} :: 0 <= i < |b.readers| ==>
          if b.vlans[i] in b.results then b.readers[i].Closed? && b.readers[i].kept == |b.results[b.vlans[i]]|
          else b.readers[i].Kept() == 0 || b.readers[i].InFlight())
  }

  ghost predicate Readers(setup: Setup, b: Board) {
    && |b.readers| == |b.vlans|
    && forall i {:trigger b.readers[i]} :: 0 <= i < |b.readers| ==>
         ReaderSane(setup, b.shared, b.vlans[i], b.readers[i])
  }
}
