/** A VLAN's own context, read from an honest agent, is read exactly, whatever the other tasks
    and their agents do meanwhile. */
module ContextsExact {
  import opened Oids
  import opened Agent
  import opened Text
  import opened Walk
  import opened WalkExact
  import opened WalkRun
  import opened Fdb
  import opened FdbProofs
  import opened Contexts
  import opened ContextsProofs
  import opened ContextsRuns
  import opened ContextsLoop
  import opened ContextsSkips
  import opened Exactness
  import opened MacFacts

  /** Every entry of a VLAN's context is on that VLAN. */
  function OnlyVlan(v: int): Attribution {
    (fid: Option<nat>) => Some(v)
  }

  /** Rows learned from the whole of an honest context. */
  ghost predicate Learnt(mib: Mib, setup: Setup, v: int, rows: seq<Row>) {
    exists t, base, dropped ::
      Walks(mib, setup, DTable(setup.oids), t, base)
      && rows == LearnedOf(setup, DTable(setup.oids), t, OnlyVlan(v), base, dropped)
  }

  /** The rows are folded as the default context's ifStackTable has it, or not at all for lack of
      time. */
  ghost predicate Folded(mib0: Mib, setup: Setup, inTime: bool, raw: seq<Row>, rows: seq<Row>) {
    rows == FoldRows(raw, StackFold(mib0, setup)) || (!inTime && rows == raw)
  }

  ghost predicate FiledTruly(mib0: Mib, mib: Mib, setup: Setup, v: int, clean: bool, inTime: bool, rows: seq<Row>) {
    clean ==> exists raw :: Learnt(mib, setup, v, raw) && Folded(mib0, setup, inTime, raw, rows)
  }

  ghost predicate StackTrue(mib0: Mib, setup: Setup, s: Shared) {
    s.stack.Some? && Clean(s) ==> s.stack.value == StackFold(mib0, setup)
  }

  /** A halt has been reported. */
  predicate HaltSaid(s: Shared) {
    s.halted ==> s.problems != []
  }

  /** A reader of ifStackTable works on the default context. */
  ghost predicate AsksTruly(mib0: Mib, setup: Setup, r: Reader) {
    r.ReadingStack? ==> Faithful(mib0, ConfigOf(setup, r), r.w)
  }

  /** The reader of the VLAN under consideration. */
  ghost predicate ReadsTruly(mib: Mib, setup: Setup, v: int, r: Reader) {
    match r
    case ReadingBase(w) => Faithful(mib, ConfigOf(setup, r), w)
    case ReadingFdb(base, w) => base == MibColumn(mib, setup.oids.basePort) && Faithful(mib, ConfigOf(setup, r), w)
    case ReadingStack(rows, _, outcome, _) => outcome == Whole ==> Learnt(mib, setup, v, rows)
    case _ => true
  }

  // ---- One turn ----

  lemma AnsweredTruly(mib: Mib, setup: Setup, s: Shared, r: Reader, now: int, reply: Reply)
    requires r.InFlight() && Faithful(mib, ConfigOf(setup, r), r.w) && r.w.open
    requires Conforms(mib, r.w.Names(), reply)
    ensures var w := Attempt(ConfigOf(setup, r), State(r.w, s.budget), now, reply).walk;
            && Faithful(mib, ConfigOf(setup, r), w)
            && (!w.open && w.complete ==> Exact(mib, ConfigOf(setup, r).bases, w.table))
            && Built(|ConfigOf(setup, r).bases|, w.table)
  {
    hide Attempt;
    hide Conforms;
    var cfg := ConfigOf(setup, r);
    AttemptFaithful(mib, cfg, State(r.w, s.budget), now, reply);
    var w := Attempt(cfg, State(r.w, s.budget), now, reply).walk;
    if !w.open && w.complete {
      FaithfulIsExact(mib, cfg, w);
    }
    assert Sane(cfg, w);
    SaneReports(cfg, w);
  }

  lemma VlanGiven(entries: seq<Entry>, v: int)
    ensures WithVlan(entries, v) == WithVlans(entries, OnlyVlan(v))
  {
  }

  lemma FoldIfTrue(mib0: Mib, mib: Mib, setup: Setup, v: int, s: Shared, inTime: bool, raw: seq<Row>)
    requires Learnt(mib, setup, v, raw) && StackTrue(mib0, setup, s)
    requires Clean(s) && inTime && HasLogical(raw, setup.ifaces) ==> s.stack.Some?
    ensures FiledTruly(mib0, mib, setup, v, Clean(s), inTime, FoldIf(raw, s.stack, setup.ifaces))
  {
    hide Learnt;
    hide HasLogical;
    hide IsUnitPorts;
    hide FoldRows;
    hide StackFold;
    FoldIfIsFold(raw, MibColumn(mib0, setup.oids.ifStack), StackFold(mib0, setup), setup.ifaces);
    assert Clean(s) ==> Folded(mib0, setup, inTime, raw, FoldIf(raw, s.stack, setup.ifaces));
  }

  lemma TableLearnt(mib: Mib, setup: Setup, v: int, base: Column, t: Table, dropped: Drops)
    requires Exact(mib, [setup.oids.dPort, setup.oids.dStatus], t) && Built(2, t)
    requires base == MibColumn(mib, setup.oids.basePort)
    ensures Learnt(mib, setup, v, Learned(WithVlan(ParseRows(t, t.order, false), v), base, setup.ifaces, dropped).rows)
  {
    hide Exact;
    hide Built;
    hide RowsHaveCells;
    hide Learned;
    hide ParseRows;
    hide WithVlan;
    hide WithVlans;
    hide OnlyVlan;
    TwoColumns(t);
    VlanGiven(ParseRows(t, t.order, false), v);
    assert Walks(mib, setup, DTable(setup.oids), t, base);
    assert Learned(WithVlan(ParseRows(t, t.order, false), v), base, setup.ifaces, dropped).rows
           == LearnedOf(setup, DTable(setup.oids), t, OnlyVlan(v), base, dropped);
  }

  /** The stack is left alone, and what is clean after was clean before. */
  lemma StackStays(mib0: Mib, setup: Setup, s: Shared, s': Shared)
    requires StackTrue(mib0, setup, s) && Moves(s, s') && s'.stack == s.stack
    ensures StackTrue(mib0, setup, s')
  {
    hide StackFold;
  }

  lemma FairStack(setup: Setup, s: Shared, vid: int, r: Reader, now: int, reply: Reply, later: int)
    requires r.InFlight() && ReaderSane(setup, s, vid, r) && Shaped(ConfigOf(setup, r), r.w)
    ensures var t := TurnOf(setup, s, vid, r, now, reply, later);
            && Moves(s, t.shared) && (!r.ReadingStack? ==> t.shared.stack == s.stack)
            && (HaltSaid(s) ==> HaltSaid(t.shared))
  {
    hide Attempt;
    hide Learned;
    hide ParseRows;
    hide HasLogical;
    hide FoldRows;
    TurnFair(setup, s, vid, r, now, reply, later);
    hide FairTurn;
    assert Moves(s, TurnOf(setup, s, vid, r, now, reply, later).shared) by {
      FairMoves(setup, s, vid, r, TurnOf(setup, s, vid, r, now, reply, later));
    }
  }

  lemma StackTruth(mib0: Mib, setup: Setup, s: Shared, r: Reader, w: Walk, b: Budget)
    requires r.ReadingStack? && !w.open && Faithful(mib0, ConfigOf(setup, r), w)
    requires w.complete ==> Exact(mib0, [setup.oids.ifStack], w.table)
    requires w.stats.truncated ==> s.budget.truncated
    ensures var t := AfterStack(setup, s, r, w);
            && StackTrue(mib0, setup, t.shared) && t.Ends? && t.outcome == r.outcome
            && t.shared.stack.Some? && t.rows == FoldRows(r.rows, t.shared.stack.value)
  {
    hide Faithful;
    hide Exact;
    hide UnitPortsOf;
    if w.complete {
      ColumnIsMib(mib0, [setup.oids.ifStack], w.table, 0);
    }
  }

  /** Another task's turn. */
  lemma OtherTurn(mib0: Mib, setup: Setup, s: Shared, vid: int, r: Reader, now: int, reply: Reply, later: int)
    requires r.InFlight() && ReaderSane(setup, s, vid, r) && Shaped(ConfigOf(setup, r), r.w)
    requires StackTrue(mib0, setup, s) && AsksTruly(mib0, setup, r)
    requires r.ReadingStack? ==> Conforms(mib0, r.w.Names(), reply)
    ensures var t := TurnOf(setup, s, vid, r, now, reply, later);
            && StackTrue(mib0, setup, t.shared)
            && (t.Goes? ==> AsksTruly(mib0, setup, t.reader))
  {
    hide Attempt;
    hide Conforms;
    hide Faithful;
    hide Learned;
    hide ParseRows;
    hide HasLogical;
    hide FoldRows;
    hide StackTrue;
    hide AfterStack;
    FairStack(setup, s, vid, r, now, reply, later);
    if r.ReadingStack? {
      OtherStackTurn(mib0, setup, s, vid, r, now, reply, later);
    } else {
      var t := TurnOf(setup, s, vid, r, now, reply, later);
      StackStays(mib0, setup, s, t.shared);
      BeginFaithful(mib0, LookupConfig(setup.oids.ifStack), REPETITIONS);
    }
  }

  lemma OtherStackTurn(mib0: Mib, setup: Setup, s: Shared, vid: int, r: Reader, now: int, reply: Reply, later: int)
    requires r.ReadingStack? && ReaderSane(setup, s, vid, r) && Shaped(ConfigOf(setup, r), r.w)
    requires StackTrue(mib0, setup, s) && AsksTruly(mib0, setup, r)
    requires Conforms(mib0, r.w.Names(), reply)
    ensures var t := TurnOf(setup, s, vid, r, now, reply, later);
            && StackTrue(mib0, setup, t.shared)
            && (t.Goes? ==> AsksTruly(mib0, setup, t.reader) && t.reader.ReadingStack?
                            && t.reader.rows == r.rows && t.reader.outcome == r.outcome)
            && (t.Ends? ==> t.outcome == r.outcome && t.shared.stack.Some?
                            && t.rows == FoldRows(r.rows, t.shared.stack.value))
  {
    hide Attempt;
    hide Conforms;
    hide Faithful;
    hide Exact;
    hide Built;
    hide AfterStack;
    hide StackFold;
    hide Sane;
    AnsweredTruly(mib0, setup, s, r, now, reply);
    AttemptFair(setup, s, r, now, reply);
    var after := Attempt(ConfigOf(setup, r), State(r.w, s.budget), now, reply);
    FairStack(setup, s, vid, r, now, reply, later);
    if after.walk.open {
      assert TurnOf(setup, s, vid, r, now, reply, later).shared.stack == s.stack;
    } else {
      StackTruth(mib0, setup, s.(budget := after.budget), r, after.walk, after.budget);
    }
  }

  /** A turn of the reader under consideration. */
  lemma OwnTurn(mib0: Mib, mib: Mib, setup: Setup, s: Shared, v: int, inTime: bool, r: Reader, now: int, reply: Reply,
                later: int)
    requires r.InFlight() && ReaderSane(setup, s, v, r) && Shaped(ConfigOf(setup, r), r.w)
    requires HaltSaid(s) && (inTime ==> later < s.budget.deadline)
    requires StackTrue(mib0, setup, s) && AsksTruly(mib0, setup, r) && ReadsTruly(mib, setup, v, r)
    requires Conforms(if r.ReadingStack? then mib0 else mib, r.w.Names(), reply)
    ensures var t := TurnOf(setup, s, v, r, now, reply, later);
            && (t.Goes? ==> ReadsTruly(mib, setup, v, t.reader))
            && (t.Ends? && t.outcome == Whole ==> FiledTruly(mib0, mib, setup, v, Clean(t.shared), inTime, t.rows))
  {
    hide Conforms;
    match r
    case ReadingBase(_) => OwnBaseTurn(mib, setup, s, v, r, now, reply, later);
    case ReadingFdb(_, _) => OwnFdbTurn(mib0, mib, setup, s, v, inTime, r, now, reply, later);
    case ReadingStack(_, _, _, _) =>
      hide TurnOf;
      OtherStackTurn(mib0, setup, s, v, r, now, reply, later);
      var t := TurnOf(setup, s, v, r, now, reply, later);
      assert t.Ends? && t.outcome == Whole ==> Learnt(mib, setup, v, r.rows);
  }

  lemma OwnBaseTurn(mib: Mib, setup: Setup, s: Shared, v: int, r: Reader, now: int, reply: Reply, later: int)
    requires r.ReadingBase? && ReaderSane(setup, s, v, r) && Shaped(ConfigOf(setup, r), r.w)
    requires ReadsTruly(mib, setup, v, r) && Conforms(mib, r.w.Names(), reply)
    ensures var t := TurnOf(setup, s, v, r, now, reply, later);
            && (t.Goes? ==> ReadsTruly(mib, setup, v, t.reader)) && (t.Ends? ==> t.outcome != Whole)
  {
    hide Attempt;
    hide Conforms;
    hide Faithful;
    hide Exact;
    hide Built;
    hide Sane;
    AnsweredTruly(mib, setup, s, r, now, reply);
    var w := Attempt(ConfigOf(setup, r), State(r.w, s.budget), now, reply).walk;
    if !w.open && w.complete {
      ColumnIsMib(mib, [setup.oids.basePort], w.table, 0);
      BeginFaithful(mib, TableConfig(setup.oids.dPort, setup.oids.dStatus), REPETITIONS);
    }
  }

  lemma OwnFdbTurn(mib0: Mib, mib: Mib, setup: Setup, s: Shared, v: int, inTime: bool, r: Reader, now: int,
                   reply: Reply, later: int)
    requires r.ReadingFdb? && ReaderSane(setup, s, v, r) && Shaped(ConfigOf(setup, r), r.w)
    requires HaltSaid(s) && (inTime ==> later < s.budget.deadline)
    requires StackTrue(mib0, setup, s)
    requires ReadsTruly(mib, setup, v, r) && Conforms(mib, r.w.Names(), reply)
    ensures var t := TurnOf(setup, s, v, r, now, reply, later);
            && (t.Goes? ==> ReadsTruly(mib, setup, v, t.reader))
            && (t.Ends? && t.outcome == Whole ==> FiledTruly(mib0, mib, setup, v, Clean(t.shared), inTime, t.rows))
  {
    hide Attempt;
    hide Conforms;
    hide Faithful;
    hide Exact;
    hide Built;
    hide Sane;
    hide AfterTable;
    hide Learnt;
    hide FiledTruly;
    AnsweredTruly(mib, setup, s, r, now, reply);
    var after := Attempt(ConfigOf(setup, r), State(r.w, s.budget), now, reply);
    FairStack(setup, s, v, r, now, reply, later);
    AttemptMoves(setup, s, v, r, now, reply);
    if !after.walk.open {
      StackStays(mib0, setup, s, s.(budget := after.budget));
      TableTurn(mib0, mib, setup, s.(budget := after.budget), v, inTime, r.base, after.walk, later);
    }
  }

  lemma AttemptMoves(setup: Setup, s: Shared, vid: int, r: Reader, now: int, reply: Reply)
    requires r.InFlight() && ReaderSane(setup, s, vid, r)
    ensures Moves(s, s.(budget := Attempt(ConfigOf(setup, r), State(r.w, s.budget), now, reply).budget))
  {
    hide Attempt;
    hide Sane;
    AttemptFair(setup, s, r, now, reply);
  }

  lemma TableTurn(mib0: Mib, mib: Mib, setup: Setup, s: Shared, v: int, inTime: bool, base: Column, w: Walk, later: int)
    requires HaltSaid(s) && (inTime ==> later < s.budget.deadline)
    requires StackTrue(mib0, setup, s) && base == MibColumn(mib, setup.oids.basePort)
    requires w.complete ==> Exact(mib, [setup.oids.dPort, setup.oids.dStatus], w.table)
    requires Built(2, w.table)
    ensures var t := AfterTable(setup, s, v, base, w, later);
            && (t.Goes? ==> ReadsTruly(mib, setup, v, t.reader))
            && (t.Ends? && t.outcome == Whole ==> FiledTruly(mib0, mib, setup, v, Clean(t.shared), inTime, t.rows))
  {
    hide Exact;
    hide Built;
    hide Learnt;
    hide Learned;
    hide ParseRows;
    hide HasLogical;
    hide FoldIf;
    hide FiledTruly;
    hide StackTrue;
    if w.complete {
      TableLearnt(mib, setup, v, base, w.table, s.dropped);
      var raw := Learned(WithVlan(ParseRows(w.table, w.table.order, false), v), base, setup.ifaces, s.dropped).rows;
      if AfterTable(setup, s, v, base, w, later).Ends? {
        FoldIfTrue(mib0, mib, setup, v, s, inTime, raw);
      }
    }
  }

  // ---- The board ----

  /** What is true of reader `i`, that of VLAN `v`, at every moment. */
  ghost predicate Truth(mib0: Mib, mib: Mib, setup: Setup, b: Board, i: nat, v: int, inTime: bool) {
    && i < |b.readers| == |b.vlans| && b.vlans[i] == v
    && (forall j {:trigger b.readers[j]} :: 0 <= j < |b.readers| ==> AsksTruly(mib0, setup, b.readers[j]))
    && ReadsTruly(mib, setup, v, b.readers[i])
    && StackTrue(mib0, setup, b.shared) && HaltSaid(b.shared)
    && ResultTrue(mib0, mib, setup, b, v, inTime)
  }

  ghost predicate ResultTrue(mib0: Mib, mib: Mib, setup: Setup, b: Board, v: int, inTime: bool) {
    v in b.read ==> v in b.results && FiledTruly(mib0, mib, setup, v, Clean(b.shared), inTime, b.results[v])
  }

  lemma FiledOn(mib0: Mib, mib: Mib, setup: Setup, v: int, inTime: bool, s: Shared, s': Shared, rows: seq<Row>)
    requires FiledTruly(mib0, mib, setup, v, Clean(s), inTime, rows) && Moves(s, s')
    ensures FiledTruly(mib0, mib, setup, v, Clean(s'), inTime, rows)
  {
    hide Learnt;
    hide FoldRows;
    hide StackFold;
  }

  /** What the world answers to a task, and when. */
  ghost predicate HonestTo(mib0: Mib, mib: Mib, b: Board, i: nat, inTime: bool, a: Action) {
    (a.Answer? && inTime ==> a.later < b.shared.budget.deadline) &&
    (a.Answer? && a.i < |b.readers| && b.readers[a.i].InFlight()
      && (forall n :: 0 <= n < |b.readers[a.i].w.active| ==> b.readers[a.i].w.active[n] < |b.readers[a.i].w.last|) ==>
      && (b.readers[a.i].ReadingStack? ==> Conforms(mib0, b.readers[a.i].w.Names(), a.reply))
      && (!b.readers[a.i].ReadingStack? && a.i == i ==> Conforms(mib, b.readers[a.i].w.Names(), a.reply)))
  }

  lemma EnterTruth(mib0: Mib, mib: Mib, setup: Setup, b: Board, i: nat, v: int, inTime: bool, k: nat, now: int)
    requires Truth(mib0, mib, setup, b, i, v, inTime) && k < |b.readers| && b.readers[k].Waiting?
    ensures Truth(mib0, mib, setup, Enter(setup, b, k, now), i, v, inTime)
  {
    hide Faithful;
    hide FiledTruly;
    hide StackTrue;
    BeginFaithful(mib, LookupConfig(setup.oids.basePort), REPETITIONS);
    var r := Enter(setup, b, k, now);
    assert forall j {:trigger r.readers[j]} :: 0 <= j < |r.readers| && j != k ==> r.readers[j] == b.readers[j];
  }

  lemma GoesTruth(mib0: Mib, mib: Mib, setup: Setup, b: Board, i: nat, v: int, inTime: bool, k: nat, t: Progress)
    requires Truth(mib0, mib, setup, b, i, v, inTime) && k < |b.readers| && t.Goes? && Moves(b.shared, t.shared)
    requires StackTrue(mib0, setup, t.shared) && HaltSaid(t.shared) && AsksTruly(mib0, setup, t.reader)
    requires k == i ==> ReadsTruly(mib, setup, v, t.reader)
    ensures Truth(mib0, mib, setup, Going(b, k, t.shared, t.reader), i, v, inTime)
  {
    hide Faithful;
    hide FiledTruly;
    hide StackTrue;
    hide ReadsTruly;
    hide AsksTruly;
    var r := Going(b, k, t.shared, t.reader);
    assert forall j {:trigger r.readers[j]} :: 0 <= j < |r.readers| && j != k ==> r.readers[j] == b.readers[j];
    if v in b.read {
      FiledOn(mib0, mib, setup, v, inTime, b.shared, t.shared, b.results[v]);
    }
  }

  lemma FileTruth(mib0: Mib, mib: Mib, setup: Setup, b: Board, i: nat, v: int, inTime: bool, k: nat, t: Progress)
    requires Truth(mib0, mib, setup, b, i, v, inTime) && k < |b.readers| && t.Ends? && Moves(b.shared, t.shared)
    requires forall i, j :: 0 <= i < j < |b.vlans| ==> b.vlans[i] != b.vlans[j]
    requires StackTrue(mib0, setup, t.shared) && HaltSaid(t.shared)
    requires k == i ==> v !in b.read
    requires k == i && t.outcome == Whole ==> FiledTruly(mib0, mib, setup, v, Clean(t.shared), inTime, t.rows)
    ensures Truth(mib0, mib, setup, File(b, k, t), i, v, inTime)
  {
    hide Faithful;
    hide FiledTruly;
    hide StackTrue;
    var r := File(b, k, t);
    assert forall j {:trigger r.readers[j]} :: 0 <= j < |r.readers| && j != k ==> r.readers[j] == b.readers[j];
    assert k != i ==> b.vlans[k] != v;
    if v in b.read {
      FiledOn(mib0, mib, setup, v, inTime, b.shared, t.shared, b.results[v]);
    }
  }

  lemma NotReadYet(b: Board, i: nat)
    requires Filing(b) && i < |b.readers| && !b.readers[i].Closed?
    ensures b.vlans[i] !in b.read
  {
    assert Filed(b)[b.vlans[i]] == 0;
    assert multiset(b.read)[b.vlans[i]] == 0;
  }

  lemma GoodParts(setup: Setup, b: Board, k: nat, allowance: int, parsed: int)
    requires Good(setup, b, allowance, parsed) && k < |b.readers|
    ensures |b.readers| == |b.vlans| && ReaderSane(setup, b.shared, b.vlans[k], b.readers[k]) && Filing(b)
    ensures forall i, j :: 0 <= i < j < |b.vlans| ==> b.vlans[i] != b.vlans[j]
  {
    hide ReaderSane;
  }

  lemma StepTruth(mib0: Mib, mib: Mib, setup: Setup, b: Board, i: nat, v: int, inTime: bool, a: Action,
                  allowance: int, parsed: int)
    requires Truth(mib0, mib, setup, b, i, v, inTime) && Good(setup, b, allowance, parsed) && Enabled(setup, b, a)
    requires HonestTo(mib0, mib, b, i, inTime, a)
    ensures Truth(mib0, mib, setup, Step(setup, b, a), i, v, inTime)
  {
    hide TurnOf;
    hide Enter;
    hide File;
    hide Good;
    hide Conforms;
    hide Filing;
    hide ReaderSane;
    hide ReadsTruly;
    hide AsksTruly;
    hide StackTrue;
    hide ResultTrue;
    hide FiledTruly;
    hide Moves;
    GoodParts(setup, b, a.i, allowance, parsed);
    match a
    case Start(k, now) => EnterTruth(mib0, mib, setup, b, i, v, inTime, k, now);
    case Answer(k, now, reply, later) =>
      var r, vid := b.readers[k], b.vlans[k];
      var t := TurnOf(setup, b.shared, vid, r, now, reply, later);
      ShapedNames(setup, r);
      FairStack(setup, b.shared, vid, r, now, reply, later);
      OtherTurn(mib0, setup, b.shared, vid, r, now, reply, later);
      if k == i {
        OwnTurn(mib0, mib, setup, b.shared, v, inTime, r, now, reply, later);
        NotReadYet(b, i);
      }
      if t.Goes? {
        GoesTruth(mib0, mib, setup, b, i, v, inTime, k, t);
      } else {
        FileTruth(mib0, mib, setup, b, i, v, inTime, k, t);
      }
  }

  lemma ShapedNames(setup: Setup, r: Reader)
    requires r.InFlight() && Shaped(ConfigOf(setup, r), r.w)
    ensures forall n :: 0 <= n < |r.w.active| ==> r.w.active[n] < |r.w.last|
  {
  }

  /** What the world answers is honest if its agents are. */
  lemma WorldHonest(world: World, mib0: Mib, mib: Mib, setup: Setup, b: Board, i: nat, v: int, inTime: bool, a: Action,
                    at: nat)
    requires Answers(world, DefaultView, mib0) && Answers(world, VlanView(v), mib)
    requires i < |b.vlans| && b.vlans[i] == v && Enabled(setup, b, a)
    requires Awake(setup, b, a.i) && a == Resumed(world, setup, b, a.i, at)
    requires inTime ==> world.clock(at + 1) < b.shared.budget.deadline
    ensures HonestTo(mib0, mib, b, i, inTime, a)
  {
    hide Conforms;
    if a.Answer? {
      var r := b.readers[a.i];
      assert a.reply == world.answer(at, ContextsLoop.ViewOf(r, b.vlans[a.i]), r.w.Names(), r.w.maxRep);
    }
  }

  /** Over any run of the tasks whose answers are the world's. */
  lemma {:induction false} RunsTruth(world: World, mib0: Mib, mib: Mib, setup: Setup, b: Board, i: nat, v: int,
                                     inTime: bool, run: seq<Action>, b': Board, at: nat, allowance: int, parsed: int)
    requires Answers(world, DefaultView, mib0) && Answers(world, VlanView(v), mib)
    requires Truth(mib0, mib, setup, b, i, v, inTime) && Good(setup, b, allowance, parsed)
    requires Runs(setup, b, run, b') && FromWorld(world, setup, b, run, at)
    requires inTime ==> InTime(world, b.shared.budget.deadline, at, at + 2 * |run|)
    ensures Truth(mib0, mib, setup, b', i, v, inTime)
    decreases |run|
  {
    hide Good;
    hide Step;
    hide Answers;
    hide Resumed;
    hide Awake;
    hide HonestTo;
    if run != [] {
      assert i < |b.vlans| && b.vlans[i] == v;
      hide Truth;
      WorldHonest(world, mib0, mib, setup, b, i, v, inTime, run[0], at);
      StepTruth(mib0, mib, setup, b, i, v, inTime, run[0], allowance, parsed);
      StepGood(setup, b, run[0], allowance, parsed);
      RunsTruth(world, mib0, mib, setup, Step(setup, b, run[0]), i, v, inTime, run[1..], b', at + 2, allowance, parsed);
    }
  }

  lemma OpeningTruth(mib0: Mib, mib: Mib, setup: Setup, shared: Shared, vlans: seq<int>, i: nat, inTime: bool)
    requires i < |vlans| && StackTrue(mib0, setup, shared) && HaltSaid(shared)
    ensures Truth(mib0, mib, setup, Opening(shared, vlans), i, vlans[i], inTime)
  {
  }

  // ---- What is gathered ----

  /** The keys of VLAN `v` are those its own context owes, folded by the default context's
      ifStackTable, or not folded if time ran out. */
  ghost predicate VlanExact(mib0: Mib, mib: Mib, setup: Setup, v: int, inTime: bool, keys: set<Key>) {
    || KeysOwedOn(mib, setup, v, StackFold(mib0, setup), keys)
    || (!inTime && KeysOwedOn(mib, setup, v, map[], keys))
  }

  ghost predicate KeysOwedOn(mib: Mib, setup: Setup, v: int, fold: map<string, string>, keys: set<Key>) {
    forall key :: key in keys && key.0 == Some(v) <==>
      exists index :: Owed(mib, setup, DTable(setup.oids), OnlyVlan(v), fold, index, key)
  }

  lemma FiledExactly(mib0: Mib, mib: Mib, setup: Setup, v: int, inTime: bool, rows: seq<Row>, keys: set<Key>)
    requires FiledTruly(mib0, mib, setup, v, true, inTime, rows)
    requires forall key: Key :: key in keys && key.0 == Some(v) <==> key in KeysOf(rows)
    ensures VlanExact(mib0, mib, setup, v, inTime, keys)
  {
    hide Learnt;
    hide StackFold;
    hide KeysOf;
    hide FoldRows;
    hide KeysOwedOn;
    var raw :| Learnt(mib, setup, v, raw) && Folded(mib0, setup, inTime, raw, rows);
    var fold := StackFold(mib0, setup);
    if rows == FoldRows(raw, fold) {
      LearntExactly(mib, setup, v, raw, fold, keys);
    } else {
      FoldNothing(raw);
      LearntExactly(mib, setup, v, raw, map[], keys);
    }
  }

  lemma LearntExactly(mib: Mib, setup: Setup, v: int, raw: seq<Row>, fold: map<string, string>, keys: set<Key>)
    requires Learnt(mib, setup, v, raw)
    requires forall key: Key :: key in keys && key.0 == Some(v) <==> key in KeysOf(FoldRows(raw, fold))
    ensures KeysOwedOn(mib, setup, v, fold, keys)
  {
    hide Walks;
    hide LearnedOf;
    hide KeysOf;
    hide FoldRows;
    hide OnlyVlan;
    hide Owed;
    var f := DTable(setup.oids);
    var t, base, dropped :| Walks(mib, setup, f, t, base) && raw == LearnedOf(setup, f, t, OnlyVlan(v), base, dropped);
    assert Exact(mib, [f.port, f.status], t) && RowsHaveCells(t) && base == MibColumn(mib, setup.oids.basePort) by {
      WalksMeans(mib, setup, f, t, base);
    }
    KeysFromMib(mib, setup, f, t, OnlyVlan(v), base, dropped, fold);
    FirstOnlyKeys(FoldRows(raw, fold));
    assert ExactKeys(mib, setup, f, OnlyVlan(v), fold, KeysOf(FoldRows(raw, fold)));
  }

  lemma WalksMeans(mib: Mib, setup: Setup, f: FdbTable, t: Table, base: Column)
    requires Walks(mib, setup, f, t, base)
    ensures Exact(mib, [f.port, f.status], t) && RowsHaveCells(t) && base == MibColumn(mib, setup.oids.basePort)
  {
  }

  /** Among all rows gathered, those of one VLAN are the ones its own context gave. */
  lemma {:induction false} GatheredVlan(b: Board, n: nat, i: nat, key: Key)
    requires n <= |b.vlans| && i < |b.vlans| && b.vlans[i] in b.results && key.0 == Some(b.vlans[i])
    requires forall i, j :: 0 <= i < j < |b.vlans| ==> b.vlans[i] != b.vlans[j]
    requires forall v | v in b.results :: OnVlan(b.results[v], v)
    ensures key in KeysOf(Gathered(b, n)) <==> i < n && key in KeysOf(b.results[b.vlans[i]])
  {
    if n > 0 {
      GatheredVlan(b, n - 1, i, key);
      var front, v := Gathered(b, n - 1), b.vlans[n - 1];
      var more := if v in b.results then b.results[v] else [];
      KeysAppend(front, more);
      assert n - 1 != i ==> key !in KeysOf(more);
    }
  }

  lemma KeysAppend(a: seq<Row>, b: seq<Row>)
    ensures KeysOf(a + b) == KeysOf(a) + KeysOf(b)
  {
    assert forall r :: r in a + b <==> r in a || r in b;
  }

  /** A per-VLAN read whose agents for VLAN `v` and for the default context are honest, and
      which nothing stands against, has read VLAN `v` exactly if it has read it at all, whatever
      the other agents did and in whatever order the answers came. Its rows are folded as the
      default context has it, if the clock was before the deadline all the while. */
  lemma VlanReadExactly(world: World, mib0: Mib, mib: Mib, setup: Setup, shared: Shared, vlans: seq<int>, at: nat,
                        run: seq<Action>, b: Board, v: int, inTime: bool)
    requires Answers(world, DefaultView, mib0) && Answers(world, VlanView(v), mib)
    requires forall i, j :: 0 <= i < j < |vlans| ==> vlans[i] != vlans[j]
    requires Sound(shared) && StackTrue(mib0, setup, shared)
    requires ReadBy(world, setup, shared, vlans, at, run, b)
    requires inTime ==> InTime(world, shared.budget.deadline, at, at + 2 * |run|)
    requires v in b.read && Clean(b.shared)
    ensures VlanExact(mib0, mib, setup, v, inTime, KeysOf(Gathered(b, |b.vlans|)))
  {
    hide Answers;
    hide Accounted;
    hide StackTrue;
    hide FromWorld;
    hide VlanExact;
    hide FiledTruly;
    hide Gathered;
    hide KeysOf;
    hide InTime;
    OpeningGood(setup, shared, vlans);
    var opening := Opening(shared, vlans);
    var allowance, parsed := shared.budget.rowsLeft, shared.parsed - shared.dropped.Total();
    RunsGood(setup, opening, run, b, allowance, parsed);
    RunsSameVlans(setup, opening, run, b);
    assert v in vlans by { FiledIn(setup, b, v, allowance, parsed); }
    var i :| 0 <= i < |vlans| && vlans[i] == v;
    OpeningTruth(mib0, mib, setup, shared, vlans, i, inTime);
    RunsTruth(world, mib0, mib, setup, opening, i, v, inTime, run, b, at, allowance, parsed);
    TruthResult(mib0, mib, setup, b, i, v, inTime);
    GoodResults(setup, b, allowance, parsed);
    forall key: Key
      ensures key in KeysOf(Gathered(b, |b.vlans|)) && key.0 == Some(v) <==> key in KeysOf(b.results[v])
    {
      if key.0 == Some(v) {
        GatheredVlan(b, |b.vlans|, i, key);
      } else {
        OffVlan(b.results[v], v, key);
      }
    }
    FiledExactly(mib0, mib, setup, v, inTime, b.results[v], KeysOf(Gathered(b, |b.vlans|)));
  }

  lemma OffVlan(rows: seq<Row>, v: int, key: Key)
    requires OnVlan(rows, v) && key.0 != Some(v)
    ensures key !in KeysOf(rows)
  {
  }

  lemma TruthResult(mib0: Mib, mib: Mib, setup: Setup, b: Board, i: nat, v: int, inTime: bool)
    requires Truth(mib0, mib, setup, b, i, v, inTime) && v in b.read && Clean(b.shared)
    ensures v in b.results && FiledTruly(mib0, mib, setup, v, true, inTime, b.results[v])
  {
    hide Learnt;
    hide StackFold;
  }

  lemma GoodResults(setup: Setup, b: Board, allowance: int, parsed: int)
    requires Good(setup, b, allowance, parsed)
    ensures forall v | v in b.results :: OnVlan(b.results[v], v)
  {
  }

  lemma FiledIn(setup: Setup, b: Board, v: int, allowance: int, parsed: int)
    requires Good(setup, b, allowance, parsed) && v in b.read
    ensures v in b.vlans
  {
    assert v in Filed(b);
  }

  /** Every VLAN of `read` is read exactly, if the agent is honest for it and for the default
      context, and the stack was true when the per-VLAN read began. */
  ghost predicate VlansExact(world: World, setup: Setup, before: Shared, inTime: bool, read: seq<int>, keys: set<Key>) {
    forall v, mib0, mib {:trigger VlanExact(mib0, mib, setup, v, inTime, keys)} ::
      && v in read && Answers(world, DefaultView, mib0) && Answers(world, VlanView(v), mib)
      && StackTrue(mib0, setup, before)
      ==> VlanExact(mib0, mib, setup, v, inTime, keys)
  }

  lemma AllReadExactly(world: World, setup: Setup, shared: Shared, vlans: seq<int>, at: nat, run: seq<Action>, b: Board)
    requires forall i, j :: 0 <= i < j < |vlans| ==> vlans[i] != vlans[j]
    requires Sound(shared) && ReadBy(world, setup, shared, vlans, at, run, b) && Clean(b.shared)
    ensures VlansExact(world, setup, shared, InTime(world, shared.budget.deadline, at, at + 2 * |run|), b.read,
                       KeysOf(Gathered(b, |b.vlans|)))
  {
    hide Answers;
    hide Accounted;
    hide StackTrue;
    hide ReadBy;
    hide VlanExact;
    hide Gathered;
    hide KeysOf;
    hide InTime;
    var inTime := InTime(world, shared.budget.deadline, at, at + 2 * |run|);
    forall v, mib0, mib | v in b.read && Answers(world, DefaultView, mib0) && Answers(world, VlanView(v), mib)
                          && StackTrue(mib0, setup, shared)
      ensures VlanExact(mib0, mib, setup, v, inTime, KeysOf(Gathered(b, |b.vlans|)))
    {
      VlanReadExactly(world, mib0, mib, setup, shared, vlans, at, run, b, v, inTime);
    }
  }

  /** The same from an earlier moment on, and over a longer time. */
  lemma ExactFrom(world: World, setup: Setup, early: Shared, late: Shared, longer: bool, inTime: bool, read: seq<int>,
                  keys: set<Key>)
    requires VlansExact(world, setup, late, inTime, read, keys) && Moves(early, late) && late.stack == early.stack
    requires longer ==> inTime
    ensures VlansExact(world, setup, early, longer, read, keys)
  {
    hide Answers;
    hide KeysOwedOn;
    hide StackTrue;
    hide StackFold;
    hide Moves;
    forall v, mib0, mib | v in read && Answers(world, DefaultView, mib0) && Answers(world, VlanView(v), mib)
                          && StackTrue(mib0, setup, early)
      ensures VlanExact(mib0, mib, setup, v, longer, keys)
    {
      StackStays(mib0, setup, early, late);
      assert VlanExact(mib0, mib, setup, v, inTime, keys);
    }
  }

  lemma NoneRead(world: World, setup: Setup, before: Shared, inTime: bool, keys: set<Key>)
    ensures VlansExact(world, setup, before, inTime, [], keys)
  {
  }

  /** Every VLAN of `read` is read exactly, if the agent is honest for it and for the default
      context. */
  ghost predicate OwnExact(world: World, setup: Setup, inTime: bool, read: seq<int>, keys: set<Key>) {
    forall v, mib0, mib {:trigger VlanExact(mib0, mib, setup, v, inTime, keys)} ::
      v in read && Answers(world, DefaultView, mib0) && Answers(world, VlanView(v), mib)
      ==> VlanExact(mib0, mib, setup, v, inTime, keys)
  }

  lemma OwnExactFrom(world: World, setup: Setup, before: Shared, inTime: bool, read: seq<int>, keys: set<Key>)
    requires VlansExact(world, setup, before, inTime, read, keys)
    requires forall mib0 | Answers(world, DefaultView, mib0) :: StackTrue(mib0, setup, before)
    ensures OwnExact(world, setup, inTime, read, keys)
  {
    hide Answers;
    hide VlanExact;
    hide StackTrue;
  }

  /** Keys on other VLANs are of no consequence, and a longer time may be looked at. */
  lemma OwnExactAmong(world: World, setup: Setup, longer: bool, inTime: bool, read: seq<int>, keys: set<Key>,
                      more: set<Key>)
    requires OwnExact(world, setup, inTime, read, keys) && (longer ==> inTime)
    requires forall v, key: Key | v in read && key.0 == Some(v) :: key in keys <==> key in more
    ensures OwnExact(world, setup, longer, read, more)
  {
    hide Answers;
    hide StackFold;
    hide Owed;
    forall v, mib0, mib | v in read && Answers(world, DefaultView, mib0) && Answers(world, VlanView(v), mib)
      ensures VlanExact(mib0, mib, setup, v, longer, more)
    {
      assert VlanExact(mib0, mib, setup, v, inTime, keys);
    }
  }
}
