/** The per-VLAN reader: tasks that share a budget, a semaphore and an abort rule, as a state
    machine whose steps are what one task does between two awaits. A run is any sequence of
    steps, so every interleaving is covered. */
module Contexts {
  import opened Oids
  import opened Agent
  import opened Text
  import opened Walk
  import opened Fdb

  /** The columns a read walks. */
  datatype Scheme = Scheme(
    basePort: Oid, qPort: Oid, qStatus: Oid, vlanFdb: Oid, vlanName: Oid, dPort: Oid, dStatus: Oid,
    ifStack: Oid, entLogical: seq<Oid>, vlanState: Oid)

  /** What one read is configured with. */
  datatype Setup = Setup(oids: Scheme, ifaces: Ifaces)

  const RETRIES: int := 1
  const REPETITIONS: nat := 50
  const CONCURRENCY: nat := 2
  const ABORT_AFTER: nat := 3

  datatype Problem =
    | WalkEnded(column: Oid)
    | QuickRead
    | ContextsAborted(vlans: seq<int>)
    | ContextsFailed(others: set<int>)
    | BudgetSpent(reason: Reason)

  /** What every task of a read shares. `parsed` and `walks` are history: how many entries went
      into the filter, and how each walk that ended called itself. */
  datatype Shared = Shared(
    budget: Budget, halted: bool, problems: seq<Problem>, stack: Option<map<string, string>>,
    dropped: Drops, portMaps: seq<PortMap>, parsed: nat, walks: seq<bool>)

  function LookupConfig(column: Oid): Config {
    Config([column], RETRIES, true, false)
  }

  function TableConfig(port: Oid, status: Oid): Config {
    Config([port, status], RETRIES, true, true)
  }

  datatype Outcome = Whole | CutShort | Failed

  datatype Reader =
    | Waiting
    | ReadingBase(w: Walk)
    | ReadingFdb(base: Column, w: Walk)
    | ReadingStack(rows: seq<Row>, made: nat, outcome: Outcome, w: Walk)
    | Closed(made: nat, kept: nat)
  {
    predicate InFlight() {
      ReadingBase? || ReadingFdb? || ReadingStack?
    }

    /** Rows this reader's forwarding-table walk has created. */
    function Made(): nat {
      match this
      case ReadingFdb(_, w) => |w.table.order|
      case ReadingStack(_, made, _, _) => made
      case Closed(made, _) => made
      case _ => 0
    }

    /** Rows this reader has learned. */
    function Kept(): nat {
      match this
      case ReadingStack(rows, _, _, _) => |rows|
      case Closed(_, kept) => kept
      case _ => 0
    }
  }

  function UnitPortsOf(stack: Column, ifaces: Ifaces): (out: map<string, string>)
    ensures IsUnitPorts(stack, ifaces, out)
  {
    UnitsFold(stack, ifaces);
    map unit | unit in UnitsOf(stack) && Folds(stack, ifaces, unit) :: TheOne(PortsBelow(stack, ifaces, unit))
  }

  function UnitsOf(stack: Column): set<string> {
    set index | index in stack && Stacked(stack, index) :: Decimal(index[0])
  }

  lemma UnitsFold(stack: Column, ifaces: Ifaces)
    ensures forall unit | Folds(stack, ifaces, unit) :: unit in UnitsOf(stack)
  {
    hide Stacked;
    hide Ifaces.IsPort;
    hide Ifaces.Known;
    hide Decimal;
    hide Dotted;
    forall unit | Folds(stack, ifaces, unit) ensures unit in UnitsOf(stack) {
      assert PortsBelow(stack, ifaces, unit) != {};
      var l :| l in PortsBelow(stack, ifaces, unit);
    }
  }

  function TheOne(s: set<string>): (l: string)
    requires |s| == 1
    ensures s == {l}
  {
    OneText(s);
    var l :| l in s;
    l
  }

  /** Rows that sit on a known interface which is no port. */
  predicate HasLogical(rows: seq<Row>, ifaces: Ifaces) {
    exists r :: r in rows && ifaces.Known(r.ifIndex) && !ifaces.IsPort(r.ifIndex)
  }

  function WithVlan(entries: seq<Entry>, vid: int): seq<Entry> {
    seq(|entries|, i requires 0 <= i < |entries| => entries[i].(vlan := Some(vid)))
  }

  /** A walk that ended: noted in the history. */
  function Ended(s: Shared, complete: bool): Shared {
    s.(walks := s.walks + [complete])
  }

  /** `note`: why a default-context walk ended early, unless the budget says so anyway. */
  function Note(s: Shared, column: Oid, stats: Stats): Shared {
    if stats.truncated then s
    else s.(problems := s.problems + [WalkEnded(column)], halted := s.halted || stats.timeout)
  }

  function OutcomeOf(complete: bool, stats: Stats): Outcome {
    if complete then Whole else if stats.truncated then CutShort else Failed
  }

  function FoldIf(rows: seq<Row>, stack: Option<map<string, string>>, ifaces: Ifaces): seq<Row> {
    if HasLogical(rows, ifaces) && stack.Some? then FoldRows(rows, stack.value) else rows
  }

  /** What a step makes of a reader: it goes on to its next await, or it is through. */
  datatype Progress =
    | Goes(shared: Shared, reader: Reader)
    | Ends(shared: Shared, rows: seq<Row>, made: nat, outcome: Outcome)

  /** The filter over one context's table, and the stack table if a row needs folding and no
      reader has read it. `later` is the clock when that is decided. */
  function AfterTable(setup: Setup, s: Shared, vid: int, base: Column, w: Walk, later: int): Progress {
    var entries := WithVlan(ParseRows(w.table, w.table.order, false), vid);
    var learned := Learned(entries, base, setup.ifaces, s.dropped);
    var s' := Ended(s, w.complete).(
      dropped := learned.dropped, parsed := s.parsed + |entries|,
      portMaps := s.portMaps + (if learned.how.Some? then [learned.how.value] else []));
    var outcome := OutcomeOf(w.complete, w.stats);
    if HasLogical(learned.rows, setup.ifaces) && s.stack.None? && !s.halted && s.budget.deadline - later > 0 then
      Goes(s', ReadingStack(learned.rows, |w.table.order|, outcome, Begin([setup.oids.ifStack], REPETITIONS)))
    else Ends(s', FoldIf(learned.rows, s.stack, setup.ifaces), |w.table.order|, outcome)
  }

  function AfterStack(setup: Setup, s: Shared, r: Reader, w: Walk): Progress
    requires r.ReadingStack?
  {
    var s' := if w.complete then Ended(s, true) else Note(Ended(s, false), setup.oids.ifStack, w.stats);
    var stack := UnitPortsOf(ColumnOf(w.table, 0), setup.ifaces);
    Ends(s'.(stack := Some(stack)), FoldRows(r.rows, stack), r.made, r.outcome)
  }

  function ConfigOf(setup: Setup, r: Reader): Config
    requires r.InFlight()
  {
    match r
    case ReadingBase(_) => LookupConfig(setup.oids.basePort)
    case ReadingFdb(_, _) => TableConfig(setup.oids.dPort, setup.oids.dStatus)
    case ReadingStack(_, _, _, _) => LookupConfig(setup.oids.ifStack)
  }

  /** One request of one reader, its reply, and what the reader does up to its next await. */
  function TurnOf(setup: Setup, s: Shared, vid: int, r: Reader, now: int, reply: Reply, later: int): Progress
    requires r.InFlight() && Shaped(ConfigOf(setup, r), r.w) && r.w.open
  {
    var after := Attempt(ConfigOf(setup, r), State(r.w, s.budget), now, reply);
    var s' := s.(budget := after.budget);
    var w := after.walk;
    match r
    case ReadingBase(_) =>
      if w.open then Goes(s', ReadingBase(w))
      else if !w.complete then Ends(Ended(s', false), [], 0, OutcomeOf(false, w.stats))
      else Goes(Ended(s', true),
                ReadingFdb(ColumnOf(w.table, 0), Begin([setup.oids.dPort, setup.oids.dStatus], REPETITIONS)))
    case ReadingFdb(base, _) =>
      if w.open then Goes(s', ReadingFdb(base, w)) else AfterTable(setup, s', vid, base, w, later)
    case ReadingStack(rows, made, outcome, _) =>
      if w.open then Goes(s', ReadingStack(rows, made, outcome, w)) else AfterStack(setup, s', r, w)
  }

  // ---- The board all tasks write on ----

  datatype Done = Done(vid: int, outcome: Outcome)

  /** `done` is history: the contexts that were read, in the order they came to an end. */
  datatype Board = Board(
    shared: Shared, vlans: seq<int>, readers: seq<Reader>,
    read: seq<int>, skipped: seq<int>, failed: seq<int>, streak: seq<int>, aborted: seq<int>,
    results: map<int, seq<Row>>, done: seq<Done>)

  function Opening(shared: Shared, vlans: seq<int>): Board {
    Board(shared, vlans, seq(|vlans|, i => Waiting), [], [], [], [], [], map[], [])
  }

  function Flying(readers: seq<Reader>): nat {
    if readers == [] then 0
    else Flying(readers[..|readers| - 1]) + (if readers[|readers| - 1].InFlight() then 1 else 0)
  }

  /** A task gets through the gate: it skips its VLAN, or starts to read it. */
  function Enter(setup: Setup, b: Board, i: nat, now: int): Board
    requires i < |b.readers| == |b.vlans|
  {
    if b.aborted != [] || b.shared.budget.truncated || b.shared.budget.deadline - now <= 0 then
      b.(readers := b.readers[i := Closed(0, 0)], skipped := b.skipped + [b.vlans[i]])
    else
      b.(readers := b.readers[i := ReadingBase(Begin([setup.oids.basePort], REPETITIONS))])
  }

  /** A context was read: its rows are kept, and its outcome is filed. */
  function File(b: Board, i: nat, turn: Progress): Board
    requires i < |b.readers| == |b.vlans| && turn.Ends?
  {
    var vid := b.vlans[i];
    var b' := b.(shared := turn.shared, readers := b.readers[i := Closed(turn.made, |turn.rows|)],
                 results := b.results[vid := turn.rows], done := b.done + [Done(vid, turn.outcome)]);
    match turn.outcome
    case Whole => b'.(read := b.read + [vid], streak := [])
    case CutShort => b'.(skipped := b.skipped + [vid])
    case Failed =>
      var streak := b.streak + [vid];
      b'.(failed := b.failed + [vid], streak := streak,
          aborted := if b.aborted != [] then b.aborted + [vid]
                     else if |streak| >= ABORT_AFTER then streak else [])
  }

  datatype Action =
    | Start(i: nat, now: int)
    | Answer(i: nat, now: int, reply: Reply, later: int)

  predicate Enabled(setup: Setup, b: Board, a: Action) {
    && a.i < |b.readers| == |b.vlans|
    && match a
       case Start(i, _) => b.readers[i].Waiting? && Flying(b.readers) < CONCURRENCY
       case Answer(i, _, _, _) =>
         b.readers[i].InFlight() && Shaped(ConfigOf(setup, b.readers[i]), b.readers[i].w) && b.readers[i].w.open
  }

  function Step(setup: Setup, b: Board, a: Action): Board
    requires Enabled(setup, b, a)
  {
    match a
    case Start(i, now) => Enter(setup, b, i, now)
    case Answer(i, now, reply, later) =>
      var turn := TurnOf(setup, b.shared, b.vlans[i], b.readers[i], now, reply, later);
      match turn
      case Goes(shared, reader) => b.(shared := shared, readers := b.readers[i := reader])
      case Ends(_, _, _, _) => File(b, i, turn)
  }

  /** `b'` comes out of `b` by the steps of `run`, one after the other. */
  ghost predicate Runs(setup: Setup, b: Board, run: seq<Action>, b': Board)
    decreases |run|
  {
    if run == [] then b' == b
    else Enabled(setup, b, run[0]) && Runs(setup, Step(setup, b, run[0]), run[1..], b')
  }

  /** `gather` has returned. */
  predicate Finished(b: Board) {
    forall i :: 0 <= i < |b.readers| ==> b.readers[i].Closed?
  }

  /** The rows of every context, by ascending VLAN (the planned VLANs are ascending). */
  function Gathered(b: Board, n: nat): seq<Row>
    requires n <= |b.vlans|
  {
    if n == 0 then []
    else Gathered(b, n - 1) + (if b.vlans[n - 1] in b.results then b.results[b.vlans[n - 1]] else [])
  }

  /** The problems filed once all contexts are through. */
  function Reported(b: Board): seq<Problem> {
    b.shared.problems
    + (if b.aborted != [] then [ContextsAborted(b.aborted)] else [])
    + (var others := set v | v in b.failed && v !in b.aborted;
       if others != {} then [ContextsFailed(others)] else [])
  }
}
