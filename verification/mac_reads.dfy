/** The data of a MAC table read, and what its parts amount to. */
module MacReads {
  import opened Oids
  import opened Agent
  import opened Text
  import opened Mac
  import opened Walk
  import opened WalkExact
  import opened WalkBounds
  import opened Walker
  import opened Fdb
  import opened FdbProofs
  import opened Contexts
  import opened ContextsProofs
  import opened ContextsRuns
  import opened ContextsBlame
  import opened ContextsEnds
  import opened ContextsLoop
  import opened Exactness
  import opened VlanPlan
  import opened MacFacts
  import opened ContextsExact
  import opened ContextsSkips
  import opened Lateness

  const ROW_CAP: int := 100_000

  const STANDARD := Scheme(
    [1, 3, 6, 1, 2, 1, 17, 1, 4, 1, 2],
    [1, 3, 6, 1, 2, 1, 17, 7, 1, 2, 2, 1, 2], [1, 3, 6, 1, 2, 1, 17, 7, 1, 2, 2, 1, 3],
    [1, 3, 6, 1, 2, 1, 17, 7, 1, 4, 2, 1, 3], [1, 3, 6, 1, 2, 1, 17, 7, 1, 4, 3, 1, 1],
    [1, 3, 6, 1, 2, 1, 17, 4, 3, 1, 2], [1, 3, 6, 1, 2, 1, 17, 4, 3, 1, 3],
    [1, 3, 6, 1, 2, 1, 31, 1, 2, 1, 3],
    [[1, 3, 6, 1, 2, 1, 47, 1, 2, 1, 1, 2], [1, 3, 6, 1, 2, 1, 47, 1, 2, 1, 1, 3],
     [1, 3, 6, 1, 2, 1, 47, 1, 2, 1, 1, 4], [1, 3, 6, 1, 2, 1, 47, 1, 2, 1, 1, 8]],
    [1, 3, 6, 1, 4, 1, 9, 9, 46, 1, 3, 1, 1, 2])

  datatype Source = NoSource | QBridge | Bridge | BridgeVlan

  datatype When = Auto | Always | Off

  type Positive = n: int | n >= 1 witness 1

  datatype Options = Options(contexts: When, quick: bool, seconds: int, maxVlans: Positive, hint: seq<int>)

  /** A walk of the default context that was made: whether the agent fell silent on it, and whether
      the budget cut it. */
  datatype Asked = Asked(columns: seq<Oid>, silent: bool, cut: bool) {
    predicate Stops() {
      silent || cut
    }
  }

  /** Once the agent has fallen silent in the default context, nothing more is asked there, and the
      read has halted; a cut has spent the budget. */
  ghost predicate Heeded(asked: seq<Asked>, halted: bool, truncated: bool) {
    && (forall i | 0 <= i < |asked| && asked[i].silent :: i == |asked| - 1 && halted)
    && (forall i | 0 <= i < |asked| && asked[i].cut :: truncated)
  }

  ghost predicate NoStop(asked: seq<Asked>) {
    forall i :: 0 <= i < |asked| ==> !asked[i].Stops()
  }

  /** The read begins with the base ports and the VLANs' FDB ids, and stops there if the agent falls
      silent or the budget is spent on them; then it goes on to the Q-BRIDGE table. */
  ghost predicate FirstWalks(oids: Scheme, asked: seq<Asked>, going: bool) {
    && |asked| >= 1 && asked[0].columns == [oids.basePort]
    && (asked[0].Stops() ==> |asked| == 1 && !going)
    && (|asked| >= 2 ==> asked[1].columns == [oids.vlanFdb] && (asked[1].Stops() ==> |asked| == 2 && !going))
    && (|asked| >= 3 ==> asked[2].columns == [oids.qPort, oids.qStatus])
    && (going ==> |asked| >= 3)
  }

  /** `fdb_meta`. */
  datatype Meta = Meta(
    source: Source, complete: bool, truncated: bool, vlanMap: VlanMap, portMap: PortMap,
    read: set<int>, skipped: set<int>, failed: set<int>, dropped: Drops, rows: nat)

  function Rank(how: PortMap): nat {
    match how case BasePort => 0 case Assumed => 1 case NoPortMap => 2
  }

  /** The worst way any context's ports were mapped. */
  function Worst(maps: seq<PortMap>): (how: PortMap)
    requires maps != []
    ensures how in maps && forall m | m in maps :: Rank(m) <= Rank(how)
  {
    if |maps| == 1 then maps[0]
    else
      var w := Worst(maps[1..]);
      assert maps == [maps[0]] + maps[1..];
      if Rank(maps[0]) >= Rank(w) then maps[0] else w
  }

  /** How ports were mapped, over all contexts: the worst way any context needed; if none had
      ports to map, by whether the default context has base ports. */
  function PortMapOf(maps: seq<PortMap>, defaultBase: bool): (how: PortMap)
    ensures how == NoPortMap <==> NoPortMap in maps || (maps == [] && !defaultBase)
    ensures how == Assumed <==> NoPortMap !in maps && Assumed in maps
  {
    if maps != [] then Worst(maps) else if defaultBase then BasePort else NoPortMap
  }

  function Elements(list: seq<int>): set<int> {
    set v | v in list
  }

  /** In the default context, a row without a VLAN is on VLAN 1. */
  function OnVlanOne(rows: seq<Row>): (out: seq<Row>)
    ensures |out| == |rows|
    ensures forall i :: 0 <= i < |rows| ==>
              out[i] == if rows[i].vlan.None? then rows[i].(vlan := Some(1)) else rows[i]
  {
    seq(|rows|, i requires 0 <= i < |rows| =>
      if rows[i].vlan.None? then rows[i].(vlan := Some(1)) else rows[i])
  }

  /** What is left of the default context's rows beside those of the VLANs' own contexts. */
  function DefaultPart(rows: seq<Row>, how: VlanMap, read: seq<int>): seq<Row> {
    if how != ContextMap then rows else if 1 in read then [] else OnVlanOne(rows)
  }

  /** What the default context's rows of a clean read are worth, against an honest agent. */
  ghost predicate DefaultsExact(mib: Mib, setup: Setup, qbridge: bool, late: Late, defaults: seq<Row>) {
    if qbridge then QKeysExact(mib, setup, late, KeysOf(FirstOnly(defaults)))
    else NoRows(mib, QTable(setup.oids)) && BridgeExact(mib, setup, late, defaults)
  }

  /** The addresses are exact, and the VLANs and ports if and only if no lookup was left out that
      they depend on. */
  ghost predicate QKeysExact(mib: Mib, setup: Setup, late: Late, keys: set<Key>) {
    MacsOwed(mib, setup, QTable(setup.oids), keys) && (QExact(mib, setup, keys) <==> !Blurs(mib, setup, late))
  }

  /** The keys are those the BRIDGE table owes, folded unless the stack was left out. */
  ghost predicate BridgeExact(mib: Mib, setup: Setup, late: Late, rows: seq<Row>) {
    ExactKeys(mib, setup, DTable(setup.oids), NoVlan(), LateFold(mib, setup, late.stack), KeysOf(FirstOnly(rows)))
  }

  /** The keys that are on none of some VLANs. */
  function KeysOff(keys: set<Key>, vlans: set<int>): set<Key> {
    set key | key in keys && !(key.0.Some? && key.0.value in vlans)
  }

  function AllOn(v: Option<int>): Attribution {
    (fid: Option<nat>) => v
  }

  /** Beside the VLANs read in contexts of their own there is the default context: nothing of it
      if VLAN 1 was read, else its addresses, on VLAN 1 if VLANs have contexts; and they are
      exact in their ports if and only if the stack was not left out or nothing folds. */
  ghost predicate RestExact(mib: Mib, setup: Setup, late: Late, how: VlanMap, read: set<int>, keys: set<Key>) {
    var f, rest := DTable(setup.oids), KeysOff(keys, read);
    if 1 in read then rest == {}
    else
      && MacsOwed(mib, setup, f, rest)
      && (ExactFolded(mib, setup, f, AllOn(if how == ContextMap then Some(1) else None), rest)
          <==> !(late.stack && StackMatters(mib, setup, f)))
  }

  /** The keys of a complete read, off the VLANs read in contexts of their own. */
  ghost predicate KeysExact(mib: Mib, setup: Setup, late: Late, source: Source, how: VlanMap, read: set<int>,
                            keys: set<Key>)
  {
    if source == QBridge then QKeysExact(mib, setup, late, keys)
    else NoRows(mib, QTable(setup.oids)) && RestExact(mib, setup, late, how, read, keys)
  }

  /** The keys of a complete read on the VLANs read in contexts of their own. */
  ghost predicate ReadExact(world: World, setup: Setup, inTime: bool, read: set<int>, keys: set<Key>) {
    forall v, mib0, mib {:trigger VlanExact(mib0, mib, setup, v, inTime, keys)} ::
      v in read && Answers(world, DefaultView, mib0) && Answers(world, VlanView(v), mib)
      ==> VlanExact(mib0, mib, setup, v, inTime, keys)
  }

  /** What a complete read promises of its keys: every VLAN read in its own context is exact, and
      beside them, against an honest agent, the Q-BRIDGE table or the default context; and which
      VLANs were read. */
  ghost predicate Promised(world: World, setup: Setup, options: Options, entityVlans: Table -> seq<int>, late: Late,
                           inTime: bool, meta: Meta, keys: set<Key>)
  {
    && ReadExact(world, setup, inTime, meta.read, keys)
    && forall mib | Answers(world, DefaultView, mib) ::
         && KeysExact(mib, setup, late, meta.source, meta.vlanMap, meta.read, keys)
         && (meta.source != QBridge && options.contexts != Off ==>
               VlansRead(mib, setup, options, entityVlans, inTime, meta.read, meta.skipped))
  }

  /** Time only passes, and as long as no reading of the clock shows the deadline no lookup is
      left out. */
  ghost predicate Timely(world: World, deadline: int, from: nat, to: nat, early: Late, late: Late) {
    from <= to && (InTime(world, deadline, 0, to) ==> late == early)
  }

  /** A VLAN that is 1 or one of the planned ones. */
  ghost predicate VlanPlanned(vlan: Option<int>, planned: seq<int>) {
    vlan.Some? && (vlan.value == 1 || vlan.value in planned)
  }

  /** What was parsed between two moments became rows or drops. */
  ghost predicate Balance(s: Shared, s': Shared, rows: nat) {
    s'.parsed + s.dropped.Total() == s.parsed + rows + s'.dropped.Total()
  }

  /** The account of a read from `s` to `s'` that made `rows` rows: nothing is taken back, no early
      end goes unmentioned, what was parsed became rows or drops, and there is no complaint without
      a cause but that planned VLANs were left out. */
  ghost predicate Keeps(s: Shared, s': Shared, rows: nat, leftOut: bool) {
    && Moves(s, s') && Accounted(s') && Balance(s, s', rows)
    && if leftOut then !Clean(s') else Blame(s) ==> Blame(s')
  }

  lemma OnwardKeeps(s: Shared, s': Shared, rows: nat)
    requires Onward(s, s') && Sound(s) && Balance(s, s', rows)
    ensures Keeps(s, s', rows, false)
  {
    hide Moves;
    hide Accounted;
    hide Blame;
  }

  lemma OnwardStays(s: Shared)
    ensures Onward(s, s)
  {
  }

  lemma OnwardWithStack(s: Shared, s1: Shared, s2: Shared)
    requires Onward(s, s1) && s2.stack.Some? && s2 == s1.(stack := s2.stack)
    ensures Onward(s, s2) && (Clean(s2) <==> Clean(s1))
  {
  }

  lemma OnwardOn(s: Shared, s1: Shared, s2: Shared)
    requires Onward(s, s1) && Onward(s1, s2)
    ensures Onward(s, s2)
    ensures Clean(s2) ==> Clean(s1)
  {
    hide Accounted;
    hide Blame;
  }

  lemma StopIsTold(s: Shared, s': Shared)
    requires Onward(s, s') && Sound(s) && (s'.halted || s'.budget.truncated)
    ensures !Clean(s')
  {
    hide Accounted;
    hide Moves;
  }

  lemma KeepsOn(s: Shared, s1: Shared, s2: Shared, rows: nat, more: nat, leftOut: bool)
    requires Onward(s, s1) && Balance(s, s1, rows) && Keeps(s1, s2, more, leftOut)
    ensures Keeps(s, s2, rows + more, leftOut)
    ensures Clean(s2) ==> Clean(s1)
  {
    hide Accounted;
    hide Blame;
  }

  ghost predicate VlansPlanned(keys: set<Key>, planned: seq<int>) {
    forall key | key in keys :: VlanPlanned(key.0, planned)
  }

  predicate AllPlannable(vlans: seq<int>) {
    forall v | v in vlans :: Plannable(v)
  }

  predicate AllComplete(walks: seq<bool>) {
    forall i :: 0 <= i < |walks| ==> walks[i]
  }

  ghost predicate DistinctKeys(rows: seq<Row>) {
    forall i, j :: 0 <= i < j < |rows| ==> KeyOf(rows[i]) != KeyOf(rows[j])
  }

  /** What the table of entLogicalTable and the operational VLANs amount to. */
  ghost predicate Chosen(options: Options, listed: seq<int>, vtp: seq<int>, vlans: seq<int>, advertised: bool) {
    && vlans == (if listed != [] then listed else if vtp != [] then vtp
                 else if options.contexts == Always then options.hint else [])
    && (advertised <==> listed != [] || vtp != [])
  }

  /** The VLANs with a context of their own: those the agent lists in entLogicalTable, else its
      operational VTP VLANs, else, if contexts are always wanted, those of the hint. */
  ghost predicate Advertised(mib: Mib, setup: Setup, options: Options, entityVlans: Table -> seq<int>,
                         vlans: seq<int>, advertised: bool)
  {
    exists t, vtp {:trigger entityVlans(t), OperationalVlans(MibColumn(mib, setup.oids.vlanState), vtp)} ::
      && Exact(mib, setup.oids.entLogical, t)
      && OperationalVlans(MibColumn(mib, setup.oids.vlanState), vtp)
      && Chosen(options, entityVlans(t), vtp, vlans, advertised)
  }

  lemma AdvertisedBy(world: World, setup: Setup, options: Options, entityVlans: Table -> seq<int>, t: Table,
                     vlans: seq<int>, advertised: bool, clean: bool)
    requires clean ==> forall mib | Answers(world, DefaultView, mib) ::
               && Exact(mib, setup.oids.entLogical, t)
               && Chosen(options, entityVlans(t), VtpVlans(MibColumn(mib, setup.oids.vlanState)), vlans, advertised)
    ensures clean ==> forall mib | Answers(world, DefaultView, mib) ::
              Advertised(mib, setup, options, entityVlans, vlans, advertised)
  {
    hide Answers;
    hide Exact;
    hide VtpVlans;
    hide OperationalVlans;
    if clean {
      forall mib | Answers(world, DefaultView, mib)
        ensures Advertised(mib, setup, options, entityVlans, vlans, advertised)
      {
        VtpMeaning(MibColumn(mib, setup.oids.vlanState));
      }
    }
  }

  /** The plannable VLANs were planned for; and if the clock never showed the deadline those up
      to the cap were read, and only those over it were skipped. */
  ghost predicate Planned(mib: Mib, setup: Setup, options: Options, entityVlans: Table -> seq<int>, inTime: bool,
                          planned: seq<int>, read: seq<int>, skipped: seq<int>)
  {
    exists vlans, advertised {:trigger Advertised(mib, setup, options, entityVlans, vlans, advertised)} ::
      && Advertised(mib, setup, options, entityVlans, vlans, advertised)
      && Follow(vlans, options.maxVlans, inTime, planned, read, skipped)
  }

  ghost predicate Follow(vlans: seq<int>, most: nat, inTime: bool, planned: seq<int>, read: seq<int>,
                         skipped: seq<int>)
  {
    var (toRead, over) := Plan(vlans, most);
    && planned == over + toRead
    && (inTime ==> skipped == over && multiset(read) == multiset(toRead))
  }

  /** Read and skipped are the plannable ones of the VLANs with a context of their own; and if no
      reading of the clock showed the deadline, those up to the cap were read. */
  ghost predicate VlansRead(mib: Mib, setup: Setup, options: Options, entityVlans: Table -> seq<int>, inTime: bool,
                            read: set<int>, skipped: set<int>)
  {
    exists vlans, advertised {:trigger Advertised(mib, setup, options, entityVlans, vlans, advertised)} ::
      && Advertised(mib, setup, options, entityVlans, vlans, advertised)
      && var (toRead, over) := Plan(vlans, options.maxVlans);
      && read + skipped == Elements(over + toRead)
      && (inTime ==> read == Elements(toRead) && skipped == Elements(over))
  }

  ghost predicate OnPlanned(rows: seq<Row>, planned: seq<int>) {
    forall r | r in rows :: exists v :: v in planned && r.vlan == Some(v)
  }

  /** The one column of a complete walk of an honest agent. */
  lemma ColumnsAreMib(world: World, columns: seq<Oid>, t: Table, complete: bool)
    requires |columns| == 1
    requires forall mib | Answers(world, DefaultView, mib) :: complete ==> Exact(mib, columns, t)
    ensures complete ==> forall mib | Answers(world, DefaultView, mib) :: ColumnOf(t, 0) == MibColumn(mib, columns[0])
  {
    hide Answers;
    hide Exact;
    if complete {
      forall mib | Answers(world, DefaultView, mib) ensures ColumnOf(t, 0) == MibColumn(mib, columns[0]) {
        ColumnIsMib(mib, columns, t, 0);
      }
    }
  }

  lemma VlansGiven(entries: seq<Entry>, vlanFdb: Column, named: set<int>, vlanOf: map<nat, Option<int>>,
                   out: seq<Entry>)
    requires vlanOf.Keys == IdsOf(entries) && |out| == |entries|
    requires forall f | f in vlanOf :: vlanOf[f] == VlanFor(IdsOf(entries), vlanFdb, named, f)
    requires forall i :: 0 <= i < |entries| ==>
               out[i] == entries[i].(vlan := if entries[i].fdbId.Some? && entries[i].fdbId.value in vlanOf
                                             then vlanOf[entries[i].fdbId.value] else None)
    ensures out == WithVlans(entries, AttributionOf(IdsOf(entries), vlanFdb, named))
  {
    hide VlanFor;
    forall i | 0 <= i < |entries|
      ensures out[i] == WithVlans(entries, AttributionOf(IdsOf(entries), vlanFdb, named))[i]
    {
      assert entries[i] in entries;
    }
  }

  lemma RisingDistinct(list: seq<int>)
    requires Rising(list)
    ensures forall i, j :: 0 <= i < j < |list| ==> list[i] != list[j]
  {
  }

  lemma ContextsKept(world: World, setup: Setup, shared: Shared, vlans: seq<int>, at: nat, run: seq<Action>, b: Board)
    requires forall i, j :: 0 <= i < j < |vlans| ==> vlans[i] != vlans[j]
    requires Accounted(shared) && ReadBy(world, setup, shared, vlans, at, run, b)
    ensures b.vlans == vlans
    ensures b.shared.budget.deadline == shared.budget.deadline
    ensures b.shared.budget.rowsLeft + TotalMade(b.readers) == shared.budget.rowsLeft
  {
    OpeningGood(setup, shared, vlans);
    RunsGood(setup, Opening(shared, vlans), run, b, shared.budget.rowsLeft, shared.parsed - shared.dropped.Total());
    RunsSameVlans(setup, Opening(shared, vlans), run, b);
  }

  lemma SchemeLegal(oids: Scheme)
    requires LegalScheme(oids)
    ensures Legal(oids.basePort) && Legal(oids.qPort) && Legal(oids.qStatus) && Legal(oids.vlanFdb)
    ensures Legal(oids.vlanName) && Legal(oids.dPort) && Legal(oids.dStatus) && Legal(oids.ifStack)
    ensures LegalCursors(oids.entLogical) && Legal(oids.vlanState)
  {
  }

  lemma NothingPlanned()
    ensures AllPlannable([])
  {
  }

  lemma QuickIsSound(s: Shared, s': Shared, vlans: seq<int>)
    requires s' == s.(problems := s.problems + [QuickRead])
    ensures Moves(s, s') && Accounted(s') && !Clean(s') && OnPlanned([], vlans) && Balance(s, s', 0)
  {
  }

  lemma PlannedMore(rows: seq<Row>, toRead: seq<int>, over: seq<int>)
    requires OnPlanned(rows, toRead)
    ensures OnPlanned(rows, over + toRead) && OnPlanned([], [])
    ensures multiset(over + toRead) == multiset(over) + multiset(toRead)
  {
  }

  lemma RestRead(read: seq<int>, skipped: seq<int>, failed: seq<int>, over: seq<int>, toRead: seq<int>, inTime: bool)
    requires multiset(read) + multiset(skipped) + multiset(failed) == multiset(over) + multiset(toRead)
    requires inTime ==> skipped == over && failed == []
    ensures inTime ==> multiset(read) == multiset(toRead)
  {
    if inTime {
      assert multiset(failed) == multiset{};
      forall v ensures multiset(read)[v] == multiset(toRead)[v] {
        assert (multiset(over) + multiset(toRead))[v] == multiset(over)[v] + multiset(toRead)[v];
      }
    }
  }

  lemma Followed(vlans: seq<int>, most: nat, inTime: bool, planned: seq<int>, read: seq<int>, skipped: seq<int>,
                 toRead: seq<int>, over: seq<int>)
    requires (toRead, over) == Plan(vlans, most) && planned == over + toRead
    requires inTime ==> skipped == over && multiset(read) == multiset(toRead)
    ensures Follow(vlans, most, inTime, planned, read, skipped)
  {
  }

  lemma NoDefaultPart(rows: seq<Row>, how: VlanMap, read: seq<int>)
    requires how != ContextMap
    ensures DefaultPart(rows, how, read) == rows && DefaultPart(rows, how, read) + [] == rows
    ensures OnPlanned([], [])
  {
  }

  /** A per-VLAN read leaves nothing out of its account. */
  lemma ContextsDone(world: World, setup: Setup, shared: Shared, vlans: seq<int>, at: nat, run: seq<Action>, b: Board)
    requires Rising(vlans) && Accounted(shared) && ReadBy(world, setup, shared, vlans, at, run, b)
    ensures multiset(b.read) + multiset(b.skipped) + multiset(b.failed) == multiset(vlans)
    ensures OnPlanned(Gathered(b, |b.vlans|), vlans)
    ensures var s := b.shared.(problems := Reported(b));
            && Moves(shared, s) && Accounted(s) && (Clean(s) ==> b.failed == [])
            && Balance(shared, s, |Gathered(b, |b.vlans|)|)
  {
    RisingDistinct(vlans);
    FinishedRead(setup, shared, vlans, run, b);
  }

  lemma TablesWalked(world: World, setup: Setup, f: FdbTable, t: Table, complete: bool)
    requires Built(2, t)
    requires forall mib | Answers(world, DefaultView, mib) :: complete ==> Exact(mib, [f.port, f.status], t)
    ensures RowsHaveCells(t)
    ensures complete ==> forall mib | Answers(world, DefaultView, mib) ::
              Exact(mib, [f.port, f.status], t) && (t.order == [] ==> NoRows(mib, f))
  {
    hide Answers;
    hide Exact;
    hide NoRows;
    hide Built;
    hide RowsHaveCells;
    TwoColumns(t);
    if complete {
      forall mib | Answers(world, DefaultView, mib)
        ensures Exact(mib, [f.port, f.status], t) && (t.order == [] ==> NoRows(mib, f))
      {
        if t.order == [] {
          NothingWalked(mib, f, t);
        }
      }
    }
  }

  /** Rows of a BRIDGE table have no VLAN of their own. */
  lemma LearnedVlanless(t: Table, base: Column, ifaces: Ifaces, dropped: Drops, stack: Option<map<string, string>>)
    ensures forall r | r in FoldIf(Learned(ParseRows(t, t.order, false), base, ifaces, dropped).rows, stack, ifaces) ::
              r.vlan == None
  {
    hide Learned;
    hide MapPorts;
    hide VerdictOf;
    hide HasLogical;
    var entries := ParseRows(t, t.order, false);
    ParsedVlanless(t, t.order, false);
    var rows := Learned(entries, base, ifaces, dropped).rows;
    forall r | r in rows ensures r.vlan == None {
      LearnedExactly(entries, base, ifaces, dropped, r);
    }
  }

  /** With the VLAN map `context`, no row is without a VLAN that was planned for. */
  lemma ContextRows(defaults: seq<Row>, how: VlanMap, read: seq<int>, perVlan: seq<Row>, planned: seq<int>)
    requires how == ContextMap ==> forall r | r in defaults :: r.vlan == None
    requires OnPlanned(perVlan, planned)
    ensures how == ContextMap ==>
              VlansPlanned(KeysOf(DefaultPart(defaults, how, read) + perVlan), planned)
  {
    if how == ContextMap {
      forall r | r in DefaultPart(defaults, how, read) + perVlan ensures VlanPlanned(r.vlan, planned) {
        if r in perVlan {
          assert exists v :: v in planned && r.vlan == Some(v);
        }
      }
    }
  }

  lemma UniqueKeys(rows: seq<Row>)
    ensures KeysOf(FirstOnly(rows)) == KeysOf(rows) && DistinctKeys(FirstOnly(rows))
    ensures FirstOnly(rows) != [] ==> rows != []
  {
    FirstOnlyKeys(rows);
  }

  lemma FreshBalance(s: Shared, s': Shared, rows: nat)
    requires Balance(s, s', rows) && s.parsed == 0 && s.dropped.Total() == 0
    ensures s'.parsed == rows + s'.dropped.Total()
  {
  }

  lemma FreshIsSound(s: Shared)
    requires s.walks == [] && !s.halted
    ensures Sound(s)
  {
  }

  lemma CleanIsComplete(s: Shared, s': Shared)
    requires Moves(s, s') && Accounted(s') && s.budget.rowsLeft >= 0
    ensures Clean(s') ==> AllComplete(s'.walks)
    ensures s'.budget.rowsLeft >= 0
  {
  }

  lemma AskedMore(asked: seq<Asked>, halted: bool, truncated: bool, x: Asked, truncated': bool)
    requires Heeded(asked, halted, truncated) && !halted && (truncated || x.cut ==> truncated')
    ensures Heeded(asked + [x], x.silent, truncated')
  {
    assert forall i :: 0 <= i < |asked| ==> !asked[i].silent;
  }

  lemma Unstopped(asked: seq<Asked>, halted: bool, truncated: bool)
    requires Heeded(asked, halted, truncated) && !halted && !truncated
    ensures NoStop(asked)
  {
  }

  lemma FirstAsked(oids: Scheme, asked: seq<Asked>, n: nat)
    requires n == |asked| && 1 <= n <= 3 && NoStop(asked[..n - 1])
    requires asked[0].columns == [oids.basePort]
    requires n >= 2 ==> asked[1].columns == [oids.vlanFdb]
    requires n >= 3 ==> asked[2].columns == [oids.qPort, oids.qStatus]
    ensures FirstWalks(oids, asked, n == 3)
  {
    assert forall i :: 0 <= i < n - 1 ==> asked[i] == asked[..n - 1][i];
  }

  /** One of the first walks more, when nothing has stopped the read. */
  lemma AskedOn(oids: Scheme, before: seq<Asked>, asked: seq<Asked>, columns: seq<Oid>, calm: bool, halted: bool,
                truncated: bool)
    requires |asked| == |before| + 1 && asked == before + [asked[|before|]] && asked[|before|].columns == columns
    requires calm ==> Heeded(before, false, false) && (halted <==> asked[|before|].silent)
    requires calm && asked[|before|].cut ==> truncated
    ensures calm ==> Heeded(asked, halted, truncated)
    ensures calm && NextFirst(oids, before, columns) ==>
              Named(oids, asked) && |asked| <= 3 && FirstWalks(oids, asked, |asked| == 3)
  {
    if calm {
      AskedMore(before, false, false, asked[|before|], truncated);
      Unstopped(before, false, false);
      if NextFirst(oids, before, columns) {
        assert asked[..|asked| - 1] == before;
        FirstAsked(oids, asked, |asked|);
      }
    }
  }

  ghost predicate Named(oids: Scheme, asked: seq<Asked>) {
    && |asked| >= 1 && asked[0].columns == [oids.basePort]
    && (|asked| >= 2 ==> asked[1].columns == [oids.vlanFdb])
    && (|asked| >= 3 ==> asked[2].columns == [oids.qPort, oids.qStatus])
  }

  /** The columns walked next, of the first three walks. */
  ghost predicate NextFirst(oids: Scheme, asked: seq<Asked>, columns: seq<Oid>) {
    || (asked == [] && columns == [oids.basePort])
    || (|asked| == 1 && Named(oids, asked) && columns == [oids.vlanFdb])
    || (|asked| == 2 && Named(oids, asked) && columns == [oids.qPort, oids.qStatus])
  }

  lemma FirstWalksMore(oids: Scheme, asked: seq<Asked>, more: seq<Asked>, going: bool)
    requires FirstWalks(oids, asked, true) && asked <= more
    ensures FirstWalks(oids, more, going)
  {
  }

  lemma ThirdStands(oids: Scheme, asked: seq<Asked>)
    requires FirstWalks(oids, asked, true) && NoStop(asked)
    ensures |asked| >= 3 && !asked[2].Stops()
  {
  }

  lemma FirstWalksLess(oids: Scheme, asked: seq<Asked>, going: bool, less: bool)
    requires FirstWalks(oids, asked, going) && (less ==> going)
    ensures FirstWalks(oids, asked, less)
  {
  }

  lemma TimelyThrough(world: World, deadline: int, a: nat, b: nat, c: nat, first: Late, second: Late, third: Late)
    requires Timely(world, deadline, a, b, first, second) && Timely(world, deadline, b, c, second, third)
    ensures Timely(world, deadline, a, c, first, third)
  {
  }

  lemma TimelyWalk(world: World, deadline: int, a: nat, b: nat, late: Late)
    requires a <= b
    ensures Timely(world, deadline, a, b, late, late)
  {
  }

  /** What was left out after a reading of the clock that showed the deadline was left out late. */
  lemma TimelyLate(world: World, deadline: int, a: nat, at: nat, b: nat, early: Late, late: Late)
    requires a <= at < b && world.clock(at) >= deadline
    ensures Timely(world, deadline, a, b, early, late)
  {
  }

  lemma NoStack(world: World, setup: Setup, s: Shared)
    ensures s.stack.None? ==> forall mib | Answers(world, DefaultView, mib) :: StackTrue(mib, setup, s)
  {
  }

  lemma StackRead(world: World, setup: Setup, s: Shared, complete: bool)
    requires s.stack.Some? && (!complete ==> !Clean(s))
    requires complete ==> forall mib | Answers(world, DefaultView, mib) ::
               IsUnitPorts(MibColumn(mib, setup.oids.ifStack), setup.ifaces, s.stack.value)
    ensures forall mib | Answers(world, DefaultView, mib) :: StackTrue(mib, setup, s)
  {
    hide Answers;
    hide IsUnitPorts;
    hide StackFold;
    if complete {
      forall mib | Answers(world, DefaultView, mib) ensures StackTrue(mib, setup, s) {
        UnitPortsUnique(MibColumn(mib, setup.oids.ifStack), setup.ifaces, s.stack.value, StackFold(mib, setup));
      }
    }
  }

  lemma ContextsDoneExactly(world: World, setup: Setup, shared: Shared, vlans: seq<int>, at: nat, run: seq<Action>,
                            b: Board, inTime: bool)
    requires Rising(vlans) && Sound(shared) && ReadBy(world, setup, shared, vlans, at, run, b)
    requires inTime ==> InTime(world, shared.budget.deadline, at, at + 2 * |run|)
    ensures Clean(b.shared.(problems := Reported(b))) ==>
              VlansExact(world, setup, shared, inTime, b.read, KeysOf(Gathered(b, |b.vlans|)))
  {
    hide Gathered;
    hide KeysOf;
    hide VlansExact;
    hide ReadBy;
    hide InTime;
    hide Accounted;
    RisingDistinct(vlans);
    if Clean(b.shared.(problems := Reported(b))) {
      AllReadExactly(world, setup, shared, vlans, at, run, b);
      ExactFrom(world, setup, shared, shared, inTime, InTime(world, shared.budget.deadline, at, at + 2 * |run|), b.read,
                KeysOf(Gathered(b, |b.vlans|)));
    }
  }

  lemma ContextsInTime(world: World, setup: Setup, shared: Shared, vlans: seq<int>, at: nat, run: seq<Action>, b: Board)
    requires Rising(vlans) && Accounted(shared) && ReadBy(world, setup, shared, vlans, at, run, b)
    ensures Clean(b.shared.(problems := Reported(b))) ==>
              && (InTime(world, shared.budget.deadline, at, at + 2 * |run|) ==> b.skipped == [])
              && OnPlanned(Gathered(b, |b.vlans|), b.read)
  {
    hide InTime;
    hide FromWorld;
    hide Reported;
    hide Gathered;
    hide Finished;
    hide Runs;
    RisingDistinct(vlans);
    if Clean(b.shared.(problems := Reported(b))) {
      RowsOfRead(setup, shared, vlans, run, b);
      if InTime(world, shared.budget.deadline, at, at + 2 * |run|) {
        NothingSkipped(world, setup, shared, vlans, at, run, b);
      }
    }
  }

  lemma ExactSince(world: World, setup: Setup, early: Shared, late: Shared, inTime: bool, read: seq<int>,
                   keys: set<Key>, clean: bool)
    requires clean ==> VlansExact(world, setup, late, inTime, read, keys)
    requires Moves(early, late) && late.stack == early.stack
    ensures clean ==> VlansExact(world, setup, early, inTime, read, keys)
  {
    hide VlansExact;
    hide Moves;
    if clean {
      ExactFrom(world, setup, early, late, inTime, inTime, read, keys);
    }
  }

  lemma NothingRead(world: World, setup: Setup)
    ensures forall inTime :: OwnExact(world, setup, inTime, [], KeysOf([]))
  {
  }

  lemma OwnExactIf(world: World, setup: Setup, before: Shared, inTime: bool, read: seq<int>, keys: set<Key>,
                   clean: bool)
    requires clean ==> VlansExact(world, setup, before, inTime, read, keys)
    requires forall mib0 | Answers(world, DefaultView, mib0) :: StackTrue(mib0, setup, before)
    ensures clean ==> OwnExact(world, setup, inTime, read, keys)
  {
    hide VlansExact;
    hide OwnExact;
    hide Answers;
    hide StackTrue;
    if clean {
      OwnExactFrom(world, setup, before, inTime, read, keys);
    }
  }

  /** The default context adds nothing to a VLAN that was read. */
  lemma RowsOwnExact(world: World, setup: Setup, defaults: seq<Row>, how: VlanMap, inTime: bool, read: seq<int>,
                     perVlan: seq<Row>)
    requires OwnExact(world, setup, inTime, read, KeysOf(perVlan)) && (read != [] ==> how == ContextMap)
    requires how == ContextMap ==> forall r | r in defaults :: r.vlan == None
    ensures OwnExact(world, setup, inTime, read, KeysOf(DefaultPart(defaults, how, read) + perVlan))
  {
    hide OwnExact;
    var part := DefaultPart(defaults, how, read);
    KeysAppend(part, perVlan);
    forall v, key: Key | v in read && key.0 == Some(v)
      ensures key in KeysOf(perVlan) <==> key in KeysOf(part + perVlan)
    {
      NotOfDefaults(defaults, read, v, key);
    }
    OwnExactAmong(world, setup, inTime, inTime, read, KeysOf(perVlan), KeysOf(part + perVlan));
  }

  lemma NotOfDefaults(defaults: seq<Row>, read: seq<int>, v: int, key: Key)
    requires v in read && key.0 == Some(v) && forall r | r in defaults :: r.vlan == None
    ensures key !in KeysOf(DefaultPart(defaults, ContextMap, read))
  {
  }

  /** A VLAN whose rows were left unfolded for lack of time is exact all the same, if and only if
      no address of it is on a unit that the default context's ifStackTable folds. */
  lemma UnfoldedVlanExactIff(mib0: Mib, mib: Mib, setup: Setup, v: int, keys: set<Key>)
    requires KeysOwedOn(mib, setup, v, map[], keys)
    ensures VlanExact(mib0, mib, setup, v, true, keys)
            <==> !OnUnit(mib, setup, DTable(setup.oids), StackFold(mib0, setup))
  {
    hide StackFold;
    hide OnUnit;
    hide ExactKeys;
    var own := set key: Key | key in keys && key.0 == Some(v);
    OwedOnVlan(mib, setup, v, map[], keys, own);
    OwedOnVlan(mib, setup, v, StackFold(mib0, setup), keys, own);
    UnfoldedExactIff(mib, mib0, setup, DTable(setup.oids), OnlyVlan(v), own);
  }

  lemma OwedOnVlan(mib: Mib, setup: Setup, v: int, fold: map<string, string>, keys: set<Key>, own: set<Key>)
    requires own == set key: Key | key in keys && key.0 == Some(v)
    ensures KeysOwedOn(mib, setup, v, fold, keys)
            <==> ExactKeys(mib, setup, DTable(setup.oids), OnlyVlan(v), fold, own)
  {
    hide Learnable;
    hide OnInterface;
    hide Fold;
    hide DTable;
    var f := DTable(setup.oids);
    assert forall index, key | Owed(mib, setup, f, OnlyVlan(v), fold, index, key) :: key.0 == Some(v);
    hide Owed;
    assert forall key :: key in own <==> key in keys && key.0 == Some(v);
    if KeysOwedOn(mib, setup, v, fold, keys) {
      assert ExactKeys(mib, setup, f, OnlyVlan(v), fold, own);
    }
    if ExactKeys(mib, setup, f, OnlyVlan(v), fold, own) {
      assert KeysOwedOn(mib, setup, v, fold, keys);
    }
  }

  lemma OwnExactSet(world: World, setup: Setup, inTime: bool, read: seq<int>, keys: set<Key>)
    requires OwnExact(world, setup, inTime, read, keys)
    ensures ReadExact(world, setup, inTime, Elements(read), keys)
  {
    hide Answers;
    hide VlanExact;
  }

  /** The keys off the VLANs that were read are the default part's. */
  lemma RestIsDefault(defaults: seq<Row>, how: VlanMap, read: seq<int>, perVlan: seq<Row>, key: Key)
    requires forall r | r in defaults :: r.vlan == None
    requires OnPlanned(perVlan, read) && (read != [] ==> how == ContextMap)
    ensures key in KeysOff(KeysOf(DefaultPart(defaults, how, read) + perVlan), Elements(read))
            <==> 1 !in read && key.0 == (if how == ContextMap then Some(1) else None)
                 && (None, key.1, key.2) in KeysOf(defaults)
  {
    var part := DefaultPart(defaults, how, read);
    KeysAppend(part, perVlan);
    assert key in KeysOf(perVlan) ==> key.0.Some? && key.0.value in read;
    DefaultPartKeys(defaults, how, read, key);
  }

  lemma DefaultPartKeys(defaults: seq<Row>, how: VlanMap, read: seq<int>, key: Key)
    requires forall r | r in defaults :: r.vlan == None
    requires read != [] ==> how == ContextMap
    ensures key in KeysOf(DefaultPart(defaults, how, read))
            <==> 1 !in read && key.0 == (if how == ContextMap then Some(1) else None)
                 && (None, key.1, key.2) in KeysOf(defaults)
  {
    if how == ContextMap && 1 !in read {
      var out := OnVlanOne(defaults);
      if r :| r in out && KeyOf(r) == key {
        var i :| 0 <= i < |out| && out[i] == r;
        assert defaults[i] in defaults;
      }
      if r :| r in defaults && KeyOf(r) == (None, key.1, key.2) {
        var i :| 0 <= i < |defaults| && defaults[i] == r;
        assert out[i] in out;
      }
    }
  }

  lemma PlannedAreRead(mib: Mib, setup: Setup, options: Options, entityVlans: Table -> seq<int>, inTime: bool,
                       planned: seq<int>, read: seq<int>, skipped: seq<int>)
    requires Planned(mib, setup, options, entityVlans, inTime, planned, read, skipped)
    requires multiset(read) + multiset(skipped) == multiset(planned)
    ensures VlansRead(mib, setup, options, entityVlans, inTime, Elements(read), Elements(skipped))
  {
    hide Advertised;
    hide Plan;
    var vlans, advertised :| && Advertised(mib, setup, options, entityVlans, vlans, advertised)
                             && Follow(vlans, options.maxVlans, inTime, planned, read, skipped);
    var (toRead, over) := Plan(vlans, options.maxVlans);
    ElementsOf(read, skipped, planned);
    if inTime {
      SameElements(read, toRead);
    }
  }

  lemma Promises(world: World, setup: Setup, options: Options, entityVlans: Table -> seq<int>, late: Late,
                 inTime: bool, meta: Meta, keys: set<Key>, planned: seq<int>, read: seq<int>, skipped: seq<int>)
    requires OwnExact(world, setup, inTime, read, keys)
    requires meta.read == Elements(read) && meta.skipped == Elements(skipped)
    requires multiset(read) + multiset(skipped) == multiset(planned)
    requires forall mib | Answers(world, DefaultView, mib) ::
               && KeysExact(mib, setup, late, meta.source, meta.vlanMap, Elements(read), keys)
               && (meta.source != QBridge && options.contexts != Off ==>
                     Planned(mib, setup, options, entityVlans, inTime, planned, read, skipped))
    ensures Promised(world, setup, options, entityVlans, late, inTime, meta, keys)
  {
    hide Answers;
    hide Planned;
    hide OwnExact;
    hide ReadExact;
    hide KeysExact;
    hide VlansRead;
    hide Elements;
    OwnExactSet(world, setup, inTime, read, keys);
    forall mib | Answers(world, DefaultView, mib)
      ensures meta.source != QBridge && options.contexts != Off ==>
                VlansRead(mib, setup, options, entityVlans, inTime, meta.read, meta.skipped)
    {
      if meta.source != QBridge && options.contexts != Off {
        PlannedAreRead(mib, setup, options, entityVlans, inTime, planned, read, skipped);
      }
    }
  }

  lemma SameElements(a: seq<int>, b: seq<int>)
    requires multiset(a) == multiset(b)
    ensures Elements(a) == Elements(b)
  {
    forall v ensures v in a <==> v in b {
      assert v in a <==> multiset(a)[v] > 0;
      assert v in b <==> multiset(b)[v] > 0;
    }
  }

  lemma ElementsOf(a: seq<int>, b: seq<int>, c: seq<int>)
    requires multiset(a) + multiset(b) == multiset(c)
    ensures Elements(a) + Elements(b) == Elements(c)
  {
    forall v ensures v in a || v in b <==> v in c {
      assert v in a <==> multiset(a)[v] > 0;
      assert v in b <==> multiset(b)[v] > 0;
      assert v in c <==> multiset(c)[v] > 0;
    }
  }

  /** What the rows of a complete read come to. */
  lemma AllKeysExact(mib: Mib, setup: Setup, late: Late, source: Source, defaults: seq<Row>, how: VlanMap,
                     read: seq<int>, perVlan: seq<Row>)
    requires DefaultsExact(mib, setup, source == QBridge, late, defaults)
    requires source == QBridge ==> perVlan == [] && how != ContextMap
    requires source != QBridge ==> forall r | r in defaults :: r.vlan == None
    requires OnPlanned(perVlan, read) && (read != [] ==> how == ContextMap)
    ensures KeysExact(mib, setup, late, source, how, Elements(read),
                      KeysOf(DefaultPart(defaults, how, read) + perVlan))
  {
    hide BridgeExact;
    hide RestExact;
    hide QKeysExact;
    hide NoRows;
    hide KeysOf;
    hide OnPlanned;
    if source == QBridge {
      FirstOnlyKeys(defaults);
      NoDefaultPart(defaults, how, read);
    } else {
      RestIsExact(mib, setup, late, defaults, how, read, perVlan);
    }
  }

  /** With its VLANs read in contexts of their own, what else a BRIDGE read reports is the default
      context's, exactly. */
  lemma RestIsExact(mib: Mib, setup: Setup, late: Late, defaults: seq<Row>, how: VlanMap, read: seq<int>,
                    perVlan: seq<Row>)
    requires BridgeExact(mib, setup, late, defaults)
    requires forall r | r in defaults :: r.vlan == None
    requires OnPlanned(perVlan, read) && (read != [] ==> how == ContextMap)
    ensures RestExact(mib, setup, late, how, Elements(read), KeysOf(DefaultPart(defaults, how, read) + perVlan))
  {
    hide ExactKeys;
    hide MacsOwed;
    hide ExactFolded;
    hide StackMatters;
    hide LateFold;
    hide KeysOf;
    hide OnPlanned;
    hide DefaultPart;
    hide KeysOff;
    var f, keys := DTable(setup.oids), KeysOf(DefaultPart(defaults, how, read) + perVlan);
    var rest, v := KeysOff(keys, Elements(read)), if how == ContextMap then Some(1) else None;
    FirstOnlyKeys(defaults);
    forall key: Key
      ensures key in rest <==> 1 !in read && key.0 == v && (None, key.1, key.2) in KeysOf(defaults)
    {
      RestIsDefault(defaults, how, read, perVlan, key);
    }
    if 1 !in read {
      OnOneVlan(mib, setup, f, NoVlan(), AllOn(v), LateFold(mib, setup, late.stack), KeysOf(defaults), rest, v);
      ExactMacs(mib, setup, f, AllOn(v), LateFold(mib, setup, late.stack), rest);
      BridgeExactIff(mib, setup, AllOn(v), late.stack, rest);
    }
  }

  lemma AskIsOnward(before: Shared, cfg: Config, t: Table, complete: bool, stats: Stats, after: Budget, column: Oid,
                    s: Shared)
    requires Spends(cfg, EMPTY, before.budget, t, after)
    requires complete <==> stats.error == "" && !stats.truncated
    requires complete ==> !stats.timeout
    requires stats.truncated ==> after.truncated
    requires !stats.truncated ==> after.truncated == before.budget.truncated && after.reason == before.budget.reason
    requires var walked := before.(budget := after, walks := before.walks + [complete]);
             s == if complete then walked else Contexts.Note(walked, column, stats)
    ensures Onward(before, s) && (!complete ==> !Clean(s))
  {
    WalkBlames(before.walks, complete);
    hide SomeEnded;
  }

  lemma WalkBlames(walks: seq<bool>, complete: bool)
    ensures SomeEnded(walks) ==> SomeEnded(walks + [complete])
    ensures !complete ==> SomeEnded(walks + [complete])
  {
    EndedNow(walks);
    if SomeEnded(walks) {
      EndedStays(walks, walks + [complete]);
    }
  }

  lemma ContextsBlamed(world: World, setup: Setup, shared: Shared, vlans: seq<int>, at: nat, run: seq<Action>, b: Board)
    requires Rising(vlans) && Accounted(shared) && ReadBy(world, setup, shared, vlans, at, run, b)
    ensures Blame(shared) ==> Blame(b.shared.(problems := Reported(b)))
  {
    hide Blame;
    RisingDistinct(vlans);
    if Blame(shared) {
      FinishedBlame(setup, shared, vlans, run, b);
    }
  }

  /** What a clean read has promised, from what its two parts are. */
  lemma PromisesKept(world: World, setup: Setup, options: Options, entityVlans: Table -> seq<int>, late: Late,
                     inTime: bool, meta: Meta, keys: set<Key>, defaults: seq<Row>, perVlan: seq<Row>,
                     planned: seq<int>, read: seq<int>, skipped: seq<int>)
    requires keys == KeysOf(DefaultPart(defaults, meta.vlanMap, read) + perVlan)
    requires meta.read == Elements(read) && meta.skipped == Elements(skipped)
    requires multiset(read) + multiset(skipped) == multiset(planned)
    requires meta.source == QBridge ==> perVlan == [] && meta.vlanMap != ContextMap
    requires meta.source != QBridge ==> forall r | r in defaults :: r.vlan == None
    requires OnPlanned(perVlan, read) && (read != [] ==> meta.vlanMap == ContextMap)
    requires OwnExact(world, setup, inTime, read, KeysOf(perVlan))
    requires forall mib | Answers(world, DefaultView, mib) ::
               && DefaultsExact(mib, setup, meta.source == QBridge, late, defaults)
               && (meta.source != QBridge && options.contexts != Off ==>
                     Planned(mib, setup, options, entityVlans, inTime, planned, read, skipped))
    ensures OwnExact(world, setup, inTime, read, keys)
    ensures forall mib | Answers(world, DefaultView, mib) ::
              KeysExact(mib, setup, late, meta.source, meta.vlanMap, meta.read, keys)
    ensures Promised(world, setup, options, entityVlans, late, inTime, meta, keys)
  {
    hide Answers;
    hide OwnExact;
    hide OnPlanned;
    hide KeysOf;
    hide DefaultPart;
    hide Planned;
    hide Promised;
    hide KeysExact;
    hide DefaultsExact;
    hide Elements;
    RowsOwnExact(world, setup, defaults, meta.vlanMap, inTime, read, perVlan);
    forall mib | Answers(world, DefaultView, mib)
      ensures KeysExact(mib, setup, late, meta.source, meta.vlanMap, meta.read, keys)
    {
      AllKeysExact(mib, setup, late, meta.source, defaults, meta.vlanMap, read, perVlan);
    }
    Promises(world, setup, options, entityVlans, late, inTime, meta, keys, planned, read, skipped);
  }

  /** When every walk ended, nothing stands against the read. */
  lemma BlameIsEnough(s: Shared)
    ensures Blame(s) && AllComplete(s.walks) ==> Clean(s)
  {
  }

  /** The account of a whole read: it is clean exactly when every walk ran to its end and no planned
      VLAN was left out. */
  lemma FreshKeeps(s: Shared, s': Shared, rows: nat, leftOut: bool)
    requires Keeps(s, s', rows, leftOut) && Clean(s) && s.walks == [] && s.parsed == 0 && s.dropped.Total() == 0
    requires s.budget.rowsLeft >= 0
    ensures s'.parsed == rows + s'.dropped.Total() && s'.budget.rowsLeft >= 0
    ensures Clean(s') <==> AllComplete(s'.walks) && !leftOut
  {
    hide Drops.Total;
    FreshBalance(s, s', rows);
    CleanIsComplete(s, s');
    BlameIsEnough(s');
  }

  lemma LegalShort(o: Oid)
    requires |o| <= 20 && forall i :: 0 <= i < |o| ==> o[i] <= 100
    ensures Legal(o)
  {
  }

  lemma StandardIsLegal()
    ensures LegalScheme(STANDARD) && STANDARD.entLogical != []
  {
    hide Legal;
    LegalShort(STANDARD.basePort);
    LegalShort(STANDARD.qPort);
    LegalShort(STANDARD.qStatus);
    LegalShort(STANDARD.vlanFdb);
    LegalShort(STANDARD.vlanName);
    LegalShort(STANDARD.dPort);
    LegalShort(STANDARD.dStatus);
    LegalShort(STANDARD.ifStack);
    LegalShort(STANDARD.vlanState);
    forall k | 0 <= k < |STANDARD.entLogical| ensures Legal(STANDARD.entLogical[k]) {
      LegalShort(STANDARD.entLogical[k]);
    }
  }
}
