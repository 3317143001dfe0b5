/** What a finished walk and a finished read amount to, in the terms of module MacTable. */
module MacFacts {
  import opened Oids
  import opened Agent
  import opened Text
  import opened Mac
  import opened Walk
  import opened WalkSafety
  import opened WalkExact
  import opened WalkBounds
  import opened WalkRun
  import opened Walker
  import opened WalkTimeout
  import opened Fdb
  import opened FdbProofs
  import opened Contexts
  import opened ContextsProofs
  import opened ContextsBlame
  import opened Exactness

  /** Nothing stands against the read so far. */
  predicate Clean(s: Shared) {
    s.problems == [] && !s.budget.truncated
  }

  /** No early end is unmentioned, and a halt has a reason. */
  ghost predicate Sound(s: Shared) {
    Accounted(s) && (s.halted ==> s.problems != [])
  }

  /** The shared state went from `s` to `s'`. */
  ghost predicate Onward(s: Shared, s': Shared) {
    Moves(s, s') && (Sound(s) ==> Sound(s')) && (Blame(s) ==> Blame(s'))
  }

  /** How a walk's table is built. */
  ghost predicate Built(columns: nat, t: Table) {
    && (forall index :: index in t.order <==> index in t.rows)
    && (forall index | index in t.rows :: t.rows[index] != map[] && forall k | k in t.rows[index] :: k < columns)
  }

  lemma TwoColumns(t: Table)
    requires Built(2, t)
    ensures RowsHaveCells(t)
  {
    forall index ensures index in t.order <==> t.Has(index, 0) || t.Has(index, 1) {
      if index in t.rows {
        assert t.rows[index] == map[] || exists k :: k in t.rows[index];
        var k :| k in t.rows[index];
      }
    }
  }

  lemma EmptyTable(t: Table)
    requires Built(2, t) && t.order == []
    ensures t.rows == map[]
  {
    assert forall index :: index !in t.rows;
  }

  /** The walk's agent fell silent on it: its last request timed out with no retry left. */
  ghost predicate Silent(world: World, context: Context, cfg: Config, maxRep: nat, before: Budget, at: nat, next: nat) {
    next > at && FellSilent(world, context, cfg, WalkRun.Start(cfg, maxRep, before), at, next - at)
  }

  /** What a walk reports is true of it, whatever the agent did. */
  lemma WalkReports(world: World, context: Context, cfg: Config, maxRep: nat, before: Budget, at: nat,
                    t: Table, complete: bool, stats: Stats, next: nat, after: Budget)
    requires Walked(world, context, cfg, maxRep, before, at, t, complete, stats, next, after)
    ensures next >= at && Built(|cfg.bases|, t) && Spends(cfg, EMPTY, before, t, after)
    ensures complete <==> stats.error == "" && !stats.truncated
    ensures stats.timeout <==> Silent(world, context, cfg, maxRep, before, at, next)
    ensures stats.timeout ==> !complete && !stats.truncated
    ensures stats.truncated ==> after.truncated
    ensures !stats.truncated ==> after.truncated == before.truncated && after.reason == before.reason
  {
    hide Run;
    var s := WalkRun.Start(cfg, maxRep, before);
    RunSane(world, context, cfg, s, at, next - at);
    RunSpends(world, context, cfg, s, at, next - at);
    SaneReports(cfg, Run(world, context, cfg, s, at, next - at).walk);
    if next > at {
      TimeoutMeans(world, context, cfg, maxRep, before, at, next - at);
    } else {
      NoRequest(world, context, cfg, maxRep, before, at);
    }
  }

  lemma NoRequest(world: World, context: Context, cfg: Config, maxRep: nat, before: Budget, at: nat)
    ensures !Run(world, context, cfg, WalkRun.Start(cfg, maxRep, before), at, 0).walk.stats.timeout
  {
  }

  lemma SaneReports(cfg: Config, w: Walk)
    requires Sane(cfg, w)
    ensures Built(|cfg.bases|, w.table)
    ensures w.complete <==> w.stats.error == "" && !w.stats.truncated
    ensures w.complete ==> !w.stats.timeout
  {
    forall index | index in w.table.rows
      ensures w.table.rows[index] != map[] && forall k | k in w.table.rows[index] :: k < |cfg.bases|
    {
      assert forall k | k in w.table.rows[index] :: w.table.Has(index, k);
    }
  }

  lemma WalkRefines(world: World, context: Context, cfg: Config, maxRep: nat, before: Budget, at: nat,
                    t: Table, complete: bool, stats: Stats, next: nat, after: Budget, mib: Mib)
    requires Walked(world, context, cfg, maxRep, before, at, t, complete, stats, next, after)
    requires Answers(world, context, mib)
    ensures Truthful(mib, cfg.bases, t) && (complete ==> Exact(mib, cfg.bases, t))
  {
    hide Run;
    hide Answers;
    hide Truthful;
    hide Exact;
    RunRefines(world, context, cfg, maxRep, before, at, next - at, mib);
  }

  // ---- What a Q-BRIDGE read owes ----

  /** VLAN ids among the rows of dot1qVlanStaticName. */
  function NamesIn(names: Column): set<int> {
    set index | index in names && |index| == 1 && index[0] != 0 :: index[0]
  }

  /** A VLAN is named by a row whose index is that VLAN alone, and not zero. */
  lemma NamesMeaning(names: Column, v: int)
    ensures v in NamesIn(names) <==> v >= 1 && [v] in names
  {
    if v in NamesIn(names) {
      var index :| index in names && |index| == 1 && index[0] != 0 && index[0] == v;
      assert index == [v];
    }
  }

  /** The VLANs an agent names, which matters only when it does not say which VLANs use an
      FDB id. */
  ghost function NamedVlans(mib: Mib, setup: Setup): set<int> {
    if MibColumn(mib, setup.oids.vlanFdb) == map[] then
      setup.ifaces.pvids + NamesIn(MibColumn(mib, setup.oids.vlanName))
    else {}
  }

  /** Only where dot1qVlanFdbId has no row at all are VLANs named: the interfaces' own, and those
      of dot1qVlanStaticName. */
  lemma NamedMeaning(mib: Mib, setup: Setup, v: int)
    ensures v in NamedVlans(mib, setup) <==>
              && (forall index :: index !in MibColumn(mib, setup.oids.vlanFdb))
              && (v in setup.ifaces.pvids || (v >= 1 && [v] in MibColumn(mib, setup.oids.vlanName)))
  {
    hide NamesIn;
    hide MibColumn;
    NamesMeaning(MibColumn(mib, setup.oids.vlanName), v);
    if MibColumn(mib, setup.oids.vlanFdb) != map[] {
      assert MibColumn(mib, setup.oids.vlanFdb).Keys != {};
    }
  }

  ghost function AttributionOf(ids: set<nat>, vlanFdb: Column, named: set<int>): Attribution {
    (fid: Option<nat>) => if fid.Some? then VlanFor(ids, vlanFdb, named, fid.value) else None
  }

  function NoVlan(): Attribution {
    (fid: Option<nat>) => None
  }

  /** The logical units of the MIB's ifStackTable that fold, and the ports they fold onto. */
  ghost function StackFold(mib: Mib, setup: Setup): (fold: map<string, string>)
    ensures IsUnitPorts(MibColumn(mib, setup.oids.ifStack), setup.ifaces, fold)
  {
    UnitPortsOf(MibColumn(mib, setup.oids.ifStack), setup.ifaces)
  }

  /** The keys are those the MIB owes for one of its forwarding tables under an attribution,
      folded by its ifStackTable. */
  ghost predicate ExactFolded(mib: Mib, setup: Setup, f: FdbTable, vlanOf: Attribution, keys: set<Key>) {
    ExactKeys(mib, setup, f, vlanOf, StackFold(mib, setup), keys)
  }

  /** The keys are those the MIB owes for its Q-BRIDGE table: every attribution is the MIB's. */
  ghost predicate QExact(mib: Mib, setup: Setup, keys: set<Key>) {
    exists ids: set<nat> ::
      && FdbIds(mib, QTable(setup.oids), ids)
      && ExactFolded(mib, setup, QTable(setup.oids),
                     AttributionOf(ids, MibColumn(mib, setup.oids.vlanFdb), NamedVlans(mib, setup)), keys)
  }

  /** The addresses are those of the MIB's learnable entries that are on an interface. */
  ghost predicate MacsOwed(mib: Mib, setup: Setup, f: FdbTable, keys: set<Key>) {
    forall mac :: MacIn(keys, mac) <==> MacOwed(mib, setup, f, mac)
  }

  lemma ExactMacs(mib: Mib, setup: Setup, f: FdbTable, vlanOf: Attribution, fold: map<string, string>, keys: set<Key>)
    requires ExactKeys(mib, setup, f, vlanOf, fold, keys)
    ensures MacsOwed(mib, setup, f, keys)
  {
    hide ExactKeys;
    hide MacIn;
    hide MacOwed;
    forall mac ensures MacIn(keys, mac) <==> MacOwed(mib, setup, f, mac) {
      MacsExact(mib, setup, f, vlanOf, fold, keys, mac);
    }
  }

  /** The tables an exact read works from. */
  ghost predicate Walks(mib: Mib, setup: Setup, f: FdbTable, t: Table, base: Column) {
    && Exact(mib, [f.port, f.status], t) && RowsHaveCells(t)
    && base == MibColumn(mib, setup.oids.basePort)
  }

  /** The stack was read from the MIB if anything needed it. */
  ghost predicate Stacks(mib: Mib, setup: Setup, rows: seq<Row>, stack: Option<map<string, string>>) {
    HasLogical(rows, setup.ifaces) ==>
      stack.Some? && IsUnitPorts(MibColumn(mib, setup.oids.ifStack), setup.ifaces, stack.value)
  }

  lemma FilteredExactly(mib: Mib, setup: Setup, f: FdbTable, t: Table, base: Column, vlanOf: Attribution,
                        dropped: Drops, stack: Option<map<string, string>>)
    requires Walks(mib, setup, f, t, base)
    requires Stacks(mib, setup, LearnedOf(setup, f, t, vlanOf, base, dropped), stack)
    ensures var rows := LearnedOf(setup, f, t, vlanOf, base, dropped);
            ExactFolded(mib, setup, f, vlanOf, KeysOf(FirstOnly(FoldIf(rows, stack, setup.ifaces))))
  {
    hide LearnedOf;
    hide ExactKeys;
    hide Exact;
    hide RowsHaveCells;
    hide HasLogical;
    hide FirstOnly;
    hide KeysOf;
    hide IsUnitPorts;
    hide UnitPortsOf;
    hide FoldRows;
    var rows := LearnedOf(setup, f, t, vlanOf, base, dropped);
    var column := MibColumn(mib, setup.oids.ifStack);
    var fold := StackFold(mib, setup);
    if HasLogical(rows, setup.ifaces) {
      UnitPortsUnique(column, setup.ifaces, fold, stack.value);
    }
    FoldIfIsFold(rows, column, fold, setup.ifaces);
    KeysFromMib(mib, setup, f, t, vlanOf, base, dropped, fold);
  }

  /** Entries are parsed without a VLAN. */
  lemma {:induction false} ParsedVlanless(t: Table, order: seq<Oid>, qbridge: bool)
    ensures forall i :: 0 <= i < |ParseRows(t, order, qbridge)| ==> ParseRows(t, order, qbridge)[i].vlan == None
  {
    if order != [] {
      ParsedVlanless(t, order[..|order| - 1], qbridge);
      EntryVlanless(order[|order| - 1], CellOf(t, order[|order| - 1], 0), CellOf(t, order[|order| - 1], 1), qbridge);
    }
  }

  lemma EntryVlanless(index: Oid, port: Option<string>, status: Option<string>, qbridge: bool)
    ensures EntryAt(index, port, status, qbridge).Some? ==> EntryAt(index, port, status, qbridge).value.vlan == None
  {
    hide Canon;
    hide IntOf;
    hide FdbStatus;
  }

  lemma NoVlanGiven(t: Table)
    ensures WithVlans(ParseRows(t, t.order, false), NoVlan()) == ParseRows(t, t.order, false)
  {
    ParsedVlanless(t, t.order, false);
  }

  /** The MIB has nothing in a forwarding table. */
  ghost predicate NoRows(mib: Mib, f: FdbTable) {
    forall index | index != [] :: f.port + index !in mib && f.status + index !in mib
  }

  lemma NothingWalked(mib: Mib, f: FdbTable, t: Table)
    requires Exact(mib, [f.port, f.status], t) && Built(2, t) && t.order == []
    ensures NoRows(mib, f)
  {
    EmptyTable(t);
    var bases := [f.port, f.status];
    forall index | index != [] ensures f.port + index !in mib && f.status + index !in mib {
      assert !t.Has(index, 0) && !t.Has(index, 1);
      assert t.Has(index, 0) <==> bases[0] + index in mib;
      assert t.Has(index, 1) <==> bases[1] + index in mib;
    }
  }
}
