/** Complete reads that leave a lookup out, and lose by it: an honest agent, three walks that run
    to their end, and time that is up just then. */
module LateRead {
  import opened Oids
  import opened Agent
  import opened Text
  import opened Mac
  import opened Walk
  import opened WalkExact
  import opened WalkBounds
  import opened WalkComplete
  import opened Walker
  import opened Fdb
  import opened FdbProofs
  import opened Contexts
  import opened ContextsEnds
  import opened Exactness
  import opened MacFacts
  import opened Lateness
  import opened MacReads
  import opened ServingAgent

  /** The three walks a Q-BRIDGE read begins with, all complete: what they found, and the moment
      and the budget after them. */
  datatype Walks3 = Walks3(base: Table, users: Table, fdb: Table, next: nat, after: Budget)

  ghost predicate TablesRead(world: World, setup: Setup, before: Budget, w: Walks3) {
    exists m1, m2, s1, s2, s3, b1, b2 {:trigger WalkPair(world, setup, before, w, m1, m2, s1, s2, b1, b2),
                                                LastWalk(world, setup, b2, m2, s3, w)} ::
      WalkPair(world, setup, before, w, m1, m2, s1, s2, b1, b2) && LastWalk(world, setup, b2, m2, s3, w)
  }

  ghost predicate WalkPair(world: World, setup: Setup, before: Budget, w: Walks3, m1: nat, m2: nat,
                           s1: Stats, s2: Stats, b1: Budget, b2: Budget)
  {
    && Walked(world, DefaultView, LookupConfig(setup.oids.basePort), REPETITIONS, before, 1, w.base, true, s1, m1, b1)
    && Walked(world, DefaultView, LookupConfig(setup.oids.vlanFdb), REPETITIONS, b1, m1, w.users, true, s2, m2, b2)
  }

  ghost predicate LastWalk(world: World, setup: Setup, b2: Budget, m2: nat, s3: Stats, w: Walks3) {
    Walked(world, DefaultView, TableConfig(setup.oids.qPort, setup.oids.qStatus), REPETITIONS, b2, m2, w.fdb, true, s3,
           w.next, w.after)
  }

  function Fresh(seconds: int): Budget {
    Budget(seconds, ROW_CAP, false, Unset)
  }

  /** Time passes at moment `m`, all at once. */
  function ClockUntil(m: nat, seconds: int): nat -> int {
    (n: nat) => if n < m then 0 else seconds
  }

  /** What a read without the names and the stack makes of the three tables. */
  ghost function RowsWithout(setup: Setup, w: Walks3): seq<Row> {
    RowsFrom(setup, w.fdb, ColumnOf(w.base, 0), ColumnOf(w.users, 0), NamedWithout(setup, ColumnOf(w.users, 0)))
  }

  ghost function RowsFrom(setup: Setup, fdb: Table, base: Column, users: Column, named: set<int>): seq<Row> {
    var entries := ParseRows(fdb, fdb.order, true);
    LearnedOf(setup, QTable(setup.oids), fdb, AttributionOf(IdsOf(entries), users, named), base, NoDrops())
  }

  function NamedWithout(setup: Setup, users: Column): set<int> {
    if users == map[] then setup.ifaces.pvids else {}
  }

  /** The allowance of a lookup walk is left alone; a walk keeps the deadline and, complete, the
      budget unspent. */
  lemma WalkLeaves(world: World, cfg: Config, before: Budget, at: nat, t: Table, stats: Stats, next: nat, after: Budget)
    requires Walked(world, DefaultView, cfg, REPETITIONS, before, at, t, true, stats, next, after)
    ensures next >= at && after.deadline == before.deadline && after.truncated == before.truncated
    ensures !cfg.Capped() ==> after.rowsLeft == before.rowsLeft
  {
    WalkReports(world, DefaultView, cfg, REPETITIONS, before, at, t, true, stats, next, after);
  }

  /** Time may be up right after three complete walks. */
  lemma LateAfterTables(mib: Mib, setup: Setup, seconds: nat) returns (w: Walks3)
    requires LegalMib(mib) && LegalScheme(setup.oids) && seconds > 0
    requires |RowsOf(mib, [setup.oids.qPort, setup.oids.qStatus])| <= ROW_CAP
    ensures TablesRead(WorldOf(mib, ClockUntil(w.next, seconds)), setup, Fresh(seconds), w)
    ensures w.next >= 1 && w.after.deadline == seconds && !w.after.truncated
  {
    hide RowsOf;
    hide Walked;
    var early := (n: nat) => 0;
    var cfg1, cfg2 := LookupConfig(setup.oids.basePort), LookupConfig(setup.oids.vlanFdb);
    var cfg3 := TableConfig(setup.oids.qPort, setup.oids.qStatus);
    SchemeLegal(setup.oids);
    var base, s1, m1, b1 := Finishes(mib, early, DefaultView, cfg1, REPETITIONS, Fresh(seconds), 1);
    WalkLeaves(WorldOf(mib, early), cfg1, Fresh(seconds), 1, base, s1, m1, b1);
    var users, s2, m2, b2 := Finishes(mib, early, DefaultView, cfg2, REPETITIONS, b1, m1);
    WalkLeaves(WorldOf(mib, early), cfg2, b1, m1, users, s2, m2, b2);
    var fdb, s3, m3, b3 := Finishes(mib, early, DefaultView, cfg3, REPETITIONS, b2, m2);
    WalkLeaves(WorldOf(mib, early), cfg3, b2, m2, fdb, s3, m3, b3);
    w := Walks3(base, users, fdb, m3, b3);
    var clock := ClockUntil(m3, seconds);
    WalkedAgrees(mib, early, clock, DefaultView, cfg1, REPETITIONS, Fresh(seconds), 1, base, s1, m1, b1);
    WalkedAgrees(mib, early, clock, DefaultView, cfg2, REPETITIONS, b1, m1, users, s2, m2, b2);
    WalkedAgrees(mib, early, clock, DefaultView, cfg3, REPETITIONS, b2, m2, fdb, s3, m3, b3);
    assert WalkPair(WorldOf(mib, clock), setup, Fresh(seconds), w, m1, m2, s1, s2, b1, b2);
    assert LastWalk(WorldOf(mib, clock), setup, b2, m2, s3, w);
  }

  lemma RowsAreLearned(mib: Mib, setup: Setup, fdb: Table, named: set<int>)
    ensures RowsFrom(setup, fdb, MibColumn(mib, setup.oids.basePort), MibColumn(mib, setup.oids.vlanFdb), named)
            == QLearned(mib, setup, fdb, MibColumn(mib, setup.oids.basePort), named, NoDrops())
  {
    hide LearnedOf;
    hide AttributionOf;
    hide IdsOf;
    hide ParseRows;
    hide NoDrops;
  }

  /** Nothing was looked up. */
  ghost function AllLate(mib: Mib, setup: Setup): (late: Late)
    ensures Blurs(mib, setup, late) <==> NamesMatter(mib, setup) || StackMatters(mib, setup, QTable(setup.oids))
    ensures NamedBy(mib, setup, late.names, NamedWithout(setup, MibColumn(mib, setup.oids.vlanFdb))) && late.stack
  {
    NamesNeedNoUsers(mib, setup);
    Late(MibColumn(mib, setup.oids.vlanFdb) == map[], true)
  }

  /** From the three tables of an honest agent come rows that are exact if and only if neither
      the names nor the stack matter. */
  lemma RowsWithoutLookups(world: World, mib: Mib, setup: Setup, before: Budget, w: Walks3)
    requires Answers(world, DefaultView, mib) && TablesRead(world, setup, before, w)
    ensures QExact(mib, setup, KeysOf(FirstOnly(RowsWithout(setup, w))))
            <==> !NamesMatter(mib, setup) && !StackMatters(mib, setup, QTable(setup.oids))
  {
    hide *;
    TablesExact(world, mib, setup, before, w);
    var named := NamedWithout(setup, MibColumn(mib, setup.oids.vlanFdb));
    RowsAreLearned(mib, setup, w.fdb, named);
    RowsAre(setup, w);
    NothingFolded(mib, setup, RowsWithout(setup, w), AllLate(mib, setup).stack);
    QRows(mib, setup, w.fdb, MibColumn(mib, setup.oids.basePort), AllLate(mib, setup), named, NoDrops(),
          None);
  }

  lemma RowsAre(setup: Setup, w: Walks3)
    ensures RowsWithout(setup, w) == RowsFrom(setup, w.fdb, ColumnOf(w.base, 0), ColumnOf(w.users, 0),
                                              NamedWithout(setup, ColumnOf(w.users, 0)))
  {
  }

  lemma NothingFolded(mib: Mib, setup: Setup, rows: seq<Row>, stackLate: bool)
    requires stackLate
    ensures FoldIf(rows, None, setup.ifaces) == rows && StackedBy(mib, setup, rows, stackLate, None)
  {
  }

  lemma NamesNeedNoUsers(mib: Mib, setup: Setup)
    ensures NamesMatter(mib, setup) ==> MibColumn(mib, setup.oids.vlanFdb) == map[]
  {
  }

  lemma TablesExact(world: World, mib: Mib, setup: Setup, before: Budget, w: Walks3)
    requires Answers(world, DefaultView, mib) && TablesRead(world, setup, before, w)
    ensures Walks(mib, setup, QTable(setup.oids), w.fdb, MibColumn(mib, setup.oids.basePort))
    ensures ColumnOf(w.base, 0) == MibColumn(mib, setup.oids.basePort)
    ensures ColumnOf(w.users, 0) == MibColumn(mib, setup.oids.vlanFdb)
  {
    hide Answers;
    hide Walked;
    hide Exact;
    hide Truthful;
    hide Built;
    hide RowsHaveCells;
    hide ColumnOf;
    var m1, m2, s1, s2, s3, b1, b2 :|
      WalkPair(world, setup, before, w, m1, m2, s1, s2, b1, b2) && LastWalk(world, setup, b2, m2, s3, w);
    var oids := setup.oids;
    WalkRefines(world, DefaultView, LookupConfig(oids.basePort), REPETITIONS, before, 1, w.base, true, s1, m1, b1, mib);
    WalkRefines(world, DefaultView, LookupConfig(oids.vlanFdb), REPETITIONS, b1, m1, w.users, true, s2, m2, b2, mib);
    ColumnIsMib(mib, [oids.basePort], w.base, 0);
    ColumnIsMib(mib, [oids.vlanFdb], w.users, 0);
    var cfg := TableConfig(oids.qPort, oids.qStatus);
    WalkRefines(world, DefaultView, cfg, REPETITIONS, b2, m2, w.fdb, true, s3, w.next, w.after, mib);
    WalkReports(world, DefaultView, cfg, REPETITIONS, b2, m2, w.fdb, true, s3, w.next, w.after);
    TwoColumns(w.fdb);
  }

  /** Whenever a MIB's rows depend on a lookup, there is an honest agent, and a read of it whose
      walks all end complete and in time, that has no time left for the lookup; its rows are not
      exact. */
  lemma LateReadLoses(mib: Mib, setup: Setup, seconds: nat) returns (world: World, w: Walks3)
    requires LegalMib(mib) && LegalScheme(setup.oids) && seconds > 0
    requires |RowsOf(mib, [setup.oids.qPort, setup.oids.qStatus])| <= ROW_CAP
    requires NamesMatter(mib, setup) || StackMatters(mib, setup, QTable(setup.oids))
    ensures Answers(world, DefaultView, mib) && world.clock(0) == 0
    ensures TablesRead(world, setup, Fresh(seconds), w) && w.after.deadline == seconds && !w.after.truncated
    ensures forall n: nat | n >= w.next :: world.clock(n) >= w.after.deadline
    ensures !QExact(mib, setup, KeysOf(FirstOnly(RowsWithout(setup, w))))
  {
    hide RowsOf;
    hide Answers;
    hide TablesRead;
    hide NamesMatter;
    hide StackMatters;
    hide QExact;
    hide RowsWithout;
    w := LateAfterTables(mib, setup, seconds);
    world := WorldOf(mib, ClockUntil(w.next, seconds));
    WorldIsHonest(mib, ClockUntil(w.next, seconds), DefaultView);
    RowsWithoutLookups(world, mib, setup, Fresh(seconds), w);
  }

  // ---- An example ----

  /** Interface 7 is a logical unit, interface 1 an ethernet port. */
  function UnitIfaces(): Ifaces {
    Ifaces(map[Str(7) := ("53", "other"), Str(1) := ("6", "ethernet")], {}, {})
  }

  function UnitSetup(): Setup {
    Setup(STANDARD, UnitIfaces())
  }

  const HOST: Oid := [1, 2, 0, 0, 0, 0, 1]

  /** One host learned on bridge port 1, which is interface 7, which is stacked on interface 1. */
  function UnitMib(): Mib {
    map[
      STANDARD.basePort + [1] := Str(7),
      STANDARD.qPort + HOST := Str(1),
      STANDARD.qStatus + HOST := "3",
      STANDARD.ifStack + [7, 1] := "1"
    ]
  }

  function HostSeen(): Entry {
    Entry(Canon(HOST[1..]), Some(1), Some(1), "learned", None)
  }

  lemma UnitMibIs()
    ensures forall o | o in UnitMib() :: o == STANDARD.basePort + [1] || o == STANDARD.qPort + HOST
                                         || o == STANDARD.qStatus + HOST || o == STANDARD.ifStack + [7, 1]
    ensures STANDARD.basePort + [1] in UnitMib() && UnitMib()[STANDARD.basePort + [1]] == Str(7)
    ensures STANDARD.qPort + HOST in UnitMib() && UnitMib()[STANDARD.qPort + HOST] == Str(1)
    ensures STANDARD.qStatus + HOST in UnitMib() && UnitMib()[STANDARD.qStatus + HOST] == "3"
    ensures STANDARD.ifStack + [7, 1] in UnitMib() && UnitMib()[STANDARD.ifStack + [7, 1]] == "1"
  {
    var a, b, c, d :=
      STANDARD.basePort + [1], STANDARD.qPort + HOST, STANDARD.qStatus + HOST, STANDARD.ifStack + [7, 1];
    assert |a| == 12 && |b| == 20 && |c| == 20 && |d| == 13;
    assert b[12] == 2 && c[12] == 3;
  }

  lemma HostEntry()
    ensures Held(UnitMib(), QTable(STANDARD), HOST, HostSeen())
  {
    hide UnitMib;
    UnitMibIs();
    IntOfStr(1);
    assert Strip("3") == "3";
    assert HOST[1..] == [2, 0, 0, 0, 0, 1];
  }

  lemma HostLearnable()
    ensures Learnable(UnitMib(), UnitSetup(), QTable(STANDARD), HOST,
                      HostSeen())
  {
    hide UnitMib;
    hide Held;
    HostEntry();
    assert HOST[1..] == [2, 0, 0, 0, 0, 1];
    hide Canon;
  }

  lemma HostInterface()
    ensures OnInterface(UnitMib(), UnitSetup(), QTable(STANDARD), 1, Str(7))
  {
    hide UnitMib;
    hide Learnable;
    UnitMibIs();
    IntOfStr(7);
    var base := MibColumn(UnitMib(), STANDARD.basePort);
    assert BaseRow(base, 1, 7);
  }

  lemma UnitsApart()
    ensures Str(7) != Str(1) && Decimal(7) == Str(7) && Dotted([1]) == Str(1)
    ensures UnitIfaces().Known(Str(7)) && !UnitIfaces().IsPort(Str(7)) && UnitIfaces().IsPort(Str(1))
  {
    IntOfStr(7);
    IntOfStr(1);
  }

  lemma StackIndex(index: Oid)
    requires index != [] && STANDARD.ifStack + index in UnitMib()
    ensures index == [7, 1]
  {
    hide UnitMib;
    UnitMibIs();
    var o := STANDARD.ifStack + index;
    assert o[6] == 31 && (STANDARD.basePort + [1])[6] == 17;
    assert (STANDARD.qPort + HOST)[6] == 17 && (STANDARD.qStatus + HOST)[6] == 17;
    assert index == o[|STANDARD.ifStack|..] == (STANDARD.ifStack + [7, 1])[|STANDARD.ifStack|..] == [7, 1];
  }

  lemma UnitFolds()
    ensures Str(7) in StackFold(UnitMib(), UnitSetup())
  {
    hide UnitMib;
    hide UnitIfaces;
    hide Str;
    hide Ifaces.Known;
    hide Ifaces.IsPort;
    hide Decimal;
    hide Dotted;
    UnitMibIs();
    UnitsApart();
    var stack := MibColumn(UnitMib(), STANDARD.ifStack);
    assert forall index | index in stack :: index == [7, 1] by {
      forall index | index in stack ensures index == [7, 1] {
        StackIndex(index);
      }
    }
    assert Stacked(stack, [7, 1]) by {
      assert Strip("1") == "1";
    }
    assert [7, 1][1..] == [1];
    assert PortsBelow(stack, UnitIfaces(), Str(7)) == {Str(1)};
  }

  lemma UnitMatters()
    ensures StackMatters(UnitMib(), UnitSetup(), QTable(UnitSetup().oids))
  {
    hide *;
    UnitIsStandard();
    HostLearnable();
    HostInterface();
    UnitFolds();
    HostPort();
    ShownOnUnit(UnitMib(), UnitSetup(), QTable(STANDARD), HOST, HostSeen(), Str(7));
  }

  lemma HostPort()
    ensures HostSeen().bridgePort == Some(1)
  {
  }

  lemma ShownOnUnit(mib: Mib, setup: Setup, f: FdbTable, index: Oid, e: Entry, ifIndex: string)
    requires Learnable(mib, setup, f, index, e) && e.bridgePort.Some?
    requires OnInterface(mib, setup, f, e.bridgePort.value, ifIndex) && ifIndex in StackFold(mib, setup)
    ensures StackMatters(mib, setup, f)
  {
    hide Learnable;
    hide OnInterface;
    hide StackFold;
    assert Shows(mib, setup, f, index, e, ifIndex);
  }

  lemma CellsLegal()
    ensures Legal(STANDARD.basePort + [1]) && Legal(STANDARD.qPort + HOST) && Legal(STANDARD.qStatus + HOST)
    ensures Legal(STANDARD.ifStack + [7, 1])
  {
    hide Legal;
    LegalShort(STANDARD.basePort + [1]);
    LegalShort(STANDARD.qPort + HOST);
    LegalShort(STANDARD.qStatus + HOST);
    LegalShort(STANDARD.ifStack + [7, 1]);
  }

  lemma UnitMibLegal()
    ensures LegalMib(UnitMib())
  {
    hide UnitMib;
    hide Legal;
    hide Str;
    UnitMibIs();
    CellsLegal();
  }

  lemma UnitRows()
    ensures |RowsOf(UnitMib(), [STANDARD.qPort, STANDARD.qStatus])| <= ROW_CAP
  {
    hide UnitMib;
    UnitMibIs();
    var rows := RowsOf(UnitMib(), [STANDARD.qPort, STANDARD.qStatus]);
    forall index | index in rows ensures index == HOST {
      var o, k :| o in UnitMib() && 0 <= k < 2 && Under([STANDARD.qPort, STANDARD.qStatus][k], o)
                  && Index([STANDARD.qPort, STANDARD.qStatus][k], o) == index;
      UnitRow(o, k);
    }
    OneElementAtMost(rows, HOST);
  }

  lemma UnitRow(o: Oid, k: nat)
    requires o in UnitMib() && k < 2 && Under([STANDARD.qPort, STANDARD.qStatus][k], o)
    ensures Index([STANDARD.qPort, STANDARD.qStatus][k], o) == HOST
  {
    hide UnitMib;
    UnitMibIs();
    var base := [STANDARD.qPort, STANDARD.qStatus][k];
    assert |base| == 13 && o[..13] == base && o[12] == base[12];
  }

  lemma OneElementAtMost(s: set<Oid>, x: Oid)
    requires forall y | y in s :: y == x
    ensures |s| <= 1
  {
    if s != {} {
      assert s == {x};
    }
  }

  /** For instance, a host on a logical unit: a read of an honest agent that ends complete reports
      it on the unit, where the MIB puts it on the port. */
  lemma UnitReadLoses()
    ensures exists world, w ::
              && Answers(world, DefaultView, UnitMib()) && TablesRead(world, UnitSetup(), Fresh(120), w)
              && !w.after.truncated && (forall n: nat | n >= w.next :: world.clock(n) >= w.after.deadline)
              && !QExact(UnitMib(), UnitSetup(), KeysOf(FirstOnly(RowsWithout(UnitSetup(), w))))
  {
    hide *;
    UnitMibLegal();
    UnitMatters();
    UnitRows();
    StandardIsLegal();
    UnitIsStandard();
    var world, w := LateReadLoses(UnitMib(), UnitSetup(), 120);
  }

  lemma UnitIsStandard()
    ensures UnitSetup().oids == STANDARD
  {
  }
}
