/** What a lookup that is left out for lack of time costs. A read looks up the names of VLANs and
    the stacking of interfaces only if time is left, and is silent when it is not; here is exactly
    when the rows show it. */
module Lateness {
  import opened Oids
  import opened Agent
  import opened Text
  import opened Mac
  import opened Walk
  import opened WalkExact
  import opened Fdb
  import opened FdbProofs
  import opened Contexts
  import opened Exactness
  import opened MacFacts

  /** Which lookups were needed and left out. */
  datatype Late = Late(names: bool, stack: bool)

  /** A learnable entry of the MIB and the interface of its port. */
  ghost predicate Shows(mib: Mib, setup: Setup, f: FdbTable, index: Oid, e: Entry, ifIndex: string) {
    Learnable(mib, setup, f, index, e) && e.bridgePort.Some? && OnInterface(mib, setup, f, e.bridgePort.value, ifIndex)
  }

  /** Some address is learned on an interface that folds. */
  ghost predicate OnUnit(mib: Mib, setup: Setup, f: FdbTable, fold: map<string, string>) {
    exists index, e, ifIndex :: Shows(mib, setup, f, index, e, ifIndex) && ifIndex in fold
  }

  ghost predicate StackMatters(mib: Mib, setup: Setup, f: FdbTable) {
    OnUnit(mib, setup, f, StackFold(mib, setup))
  }

  predicate AllNamed(ids: set<nat>, named: set<int>) {
    forall f | f in ids :: f != 0 && f in named
  }

  /** The agent lists no users of FDB ids, its ids are all VLANs it names, the interfaces' own
      VLANs alone do not account for them, and some address is learned. */
  ghost predicate NamesMatter(mib: Mib, setup: Setup) {
    && MibColumn(mib, setup.oids.vlanFdb) == map[]
    && (exists index, e, ifIndex :: Shows(mib, setup, QTable(setup.oids), index, e, ifIndex))
    && exists ids: set<nat> ::
         && FdbIds(mib, QTable(setup.oids), ids)
         && AllNamed(ids, NamedVlans(mib, setup)) && !AllNamed(ids, setup.ifaces.pvids)
  }

  /** A lookup was left out that the rows depend on. */
  ghost predicate Blurs(mib: Mib, setup: Setup, late: Late) {
    (late.names && NamesMatter(mib, setup)) || (late.stack && StackMatters(mib, setup, QTable(setup.oids)))
  }

  // ---- When attributions make a difference ----

  lemma SameKeys(mib: Mib, setup: Setup, f: FdbTable, a: Attribution, g: map<string, string>,
                 b: Attribution, h: map<string, string>, keys: set<Key>)
    requires ExactKeys(mib, setup, f, a, g, keys)
    requires forall index, e, ifIndex | Shows(mib, setup, f, index, e, ifIndex) ::
               a(e.fdbId) == b(e.fdbId) && Fold(g, ifIndex) == Fold(h, ifIndex)
    ensures ExactKeys(mib, setup, f, b, h, keys)
  {
    hide Learnable;
    hide OnInterface;
    hide Fold;
    forall index, key ensures Owed(mib, setup, f, a, g, index, key) <==> Owed(mib, setup, f, b, h, index, key) {
      if e, ifIndex :| Shows(mib, setup, f, index, e, ifIndex) && key == (a(e.fdbId), e.mac, Fold(g, ifIndex)) {
        assert Shows(mib, setup, f, index, e, ifIndex) && key == (b(e.fdbId), e.mac, Fold(h, ifIndex));
      }
      if e, ifIndex :| Shows(mib, setup, f, index, e, ifIndex) && key == (b(e.fdbId), e.mac, Fold(h, ifIndex)) {
        assert Shows(mib, setup, f, index, e, ifIndex) && key == (a(e.fdbId), e.mac, Fold(g, ifIndex));
      }
    }
  }

  lemma ShownIsOwed(mib: Mib, setup: Setup, f: FdbTable, a: Attribution, g: map<string, string>, keys: set<Key>,
                    index: Oid, e: Entry, ifIndex: string)
    requires ExactKeys(mib, setup, f, a, g, keys) && Shows(mib, setup, f, index, e, ifIndex)
    ensures (a(e.fdbId), e.mac, Fold(g, ifIndex)) in keys
  {
    hide Learnable;
    hide OnInterface;
    assert Owed(mib, setup, f, a, g, index, (a(e.fdbId), e.mac, Fold(g, ifIndex)));
  }

  lemma OwedIsShown(mib: Mib, setup: Setup, f: FdbTable, a: Attribution, g: map<string, string>, keys: set<Key>,
                    key: Key)
    returns (index: Oid, e: Entry, ifIndex: string)
    requires ExactKeys(mib, setup, f, a, g, keys) && key in keys
    ensures Shows(mib, setup, f, index, e, ifIndex) && key == (a(e.fdbId), e.mac, Fold(g, ifIndex))
  {
    hide Learnable;
    hide OnInterface;
    index :| Owed(mib, setup, f, a, g, index, key);
    e, ifIndex :| && Learnable(mib, setup, f, index, e) && e.bridgePort.Some?
                  && OnInterface(mib, setup, f, e.bridgePort.value, ifIndex)
                  && key == (a(e.fdbId), e.mac, Fold(g, ifIndex));
  }

  /** No fold leads to a unit that folds. */
  lemma FoldsAway(mib: Mib, setup: Setup, ifIndex: string)
    ensures Fold(StackFold(mib, setup), ifIndex) !in StackFold(mib, setup)
  {
    hide PortsBelow;
    hide Ifaces.Known;
    var fold := StackFold(mib, setup);
    if ifIndex in fold {
      assert fold[ifIndex] in PortsBelow(MibColumn(mib, setup.oids.ifStack), setup.ifaces, ifIndex);
      BelowIsPort(MibColumn(mib, setup.oids.ifStack), setup.ifaces, ifIndex, fold[ifIndex]);
    }
  }

  lemma BelowIsPort(stack: Column, ifaces: Ifaces, unit: string, port: string)
    requires port in PortsBelow(stack, ifaces, unit)
    ensures ifaces.IsPort(port)
  {
  }

  /** Unfolded keys are the folded ones only if no address is on a unit that folds. `other` is the
      MIB the stack is taken from. */
  lemma UnitShows(mib: Mib, other: Mib, setup: Setup, f: FdbTable, a: Attribution, b: Attribution, keys: set<Key>)
    requires ExactKeys(mib, setup, f, a, map[], keys) && ExactKeys(mib, setup, f, b, StackFold(other, setup), keys)
    ensures !OnUnit(mib, setup, f, StackFold(other, setup))
  {
    hide Shows;
    hide ExactKeys;
    hide StackFold;
    var fold := StackFold(other, setup);
    if index, e, ifIndex :| Shows(mib, setup, f, index, e, ifIndex) && ifIndex in fold {
      ShownIsOwed(mib, setup, f, a, map[], keys, index, e, ifIndex);
      var index', e', ifIndex' := OwedIsShown(mib, setup, f, b, fold, keys, (a(e.fdbId), e.mac, ifIndex));
      FoldsAway(other, setup, ifIndex');
    }
  }

  /** Unfolded keys are exact if and only if no address is on a unit that folds. */
  lemma UnfoldedExactIff(mib: Mib, other: Mib, setup: Setup, f: FdbTable, a: Attribution, keys: set<Key>)
    requires ExactKeys(mib, setup, f, a, map[], keys)
    ensures ExactKeys(mib, setup, f, a, StackFold(other, setup), keys)
            <==> !OnUnit(mib, setup, f, StackFold(other, setup))
  {
    hide ExactKeys;
    hide StackFold;
    hide Shows;
    if !OnUnit(mib, setup, f, StackFold(other, setup)) {
      SameKeys(mib, setup, f, a, map[], a, StackFold(other, setup), keys);
    } else if ExactKeys(mib, setup, f, a, StackFold(other, setup), keys) {
      UnitShows(mib, other, setup, f, a, a, keys);
    }
  }

  /** Keys without VLANs are those with VLANs only if there are none. */
  lemma VlanShows(mib: Mib, setup: Setup, f: FdbTable, a: Attribution, g: map<string, string>,
                  b: Attribution, h: map<string, string>, keys: set<Key>, index: Oid, e: Entry, ifIndex: string)
    requires ExactKeys(mib, setup, f, a, g, keys) && Shows(mib, setup, f, index, e, ifIndex)
    requires a(e.fdbId) == None
    requires forall index, e, ifIndex | Shows(mib, setup, f, index, e, ifIndex) :: b(e.fdbId).Some?
    ensures !ExactKeys(mib, setup, f, b, h, keys)
  {
    hide Shows;
    hide ExactKeys;
    hide Fold;
    ShownIsOwed(mib, setup, f, a, g, keys, index, e, ifIndex);
    if ExactKeys(mib, setup, f, b, h, keys) {
      var index', e', ifIndex' := OwedIsShown(mib, setup, f, b, h, keys, (None, e.mac, Fold(g, ifIndex)));
    }
  }

  // ---- From the walked tables ----

  /** The stack was read from the MIB if a row needed it, unless it was left out. */
  ghost predicate StackedBy(mib: Mib, setup: Setup, rows: seq<Row>, stackLate: bool,
                            stack: Option<map<string, string>>)
  {
    if stackLate then stack == None else Stacks(mib, setup, rows, stack)
  }

  ghost function LateFold(mib: Mib, setup: Setup, stackLate: bool): map<string, string> {
    if stackLate then map[] else StackFold(mib, setup)
  }

  /** The keys are those the MIB owes, folded as far as the stack is known. */
  lemma FilteredKeys(mib: Mib, setup: Setup, f: FdbTable, t: Table, base: Column, vlanOf: Attribution,
                     dropped: Drops, stackLate: bool, stack: Option<map<string, string>>)
    requires Walks(mib, setup, f, t, base)
    requires StackedBy(mib, setup, LearnedOf(setup, f, t, vlanOf, base, dropped), stackLate, stack)
    ensures var rows := LearnedOf(setup, f, t, vlanOf, base, dropped);
            ExactKeys(mib, setup, f, vlanOf, LateFold(mib, setup, stackLate),
                      KeysOf(FirstOnly(FoldIf(rows, stack, setup.ifaces))))
  {
    hide LearnedOf;
    hide ExactKeys;
    hide Exact;
    hide RowsHaveCells;
    hide FirstOnly;
    hide KeysOf;
    hide Stacks;
    hide StackFold;
    hide HasLogical;
    if stackLate {
      FoldNothing(LearnedOf(setup, f, t, vlanOf, base, dropped));
      KeysFromMib(mib, setup, f, t, vlanOf, base, dropped, map[]);
    } else {
      FilteredExactly(mib, setup, f, t, base, vlanOf, dropped, stack);
    }
  }

  // ---- The Q-BRIDGE table ----

  lemma OneSetOfIds(mib: Mib, f: FdbTable, a: set<nat>, b: set<nat>)
    requires FdbIds(mib, f, a) && FdbIds(mib, f, b)
    ensures a == b
  {
    hide Held;
  }

  /** Every entry of a Q-BRIDGE table has an FDB id, which is one of the table's. */
  lemma ShownId(mib: Mib, setup: Setup, ids: set<nat>, index: Oid, e: Entry, ifIndex: string)
    requires FdbIds(mib, QTable(setup.oids), ids) && Shows(mib, setup, QTable(setup.oids), index, e, ifIndex)
    ensures e.fdbId.Some? && e.fdbId.value in ids
  {
    hide OnInterface;
    hide Canon;
    hide Int;
    hide FdbStatus;
    assert Held(mib, QTable(setup.oids), index, e) && e.fdbId == Some(index[0]);
  }

  /** Without users of FDB ids, an id is its VLAN if all ids are named, and else has none. */
  lemma NamedOrNone(ids: set<nat>, named: set<int>, fid: nat)
    ensures AttributionOf(ids, map[], named)(Some(fid)) == if AllNamed(ids, named) then Some(fid) else None
  {
  }

  ghost function MibAttribution(mib: Mib, setup: Setup, ids: set<nat>): Attribution {
    AttributionOf(ids, MibColumn(mib, setup.oids.vlanFdb), NamedVlans(mib, setup))
  }

  /** What the names that were read, or not, make of the FDB ids. */
  ghost predicate NamedBy(mib: Mib, setup: Setup, namesLate: bool, named: set<int>) {
    if namesLate then MibColumn(mib, setup.oids.vlanFdb) == map[] && named == setup.ifaces.pvids
    else named == NamedVlans(mib, setup)
  }

  /** Where the names do not matter, an entry has the MIB's VLAN even without them. */
  lemma VlanKnown(mib: Mib, setup: Setup, ids: set<nat>, late: Late, named: set<int>, index: Oid, e: Entry,
                  ifIndex: string)
    requires FdbIds(mib, QTable(setup.oids), ids) && NamedBy(mib, setup, late.names, named)
    requires Shows(mib, setup, QTable(setup.oids), index, e, ifIndex) && !(late.names && NamesMatter(mib, setup))
    ensures AttributionOf(ids, MibColumn(mib, setup.oids.vlanFdb), named)(e.fdbId)
            == MibAttribution(mib, setup, ids)(e.fdbId)
  {
    hide AttributionOf;
    hide NamedVlans;
    hide FdbIds;
    hide Shows;
    hide AllNamed;
    ShownId(mib, setup, ids, index, e, ifIndex);
    if late.names {
      NamedOrNone(ids, named, e.fdbId.value);
      NamedOrNone(ids, NamedVlans(mib, setup), e.fdbId.value);
      PvidsAreNamed(mib, setup, ids);
    }
  }

  lemma SharperIsSame(mib: Mib, setup: Setup, ids: set<nat>, late: Late, named: set<int>, g: map<string, string>,
                      keys: set<Key>)
    requires FdbIds(mib, QTable(setup.oids), ids) && NamedBy(mib, setup, late.names, named)
    requires g == LateFold(mib, setup, late.stack)
    requires ExactKeys(mib, setup, QTable(setup.oids),
                       AttributionOf(ids, MibColumn(mib, setup.oids.vlanFdb), named), g, keys)
    requires !Blurs(mib, setup, late)
    ensures QExact(mib, setup, keys)
  {
    hide ExactKeys;
    hide AttributionOf;
    hide NamedVlans;
    hide FdbIds;
    hide StackFold;
    hide Shows;
    hide NamesMatter;
    hide NamedBy;
    var f, vlanFdb := QTable(setup.oids), MibColumn(mib, setup.oids.vlanFdb);
    forall index, e, ifIndex | Shows(mib, setup, f, index, e, ifIndex)
      ensures AttributionOf(ids, vlanFdb, named)(e.fdbId) == MibAttribution(mib, setup, ids)(e.fdbId)
      ensures Fold(g, ifIndex) == Fold(StackFold(mib, setup), ifIndex)
    {
      VlanKnown(mib, setup, ids, late, named, index, e, ifIndex);
      assert late.stack ==> ifIndex !in StackFold(mib, setup);
    }
    SameKeys(mib, setup, f, AttributionOf(ids, vlanFdb, named), g,
             MibAttribution(mib, setup, ids), StackFold(mib, setup), keys);
  }

  lemma PvidsAreNamed(mib: Mib, setup: Setup, ids: set<nat>)
    requires MibColumn(mib, setup.oids.vlanFdb) == map[]
    ensures AllNamed(ids, setup.ifaces.pvids) ==> AllNamed(ids, NamedVlans(mib, setup))
  {
    hide NamesIn;
  }

  lemma BlurredDiffers(mib: Mib, setup: Setup, ids: set<nat>, late: Late, named: set<int>, g: map<string, string>,
                       keys: set<Key>)
    requires FdbIds(mib, QTable(setup.oids), ids) && NamedBy(mib, setup, late.names, named)
    requires g == LateFold(mib, setup, late.stack)
    requires ExactKeys(mib, setup, QTable(setup.oids),
                       AttributionOf(ids, MibColumn(mib, setup.oids.vlanFdb), named), g, keys)
    requires ExactKeys(mib, setup, QTable(setup.oids), MibAttribution(mib, setup, ids), StackFold(mib, setup), keys)
    ensures !Blurs(mib, setup, late)
  {
    hide ExactKeys;
    hide AttributionOf;
    hide NamedVlans;
    hide FdbIds;
    hide StackFold;
    hide Shows;
    hide OnUnit;
    var f, vlanFdb := QTable(setup.oids), MibColumn(mib, setup.oids.vlanFdb);
    var a := AttributionOf(ids, vlanFdb, named);
    if late.stack {
      UnitShows(mib, mib, setup, f, a, MibAttribution(mib, setup, ids), keys);
    }
    if late.names && NamesMatter(mib, setup) {
      var index, e, ifIndex :| Shows(mib, setup, f, index, e, ifIndex);
      var same: set<nat> :| FdbIds(mib, f, same) && AllNamed(same, NamedVlans(mib, setup))
                            && !AllNamed(same, setup.ifaces.pvids);
      OneSetOfIds(mib, f, ids, same);
      forall index, e, ifIndex | Shows(mib, setup, f, index, e, ifIndex)
        ensures a(e.fdbId) == None && MibAttribution(mib, setup, ids)(e.fdbId).Some?
      {
        ShownId(mib, setup, ids, index, e, ifIndex);
        NamedOrNone(ids, named, e.fdbId.value);
        NamedOrNone(ids, NamedVlans(mib, setup), e.fdbId.value);
      }
      VlanShows(mib, setup, f, a, g, MibAttribution(mib, setup, ids), StackFold(mib, setup), keys, index, e, ifIndex);
    }
  }

  /** The rows of a Q-BRIDGE read are exact in VLANs and ports too, if and only if no lookup was
      left out that they depend on. */
  lemma QExactIff(mib: Mib, setup: Setup, ids: set<nat>, late: Late, named: set<int>, g: map<string, string>,
                  keys: set<Key>)
    requires FdbIds(mib, QTable(setup.oids), ids) && NamedBy(mib, setup, late.names, named)
    requires g == LateFold(mib, setup, late.stack)
    requires ExactKeys(mib, setup, QTable(setup.oids),
                       AttributionOf(ids, MibColumn(mib, setup.oids.vlanFdb), named), g, keys)
    ensures QExact(mib, setup, keys) <==> !Blurs(mib, setup, late)
  {
    hide ExactKeys;
    hide AttributionOf;
    hide FdbIds;
    hide Blurs;
    hide NamedBy;
    hide LateFold;
    hide StackFold;
    if !Blurs(mib, setup, late) {
      SharperIsSame(mib, setup, ids, late, named, g, keys);
    } else if QExact(mib, setup, keys) {
      var same: set<nat> :| && FdbIds(mib, QTable(setup.oids), same)
                            && ExactFolded(mib, setup, QTable(setup.oids), MibAttribution(mib, setup, same), keys);
      OneSetOfIds(mib, QTable(setup.oids), ids, same);
      BlurredDiffers(mib, setup, ids, late, named, g, keys);
    }
  }

  /** The rows of a Q-BRIDGE read, from tables of an honest agent: the addresses are exact, and
      the VLANs and ports if and only if no lookup was left out that they depend on. */
  lemma QRows(mib: Mib, setup: Setup, t: Table, base: Column, late: Late, named: set<int>, dropped: Drops,
              stack: Option<map<string, string>>)
    requires Walks(mib, setup, QTable(setup.oids), t, base) && NamedBy(mib, setup, late.names, named)
    requires StackedBy(mib, setup, QLearned(mib, setup, t, base, named, dropped), late.stack, stack)
    ensures var keys := KeysOf(FirstOnly(FoldIf(QLearned(mib, setup, t, base, named, dropped), stack, setup.ifaces)));
            MacsOwed(mib, setup, QTable(setup.oids), keys) && (QExact(mib, setup, keys) <==> !Blurs(mib, setup, late))
  {
    hide LearnedOf;
    hide FoldIf;
    hide ExactKeys;
    hide MacsOwed;
    hide QExact;
    hide Blurs;
    hide Exact;
    hide RowsHaveCells;
    hide FirstOnly;
    hide KeysOf;
    hide StackedBy;
    hide LateFold;
    hide FdbIds;
    hide NamedBy;
    hide AttributionOf;
    hide IdsOf;
    hide ParseRows;
    var f := QTable(setup.oids);
    var ids := IdsOf(ParseRows(t, t.order, true));
    var vlanOf := AttributionOf(ids, MibColumn(mib, setup.oids.vlanFdb), named);
    var keys := KeysOf(FirstOnly(FoldIf(LearnedOf(setup, f, t, vlanOf, base, dropped), stack, setup.ifaces)));
    FilteredKeys(mib, setup, f, t, base, vlanOf, dropped, late.stack, stack);
    ExactMacs(mib, setup, f, vlanOf, LateFold(mib, setup, late.stack), keys);
    IdsFromMib(mib, f, t);
    QExactIff(mib, setup, ids, late, named, LateFold(mib, setup, late.stack), keys);
  }

  /** The rows learned from a Q-BRIDGE table, with the VLANs the names give. */
  ghost function QLearned(mib: Mib, setup: Setup, t: Table, base: Column, named: set<int>, dropped: Drops): seq<Row> {
    var ids := IdsOf(ParseRows(t, t.order, true));
    var vlanOf := AttributionOf(ids, MibColumn(mib, setup.oids.vlanFdb), named);
    LearnedOf(setup, QTable(setup.oids), t, vlanOf, base, dropped)
  }

  // ---- The BRIDGE table ----

  /** The keys of one VLAN, or of none, from the BRIDGE table of the default context are exact in
      their ports too, if and only if the stack was not left out, or nothing folds. */
  lemma BridgeExactIff(mib: Mib, setup: Setup, vlanOf: Attribution, stackLate: bool, keys: set<Key>)
    requires ExactKeys(mib, setup, DTable(setup.oids), vlanOf, LateFold(mib, setup, stackLate), keys)
    ensures ExactFolded(mib, setup, DTable(setup.oids), vlanOf, keys)
            <==> !(stackLate && StackMatters(mib, setup, DTable(setup.oids)))
  {
    hide ExactKeys;
    hide StackFold;
    hide Shows;
    if stackLate {
      UnfoldedExactIff(mib, mib, setup, DTable(setup.oids), vlanOf, keys);
    }
  }

  /** The same entries on one VLAN. */
  lemma OnOneVlan(mib: Mib, setup: Setup, f: FdbTable, a: Attribution, b: Attribution, g: map<string, string>,
                  keys: set<Key>, moved: set<Key>, v: Option<int>)
    requires ExactKeys(mib, setup, f, a, g, keys)
    requires forall fid :: a(fid) == None && b(fid) == v
    requires forall key: Key :: key in moved <==> key.0 == v && (None, key.1, key.2) in keys
    ensures ExactKeys(mib, setup, f, b, g, moved)
  {
    hide Learnable;
    hide OnInterface;
    hide Fold;
    forall key ensures key in moved <==> exists index :: Owed(mib, setup, f, b, g, index, key) {
      var plain: Key := (None, key.1, key.2);
      if key in moved {
        var index, e, ifIndex := OwedIsShown(mib, setup, f, a, g, keys, plain);
        assert Owed(mib, setup, f, b, g, index, key);
      }
      forall index | Owed(mib, setup, f, b, g, index, key) ensures key in moved {
        var e, ifIndex :| Shows(mib, setup, f, index, e, ifIndex) && key == (b(e.fdbId), e.mac, Fold(g, ifIndex));
        ShownIsOwed(mib, setup, f, a, g, keys, index, e, ifIndex);
      }
    }
  }
}
