/** What a complete Q-BRIDGE read of an honest agent yields, said of its MIB alone. */
module Exactness {
  import opened Oids
  import opened Agent
  import opened Text
  import opened Mac
  import opened Walk
  import opened WalkExact
  import opened Fdb
  import opened FdbProofs
  import opened FdbMeaning
  import opened Contexts

  /** One column of the MIB. */
  ghost function MibColumn(mib: Mib, base: Oid): (c: Column)
    ensures forall index :: index in c <==> index != [] && base + index in mib
    ensures forall index | index in c :: c[index] == mib[base + index]
  {
    var indexes := set o | o in mib && Under(base, o) :: Index(base, o);
    assert forall index | index != [] && base + index in mib :: index in indexes by {
      forall index | index != [] && base + index in mib ensures index in indexes {
        UnderSum(base, index);
        assert Index(base, base + index) == index;
      }
    }
    map index | index in indexes :: mib[base + index]
  }

  function MibCell(mib: Mib, base: Oid, index: Oid): Option<string> {
    if base + index in mib then Some(mib[base + index]) else None
  }

  /** One forwarding table of the MIB: its two columns and the kind of its index. */
  datatype FdbTable = FdbTable(port: Oid, status: Oid, qbridge: bool)

  function QTable(oids: Scheme): FdbTable {
    FdbTable(oids.qPort, oids.qStatus, true)
  }

  function DTable(oids: Scheme): FdbTable {
    FdbTable(oids.dPort, oids.dStatus, false)
  }

  /** The VLAN an entry is given for its FDB id. */
  type Attribution = Option<nat> -> Option<int>

  /** The entry the MIB holds under an index, if it holds a well-formed one. */
  function EntryIn(mib: Mib, f: FdbTable, index: Oid): Option<Entry> {
    if index != [] && (f.port + index in mib || f.status + index in mib) then
      EntryAt(index, MibCell(mib, f.port, index), MibCell(mib, f.status, index), f.qbridge)
    else None
  }

  /** The octets a row's index ends in. */
  function OctetsIn(f: FdbTable, index: Oid): Oid {
    if f.qbridge && index != [] then index[1..] else index
  }

  /** The entry the MIB holds under an index: an FDB id, in a Q-BRIDGE table, and six octets, with
      a port, a status, or both. */
  ghost predicate Held(mib: Mib, f: FdbTable, index: Oid, e: Entry) {
    && index != [] && IsMac(OctetsIn(f, index))
    && (f.port + index in mib || f.status + index in mib)
    && e.mac == Canon(OctetsIn(f, index)) && e.vlan == None
    && e.fdbId == (if f.qbridge then Some(index[0]) else None)
    && e.bridgePort == (if f.port + index in mib then Int(mib[f.port + index]) else None)
    && e.status == FdbStatus(if f.status + index in mib then Some(mib[f.status + index]) else None)
  }

  /** An entry of the MIB that is a learned host on a real port: its status is neither self nor
      invalid, its octets are no group address, not all zero and not the device's own, its port is
      not zero. */
  ghost predicate Learnable(mib: Mib, setup: Setup, f: FdbTable, index: Oid, e: Entry) {
    && Held(mib, f, index, e)
    && e.status != "self" && e.status != "invalid"
    && var o := OctetsIn(f, index);
    && o[0] % 2 == 0 && (exists k :: 0 <= k < 6 && o[k] != 0) && Canon(o) !in setup.ifaces.own
    && e.bridgePort.Some? && e.bridgePort.value != 0
  }

  lemma EntryHeld(mib: Mib, f: FdbTable, index: Oid, e: Entry)
    ensures EntryIn(mib, f, index) == Some(e) <==> Held(mib, f, index, e)
  {
    hide Canon;
    hide FdbStatus;
    hide Int;
  }

  lemma KeptIsLearnable(mib: Mib, setup: Setup, f: FdbTable, index: Oid, e: Entry)
    requires Held(mib, f, index, e)
    ensures VerdictOf(e, setup.ifaces.own) == Kept <==> Learnable(mib, setup, f, index, e)
  {
    hide Canon;
    hide FdbStatus;
    hide Int;
    hide NormMac;
    hide VerdictOf;
    NormOfCanon(OctetsIn(f, index));
    VerdictMeaning(e, setup.ifaces.own, OctetsIn(f, index));
  }

  /** How the MIB attributes a learnable entry's bridge port to an interface. */
  ghost predicate OnInterface(mib: Mib, setup: Setup, f: FdbTable, p: int, ifIndex: string) {
    var base := MibColumn(mib, setup.oids.basePort);
    if AnyBaseRow(base) then exists i :: p >= 0 && BaseRow(base, p, i) && ifIndex == Str(i)
    else
      && ifIndex == Str(p)
      && forall index, e {:trigger Learnable(mib, setup, f, index, e)} ::
           Learnable(mib, setup, f, index, e) ==> setup.ifaces.IsPort(Str(e.bridgePort.value))
  }

  /** The FDB ids of the MIB's forwarding table. */
  ghost predicate FdbIds(mib: Mib, f: FdbTable, ids: set<nat>) {
    forall id: nat :: id in ids <==>
      exists index, e :: Held(mib, f, index, e) && e.fdbId == Some(id)
  }

  /** A MAC, the VLAN of its FDB id and the interface of its port: what the read owes for one
      forwarding entry, given how VLANs and units are attributed. */
  ghost predicate Owed(mib: Mib, setup: Setup, f: FdbTable, vlanOf: Attribution, fold: map<string, string>,
                       index: Oid, key: Key) {
    exists e, ifIndex ::
      && Learnable(mib, setup, f, index, e) && e.bridgePort.Some?
      && OnInterface(mib, setup, f, e.bridgePort.value, ifIndex)
      && key == (vlanOf(e.fdbId), e.mac, Fold(fold, ifIndex))
  }

  /** The keys are those the forwarding table owes: none lost, none invented. */
  ghost predicate ExactKeys(mib: Mib, setup: Setup, f: FdbTable, vlanOf: Attribution, fold: map<string, string>,
                            keys: set<Key>) {
    forall key :: key in keys <==> exists index :: Owed(mib, setup, f, vlanOf, fold, index, key)
  }

  // ---- From the walked tables to the MIB ----

  lemma ColumnIsMib(mib: Mib, bases: seq<Oid>, t: Table, k: nat)
    requires Exact(mib, bases, t) && k < |bases|
    ensures ColumnOf(t, k) == MibColumn(mib, bases[k])
  {
    var a, b := ColumnOf(t, k), MibColumn(mib, bases[k]);
    forall index ensures index in a <==> index in b {
      assert t.Has(index, k) <==> index != [] && bases[k] + index in mib;
    }
  }

  lemma CellIsMib(mib: Mib, bases: seq<Oid>, t: Table, k: nat, index: Oid)
    requires Exact(mib, bases, t) && k < |bases| && index != []
    ensures CellOf(t, index, k) == MibCell(mib, bases[k], index)
  {
    assert t.Has(index, k) <==> bases[k] + index in mib;
  }

  /** A row is in the table exactly when one of its columns has it. */
  ghost predicate RowsHaveCells(t: Table) {
    forall index :: index in t.order <==> t.Has(index, 0) || t.Has(index, 1)
  }

  /** Parsing the walked table is reading the MIB. */
  lemma ParsedFromMib(mib: Mib, f: FdbTable, t: Table, e: Entry)
    requires Exact(mib, [f.port, f.status], t) && RowsHaveCells(t)
    ensures e in ParseRows(t, t.order, f.qbridge) <==> exists index :: Held(mib, f, index, e)
  {
    hide EntryAt;
    hide Held;
    var bases := [f.port, f.status];
    ParsedExactly(t, t.order, f.qbridge, e);
    forall index
      ensures index in t.order && EntryOf(t, index, f.qbridge) == Some(e) <==> EntryIn(mib, f, index) == Some(e)
    {
      assert t.Has(index, 0) <==> index != [] && bases[0] + index in mib;
      assert t.Has(index, 1) <==> index != [] && bases[1] + index in mib;
      if index != [] {
        CellIsMib(mib, bases, t, 0, index);
        CellIsMib(mib, bases, t, 1, index);
      }
    }
    forall index ensures EntryIn(mib, f, index) == Some(e) <==> Held(mib, f, index, e) {
      EntryHeld(mib, f, index, e);
    }
  }

  function WithVlans(entries: seq<Entry>, vlanOf: Attribution): seq<Entry> {
    seq(|entries|, i requires 0 <= i < |entries| =>
      entries[i].(vlan := vlanOf(entries[i].fdbId)))
  }

  function IdsOf(entries: seq<Entry>): set<nat> {
    set e | e in entries && e.fdbId.Some? :: e.fdbId.value
  }

  lemma VlanKeepsVerdict(e: Entry, v: Option<int>, own: set<string>)
    ensures VerdictOf(e.(vlan := v), own) == VerdictOf(e, own)
  {
    hide DropReasonOf;
  }

  function VlanAs(e: Entry, vlanOf: Attribution): Entry {
    e.(vlan := vlanOf(e.fdbId))
  }

  /** What is kept after VLAN attribution are the learnable entries of the MIB. */
  lemma KeptFromMib(mib: Mib, setup: Setup, f: FdbTable, t: Table, vlanOf: Attribution, x: Entry)
    requires Exact(mib, [f.port, f.status], t) && RowsHaveCells(t)
    ensures x in Keep(WithVlans(ParseRows(t, t.order, f.qbridge), vlanOf), setup.ifaces.own)
            <==> exists index, e :: Learnable(mib, setup, f, index, e) && x == VlanAs(e, vlanOf)
  {
    hide VerdictOf;
    hide Learnable;
    hide Held;
    hide ParseRows;
    var entries := ParseRows(t, t.order, f.qbridge);
    var own := setup.ifaces.own;
    if x in Keep(WithVlans(entries, vlanOf), own) {
      var i :| 0 <= i < |entries| && WithVlans(entries, vlanOf)[i] == x;
      ParsedFromMib(mib, f, t, entries[i]);
      VlanKeepsVerdict(entries[i], x.vlan, own);
      var index :| Held(mib, f, index, entries[i]);
      KeptIsLearnable(mib, setup, f, index, entries[i]);
      assert Learnable(mib, setup, f, index, entries[i]) && x == VlanAs(entries[i], vlanOf);
    }
    forall index, e | Learnable(mib, setup, f, index, e) && x == VlanAs(e, vlanOf)
      ensures x in Keep(WithVlans(entries, vlanOf), own)
    {
      LearnableHeld(mib, setup, f, index, e);
      ParsedFromMib(mib, f, t, e);
      var i :| 0 <= i < |entries| && entries[i] == e;
      assert WithVlans(entries, vlanOf)[i] == x;
      KeptIsLearnable(mib, setup, f, index, e);
      VlanKeepsVerdict(e, x.vlan, own);
    }
  }

  lemma LearnableHeld(mib: Mib, setup: Setup, f: FdbTable, index: Oid, e: Entry)
    requires Learnable(mib, setup, f, index, e)
    ensures Held(mib, f, index, e) && e.bridgePort.Some? && e.bridgePort.value != 0
  {
    hide Held;
  }

  lemma PortsFromMib(mib: Mib, setup: Setup, f: FdbTable, t: Table, vlanOf: Attribution, q: int)
    requires Exact(mib, [f.port, f.status], t) && RowsHaveCells(t)
    ensures var kept := Keep(WithVlans(ParseRows(t, t.order, f.qbridge), vlanOf), setup.ifaces.own);
            q in PortsOf(kept) <==> exists index, e :: Learnable(mib, setup, f, index, e) && e.bridgePort == Some(q)
  {
    hide VerdictOf;
    hide Held;
    hide ParseRows;
    hide Learnable;
    hide Keep;
    var kept := Keep(WithVlans(ParseRows(t, t.order, f.qbridge), vlanOf), setup.ifaces.own);
    if q in PortsOf(kept) {
      var x :| x in kept && x.bridgePort.Some? && x.bridgePort.value == q;
      KeptFromMib(mib, setup, f, t, vlanOf, x);
    }
    forall index, e | Learnable(mib, setup, f, index, e) && e.bridgePort == Some(q) ensures q in PortsOf(kept) {
      KeptFromMib(mib, setup, f, t, vlanOf, VlanAs(e, vlanOf));
      assert VlanAs(e, vlanOf) in kept;
    }
  }

  /** Two ways to say how a port is attributed. */
  lemma InterfaceFromMib(mib: Mib, setup: Setup, f: FdbTable, t: Table, vlanOf: Attribution, base: Column,
                         p: int, ifIndex: string)
    requires Exact(mib, [f.port, f.status], t) && RowsHaveCells(t)
    requires base == MibColumn(mib, setup.oids.basePort)
    ensures var kept := Keep(WithVlans(ParseRows(t, t.order, f.qbridge), vlanOf), setup.ifaces.own);
            PortMeans(PortsOf(kept), base, setup.ifaces, p, ifIndex) <==> OnInterface(mib, setup, f, p, ifIndex)
  {
    hide Keep;
    hide PortsOf;
    hide WithVlans;
    hide ParseRows;
    hide AnyBaseRow;
    hide BaseRow;
    hide Learnable;
    hide Ifaces.IsPort;
    var kept := Keep(WithVlans(ParseRows(t, t.order, f.qbridge), vlanOf), setup.ifaces.own);
    forall q
      ensures q in PortsOf(kept) <==> exists index, e :: Learnable(mib, setup, f, index, e) && e.bridgePort == Some(q)
    {
      PortsFromMib(mib, setup, f, t, vlanOf, q);
    }
    forall index, e | Learnable(mib, setup, f, index, e) ensures e.bridgePort.Some? {
      LearnableHeld(mib, setup, f, index, e);
    }
  }

  /** The row a learnable entry becomes on an interface. */
  function RowFor(e: Entry, vlanOf: Attribution, ifIndex: string): Row
    requires e.bridgePort.Some?
  {
    Row(e.mac, ifIndex, VlanAs(e, vlanOf).vlan, e.fdbId, e.bridgePort.value, e.status)
  }

  /** The learned rows are the learnable entries of the MIB that are on an interface. */
  lemma LearnedFromMib(mib: Mib, setup: Setup, f: FdbTable, t: Table, vlanOf: Attribution, base: Column,
                       dropped: Drops, r: Row)
    requires Exact(mib, [f.port, f.status], t) && RowsHaveCells(t)
    requires base == MibColumn(mib, setup.oids.basePort)
    ensures r in Learned(WithVlans(ParseRows(t, t.order, f.qbridge), vlanOf), base, setup.ifaces, dropped).rows
            <==> exists index, e, ifIndex ::
                   && Learnable(mib, setup, f, index, e) && e.bridgePort.Some?
                   && OnInterface(mib, setup, f, e.bridgePort.value, ifIndex)
                   && r == RowFor(e, vlanOf, ifIndex)
  {
    hide Learned;
    hide Learnable;
    hide OnInterface;
    hide PortMeans;
    hide MapPorts;
    hide ParseRows;
    hide WithVlans;
    hide VerdictOf;
    var own := setup.ifaces.own;
    var entries := WithVlans(ParseRows(t, t.order, f.qbridge), vlanOf);
    var kept := Keep(entries, own);
    var mapping := MapPorts(PortsOf(kept), base, setup.ifaces).0;
    LearnedExactly(entries, base, setup.ifaces, dropped, r);
    if r in Learned(entries, base, setup.ifaces, dropped).rows {
      var x :| x in entries && VerdictOf(x, own) == Kept && RowOf(x, mapping) == Some(r);
      KeptFromMib(mib, setup, f, t, vlanOf, x);
      var index, e :| Learnable(mib, setup, f, index, e) && x == VlanAs(e, vlanOf);
      var p := x.bridgePort.value;
      assert p in PortsOf(kept);
      MapPortsMeaning(PortsOf(kept), base, setup.ifaces, p, mapping[p]);
      InterfaceFromMib(mib, setup, f, t, vlanOf, base, p, mapping[p]);
      assert r == RowFor(e, vlanOf, mapping[p]);
    }
    forall index, e, ifIndex | Learnable(mib, setup, f, index, e) && e.bridgePort.Some?
                               && OnInterface(mib, setup, f, e.bridgePort.value, ifIndex)
                               && r == RowFor(e, vlanOf, ifIndex)
      ensures r in Learned(entries, base, setup.ifaces, dropped).rows
    {
      var x, p := VlanAs(e, vlanOf), e.bridgePort.value;
      KeptFromMib(mib, setup, f, t, vlanOf, x);
      assert p in PortsOf(kept);
      InterfaceFromMib(mib, setup, f, t, vlanOf, base, p, ifIndex);
      MapPortsMeaning(PortsOf(kept), base, setup.ifaces, p, ifIndex);
      assert RowOf(x, mapping) == Some(r);
    }
  }

  /** Folding as the read does it is folding every row. */
  lemma FoldIfIsFold(rows: seq<Row>, stack: Column, fold: map<string, string>, ifaces: Ifaces)
    requires IsUnitPorts(stack, ifaces, fold)
    ensures FoldIf(rows, Some(fold), ifaces) == FoldRows(rows, fold)
  {
    if !HasLogical(rows, ifaces) {
      forall i | 0 <= i < |rows| ensures Fold(fold, rows[i].ifIndex) == rows[i].ifIndex {
        NotFolded(rows, i, stack, fold, ifaces);
      }
      assert FoldRows(rows, fold) == rows;
    }
  }

  lemma NotFolded(rows: seq<Row>, i: nat, stack: Column, fold: map<string, string>, ifaces: Ifaces)
    requires i < |rows| && !HasLogical(rows, ifaces) && IsUnitPorts(stack, ifaces, fold)
    ensures rows[i].ifIndex !in fold
  {
    assert rows[i] in rows;
    assert rows[i].ifIndex in fold ==> Folds(stack, ifaces, rows[i].ifIndex);
  }

  lemma FoldNothing(rows: seq<Row>)
    ensures FoldRows(rows, map[]) == rows
  {
    assert FoldRows(rows, map[]) == rows;
  }

  lemma KeysOfFolded(rows: seq<Row>, fold: map<string, string>, key: Key)
    ensures key in KeysOf(FoldRows(rows, fold))
            <==> exists r :: r in rows && key == (r.vlan, r.mac, Fold(fold, r.ifIndex))
  {
    var folded := FoldRows(rows, fold);
    if key in KeysOf(folded) {
      var x :| x in folded && KeyOf(x) == key;
      var i :| 0 <= i < |folded| && folded[i] == x;
      assert rows[i] in rows;
    }
    forall r | r in rows && key == (r.vlan, r.mac, Fold(fold, r.ifIndex)) ensures key in KeysOf(folded) {
      var i :| 0 <= i < |rows| && rows[i] == r;
      assert folded[i] in folded && KeyOf(folded[i]) == key;
    }
  }

  /** The rows the read learns from a walked table. */
  function LearnedOf(setup: Setup, f: FdbTable, t: Table, vlanOf: Attribution, base: Column, dropped: Drops): seq<Row> {
    Learned(WithVlans(ParseRows(t, t.order, f.qbridge), vlanOf), base, setup.ifaces, dropped).rows
  }

  lemma FoldedKeyIsOwed(mib: Mib, setup: Setup, f: FdbTable, t: Table, vlanOf: Attribution, base: Column,
                        dropped: Drops, fold: map<string, string>, key: Key)
    requires Exact(mib, [f.port, f.status], t) && RowsHaveCells(t)
    requires base == MibColumn(mib, setup.oids.basePort)
    requires key in KeysOf(FoldRows(LearnedOf(setup, f, t, vlanOf, base, dropped), fold))
    ensures exists index :: Owed(mib, setup, f, vlanOf, fold, index, key)
  {
    hide Learned;
    hide Learnable;
    hide OnInterface;
    hide ParseRows;
    hide WithVlans;
    hide FoldRows;
    hide KeysOf;
    hide Exact;
    hide RowsHaveCells;
    var rows := LearnedOf(setup, f, t, vlanOf, base, dropped);
    KeysOfFolded(rows, fold, key);
    var r :| r in rows && key == (r.vlan, r.mac, Fold(fold, r.ifIndex));
    LearnedFromMib(mib, setup, f, t, vlanOf, base, dropped, r);
    var index, e, ifIndex :| Learnable(mib, setup, f, index, e) && e.bridgePort.Some?
      && OnInterface(mib, setup, f, e.bridgePort.value, ifIndex) && r == RowFor(e, vlanOf, ifIndex);
    assert Owed(mib, setup, f, vlanOf, fold, index, key);
  }

  lemma OwedKeyIsFolded(mib: Mib, setup: Setup, f: FdbTable, t: Table, vlanOf: Attribution, base: Column,
                        dropped: Drops, fold: map<string, string>, index: Oid, key: Key)
    requires Exact(mib, [f.port, f.status], t) && RowsHaveCells(t)
    requires base == MibColumn(mib, setup.oids.basePort)
    requires Owed(mib, setup, f, vlanOf, fold, index, key)
    ensures key in KeysOf(FoldRows(LearnedOf(setup, f, t, vlanOf, base, dropped), fold))
  {
    hide Learned;
    hide Learnable;
    hide OnInterface;
    hide ParseRows;
    hide WithVlans;
    hide FoldRows;
    hide KeysOf;
    hide Exact;
    hide RowsHaveCells;
    var rows := LearnedOf(setup, f, t, vlanOf, base, dropped);
    var e, ifIndex :| Learnable(mib, setup, f, index, e) && e.bridgePort.Some?
      && OnInterface(mib, setup, f, e.bridgePort.value, ifIndex)
      && key == (vlanOf(e.fdbId), e.mac, Fold(fold, ifIndex));
    var r := RowFor(e, vlanOf, ifIndex);
    LearnedFromMib(mib, setup, f, t, vlanOf, base, dropped, r);
    KeysOfFolded(rows, fold, key);
  }

  /** End to end: from complete walks of an honest agent, through parsing, attribution, filter,
      folding and deduplication, exactly what the MIB owes. */
  lemma KeysFromMib(mib: Mib, setup: Setup, f: FdbTable, t: Table, vlanOf: Attribution, base: Column,
                    dropped: Drops, fold: map<string, string>)
    requires Exact(mib, [f.port, f.status], t) && RowsHaveCells(t)
    requires base == MibColumn(mib, setup.oids.basePort)
    ensures ExactKeys(mib, setup, f, vlanOf, fold,
                      KeysOf(FirstOnly(FoldRows(LearnedOf(setup, f, t, vlanOf, base, dropped), fold))))
  {
    hide LearnedOf;
    hide Owed;
    hide ParseRows;
    hide KeysOf;
    hide Exact;
    hide RowsHaveCells;
    var folded := FoldRows(LearnedOf(setup, f, t, vlanOf, base, dropped), fold);
    FirstOnlyKeys(folded);
    forall key ensures key in KeysOf(folded) <==> exists index :: Owed(mib, setup, f, vlanOf, fold, index, key) {
      if key in KeysOf(folded) {
        FoldedKeyIsOwed(mib, setup, f, t, vlanOf, base, dropped, fold, key);
      }
      forall index | Owed(mib, setup, f, vlanOf, fold, index, key) ensures key in KeysOf(folded) {
        OwedKeyIsFolded(mib, setup, f, t, vlanOf, base, dropped, fold, index, key);
      }
    }
  }

  /** The FDB ids the VLANs are looked up for are those of the MIB. */
  lemma IdsFromMib(mib: Mib, f: FdbTable, t: Table)
    requires Exact(mib, [f.port, f.status], t) && RowsHaveCells(t)
    ensures FdbIds(mib, f, IdsOf(ParseRows(t, t.order, f.qbridge)))
  {
    hide Held;
    hide ParseRows;
    var entries := ParseRows(t, t.order, f.qbridge);
    forall id: nat
      ensures id in IdsOf(entries) <==> exists index, e :: Held(mib, f, index, e) && e.fdbId == Some(id)
    {
      if id in IdsOf(entries) {
        var e :| e in entries && e.fdbId.Some? && e.fdbId.value == id;
        ParsedFromMib(mib, f, t, e);
        var index :| Held(mib, f, index, e);
        assert e.fdbId == Some(id);
      }
      forall index, e | Held(mib, f, index, e) && e.fdbId == Some(id) ensures id in IdsOf(entries) {
        ParsedFromMib(mib, f, t, e);
      }
    }
  }

  predicate MacIn(keys: set<Key>, mac: string) {
    exists key :: key in keys && key.1 == mac
  }

  /** An address the MIB learned on an interface. */
  ghost predicate MacOwed(mib: Mib, setup: Setup, f: FdbTable, mac: string) {
    exists index, e, ifIndex ::
      && Learnable(mib, setup, f, index, e) && e.bridgePort.Some? && e.mac == mac
      && OnInterface(mib, setup, f, e.bridgePort.value, ifIndex)
  }

  /** Whatever the attribution, the addresses reported are exactly those of the learnable
      entries on an interface. */
  lemma MacsExact(mib: Mib, setup: Setup, f: FdbTable, vlanOf: Attribution, fold: map<string, string>,
                  keys: set<Key>, mac: string)
    requires ExactKeys(mib, setup, f, vlanOf, fold, keys)
    ensures MacIn(keys, mac) <==> MacOwed(mib, setup, f, mac)
  {
    hide Learnable;
    hide OnInterface;
    if key :| key in keys && key.1 == mac {
      var index :| Owed(mib, setup, f, vlanOf, fold, index, key);
    }
    forall index, e, ifIndex | Learnable(mib, setup, f, index, e) && e.bridgePort.Some? && e.mac == mac
                               && OnInterface(mib, setup, f, e.bridgePort.value, ifIndex)
      ensures MacIn(keys, mac)
    {
      var key := (vlanOf(e.fdbId), e.mac, Fold(fold, ifIndex));
      assert Owed(mib, setup, f, vlanOf, fold, index, key);
      assert key in keys && key.1 == mac;
    }
  }
}
