/** What the table functions promise. */
module FdbProofs {
  import opened Oids
  import opened Text
  import opened Mac
  import opened Walk
  import opened Fdb

  // ---- Parsing ----

  /** Parsing loses no well-formed row and invents none. */
  lemma {:induction false} ParsedExactly(t: Table, order: seq<Oid>, qbridge: bool, e: Entry)
    ensures e in ParseRows(t, order, qbridge)
            <==> exists index :: index in order && EntryOf(t, index, qbridge) == Some(e)
  {
    hide EntryOf;
    if order != [] {
      var front, last := order[..|order| - 1], order[|order| - 1];
      ParsedExactly(t, front, qbridge, e);
      assert forall index :: index in order <==> index in front || index == last by {
        assert order == front + [last];
      }
    }
  }

  // ---- The filter ----

  lemma {:induction false} FilteredCounts(d: Drops, entries: seq<Entry>, own: set<string>)
    ensures Filtered(d, entries, own) ==
              Drops(d.self + Count(entries, own, SelfRow), d.port0 + Count(entries, own, PortZero),
                    d.group + Count(entries, own, GroupRow), d.own + Count(entries, own, OwnRow), d.unmapped)
    ensures |entries| == |Keep(entries, own)| + Count(entries, own, SelfRow) + Count(entries, own, PortZero)
                         + Count(entries, own, GroupRow) + Count(entries, own, OwnRow)
  {
    hide VerdictOf;
    if entries != [] {
      FilteredCounts(d, entries[..|entries| - 1], own);
    }
  }

  /** Every entry is a row or is counted once, under its own reason. */
  lemma FilterConserves(entries: seq<Entry>, base: Column, ifaces: Ifaces, dropped: Drops)
    ensures var r := Learned(entries, base, ifaces, dropped);
            && |entries| + dropped.Total() == |r.rows| + r.dropped.Total()
            && r.dropped.self == dropped.self + Count(entries, ifaces.own, SelfRow)
            && r.dropped.port0 == dropped.port0 + Count(entries, ifaces.own, PortZero)
            && r.dropped.group == dropped.group + Count(entries, ifaces.own, GroupRow)
            && r.dropped.own == dropped.own + Count(entries, ifaces.own, OwnRow)
            && r.dropped.unmapped >= dropped.unmapped
  {
    hide MapPorts;
    FilteredCounts(dropped, entries, ifaces.own);
  }

  /** The rows are exactly the kept entries whose port maps. */
  lemma LearnedExactly(entries: seq<Entry>, base: Column, ifaces: Ifaces, dropped: Drops, r: Row)
    ensures var kept := Keep(entries, ifaces.own);
            r in Learned(entries, base, ifaces, dropped).rows
            <==> exists e :: e in entries && VerdictOf(e, ifaces.own) == Kept
                             && RowOf(e, MapPorts(PortsOf(kept), base, ifaces).0) == Some(r)
  {
    hide MapPorts;
    hide VerdictOf;
    var kept := Keep(entries, ifaces.own);
    MapRowsMeaning(kept, MapPorts(PortsOf(kept), base, ifaces).0, r);
    if r in Learned(entries, base, ifaces, dropped).rows {
      var e :| e in kept && RowOf(e, MapPorts(PortsOf(kept), base, ifaces).0) == Some(r);
    }
    forall e | e in entries && VerdictOf(e, ifaces.own) == Kept
               && RowOf(e, MapPorts(PortsOf(kept), base, ifaces).0) == Some(r)
      ensures r in Learned(entries, base, ifaces, dropped).rows
    {
      assert e in kept;
    }
  }

  // ---- Ports and units ----

  /** Bridge port `p` has a non-zero ifIndex `i` in dot1dBasePortIfIndex. */
  ghost predicate BaseRow(base: Column, p: nat, i: int) {
    p != 0 && [p] in base && Int(base[[p]]) == Some(i) && i != 0
  }

  ghost predicate AnyBaseRow(base: Column) {
    exists p: nat, i :: BaseRow(base, p, i)
  }

  /** How one bridge port is attributed: through dot1dBasePortIfIndex whenever that table has
      a usable row at all, else taken as an ifIndex only if every port is one. */
  ghost predicate PortMeans(ports: set<int>, base: Column, ifaces: Ifaces, p: int, index: string) {
    if AnyBaseRow(base) then exists i :: p >= 0 && BaseRow(base, p, i) && index == Str(i)
    else (forall q | q in ports :: ifaces.IsPort(Str(q))) && index == Str(p)
  }

  lemma BaseRowIsUsable(base: Column, p: nat)
    ensures UsableBase(base, [p]) <==> exists i :: BaseRow(base, p, i)
    ensures forall i | BaseRow(base, p, i) :: Int(base[[p]]).value == i
  {
    hide Int;
    if UsableBase(base, [p]) {
      assert BaseRow(base, p, Int(base[[p]]).value);
    }
  }

  lemma SomeBasePort(base: Column)
    ensures BasePorts(base) == map[] <==> !AnyBaseRow(base)
  {
    hide Int;
    hide UsableBase;
    hide BaseRow;
    var known := BasePorts(base);
    if p: nat, i :| BaseRow(base, p, i) {
      BaseRowIsUsable(base, p);
      assert p in known;
    } else {
      forall q: nat ensures q !in known {
        BaseRowIsUsable(base, q);
      }
      assert known == map[];
    }
  }

  lemma MapPortsMeaning(ports: set<int>, base: Column, ifaces: Ifaces, p: int, index: string)
    requires p in ports
    ensures var mapping := MapPorts(ports, base, ifaces).0;
            p in mapping && mapping[p] == index <==> PortMeans(ports, base, ifaces, p, index)
  {
    hide Int;
    hide Str;
    hide BasePorts;
    hide UsableBase;
    hide AnyBaseRow;
    hide Ifaces.IsPort;
    SomeBasePort(base);
    if p >= 0 {
      BaseRowIsUsable(base, p);
    }
    hide BaseRow;
  }

  /** How the ports were mapped: through the base-port table if it has a usable row; else as
      ifIndexes if there are any ports and all are interfaces' that can be ports; else not. */
  lemma PortMapMeaning(ports: set<int>, base: Column, ifaces: Ifaces)
    ensures var (mapping, how) := MapPorts(ports, base, ifaces);
            && (how == BasePort <==> AnyBaseRow(base))
            && (how == Assumed <==> !AnyBaseRow(base) && ports != {} && forall p | p in ports :: ifaces.IsPort(Str(p)))
            && (how == NoPortMap ==> mapping == map[])
  {
    hide Str;
    hide BasePorts;
    hide AnyBaseRow;
    hide Ifaces.IsPort;
    SomeBasePort(base);
  }

  /** Folding never chains: a unit's port is no unit itself. */
  lemma FoldIdempotent(stack: Column, ifaces: Ifaces, out: map<string, string>, index: string)
    requires IsUnitPorts(stack, ifaces, out)
    ensures Fold(out, Fold(out, index)) == Fold(out, index)
    ensures Fold(out, index) != index ==> !ifaces.IsPort(index) && ifaces.IsPort(Fold(out, index))
  {
    if index in out {
      assert Folds(stack, ifaces, index);
      assert out[index] in PortsBelow(stack, ifaces, index);
      assert ifaces.IsPort(out[index]);
    }
  }

  /** A row set has one fold: what ifStackTable says determines it. */
  lemma UnitPortsUnique(stack: Column, ifaces: Ifaces, a: map<string, string>, b: map<string, string>)
    requires IsUnitPorts(stack, ifaces, a) && IsUnitPorts(stack, ifaces, b)
    ensures a == b
  {
    forall unit | unit in a ensures unit in b && a[unit] == b[unit] {
      assert Folds(stack, ifaces, unit);
      assert {a[unit]} == PortsBelow(stack, ifaces, unit) == {b[unit]};
    }
    forall unit | unit in b ensures unit in a {
      assert Folds(stack, ifaces, unit);
    }
  }

  // ---- VLANs ----

  /** VLAN `v`, a valid one, uses the FDB id: some row that ends in it says so. */
  ghost predicate UsedBy(vlanFdb: Column, v: int, fid: int) {
    && 1 <= v <= 4094
    && exists index :: index in vlanFdb && index != [] && index[|index| - 1] == v && Int(vlanFdb[index]) == Some(fid)
  }

  ghost predicate AnyUsed(vlanFdb: Column) {
    exists v, fid :: UsedBy(vlanFdb, v, fid)
  }

  lemma UsersAreUses(vlanFdb: Column, v: int, fid: int)
    ensures v in Users(vlanFdb, fid) <==> UsedBy(vlanFdb, v, fid)
  {
    hide Int;
  }

  lemma AnyUserIsUse(vlanFdb: Column)
    ensures (exists index :: UsableUse(vlanFdb, index)) <==> AnyUsed(vlanFdb)
  {
    hide Int;
    if index :| UsableUse(vlanFdb, index) {
      assert UsedBy(vlanFdb, index[|index| - 1], Int(vlanFdb[index]).value);
    }
    if v, fid :| UsedBy(vlanFdb, v, fid) {
      var index :| index in vlanFdb && index != [] && index[|index| - 1] == v && Int(vlanFdb[index]) == Some(fid);
      assert UsableUse(vlanFdb, index);
    }
  }

  /** Attribution is never a guess: an FDB id gets a VLAN only when that VLAN is the one valid
      user of it, or when the agent lists no users at all and every FDB id is a VLAN it names. */
  lemma VlanNeverGuessed(ids: set<nat>, vlanFdb: Column, named: set<int>, fid: nat, v: int)
    requires fid in ids
    ensures VlanFor(ids, vlanFdb, named, fid) == Some(v) <==>
              if AnyUsed(vlanFdb) then
                UsedBy(vlanFdb, v, fid) && forall w :: UsedBy(vlanFdb, w, fid) ==> w == v
              else v == fid && forall f | f in ids :: f != 0 && f in named
  {
    hide UsableUse;
    hide Users;
    hide UsedBy;
    hide AnyUsed;
    AnyUserIsUse(vlanFdb);
    var users := Users(vlanFdb, fid);
    forall w ensures w in users <==> UsedBy(vlanFdb, w, fid) {
      UsersAreUses(vlanFdb, w, fid);
    }
    if |users| == 1 {
      OnlyOne(users);
    }
    if v in users && forall w :: w in users ==> w == v {
      assert users == {v};
    }
  }

  /** How the VLANs were told: by their users if any are listed; else by name if there are FDB
      ids and all are named; else not. */
  lemma HowVlansMeaning(ids: set<nat>, vlanFdb: Column, named: set<int>)
    ensures HowVlans(ids, vlanFdb, named) == FdbIdMap <==> AnyUsed(vlanFdb)
    ensures HowVlans(ids, vlanFdb, named) == AssumedMap <==>
              !AnyUsed(vlanFdb) && ids != {} && 0 !in ids && forall f | f in ids :: f in named
    ensures HowVlans(ids, vlanFdb, named) != ContextMap
  {
    hide UsableUse;
    hide AnyUsed;
    AnyUserIsUse(vlanFdb);
  }

  // ---- Stacks ----

  /** An active row of ifStackTable puts interface `h` above what `rest` names; neither is the
      zero that ends a stack. */
  ghost predicate ActiveAbove(stack: Column, h: nat, rest: Oid) {
    && h != 0 && rest != [] && rest != [0] && [h] + rest in stack
    && Strip(stack[[h] + rest]) in {"1", "active"}
  }

  ghost predicate Below(stack: Column, ifaces: Ifaces, unit: string, port: string) {
    && ifaces.IsPort(port)
    && exists h: nat, rest :: ActiveAbove(stack, h, rest) && Decimal(h) == unit && Dotted(rest) == port
  }

  lemma PortsBelowMeaning(stack: Column, ifaces: Ifaces, unit: string, port: string)
    ensures port in PortsBelow(stack, ifaces, unit) <==> Below(stack, ifaces, unit, port)
  {
    hide Strip;
    hide Decimal;
    hide Dotted;
    hide Ifaces.IsPort;
    if port in PortsBelow(stack, ifaces, unit) {
      var index :| index in stack && Stacked(stack, index) && Decimal(index[0]) == unit && Dotted(index[1..]) == port;
      assert [index[0]] + index[1..] == index;
      assert ActiveAbove(stack, index[0], index[1..]);
    }
    if h: nat, rest :| ActiveAbove(stack, h, rest) && Decimal(h) == unit && Dotted(rest) == port {
      var index := [h] + rest;
      assert index[0] == h && index[1..] == rest;
      assert Stacked(stack, index);
    }
  }

  /** A unit folds onto a port: it is a known interface, no port itself, and that is the one port
      below it. */
  ghost predicate Onto(stack: Column, ifaces: Ifaces, unit: string, port: string) {
    && ifaces.Known(unit) && !ifaces.IsPort(unit) && Below(stack, ifaces, unit, port)
    && forall other :: Below(stack, ifaces, unit, other) ==> other == port
  }

  lemma FoldMeaning(stack: Column, ifaces: Ifaces, out: map<string, string>, unit: string, port: string)
    requires IsUnitPorts(stack, ifaces, out)
    ensures unit in out && out[unit] == port <==> Onto(stack, ifaces, unit, port)
  {
    hide Below;
    hide PortsBelow;
    hide Ifaces.IsPort;
    hide Ifaces.Known;
    var ports := PortsBelow(stack, ifaces, unit);
    forall other ensures other in ports <==> Below(stack, ifaces, unit, other) {
      PortsBelowMeaning(stack, ifaces, unit, other);
    }
    if port in ports && forall other :: other in ports ==> other == port {
      assert ports == {port};
    }
  }

  /** A folded row is on the port its interface folds onto, if there is one, and else where it was;
      nothing else of it changes. */
  lemma FoldRowsMeaning(stack: Column, ifaces: Ifaces, out: map<string, string>, rows: seq<Row>, i: nat)
    requires IsUnitPorts(stack, ifaces, out) && i < |rows|
    ensures var folded := FoldRows(rows, out);
            && |folded| == |rows| && folded[i] == rows[i].(ifIndex := folded[i].ifIndex)
            && (forall port :: Onto(stack, ifaces, rows[i].ifIndex, port) ==> folded[i].ifIndex == port)
            && ((forall port :: !Onto(stack, ifaces, rows[i].ifIndex, port)) ==> folded[i].ifIndex == rows[i].ifIndex)
  {
    hide Onto;
    hide IsUnitPorts;
    var unit := rows[i].ifIndex;
    forall port ensures unit in out && out[unit] == port <==> Onto(stack, ifaces, unit, port) {
      FoldMeaning(stack, ifaces, out, unit, port);
    }
    if unit in out {
      assert Onto(stack, ifaces, unit, out[unit]);
    }
  }

  // ---- Deduplication ----

  /** The positions that carry a key for the first time. */
  function FirstAt(rows: seq<Row>): (at: seq<nat>)
    ensures |at| <= |rows|
    ensures forall j :: 0 <= j < |at| ==> at[j] < |rows|
  {
    if rows == [] then []
    else
      var front, last := rows[..|rows| - 1], rows[|rows| - 1];
      if KeyOf(last) in KeysOf(front) then FirstAt(front) else FirstAt(front) + [|front|]
  }

  ghost predicate IsFirst(rows: seq<Row>, i: nat) {
    i < |rows| && forall j :: 0 <= j < i ==> KeyOf(rows[j]) != KeyOf(rows[i])
  }

  lemma {:induction false} FirstAtPicks(rows: seq<Row>)
    ensures var unique, at := FirstOnly(rows), FirstAt(rows);
            && |unique| == |at|
            && (forall j :: 0 <= j < |at| ==> unique[j] == rows[at[j]])
            && (forall j, k :: 0 <= j < k < |at| ==> at[j] < at[k])
  {
    hide KeyOf;
    hide KeysOf;
    if rows != [] {
      var front := rows[..|rows| - 1];
      FirstAtPicks(front);
      assert forall j :: 0 <= j < |FirstAt(front)| ==> FirstAt(front)[j] < |front|;
    }
  }

  lemma FirstOfFront(rows: seq<Row>, i: nat)
    requires rows != [] && i < |rows| - 1
    ensures IsFirst(rows, i) <==> IsFirst(rows[..|rows| - 1], i)
  {
    var front := rows[..|rows| - 1];
    assert forall j :: 0 <= j <= i ==> rows[j] == front[j];
  }

  lemma {:induction false} FirstAtMeans(rows: seq<Row>, i: nat)
    ensures i in FirstAt(rows) <==> IsFirst(rows, i)
  {
    hide KeyOf;
    hide KeysOf;
    if rows != [] {
      var front := rows[..|rows| - 1];
      FirstAtMeans(front, i);
      if i < |front| {
        FirstOfFront(rows, i);
      }
      FirstIffNew(rows);
      hide IsFirst;
      assert i in FirstAt(front) ==> i < |front|;
    }
  }

  /** Deduplication keeps, in their order, exactly the rows that show a key for the first
      time. */
  lemma FirstOnlyMeaning(rows: seq<Row>)
    ensures var unique, at := FirstOnly(rows), FirstAt(rows);
            && |unique| == |at|
            && (forall j :: 0 <= j < |at| ==> unique[j] == rows[at[j]])
            && (forall j, k :: 0 <= j < k < |at| ==> at[j] < at[k])
            && (forall i: nat :: i in at <==> IsFirst(rows, i))
  {
    hide FirstOnly;
    hide FirstAt;
    hide IsFirst;
    FirstAtPicks(rows);
    forall i: nat ensures i in FirstAt(rows) <==> IsFirst(rows, i) {
      FirstAtMeans(rows, i);
    }
  }

  lemma FirstIffNew(rows: seq<Row>)
    requires rows != []
    ensures KeyOf(rows[|rows| - 1]) in KeysOf(rows[..|rows| - 1]) <==> !IsFirst(rows, |rows| - 1)
  {
    var front, last := rows[..|rows| - 1], rows[|rows| - 1];
    if KeyOf(last) in KeysOf(front) {
      var r :| r in front && KeyOf(r) == KeyOf(last);
      var j :| 0 <= j < |front| && front[j] == r;
      assert rows[j] == r;
    }
    if !IsFirst(rows, |front|) {
      var j :| 0 <= j < |front| && KeyOf(rows[j]) == KeyOf(last);
      assert front[j] == rows[j];
      assert rows[j] in front;
    }
  }

  lemma {:induction false} FirstOnlyKeys(rows: seq<Row>)
    ensures KeysOf(FirstOnly(rows)) == KeysOf(rows)
    ensures forall i, j :: 0 <= i < j < |FirstOnly(rows)| ==> KeyOf(FirstOnly(rows)[i]) != KeyOf(FirstOnly(rows)[j])
  {
    if rows != [] {
      var front, last := rows[..|rows| - 1], rows[|rows| - 1];
      FirstOnlyKeys(front);
      assert rows == front + [last];
      KeysOfMore(front, last);
      KeysOfMore(FirstOnly(front), last);
      forall i | 0 <= i < |FirstOnly(front)| ensures KeyOf(FirstOnly(front)[i]) in KeysOf(front) {
        assert FirstOnly(front)[i] in FirstOnly(front);
      }
    }
  }
}
