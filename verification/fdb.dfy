/** From walked forwarding tables to learned rows: parsing, the learned-only filter, port and
    VLAN attribution, folding of logical units, deduplication. */
module Fdb {
  import opened Oids
  import opened Text
  import opened Mac
  import opened Walk

  /** One column of a walk. */
  type Column = map<Oid, string>

  function ColumnOf(t: Table, key: nat): (c: Column)
    ensures forall index :: index in c <==> t.Has(index, key)
    ensures forall index | index in c :: c[index] == t.Text(index, key)
  {
    map index | index in t.rows && t.Has(index, key) :: t.Text(index, key)
  }

  // ---- The same poll's interfaces ----

  datatype IfaceRow = IfaceRow(index: string, ifType: string, typeName: string, mac: string, vlan: string)

  const PORT_TYPES := {"6", "7", "26", "62", "69", "117", "161",
                       "ethernetCsmacd", "gigabitEthernet", "fastEther", "ieee8023adLag"}

  datatype Ifaces = Ifaces(types: map<string, (string, string)>, own: set<string>, pvids: set<int>) {
    predicate Known(index: string) {
      index in types
    }

    /** An ethernet port or an aggregate. */
    predicate IsPort(index: string) {
      index in types && (types[index].1 == "ethernet" || types[index].1 == "lag" || types[index].0 in PORT_TYPES)
    }
  }

  predicate ValidVlan(v: int) {
    1 <= v <= 4094
  }

  /** What one interface row adds. A row without an ifIndex adds nothing. */
  function AddIface(f: Ifaces, row: IfaceRow): Ifaces {
    var index, mac, vid := Strip(row.index), NormMac(row.mac), Int(row.vlan);
    if index == "" then f
    else Ifaces(
      f.types[index := (Strip(row.ifType), Strip(row.typeName))],
      if mac != "" && mac != ZERO_MAC then f.own + {mac} else f.own,
      if vid.Some? && ValidVlan(vid.value) then f.pvids + {vid.value} else f.pvids)
  }

  function IfacesFrom(rows: seq<IfaceRow>): Ifaces {
    if rows == [] then Ifaces(map[], {}, {})
    else AddIface(IfacesFrom(rows[..|rows| - 1]), rows[|rows| - 1])
  }

  method IfacesOf(rows: seq<IfaceRow>) returns (f: Ifaces)
    ensures f == IfacesFrom(rows)
  {
    f := Ifaces(map[], {}, {});
    for n := 0 to |rows|
      invariant f == IfacesFrom(rows[..n])
    {
      hide AddIface;
      assert rows[..n + 1][..n] == rows[..n];
      f := AddIface(f, rows[n]);
    }
    assert rows[..|rows|] == rows;
  }

  /** An interface row with an ifIndex and that address. */
  ghost predicate Carries(rows: seq<IfaceRow>, mac: string) {
    exists i :: 0 <= i < |rows| && Strip(rows[i].index) != "" && NormMac(rows[i].mac) == mac
  }

  /** The device's own addresses are the normalised, non-zero ifPhysAddress values of its
      rows, and nothing else. */
  lemma {:induction false} OwnAddresses(rows: seq<IfaceRow>, mac: string)
    ensures mac in IfacesFrom(rows).own <==> mac != "" && mac != ZERO_MAC && Carries(rows, mac)
  {
    hide NormMac;
    hide Strip;
    hide Int;
    if rows != [] {
      var front, last := rows[..|rows| - 1], rows[|rows| - 1];
      OwnAddresses(front, mac);
      if Carries(front, mac) {
        var i :| 0 <= i < |front| && Strip(front[i].index) != "" && NormMac(front[i].mac) == mac;
        assert rows[i] == front[i];
      }
      if Strip(last.index) != "" && NormMac(last.mac) == mac {
        assert rows[|rows| - 1] == last;
      }
      if Carries(rows, mac) && !(Strip(last.index) != "" && NormMac(last.mac) == mac) {
        var i :| 0 <= i < |rows| && Strip(rows[i].index) != "" && NormMac(rows[i].mac) == mac;
        assert front[i] == rows[i];
      }
    }
  }

  /** The own-address filter on a walked entry: it is dropped as the device's own exactly when
      its octets are an address of one of the device's interfaces that is neither zero nor a
      group address, however that interface's ifPhysAddress was printed. */
  lemma OwnFilterMeaning(rows: seq<IfaceRow>, o: Octets)
    requires IsMac(o)
    ensures DropReasonOf(Canon(o), IfacesFrom(rows).own) == Own <==>
              o[0] % 2 == 0 && !IsZero(o) && Carries(rows, Canon(o))
  {
    hide DropReasonOf;
    hide NormMac;
    hide Canon;
    hide Carries;
    DropReasonMeaning(o, IfacesFrom(rows).own);
    OwnAddresses(rows, Canon(o));
    CanonLength(o);
    OnlyZeroIsZero(o);
  }

  lemma OnlyZeroIsZero(o: Octets)
    requires IsMac(o)
    ensures Canon(o) == ZERO_MAC <==> IsZero(o)
  {
    hide Canon;
    ZeroIsZero();
    if IsZero(o) {
      assert o == ZERO;
    }
    if Canon(o) == ZERO_MAC {
      CanonInjective(o, ZERO);
    }
  }

  // ---- Entries ----

  datatype Entry = Entry(
    mac: string, fdbId: Option<nat>, bridgePort: Option<int>, status: string, vlan: Option<int>)

  const STATUS_NAMES := map["1" := "other", "2" := "invalid", "3" := "learned", "4" := "self", "5" := "mgmt"]

  /** `_fdb_status`. */
  function FdbStatus(raw: Option<string>): string {
    if raw.None? then ""
    else
      var text := Strip(raw.value);
      if text == "" then ""
      else if text in STATUS_NAMES then STATUS_NAMES[text]
      else if Lower(text) in STATUS_NAMES.Values then Lower(text)
      else "other"
  }

  function CellOf(t: Table, index: Oid, key: nat): Option<string> {
    if t.Has(index, key) then Some(t.Text(index, key)) else None
  }

  function IntOf(cell: Option<string>): Option<int> {
    if cell.Some? then Int(cell.value) else None
  }

  /** One row of a forwarding table: column 0 is the port, column 1 the status. A Q-BRIDGE
      index is an FDB id and six octets, a BRIDGE index the six octets. */
  function EntryAt(index: Oid, port: Option<string>, status: Option<string>, qbridge: bool): Option<Entry> {
    if qbridge then
      if |index| == 7 && AllOctets(index[1..]) then
        Some(Entry(Canon(index[1..]), Some(index[0]), IntOf(port), FdbStatus(status), None))
      else None
    else if |index| == 6 && AllOctets(index) then
      Some(Entry(Canon(index), None, IntOf(port), FdbStatus(status), None))
    else None
  }

  function EntryOf(t: Table, index: Oid, qbridge: bool): Option<Entry> {
    EntryAt(index, CellOf(t, index, 0), CellOf(t, index, 1), qbridge)
  }

  function ParseRows(t: Table, order: seq<Oid>, qbridge: bool): seq<Entry> {
    if order == [] then []
    else
      var e := EntryOf(t, order[|order| - 1], qbridge);
      ParseRows(t, order[..|order| - 1], qbridge) + (if e.Some? then [e.value] else [])
  }

  method ParseFdbTable(t: Table, qbridge: bool) returns (out: seq<Entry>)
    ensures out == ParseRows(t, t.order, qbridge)
  {
    out := [];
    for n := 0 to |t.order|
      invariant out == ParseRows(t, t.order[..n], qbridge)
    {
      hide EntryAt;
      var index := t.order[n];
      assert t.order[..n + 1][..n] == t.order[..n];
      var parts := index;
      var fdbId: Option<nat> := None;
      if qbridge {
        if |parts| != 7 {
          assert EntryOf(t, index, qbridge) == None by {
            EntryAtShape(index, CellOf(t, index, 0), CellOf(t, index, 1), qbridge);
          }
          continue;
        }
        fdbId := Some(parts[0]);
        parts := parts[1..];
      }
      var mac := MacFromIndex(parts);
      EntryAtShape(index, CellOf(t, index, 0), CellOf(t, index, 1), qbridge);
      if mac == "" {
        continue;
      }
      out := out + [Entry(mac, fdbId, IntOf(CellOf(t, index, 0)), FdbStatus(CellOf(t, index, 1)), None)];
    }
    assert t.order[..|t.order|] == t.order;
  }

  lemma EntryAtShape(index: Oid, port: Option<string>, status: Option<string>, qbridge: bool)
    ensures qbridge && |index| != 7 ==> EntryAt(index, port, status, qbridge) == None
    ensures var parts := if qbridge && |index| == 7 then index[1..] else index;
            (!qbridge || |index| == 7) ==>
              EntryAt(index, port, status, qbridge)
              == if MacFromIndex(parts) == "" then None
                 else Some(Entry(MacFromIndex(parts), if qbridge then Some(index[0]) else None,
                                 IntOf(port), FdbStatus(status), None))
  {
    var parts := if qbridge && |index| == 7 then index[1..] else index;
    if |parts| == 6 && AllOctets(parts) {
      CanonLength(parts);
    }
  }

  // ---- The learned-only filter ----

  datatype Verdict = SelfRow | GroupRow | OwnRow | PortZero | Kept

  function VerdictOf(e: Entry, own: set<string>): Verdict {
    if e.status == "self" || e.status == "invalid" then SelfRow
    else match DropReasonOf(e.mac, own)
      case Group => GroupRow
      case Own => OwnRow
      case Host => if e.bridgePort == None || e.bridgePort == Some(0) then PortZero else Kept
  }

  function Count(entries: seq<Entry>, own: set<string>, v: Verdict): nat {
    if entries == [] then 0
    else Count(entries[..|entries| - 1], own, v) + (if VerdictOf(entries[|entries| - 1], own) == v then 1 else 0)
  }

  function Keep(entries: seq<Entry>, own: set<string>): (kept: seq<Entry>)
    ensures forall e :: e in kept <==> e in entries && VerdictOf(e, own) == Kept
  {
    if entries == [] then []
    else
      var last := entries[|entries| - 1];
      assert entries == entries[..|entries| - 1] + [last];
      Keep(entries[..|entries| - 1], own) + (if VerdictOf(last, own) == Kept then [last] else [])
  }

  function PortsOf(kept: seq<Entry>): set<int> {
    set e | e in kept && e.bridgePort.Some? :: e.bridgePort.value
  }

  datatype PortMap = BasePort | Assumed | NoPortMap

  /** A usable dot1dBasePortIfIndex row: a non-zero port and a non-zero ifIndex. */
  predicate UsableBase(base: Column, index: Oid) {
    && index in base && |index| == 1 && index[0] != 0
    && Int(base[index]).Some? && Int(base[index]).value != 0
  }

  function BasePorts(base: Column): (ports: map<int, string>)
    ensures forall p: nat :: p in ports <==> UsableBase(base, [p])
    ensures forall p: int | p in ports :: p >= 0
    ensures forall p: nat | UsableBase(base, [p]) :: ports[p] == Str(Int(base[[p]]).value)
  {
    var known := set index | index in base && UsableBase(base, index) :: index[0];
    assert forall p: nat :: UsableBase(base, [p]) ==> [p][0] in known;
    assert forall index | index in base && UsableBase(base, index) :: index == [index[0]];
    map p: nat | p in known :: Str(Int(base[[p]]).value)
  }

  function MapPorts(ports: set<int>, base: Column, ifaces: Ifaces): (map<int, string>, PortMap) {
    var known := BasePorts(base);
    if known != map[] then (map p | p in ports && p in known :: known[p], BasePort)
    else if ports != {} && (forall p | p in ports :: ifaces.IsPort(Str(p))) then
      (map p | p in ports :: Str(p), Assumed)
    else (map[], NoPortMap)
  }

  method MapBridgePorts(ports: set<int>, base: Column, ifaces: Ifaces)
    returns (mapping: map<int, string>, how: PortMap)
    ensures (mapping, how) == MapPorts(ports, base, ifaces)
  {
    var known: map<int, string> := map[];
    var todo := base.Keys;
    while todo != {}
      invariant todo <= base.Keys
      invariant forall p: nat :: p in known <==> UsableBase(base, [p]) && [p] !in todo
      invariant forall p: int | p in known :: p >= 0
      invariant forall p: nat | p in known :: known[p] == Str(Int(base[[p]]).value)
      decreases |todo|
    {
      var index :| index in todo;
      var p, i := if |index| == 1 then Some(index[0]) else None, Int(base[index]);
      if p.Some? && p.value != 0 && i.Some? && i.value != 0 {
        assert index == [p.value];
        known := known[p.value := Str(i.value)];
      }
      todo := todo - {index};
    }
    assert known == BasePorts(base) by {
      assert forall p: int | p in known :: p >= 0 && p in BasePorts(base);
      assert forall p: int | p in BasePorts(base) :: p >= 0 && p in known;
    }
    if known != map[] {
      return map p | p in ports && p in known :: known[p], BasePort;
    }
    if ports != {} && forall p | p in ports :: ifaces.IsPort(Str(p)) {
      return map p | p in ports :: Str(p), Assumed;
    }
    return map[], NoPortMap;
  }

  datatype Row = Row(
    mac: string, ifIndex: string, vlan: Option<int>, fdbId: Option<nat>, bridgePort: int, status: string)

  function RowOf(e: Entry, mapping: map<int, string>): Option<Row> {
    if e.bridgePort.Some? && e.bridgePort.value in mapping then
      Some(Row(e.mac, mapping[e.bridgePort.value], e.vlan, e.fdbId, e.bridgePort.value, e.status))
    else None
  }

  function MapRows(kept: seq<Entry>, mapping: map<int, string>): (rows: seq<Row>)
    ensures |rows| <= |kept|
  {
    if kept == [] then []
    else
      var last := kept[|kept| - 1];
      var r := RowOf(last, mapping);
      MapRows(kept[..|kept| - 1], mapping) + (if r.Some? then [r.value] else [])
  }

  lemma {:induction false} MapRowsMeaning(kept: seq<Entry>, mapping: map<int, string>, r: Row)
    ensures r in MapRows(kept, mapping) <==> exists e :: e in kept && RowOf(e, mapping) == Some(r)
  {
    hide RowOf;
    if kept != [] {
      var front, last := kept[..|kept| - 1], kept[|kept| - 1];
      MapRowsMeaning(front, mapping, r);
      assert kept == front + [last];
    }
  }

  datatype Drops = Drops(self: nat, port0: nat, group: nat, own: nat, unmapped: nat) {
    function Total(): nat {
      self + port0 + group + own + unmapped
    }

    function Add(v: Verdict): Drops {
      match v
      case SelfRow => this.(self := self + 1)
      case GroupRow => this.(group := group + 1)
      case OwnRow => this.(own := own + 1)
      case PortZero => this.(port0 := port0 + 1)
      case Kept => this
    }
  }

  function NoDrops(): (d: Drops)
    ensures d.Total() == 0
  {
    Drops(0, 0, 0, 0, 0)
  }

  /** The drops after filtering some entries, before mapping. */
  function Filtered(d: Drops, entries: seq<Entry>, own: set<string>): Drops {
    if entries == [] then d
    else Filtered(d, entries[..|entries| - 1], own).Add(VerdictOf(entries[|entries| - 1], own))
  }

  datatype LearnedResult = LearnedResult(rows: seq<Row>, how: Option<PortMap>, dropped: Drops)

  /** `learned_rows`: the rows, how their ports were mapped when any were left to map, and
      the drop counters. */
  function Learned(entries: seq<Entry>, base: Column, ifaces: Ifaces, dropped: Drops): LearnedResult {
    var kept := Keep(entries, ifaces.own);
    var filtered := Filtered(dropped, entries, ifaces.own);
    if kept == [] then LearnedResult([], None, filtered)
    else
      var (mapping, how) := MapPorts(PortsOf(kept), base, ifaces);
      var rows := MapRows(kept, mapping);
      LearnedResult(rows, Some(how), filtered.(unmapped := filtered.unmapped + |kept| - |rows|))
  }

  method LearnedRows(entries: seq<Entry>, base: Column, ifaces: Ifaces, dropped0: Drops)
    returns (rows: seq<Row>, how: Option<PortMap>, dropped: Drops)
    ensures LearnedResult(rows, how, dropped) == Learned(entries, base, ifaces, dropped0)
  {
    hide DropReasonOf;
    hide MapPorts;
    dropped := dropped0;
    var keep: seq<Entry> := [];
    for n := 0 to |entries|
      invariant keep == Keep(entries[..n], ifaces.own)
      invariant dropped == Filtered(dropped0, entries[..n], ifaces.own)
    {
      assert entries[..n + 1][..n] == entries[..n];
      var entry := entries[n];
      if entry.status == "self" || entry.status == "invalid" {
        dropped := dropped.(self := dropped.self + 1);
        continue;
      }
      var reason := DropReasonOf(entry.mac, ifaces.own);
      if reason != Host {
        dropped := if reason == Group then dropped.(group := dropped.group + 1)
                   else dropped.(own := dropped.own + 1);
        continue;
      }
      if entry.bridgePort == None || entry.bridgePort == Some(0) {
        dropped := dropped.(port0 := dropped.port0 + 1);
        continue;
      }
      keep := keep + [entries[n]];
    }
    assert entries[..|entries|] == entries;
    rows := [];
    if keep == [] {
      return [], None, dropped;
    }
    var mapping, port := MapBridgePorts(PortsOf(keep), base, ifaces);
    ghost var filtered := dropped;
    for n := 0 to |keep|
      invariant rows == MapRows(keep[..n], mapping)
      invariant dropped == filtered.(unmapped := filtered.unmapped + n - |rows|)
    {
      assert keep[..n + 1][..n] == keep[..n];
      var r := RowOf(keep[n], mapping);
      if r.None? {
        dropped := dropped.(unmapped := dropped.unmapped + 1);
        continue;
      }
      rows := rows + [r.value];
    }
    assert keep[..|keep|] == keep;
    how := Some(port);
  }

  // ---- VLANs ----

  datatype VlanMap = NoVlanMap | FdbIdMap | AssumedMap | ContextMap

  /** A usable dot1qVlanFdbId row (index `timeMark.vlan`, value an FDB id). */
  predicate UsableUse(vlanFdb: Column, index: Oid) {
    index in vlanFdb && index != [] && ValidVlan(index[|index| - 1]) && Int(vlanFdb[index]).Some?
  }

  /** The VLANs that use an FDB id. */
  function Users(vlanFdb: Column, fid: int): set<int> {
    set index | index in vlanFdb && UsableUse(vlanFdb, index) && Int(vlanFdb[index]).value == fid ::
      index[|index| - 1]
  }

  /** `map_fdb_vlans`, for one FDB id of `ids`. */
  ghost function VlanFor(ids: set<nat>, vlanFdb: Column, named: set<int>, fid: nat): Option<int> {
    if exists index :: UsableUse(vlanFdb, index) then
      var users := Users(vlanFdb, fid);
      if |users| == 1 then
        var v :| v in users;
        Some(v)
      else None
    else if forall f | f in ids :: f != 0 && f in named then Some(fid)
    else None
  }

  ghost function HowVlans(ids: set<nat>, vlanFdb: Column, named: set<int>): VlanMap {
    if exists index :: UsableUse(vlanFdb, index) then FdbIdMap
    else if ids != {} && forall f | f in ids :: f != 0 && f in named then AssumedMap
    else NoVlanMap
  }

  lemma OneElement(s: set<int>, a: int, b: int)
    requires |s| == 1 && a in s && b in s
    ensures a == b
  {
    assert |s - {a}| == 0;
    assert s - {a} == {};
    assert b !in s - {a};
  }

  /** The users among some rows. */
  function UsersIn(vlanFdb: Column, rows: set<Oid>, fid: int): set<int> {
    set index | index in rows && UsableUse(vlanFdb, index) && Int(vlanFdb[index]).value == fid ::
      index[|index| - 1]
  }

  lemma UsersInMore(vlanFdb: Column, rows: set<Oid>, index: Oid, fid: int)
    ensures UsersIn(vlanFdb, rows + {index}, fid)
            == UsersIn(vlanFdb, rows, fid)
               + (if UsableUse(vlanFdb, index) && Int(vlanFdb[index]).value == fid
                  then {index[|index| - 1]} else {})
  {
    hide Int;
  }

  lemma UsersInNone(vlanFdb: Column)
    ensures forall f :: UsersIn(vlanFdb, {}, f) == {}
  {
  }

  lemma UsersInAll(vlanFdb: Column)
    ensures forall f :: UsersIn(vlanFdb, vlanFdb.Keys, f) == Users(vlanFdb, f)
  {
    hide Int;
  }

  function UsersAt(m: map<int, set<int>>, k: int): set<int> {
    if k in m then m[k] else {}
  }

  lemma UsersGrow(vlanFdb: Column, done: set<Oid>, index: Oid, before: map<int, set<int>>, users: map<int, set<int>>)
    requires forall f :: UsersAt(before, f) == UsersIn(vlanFdb, done, f)
    requires users == if UsableUse(vlanFdb, index) then
                        var fid := Int(vlanFdb[index]).value;
                        before[fid := UsersAt(before, fid) + {index[|index| - 1]}]
                      else before
    ensures forall f :: UsersAt(users, f) == UsersIn(vlanFdb, done + {index}, f)
  {
    hide Int;
    hide UsersIn;
    forall f ensures UsersAt(users, f) == UsersIn(vlanFdb, done + {index}, f) {
      UsersInMore(vlanFdb, done, index, f);
    }
  }

  /** The dict-building loop: FDB id to the VLANs that use it. */
  method GroupUsers(vlanFdb: Column) returns (users: map<int, set<int>>)
    ensures forall f :: UsersAt(users, f) == Users(vlanFdb, f)
    ensures forall f :: f in users ==> users[f] != {}
  {
    hide Int;
    hide UsersIn;
    hide Users;
    users := map[];
    var todo := vlanFdb.Keys;
    ghost var done: set<Oid> := {};
    UsersInNone(vlanFdb);
    while todo != {}
      invariant done + todo == vlanFdb.Keys
      invariant forall f :: UsersAt(users, f) == UsersIn(vlanFdb, done, f)
      invariant forall f :: f in users ==> users[f] != {}
      decreases |todo|
    {
      var index :| index in todo;
      ghost var before := users;
      if UsableUse(vlanFdb, index) {
        var fid := Int(vlanFdb[index]).value;
        users := users[fid := UsersAt(users, fid) + {index[|index| - 1]}];
      }
      UsersGrow(vlanFdb, done, index, before, users);
      todo := todo - {index};
      done := done + {index};
    }
    assert done == vlanFdb.Keys;
    UsersInAll(vlanFdb);
  }

  lemma SomeUse(vlanFdb: Column, users: map<int, set<int>>)
    requires forall f :: UsersAt(users, f) == Users(vlanFdb, f)
    requires forall f :: f in users ==> users[f] != {}
    ensures users != map[] <==> exists index :: UsableUse(vlanFdb, index)
  {
    hide Int;
    if users != map[] {
      assert (forall f :: f !in users) ==> users == map[];
      var f :| f in users;
      assert UsersAt(users, f) == Users(vlanFdb, f);
      var v :| v in Users(vlanFdb, f);
    }
    forall index | UsableUse(vlanFdb, index) ensures users != map[] {
      var f := Int(vlanFdb[index]).value;
      assert index[|index| - 1] in Users(vlanFdb, f);
      assert UsersAt(users, f) == Users(vlanFdb, f);
    }
  }

  method MapFdbVlans(ids: set<nat>, vlanFdb: Column, named0: set<int>)
    returns (vlanOf: map<nat, Option<int>>, how: VlanMap)
    ensures vlanOf.Keys == ids
    ensures forall f | f in ids :: vlanOf[f] == VlanFor(ids, vlanFdb, named0, f)
    ensures how == HowVlans(ids, vlanFdb, named0)
  {
    hide UsableUse;
    hide Users;
    var users := GroupUsers(vlanFdb);
    SomeUse(vlanFdb, users);
    if users != map[] {
      vlanOf := map f | f in ids :: if |UsersAt(users, f)| == 1 then Some(Pick(UsersAt(users, f))) else None;
      forall f | f in ids ensures vlanOf[f] == VlanFor(ids, vlanFdb, named0, f) {
        PickIsUser(ids, vlanFdb, named0, UsersAt(users, f), f);
      }
      return vlanOf, FdbIdMap;
    }
    var named := set v | v in named0 && v != 0;
    if ids != {} && forall f | f in ids :: f in named {
      return map f | f in ids :: Some(f as int), AssumedMap;
    }
    return map f | f in ids :: None, NoVlanMap;
  }

  lemma PickIsUser(ids: set<nat>, vlanFdb: Column, named: set<int>, users: set<int>, f: nat)
    requires users == Users(vlanFdb, f) && exists index :: UsableUse(vlanFdb, index)
    ensures VlanFor(ids, vlanFdb, named, f) == if |users| == 1 then Some(Pick(users)) else None
  {
    hide UsableUse;
    hide Users;
    if |users| == 1 {
      OneElement(users, Pick(users), VlanFor(ids, vlanFdb, named, f).value);
    }
  }

  /** `next(iter(s))` of a one-element set. */
  function Pick(s: set<int>): (v: int)
    requires |s| == 1
    ensures v in s
  {
    OnlyOne(s);
    var v :| v in s;
    v
  }

  lemma OnlyOne(s: set<int>)
    requires |s| == 1
    ensures exists v :: v in s
    ensures forall a, b :: a in s && b in s ==> a == b
  {
    assert s != {};
    forall a, b | a in s && b in s ensures a == b {
      OneElement(s, a, b);
    }
  }

  // ---- Logical units ----

  /** An active ifStackTable row `higher.lower` that names two interfaces. */
  predicate Stacked(stack: Column, index: Oid) {
    && index in stack && |index| >= 2
    && (Strip(stack[index]) == "1" || Strip(stack[index]) == "active")
    && index[0] != 0 && index[1..] != [0]
  }

  /** The ports a logical unit is stacked on. */
  function PortsBelow(stack: Column, ifaces: Ifaces, unit: string): set<string> {
    set index | index in stack && Stacked(stack, index) && Decimal(index[0]) == unit
                && ifaces.IsPort(Dotted(index[1..])) :: Dotted(index[1..])
  }

  /** A known interface that is no port itself and stands on exactly one. */
  predicate Folds(stack: Column, ifaces: Ifaces, unit: string) {
    ifaces.Known(unit) && !ifaces.IsPort(unit) && |PortsBelow(stack, ifaces, unit)| == 1
  }

  ghost predicate IsUnitPorts(stack: Column, ifaces: Ifaces, out: map<string, string>) {
    && (forall unit :: unit in out <==> Folds(stack, ifaces, unit))
    && (forall unit | unit in out :: PortsBelow(stack, ifaces, unit) == {out[unit]})
  }

  /** The lower interfaces of a unit among some rows. */
  function LowersIn(stack: Column, rows: set<Oid>, unit: string): set<string> {
    set index | index in rows && Stacked(stack, index) && Decimal(index[0]) == unit :: Dotted(index[1..])
  }

  lemma LowersInNone(stack: Column)
    ensures forall unit :: LowersIn(stack, {}, unit) == {}
  {
  }

  function LowersAt(m: map<string, set<string>>, unit: string): set<string> {
    if unit in m then m[unit] else {}
  }

  lemma LowersInMore(stack: Column, rows: set<Oid>, index: Oid, unit: string)
    ensures LowersIn(stack, rows + {index}, unit)
            == LowersIn(stack, rows, unit)
               + (if Stacked(stack, index) && Decimal(index[0]) == unit then {Dotted(index[1..])} else {})
  {
    hide Strip;
    hide Decimal;
    hide Dotted;
  }

  lemma LowersGrow(stack: Column, done: set<Oid>, index: Oid, before: map<string, set<string>>,
                   lowers: map<string, set<string>>)
    requires forall unit :: LowersAt(before, unit) == LowersIn(stack, done, unit)
    requires lowers == if Stacked(stack, index) then
                         var higher := Decimal(index[0]);
                         before[higher := LowersAt(before, higher) + {Dotted(index[1..])}]
                       else before
    ensures forall unit :: LowersAt(lowers, unit) == LowersIn(stack, done + {index}, unit)
  {
    hide Strip;
    hide Decimal;
    hide Dotted;
    hide LowersIn;
    forall unit ensures LowersAt(lowers, unit) == LowersIn(stack, done + {index}, unit) {
      LowersInMore(stack, done, index, unit);
    }
  }

  /** The dict-building loop: unit to the interfaces it stands on. */
  method GroupLowers(stack: Column) returns (lowers: map<string, set<string>>)
    ensures forall unit :: LowersAt(lowers, unit) == LowersIn(stack, stack.Keys, unit)
  {
    hide Strip;
    hide Decimal;
    hide Dotted;
    hide LowersIn;
    LowersInNone(stack);
    lowers := map[];
    var todo := stack.Keys;
    ghost var done: set<Oid> := {};
    while todo != {}
      invariant done + todo == stack.Keys
      invariant forall unit :: LowersAt(lowers, unit) == LowersIn(stack, done, unit)
      decreases |todo|
    {
      var index :| index in todo;
      ghost var before := lowers;
      if Stacked(stack, index) {
        var higher, lower := Decimal(index[0]), Dotted(index[1..]);
        lowers := lowers[higher := LowersAt(lowers, higher) + {lower}];
      }
      LowersGrow(stack, done, index, before, lowers);
      todo := todo - {index};
      done := done + {index};
    }
    assert done == stack.Keys;
  }

  method UnitPorts(stack: Column, ifaces: Ifaces) returns (out: map<string, string>)
    ensures IsUnitPorts(stack, ifaces, out)
  {
    hide Stacked;
    var lowers := GroupLowers(stack);
    out := map[];
    var todo := lowers.Keys;
    while todo != {}
      invariant todo <= lowers.Keys
      invariant forall unit :: unit in out <==> unit in lowers && unit !in todo && Folds(stack, ifaces, unit)
      invariant forall unit | unit in out :: PortsBelow(stack, ifaces, unit) == {out[unit]}
      decreases |todo|
    {
      hide IsUnitPorts;
      var higher :| higher in todo;
      assert LowersAt(lowers, higher) == LowersIn(stack, stack.Keys, higher);
      var physical := set l | l in lowers[higher] && ifaces.IsPort(l);
      assert physical == PortsBelow(stack, ifaces, higher);
      if ifaces.Known(higher) && !ifaces.IsPort(higher) && |physical| == 1 {
        OneText(physical);
        var l :| l in physical;
        out := out[higher := l];
      }
      todo := todo - {higher};
    }
    forall unit | Folds(stack, ifaces, unit) ensures unit in lowers {
      assert LowersAt(lowers, unit) == LowersIn(stack, stack.Keys, unit);
      assert PortsBelow(stack, ifaces, unit) <= LowersAt(lowers, unit);
    }
  }

  lemma OneText(s: set<string>)
    requires |s| == 1
    ensures exists l :: l in s
    ensures forall l | l in s :: s == {l}
  {
    assert s != {};
    forall l | l in s ensures s == {l} {
      assert |s - {l}| == 0;
      assert s - {l} == {};
    }
  }

  function Fold(out: map<string, string>, index: string): string {
    if index in out then out[index] else index
  }

  function FoldRows(rows: seq<Row>, out: map<string, string>): (folded: seq<Row>)
    ensures |folded| == |rows|
    ensures forall i :: 0 <= i < |rows| ==> folded[i] == rows[i].(ifIndex := Fold(out, rows[i].ifIndex))
  {
    seq(|rows|, i requires 0 <= i < |rows| => rows[i].(ifIndex := Fold(out, rows[i].ifIndex)))
  }

  // ---- Deduplication ----

  type Key = (Option<int>, string, string)

  function KeyOf(r: Row): Key {
    (r.vlan, r.mac, r.ifIndex)
  }

  function KeysOf(rows: seq<Row>): set<Key> {
    set r | r in rows :: KeyOf(r)
  }

  function FirstOnly(rows: seq<Row>): seq<Row> {
    if rows == [] then []
    else
      var front, last := rows[..|rows| - 1], rows[|rows| - 1];
      if KeyOf(last) in KeysOf(front) then FirstOnly(front) else FirstOnly(front) + [last]
  }

  method Deduplicate(rows: seq<Row>) returns (unique: seq<Row>)
    ensures unique == FirstOnly(rows)
  {
    unique := [];
    var seen: set<Key> := {};
    for n := 0 to |rows|
      invariant unique == FirstOnly(rows[..n])
      invariant seen == KeysOf(rows[..n])
    {
      assert rows[..n + 1] == rows[..n] + [rows[n]];
      var key := KeyOf(rows[n]);
      KeysOfMore(rows[..n], rows[n]);
      if key !in seen {
        seen := seen + {key};
        unique := unique + [rows[n]];
      }
    }
    assert rows[..|rows|] == rows;
  }

  lemma KeysOfMore(rows: seq<Row>, r: Row)
    ensures KeysOf(rows + [r]) == KeysOf(rows) + {KeyOf(r)}
  {
    assert forall x :: x in rows + [r] <==> x in rows || x == r;
  }
}
