/** What the filter and the attributions mean, said of octets, sub-identifiers and cells. */
module FdbMeaning {
  import opened Oids
  import opened Text
  import opened Mac
  import opened Walk
  import opened Fdb
  import opened FdbProofs

  // ---- The filter ----

  /** An address whose first octet has the group bit, or that is all zeroes. */
  predicate GroupOctets(o: Octets)
    requires IsMac(o)
  {
    o[0] % 2 == 1 || forall k :: 0 <= k < 6 ==> o[k] == 0
  }

  predicate OnNoPort(e: Entry) {
    e.bridgePort == None || e.bridgePort == Some(0)
  }

  lemma DropReasonOfNorm(mac: string, o: Octets, own: set<string>)
    requires IsMac(o) && NormMac(mac) == Canon(o)
    ensures DropReasonOf(mac, own)
            == if GroupOctets(o) then Group else if Canon(o) in own then DropReason.Own else Host
  {
    hide NormMac;
    hide Canon;
    hide FirstOctet;
    NormOfCanon(o);
    DropReasonMeaning(o, own);
  }

  /** Where an entry with an address ends up: self and invalid entries first, then group and zero
      addresses, then the device's own, then entries on no port; the rest is kept. */
  lemma VerdictMeaning(e: Entry, own: set<string>, o: Octets)
    requires IsMac(o) && NormMac(e.mac) == Canon(o)
    ensures VerdictOf(e, own) == SelfRow <==> e.status in {"self", "invalid"}
    ensures VerdictOf(e, own) == GroupRow <==> e.status !in {"self", "invalid"} && GroupOctets(o)
    ensures VerdictOf(e, own) == OwnRow <==>
              e.status !in {"self", "invalid"} && !GroupOctets(o) && Canon(o) in own
    ensures VerdictOf(e, own) == PortZero <==>
              e.status !in {"self", "invalid"} && !GroupOctets(o) && Canon(o) !in own && OnNoPort(e)
    ensures VerdictOf(e, own) == Kept <==>
              e.status !in {"self", "invalid"} && !GroupOctets(o) && Canon(o) !in own && !OnNoPort(e)
  {
    hide NormMac;
    hide Canon;
    hide DropReasonOf;
    hide GroupOctets;
    DropReasonOfNorm(e.mac, o, own);
  }

  /** An entry without an address goes with the group addresses. */
  lemma NoAddressVerdict(e: Entry, own: set<string>)
    requires NormMac(e.mac) == ""
    ensures VerdictOf(e, own) == if e.status in {"self", "invalid"} then SelfRow else GroupRow
  {
    hide NormMac;
  }

  /** Exactly the learned hosts on a port pass the filter. */
  lemma KeepMeaning(entries: seq<Entry>, own: set<string>, e: Entry, o: Octets)
    requires IsMac(o) && e.mac == Canon(o)
    ensures e in Keep(entries, own) <==>
              && e in entries && e.status != "self" && e.status != "invalid"
              && o[0] % 2 == 0 && (exists k :: 0 <= k < 6 && o[k] != 0) && Canon(o) !in own
              && e.bridgePort.Some? && e.bridgePort.value != 0
  {
    hide VerdictOf;
    hide NormMac;
    hide Canon;
    NormOfCanon(o);
    VerdictMeaning(e, own, o);
  }

  /** An entry with the address `o` of a host that is not the device itself, on a port, and neither
      self nor invalid. */
  ghost predicate HostOn(e: Entry, own: set<string>, o: Octets) {
    && IsMac(o) && e.mac == Canon(o)
    && e.status != "self" && e.status != "invalid"
    && o[0] % 2 == 0 && (exists k :: 0 <= k < 6 && o[k] != 0) && Canon(o) !in own
    && e.bridgePort.Some? && e.bridgePort.value != 0
  }

  /** A learned row is a host of the table on a port that is attributed to its interface, with the
      entry's own data; and every such host is a row. */
  lemma LearnedMeaning(entries: seq<Entry>, base: Column, ifaces: Ifaces, dropped: Drops, r: Row)
    requires forall e | e in entries :: exists o :: IsMac(o) && e.mac == Canon(o)
    ensures var ports := PortsOf(Keep(entries, ifaces.own));
            r in Learned(entries, base, ifaces, dropped).rows
            <==> exists e, o ::
                   && e in entries && HostOn(e, ifaces.own, o)
                   && PortMeans(ports, base, ifaces, e.bridgePort.value, r.ifIndex)
                   && r.mac == Canon(o) && r.vlan == e.vlan && r.fdbId == e.fdbId
                   && r.bridgePort == e.bridgePort.value && r.status == e.status
  {
    hide VerdictOf;
    hide Canon;
    hide PortMeans;
    hide MapPorts;
    hide Learned;
    hide PortsOf;
    var kept := Keep(entries, ifaces.own);
    var ports := PortsOf(kept);
    var mapping := MapPorts(ports, base, ifaces).0;
    LearnedExactly(entries, base, ifaces, dropped, r);
    if r in Learned(entries, base, ifaces, dropped).rows {
      var e :| e in entries && VerdictOf(e, ifaces.own) == Kept && RowOf(e, mapping) == Some(r);
      var o :| IsMac(o) && e.mac == Canon(o);
      KeepMeaning(entries, ifaces.own, e, o);
      PortOfKept(kept, e);
      MapPortsMeaning(ports, base, ifaces, e.bridgePort.value, r.ifIndex);
      assert HostOn(e, ifaces.own, o);
    }
    forall e, o | && e in entries && HostOn(e, ifaces.own, o)
                  && PortMeans(ports, base, ifaces, e.bridgePort.value, r.ifIndex)
                  && r.mac == Canon(o) && r.vlan == e.vlan && r.fdbId == e.fdbId
                  && r.bridgePort == e.bridgePort.value && r.status == e.status
      ensures r in Learned(entries, base, ifaces, dropped).rows
    {
      KeepMeaning(entries, ifaces.own, e, o);
      PortOfKept(kept, e);
      MapPortsMeaning(ports, base, ifaces, e.bridgePort.value, r.ifIndex);
      assert RowOf(e, mapping) == Some(r);
    }
  }

  lemma PortOfKept(kept: seq<Entry>, e: Entry)
    requires e in kept && e.bridgePort.Some?
    ensures e.bridgePort.value in PortsOf(kept)
  {
  }

  /** The filter goes entry by entry: the next one is kept, or is counted under its reason. */
  lemma FilterOne(d: Drops, entries: seq<Entry>, own: set<string>, e: Entry, o: Octets)
    requires IsMac(o) && e.mac == Canon(o)
    ensures var before := Filtered(d, entries, own);
            if e.status in {"self", "invalid"} then
              Keep(entries + [e], own) == Keep(entries, own)
              && Filtered(d, entries + [e], own) == before.(self := before.self + 1)
            else if GroupOctets(o) then
              Keep(entries + [e], own) == Keep(entries, own)
              && Filtered(d, entries + [e], own) == before.(group := before.group + 1)
            else if Canon(o) in own then
              Keep(entries + [e], own) == Keep(entries, own)
              && Filtered(d, entries + [e], own) == before.(own := before.own + 1)
            else if OnNoPort(e) then
              Keep(entries + [e], own) == Keep(entries, own)
              && Filtered(d, entries + [e], own) == before.(port0 := before.port0 + 1)
            else
              Keep(entries + [e], own) == Keep(entries, own) + [e]
              && Filtered(d, entries + [e], own) == before
    ensures Keep([], own) == [] && Filtered(d, [], own) == d
  {
    hide VerdictOf;
    hide NormMac;
    hide Canon;
    hide GroupOctets;
    assert (entries + [e])[..|entries|] == entries;
    NormOfCanon(o);
    VerdictMeaning(e, own, o);
  }

  // ---- The interfaces ----

  /** The last row of an interface says what it is. */
  ghost predicate LastRow(rows: seq<IfaceRow>, i: nat, index: string) {
    && i < |rows| && index != "" && Strip(rows[i].index) == index
    && forall j :: i < j < |rows| ==> Strip(rows[j].index) != index
  }

  lemma {:induction false} IfaceTypes(rows: seq<IfaceRow>, index: string)
    ensures IfacesFrom(rows).Known(index) <==> exists i: nat :: LastRow(rows, i, index)
    ensures forall i: nat | LastRow(rows, i, index) ::
              IfacesFrom(rows).types[index] == (Strip(rows[i].ifType), Strip(rows[i].typeName))
  {
    hide NormMac;
    hide Strip;
    hide Int;
    if rows != [] {
      var front, n := rows[..|rows| - 1], |rows| - 1;
      IfaceTypes(front, index);
      if Strip(rows[n].index) == index {
        assert index != "" ==> LastRow(rows, n, index);
      } else {
        forall i: nat ensures LastRow(rows, i, index) <==> LastRow(front, i, index) {
          LastOfFront(rows, i, index);
        }
      }
    }
  }

  lemma LastOfFront(rows: seq<IfaceRow>, i: nat, index: string)
    requires rows != [] && Strip(rows[|rows| - 1].index) != index
    ensures LastRow(rows, i, index) <==> LastRow(rows[..|rows| - 1], i, index)
  {
    hide Strip;
    var front := rows[..|rows| - 1];
    assert forall j :: 0 <= j < |front| ==> front[j] == rows[j];
    if LastRow(front, i, index) {
      forall j | i < j < |rows| ensures Strip(rows[j].index) != index {
        assert j < |front| ==> front[j] == rows[j];
      }
    }
  }

  /** A port is what its last row calls ethernet or lag, or gives one of these types. */
  lemma PortMeaning(rows: seq<IfaceRow>, i: nat, index: string)
    requires LastRow(rows, i, index)
    ensures IfacesFrom(rows).IsPort(index) <==>
              || Strip(rows[i].typeName) == "ethernet" || Strip(rows[i].typeName) == "lag"
              || Strip(rows[i].ifType) in ["6", "7", "26", "62", "69", "117", "161"]
              || Strip(rows[i].ifType) in ["ethernetCsmacd", "gigabitEthernet", "fastEther", "ieee8023adLag"]
  {
    hide Strip;
    hide IfacesFrom;
    IfaceTypes(rows, index);
  }

  lemma NoPort(rows: seq<IfaceRow>, index: string)
    requires !IfacesFrom(rows).Known(index)
    ensures !IfacesFrom(rows).IsPort(index)
  {
    hide IfacesFrom;
  }

  ghost predicate HasPvid(rows: seq<IfaceRow>, i: nat, v: int) {
    i < |rows| && Strip(rows[i].index) != "" && Int(rows[i].vlan) == Some(v) && 1 <= v <= 4094
  }

  /** The interfaces' own VLANs are the valid ones their rows give. */
  lemma {:induction false} PvidMeaning(rows: seq<IfaceRow>, v: int)
    ensures v in IfacesFrom(rows).pvids <==> exists i: nat :: HasPvid(rows, i, v)
  {
    hide NormMac;
    hide Strip;
    hide Int;
    if rows != [] {
      var front, n := rows[..|rows| - 1], |rows| - 1;
      PvidMeaning(front, v);
      assert forall i: nat | i < n :: HasPvid(rows, i, v) <==> HasPvid(front, i, v);
      assert HasPvid(rows, n, v) ==> v in IfacesFrom(rows).pvids;
    }
  }

  // ---- Statuses, rows and entries ----

  /** What a status is called: its number's name, or the name itself in any case. */
  ghost predicate Called(text: string, number: string, name: string) {
    text == number || Lower(text) == name
  }

  lemma StatusNames(name: string)
    ensures name in STATUS_NAMES.Values <==> name in {"other", "invalid", "learned", "self", "mgmt"}
  {
    assert STATUS_NAMES["1"] == "other" && STATUS_NAMES["2"] == "invalid" && STATUS_NAMES["3"] == "learned";
    assert STATUS_NAMES["4"] == "self" && STATUS_NAMES["5"] == "mgmt";
  }

  /** A status cell is read by its number or by its name; anything else but nothing is `other`. */
  lemma StatusMeaning(raw: Option<string>)
    ensures var text := if raw.None? then "" else Strip(raw.value);
            && (text == "" <==> FdbStatus(raw) == "")
            && (Called(text, "2", "invalid") <==> FdbStatus(raw) == "invalid")
            && (Called(text, "3", "learned") <==> FdbStatus(raw) == "learned")
            && (Called(text, "4", "self") <==> FdbStatus(raw) == "self")
            && (Called(text, "5", "mgmt") <==> FdbStatus(raw) == "mgmt")
            && FdbStatus(raw) in {"", "other", "invalid", "learned", "self", "mgmt"}
  {
    hide Strip;
    var text := if raw.None? then "" else Strip(raw.value);
    StatusNames(Lower(text));
    assert |Lower(text)| == |text|;
  }

  /** Rows are parsed one by one and in their order. */
  lemma ParseOne(t: Table, order: seq<Oid>, index: Oid, qbridge: bool)
    ensures var e := EntryOf(t, index, qbridge);
            ParseRows(t, order + [index], qbridge)
            == ParseRows(t, order, qbridge) + if e.Some? then [e.value] else []
    ensures ParseRows(t, [], qbridge) == []
  {
    hide EntryOf;
    assert (order + [index])[..|order|] == order;
  }
}
