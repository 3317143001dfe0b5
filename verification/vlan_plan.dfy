/** Which VLANs have a context of their own, and which of them are read. */
module VlanPlan {
  import opened Oids
  import opened Text
  import opened Mac
  import opened Fdb

  /** VLAN ids 1002 to 1005 are reserved. */
  predicate Plannable(v: int) {
    ValidVlan(v) && !(1002 <= v <= 1005)
  }

  lemma {:induction false} HasLeast(s: set<int>, x: int)
    requires x in s
    ensures exists m :: m in s && forall y | y in s :: m <= y
    decreases |s|
  {
    if y :| y in s && y < x {
      var rest := s - {x};
      HasLeast(rest, y);
      var m :| m in rest && forall z | z in rest :: m <= z;
      forall z | z in s ensures m <= z {
        assert z == x || z in rest;
      }
      assert m in s;
    }
  }

  lemma LeastIsUnique(s: set<int>)
    ensures forall a, b | a in s && b in s && (forall x | x in s :: a <= x) && (forall x | x in s :: b <= x) :: a == b
  {
  }

  function Least(s: set<int>): (m: int)
    requires s != {}
    ensures m in s && forall x | x in s :: m <= x
  {
    assert (forall x :: x !in s) ==> s == {};
    ghost var some :| some in s;
    HasLeast(s, some);
    LeastIsUnique(s);
    var m :| m in s && forall x | x in s :: m <= x;
    m
  }

  /** `sorted` of a set. */
  function Ascending(s: set<int>): seq<int>
    decreases |s|
  {
    if s == {} then [] else [Least(s)] + Ascending(s - {Least(s)})
  }

  predicate Rising(list: seq<int>) {
    forall i, j :: 0 <= i < j < |list| ==> list[i] < list[j]
  }

  lemma {:induction false} AscendingMeaning(s: set<int>)
    ensures Rising(Ascending(s)) && |Ascending(s)| == |s|
    ensures forall v :: v in Ascending(s) <==> v in s
    decreases |s|
  {
    if s != {} {
      var m, rest := Least(s), s - {Least(s)};
      AscendingMeaning(rest);
      forall i | 0 <= i < |Ascending(rest)| ensures m < Ascending(rest)[i] {
        assert Ascending(rest)[i] in rest;
      }
    }
  }

  function PlannableOf(vlans: seq<int>): set<int> {
    set v | v in vlans && Plannable(v)
  }

  /** `plan_context_vlans`: the VLANs to read, and those over the cap. */
  function Plan(vlans: seq<int>, most: nat): (seq<int>, seq<int>) {
    var clean := Ascending(PlannableOf(vlans));
    if |clean| <= most then (clean, []) else (clean[..most], clean[most..])
  }

  /** The plan splits the plannable VLANs in two: what is read is ascending, no longer than the
      cap, and below everything left out. */
  lemma PlanMeaning(vlans: seq<int>, most: nat)
    ensures var (toRead, over) := Plan(vlans, most);
            && Rising(toRead) && Rising(over) && |toRead| <= most && (over != [] ==> |toRead| == most)
            && (forall v :: v in toRead || v in over <==>
                  v in vlans && 1 <= v <= 4094 && v !in {1002, 1003, 1004, 1005})
            && (forall v, w :: v in toRead && w in over ==> v < w)
  {
    hide Ascending;
    hide PlannableOf;
    PlannableMeaning(vlans);
    AscendingMeaning(PlannableOf(vlans));
    var clean := Ascending(PlannableOf(vlans));
    if |clean| > most {
      SplitRising(clean, most);
    }
  }

  lemma PlanIsPlannable(vlans: seq<int>, most: nat)
    ensures var (toRead, over) := Plan(vlans, most);
            forall v | v in toRead || v in over :: Plannable(v)
  {
    hide Plan;
    PlanMeaning(vlans, most);
  }

  lemma PlannableMeaning(vlans: seq<int>)
    ensures forall v :: v in PlannableOf(vlans) <==> v in vlans && Plannable(v)
  {
  }

  lemma SplitRising(list: seq<int>, n: nat)
    requires Rising(list) && n <= |list|
    ensures Rising(list[..n]) && Rising(list[n..])
    ensures forall v :: v in list[..n] || v in list[n..] <==> v in list
    ensures forall v, w :: v in list[..n] && w in list[n..] ==> v < w
  {
    assert list == list[..n] + list[n..];
    forall v, w | v in list[..n] && w in list[n..] ensures v < w {
      var i :| 0 <= i < n && list[..n][i] == v;
      var j :| 0 <= j < |list| - n && list[n..][j] == w;
      assert list[i] < list[n + j];
    }
  }

  /** `parse_vtp_vlans`: an operational VLAN of a valid id, from rows `domain.vlan`. */
  function VtpVlans(states: Column): seq<int> {
    Ascending(set index | index in states && index != [] && ValidVlan(index[|index| - 1])
                          && (Lower(Strip(states[index])) == "1" || Lower(Strip(states[index])) == "operational") ::
                index[|index| - 1])
  }

  /** An operational VLAN: a row that ends in it says so. */
  ghost predicate Operational(states: Column, v: int) {
    && 1 <= v <= 4094
    && exists front: Oid :: front + [v] in states && Lower(Strip(states[front + [v]])) in {"1", "operational"}
  }

  ghost predicate OperationalVlans(states: Column, vlans: seq<int>) {
    Rising(vlans) && forall v :: v in vlans <==> Operational(states, v)
  }

  /** A row that says its VLAN is operational. */
  ghost predicate Says(states: Column, index: Oid, v: int) {
    && index in states && index != [] && index[|index| - 1] == v
    && (Lower(Strip(states[index])) == "1" || Lower(Strip(states[index])) == "operational")
  }

  lemma SaysOperational(states: Column, v: int)
    ensures (1 <= v <= 4094 && exists index :: Says(states, index, v)) <==> Operational(states, v)
  {
    hide Lower;
    hide Strip;
    if index :| Says(states, index, v) {
      assert index[..|index| - 1] + [v] == index;
    }
    if front: Oid :| front + [v] in states && Lower(Strip(states[front + [v]])) in {"1", "operational"} {
      assert Says(states, front + [v], v);
    }
  }

  /** The VLANs of vtpVlanState are the operational ones, ascending, each once. */
  lemma VtpMeaning(states: Column)
    ensures OperationalVlans(states, VtpVlans(states))
  {
    hide Lower;
    hide Strip;
    hide Operational;
    hide Ascending;
    var found := set index | index in states && index != [] && ValidVlan(index[|index| - 1])
                             && (Lower(Strip(states[index])) == "1" || Lower(Strip(states[index])) == "operational") ::
                   index[|index| - 1];
    AscendingMeaning(found);
    forall v ensures v in found <==> Operational(states, v) {
      SaysOperational(states, v);
      if v in found {
        var index :| index in states && index != [] && index[|index| - 1] == v
                     && (Lower(Strip(states[index])) == "1" || Lower(Strip(states[index])) == "operational");
        assert Says(states, index, v);
      }
    }
  }
}
