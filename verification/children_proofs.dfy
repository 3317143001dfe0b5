/** When the subtree-skipping enumeration is exact. */
module ChildrenProofs {
  import opened Oids
  import opened Agent
  import opened Children

  /** A child's instances against the probe of child `c`. */
  lemma AroundProbe(base: Oid, c: nat, o: Oid)
    requires Under(base, o) && Legal(o)
    ensures o[|base|] < c ==> Less(o, base + [c, MAX_SUB])
    ensures o[|base|] > c ==> Less(base + [c, MAX_SUB], o)
    ensures o[|base|] == c && !Under(base + [c, MAX_SUB], o) ==> AtMost(o, base + [c, MAX_SUB])
    ensures Under(base + [c, MAX_SUB], o) ==> o[|base|] == c
  {
    var index := Index(base, o);
    var probe := [c, MAX_SUB];
    LessBehind(base, index, probe);
    LessBehind(base, probe, index);
    assert base + index == o && index[0] == o[|base|];
    if Under(base + probe, o) {
      assert o[..|base| + 2] == base + probe;
      assert o[|base|] == (base + probe)[|base|];
    }
    if index[0] == c && |index| >= 2 {
      assert index[1] == o[|base| + 1] <= MAX_SUB;
      assert index[1..][0] == index[1] && probe[1..] == [MAX_SUB];
      if index[1] == MAX_SUB && |index| > 2 {
        assert o[..|base| + 2] == base + probe;
      } else if index[1] == MAX_SUB {
        assert index == probe;
      }
    } else if index[0] == c {
      assert index[1..] == [];
    }
  }

  /** From a good listing whose last child is clean, GETNEXT finds the least instance of the
      next child, or what follows the subtree. */
  lemma NextChild(mib: Mib, base: Oid, out: seq<Child>, b: Bind)
    requires LegalMib(mib) && Segment(mib, base, out)
    requires out != [] ==> Clean(mib, base, out[|out| - 1].sub)
    requires IsNext(mib, Probe(base, out), b.name) && b.value == Val(mib[b.name])
    ensures if Under(base, b.name) then Segment(mib, base, out + [ChildAt(base, b)])
            else forall k | k in Kids(mib, base) :: k in Subs(out)
  {
    var probe := Probe(base, out);
    assert LeastBeyond(mib, base, out, b.name) by { NextIsLeast(mib, base, out, b.name); }
    if Under(base, b.name) {
      NextChildListed(mib, base, out, b);
    } else {
      forall k | k in Kids(mib, base) ensures k in Subs(out) {
        var o :| o in mib && Under(base, o) && o[|base|] == k;
        if k !in Subs(out) {
          BeyondListed(mib, base, out, k);
          ProbeAboveBase(base, out);
          AtMostLess(base, probe, b.name);
          PastSubtree(base, o, b.name);
          LessAsymmetric(o, b.name);
        }
      }
    }
  }

  lemma NextIsLeast(mib: Mib, base: Oid, out: seq<Child>, next: Oid)
    requires LegalMib(mib) && IsNext(mib, Probe(base, out), next)
    ensures LeastBeyond(mib, base, out, next)
  {
    forall o | o in mib && Under(base, o) && (out == [] || o[|base|] > out[|out| - 1].sub)
      ensures AtMost(next, o)
    {
      if out == [] {
        UnderIsAbove(base, o);
      } else {
        AroundProbe(base, out[|out| - 1].sub, o);
      }
    }
  }

  lemma ProbeAboveBase(base: Oid, out: seq<Child>)
    ensures AtMost(base, Probe(base, out))
    ensures out != [] ==> Under(base, Probe(base, out)) && Probe(base, out)[|base|] == out[|out| - 1].sub
  {
    if out != [] {
      assert Under(base, Probe(base, out));
      UnderIsAbove(base, Probe(base, out));
    }
  }

  /** A child that a good listing lacks lies beyond its last entry. */
  lemma BeyondListed(mib: Mib, base: Oid, out: seq<Child>, k: nat)
    requires Segment(mib, base, out) && k in Kids(mib, base) && k !in Subs(out)
    ensures out == [] || k > out[|out| - 1].sub
  {
    if out != [] {
      assert out[|out| - 1].sub in Subs(out);
    }
  }

  lemma SubsGrow(out: seq<Child>, c: Child)
    ensures Subs(out + [c]) == Subs(out) + {c.sub}
  {
    forall k | k in Subs(out) + {c.sub} ensures k in Subs(out + [c]) {
      if k in Subs(out) {
        var i :| 0 <= i < |out| && out[i].sub == k;
        assert (out + [c])[i].sub == k;
      } else {
        assert (out + [c])[|out|].sub == k;
      }
    }
  }

  ghost predicate LeastBeyond(mib: Mib, base: Oid, out: seq<Child>, o: Oid) {
    forall p {:trigger Under(base, p)} |
      p in mib && Under(base, p) && (out == [] || p[|base|] > out[|out| - 1].sub) :: AtMost(o, p)
  }

  /** Nothing is passed over between the last child and the next one found. */
  lemma NothingBetween(mib: Mib, base: Oid, out: seq<Child>, name: Oid, k: nat)
    requires Segment(mib, base, out) && Under(base, name) && LeastBeyond(mib, base, out, name)
    requires k in Kids(mib, base) && k !in Subs(out)
    ensures name[|base|] <= k
  {
    BeyondListed(mib, base, out, k);
    var o :| o in mib && Under(base, o) && o[|base|] == k;
    if k < name[|base|] {
      LessBehind(base, Index(base, o), Index(base, name));
      LessAsymmetric(o, name);
    }
  }

  lemma NextIsGreater(mib: Mib, base: Oid, out: seq<Child>, b: Bind)
    requires LegalMib(mib) && out != [] && Clean(mib, base, out[|out| - 1].sub)
    requires b.name in mib && Under(base, b.name) && Less(Probe(base, out), b.name)
    ensures b.name[|base|] > out[|out| - 1].sub
  {
    var last := out[|out| - 1].sub;
    AroundProbe(base, last, b.name);
    LessAsymmetric(Probe(base, out), b.name);
  }

  lemma NextIsTrue(mib: Mib, base: Oid, out: seq<Child>, b: Bind)
    requires b.name in mib && b.value == Val(mib[b.name]) && Under(base, b.name)
    requires LeastBeyond(mib, base, out, b.name)
    requires out != [] ==> b.name[|base|] > out[|out| - 1].sub
    ensures TrueChild(mib, base, ChildAt(base, b))
  {
  }

  lemma NextChildListed(mib: Mib, base: Oid, out: seq<Child>, b: Bind)
    requires LegalMib(mib) && Segment(mib, base, out)
    requires out != [] ==> Clean(mib, base, out[|out| - 1].sub)
    requires IsNext(mib, Probe(base, out), b.name) && b.value == Val(mib[b.name])
    requires Under(base, b.name) && LeastBeyond(mib, base, out, b.name)
    ensures Segment(mib, base, out + [ChildAt(base, b)])
  {
    hide AtMost;
    hide LeastBeyond;
    hide TrueChild;
    hide Clean;
    hide LegalMib;
    var c := ChildAt(base, b);
    var out' := out + [c];
    if out != [] {
      NextIsGreater(mib, base, out, b);
    }
    NextIsTrue(mib, base, out, b);
    SubsGrow(out, c);
    forall k, i | k in Kids(mib, base) && 0 <= i < |out'| && k < out'[i].sub ensures k in Subs(out') {
      if k !in Subs(out) {
        NothingBetween(mib, base, out, b.name, k);
      }
    }
  }

  // ---- Whole listings ----

  /** A partial listing only grows. */
  lemma {:induction false} BrowseExtends(agent: Browsed, base: Oid, limit: int, out: seq<Child>)
    ensures var r := Browse(agent, base, limit, out);
            if r.Listed? then out <= r.children
            else (out == [] && agent(0, base) == Refused) || exists n, p :: agent(n, p).Raised?
    decreases limit - |out|
  {
    if |out| < limit {
      var answer := agent(|out|, Probe(base, out));
      if answer.Found? && Under(base, answer.bind.name) {
        var next := out + [ChildAt(base, answer.bind)];
        BrowseExtends(agent, base, limit, next);
        assert out <= next;
      }
    }
  }

  /** The MIB has no instance past the probe: every child is already listed. */
  lemma AllListed(mib: Mib, base: Oid, out: seq<Child>)
    requires LegalMib(mib) && Segment(mib, base, out) && AtEnd(mib, Probe(base, out))
    ensures forall k | k in Kids(mib, base) :: k in Subs(out)
  {
    forall k | k in Kids(mib, base) ensures k in Subs(out) {
      var o :| o in mib && Under(base, o) && o[|base|] == k;
      if k !in Subs(out) {
        BeyondListed(mib, base, out, k);
        if out == [] {
          UnderIsAbove(base, o);
        } else {
          AroundProbe(base, out[|out| - 1].sub, o);
        }
      }
    }
  }

  /** Past the subtree there is more to find, so the end of the MIB is not met. */
  lemma BeyondProbe(mib: Mib, base: Oid, out: seq<Child>)
    requires Beyond(mib, base)
    ensures !AtEnd(mib, Probe(base, out))
  {
    var o :| o in mib && Less(base, o) && !Under(base, o);
    ProbeAboveBase(base, out);
    if out != [] {
      PastSubtree(base, Probe(base, out), o);
    }
  }

  // ---- The exact condition ----

  function UpTo(kids: set<nat>, k: nat): set<nat> {
    set c | c in kids && c <= k
  }

  /** The children from `from` on that are listed and probed past are clean. */
  ghost predicate CleanAhead(mib: Mib, base: Oid, limit: int, from: nat) {
    forall k | k in Kids(mib, base) && from <= k && |UpTo(Kids(mib, base), k)| < limit :: Clean(mib, base, k)
  }

  /** The end of the MIB is behind the subtree, or no probe gets that far. */
  ghost predicate EndAway(mib: Mib, base: Oid, limit: int) {
    Kids(mib, base) == {} || limit <= |Kids(mib, base)| || Beyond(mib, base)
  }

  ghost predicate Listable(mib: Mib, base: Oid, limit: int, from: nat) {
    CleanAhead(mib, base, limit, from) && EndAway(mib, base, limit)
  }

  lemma {:induction false} SubsCount(out: seq<Child>)
    requires forall i, j | 0 <= i < j < |out| :: out[i].sub < out[j].sub
    ensures |Subs(out)| == |out|
  {
    if out != [] {
      var front, top := out[..|out| - 1], out[|out| - 1];
      SubsCount(front);
      assert forall k | k in Subs(front) :: k < top.sub;
      assert front + [top] == out;
      assert Subs(out) == Subs(front) + {top.sub} by { SubsGrow(front, top); }
    } else {
      assert Subs(out) == {};
    }
  }

  lemma SubsAreUpTo(mib: Mib, base: Oid, out: seq<Child>)
    requires Segment(mib, base, out) && out != []
    ensures Subs(out) == UpTo(Kids(mib, base), out[|out| - 1].sub)
    ensures |UpTo(Kids(mib, base), out[|out| - 1].sub)| == |out|
  {
    var last := out[|out| - 1].sub;
    SubsCount(out);
    forall k | k in Subs(out) ensures k in UpTo(Kids(mib, base), last) {
      var i :| 0 <= i < |out| && out[i].sub == k;
      assert TrueChild(mib, base, out[i]);
    }
    forall k | k in UpTo(Kids(mib, base), last) ensures k in Subs(out) {
      assert last in Subs(out);
    }
  }

  lemma SubsAreKids(mib: Mib, base: Oid, out: seq<Child>)
    requires Segment(mib, base, out)
    ensures Subs(out) <= Kids(mib, base) && |out| <= |Kids(mib, base)|
  {
    SubsCount(out);
    forall k | k in Subs(out) ensures k in Kids(mib, base) {
      var i :| 0 <= i < |out| && out[i].sub == k;
      assert TrueChild(mib, base, out[i]);
    }
    SubsetSize(Subs(out), Kids(mib, base));
  }

  lemma SubsetSize(a: set<nat>, b: set<nat>)
    requires a <= b
    ensures |a| <= |b|
  {
    assert b == a + (b - a);
  }

  // ---- Agents that may fail ----

  lemma NotAtEnd(agent: Browsed, mib: Mib, base: Oid, limit: int, out: seq<Child>)
    requires LegalMib(mib) && Segment(mib, base, out) && |out| < limit
    requires EndAway(mib, base, limit) || NoEcho(agent)
    requires agent(|out|, Probe(base, out)).Found?
    requires Follows(mib, Probe(base, out), agent(|out|, Probe(base, out)).bind)
    requires Under(base, agent(|out|, Probe(base, out)).bind.name)
    ensures !AtEnd(mib, Probe(base, out))
  {
    if Beyond(mib, base) {
      BeyondProbe(mib, base, out);
    } else if AtEnd(mib, Probe(base, out)) {
      AllListed(mib, base, out);
      SubsAreKids(mib, base, out);
      assert Subs(out) == Kids(mib, base);
      SubsCount(out);
    }
  }

  lemma LastClean(mib: Mib, base: Oid, limit: int, out: seq<Child>)
    requires Segment(mib, base, out) && |out| < limit && CleanAhead(mib, base, limit, 0)
    ensures out != [] ==> Clean(mib, base, out[|out| - 1].sub)
  {
    if out != [] {
      SubsAreUpTo(mib, base, out);
      SubsAreKids(mib, base, out);
      assert out[|out| - 1].sub in Subs(out);
    }
  }

  /** The subtree was left, or nothing came back: nothing is missing. */
  lemma NothingLeft(agent: Browsed, mib: Mib, base: Oid, limit: int, out: seq<Child>)
    requires Honest(agent, mib) && Segment(mib, base, out) && |out| < limit
    requires CleanAhead(mib, base, limit, 0)
    requires var a := agent(|out|, Probe(base, out)); a.Silent? || (a.Found? && !Under(base, a.bind.name))
    ensures forall k | k in Kids(mib, base) :: k in Subs(out)
  {
    var probe := Probe(base, out);
    assert HonestAnswer(mib, probe, agent(|out|, probe));
    if AtEnd(mib, probe) {
      AllListed(mib, base, out);
    } else {
      LastClean(mib, base, limit, out);
      NextChild(mib, base, out, agent(|out|, probe).bind);
    }
  }

  /** Against an honest agent that may also fail at any time: where the children probed past
      are clean and the end of the MIB is out of reach, or not answered with an echo of the
      probe, what is listed is exact, or a true initial segment that an error cut short right
      behind its last child. Nothing at all is listed only if the first request met an error or
      some request an exception. */
  lemma {:induction false} BrowseIsSegment(agent: Browsed, mib: Mib, base: Oid, limit: int, out: seq<Child>)
    requires Honest(agent, mib) && Segment(mib, base, out)
    requires CleanAhead(mib, base, limit, 0)
    requires EndAway(mib, base, limit) || NoEcho(agent)
    ensures match Browse(agent, base, limit, out)
            case Listed(children) =>
              && Segment(mib, base, children)
              && (Exact(mib, base, limit, children)
                  || (children != [] && agent(|children|, Probe(base, children)).Refused?))
            case Unreachable => (out == [] && agent(0, base).Refused?) || exists n, p :: agent(n, p).Raised?
    decreases limit - |out|
  {
    hide CleanAhead;
    hide EndAway;
    hide Segment;
    var probe := Probe(base, out);
    if |out| < limit {
      var answer := agent(|out|, probe);
      assert HonestAnswer(mib, probe, answer);
      if answer.Found? && Under(base, answer.bind.name) {
        NotAtEnd(agent, mib, base, limit, out);
        LastClean(mib, base, limit, out);
        NextChild(mib, base, out, answer.bind);
        BrowseIsSegment(agent, mib, base, limit, out + [ChildAt(base, answer.bind)]);
      } else if answer.Found? || answer.Silent? {
        NothingLeft(agent, mib, base, limit, out);
      }
    }
  }

  // ---- An agent that always answers ----

  /** An agent for each MIB: it answers every request that can be made. */
  ghost function AgentOf(mib: Mib): (agent: Browsed)
    requires LegalMib(mib)
    ensures Answering(agent, mib)
  {
    (n: nat, p: Oid) => if Legal(p) then Found(Successor(mib, p)) else Answer.Raised
  }

  lemma ProbeLegal(mib: Mib, base: Oid, out: seq<Child>)
    requires LegalMib(mib) && Segment(mib, base, out) && Browsable(base)
    ensures Legal(Probe(base, out))
  {
    if out != [] {
      assert TrueChild(mib, base, out[|out| - 1]);
    }
  }

  /** Such an agent's answer to the next probe. */
  lemma Answered(agent: Browsed, mib: Mib, base: Oid, out: seq<Child>)
    requires Answering(agent, mib) && Segment(mib, base, out) && Browsable(base)
    ensures agent(|out|, Probe(base, out)).Found?
    ensures Follows(mib, Probe(base, out), agent(|out|, Probe(base, out)).bind)
  {
    ProbeLegal(mib, base, out);
  }

  /** A child listed twice spoils the listing for good. */
  lemma TwiceIsWrong(agent: Browsed, mib: Mib, base: Oid, limit: int, out: seq<Child>, c: Child)
    requires out != [] && c.sub == out[|out| - 1].sub
    ensures !ExactListing(mib, base, limit, Browse(agent, base, limit, out + [c]))
  {
    var r := Browse(agent, base, limit, out + [c]);
    BrowseExtends(agent, base, limit, out + [c]);
    if r.Listed? {
      assert r.children[|out| - 1] == out[|out| - 1] && r.children[|out|] == c;
    }
  }

  /** An instance below the probe of the last child makes GETNEXT find that child again. */
  lemma DirtyRepeats(mib: Mib, base: Oid, out: seq<Child>, b: Bind)
    requires out != [] && !Clean(mib, base, out[|out| - 1].sub)
    requires Follows(mib, Probe(base, out), b)
    ensures Under(base, b.name) && b.name[|base|] == out[|out| - 1].sub
  {
    var probe := Probe(base, out);
    var o :| o in mib && Under(probe, o);
    UnderIsAbove(probe, o);
    if !Under(probe, b.name) {
      PastSubtree(probe, o, b.name);
      LessAsymmetric(o, b.name);
    }
    assert b.name[..|base| + 2] == probe;
    assert b.name[..|base|] == base;
    assert b.name[|base|] == probe[|base|];
  }

  /** Against an agent that always answers, the enumeration from a good beginning is exact if
      and only if what is still ahead is listable. */
  lemma {:induction false} BrowseExactIff(agent: Browsed, mib: Mib, base: Oid, limit: int, out: seq<Child>)
    requires Answering(agent, mib) && Segment(mib, base, out) && Browsable(base)
    ensures ExactListing(mib, base, limit, Browse(agent, base, limit, out))
            <==> Listable(mib, base, limit, if out == [] then 0 else out[|out| - 1].sub)
    decreases limit - |out|
  {
    hide Listable;
    hide ExactListing;
    hide Browse;
    hide Kids;
    hide Subs;
    if |out| >= limit {
      LimitMet(agent, mib, base, limit, out);
    } else {
      var probe := Probe(base, out);
      Answered(agent, mib, base, out);
      var b := agent(|out|, probe).bind;
      if out != [] && !Clean(mib, base, out[|out| - 1].sub) {
        DirtyMet(agent, mib, base, limit, out);
      } else if AtEnd(mib, probe) {
        EndMet(agent, mib, base, limit, out);
      } else {
        NextChild(mib, base, out, b);
        if Under(base, b.name) {
          BrowseGoesOn(agent, base, limit, out);
          BrowseExactIff(agent, mib, base, limit, out + [ChildAt(base, b)]);
          StillListable(mib, base, limit, out, b);
        } else {
          LeftMet(agent, mib, base, limit, out);
        }
      }
    }
  }

  lemma BrowseGoesOn(agent: Browsed, base: Oid, limit: int, out: seq<Child>)
    requires |out| < limit && agent(|out|, Probe(base, out)).Found?
    requires Under(base, agent(|out|, Probe(base, out)).bind.name)
    ensures Browse(agent, base, limit, out)
            == Browse(agent, base, limit, out + [ChildAt(base, agent(|out|, Probe(base, out)).bind)])
  {
  }

  lemma LimitMet(agent: Browsed, mib: Mib, base: Oid, limit: int, out: seq<Child>)
    requires Segment(mib, base, out) && |out| >= limit
    ensures ExactListing(mib, base, limit, Browse(agent, base, limit, out))
            <==> Listable(mib, base, limit, if out == [] then 0 else out[|out| - 1].sub)
  {
    hide Listable;
    LimitReached(mib, base, limit, out);
  }

  lemma DirtyMet(agent: Browsed, mib: Mib, base: Oid, limit: int, out: seq<Child>)
    requires Answering(agent, mib) && Segment(mib, base, out) && Browsable(base) && |out| < limit
    requires out != [] && !Clean(mib, base, out[|out| - 1].sub)
    ensures ExactListing(mib, base, limit, Browse(agent, base, limit, out))
            <==> Listable(mib, base, limit, out[|out| - 1].sub)
  {
    hide ExactListing;
    hide Clean;
    Answered(agent, mib, base, out);
    var b := agent(|out|, Probe(base, out)).bind;
    DirtyRepeats(mib, base, out, b);
    TwiceIsWrong(agent, mib, base, limit, out, ChildAt(base, b));
    BrowseGoesOn(agent, base, limit, out);
    SubsAreKids(mib, base, out);
    SubsAreUpTo(mib, base, out);
    assert out[|out| - 1].sub in Subs(out);
    hide Browse;
  }

  lemma LeftMet(agent: Browsed, mib: Mib, base: Oid, limit: int, out: seq<Child>)
    requires Answering(agent, mib) && Segment(mib, base, out) && Browsable(base) && |out| < limit
    requires out != [] ==> Clean(mib, base, out[|out| - 1].sub)
    requires agent(|out|, Probe(base, out)).Found?
    requires var b := agent(|out|, Probe(base, out)).bind;
             IsNext(mib, Probe(base, out), b.name) && !Under(base, b.name)
    requires forall k | k in Kids(mib, base) :: k in Subs(out)
    ensures ExactListing(mib, base, limit, Browse(agent, base, limit, out))
            <==> Listable(mib, base, limit, if out == [] then 0 else out[|out| - 1].sub)
  {
    hide Listable;
    var b := agent(|out|, Probe(base, out)).bind;
    SubtreeLeft(mib, base, limit, out, b);
  }

  lemma LimitReached(mib: Mib, base: Oid, limit: int, out: seq<Child>)
    requires Segment(mib, base, out) && |out| >= limit
    ensures Listable(mib, base, limit, if out == [] then 0 else out[|out| - 1].sub)
  {
    SubsAreKids(mib, base, out);
    if out != [] {
      SubsAreUpTo(mib, base, out);
      forall k | k in Kids(mib, base) && out[|out| - 1].sub <= k ensures |UpTo(Kids(mib, base), k)| >= limit {
        SubsetSize(UpTo(Kids(mib, base), out[|out| - 1].sub), UpTo(Kids(mib, base), k));
      }
    }
  }

  lemma EndMet(agent: Browsed, mib: Mib, base: Oid, limit: int, out: seq<Child>)
    requires Answering(agent, mib) && Segment(mib, base, out) && Browsable(base) && |out| < limit
    requires AtEnd(mib, Probe(base, out))
    ensures ExactListing(mib, base, limit, Browse(agent, base, limit, out))
            <==> Listable(mib, base, limit, if out == [] then 0 else out[|out| - 1].sub)
  {
    Answered(agent, mib, base, out);
    var b := agent(|out|, Probe(base, out)).bind;
    AllListed(mib, base, out);
    if Beyond(mib, base) {
      BeyondProbe(mib, base, out);
    }
    ProbeAboveBase(base, out);
    SubsAreKids(mib, base, out);
    assert Subs(out) == Kids(mib, base);
    SubsCount(out);
    if out != [] {
      TwiceIsWrong(agent, mib, base, limit, out, ChildAt(base, b));
    }
  }

  lemma StillListable(mib: Mib, base: Oid, limit: int, out: seq<Child>, b: Bind)
    requires LegalMib(mib) && Segment(mib, base, out) && Under(base, b.name)
    requires Segment(mib, base, out + [ChildAt(base, b)])
    requires out != [] ==> Clean(mib, base, out[|out| - 1].sub)
    ensures Listable(mib, base, limit, if out == [] then 0 else out[|out| - 1].sub)
            <==> Listable(mib, base, limit, b.name[|base|])
  {
    var c := ChildAt(base, b);
    var out' := out + [c];
    SubsGrow(out, c);
    assert out'[|out|] == c;
    if out != [] {
      assert out'[|out| - 1].sub < out'[|out|].sub;
    }
    forall k | k in Kids(mib, base) && k < c.sub && (out == [] || out[|out| - 1].sub <= k)
      ensures out != [] && k == out[|out| - 1].sub
    {
      assert k in Subs(out');
      var i :| 0 <= i < |out| && out[i].sub == k;
    }
  }

  lemma SubtreeLeft(mib: Mib, base: Oid, limit: int, out: seq<Child>, b: Bind)
    requires Segment(mib, base, out)
    requires out != [] ==> Clean(mib, base, out[|out| - 1].sub)
    requires IsNext(mib, Probe(base, out), b.name) && !Under(base, b.name)
    requires forall k | k in Kids(mib, base) :: k in Subs(out)
    ensures Listable(mib, base, limit, if out == [] then 0 else out[|out| - 1].sub)
  {
    ProbeAboveBase(base, out);
    AtMostLess(base, Probe(base, out), b.name);
    assert Beyond(mib, base);
    AllBehind(mib, base, limit, out);
  }

  lemma AllBehind(mib: Mib, base: Oid, limit: int, out: seq<Child>)
    requires Segment(mib, base, out)
    requires out != [] ==> Clean(mib, base, out[|out| - 1].sub)
    requires forall k | k in Kids(mib, base) :: k in Subs(out)
    ensures CleanAhead(mib, base, limit, if out == [] then 0 else out[|out| - 1].sub)
  {
    hide Clean;
    hide TrueChild;
    forall k | k in Kids(mib, base) && (out == [] || out[|out| - 1].sub <= k) ensures Clean(mib, base, k) {
      var i :| 0 <= i < |out| && out[i].sub == k;
    }
  }

  /** The enumeration against an agent that always answers is exact if and only if the
      children it probes past are clean and it does not run into the end of the MIB. */
  lemma ListingExactIff(agent: Browsed, mib: Mib, base: Oid, limit: int)
    requires Answering(agent, mib) && Browsable(base)
    ensures ExactListing(mib, base, limit, Browse(agent, base, limit, []))
            <==> Listable(mib, base, limit, 0)
  {
    BrowseExactIff(agent, mib, base, limit, []);
  }

  /** Once the end of the MIB is met, each further answer repeats the probe, and the last child
      is listed again. */
  lemma {:induction false} EndRepeats(agent: Browsed, mib: Mib, base: Oid, limit: int, out: seq<Child>)
    requires Answering(agent, mib) && Browsable(base) && out != [] && |out| <= limit
    requires out[|out| - 1].sub <= MAX_SUB && AtEnd(mib, base + [out[|out| - 1].sub, MAX_SUB])
    ensures Repeats(Browse(agent, base, limit, out), limit, out)
    decreases limit - |out|
  {
    if |out| < limit {
      var probe := Probe(base, out);
      var b := agent(|out|, probe).bind;
      assert Legal(probe) && Follows(mib, probe, b);
      ProbeAboveBase(base, out);
      var next := out + [ChildAt(base, b)];
      EndRepeats(agent, mib, base, limit, next);
      RepeatsAgain(Browse(agent, base, limit, next), limit, out, ChildAt(base, b));
    }
  }

  /** The listing is `out` and then its last child over and over, up to the limit. */
  ghost predicate Repeats(r: Listing, limit: int, out: seq<Child>)
    requires out != []
  {
    && r.Listed? && |r.children| == limit && out <= r.children
    && forall i | |out| <= i < limit :: r.children[i].sub == out[|out| - 1].sub
  }

  lemma RepeatsAgain(r: Listing, limit: int, out: seq<Child>, c: Child)
    requires out != [] && c.sub == out[|out| - 1].sub && Repeats(r, limit, out + [c])
    ensures Repeats(r, limit, out)
  {
    assert out <= out + [c] && (out + [c])[|out|] == c;
    forall i | |out| <= i < limit ensures r.children[i].sub == out[|out| - 1].sub {
      if i == |out| {
        assert r.children[i] == (out + [c])[i];
      }
    }
  }

  /** All children of a subtree, in their order. */
  ghost predicate Whole(mib: Mib, base: Oid, out: seq<Child>) {
    Segment(mib, base, out) && Subs(out) == Kids(mib, base)
  }

  /** A subtree that ends the MIB and has fewer children than the limit: the enumeration lists
      them all, and then the last one again and again until the limit is reached. */
  lemma {:induction false} LastChildRepeats(agent: Browsed, mib: Mib, base: Oid, limit: int, out: seq<Child>)
    requires Answering(agent, mib) && Browsable(base) && Segment(mib, base, out)
    requires CleanAhead(mib, base, limit, 0) && !Beyond(mib, base)
    requires 0 < |Kids(mib, base)| < limit && |out| <= |Kids(mib, base)|
    ensures exists whole :: whole != [] && Whole(mib, base, whole)
                            && Repeats(Browse(agent, base, limit, out), limit, whole)
    decreases limit - |out|
  {
    hide CleanAhead;
    hide Repeats;
    var probe := Probe(base, out);
    var r := Browse(agent, base, limit, out);
    Answered(agent, mib, base, out);
    var b := agent(|out|, probe).bind;
    if AtEnd(mib, probe) {
      AllListed(mib, base, out);
      SubsAreKids(mib, base, out);
      assert Whole(mib, base, out);
      assert out != [];
      ProbeLegal(mib, base, out);
      EndRepeats(agent, mib, base, limit, out);
      assert Repeats(r, limit, out);
    } else {
      LastClean(mib, base, limit, out);
      NextChild(mib, base, out, b);
      StaysInside(mib, base, out, b);
      var next := out + [ChildAt(base, b)];
      SubsAreKids(mib, base, next);
      LastChildRepeats(agent, mib, base, limit, next);
      BrowseGoesOn(agent, base, limit, out);
    }
  }

  /** Where the subtree ends the MIB, what follows a probe is in the subtree. */
  lemma StaysInside(mib: Mib, base: Oid, out: seq<Child>, b: Bind)
    requires !Beyond(mib, base) && IsNext(mib, Probe(base, out), b.name)
    ensures Under(base, b.name)
  {
    ProbeAboveBase(base, out);
    AtMostLess(base, Probe(base, out), b.name);
  }

  /** Below `1.3` there is one child, `6`, and nothing comes after it. */
  lemma OneChild(text: string)
    ensures var mib: Mib := map[[1, 3, 6, 1] := text];
            LegalMib(mib) && Kids(mib, [1, 3]) == {6} && !Beyond(mib, [1, 3]) && Clean(mib, [1, 3], 6)
  {
    var mib: Mib := map[[1, 3, 6, 1] := text];
    assert Under([1, 3], [1, 3, 6, 1]) && [1, 3, 6, 1][2] == 6;
    assert 6 in Kids(mib, [1, 3]);
  }

  /** One instance, one child below `1.3`: with room for 64 the child is listed 64 times. */
  lemma LastSubtreeRepeats(text: string)
    ensures var mib: Mib := map[[1, 3, 6, 1] := text];
            && LegalMib(mib)
            && (var r := Browse(AgentOf(mib), [1, 3], 64, []);
                && !ExactListing(mib, [1, 3], 64, r)
                && r.Listed? && |r.children| == 64 && forall i | 0 <= i < 64 :: r.children[i].sub == 6)
  {
    hide Browse;
    hide Clean;
    hide Beyond;
    var mib: Mib := map[[1, 3, 6, 1] := text];
    OneChild(text);
    var agent := AgentOf(mib);
    var r := Browse(agent, [1, 3], 64, []);
    ListingExactIff(agent, mib, [1, 3], 64);
    LastChildRepeats(agent, mib, [1, 3], 64, []);
    var whole :| whole != [] && Whole(mib, [1, 3], whole) && Repeats(r, 64, whole);
    WholeOfOne(mib, [1, 3], whole, 6);
  }

  lemma WholeOfOne(mib: Mib, base: Oid, whole: seq<Child>, k: nat)
    requires Whole(mib, base, whole) && Kids(mib, base) == {k}
    ensures |whole| == 1 && whole[0].sub == k
  {
    SubsCount(whole);
    assert whole[0].sub in Subs(whole);
  }

  /** `base.child.4294967295` is not beyond everything within the child: an instance below that
      very OID makes the child come again. */
  lemma DeepChildRepeats(text: string)
    ensures var mib: Mib := map[[1, 3, 6, MAX_SUB, 1] := text, [1, 4] := text];
            LegalMib(mib) && !ExactListing(mib, [1, 3], 64, Browse(AgentOf(mib), [1, 3], 64, []))
  {
    hide Browse;
    hide ExactListing;
    var deep: Oid := [1, 3, 6, MAX_SUB, 1];
    var mib: Mib := map[deep := text, [1, 4] := text];
    assert LegalMib(mib) && Under([1, 3], deep) && deep[2] == 6 && 6 in Kids(mib, [1, 3]);
    assert [1, 3] + [6, MAX_SUB] == deep[..4];
    assert !Clean(mib, [1, 3], 6);
    assert UpTo(Kids(mib, [1, 3]), 6) <= {6} by {
      assert !Under([1, 3], [1, 4]);
    }
    SubsetSize(UpTo(Kids(mib, [1, 3]), 6), {6});
    ListingExactIff(AgentOf(mib), mib, [1, 3], 64);
  }
}
