/** Object identifiers, their lexicographic order, and the subtrees a table column occupies.

    The order is Python's tuple order, which the walkers compare OIDs with, and also the
    order GETNEXT follows (section 4.2.2 of RFC 3416). */
module Oids {

  type Oid = seq<nat>

  /** The greatest sub-identifier (section 3.5 of RFC 2578). */
  const MAX_SUB: nat := 0xFFFF_FFFF

  /** The longest OID, in sub-identifiers (section 3.5 of RFC 2578). */
  const MAX_LENGTH: nat := 128

  predicate Legal(o: Oid) {
    |o| <= MAX_LENGTH && forall i :: 0 <= i < |o| ==> o[i] <= MAX_SUB
  }

  /** An OID that fits in a message. */
  type WireOid = o: Oid | Legal(o) witness []

  predicate Less(a: Oid, b: Oid) {
    b != [] && (a == [] || a[0] < b[0] || (a[0] == b[0] && Less(a[1..], b[1..])))
  }

  predicate AtMost(a: Oid, b: Oid) {
    a == b || Less(a, b)
  }

  /** `o` lies strictly inside the subtree rooted at `base`. */
  predicate Under(base: Oid, o: Oid) {
    |base| < |o| && o[..|base|] == base
  }

  /** What is left of `o` once `base` is cut off its front: a table row's index. */
  function Index(base: Oid, o: Oid): (index: Oid)
    requires Under(base, o)
    ensures index != [] && base + index == o
  {
    o[|base|..]
  }

  lemma UnderSum(base: Oid, index: Oid)
    requires index != []
    ensures Under(base, base + index) && Index(base, base + index) == index
  {
  }

  lemma {:induction false} LessIrreflexive(a: Oid)
    ensures !Less(a, a)
  {
    if a != [] {
      LessIrreflexive(a[1..]);
    }
  }

  lemma {:induction false} LessTransitive(a: Oid, b: Oid, c: Oid)
    requires Less(a, b) && Less(b, c)
    ensures Less(a, c)
  {
    if a != [] && a[0] == b[0] && b[0] == c[0] {
      LessTransitive(a[1..], b[1..], c[1..]);
    }
  }

  lemma {:induction false} LessTotal(a: Oid, b: Oid)
    ensures Less(a, b) || a == b || Less(b, a)
  {
    if a != [] && b != [] && a[0] == b[0] {
      LessTotal(a[1..], b[1..]);
      assert a == [a[0]] + a[1..] && b == [b[0]] + b[1..];
    }
  }

  lemma LessAsymmetric(a: Oid, b: Oid)
    requires Less(a, b)
    ensures a != b && !Less(b, a)
  {
    LessIrreflexive(a);
    if Less(b, a) {
      LessTransitive(a, b, a);
    }
  }

  lemma AtMostLess(a: Oid, b: Oid, c: Oid)
    requires AtMost(a, b) && Less(b, c)
    ensures Less(a, c)
  {
    if a != b {
      LessTransitive(a, b, c);
    }
  }

  lemma LessAtMost(a: Oid, b: Oid, c: Oid)
    requires Less(a, b) && AtMost(b, c)
    ensures Less(a, c)
  {
    if b != c {
      LessTransitive(a, b, c);
    }
  }

  /** A common front does not change the comparison. */
  lemma {:induction false} LessBehind(front: Oid, a: Oid, b: Oid)
    ensures Less(front + a, front + b) <==> Less(a, b)
  {
    if front == [] {
      assert front + a == a && front + b == b;
    } else {
      assert (front + a)[1..] == front[1..] + a;
      assert (front + b)[1..] == front[1..] + b;
      LessBehind(front[1..], a, b);
    }
  }

  lemma UnderIsAbove(base: Oid, o: Oid)
    requires Under(base, o)
    ensures Less(base, o)
  {
    LessBehind(base, [], o[|base|..]);
    assert base + [] == base && base + o[|base|..] == o;
  }

  lemma UnderTail(base: Oid, o: Oid)
    requires base != [] && o != [] && base[0] == o[0]
    ensures Under(base, o) <==> Under(base[1..], o[1..])
  {
    if |base| < |o| {
      assert o[..|base|] == [o[0]] + o[1..][..|base| - 1];
      assert base == [base[0]] + base[1..];
    }
  }

  /** Subtrees are contiguous: what comes after the root of a subtree but lies outside it
      comes after the whole subtree. */
  lemma {:induction false} PastSubtree(base: Oid, o: Oid, after: Oid)
    requires Under(base, o)
    requires Less(base, after) && !Under(base, after)
    ensures Less(o, after)
  {
    if base != [] && base[0] == after[0] {
      UnderTail(base, o);
      UnderTail(base, after);
      PastSubtree(base[1..], o[1..], after[1..]);
    }
  }

  // ---- The finite OID universe ----

  /** How many OIDs of at most `depth` sub-identifiers there are. */
  function Universe(depth: nat): (n: nat)
    ensures n >= 1
  {
    if depth == 0 then 1 else 1 + (MAX_SUB + 1) * Universe(depth - 1)
  }

  /** The place of `o` in the OID tree of that depth, counted in lexicographic order. */
  function Rank(o: Oid, depth: nat): nat
    requires |o| <= depth
  {
    if o == [] then 0 else o[0] * Universe(depth - 1) + 1 + Rank(o[1..], depth - 1)
  }

  lemma {:induction false} RankBounded(o: Oid, depth: nat)
    requires |o| <= depth && forall i :: 0 <= i < |o| ==> o[i] <= MAX_SUB
    ensures Rank(o, depth) < Universe(depth)
  {
    if o != [] {
      RankBounded(o[1..], depth - 1);
      var u := Universe(depth - 1);
      MulMonotone(o[0], MAX_SUB, u);
    }
  }

  lemma MulMonotone(a: nat, b: nat, u: nat)
    requires a <= b
    ensures a * u <= b * u
  {
  }

  /** Rank turns the order of legal OIDs into the order of numbers: only finitely many OIDs
      lie above a cursor. */
  lemma {:induction false} RankIncreases(a: Oid, b: Oid, depth: nat)
    requires |a| <= depth && |b| <= depth
    requires forall i :: 0 <= i < |a| ==> a[i] <= MAX_SUB
    requires Less(a, b)
    ensures Rank(a, depth) < Rank(b, depth)
  {
    if a != [] {
      var u := Universe(depth - 1);
      if a[0] == b[0] {
        RankIncreases(a[1..], b[1..], depth - 1);
      } else {
        RankBounded(a[1..], depth - 1);
        MulMonotone(a[0] + 1, b[0], u);
        assert (a[0] + 1) * u == a[0] * u + u;
      }
    }
  }

  /** How many OIDs of a tree that deep lie after `o`, or are `o`. */
  function Above(o: Oid, depth: nat): nat {
    if Legal(o) && depth >= MAX_LENGTH then
      RankBounded(o, depth);
      Universe(depth) - Rank(o, depth)
    else 0
  }
}
