/** Against an honest agent the lockstep walk computes the plain specification: each
    column's table is the MIB restricted to that column's subtree. */
module WalkExact {
  import opened Oids
  import opened Agent
  import opened Walk
  import opened WalkSafety

  /** Column `k` of the table is the MIB's column up to and including `last`. */
  ghost predicate UpTo(mib: Mib, base: Oid, last: Oid, t: Table, k: nat) {
    && (forall index | t.Has(index, k) ::
          base + index in mib && t.Text(index, k) == mib[base + index])
    && (forall o {:trigger Under(base, o)} | o in mib && Under(base, o) && AtMost(o, last) ::
          t.Has(Index(base, o), k))
  }

  /** No instance of the column lies beyond `last`. */
  ghost predicate Exhausted(mib: Mib, base: Oid, last: Oid) {
    forall o {:trigger Under(base, o)} | o in mib && Under(base, o) :: AtMost(o, last)
  }

  ghost predicate Faithful(mib: Mib, cfg: Config, w: Walk) {
    && Sane(cfg, w)
    && (forall k | 0 <= k < |cfg.bases| :: UpTo(mib, cfg.bases[k], w.last[k], w.table, k))
    && (w.open ==> w.complete)
    && (w.complete ==>
          forall k | 0 <= k < |cfg.bases| :: k in w.active || Exhausted(mib, cfg.bases[k], w.last[k]))
  }

  /** The specification of a finished walk: cell for cell, the MIB restricted to the subtree
      of each column. */
  ghost predicate Exact(mib: Mib, bases: seq<Oid>, t: Table) {
    && (forall index, k: nat ::
          t.Has(index, k) <==> k < |bases| && index != [] && bases[k] + index in mib)
    && (forall index, k: nat | t.Has(index, k) :: t.Text(index, k) == mib[bases[k] + index])
  }

  /** The specification of any walk: cells are true, and a column that has an index has every
      earlier index of the MIB's column. */
  ghost predicate Truthful(mib: Mib, bases: seq<Oid>, t: Table) {
    && (forall index, k: nat | t.Has(index, k) ::
          k < |bases| && index != [] && bases[k] + index in mib
          && t.Text(index, k) == mib[bases[k] + index])
    && (forall k: nat, o, p {:trigger t.Has(p, k), Under(bases[k], o)} ::
          k < |bases| && t.Has(p, k) && o in mib && Under(bases[k], o) && Less(o, bases[k] + p)
          ==> t.Has(Index(bases[k], o), k))
  }

  lemma FaithfulIsTruthful(mib: Mib, cfg: Config, w: Walk)
    requires Faithful(mib, cfg, w)
    ensures Truthful(mib, cfg.bases, w.table)
  {
    var t := w.table;
    forall index, k: nat | t.Has(index, k)
      ensures k < |cfg.bases| && index != [] && cfg.bases[k] + index in mib
              && t.Text(index, k) == mib[cfg.bases[k] + index]
    {
      assert UpTo(mib, cfg.bases[k], w.last[k], t, k);
    }
    forall k: nat, o, p | k < |cfg.bases| && t.Has(p, k) && o in mib && Under(cfg.bases[k], o)
                          && Less(o, cfg.bases[k] + p)
      ensures t.Has(Index(cfg.bases[k], o), k)
    {
      LessAtMost(o, cfg.bases[k] + p, w.last[k]);
      assert UpTo(mib, cfg.bases[k], w.last[k], t, k);
    }
  }

  lemma FaithfulIsExact(mib: Mib, cfg: Config, w: Walk)
    requires Faithful(mib, cfg, w) && !w.open && w.complete
    ensures Exact(mib, cfg.bases, w.table)
  {
    FaithfulIsTruthful(mib, cfg, w);
    forall index, k: nat | k < |cfg.bases| && index != [] && cfg.bases[k] + index in mib
      ensures w.table.Has(index, k)
    {
      assert UpTo(mib, cfg.bases[k], w.last[k], w.table, k);
      assert Exhausted(mib, cfg.bases[k], w.last[k]);
      UnderSum(cfg.bases[k], index);
    }
  }

  lemma BeginFaithful(mib: Mib, cfg: Config, maxRep: nat)
    ensures Faithful(mib, cfg, Begin(cfg.bases, maxRep))
  {
    var w := Begin(cfg.bases, maxRep);
    forall k, o | 0 <= k < |cfg.bases| && o in mib && Under(cfg.bases[k], o)
      ensures !AtMost(o, w.last[k])
    {
      UnderIsAbove(cfg.bases[k], o);
      LessAsymmetric(cfg.bases[k], o);
    }
    forall k | 0 <= k < |cfg.bases| ensures k in w.active {
      assert w.active[k] == k;
    }
  }

  // ---- Which column a binding belongs to ----

  lemma MulSign(width: int, q: int)
    requires width >= 0
    ensures q >= 1 ==> width * q >= width
    ensures q <= -1 ==> width * q <= -width
  {
  }

  lemma DivModUnique(x: int, width: nat, q: int, r: int)
    requires width > 0 && x == width * q + r && 0 <= r < width
    ensures x % width == r
  {
    MulSign(width, x / width - q);
    assert width * (x / width - q) == width * (x / width) - width * q;
  }

  lemma {:induction false} TurnIsMod(i: nat, width: nat)
    requires width > 0
    ensures Turn(i, width) == i % width
  {
    if i >= width {
      TurnIsMod(i - width, width);
      DivModUnique(i, width, (i - width) / width + 1, (i - width) % width);
    }
  }

  /** Among `width` successive bindings each column has one. */
  lemma {:induction false} TurnWindow(n: nat, j: nat, width: nat)
    requires width > 0 && n < j < n + width
    ensures Turn(j, width) != Turn(n, width)
  {
    if n >= width {
      TurnWindow(n - width, j - width, width);
    }
  }

  // ---- One response of an honest agent ----

  /** Between bindings `n - 1` and `n`: columns are true, a column given up is exhausted, and
      the next binding of every other column continues from where that column stands. */
  ghost predicate Following(mib: Mib, cfg: Config, names: seq<Oid>, active: seq<nat>,
                            binds: seq<Bind>, n: nat, s: Scan)
    requires |s.last| == |cfg.bases| && |names| == |active| && active != [] && n <= |binds|
    requires forall i :: 0 <= i < |active| ==> active[i] < |cfg.bases|
  {
    && TableSane(cfg, s.last, s.table)
    && s.complete
    && (forall k | 0 <= k < |cfg.bases| :: UpTo(mib, cfg.bases[k], s.last[k], s.table, k))
    && (forall k | k in s.done :: k < |cfg.bases| && Exhausted(mib, cfg.bases[k], s.last[k]))
    && (!s.cut ==> Aligned(names, active, binds, n, s.done, s.last))
  }

  ghost predicate Aligned(names: seq<Oid>, active: seq<nat>, binds: seq<Bind>, n: nat,
                          done: set<nat>, last: seq<Oid>)
    requires |names| == |active| && active != [] && n <= |binds|
    requires forall i :: 0 <= i < |active| ==> active[i] < |last|
  {
    forall j {:trigger Before(names, binds, j)} :: n <= j < n + |active| && active[Turn(j, |active|)] !in done ==>
      Before(names, binds, j) == last[active[Turn(j, |active|)]]
  }

  lemma TakeKeepsColumn(mib: Mib, cfg: Config, key: nat, b: Bind, s: Scan, k: nat)
    requires key < |cfg.bases| == |s.last| && TableSane(cfg, s.last, s.table) && k < |cfg.bases|
    requires UpTo(mib, cfg.bases[k], s.last[k], s.table, k)
    requires Accepts(cfg, key, b, s) && Follows(mib, s.last[key], b)
    ensures UpTo(mib, cfg.bases[k], Take(cfg, key, b, s).last[k], Take(cfg, key, b, s).table, k)
  {
    var r := Take(cfg, key, b, s);
    TakeStores(cfg, key, b, s);
    if k == key {
      assert r.last[k] == b.name;
      forall o | o in mib && Under(cfg.bases[k], o) && AtMost(o, b.name)
        ensures r.table.Has(Index(cfg.bases[k], o), k)
      {
        if o != b.name {
          LessTotal(o, s.last[key]);
          if Less(s.last[key], o) {
            LessAsymmetric(o, b.name);
          }
        }
      }
    } else {
      assert r.last[k] == s.last[k];
      assert forall index :: r.table.Has(index, k) <==> s.table.Has(index, k);
    }
  }

  /** A column is given up only when nothing is left in it. */
  lemma GivenUpIsExhausted(mib: Mib, base: Oid, last: Oid, b: Bind)
    requires last == base || Under(base, last)
    requires Follows(mib, last, b) && (b.value.End? || !Under(base, b.name))
    ensures Exhausted(mib, base, last)
  {
    forall o | o in mib && Under(base, o) ensures AtMost(o, last) {
      LessTotal(o, last);
      if Less(last, o) {
        if last != base { UnderIsAbove(base, last); }
        AtMostLess(base, last, b.name);
        PastSubtree(base, o, b.name);
        LessAsymmetric(o, b.name);
      }
    }
  }

  /** The key of the n-th binding, and what it continues from, in a response being read. */
  lemma AlignedHere(names: seq<Oid>, active: seq<nat>, binds: seq<Bind>, n: nat,
                    done: set<nat>, last: seq<Oid>)
    requires |names| == |active| && active != [] && n < |binds|
    requires forall i :: 0 <= i < |active| ==> active[i] < |last|
    requires Aligned(names, active, binds, n, done, last)
    requires active[Turn(n, |active|)] !in done
    ensures Before(names, binds, n) == last[active[Turn(n, |active|)]]
  {
  }

  lemma AlignedNext(names: seq<Oid>, active: seq<nat>, binds: seq<Bind>, n: nat,
                    done: set<nat>, last: seq<Oid>, done': set<nat>, last': seq<Oid>)
    requires |names| == |active| && active != [] && n < |binds| && |last| == |last'|
    requires forall i :: 0 <= i < |active| ==> active[i] < |last|
    requires forall i, j :: 0 <= i < j < |active| ==> active[i] != active[j]
    requires Aligned(names, active, binds, n, done, last)
    requires var key := active[Turn(n, |active|)];
             && done <= done'
             && (forall k | 0 <= k < |last| && k != key :: last'[k] == last[k])
             && (key in done' || last'[key] == binds[n].name)
    ensures Aligned(names, active, binds, n + 1, done', last')
  {
    var width := |active|;
    forall j | n + 1 <= j < n + 1 + width && active[Turn(j, width)] !in done'
      ensures Before(names, binds, j) == last'[active[Turn(j, width)]]
    {
      if j == n + width {
        assert Before(names, binds, j) == binds[n].name;
      } else {
        TurnWindow(n, j, width);
        assert active[Turn(j, width)] != active[Turn(n, width)];
        assert Before(names, binds, j) == last[active[Turn(j, width)]];
      }
    }
  }

  lemma FollowingStep(mib: Mib, cfg: Config, names: seq<Oid>, active: seq<nat>,
                      binds: seq<Bind>, n: nat, s: Scan)
    requires |s.last| == |cfg.bases| && |names| == |active| && active != [] && n < |binds|
    requires forall i :: 0 <= i < |active| ==> active[i] < |cfg.bases|
    requires forall i, j :: 0 <= i < j < |active| ==> active[i] != active[j]
    requires Following(mib, cfg, names, active, binds, n, s)
    requires Follows(mib, Before(names, binds, n), binds[n])
    ensures Following(mib, cfg, names, active, binds, n + 1,
                      Take(cfg, active[Turn(n, |active|)], binds[n], s))
  {
    var key, b := active[Turn(n, |active|)], binds[n];
    var r := Take(cfg, key, b, s);
    TakeSane(cfg, key, b, s);
    if !s.cut {
      if key !in s.done {
        AlignedHere(names, active, binds, n, s.done, s.last);
      }
      if Accepts(cfg, key, b, s) {
        forall k | 0 <= k < |cfg.bases| ensures UpTo(mib, cfg.bases[k], r.last[k], r.table, k) {
          TakeKeepsColumn(mib, cfg, key, b, s, k);
        }
        forall k | k in r.done ensures Exhausted(mib, cfg.bases[k], r.last[k]) {
          assert Exhausted(mib, cfg.bases[k], s.last[k]);
        }
      } else if key !in s.done && !r.cut {
        GivenUpIsExhausted(mib, cfg.bases[key], s.last[key], b);
      }
      if !r.cut {
        AlignedNext(names, active, binds, n, s.done, s.last, r.done, r.last);
      }
    }
  }

  lemma {:induction false} ScannedFollowing(mib: Mib, cfg: Config, names: seq<Oid>, active: seq<nat>,
                                            binds: seq<Bind>, n: nat, s: Scan)
    requires |s.last| == |cfg.bases| && |names| == |active| && active != [] && n <= |binds|
    requires forall i :: 0 <= i < |active| ==> active[i] < |cfg.bases|
    requires forall i, j :: 0 <= i < j < |active| ==> active[i] != active[j]
    requires forall i {:trigger Before(names, binds, i)} :: 0 <= i < |binds| ==>
               Follows(mib, Before(names, binds, i), binds[i])
    requires Following(mib, cfg, names, active, binds, 0, s)
    ensures Following(mib, cfg, names, active, binds, n, Scanned(cfg, active, binds, n, s))
  {
    hide Take;
    hide Following;
    hide Follows;
    if n > 0 {
      ScannedFollowing(mib, cfg, names, active, binds, n - 1, s);
      assert Follows(mib, Before(names, binds, n - 1), binds[n - 1]);
      FollowingStep(mib, cfg, names, active, binds, n - 1, Scanned(cfg, active, binds, n - 1, s));
    }
  }

  lemma OpenedFollowing(mib: Mib, cfg: Config, s: State, binds: seq<Bind>)
    requires Faithful(mib, cfg, s.walk) && s.walk.open
    ensures Following(mib, cfg, s.walk.Names(), s.walk.active, binds, 0, Opened(s))
  {
    var width := |s.walk.active|;
    forall j {:trigger Before(s.walk.Names(), binds, j)} | 0 <= j < width
      ensures Before(s.walk.Names(), binds, j) == s.walk.last[s.walk.active[Turn(j, width)]]
    {
    }
  }

  lemma HandleTableFaithful(mib: Mib, cfg: Config, s: State, position: int, binds: seq<Bind>)
    requires Faithful(mib, cfg, s.walk) && s.walk.open && binds != []
    requires forall i {:trigger Before(s.walk.Names(), binds, i)} :: 0 <= i < |binds| ==>
               Follows(mib, Before(s.walk.Names(), binds, i), binds[i])
    ensures Faithful(mib, cfg, Handle(cfg, s, 0, position, binds).walk)
  {
    OpenedFollowing(mib, cfg, s, binds);
    ScannedFollowing(mib, cfg, s.walk.Names(), s.walk.active, binds, |binds|, Opened(s));
    ScannedSane(cfg, s.walk.active, binds, |binds|, Opened(s));
    var scan := Scanned(cfg, s.walk.active, binds, |binds|, Opened(s));
    HandleTableSafe(cfg, s, position, binds);
    HandleTableShape(cfg, s, position, binds);
    var r := Handle(cfg, s, 0, position, binds).walk;
    if r.complete {
      forall k | 0 <= k < |cfg.bases| && k !in r.active
        ensures Exhausted(mib, cfg.bases[k], r.last[k])
      {
        if k !in s.walk.active {
          assert Exhausted(mib, cfg.bases[k], s.walk.last[k]);
        } else {
          assert k in scan.done;
        }
      }
    }
  }

  lemma HandleErrorFaithful(mib: Mib, cfg: Config, s: State, status: int, position: int, binds: seq<Bind>)
    requires Faithful(mib, cfg, s.walk) && s.walk.open
    requires status != 0 || binds == []
    requires status == 2 && 1 <= position <= |s.walk.active| ==>
               AtEnd(mib, s.walk.Names()[position - 1])
    ensures Faithful(mib, cfg, Handle(cfg, s, status, position, binds).walk)
  {
    HandleErrorSafe(cfg, s, status, position, binds);
    var w, r := s.walk, Handle(cfg, s, status, position, binds).walk;
    if status == 2 && 1 <= position <= |w.active| {
      DropOne(w.active, position);
      var gone := w.active[position - 1];
      forall o | o in mib && Under(cfg.bases[gone], o) ensures AtMost(o, w.last[gone]) {
        assert w.Names()[position - 1] == w.last[gone];
        LessTotal(o, w.last[gone]);
      }
      assert Exhausted(mib, cfg.bases[gone], w.last[gone]);
    }
  }

  /** One request to an honest agent keeps the table true, column by column. */
  lemma AttemptFaithful(mib: Mib, cfg: Config, s: State, now: int, reply: Reply)
    requires Faithful(mib, cfg, s.walk) && s.walk.open
    requires Conforms(mib, s.walk.Names(), reply)
    ensures Faithful(mib, cfg, Attempt(cfg, s, now, reply).walk)
  {
    hide TableSane;
    hide Handle;
    hide Exhausted;
    hide UpTo;
    AttemptSafe(cfg, s, now, reply);
    var r := Attempt(cfg, s, now, reply);
    var retried := s.(walk := s.walk.(attempt := 0));
    if reply.Response? && reply.indication.Quiet?
       && r == Handle(cfg, retried, reply.status, reply.index, reply.binds) {
      assert retried.walk.Names() == s.walk.Names();
      if reply.status == 0 && reply.binds != [] {
        HandleTableFaithful(mib, cfg, retried, reply.index, reply.binds);
      } else {
        HandleErrorFaithful(mib, cfg, retried, reply.status, reply.index, reply.binds);
      }
    } else {
      assert r.walk.last == s.walk.last && r.walk.table == s.walk.table;
    }
  }
}
