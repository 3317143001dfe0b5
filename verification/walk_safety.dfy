/** What holds of every walk against every agent: the table stays well formed, cells are
    written once, in order, and only with what the agent sent. */
module WalkSafety {
  import opened Oids
  import opened Agent
  import opened Walk

  /** How a table may change: cells never change or go, rows keep their order, and what is
      new in a column lies beyond everything the column had. */
  ghost predicate Grows(cfg: Config, last0: seq<Oid>, t0: Table, last1: seq<Oid>, t1: Table)
    requires |last0| == |last1| == |cfg.bases|
  {
    && (forall index, k: nat {:trigger t0.Has(index, k)} {:trigger t1.Text(index, k)} | t0.Has(index, k) ::
          t1.Has(index, k) && t1.Text(index, k) == t0.Text(index, k))
    && (forall k :: 0 <= k < |last0| ==> AtMost(last0[k], last1[k]))
    && (forall index, k: nat {:trigger t1.Has(index, k)} | t1.Has(index, k) && !t0.Has(index, k) ::
          k < |cfg.bases| && Less(last0[k], cfg.bases[k] + index))
    && t0.order <= t1.order
  }

  lemma GrowsReflexive(cfg: Config, last: seq<Oid>, t: Table)
    requires |last| == |cfg.bases|
    ensures Grows(cfg, last, t, last, t)
  {
    assert t.order[..|t.order|] == t.order;
  }

  lemma GrowsTransitive(cfg: Config, last0: seq<Oid>, t0: Table, last1: seq<Oid>, t1: Table,
                        last2: seq<Oid>, t2: Table)
    requires |last0| == |last1| == |last2| == |cfg.bases|
    requires Grows(cfg, last0, t0, last1, t1) && Grows(cfg, last1, t1, last2, t2)
    ensures Grows(cfg, last0, t0, last2, t2)
  {
    forall k | 0 <= k < |last0| ensures AtMost(last0[k], last2[k]) {
      if last0[k] != last1[k] && last1[k] != last2[k] {
        LessTransitive(last0[k], last1[k], last2[k]);
      }
    }
    forall index, k: nat | t2.Has(index, k) && !t0.Has(index, k)
      ensures k < |cfg.bases| && Less(last0[k], cfg.bases[k] + index)
    {
      if !t1.Has(index, k) {
        assert AtMost(last0[k], last1[k]);
        AtMostLess(last0[k], last1[k], cfg.bases[k] + index);
      }
    }
  }

  /** Every new cell of `t1` is a binding among `binds`. */
  ghost predicate CameFrom(cfg: Config, t0: Table, t1: Table, binds: seq<Bind>) {
    forall index, k: nat {:trigger t1.Has(index, k)} | t1.Has(index, k) && !t0.Has(index, k) ::
      k < |cfg.bases| && Sent(cfg.bases[k] + index, t1.Text(index, k), binds)
  }

  ghost predicate Sent(name: Oid, text: string, binds: seq<Bind>) {
    exists i :: 0 <= i < |binds| && binds[i].name == name && binds[i].value == Val(text)
  }

  /** Whether `Take` stores the binding. */
  predicate Accepts(cfg: Config, key: nat, b: Bind, s: Scan)
    requires key < |cfg.bases| == |s.last|
  {
    && !s.cut && key !in s.done
    && b.value.Val? && Under(cfg.bases[key], b.name) && Less(s.last[key], b.name)
    && !(Index(cfg.bases[key], b.name) !in s.table.rows && cfg.Capped() && s.budget.rowsLeft <= 0)
  }

  lemma TakeStores(cfg: Config, key: nat, b: Bind, s: Scan)
    requires key < |cfg.bases| == |s.last| && TableSane(cfg, s.last, s.table)
    requires Accepts(cfg, key, b, s)
    ensures var t, index := Take(cfg, key, b, s).table, Index(cfg.bases[key], b.name);
            && !s.table.Has(index, key)
            && (forall i, k: nat :: t.Has(i, k) <==> s.table.Has(i, k) || (i == index && k == key))
            && t.Text(index, key) == b.value.text
            && (forall i, k: nat | s.table.Has(i, k) :: t.Text(i, k) == s.table.Text(i, k))
  {
    var index := Index(cfg.bases[key], b.name);
    if s.table.Has(index, key) {
      LessIrreflexive(b.name);
      LessAtMost(s.last[key], b.name, s.last[key]);
      LessIrreflexive(s.last[key]);
    }
  }

  lemma TakeSane(cfg: Config, key: nat, b: Bind, s: Scan)
    requires key < |cfg.bases| == |s.last| && TableSane(cfg, s.last, s.table)
    ensures var r := Take(cfg, key, b, s);
            && |r.last| == |cfg.bases|
            && TableSane(cfg, r.last, r.table)
            && Grows(cfg, s.last, s.table, r.last, r.table)
            && CameFrom(cfg, s.table, r.table, [b])
  {
    var r := Take(cfg, key, b, s);
    if Accepts(cfg, key, b, s) {
      var index := Index(cfg.bases[key], b.name);
      TakeStores(cfg, key, b, s);
      forall i, k: nat | r.table.Has(i, k)
        ensures k < |cfg.bases| && i != [] && AtMost(cfg.bases[k] + i, r.last[k])
      {
        if k == key && s.table.Has(i, k) {
          AtMostLess(cfg.bases[k] + i, s.last[k], b.name);
        }
      }
      assert [b][0] == b;
    } else {
      assert r.table == s.table && r.last == s.last;
    }
  }

  lemma {:induction false} ScannedSane(cfg: Config, active: seq<nat>, binds: seq<Bind>, n: nat, s: Scan)
    requires |s.last| == |cfg.bases| && active != [] && n <= |binds|
    requires forall i :: 0 <= i < |active| ==> active[i] < |cfg.bases|
    requires TableSane(cfg, s.last, s.table)
    ensures var r := Scanned(cfg, active, binds, n, s);
            && TableSane(cfg, r.last, r.table)
            && Grows(cfg, s.last, s.table, r.last, r.table)
            && CameFrom(cfg, s.table, r.table, binds)
  {
    hide Take;
    if n > 0 {
      var m := Scanned(cfg, active, binds, n - 1, s);
      var key, b := active[Turn(n - 1, |active|)], binds[n - 1];
      ScannedSane(cfg, active, binds, n - 1, s);
      TakeSane(cfg, key, b, m);
      var r := Take(cfg, key, b, m);
      GrowsTransitive(cfg, s.last, s.table, m.last, m.table, r.last, r.table);
      forall index, k: nat | r.table.Has(index, k) && !s.table.Has(index, k)
        ensures k < |cfg.bases| && Sent(cfg.bases[k] + index, r.table.Text(index, k), binds)
      {
        if m.table.Has(index, k) {
          assert r.table.Text(index, k) == m.table.Text(index, k);
        } else {
          assert Sent(cfg.bases[k] + index, r.table.Text(index, k), [b]);
        }
      }
    }
  }

  lemma ScannedTableSane(cfg: Config, active: seq<nat>, binds: seq<Bind>, n: nat, s: Scan)
    requires |s.last| == |cfg.bases| && active != [] && n <= |binds|
    requires forall i :: 0 <= i < |active| ==> active[i] < |cfg.bases|
    requires TableSane(cfg, s.last, s.table)
    ensures TableSane(cfg, Scanned(cfg, active, binds, n, s).last, Scanned(cfg, active, binds, n, s).table)
  {
    ScannedSane(cfg, active, binds, n, s);
  }

  function BindsOf(reply: Reply): seq<Bind> {
    if reply.Response? then reply.binds else []
  }

  lemma AttemptShaped(cfg: Config, s: State, now: int, reply: Reply)
    requires Shaped(cfg, s.walk) && s.walk.open
    ensures Shaped(cfg, Attempt(cfg, s, now, reply).walk)
  {
    var r := Attempt(cfg, s, now, reply);
    forall i | 0 <= i < |r.walk.active| ensures r.walk.active[i] < |cfg.bases| {
      if r.walk.active != s.walk.active {
        assert r.walk.active[i] in s.walk.active;
      }
    }
  }

  ghost predicate Safe(cfg: Config, s: State, r: State, binds: seq<Bind>)
    requires Sane(cfg, s.walk)
  {
    && Sane(cfg, r.walk)
    && Grows(cfg, s.walk.last, s.walk.table, r.walk.last, r.walk.table)
    && CameFrom(cfg, s.walk.table, r.walk.table, binds)
  }

  lemma ScannedComplete(cfg: Config, active: seq<nat>, binds: seq<Bind>, n: nat, s: Scan)
    requires |s.last| == |cfg.bases| && active != [] && n <= |binds|
    requires forall i :: 0 <= i < |active| ==> active[i] < |cfg.bases|
    ensures var r := Scanned(cfg, active, binds, n, s);
            if r.complete then s.complete && r.error == s.error
            else r.error == "OID not increasing" || (!s.complete && r.error == s.error)
  {
  }

  lemma UnmovedSafe(cfg: Config, s: State, r: State, binds: seq<Bind>)
    requires Sane(cfg, s.walk)
    requires r.walk.last == s.walk.last && r.walk.table == s.walk.table
    ensures TableSane(cfg, r.walk.last, r.walk.table)
    ensures Grows(cfg, s.walk.last, s.walk.table, r.walk.last, r.walk.table)
    ensures CameFrom(cfg, s.walk.table, r.walk.table, binds)
  {
  }

  lemma DropOne(active: seq<nat>, position: int)
    requires 1 <= position <= |active|
    requires forall i, j :: 0 <= i < j < |active| ==> active[i] != active[j]
    ensures var left := active[..position - 1] + active[position..];
            && |left| == |active| - 1
            && (forall k :: k in left <==> k in active && k != active[position - 1])
            && (forall i, j :: 0 <= i < j < |left| ==> left[i] != left[j])
  {
    var left := active[..position - 1] + active[position..];
    forall i | 0 <= i < |left|
      ensures left[i] == active[if i < position - 1 then i else i + 1]
    {
    }
    forall k | k in active && k != active[position - 1] ensures k in left {
      var i :| 0 <= i < |active| && active[i] == k;
      assert left[if i < position then i else i - 1] == k;
    }
  }

  lemma {:induction false} WithoutDistinct(active: seq<nat>, done: set<nat>)
    requires forall i, j :: 0 <= i < j < |active| ==> active[i] != active[j]
    ensures forall i, j :: 0 <= i < j < |Without(active, done)| ==>
              Without(active, done)[i] != Without(active, done)[j]
  {
    if active != [] {
      var front, at := active[..|active| - 1], active[|active| - 1];
      assert forall i, j :: 0 <= i < j < |front| ==> front[i] == active[i] && front[j] == active[j];
      WithoutDistinct(front, done);
      var kept := Without(front, done);
      forall i | 0 <= i < |kept| ensures kept[i] != at {
        assert kept[i] in front;
      }
    }
  }

  /** What a table does to the walk's bookkeeping. */
  lemma HandleTableShape(cfg: Config, s: State, position: int, binds: seq<Bind>)
    requires Sane(cfg, s.walk) && s.walk.open && binds != []
    ensures var r, scan := Handle(cfg, s, 0, position, binds).walk,
                           Scanned(cfg, s.walk.active, binds, |binds|, Opened(s));
            && r.last == scan.last && r.table == scan.table
            && (forall i :: 0 <= i < |r.active| ==> r.active[i] < |cfg.bases|)
            && (forall i, j :: 0 <= i < j < |r.active| ==> r.active[i] != r.active[j])
            && (r.open ==> r.active != [] && !r.stats.truncated)
            && (!r.open && r.complete ==> r.active == [])
            && (r.complete <==> r.stats.error == "" && !r.stats.truncated)
            && (r.complete ==> !r.stats.timeout)
            && r.attempt == s.walk.attempt
  {
    ScannedComplete(cfg, s.walk.active, binds, |binds|, Opened(s));
    WithoutDistinct(s.walk.active, Scanned(cfg, s.walk.active, binds, |binds|, Opened(s)).done);
    var r := Handle(cfg, s, 0, position, binds).walk;
    forall i | 0 <= i < |r.active| ensures r.active[i] < |cfg.bases| {
      assert r.active[i] in s.walk.active;
    }
  }

  lemma HandleTableSafe(cfg: Config, s: State, position: int, binds: seq<Bind>)
    requires Sane(cfg, s.walk) && s.walk.open && binds != []
    ensures Safe(cfg, s, Handle(cfg, s, 0, position, binds), binds)
  {
    ScannedSane(cfg, s.walk.active, binds, |binds|, Opened(s));
    HandleTableShape(cfg, s, position, binds);
  }

  lemma HandleErrorSafe(cfg: Config, s: State, status: int, position: int, binds: seq<Bind>)
    requires Sane(cfg, s.walk) && s.walk.open
    requires status != 0 || binds == []
    ensures Safe(cfg, s, Handle(cfg, s, status, position, binds), binds)
  {
    var w := s.walk;
    var r := Handle(cfg, s, status, position, binds);
    UnmovedSafe(cfg, s, r, binds);
    if status == 2 && 1 <= position <= |w.active| {
      DropOne(w.active, position);
      forall i | 0 <= i < |r.walk.active| ensures r.walk.active[i] < |cfg.bases| {
        assert r.walk.active[i] in w.active;
      }
    }
  }

  /** One request, whatever comes back: the walk stays sane, and what it adds came back in
      that very reply. */
  lemma AttemptSafe(cfg: Config, s: State, now: int, reply: Reply)
    requires Sane(cfg, s.walk) && s.walk.open
    ensures Safe(cfg, s, Attempt(cfg, s, now, reply), BindsOf(reply))
  {
    var r := Attempt(cfg, s, now, reply);
    var retried := s.(walk := s.walk.(attempt := 0));
    if reply.Response? && r == Handle(cfg, retried, reply.status, reply.index, reply.binds) {
      if reply.status == 0 && reply.binds != [] {
        HandleTableSafe(cfg, retried, reply.index, reply.binds);
      } else {
        HandleErrorSafe(cfg, retried, reply.status, reply.index, reply.binds);
      }
    } else {
      UnmovedSafe(cfg, s, r, BindsOf(reply));
    }
  }
}
