/** What a walk may cost: its rows against the shared allowance, and the number of requests
    any agent can draw out of it. */
module WalkBounds {
  import opened Oids
  import opened Agent
  import opened Walk
  import opened WalkSafety

  // ---- The shared budget ----

  /** How the budget may move while a walk goes from table `t0` to table `t1`. */
  ghost predicate Spends(cfg: Config, t0: Table, b0: Budget, t1: Table, b1: Budget) {
    && b1.deadline == b0.deadline
    && (if cfg.Capped() then b1.rowsLeft + |t1.order| == b0.rowsLeft + |t0.order|
        else b1.rowsLeft == b0.rowsLeft)
    && (b0.rowsLeft >= 0 ==> b1.rowsLeft >= 0)
    && (b0.truncated ==> b1.truncated)
    && (b0.reason != Unset ==> b1.reason == b0.reason)
  }

  lemma ScannedSpends(cfg: Config, active: seq<nat>, binds: seq<Bind>, n: nat, s: Scan)
    requires |s.last| == |cfg.bases| && active != [] && n <= |binds|
    requires forall i :: 0 <= i < |active| ==> active[i] < |cfg.bases|
    ensures var r := Scanned(cfg, active, binds, n, s);
            && Spends(cfg, s.table, s.budget, r.table, r.budget)
            && r.budget.truncated == s.budget.truncated && r.budget.reason == s.budget.reason
            && (!cfg.Capped() ==> r.cut == s.cut)
  {
  }

  /** One request moves the budget by exactly the rows it created, and marks it spent exactly
      when it cuts the walk. */
  lemma AttemptSpends(cfg: Config, s: State, now: int, reply: Reply)
    requires Sane(cfg, s.walk) && s.walk.open
    ensures var r := Attempt(cfg, s, now, reply);
            && Spends(cfg, s.walk.table, s.budget, r.walk.table, r.budget)
            && (r.walk.stats.truncated ==> r.budget.truncated && cfg.budgeted)
            && (r.walk.stats.truncated && s.budget.reason == Unset ==> r.budget.reason != Unset)
            && (!r.walk.stats.truncated ==>
                  r.budget.truncated == s.budget.truncated && r.budget.reason == s.budget.reason)
  {
    hide Scanned;
    if reply.Response? && reply.binds != [] {
      ScannedSpends(cfg, s.walk.active, reply.binds, |reply.binds|,
                    Opened(s.(walk := s.walk.(attempt := 0))));
    }
  }

  // ---- Counting cells ----

  function RowSize(rows: map<Oid, map<nat, string>>, index: Oid): nat {
    if index in rows then |rows[index]| else 0
  }

  function CellsIn(order: seq<Oid>, rows: map<Oid, map<nat, string>>): nat {
    if order == [] then 0
    else CellsIn(order[..|order| - 1], rows) + RowSize(rows, order[|order| - 1])
  }

  ghost predicate Listed(t: Table) {
    && (forall index :: index in t.order <==> index in t.rows)
    && (forall i, j :: 0 <= i < j < |t.order| ==> t.order[i] != t.order[j])
  }

  function Cells(t: Table): nat {
    CellsIn(t.order, t.rows)
  }

  lemma {:induction false} CellsElsewhere(order: seq<Oid>, rows: map<Oid, map<nat, string>>,
                                          index: Oid, row: map<nat, string>)
    requires index !in order
    ensures CellsIn(order, rows[index := row]) == CellsIn(order, rows)
  {
    if order != [] {
      assert order[|order| - 1] in order;
      CellsElsewhere(order[..|order| - 1], rows, index, row);
    }
  }

  lemma {:induction false} CellsOneMore(order: seq<Oid>, rows: map<Oid, map<nat, string>>,
                                        index: Oid, row: map<nat, string>)
    requires forall i, j :: 0 <= i < j < |order| ==> order[i] != order[j]
    requires index in order && |row| == RowSize(rows, index) + 1
    ensures CellsIn(order, rows[index := row]) == CellsIn(order, rows) + 1
  {
    var front, at := order[..|order| - 1], order[|order| - 1];
    if at == index {
      assert index !in front;
      CellsElsewhere(front, rows, index, row);
    } else {
      assert index in front by {
        var i :| 0 <= i < |order| && order[i] == index;
        assert front[i] == index;
      }
      CellsOneMore(front, rows, index, row);
    }
  }

  lemma PutListed(t: Table, index: Oid, key: nat, text: string)
    requires Listed(t)
    ensures Listed(t.Put(index, key, text))
  {
    var t' := t.Put(index, key, text);
    if index !in t.rows {
      assert forall i :: 0 <= i < |t.order| ==> t'.order[i] == t.order[i];
    }
  }

  lemma RowOneMore(row: map<nat, string>, key: nat, text: string)
    requires key !in row
    ensures |row[key := text]| == |row| + 1
  {
    assert row[key := text].Keys == row.Keys + {key};
  }

  lemma PutCounts(t: Table, index: Oid, key: nat, text: string)
    requires Listed(t) && Listed(t.Put(index, key, text)) && !t.Has(index, key)
    ensures Cells(t.Put(index, key, text)) == Cells(t) + 1
  {
    var t' := t.Put(index, key, text);
    if index in t.rows {
      RowOneMore(t.rows[index], key, text);
      CellsOneMore(t.order, t.rows, index, t.rows[index][key := text]);
    } else {
      var row: map<nat, string> := map[];
      RowOneMore(row, key, text);
      CellsElsewhere(t.order, t.rows, index, row[key := text]);
      assert t'.order[..|t'.order| - 1] == t.order;
    }
  }

  lemma {:induction false} KeysBelow(keys: set<nat>, n: nat)
    requires forall k :: k in keys ==> k < n
    ensures |keys| <= n
  {
    if n > 0 {
      KeysBelow(keys - {n - 1}, n - 1);
      if n - 1 in keys {
        assert keys == (keys - {n - 1}) + {n - 1};
      }
    } else {
      assert keys == {};
    }
  }

  /** A row has at most one cell per column. */
  lemma {:induction false} CellsBounded(order: seq<Oid>, rows: map<Oid, map<nat, string>>, columns: nat)
    requires forall index, k: nat :: index in rows && k in rows[index] ==> k < columns
    ensures CellsIn(order, rows) <= columns * |order|
  {
    if order != [] {
      CellsBounded(order[..|order| - 1], rows, columns);
      if order[|order| - 1] in rows {
        KeysBelow(rows[order[|order| - 1]].Keys, columns);
      }
      assert columns * |order| == columns * (|order| - 1) + columns;
    }
  }

  // ---- How much one response uses up ----

  /** OIDs still above the cursors. */
  function Ahead(last: seq<Oid>, depth: nat): nat {
    if last == [] then 0 else Above(last[0], depth) + Ahead(last[1..], depth)
  }

  lemma {:induction false} AheadShrinks(last: seq<Oid>, key: nat, o: WireOid, depth: nat)
    requires depth >= MAX_LENGTH && forall k :: 0 <= k < |last| ==> Legal(last[k])
    requires key < |last| && Less(last[key], o)
    ensures Ahead(last[key := o], depth) < Ahead(last, depth)
  {
    if key == 0 {
      RankIncreases(last[0], o, depth);
      assert last[key := o][1..] == last[1..];
    } else {
      AheadShrinks(last[1..], key - 1, o, depth);
      assert last[key := o][1..] == last[1..][key - 1 := o];
    }
  }

  ghost predicate LegalCursors(last: seq<Oid>) {
    forall k :: 0 <= k < |last| ==> Legal(last[k])
  }

  /** Cells gained and columns closed, from `s` to `r`, and the cursors moved for them. */
  ghost predicate Uses(s: Scan, r: Scan, atLeast: nat, depth: nat)
  {
    && Cells(r.table) + |r.done| >= Cells(s.table) + |s.done| + atLeast
    && Ahead(r.last, depth) + |s.done| + atLeast <= Ahead(s.last, depth) + |r.done|
  }

  lemma TableListed(cfg: Config, last: seq<Oid>, t: Table)
    requires |last| == |cfg.bases| && TableSane(cfg, last, t)
    ensures Listed(t)
  {
  }

  lemma AcceptMoves(cfg: Config, key: nat, b: Bind, s: Scan)
    requires key < |cfg.bases| == |s.last| && TableSane(cfg, s.last, s.table)
    requires Accepts(cfg, key, b, s)
    ensures var r, index := Take(cfg, key, b, s), Index(cfg.bases[key], b.name);
            && r.table == s.table.Put(index, key, b.value.text)
            && r.last == s.last[key := b.name] && r.done == s.done
            && !s.table.Has(index, key) && Less(s.last[key], b.name)
  {
    TakeStores(cfg, key, b, s);
  }

  lemma AcceptUses(cfg: Config, key: nat, b: Bind, s: Scan, depth: nat)
    requires depth >= MAX_LENGTH
    requires key < |cfg.bases| == |s.last| && TableSane(cfg, s.last, s.table) && LegalCursors(s.last)
    requires Accepts(cfg, key, b, s)
    ensures var r := Take(cfg, key, b, s);
            && LegalCursors(r.last) && Listed(r.table)
            && Cells(r.table) == Cells(s.table) + 1 && Ahead(r.last, depth) < Ahead(s.last, depth)
  {
    hide Take;
    hide TableSane;
    hide Listed;
    hide Cells;
    hide Ahead;
    hide Table.Put;
    hide Table.Has;
    var index := Index(cfg.bases[key], b.name);
    AcceptMoves(cfg, key, b, s);
    TableListed(cfg, s.last, s.table);
    PutListed(s.table, index, key, b.value.text);
    PutCounts(s.table, index, key, b.value.text);
    AheadShrinks(s.last, key, b.name, depth);
  }

  lemma TakeUses(cfg: Config, key: nat, b: Bind, s: Scan, depth: nat)
    requires depth >= MAX_LENGTH
    requires key < |cfg.bases| == |s.last| && TableSane(cfg, s.last, s.table) && LegalCursors(s.last)
    ensures var r := Take(cfg, key, b, s);
            && LegalCursors(r.last) && Listed(r.table)
            && Uses(s, r, if key !in s.done && !r.cut then 1 else 0, depth)
  {
    hide TableSane;
    hide Listed;
    hide Cells;
    hide Ahead;
    hide Table.Put;
    hide LegalCursors;
    TableListed(cfg, s.last, s.table);
    var r := Take(cfg, key, b, s);
    if Accepts(cfg, key, b, s) {
      AcceptUses(cfg, key, b, s, depth);
      assert r.done == s.done by { AcceptMoves(cfg, key, b, s); }
    } else {
      assert r.table == s.table && r.last == s.last;
    }
  }

  lemma NextUses(cfg: Config, key: nat, b: Bind, s: Scan, m: Scan, depth: nat)
    requires depth >= MAX_LENGTH
    requires LegalCursors(s.last) && Listed(s.table)
    requires key < |cfg.bases| == |m.last| && TableSane(cfg, m.last, m.table) && LegalCursors(m.last)
    requires m.cut || Uses(s, m, 1, depth)
    ensures var r := Take(cfg, key, b, m);
            && LegalCursors(r.last) && Listed(r.table)
            && (r.cut || Uses(s, r, 1, depth))
  {
    hide TableSane;
    hide Listed;
    hide LegalCursors;
    hide Cells;
    hide Ahead;
    hide Take;
    TakeUses(cfg, key, b, m, depth);
    TakeDone(cfg, key, b, m);
  }

  /** A response with a binding in it moves at least one cursor, closes at least one column,
      or cuts the walk. */
  lemma {:induction false} ScannedUses(cfg: Config, active: seq<nat>, binds: seq<Bind>, n: nat, s: Scan,
                                       depth: nat)
    requires depth >= MAX_LENGTH
    requires |s.last| == |cfg.bases| && active != [] && 0 < n <= |binds|
    requires forall i :: 0 <= i < |active| ==> active[i] < |cfg.bases|
    requires TableSane(cfg, s.last, s.table) && LegalCursors(s.last) && s.done == {} && !s.cut
    ensures var r := Scanned(cfg, active, binds, n, s);
            && LegalCursors(r.last) && Listed(r.table)
            && (r.cut || Uses(s, r, 1, depth))
  {
    hide Take;
    hide TableSane;
    hide Listed;
    hide LegalCursors;
    hide Uses;
    var key := active[Turn(n - 1, |active|)];
    if n == 1 {
      TakeUses(cfg, key, binds[0], s, depth);
    } else {
      ScannedUses(cfg, active, binds, n - 1, s, depth);
      ScannedTableSane(cfg, active, binds, n - 1, s);
      TableListed(cfg, s.last, s.table);
      NextUses(cfg, key, binds[n - 1], s, Scanned(cfg, active, binds, n - 1, s), depth);
    }
  }

  lemma {:induction false} ScannedDone(cfg: Config, active: seq<nat>, binds: seq<Bind>, n: nat, s: Scan)
    requires |s.last| == |cfg.bases| && active != [] && n <= |binds| && s.done == {}
    requires forall i :: 0 <= i < |active| ==> active[i] < |cfg.bases|
    ensures forall k :: k in Scanned(cfg, active, binds, n, s).done ==> k in active
  {
    if n > 0 {
      ScannedDone(cfg, active, binds, n - 1, s);
      var key := active[Turn(n - 1, |active|)];
      assert key in active;
      TakeDone(cfg, key, binds[n - 1], Scanned(cfg, active, binds, n - 1, s));
    }
  }

  lemma TakeDone(cfg: Config, key: nat, b: Bind, s: Scan)
    requires key < |cfg.bases| == |s.last|
    ensures Take(cfg, key, b, s).done <= s.done + {key}
    ensures s.cut ==> Take(cfg, key, b, s).cut
  {
  }

  lemma {:induction false} WithoutLength(active: seq<nat>, done: set<nat>)
    requires forall i, j :: 0 <= i < j < |active| ==> active[i] != active[j]
    requires forall k :: k in done ==> k in active
    ensures |Without(active, done)| == |active| - |done|
  {
    if active == [] {
      assert done == {};
    } else {
      var front, at := active[..|active| - 1], active[|active| - 1];
      assert active == front + [at];
      var rest := done - {at};
      WithoutLength(front, rest);
      WithoutIrrelevant(front, done, at);
      if at in done {
        assert done == rest + {at};
      } else {
        assert rest == done;
      }
    }
  }

  lemma {:induction false} WithoutIrrelevant(active: seq<nat>, done: set<nat>, k: nat)
    requires k !in active
    ensures Without(active, done) == Without(active, done - {k})
  {
    if active != [] {
      assert active == [active[0]] + active[1..];
      WithoutIrrelevant(active[..|active| - 1], done, k);
    }
  }

  /** How often a number can be halved before it reaches 1: floor(log2). */
  function Halvings(m: nat): nat {
    if m <= 1 then 0 else 1 + Halvings(m / 2)
  }

  // ---- Rounds left ----

  /** Loop iterations left, counted against the row allowance. */
  function RoundsByRows(cfg: Config, s: State): int {
    |cfg.bases| * (|s.walk.table.order| + s.budget.rowsLeft) - Cells(s.walk.table)
    + |s.walk.active| + Halvings(s.walk.maxRep)
  }

  /** Loop iterations left, counted against the OID universe. */
  function RoundsByOids(s: State, depth: nat): nat {
    Ahead(s.walk.last, depth) + |s.walk.active| + Halvings(s.walk.maxRep)
  }

  /** A request either spends a retry or brings the walk a round nearer to its end. */
  ghost predicate Advances(cfg: Config, s: State, r: State, depth: nat)
  {
    if r.walk.attempt == s.walk.attempt + 1 then
      RoundsByOids(r, depth) == RoundsByOids(s, depth) && RoundsByRows(cfg, r) == RoundsByRows(cfg, s)
    else
      && r.walk.attempt == 0
      && RoundsByOids(r, depth) < RoundsByOids(s, depth)
      && (cfg.Capped() ==> RoundsByRows(cfg, r) < RoundsByRows(cfg, s))
  }

  lemma SameProduct(c: int, x: int, y: int)
    requires x == y
    ensures c * x == c * y
  {
  }

  /** Where a table leaves a walk that stays open. */
  lemma TableLeaves(cfg: Config, s: State, position: int, binds: seq<Bind>)
    requires Sane(cfg, s.walk) && s.walk.open && binds != []
    ensures var r, scan := Handle(cfg, s, 0, position, binds),
                           Scanned(cfg, s.walk.active, binds, |binds|, Opened(s));
            && r.walk.last == scan.last && r.walk.table == scan.table
            && r.walk.attempt == s.walk.attempt && r.walk.maxRep == s.walk.maxRep
            && (r.walk.open ==>
                  && !scan.cut && r.budget == scan.budget
                  && |r.walk.active| == |s.walk.active| - |scan.done|)
  {
    var scan := Scanned(cfg, s.walk.active, binds, |binds|, Opened(s));
    ScannedDone(cfg, s.walk.active, binds, |binds|, Opened(s));
    WithoutLength(s.walk.active, scan.done);
  }

  lemma TableAdvances(cfg: Config, s: State, position: int, binds: seq<Bind>, depth: nat)
    requires depth >= MAX_LENGTH
    requires Sane(cfg, s.walk) && s.walk.open && LegalCursors(s.walk.last) && binds != []
    ensures var r := Handle(cfg, s, 0, position, binds);
            && LegalCursors(r.walk.last)
            && (r.walk.open ==>
                  && RoundsByOids(r, depth) < RoundsByOids(s, depth)
                  && (cfg.Capped() ==> RoundsByRows(cfg, r) < RoundsByRows(cfg, s)))
  {
    var r := Handle(cfg, s, 0, position, binds);
    var scan := Scanned(cfg, s.walk.active, binds, |binds|, Opened(s));
    TableLeaves(cfg, s, position, binds);
    ScannedUses(cfg, s.walk.active, binds, |binds|, Opened(s), depth);
    if r.walk.open {
      assert Uses(Opened(s), scan, 1, depth);
      ScannedSpends(cfg, s.walk.active, binds, |binds|, Opened(s));
      TableAdvancesBy(cfg, s, r, scan, depth);
    }
  }

  lemma TableAdvancesBy(cfg: Config, s: State, r: State, scan: Scan, depth: nat)
    requires depth >= MAX_LENGTH
    requires r.walk.last == scan.last && r.walk.table == scan.table && r.budget == scan.budget
    requires r.walk.maxRep == s.walk.maxRep && |r.walk.active| == |s.walk.active| - |scan.done|
    requires Uses(Opened(s), scan, 1, depth)
    requires cfg.Capped() ==>
               |r.walk.table.order| + r.budget.rowsLeft == |s.walk.table.order| + s.budget.rowsLeft
    ensures RoundsByOids(r, depth) < RoundsByOids(s, depth)
    ensures cfg.Capped() ==> RoundsByRows(cfg, r) < RoundsByRows(cfg, s)
  {
    if cfg.Capped() {
      SameProduct(|cfg.bases|, |r.walk.table.order| + r.budget.rowsLeft,
                  |s.walk.table.order| + s.budget.rowsLeft);
    }
  }

  lemma ErrorAdvances(cfg: Config, s: State, status: int, position: int, binds: seq<Bind>, depth: nat)
    requires depth >= MAX_LENGTH
    requires Sane(cfg, s.walk) && s.walk.open && LegalCursors(s.walk.last) && s.walk.attempt == 0
    requires status != 0 || binds == []
    ensures var r := Handle(cfg, s, status, position, binds);
            && r.walk.last == s.walk.last && r.walk.table == s.walk.table
            && r.walk.attempt == 0
            && (r.walk.open ==>
                  && RoundsByOids(r, depth) < RoundsByOids(s, depth)
                  && RoundsByRows(cfg, r) < RoundsByRows(cfg, s))
  {
  }

  lemma RetryAdvances(cfg: Config, s: State, r: State, depth: nat)
    requires depth >= MAX_LENGTH
    requires LegalCursors(s.walk.last)
    requires r.walk.last == s.walk.last && r.walk.table == s.walk.table && r.budget == s.budget
    requires r.walk.active == s.walk.active && r.walk.maxRep == s.walk.maxRep
    requires r.walk.attempt == s.walk.attempt + 1
    ensures LegalCursors(r.walk.last) && Advances(cfg, s, r, depth)
  {
  }

  lemma AttemptAdvances(cfg: Config, s: State, now: int, reply: Reply, depth: nat)
    requires depth >= MAX_LENGTH
    requires Sane(cfg, s.walk) && s.walk.open && LegalCursors(s.walk.last)
    ensures var r := Attempt(cfg, s, now, reply);
            && LegalCursors(r.walk.last)
            && (r.walk.open ==> Advances(cfg, s, r, depth))
  {
    var r := Attempt(cfg, s, now, reply);
    var retried := s.(walk := s.walk.(attempt := 0));
    if reply.Response? && r == Handle(cfg, retried, reply.status, reply.index, reply.binds) {
      assert RoundsByOids(retried, depth) == RoundsByOids(s, depth);
      assert RoundsByRows(cfg, retried) == RoundsByRows(cfg, s);
      if reply.status == 0 && reply.binds != [] {
        TableAdvances(cfg, retried, reply.index, reply.binds, depth);
        TableLeaves(cfg, retried, reply.index, reply.binds);
      } else {
        ErrorAdvances(cfg, retried, reply.status, reply.index, reply.binds, depth);
      }
    } else if r.walk.open {
      RetryAdvances(cfg, s, r, depth);
    } else {
      assert r.walk.last == s.walk.last;
    }
  }

  /** An open walk has rounds left. */
  lemma RoundsPositive(cfg: Config, s: State)
    requires Sane(cfg, s.walk) && s.walk.open && s.budget.rowsLeft >= 0
    ensures RoundsByRows(cfg, s) >= 1
  {
    CellsFit(cfg, s.walk.last, s.walk.table);
    assert |cfg.bases| * (|s.walk.table.order| + s.budget.rowsLeft)
           == |cfg.bases| * |s.walk.table.order| + |cfg.bases| * s.budget.rowsLeft;
  }

  lemma CellsFit(cfg: Config, last: seq<Oid>, t: Table)
    requires |last| == |cfg.bases| && TableSane(cfg, last, t)
    ensures Cells(t) <= |cfg.bases| * |t.order|
  {
    forall index, k: nat | index in t.rows && k in t.rows[index] ensures k < |cfg.bases| {
      assert t.Has(index, k);
    }
    CellsBounded(t.order, t.rows, |cfg.bases|);
  }
}
