/** The converse of soundness: a walk of an honest agent ends incomplete only for a cause that
    lies outside it - an answer it cannot use, time, or too small an allowance. */
module WalkComplete {
  import opened Oids
  import opened Agent
  import opened Walk
  import opened WalkSafety
  import opened WalkExact
  import opened WalkBounds
  import opened WalkRun

  /** A reply the walk goes on from: a request to be sent again, a response with bindings, an
      SNMPv1 end of a column, or a complaint about size that can be met. */
  predicate Usable(cfg: Config, w: Walk, reply: Reply) {
    reply.Response?
    && (if reply.indication != Quiet then reply.indication == TimedOut && w.attempt < cfg.retries
        else
          || (reply.status == 0 && reply.binds != [])
          || (reply.status == 2 && 1 <= reply.index <= |w.active|)
          || (reply.status == 1 && w.maxRep > 1))
  }

  /** The rows the MIB has in any of the columns. */
  function RowsOf(mib: Mib, bases: seq<Oid>): (rows: set<Oid>)
    ensures forall k, index | 0 <= k < |bases| && index != [] && bases[k] + index in mib :: index in rows
  {
    var rows := set o, k | o in mib && 0 <= k < |bases| && Under(bases[k], o) :: Index(bases[k], o);
    forall k, index | 0 <= k < |bases| && index != [] && bases[k] + index in mib ensures index in rows {
      UnderSum(bases[k], index);
      assert Under(bases[k], bases[k] + index) && Index(bases[k], bases[k] + index) == index;
    }
    rows
  }

  /** The allowance covers the rows still to be made. */
  ghost predicate Enough(mib: Mib, cfg: Config, t: Table, b: Budget) {
    cfg.Capped() ==> b.rowsLeft + |t.order| >= |RowsOf(mib, cfg.bases)|
  }

  lemma SomeCell(row: map<nat, string>)
    requires row != map[]
    ensures exists k :: k in row
  {
    assert (forall k :: k !in row) ==> row == map[];
  }

  /** Rows made are rows of the MIB. */
  lemma RowIsOfMib(mib: Mib, cfg: Config, last: seq<Oid>, t: Table, index: Oid)
    requires |last| == |cfg.bases| && TableSane(cfg, last, t) && index in t.order
    requires forall k | 0 <= k < |cfg.bases| :: UpTo(mib, cfg.bases[k], last[k], t, k)
    ensures index in RowsOf(mib, cfg.bases)
  {
    SomeCell(t.rows[index]);
    var k :| k in t.rows[index];
    assert t.Has(index, k);
    assert UpTo(mib, cfg.bases[k], last[k], t, k);
  }

  lemma {:induction false} DistinctFit(list: seq<Oid>, all: set<Oid>)
    requires forall i, j :: 0 <= i < j < |list| ==> list[i] != list[j]
    requires forall x | x in list :: x in all
    ensures |list| <= |all|
  {
    if list != [] {
      var last := list[|list| - 1];
      assert last in list;
      forall x | x in list[..|list| - 1] ensures x in all - {last} {
      }
      DistinctFit(list[..|list| - 1], all - {last});
    }
  }

  /** A new row of the MIB is always paid for. */
  lemma RowAffordable(mib: Mib, cfg: Config, s: Scan, index: Oid)
    requires |s.last| == |cfg.bases| && TableSane(cfg, s.last, s.table) && Enough(mib, cfg, s.table, s.budget)
    requires forall k | 0 <= k < |cfg.bases| :: UpTo(mib, cfg.bases[k], s.last[k], s.table, k)
    requires cfg.Capped() && index in RowsOf(mib, cfg.bases) && index !in s.table.rows
    ensures s.budget.rowsLeft > 0
  {
    hide RowsOf;
    var all := RowsOf(mib, cfg.bases);
    forall x | x in s.table.order ensures x in all - {index} {
      RowIsOfMib(mib, cfg, s.last, s.table, x);
    }
    DistinctFit(s.table.order, all - {index});
  }

  lemma TakeUncut(mib: Mib, cfg: Config, names: seq<Oid>, active: seq<nat>, binds: seq<Bind>, n: nat, s: Scan)
    requires |s.last| == |cfg.bases| && |names| == |active| && active != [] && n < |binds|
    requires forall i :: 0 <= i < |active| ==> active[i] < |cfg.bases|
    requires Following(mib, cfg, names, active, binds, n, s) && !s.cut
    requires Follows(mib, Before(names, binds, n), binds[n])
    requires Enough(mib, cfg, s.table, s.budget)
    ensures !Take(cfg, active[Turn(n, |active|)], binds[n], s).cut
  {
    hide RowsOf;
    hide UpTo;
    hide Exhausted;
    hide TableSane;
    hide Enough;
    var key, b := active[Turn(n, |active|)], binds[n];
    if key !in s.done && b.value.Val? && Under(cfg.bases[key], b.name) && cfg.Capped()
       && Index(cfg.bases[key], b.name) !in s.table.rows {
      AlignedHere(names, active, binds, n, s.done, s.last);
      var index := Index(cfg.bases[key], b.name);
      assert cfg.bases[key] + index == b.name;
      RowAffordable(mib, cfg, s, index);
    }
  }

  lemma {:induction false} ScannedUncut(mib: Mib, cfg: Config, names: seq<Oid>, active: seq<nat>,
                                        binds: seq<Bind>, n: nat, s: Scan)
    requires |s.last| == |cfg.bases| && |names| == |active| && active != [] && n <= |binds|
    requires forall i :: 0 <= i < |active| ==> active[i] < |cfg.bases|
    requires forall i, j :: 0 <= i < j < |active| ==> active[i] != active[j]
    requires forall i {:trigger Before(names, binds, i)} :: 0 <= i < |binds| ==>
               Follows(mib, Before(names, binds, i), binds[i])
    requires Following(mib, cfg, names, active, binds, 0, s) && !s.cut
    requires Enough(mib, cfg, s.table, s.budget)
    ensures !Scanned(cfg, active, binds, n, s).cut
  {
    hide Take;
    hide Following;
    hide Follows;
    hide RowsOf;
    if n > 0 {
      ScannedUncut(mib, cfg, names, active, binds, n - 1, s);
      ScannedFollowing(mib, cfg, names, active, binds, n - 1, s);
      ScannedSpends(cfg, active, binds, n - 1, s);
      assert Follows(mib, Before(names, binds, n - 1), binds[n - 1]);
      TakeUncut(mib, cfg, names, active, binds, n - 1, Scanned(cfg, active, binds, n - 1, s));
    }
  }

  lemma TableCompletes(mib: Mib, cfg: Config, s: State, position: int, binds: seq<Bind>)
    requires Faithful(mib, cfg, s.walk) && s.walk.open && binds != [] && Enough(mib, cfg, s.walk.table, s.budget)
    requires forall i {:trigger Before(s.walk.Names(), binds, i)} :: 0 <= i < |binds| ==>
               Follows(mib, Before(s.walk.Names(), binds, i), binds[i])
    ensures Handle(cfg, s, 0, position, binds).walk.complete
  {
    hide UpTo;
    hide Exhausted;
    hide TableSane;
    hide RowsOf;
    hide Aligned;
    OpenedFollowing(mib, cfg, s, binds);
    ScannedFollowing(mib, cfg, s.walk.Names(), s.walk.active, binds, |binds|, Opened(s));
    ScannedUncut(mib, cfg, s.walk.Names(), s.walk.active, binds, |binds|, Opened(s));
    hide Scanned;
  }

  /** A request that is answered usably, in time, by an honest agent leaves the walk complete so
      far. */
  lemma AttemptCompletes(mib: Mib, cfg: Config, s: State, now: int, reply: Reply)
    requires Faithful(mib, cfg, s.walk) && s.walk.open && Enough(mib, cfg, s.walk.table, s.budget)
    requires Conforms(mib, s.walk.Names(), reply) && Usable(cfg, s.walk, reply)
    requires cfg.budgeted ==> now < s.budget.deadline
    ensures var r := Attempt(cfg, s, now, reply);
            r.walk.complete && Enough(mib, cfg, r.walk.table, r.budget) && r.budget.deadline == s.budget.deadline
  {
    hide RowsOf;
    hide TableSane;
    hide UpTo;
    hide Exhausted;
    hide Scanned;
    AttemptSpends(cfg, s, now, reply);
    var retried := s.(walk := s.walk.(attempt := 0));
    if reply.indication == Quiet && reply.status == 0 {
      assert retried.walk.Names() == s.walk.Names();
      TableCompletes(mib, cfg, retried, reply.index, reply.binds);
    }
  }

  /** Something stood in the way of the request sent at moment `m`. */
  ghost predicate Hindered(world: World, context: Context, cfg: Config, s: State, at: nat)
    requires Shaped(cfg, s.walk)
  {
    s.walk.open
    && ((cfg.budgeted && world.clock(at) >= s.budget.deadline)
        || !Usable(cfg, s.walk, ReplyTo(world, context, cfg, s, at)))
  }

  /** One of the first `n` requests was hindered. */
  ghost predicate HinderedBefore(world: World, context: Context, cfg: Config, s: State, at: nat, n: nat)
    requires Shaped(cfg, s.walk)
  {
    exists m: nat {:trigger Run(world, context, cfg, s, at, m)} ::
      m < n && Hindered(world, context, cfg, Run(world, context, cfg, s, at, m), at + m)
  }

  lemma FaithfulShaped(mib: Mib, cfg: Config, w: Walk)
    requires Faithful(mib, cfg, w)
    ensures Shaped(cfg, w)
  {
  }

  lemma NextCompletes(world: World, context: Context, cfg: Config, s: State, at: nat, mib: Mib)
    requires Shaped(cfg, s.walk) && Answers(world, context, mib) && Faithful(mib, cfg, s.walk) && s.walk.complete
    requires Enough(mib, cfg, s.walk.table, s.budget) && !Hindered(world, context, cfg, s, at)
    ensures var r := Next(world, context, cfg, s, at);
            r.walk.complete && Enough(mib, cfg, r.walk.table, r.budget) && r.budget.deadline == s.budget.deadline
  {
    hide Attempt;
    hide Faithful;
    hide Enough;
    hide Conforms;
    FaithfulShaped(mib, cfg, s.walk);
    if s.walk.open {
      assert Conforms(mib, s.walk.Names(), ReplyTo(world, context, cfg, s, at));
      AttemptCompletes(mib, cfg, s, world.clock(at), ReplyTo(world, context, cfg, s, at));
    }
  }

  lemma {:induction false} RunCompletes(world: World, context: Context, cfg: Config, s: State, at: nat, n: nat,
                                        mib: Mib)
    requires Shaped(cfg, s.walk) && Answers(world, context, mib) && Faithful(mib, cfg, s.walk) && s.walk.complete
    requires Enough(mib, cfg, s.walk.table, s.budget)
    requires !HinderedBefore(world, context, cfg, s, at, n)
    ensures var r := Run(world, context, cfg, s, at, n);
            r.walk.complete && Enough(mib, cfg, r.walk.table, r.budget)
  {
    hide Next;
    hide Faithful;
    hide Enough;
    hide Hindered;
    hide Answers;
    assert Shaped(cfg, s.walk) by { FaithfulShaped(mib, cfg, s.walk); }
    if n > 0 {
      RunCompletes(world, context, cfg, s, at, n - 1, mib);
      RunFaithful(world, context, cfg, s, at, n - 1, mib);
      NextCompletes(world, context, cfg, Run(world, context, cfg, s, at, n - 1), at + n - 1, mib);
    }
  }

  /** A walk of an honest agent that ends incomplete was hindered: at some request time was up or
      the answer was of no use, or the row allowance is less than the rows the MIB has. */
  lemma IncompleteHasCause(world: World, context: Context, cfg: Config, maxRep: nat, budget: Budget,
                           at: nat, n: nat, mib: Mib)
    requires Answers(world, context, mib)
    requires !Run(world, context, cfg, Start(cfg, maxRep, budget), at, n).walk.complete
    ensures (cfg.Capped() && budget.rowsLeft < |RowsOf(mib, cfg.bases)|)
            || HinderedBefore(world, context, cfg, Start(cfg, maxRep, budget), at, n)
  {
    hide Run;
    hide Answers;
    hide Hindered;
    hide RowsOf;
    var s := Start(cfg, maxRep, budget);
    BeginFaithful(mib, cfg, maxRep);
    if !HinderedBefore(world, context, cfg, s, at, n) && Enough(mib, cfg, s.walk.table, s.budget) {
      RunCompletes(world, context, cfg, s, at, n, mib);
    }
  }
}
