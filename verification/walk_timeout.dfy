/** What a walk says of the way it ended: whether the agent had fallen silent, and whether time or
    the row cap cut it. */
module WalkTimeout {
  import opened Oids
  import opened Agent
  import opened Walk
  import opened WalkSafety
  import opened WalkBounds
  import opened WalkRun

  /** The agent's answer to the request sent at moment `at + m`. */
  ghost function Answered(world: World, context: Context, cfg: Config, s: State, at: nat, m: nat): Reply
    requires Shaped(cfg, s.walk)
  {
    ReplyTo(world, context, cfg, Run(world, context, cfg, s, at, m), at + m)
  }

  predicate SaysTimedOut(reply: Reply) {
    reply.Response? && reply.indication == TimedOut
  }

  /** How many of the last of the first `n` requests timed out, one after the other. */
  ghost function SilentFor(world: World, context: Context, cfg: Config, s: State, at: nat, n: nat): (k: nat)
    requires Shaped(cfg, s.walk)
    ensures k <= n
  {
    if n > 0 && SaysTimedOut(Answered(world, context, cfg, s, at, n - 1)) then
      1 + SilentFor(world, context, cfg, s, at, n - 1)
    else 0
  }

  ghost predicate InBudget(world: World, cfg: Config, s: State, at: nat) {
    cfg.budgeted ==> world.clock(at) < s.budget.deadline
  }

  /** The agent had fallen silent: the last request, sent in time, timed out and so had all of its
      retries; or, without a budget, the wait for it expired. */
  ghost predicate FellSilent(world: World, context: Context, cfg: Config, s: State, at: nat, n: nat)
    requires Shaped(cfg, s.walk)
  {
    && n > 0 && InBudget(world, cfg, s, at + n - 1)
    && (SilentFor(world, context, cfg, s, at, n) > cfg.Spare()
        || (!cfg.budgeted && Answered(world, context, cfg, s, at, n - 1).WaitExpired?))
  }

  // ---- One request ----

  /** What a request does to the report of a walk that is open. */
  ghost predicate Reports(cfg: Config, s: State, now: int, reply: Reply, r: State) {
    && r.budget.deadline == s.budget.deadline
    && (r.walk.open ==>
          !r.walk.stats.timeout && r.walk.attempt == if SaysTimedOut(reply) then s.walk.attempt + 1 else 0)
    && (!r.walk.open ==>
          (r.walk.stats.timeout <==>
             && (cfg.budgeted ==> now < s.budget.deadline)
             && ((SaysTimedOut(reply) && s.walk.attempt >= cfg.retries) || (!cfg.budgeted && reply.WaitExpired?))))
    && (r.walk.stats.timeout ==> !r.walk.complete && !r.walk.stats.truncated)
  }

  lemma AttemptReports(cfg: Config, s: State, now: int, reply: Reply)
    requires Sane(cfg, s.walk) && s.walk.open && !s.walk.stats.timeout
    ensures Reports(cfg, s, now, reply, Attempt(cfg, s, now, reply))
  {
    AttemptSpends(cfg, s, now, reply);
    hide TableSane;
    hide Scanned;
  }

  // ---- Whole walks ----

  lemma {:induction false} OpenReports(world: World, context: Context, cfg: Config, s: State, at: nat, n: nat)
    requires Sane(cfg, s.walk) && s.walk.open && !s.walk.stats.timeout && s.walk.attempt == 0
    requires Run(world, context, cfg, s, at, n).walk.open
    ensures var r := Run(world, context, cfg, s, at, n);
            && !r.walk.stats.timeout && r.walk.attempt == SilentFor(world, context, cfg, s, at, n)
            && r.budget.deadline == s.budget.deadline
  {
    hide Attempt;
    hide TableSane;
    if n > 0 {
      var b := Run(world, context, cfg, s, at, n - 1);
      RunSane(world, context, cfg, s, at, n - 1);
      assert b.walk.open;
      OpenReports(world, context, cfg, s, at, n - 1);
      AttemptReports(cfg, b, world.clock(at + n - 1), ReplyTo(world, context, cfg, b, at + n - 1));
    }
  }

  lemma SaneAttempt(cfg: Config, w: Walk)
    requires Sane(cfg, w)
    ensures w.attempt <= cfg.Spare()
  {
  }

  /** A walk that its `n`-th request ended calls that a timeout if and only if the agent had fallen
      silent. */
  lemma TimeoutMeans(world: World, context: Context, cfg: Config, maxRep: nat, budget: Budget, at: nat, n: nat)
    requires n > 0 && Run(world, context, cfg, Start(cfg, maxRep, budget), at, n - 1).walk.open
    requires !Run(world, context, cfg, Start(cfg, maxRep, budget), at, n).walk.open
    ensures var w := Run(world, context, cfg, Start(cfg, maxRep, budget), at, n).walk;
            && (w.stats.timeout <==> FellSilent(world, context, cfg, Start(cfg, maxRep, budget), at, n))
            && (w.stats.timeout ==> !w.complete && !w.stats.truncated)
  {
    hide Attempt;
    var s := Start(cfg, maxRep, budget);
    assert s.walk.open by { OpenAtFirst(world, context, cfg, s, at, n - 1); }
    var b := Run(world, context, cfg, s, at, n - 1);
    RunSane(world, context, cfg, s, at, n - 1);
    OpenReports(world, context, cfg, s, at, n - 1);
    SaneAttempt(cfg, b.walk);
    hide Sane;
    AttemptReports(cfg, b, world.clock(at + n - 1), ReplyTo(world, context, cfg, b, at + n - 1));
  }

  lemma {:induction false} OpenAtFirst(world: World, context: Context, cfg: Config, s: State, at: nat, n: nat)
    requires Shaped(cfg, s.walk) && Run(world, context, cfg, s, at, n).walk.open
    ensures s.walk.open
  {
    hide Attempt;
    if n > 0 {
      OpenAtFirst(world, context, cfg, s, at, n - 1);
    }
  }

  // ---- Cuts ----

  /** Time was up before the request, or the wait for its answer ran out of budget. */
  ghost predicate TimeUp(cfg: Config, s: State, now: int, reply: Reply) {
    cfg.budgeted && (now >= s.budget.deadline || reply.WaitExpired?)
  }

  /** How a request that ends a walk leaves the budget. */
  ghost predicate Cuts(cfg: Config, s: State, now: int, reply: Reply, r: State) {
    if TimeUp(cfg, s, now, reply) then
      r.walk.stats.truncated && r.budget.truncated && r.budget.rowsLeft == s.budget.rowsLeft
      && r.budget.reason == (if s.budget.reason == Unset then Time else s.budget.reason)
    else if r.walk.stats.truncated then
      cfg.Capped() && r.budget.rowsLeft <= 0 && r.budget.truncated
      && r.budget.reason == (if s.budget.reason == Unset then RowCap else s.budget.reason)
    else r.budget.truncated == s.budget.truncated && r.budget.reason == s.budget.reason
  }

  lemma {:induction false} ScannedCut(cfg: Config, active: seq<nat>, binds: seq<Bind>, n: nat, s: Scan)
    requires |s.last| == |cfg.bases| && active != [] && n <= |binds| && !s.cut
    requires forall i :: 0 <= i < |active| ==> active[i] < |cfg.bases|
    ensures var r := Scanned(cfg, active, binds, n, s);
            && (r.cut ==> cfg.Capped() && r.budget.rowsLeft <= 0)
            && r.budget.truncated == s.budget.truncated && r.budget.reason == s.budget.reason
  {
    hide Less;
    if n > 0 {
      ScannedCut(cfg, active, binds, n - 1, s);
    }
  }

  lemma AttemptCuts(cfg: Config, s: State, now: int, reply: Reply)
    requires Sane(cfg, s.walk) && s.walk.open
    ensures Cuts(cfg, s, now, reply, Attempt(cfg, s, now, reply))
  {
    hide TableSane;
    hide Scanned;
    if reply.Response? && reply.indication == Quiet && reply.status == 0 && reply.binds != [] {
      var o := Opened(s.(walk := s.walk.(attempt := 0)));
      ScannedCut(cfg, s.walk.active, reply.binds, |reply.binds|, o);
    }
  }

  /** A walk is called truncated if and only if time was up at its last request or it met the row
      cap, and the budget is then spent for that reason, unless it had one before. */
  lemma CutMeans(world: World, context: Context, cfg: Config, maxRep: nat, budget: Budget, at: nat, n: nat)
    requires n > 0 && Run(world, context, cfg, Start(cfg, maxRep, budget), at, n - 1).walk.open
    ensures var b := Run(world, context, cfg, Start(cfg, maxRep, budget), at, n - 1);
            Cuts(cfg, b, world.clock(at + n - 1), ReplyTo(world, context, cfg, b, at + n - 1),
                 Run(world, context, cfg, Start(cfg, maxRep, budget), at, n))
  {
    hide Attempt;
    hide Cuts;
    var s := Start(cfg, maxRep, budget);
    var b := Run(world, context, cfg, s, at, n - 1);
    RunSane(world, context, cfg, s, at, n - 1);
    AttemptCuts(cfg, b, world.clock(at + n - 1), ReplyTo(world, context, cfg, b, at + n - 1));
  }

  // ---- Error statuses ----

  /** A response with an error status adds nothing. `tooBig` has half as many rows asked for from
      then on; `noSuchName` closes the column it points to, and the others stay in their order;
      anything else ends the walk. */
  lemma ErrorStatusMeans(cfg: Config, s: State, now: int, reply: Reply)
    requires Sane(cfg, s.walk) && s.walk.open && !TimeUp(cfg, s, now, reply)
    requires reply.Response? && reply.indication == Quiet && reply.status != 0
    ensures var w, r := s.walk, Attempt(cfg, s, now, reply).walk;
            var tooBig := reply.status == 1 && w.maxRep > 1;
            var noSuchName := reply.status == 2 && 1 <= reply.index <= |w.active|;
            && r.table == w.table && r.last == w.last && Attempt(cfg, s, now, reply).budget == s.budget
            && (tooBig ==> r.open && r.active == w.active && 2 * r.maxRep <= w.maxRep <= 2 * r.maxRep + 1)
            && (noSuchName ==>
                  && |r.active| == |w.active| - 1 && (r.open <==> r.active != []) && r.maxRep == w.maxRep
                  && (forall k :: 0 <= k < reply.index - 1 ==> r.active[k] == w.active[k])
                  && (forall k :: reply.index <= k < |w.active| ==> r.active[k - 1] == w.active[k]))
            && (!tooBig && !noSuchName ==> !r.open && !r.complete && !r.stats.truncated)
            && ((tooBig || noSuchName) ==> r.complete == w.complete && r.stats == w.stats)
  {
    hide TableSane;
  }
}
