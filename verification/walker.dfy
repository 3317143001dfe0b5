/** `_walk_columns` as it is written: loops over the open columns, the retries of a request
    and the bindings of a response, tied to the state machine of module Walk. */
module Walker {
  import opened Oids
  import opened Agent
  import opened Walk
  import opened WalkSafety
  import opened WalkExact
  import opened WalkBounds
  import opened WalkRun

  /** Wall clock and row allowance, one object shared by every walk of a read. */
  class WalkBudget {
    const deadline: int
    var rowsLeft: int
    var truncated: bool
    var reason: Reason

    constructor (now: int, seconds: int, rows: int)
      ensures View() == Budget(now + seconds, rows, false, Unset)
    {
      deadline := now + seconds;
      rowsLeft := rows;
      truncated := false;
      reason := Unset;
    }

    function View(): Budget
      reads this
    {
      Budget(deadline, rowsLeft, truncated, reason)
    }

    function Remaining(now: int): (left: int)
      reads this
      ensures left == View().deadline - now
    {
      deadline - now
    }

    method Stop(why: Reason)
      modifies this
      ensures View() == old(View()).Stop(why)
    {
      truncated := true;
      if reason == Unset {
        reason := why;
      }
    }
  }

  /** A walk without a budget never looks at this one. */
  const NO_BUDGET := Budget(0, 0, false, Unset)

  function ViewOf(budget: WalkBudget?): Budget
    reads budget
  {
    if budget == null then NO_BUDGET else budget.View()
  }

  /** The loop over one response's bindings. */
  method ReadTable(cfg: Config, active: seq<nat>, binds: seq<Bind>, last0: seq<Oid>, table0: Table,
                   error0: string, budget: WalkBudget?)
    returns (done: set<nat>, last: seq<Oid>, table: Table, complete: bool, error: string, cut: bool)
    requires |last0| == |cfg.bases| && active != []
    requires forall i :: 0 <= i < |active| ==> active[i] < |cfg.bases|
    requires cfg.budgeted <==> budget != null
    modifies budget
    ensures |last| == |cfg.bases|
    ensures Scan(done, last, table, complete, error, ViewOf(budget), cut)
            == Scanned(cfg, active, binds, |binds|,
                       Scan({}, last0, table0, true, error0, old(ViewOf(budget)), false))
    ensures cut ==> budget != null
  {
    ghost var s0 := Scan({}, last0, table0, true, error0, ViewOf(budget), false);
    done, last, table, complete, error, cut := {}, last0, table0, true, error0, false;
    for i := 0 to |binds|
      invariant |last| == |cfg.bases| && !cut
      invariant Scan(done, last, table, complete, error, ViewOf(budget), cut)
                == Scanned(cfg, active, binds, i, s0)
    {
      TurnIsMod(i, |active|);
      var key := active[i % |active|];
      ghost var before := Scan(done, last, table, complete, error, ViewOf(budget), cut);
      if key in done {
        continue;
      }
      var name, value := binds[i].name, binds[i].value;
      var base := cfg.bases[key];
      if value.End? || !Under(base, name) {
        done := done + {key};
        continue;
      }
      if !Less(last[key], name) {
        error := "OID not increasing";
        complete := false;
        done := done + {key};
        continue;
      }
      var index := Index(base, name);
      if index !in table.rows {
        if cfg.capRows && budget != null {
          if budget.rowsLeft <= 0 {
            cut := true;
            assert Take(cfg, key, binds[i], before).cut;
            CutStays(cfg, active, binds, i + 1, |binds|, s0);
            return;
          }
          budget.rowsLeft := budget.rowsLeft - 1;
        }
      }
      last := last[key := name];
      table := table.Put(index, key, value.text);
    }
  }

  /** After the row cap the rest of a response is not looked at. */
  lemma {:induction false} CutStays(cfg: Config, active: seq<nat>, binds: seq<Bind>, m: nat, n: nat, s: Scan)
    requires |s.last| == |cfg.bases| && active != [] && m <= n <= |binds|
    requires forall i :: 0 <= i < |active| ==> active[i] < |cfg.bases|
    requires Scanned(cfg, active, binds, m, s).cut
    ensures Scanned(cfg, active, binds, n, s) == Scanned(cfg, active, binds, m, s)
    decreases n
  {
    if m < n {
      CutStays(cfg, active, binds, m, n - 1, s);
    }
  }

  /** The columns a response closed go out of the active list. */
  method Narrow(active: seq<nat>, done: set<nat>) returns (left: seq<nat>)
    ensures left == Without(active, done)
  {
    left := [];
    for i := 0 to |active|
      invariant left == Without(active[..i], done)
    {
      assert active[..i + 1][..i] == active[..i];
      if active[i] !in done {
        left := left + [active[i]];
      }
    }
    assert active[..|active|] == active;
  }

  /** One request and its retries, the last of them at moment `next`. Either the walk ended
      there, with its last words in `stats`, or `reply` holds a response to deal with. */
  method Send(world: World, at: nat, context: Context, cfg: Config, ghost round: State,
              names: seq<Oid>, maxRep: nat, stats0: Stats, budget: WalkBudget?)
    returns (ended: bool, reply: Reply, stats: Stats, next: nat, ghost last: State)
    requires Shaped(cfg, round.walk) && round.walk.open && round.walk.attempt == 0
    requires names == round.walk.Names() && maxRep == round.walk.maxRep && stats0 == round.walk.stats
    requires ViewOf(budget) == round.budget && (cfg.budgeted <==> budget != null)
    modifies budget
    ensures next >= at
    ensures last == Run(world, context, cfg, round, at, next - at)
    ensures last == round.(walk := round.walk.(attempt := last.walk.attempt))
    ensures ended ==>
              Next(world, context, cfg, last, next)
              == State(last.walk.(complete := false, open := false, stats := stats), ViewOf(budget))
    ensures !ended ==>
              && ViewOf(budget) == round.budget && stats == stats0
              && reply.Response? && reply.indication.Quiet?
              && Next(world, context, cfg, last, next)
                 == Handle(cfg, round, reply.status, reply.index, reply.binds)
  {
    hide Handle;
    next, stats, reply, ended, last := at, stats0, Raised, true, round;
    var tries := 0;
    while true
      invariant next >= at && tries <= cfg.Spare() && ended
      invariant ViewOf(budget) == round.budget && stats == stats0
      invariant last == Run(world, context, cfg, round, at, next - at)
      invariant last == round.(walk := round.walk.(attempt := tries))
      decreases cfg.Spare() - tries
    {
      assert last.walk.Names() == names;
      if budget != null && budget.Remaining(world.clock(next)) <= 0 {
        budget.Stop(Time);
        stats := stats.(truncated := true);
        return;
      }
      reply := world.answer(next, context, names, maxRep);
      match reply {
        case WaitExpired =>
          if budget != null {
            budget.Stop(Time);
            stats := stats.(truncated := true);
          } else {
            stats := stats.(error := "timeout", timeout := true);
          }
          return;
        case Raised =>
          stats := stats.(error := "snmp error");
          return;
        case Response(indication, _, _, _) =>
          if indication == TimedOut && tries < cfg.retries {
            last := Next(world, context, cfg, last, next);
            tries := tries + 1;
            next := next + 1;
          } else if indication != Quiet {
            stats := stats.(error := "indication", timeout := indication == TimedOut);
            return;
          } else {
            assert last.(walk := last.walk.(attempt := 0)) == round;
            ended := false;
            return;
          }
      }
    }
  }

  /** A response is dealt with: an error status or its table of bindings. */
  method Heed(cfg: Config, ghost round: State, reply: Reply, active0: seq<nat>, last0: seq<Oid>,
              table0: Table, maxRep0: nat, complete0: bool, stats0: Stats, budget: WalkBudget?)
    returns (ended: bool, active: seq<nat>, last: seq<Oid>, table: Table, maxRep: nat,
             complete: bool, stats: Stats)
    requires round == State(Walk(active0, last0, table0, maxRep0, 0, complete0, stats0, true), ViewOf(budget))
    requires Shaped(cfg, round.walk)
    requires (cfg.budgeted <==> budget != null) && reply.Response?
    modifies budget
    ensures Handle(cfg, round, reply.status, reply.index, reply.binds)
            == State(Walk(active, last, table, maxRep, 0, complete, stats, !ended && active != []), ViewOf(budget))
  {
    hide Scanned;
    ended, active, last, table, maxRep, complete, stats :=
      false, active0, last0, table0, maxRep0, complete0, stats0;
    if reply.status != 0 {
      if reply.status == 2 && 1 <= reply.index <= |active| {
        active := active[..reply.index - 1] + active[reply.index..];
      } else if reply.status == 1 && maxRep > 1 {
        maxRep := maxRep / 2;
      } else {
        ended, complete, stats := true, false, stats.(error := "error status");
      }
    } else if reply.binds == [] {
      ended, complete, stats := true, false, stats.(error := "empty response");
    } else {
      var done, increasing, error, cut;
      done, last, table, increasing, error, cut :=
        ReadTable(cfg, active, reply.binds, last, table, stats.error, budget);
      complete := complete && increasing;
      stats := stats.(error := error);
      if cut {
        budget.Stop(RowCap);
        ended, complete, stats := true, false, stats.(truncated := true);
      } else {
        active := Narrow(active, done);
      }
    }
  }

  lemma {:induction false} RunAdds(world: World, context: Context, cfg: Config, s: State, at: nat, m: nat, n: nat)
    requires Shaped(cfg, s.walk)
    ensures Run(world, context, cfg, s, at, m + n)
            == Run(world, context, cfg, Run(world, context, cfg, s, at, m), at + m, n)
  {
    hide Next;
    if n > 0 {
      RunAdds(world, context, cfg, s, at, m, n - 1);
    }
  }

  lemma RunOn(world: World, context: Context, cfg: Config, s: State, at: nat, mid: nat, next: nat)
    requires Shaped(cfg, s.walk) && at <= mid <= next
    ensures Run(world, context, cfg, s, at, next - at)
            == Run(world, context, cfg, Run(world, context, cfg, s, at, mid - at), mid, next - mid)
  {
    hide *;
    var m, n := mid - at, next - mid;
    RunAdds(world, context, cfg, s, at, m, n);
    assert m + n == next - at && at + m == mid;
  }

  lemma RunNext(world: World, context: Context, cfg: Config, s: State, at: nat, n: nat)
    requires Shaped(cfg, s.walk)
    ensures Run(world, context, cfg, s, at, n + 1)
            == Next(world, context, cfg, Run(world, context, cfg, s, at, n), at + n)
  {
    hide Next;
  }

  /** What is left to do shrinks with every reply dealt with. */
  lemma HandleShrinks(cfg: Config, s: State, status: int, position: int, binds: seq<Bind>, depth: nat)
    requires depth >= MAX_LENGTH
    requires Sane(cfg, s.walk) && s.walk.open && s.walk.attempt == 0 && LegalCursors(s.walk.last)
    ensures var r := Handle(cfg, s, status, position, binds);
            && LegalCursors(r.walk.last)
            && (r.walk.open ==> RoundsByOids(r, depth) < RoundsByOids(s, depth))
  {
    if status == 0 && binds != [] {
      TableAdvances(cfg, s, position, binds, depth);
    } else {
      ErrorAdvances(cfg, s, status, position, binds, depth);
    }
  }

  lemma NamesOf(cfg: Config, w: Walk)
    requires Shaped(cfg, w)
    ensures |w.last| == |cfg.bases|
    ensures forall i :: 0 <= i < |w.active| ==> w.active[i] < |w.last|
  {
  }

  /** The walk has come to `s`, with its last request, if any, at moment `next - 1`. */
  ghost predicate Reached(world: World, context: Context, cfg: Config, begin: State, at: nat, next: nat, s: State)
    requires Shaped(cfg, begin.walk)
  {
    && next >= at
    && s == Run(world, context, cfg, begin, at, next - at)
    && (next > at ==> Run(world, context, cfg, begin, at, next - at - 1).walk.open)
  }

  lemma ReachedSane(world: World, context: Context, cfg: Config, begin: State, start: nat, at: nat, round: State)
    requires Sane(cfg, begin.walk) && Shaped(cfg, begin.walk)
    requires Reached(world, context, cfg, begin, start, at, round)
    ensures Sane(cfg, round.walk)
  {
    hide Run;
    hide Sane;
    RunSane(world, context, cfg, begin, start, at - start);
  }

  /** Another request was sent. */
  lemma ReachedNext(world: World, context: Context, cfg: Config, begin: State, start: nat, at: nat, round: State,
                    sent: nat, before: State)
    requires Shaped(cfg, begin.walk) && Shaped(cfg, round.walk) && start <= at <= sent
    requires Reached(world, context, cfg, begin, start, at, round)
    requires before == Run(world, context, cfg, round, at, sent - at) && before.walk.open
    ensures Shaped(cfg, before.walk)
    ensures Reached(world, context, cfg, begin, start, sent + 1, Next(world, context, cfg, before, sent))
  {
    hide Run;
    hide Next;
    RunNext(world, context, cfg, round, at, sent - at);
    RunOn(world, context, cfg, begin, start, at, sent);
    RunOn(world, context, cfg, begin, start, at, sent + 1);
  }

  /** The body of the loop: one request with its retries, and what comes of it. `round` is what
      the walk that began at `start` has come to. */
  method Round(world: World, ghost start: nat, at: nat, context: Context, cfg: Config, ghost begin: State,
               ghost round: State, active0: seq<nat>, last0: seq<Oid>, table0: Table, maxRep0: nat,
               complete0: bool, stats0: Stats, budget: WalkBudget?, ghost depth: nat)
    returns (ended: bool, active: seq<nat>, last: seq<Oid>, table: Table, maxRep: nat, complete: bool,
             stats: Stats, next: nat, ghost after: State)
    requires round == State(Walk(active0, last0, table0, maxRep0, 0, complete0, stats0, true), ViewOf(budget))
    requires start <= at && Sane(cfg, begin.walk)
    requires Reached(world, context, cfg, begin, start, at, round)
    requires LegalCursors(last0) && depth >= MAX_LENGTH
    requires cfg.budgeted <==> budget != null
    modifies budget
    ensures next > at
    ensures Reached(world, context, cfg, begin, start, next, after)
    ensures after == State(Walk(active, last, table, maxRep, after.walk.attempt, complete, stats,
                                !ended && active != []), ViewOf(budget))
    ensures LegalCursors(last)
    ensures after.walk.open ==> after.walk.attempt == 0 && RoundsByOids(after, depth) < RoundsByOids(round, depth)
  {
    hide *;
    SaneIsShaped(cfg, begin.walk);
    ReachedSane(world, context, cfg, begin, start, at, round);
    SaneIsShaped(cfg, round.walk);
    NamesOf(cfg, round.walk);
    var names := seq(|active0|, i requires 0 <= i < |active0| => last0[active0[i]]);
    RoundNames(cfg, round.walk, names);
    ended, active, last, table, maxRep, complete := true, active0, last0, table0, maxRep0, complete0;
    var reply;
    ghost var before;
    ended, reply, stats, next, before :=
      Send(world, at, context, cfg, round, names, maxRep0, stats0, budget);
    ReachedNext(world, context, cfg, begin, start, at, round, next, before);
    after := Next(world, context, cfg, before, next);
    next := next + 1;
    if ended {
      complete := false;
      return;
    }
    HandleShrinks(cfg, round, reply.status, reply.index, reply.binds, depth);
    ended, active, last, table, maxRep, complete, stats :=
      Heed(cfg, round, reply, active, last, table, maxRep, complete, stats, budget);
  }

  lemma RoundNames(cfg: Config, w: Walk, names: seq<Oid>)
    requires Shaped(cfg, w) && |names| == |w.active|
    requires forall i :: 0 <= i < |names| ==> w.active[i] < |w.last| && names[i] == w.last[w.active[i]]
    ensures names == w.Names()
  {
  }

  lemma SaneIsShaped(cfg: Config, w: Walk)
    requires Sane(cfg, w)
    ensures Shaped(cfg, w)
  {
  }

  /** A walk of columns that ended with its last request at moment `next - 1`: what it gave back is
      what the run of its machine ends with. */
  ghost predicate Walked(world: World, context: Context, cfg: Config, maxRep: nat, before: Budget, at: nat,
                         table: Table, complete: bool, stats: Stats, next: nat, after: Budget)
  {
    && next >= at
    && var r := Run(world, context, cfg, Start(cfg, maxRep, before), at, next - at);
    && Reached(world, context, cfg, Start(cfg, maxRep, before), at, next, r) && !r.walk.open
    && r.walk.table == table && r.walk.complete == complete && r.walk.stats == stats
    && r.budget == after
  }

  /** `_walk_columns`. It ends, whatever the agent does. */
  method WalkColumns(world: World, at: nat, context: Context, bases: seq<Oid>, repetitions: nat,
                     retries: int, budget: WalkBudget?, capRows: bool)
    returns (table: Table, complete: bool, stats: Stats, next: nat)
    requires LegalCursors(bases)
    modifies budget
    ensures Walked(world, context, Config(bases, retries, budget != null, capRows), repetitions,
                   old(ViewOf(budget)), at, table, complete, stats, next, ViewOf(budget))
  {
    var cfg := Config(bases, retries, budget != null, capRows);
    ghost var before := ViewOf(budget);
    BeginState(world, context, cfg, repetitions, before, at);
    ghost var s;
    table, complete, stats, next, s :=
      Rounds(world, at, context, cfg, Start(cfg, repetitions, before), repetitions, budget);
    HasWalked(world, context, cfg, repetitions, before, at, next, s);
  }

  /** The loop. */
  method Rounds(world: World, at: nat, context: Context, cfg: Config, ghost begin: State, repetitions: nat,
                budget: WalkBudget?)
    returns (table: Table, complete: bool, stats: Stats, next: nat, ghost s: State)
    requires begin == State(Walk(Positions(|cfg.bases|), cfg.bases, EMPTY, repetitions, 0, true,
                                 Stats("", false, false), |cfg.bases| > 0), ViewOf(budget))
    requires Sane(cfg, begin.walk) && LegalCursors(cfg.bases) && (cfg.budgeted <==> budget != null)
    modifies budget
    ensures next >= at && Reached(world, context, cfg, begin, at, next, s)
    ensures !s.walk.open && s.walk.table == table && s.walk.complete == complete && s.walk.stats == stats
    ensures s.budget == ViewOf(budget)
  {
    ghost var depth :| depth >= MAX_LENGTH;
    var active := Positions(|cfg.bases|);
    var last, maxRep, ended := cfg.bases, repetitions, false;
    table, complete, stats, next, s := EMPTY, true, Stats("", false, false), at, begin;
    assert Reached(world, context, cfg, begin, at, at, s);
    hide *;
    while !ended && active != []
      invariant next >= at && Reached(world, context, cfg, begin, at, next, s)
      invariant s == State(Walk(active, last, table, maxRep, s.walk.attempt, complete, stats,
                                !ended && active != []), ViewOf(budget))
      invariant s.walk.open ==> s.walk.attempt == 0
      invariant LegalCursors(last)
      decreases s.walk.open, RoundsByOids(s, depth)
    {
      ended, active, last, table, maxRep, complete, stats, next, s :=
        Round(world, at, next, context, cfg, begin, s, active, last, table, maxRep, complete, stats, budget, depth);
    }
  }

  lemma BeginState(world: World, context: Context, cfg: Config, maxRep: nat, before: Budget, at: nat)
    ensures var active := Positions(|cfg.bases|);
            var begin := State(Walk(active, cfg.bases, EMPTY, maxRep, 0, true, Stats("", false, false),
                                    active != []), before);
            && begin == Start(cfg, maxRep, before) && Sane(cfg, begin.walk)
            && Run(world, context, cfg, begin, at, 0) == begin
  {
  }

  lemma HasWalked(world: World, context: Context, cfg: Config, maxRep: nat, before: Budget, at: nat,
                  next: nat, s: State)
    requires Reached(world, context, cfg, Start(cfg, maxRep, before), at, next, s) && !s.walk.open
    ensures Walked(world, context, cfg, maxRep, before, at, s.walk.table, s.walk.complete, s.walk.stats,
                   next, s.budget)
  {
  }
}
