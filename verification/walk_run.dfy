/** Whole walks: what a run of requests ends with. */
module WalkRun {
  import opened Oids
  import opened Agent
  import opened Walk
  import opened WalkSafety
  import opened WalkExact
  import opened WalkBounds

  /** One request of a walk that addresses `context`, at the `at`-th moment of the world. */
  function ReplyTo(world: World, context: Context, cfg: Config, s: State, at: nat): Reply
    requires Shaped(cfg, s.walk)
  {
    world.answer(at, context, s.walk.Names(), s.walk.maxRep)
  }

  /** The walk after the request sent at moment `at`, if it still sends one. */
  function Next(world: World, context: Context, cfg: Config, s: State, at: nat): (r: State)
    requires Shaped(cfg, s.walk)
    ensures Shaped(cfg, r.walk)
  {
    if !s.walk.open then s
    else
      AttemptShaped(cfg, s, world.clock(at), ReplyTo(world, context, cfg, s, at));
      Attempt(cfg, s, world.clock(at), ReplyTo(world, context, cfg, s, at))
  }

  /** The walk after at most `n` requests, the first of them at moment `at`. */
  function Run(world: World, context: Context, cfg: Config, s: State, at: nat, n: nat): (r: State)
    requires Shaped(cfg, s.walk)
    ensures Shaped(cfg, r.walk)
  {
    if n == 0 then s
    else Next(world, context, cfg, Run(world, context, cfg, s, at, n - 1), at + n - 1)
  }

  lemma {:induction false} RunSane(world: World, context: Context, cfg: Config, s: State, at: nat, n: nat)
    requires Sane(cfg, s.walk)
    ensures Sane(cfg, Run(world, context, cfg, s, at, n).walk)
  {
    hide Next;
    if n > 0 {
      RunSane(world, context, cfg, s, at, n - 1);
      NextSane(world, context, cfg, Run(world, context, cfg, s, at, n - 1), at + n - 1);
    }
  }

  lemma NextSane(world: World, context: Context, cfg: Config, s: State, at: nat)
    requires Sane(cfg, s.walk)
    ensures Sane(cfg, Next(world, context, cfg, s, at).walk)
  {
    if s.walk.open {
      AttemptSafe(cfg, s, world.clock(at), ReplyTo(world, context, cfg, s, at));
    }
  }

  lemma {:induction false} BeginSane(cfg: Config, maxRep: nat)
    ensures Sane(cfg, Begin(cfg.bases, maxRep))
  {
  }

  function Start(cfg: Config, maxRep: nat, budget: Budget): (s: State)
    ensures Sane(cfg, s.walk)
  {
    BeginSane(cfg, maxRep);
    State(Begin(cfg.bases, maxRep), budget)
  }

  /** `name` came back with `text` in one of the first `n` replies. */
  ghost predicate SentIn(world: World, context: Context, cfg: Config, s: State, at: nat, n: nat,
                         name: Oid, text: string)
    requires Shaped(cfg, s.walk)
  {
    exists m: nat {:trigger Run(world, context, cfg, s, at, m)} ::
      m < n && Sent(name, text, BindsOf(ReplyTo(world, context, cfg, Run(world, context, cfg, s, at, m), at + m)))
  }

  lemma NextGrows(world: World, context: Context, cfg: Config, s: State, at: nat)
    requires Sane(cfg, s.walk)
    ensures var r := Next(world, context, cfg, s, at).walk;
            Grows(cfg, s.walk.last, s.walk.table, r.last, r.table)
  {
    if s.walk.open {
      AttemptSafe(cfg, s, world.clock(at), ReplyTo(world, context, cfg, s, at));
    }
  }

  lemma NextGrowsOn(world: World, context: Context, cfg: Config, early: Walk, s: State, at: nat)
    requires Sane(cfg, s.walk) && |early.last| == |cfg.bases|
    requires Grows(cfg, early.last, early.table, s.walk.last, s.walk.table)
    ensures var r := Next(world, context, cfg, s, at).walk;
            Grows(cfg, early.last, early.table, r.last, r.table)
  {
    NextGrows(world, context, cfg, s, at);
    var r := Next(world, context, cfg, s, at).walk;
    GrowsTransitive(cfg, early.last, early.table, s.walk.last, s.walk.table, r.last, r.table);
  }

  /** Against any agent at all, a later table only adds to an earlier one, and what it adds to
      a column lies above everything that column had. */
  lemma {:induction false} RunGrows(world: World, context: Context, cfg: Config, s: State, at: nat,
                                    m: nat, n: nat)
    requires Sane(cfg, s.walk) && m <= n
    ensures var early, late := Run(world, context, cfg, s, at, m).walk, Run(world, context, cfg, s, at, n).walk;
            Grows(cfg, early.last, early.table, late.last, late.table)
    decreases n
  {
    hide Next;
    if m < n {
      RunGrows(world, context, cfg, s, at, m, n - 1);
      RunSane(world, context, cfg, s, at, n - 1);
      NextGrowsOn(world, context, cfg, Run(world, context, cfg, s, at, m).walk,
                  Run(world, context, cfg, s, at, n - 1), at + n - 1);
    } else {
      GrowsReflexive(cfg, Run(world, context, cfg, s, at, m).walk.last,
                     Run(world, context, cfg, s, at, m).walk.table);
    }
  }

  lemma NextSent(world: World, context: Context, cfg: Config, s: State, at: nat, index: Oid, k: nat)
    requires Sane(cfg, s.walk)
    requires Next(world, context, cfg, s, at).walk.table.Has(index, k)
    ensures var text := Next(world, context, cfg, s, at).walk.table.Text(index, k);
            if s.walk.table.Has(index, k) then text == s.walk.table.Text(index, k)
            else k < |cfg.bases|
                 && Sent(cfg.bases[k] + index, text, BindsOf(ReplyTo(world, context, cfg, s, at)))
  {
    if s.walk.open {
      AttemptSafe(cfg, s, world.clock(at), ReplyTo(world, context, cfg, s, at));
    }
  }

  /** Against any agent at all, every cell was sent by the agent during the walk. */
  lemma {:induction false} RunSent(world: World, context: Context, cfg: Config, s: State, at: nat,
                                   n: nat, index: Oid, k: nat)
    requires Sane(cfg, s.walk) && !s.walk.table.Has(index, k)
    requires Run(world, context, cfg, s, at, n).walk.table.Has(index, k)
    ensures k < |cfg.bases|
    ensures SentIn(world, context, cfg, s, at, n, cfg.bases[k] + index,
                   Run(world, context, cfg, s, at, n).walk.table.Text(index, k))
  {
    hide Next;
    if n > 0 {
      RunSane(world, context, cfg, s, at, n - 1);
      NextSent(world, context, cfg, Run(world, context, cfg, s, at, n - 1), at + n - 1, index, k);
      if Run(world, context, cfg, s, at, n - 1).walk.table.Has(index, k) {
        RunSent(world, context, cfg, s, at, n - 1, index, k);
      }
    }
  }

  lemma NextFaithful(world: World, context: Context, cfg: Config, s: State, at: nat, mib: Mib)
    requires Faithful(mib, cfg, s.walk) && Answers(world, context, mib)
    ensures Faithful(mib, cfg, Next(world, context, cfg, s, at).walk)
  {
    if s.walk.open {
      var reply := ReplyTo(world, context, cfg, s, at);
      assert Conforms(mib, s.walk.Names(), reply);
      AttemptFaithful(mib, cfg, s, world.clock(at), reply);
    }
  }

  lemma {:induction false} RunFaithful(world: World, context: Context, cfg: Config, s: State, at: nat,
                                       n: nat, mib: Mib)
    requires Faithful(mib, cfg, s.walk) && Answers(world, context, mib)
    ensures Faithful(mib, cfg, Run(world, context, cfg, s, at, n).walk)
  {
    hide Next;
    if n > 0 {
      RunFaithful(world, context, cfg, s, at, n - 1, mib);
      NextFaithful(world, context, cfg, Run(world, context, cfg, s, at, n - 1), at + n - 1, mib);
    }
  }

  /** A finished walk of an honest agent: however it ended its table is a true initial
      segment of each column, and when it calls itself complete it is the whole of each. */
  lemma RunRefines(world: World, context: Context, cfg: Config, maxRep: nat, budget: Budget,
                   at: nat, n: nat, mib: Mib)
    requires Answers(world, context, mib)
    ensures var w := Run(world, context, cfg, Start(cfg, maxRep, budget), at, n).walk;
            && Truthful(mib, cfg.bases, w.table)
            && (!w.open && w.complete ==> Exact(mib, cfg.bases, w.table))
  {
    var s := Start(cfg, maxRep, budget);
    BeginFaithful(mib, cfg, maxRep);
    RunFaithful(world, context, cfg, s, at, n, mib);
    var w := Run(world, context, cfg, s, at, n).walk;
    FaithfulIsTruthful(mib, cfg, w);
    if !w.open && w.complete {
      FaithfulIsExact(mib, cfg, w);
    }
  }

  /** What a walk did to the budget, from a state whose walk was not cut. */
  ghost predicate Charged(cfg: Config, s: State, r: State) {
    && Spends(cfg, s.walk.table, s.budget, r.walk.table, r.budget)
    && (r.walk.stats.truncated ==> r.budget.truncated && cfg.budgeted)
    && (r.walk.stats.truncated && s.budget.reason == Unset ==> r.budget.reason != Unset)
    && (!r.walk.stats.truncated ==>
          r.budget.truncated == s.budget.truncated && r.budget.reason == s.budget.reason)
  }

  lemma NextSpends(world: World, context: Context, cfg: Config, s: State, b: State, at: nat)
    requires Sane(cfg, b.walk) && Charged(cfg, s, b)
    ensures Charged(cfg, s, Next(world, context, cfg, b, at))
  {
    if b.walk.open {
      AttemptSpends(cfg, b, world.clock(at), ReplyTo(world, context, cfg, b, at));
    }
  }

  lemma {:induction false} RunSpends(world: World, context: Context, cfg: Config, s: State, at: nat, n: nat)
    requires Sane(cfg, s.walk) && !s.walk.stats.truncated
    ensures Charged(cfg, s, Run(world, context, cfg, s, at, n))
  {
    hide Next;
    if n > 0 {
      RunSpends(world, context, cfg, s, at, n - 1);
      RunSane(world, context, cfg, s, at, n - 1);
      NextSpends(world, context, cfg, s, Run(world, context, cfg, s, at, n - 1), at + n - 1);
    }
  }

  // ---- Termination ----

  lemma Bought(spare: nat, attempt: nat, rounds: int, rounds': int)
    requires attempt <= spare && rounds' < rounds
    ensures (spare + 1) * rounds' < (spare + 1) * rounds - attempt
  {
    MulSign(spare + 1, rounds - rounds');
    assert (spare + 1) * (rounds - rounds') == (spare + 1) * rounds - (spare + 1) * rounds';
  }

  /** Requests left for that many rounds, less the retries already spent in this one. */
  function Requests(cfg: Config, rounds: int, attempt: nat): int {
    (cfg.Spare() + 1) * rounds - attempt
  }

  /** A walk that is open after `n` requests has paid for them out of what it began with. */
  ghost predicate Paid(cfg: Config, s: State, r: State, n: nat, depth: nat)
  {
    && Requests(cfg, RoundsByOids(r, depth), r.walk.attempt) + n
       <= Requests(cfg, RoundsByOids(s, depth), s.walk.attempt)
    && (cfg.Capped() ==>
          Requests(cfg, RoundsByRows(cfg, r), r.walk.attempt) + n
          <= Requests(cfg, RoundsByRows(cfg, s), s.walk.attempt))
  }

  lemma AdvancesPays(cfg: Config, s: State, b: State, r: State, n: nat, depth: nat)
    requires b.walk.attempt <= cfg.Spare()
    requires Paid(cfg, s, b, n, depth) && Advances(cfg, b, r, depth)
    ensures Paid(cfg, s, r, n + 1, depth)
  {
    if r.walk.attempt != b.walk.attempt + 1 {
      Bought(cfg.Spare(), b.walk.attempt, RoundsByOids(b, depth), RoundsByOids(r, depth));
      if cfg.Capped() {
        Bought(cfg.Spare(), b.walk.attempt, RoundsByRows(cfg, b), RoundsByRows(cfg, r));
      }
    }
  }

  lemma NextPays(world: World, context: Context, cfg: Config, s: State, b: State, at: nat,
                 n: nat, depth: nat)
    requires depth >= MAX_LENGTH
    requires Sane(cfg, b.walk) && LegalCursors(b.walk.last) && (b.walk.open ==> Paid(cfg, s, b, n, depth))
    ensures var r := Next(world, context, cfg, b, at);
            LegalCursors(r.walk.last) && (r.walk.open ==> Paid(cfg, s, r, n + 1, depth))
  {
    if b.walk.open {
      AttemptAdvances(cfg, b, world.clock(at), ReplyTo(world, context, cfg, b, at), depth);
      var r := Next(world, context, cfg, b, at);
      if r.walk.open {
        AdvancesPays(cfg, s, b, r, n, depth);
      }
    }
  }

  lemma {:induction false} RunPays(world: World, context: Context, cfg: Config, s: State, at: nat,
                                   n: nat, depth: nat)
    requires depth >= MAX_LENGTH
    requires Sane(cfg, s.walk) && LegalCursors(s.walk.last)
    ensures var r := Run(world, context, cfg, s, at, n);
            LegalCursors(r.walk.last) && (r.walk.open ==> Paid(cfg, s, r, n, depth))
  {
    hide Next;
    if n > 0 {
      RunPays(world, context, cfg, s, at, n - 1, depth);
      RunSane(world, context, cfg, s, at, n - 1);
      NextPays(world, context, cfg, s, Run(world, context, cfg, s, at, n - 1), at + n - 1, n - 1, depth);
    }
  }

  lemma PaidOut(cfg: Config, rounds: int, attempt: nat)
    requires attempt <= cfg.Spare() && rounds >= 1
    ensures Requests(cfg, rounds, attempt) >= 1
  {
    Bought(cfg.Spare(), attempt, rounds, 0);
  }

  /** No agent can keep a row-capped walk going: with `c` columns it ends within
      `c * rowsLeft + c + floor(log2(maxRep))` rounds of at most `retries + 1` requests. */
  lemma CappedWalkEnds(world: World, context: Context, cfg: Config, maxRep: nat, budget: Budget,
                       at: nat, n: nat)
    requires cfg.Capped() && budget.rowsLeft >= 0 && LegalCursors(cfg.bases)
    requires n >= Requests(cfg, |cfg.bases| * budget.rowsLeft + |cfg.bases| + Halvings(maxRep), 0)
    ensures !Run(world, context, cfg, Start(cfg, maxRep, budget), at, n).walk.open
  {
    hide Run;
    hide Next;
    var s := Start(cfg, maxRep, budget);
    var r := Run(world, context, cfg, s, at, n);
    var depth :| depth >= MAX_LENGTH;
    RunPays(world, context, cfg, s, at, n, depth);
    RunSpends(world, context, cfg, s, at, n);
    assert RoundsByRows(cfg, s) == |cfg.bases| * budget.rowsLeft + |cfg.bases| + Halvings(maxRep);
    RunSane(world, context, cfg, s, at, n);
    if r.walk.open {
      assert Paid(cfg, s, r, n, depth);
      RoundsPositive(cfg, r);
      PaidOut(cfg, RoundsByRows(cfg, r), r.walk.attempt);
    }
  }

  lemma MulAtMost(c: nat, x: int, y: int)
    requires x <= y
    ensures c * x <= c * y
  {
    if x < y {
      MulSign(c, y - x);
    }
    assert c * (y - x) == c * y - c * x;
  }

  /** A row-capped walk of `c` columns accepts at most `c * rowsLeft` bindings: each accepted
      binding is a cell of its own, and each row it makes is paid for. */
  lemma CappedCells(world: World, context: Context, cfg: Config, maxRep: nat, budget: Budget, at: nat, n: nat)
    requires cfg.Capped() && budget.rowsLeft >= 0
    ensures Cells(Run(world, context, cfg, Start(cfg, maxRep, budget), at, n).walk.table)
            <= |cfg.bases| * budget.rowsLeft
  {
    hide Run;
    hide Next;
    var s := Start(cfg, maxRep, budget);
    var r := Run(world, context, cfg, s, at, n);
    RunSane(world, context, cfg, s, at, n);
    RunSpends(world, context, cfg, s, at, n);
    CellsFit(cfg, r.walk.last, r.walk.table);
    MulAtMost(|cfg.bases|, |r.walk.table.order|, budget.rowsLeft);
  }

  /** Nor any other walk: cursors only move up, and the OID universe is finite. */
  lemma WalkEnds(world: World, context: Context, cfg: Config, maxRep: nat, budget: Budget,
                 at: nat, n: nat, depth: nat)
    requires depth >= MAX_LENGTH && LegalCursors(cfg.bases)
    requires n >= Requests(cfg, Ahead(cfg.bases, depth) + |cfg.bases| + Halvings(maxRep), 0)
    ensures !Run(world, context, cfg, Start(cfg, maxRep, budget), at, n).walk.open
  {
    hide Run;
    hide Next;
    var s := Start(cfg, maxRep, budget);
    var r := Run(world, context, cfg, s, at, n);
    RunPays(world, context, cfg, s, at, n, depth);
    RunSane(world, context, cfg, s, at, n);
    if r.walk.open {
      PaidOut(cfg, RoundsByOids(r, depth), r.walk.attempt);
    }
  }
}
