/** An honest agent for every MIB, whose walks all end complete while there is time: the
    hypotheses of the theorems about honest agents can be met. */
module ServingAgent {
  import opened Oids
  import opened Agent
  import opened Walk
  import opened WalkSafety
  import opened WalkExact
  import opened WalkBounds
  import opened WalkRun
  import opened WalkComplete
  import opened Walker

  // ---- An agent that answers every request ----

  ghost function Successors(mib: Mib, names: seq<Oid>): (binds: seq<Bind>)
    requires LegalMib(mib) && LegalCursors(names)
    ensures |binds| == |names| && forall i :: 0 <= i < |names| ==> Follows(mib, names[i], binds[i])
  {
    seq(|names|, i requires 0 <= i < |names| => Successor(mib, names[i]))
  }

  /** An agent that holds `mib` in every context and answers GETBULK with one repetition. */
  ghost function WorldOf(mib: Mib, clock: nat -> int): World
    requires LegalMib(mib)
  {
    World(clock, (n: nat, c: Context, names: seq<Oid>, r: nat) =>
      if names != [] && LegalCursors(names) then Response(Quiet, 0, 0, Successors(mib, names)) else Reply.Raised)
  }

  lemma WorldIsHonest(mib: Mib, clock: nat -> int, context: Context)
    requires LegalMib(mib)
    ensures Answers(WorldOf(mib, clock), context, mib)
  {
    var world := WorldOf(mib, clock);
    forall n: nat, names: seq<Oid>, repetitions: nat
      ensures Conforms(mib, names, world.answer(n, context, names, repetitions))
    {
      hide Follows;
    }
  }

  lemma NotHindered(mib: Mib, clock: nat -> int, context: Context, cfg: Config, s: State, at: nat)
    requires LegalMib(mib) && Sane(cfg, s.walk) && LegalCursors(s.walk.last) && clock(at) < s.budget.deadline
    ensures !Hindered(WorldOf(mib, clock), context, cfg, s, at)
  {
    hide TableSane;
    if s.walk.open {
      var names := s.walk.Names();
      assert |names| == |s.walk.active| > 0 && LegalCursors(names);
    }
  }

  /** The walk is complete however many requests it has sent. */
  lemma GoesWell(mib: Mib, clock: nat -> int, context: Context, cfg: Config, maxRep: nat, before: Budget, at: nat,
                 n: nat)
    requires LegalMib(mib) && LegalCursors(cfg.bases) && forall k :: clock(k) < before.deadline
    requires cfg.Capped() ==> before.rowsLeft >= |RowsOf(mib, cfg.bases)|
    ensures Run(WorldOf(mib, clock), context, cfg, Start(cfg, maxRep, before), at, n).walk.complete
  {
    hide Run;
    hide Hindered;
    hide RowsOf;
    hide Answers;
    var world, s := WorldOf(mib, clock), Start(cfg, maxRep, before);
    WorldIsHonest(mib, clock, context);
    var depth :| depth >= MAX_LENGTH;
    forall m: nat | m < n ensures !Hindered(world, context, cfg, Run(world, context, cfg, s, at, m), at + m) {
      RunSane(world, context, cfg, s, at, m);
      RunPays(world, context, cfg, s, at, m, depth);
      RunSpends(world, context, cfg, s, at, m);
      NotHindered(mib, clock, context, cfg, Run(world, context, cfg, s, at, m), at + m);
    }
    if !Run(world, context, cfg, s, at, n).walk.complete {
      IncompleteHasCause(world, context, cfg, maxRep, before, at, n, mib);
    }
  }

  /** The request with which a walk ends. */
  lemma {:induction false} LastRequest(world: World, context: Context, cfg: Config, s: State, at: nat, n: nat)
    returns (m: nat)
    requires Shaped(cfg, s.walk) && !Run(world, context, cfg, s, at, n).walk.open
    ensures !Run(world, context, cfg, s, at, m).walk.open
    ensures m > 0 ==> Run(world, context, cfg, s, at, m - 1).walk.open
  {
    hide Next;
    if n == 0 || Run(world, context, cfg, s, at, n - 1).walk.open {
      m := n;
    } else {
      m := LastRequest(world, context, cfg, s, at, n - 1);
    }
  }

  /** Every walk of that agent in time, within its allowance, ends complete. */
  lemma Finishes(mib: Mib, clock: nat -> int, context: Context, cfg: Config, maxRep: nat, before: Budget, at: nat)
    returns (table: Table, stats: Stats, next: nat, after: Budget)
    requires LegalMib(mib) && LegalCursors(cfg.bases) && forall k :: clock(k) < before.deadline
    requires cfg.Capped() ==> before.rowsLeft >= |RowsOf(mib, cfg.bases)|
    ensures Walked(WorldOf(mib, clock), context, cfg, maxRep, before, at, table, true, stats, next, after)
  {
    hide Run;
    hide RowsOf;
    var world, s := WorldOf(mib, clock), Start(cfg, maxRep, before);
    var depth :| depth >= MAX_LENGTH;
    var needed := Requests(cfg, Ahead(cfg.bases, depth) + |cfg.bases| + Halvings(maxRep), 0);
    var n: nat := if needed < 0 then 0 else needed;
    WalkEnds(world, context, cfg, maxRep, before, at, n, depth);
    var m := LastRequest(world, context, cfg, s, at, n);
    GoesWell(mib, clock, context, cfg, maxRep, before, at, m);
    var r := Run(world, context, cfg, s, at, m);
    table, stats, next, after := r.walk.table, r.walk.stats, at + m, r.budget;
    assert next - at == m;
  }

  // ---- The same agent under another clock ----

  lemma {:induction false} RunAgrees(mib: Mib, a: nat -> int, b: nat -> int, context: Context, cfg: Config, s: State,
                                     at: nat, n: nat)
    requires LegalMib(mib) && Shaped(cfg, s.walk) && forall k: nat | at <= k < at + n :: a(k) == b(k)
    ensures Run(WorldOf(mib, a), context, cfg, s, at, n) == Run(WorldOf(mib, b), context, cfg, s, at, n)
  {
    hide Attempt;
    if n > 0 {
      RunAgrees(mib, a, b, context, cfg, s, at, n - 1);
      assert a(at + n - 1) == b(at + n - 1);
    }
  }

  lemma WalkedAgrees(mib: Mib, a: nat -> int, b: nat -> int, context: Context, cfg: Config, maxRep: nat,
                     before: Budget, at: nat, table: Table, stats: Stats, next: nat, after: Budget)
    requires LegalMib(mib) && forall k: nat | at <= k < next :: a(k) == b(k)
    requires Walked(WorldOf(mib, a), context, cfg, maxRep, before, at, table, true, stats, next, after)
    ensures Walked(WorldOf(mib, b), context, cfg, maxRep, before, at, table, true, stats, next, after)
  {
    hide Run;
    var s := Start(cfg, maxRep, before);
    RunAgrees(mib, a, b, context, cfg, s, at, next - at);
    if next > at {
      RunAgrees(mib, a, b, context, cfg, s, at, next - at - 1);
    }
  }
}
