/** The multi-column walk as a state machine: one transition per request sent.

    A column is named by its position in `bases`. The cursor text and the `last` tuple of a
    column denote one OID, kept here once as `last`. */
module Walk {
  import opened Oids
  import opened Agent

  datatype Reason = Unset | Time | RowCap

  /** The wall clock and row allowance shared by the walks of one read. */
  datatype Budget = Budget(deadline: int, rowsLeft: int, truncated: bool, reason: Reason) {
    function Stop(why: Reason): Budget {
      this.(truncated := true, reason := if reason == Unset then why else reason)
    }
  }

  /** Rows in the order they were first seen, and their cells. */
  datatype Table = Table(order: seq<Oid>, rows: map<Oid, map<nat, string>>) {
    predicate Has(index: Oid, key: nat) {
      index in rows && key in rows[index]
    }

    function Text(index: Oid, key: nat): string {
      if Has(index, key) then rows[index][key] else ""
    }

    function Put(index: Oid, key: nat, text: string): Table {
      var row: map<nat, string> := if index in rows then rows[index] else map[];
      Table(if index in rows then order else order + [index], rows[index := row[key := text]])
    }
  }

  const EMPTY := Table([], map[])

  datatype Stats = Stats(error: string, timeout: bool, truncated: bool)

  datatype Config = Config(bases: seq<Oid>, retries: int, budgeted: bool, capRows: bool) {
    predicate Capped() {
      budgeted && capRows
    }

    function Spare(): nat {
      if retries < 0 then 0 else retries
    }
  }

  datatype Walk = Walk(
    active: seq<nat>,
    last: seq<Oid>,
    table: Table,
    maxRep: nat,
    attempt: nat,
    complete: bool,
    stats: Stats,
    open: bool
  ) {
    /** The names the next request carries. */
    function Names(): (names: seq<Oid>)
      requires forall i :: 0 <= i < |active| ==> active[i] < |last|
    {
      seq(|active|, i requires 0 <= i < |active| => last[active[i]])
    }
  }

  datatype State = State(walk: Walk, budget: Budget)

  /** The columns by position. */
  function Positions(n: nat): (keys: seq<nat>)
    ensures |keys| == n
    ensures forall i :: 0 <= i < n ==> keys[i] == i
  {
    seq(n, i => i)
  }

  function Begin(bases: seq<Oid>, maxRep: nat): Walk {
    Walk(
      Positions(|bases|), bases, EMPTY, maxRep, 0, true, Stats("", false, false), bases != []
    )
  }

  /** What has been taken from one response so far. */
  datatype Scan = Scan(
    done: set<nat>,
    last: seq<Oid>,
    table: Table,
    complete: bool,
    error: string,
    budget: Budget,
    cut: bool
  )

  /** One binding of a response. When the row cap cuts the walk its cursors are dead, so they
      stay as they were. */
  function Take(cfg: Config, key: nat, b: Bind, s: Scan): Scan
    requires key < |cfg.bases| == |s.last|
  {
    var base := cfg.bases[key];
    if s.cut || key in s.done then s
    else if b.value.End? || !Under(base, b.name) then s.(done := s.done + {key})
    else if !Less(s.last[key], b.name) then
      s.(done := s.done + {key}, complete := false, error := "OID not increasing")
    else
      var index := Index(base, b.name);
      var charged := index !in s.table.rows && cfg.Capped();
      if charged && s.budget.rowsLeft <= 0 then s.(cut := true)
      else
        s.(last := s.last[key := b.name],
           table := s.table.Put(index, key, b.value.text),
           budget := if charged then s.budget.(rowsLeft := s.budget.rowsLeft - 1) else s.budget)
  }

  /** Whose turn the i-th binding is when `width` columns share a response: `i % width`, see
      WalkExact.TurnIsMod. */
  function Turn(i: nat, width: nat): (t: nat)
    requires width > 0
    ensures t < width
  {
    if i < width then i else Turn(i - width, width)
  }

  /** The first `n` bindings of a response, each taken for the column whose turn it is. */
  function Scanned(cfg: Config, active: seq<nat>, binds: seq<Bind>, n: nat, s: Scan): (r: Scan)
    requires |s.last| == |cfg.bases| && active != [] && n <= |binds|
    requires forall i :: 0 <= i < |active| ==> active[i] < |cfg.bases|
    ensures |r.last| == |cfg.bases|
  {
    if n == 0 then s
    else Take(cfg, active[Turn(n - 1, |active|)], binds[n - 1], Scanned(cfg, active, binds, n - 1, s))
  }

  /** The columns still open, in their order. */
  function Without(active: seq<nat>, done: set<nat>): (left: seq<nat>)
    ensures forall k :: k in left <==> k in active && k !in done
  {
    if active == [] then []
    else
      var front, at := active[..|active| - 1], active[|active| - 1];
      assert active == front + [at];
      Without(front, done) + (if at in done then [] else [at])
  }

  /** Each column has a cursor, and what is active is a column. */
  predicate Shaped(cfg: Config, w: Walk) {
    && |w.last| == |cfg.bases|
    && (forall i :: 0 <= i < |w.active| ==> w.active[i] < |cfg.bases|)
    && (w.open ==> w.active != [])
  }

  /** What every reachable walk satisfies, whatever the agent does. */
  ghost predicate Sane(cfg: Config, w: Walk) {
    && Shaped(cfg, w)
    && (forall i, j :: 0 <= i < j < |w.active| ==> w.active[i] != w.active[j])
    && TableSane(cfg, w.last, w.table)
    && (w.open ==> !w.stats.truncated)
    && (!w.open && w.complete ==> w.active == [])
    && (w.complete <==> w.stats.error == "" && !w.stats.truncated)
    && (w.complete ==> !w.stats.timeout)
    && w.attempt <= cfg.Spare()
  }

  ghost predicate TableSane(cfg: Config, last: seq<Oid>, t: Table)
    requires |last| == |cfg.bases|
  {
    && (forall k :: 0 <= k < |last| ==> last[k] == cfg.bases[k] || Under(cfg.bases[k], last[k]))
    && (forall index, k: nat | t.Has(index, k) ::
          k < |cfg.bases| && index != [] && AtMost(cfg.bases[k] + index, last[k]))
    && (forall index :: index in t.order <==> index in t.rows)
    && (forall i, j :: 0 <= i < j < |t.order| ==> t.order[i] != t.order[j])
    && (forall index | index in t.rows :: t.rows[index] != map[])
  }

  function Fail(s: State, error: string, timeout: bool): State {
    s.(walk := s.walk.(complete := false, open := false,
                       stats := s.walk.stats.(error := error, timeout := timeout)))
  }

  function Cut(s: State, why: Reason): State {
    State(s.walk.(complete := false, open := false, stats := s.walk.stats.(truncated := true)),
          s.budget.Stop(why))
  }

  /** A response that arrived without an error indication. */
  function Handle(cfg: Config, s: State, status: int, position: int, binds: seq<Bind>): State
    requires Shaped(cfg, s.walk) && s.walk.open
  {
    var w := s.walk;
    if status != 0 then
      if status == 2 && 1 <= position <= |w.active| then
        var active := w.active[..position - 1] + w.active[position..];
        s.(walk := w.(active := active, open := active != []))
      else if status == 1 && w.maxRep > 1 then s.(walk := w.(maxRep := w.maxRep / 2))
      else Fail(s, "error status", w.stats.timeout)
    else if binds == [] then Fail(s, "empty response", w.stats.timeout)
    else
      var scan := Scanned(cfg, w.active, binds, |binds|, Opened(s));
      var walk := w.(last := scan.last, table := scan.table, complete := w.complete && scan.complete,
                     stats := w.stats.(error := scan.error));
      if scan.cut then Cut(State(walk, scan.budget), RowCap)
      else
        var active := Without(w.active, scan.done);
        State(walk.(active := active, open := active != []), scan.budget)
  }

  function Opened(s: State): Scan {
    Scan({}, s.walk.last, s.walk.table, true, s.walk.stats.error, s.budget, false)
  }

  /** One request: the budget is looked at, the request is sent, its reply is dealt with.
      Both readings of the clock that frame a request see `now`. */
  function Attempt(cfg: Config, s: State, now: int, reply: Reply): State
    requires Shaped(cfg, s.walk) && s.walk.open
  {
    if cfg.budgeted && s.budget.deadline - now <= 0 then Cut(s, Time)
    else match reply
      case WaitExpired => if cfg.budgeted then Cut(s, Time) else Fail(s, "timeout", true)
      case Raised => Fail(s, "snmp error", s.walk.stats.timeout)
      case Response(indication, status, position, binds) =>
        if indication == TimedOut && s.walk.attempt < cfg.retries then
          s.(walk := s.walk.(attempt := s.walk.attempt + 1))
        else if indication != Quiet then Fail(s, "indication", indication == TimedOut)
        else Handle(cfg, s.(walk := s.walk.(attempt := 0)), status, position, binds)
  }
}
