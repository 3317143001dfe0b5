/** The fast lane as a transition system: probe tasks end at any moment of a main loop that
    ticks, flushes and refreshes. Times are in milliseconds. */
module FastLane {
  import opened Text

  type Sid = string

  /** One check of the fast-work answer. */
  datatype Check = Check(sid: Sid, intervalMs: Option<int>)

  const SHORTEST: int := 200
  const NEWEST: nat := 600

  /** `max(int(interval_ms or 1000), 200)`. */
  function IntervalOf(c: Check): (interval: int)
    ensures interval >= SHORTEST
  {
    var asked := if c.intervalMs.None? || c.intervalMs.value == 0 then 1000 else c.intervalMs.value;
    if asked < SHORTEST then SHORTEST else asked
  }

  predicate Reachable(status: string) {
    status == "up" || status == "degraded"
  }

  /** What a probe put into the buffer: which one it was, of which entry, for which check. */
  datatype Sample = Sample(serial: nat, handle: nat, sid: Sid, status: string)

  datatype Slot = Slot(sid: Sid, interval: int, due: int, running: bool, lastClass: Option<bool>)

  type Buffer = map<Sid, seq<Sample>>

  function At(b: Buffer, sid: Sid): seq<Sample> {
    if sid in b then b[sid] else []
  }

  /** The runner's state. An entry object is named by a handle, its position among all entries
      ever made: a probe of an entry that was removed still holds it. */
  datatype Lane = Lane(
    slots: seq<Slot>,
    entries: map<Sid, nat>,
    buffer: Buffer,
    posting: Option<Buffer>,
    flushNow: bool,
    probes: nat
  ) {
    function Posting(): Buffer {
      if posting.Some? then posting.value else map[]
    }

    /** The entry is the one its check has now. */
    predicate Live(h: nat) {
      h < |slots| && slots[h].sid in entries && entries[slots[h].sid] == h
    }

    predicate Starts(h: nat, now: int) {
      Live(h) && slots[h].due <= now && !slots[h].running
    }
  }

  datatype Event =
    | Tick(now: int)
    | ProbeEnd(handle: nat, status: string)
    | FlushBegin
    | FlushOk
    | FlushFail
    | Refresh(checks: seq<Check>, now: int)

  // ---- Steps ----

  function Ticked(l: Lane, now: int): (r: Lane)
    ensures |r.slots| == |l.slots|
  {
    l.(slots := seq(|l.slots|, h requires 0 <= h < |l.slots| =>
         if l.Starts(h, now) then l.slots[h].(running := true, due := now + l.slots[h].interval)
         else l.slots[h]))
  }

  function Ended(l: Lane, h: nat, status: string): Lane
    requires h < |l.slots|
  {
    var slot := l.slots[h];
    var sample := Sample(l.probes, h, slot.sid, status);
    var up := Reachable(status);
    l.(probes := l.probes + 1,
       buffer := l.buffer[slot.sid := At(l.buffer, slot.sid) + [sample]],
       flushNow := l.flushNow || (slot.lastClass.Some? && slot.lastClass.value != up),
       slots := l.slots[h := slot.(lastClass := Some(up), running := false)])
  }

  /** The buffers that have something in them. */
  function Filled(b: Buffer): Buffer {
    map sid | sid in b && b[sid] != [] :: b[sid]
  }

  function Swapped(l: Lane): Lane {
    l.(buffer := map[], flushNow := false,
       posting := if Filled(l.buffer) != map[] then Some(Filled(l.buffer)) else None)
  }

  function Newest(samples: seq<Sample>): (kept: seq<Sample>)
    ensures |kept| <= NEWEST
  {
    if |samples| > NEWEST then samples[|samples| - NEWEST..] else samples
  }

  /** What a failed post puts back in front, before the oldest are dropped. */
  function Restored(l: Lane, sid: Sid): seq<Sample> {
    At(l.Posting(), sid) + At(l.buffer, sid)
  }

  function Failed(l: Lane): Lane {
    l.(buffer := map sid | sid in l.Posting().Keys + l.buffer.Keys :: Newest(Restored(l, sid)),
       posting := None)
  }

  function MeetOne(l: Lane, c: Check, now: int): Lane {
    if c.sid == "" then l
    else if c.sid in l.entries && l.entries[c.sid] < |l.slots| then
      l.(slots := l.slots[l.entries[c.sid] := l.slots[l.entries[c.sid]].(interval := IntervalOf(c))])
    else
      l.(slots := l.slots + [Slot(c.sid, IntervalOf(c), now, false, None)],
         entries := l.entries[c.sid := |l.slots|])
  }

  function Met(l: Lane, checks: seq<Check>, now: int): Lane {
    if checks == [] then l
    else MeetOne(Met(l, checks[..|checks| - 1], now), checks[|checks| - 1], now)
  }

  function SidsOf(checks: seq<Check>): set<Sid> {
    set c | c in checks && c.sid != "" :: c.sid
  }

  /** Entries of checks that are gone are dropped, with their buffers. */
  function Dropped(l: Lane, keep: set<Sid>): Lane {
    l.(entries := map sid | sid in l.entries && sid in keep :: l.entries[sid],
       buffer := map sid | sid in l.buffer && !(sid in l.entries && sid !in keep) :: l.buffer[sid])
  }

  function Refreshed(l: Lane, checks: seq<Check>, now: int): Lane {
    Dropped(Met(l, checks, now), SidsOf(checks))
  }

  function Step(l: Lane, e: Event): Lane
    requires e.ProbeEnd? ==> e.handle < |l.slots|
  {
    match e
    case Tick(now) => Ticked(l, now)
    case ProbeEnd(h, status) => Ended(l, h, status)
    case FlushBegin => Swapped(l)
    case FlushOk => l.(posting := None)
    case FlushFail => Failed(l)
    case Refresh(checks, now) => Refreshed(l, checks, now)
  }

  // ---- History ----

  datatype Start = Start(handle: nat, at: int, interval: int)

  /** What happened: the completed probes in order, what was delivered for each check, the
      samples that were discarded, how many probes of each entry are in flight, the probes started, and how many
      probes had completed at the last swap of the buffer and at the last failed flush. */
  datatype Story = Story(
    history: seq<Sample>,
    delivered: Buffer,
    lost: set<nat>,
    flying: seq<nat>,
    starts: seq<Start>,
    swappedAt: nat,
    failedAt: nat
  )

  /** The probes a tick starts, of the entries below `n`. */
  function Started(l: Lane, now: int, n: nat): seq<Start>
    requires n <= |l.slots|
  {
    if n == 0 then []
    else
      Started(l, now, n - 1)
      + (if l.Starts(n - 1, now) then [Start(n - 1, now, l.slots[n - 1].interval)] else [])
  }

  /** How many probes of an entry are in flight. */
  function InFlight(flying: seq<nat>, h: nat): nat {
    if h < |flying| then flying[h] else 0
  }

  /** The oldest samples, dropped when a failed flush leaves more than NEWEST. */
  function Oldest(samples: seq<Sample>): seq<Sample> {
    if |samples| > NEWEST then samples[..|samples| - NEWEST] else []
  }

  function Trimmed(l: Lane): set<nat> {
    set sid, x | sid in l.Posting().Keys + l.buffer.Keys && x in Oldest(Restored(l, sid)) :: x.serial
  }

  /** The samples a refresh discards with the checks it removes. */
  function Removed(l: Lane, keep: set<Sid>): set<nat> {
    set sid, x | sid in l.buffer && sid in l.entries && sid !in keep && x in l.buffer[sid] :: x.serial
  }

  function Tell(l: Lane, s: Story, e: Event): Story
    requires e.ProbeEnd? ==> e.handle < |l.slots|
  {
    match e
    case Tick(now) =>
      s.(starts := s.starts + Started(l, now, |l.slots|),
         flying := seq(|l.slots|, h requires 0 <= h < |l.slots| =>
                     InFlight(s.flying, h) + if l.Starts(h, now) then 1 else 0))
    case ProbeEnd(h, status) =>
      s.(history := s.history + [Sample(l.probes, h, l.slots[h].sid, status)],
         flying := if InFlight(s.flying, h) > 0 then s.flying[h := s.flying[h] - 1] else s.flying)
    case FlushBegin => s.(swappedAt := |s.history|)
    case FlushOk =>
      s.(delivered := map sid | sid in s.delivered.Keys + l.Posting().Keys ::
                        At(s.delivered, sid) + At(l.Posting(), sid))
    case FlushFail => s.(lost := s.lost + Trimmed(l), failedAt := |s.history|)
    case Refresh(checks, now) => s.(lost := s.lost + Removed(Met(l, checks, now), SidsOf(checks)))
  }

  /** What can happen: the main loop goes on only when no post is outstanding, and a probe ends
      only if it is in flight. */
  predicate Enabled(l: Lane, s: Story, e: Event) {
    match e
    case Tick(_) => l.posting.None?
    case ProbeEnd(h, _) => h < |l.slots| && InFlight(s.flying, h) > 0
    case FlushBegin => l.posting.None?
    case FlushOk => l.posting.Some?
    case FlushFail => l.posting.Some?
    case Refresh(_, _) => l.posting.None?
  }

  /** The runner goes from `l` to `l'` by a run of events, in which the story grows from `s` to
      `s'`. */
  ghost predicate Runs(l: Lane, s: Story, run: seq<Event>, l': Lane, s': Story)
    decreases |run|
  {
    if run == [] then l' == l && s' == s
    else Enabled(l, s, run[0]) && Runs(Step(l, run[0]), Tell(l, s, run[0]), run[1..], l', s')
  }
}
