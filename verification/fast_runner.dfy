/** `FastRunner` and its entries as objects, updated in place, and tied step by step to the
    transition system of module FastLane. */
module FastRunner {
  import opened Text
  import opened FastLane

  /** `_Entry`. The handle stands for the object's identity. */
  class Entry {
    const handle: nat
    const sid: Sid
    var interval: int
    var due: int
    var running: bool
    var lastClass: Option<bool>

    constructor (handle: nat, check: Check, now: int)
      ensures this.handle == handle && View() == Slot(check.sid, IntervalOf(check), now, false, None)
    {
      this.handle, sid := handle, check.sid;
      interval, due, running, lastClass := IntervalOf(check), now, false, None;
    }

    function View(): Slot
      reads this
    {
      Slot(sid, interval, due, running, lastClass)
    }

    /** A probe is started if one is due and none is running. The next is due an interval from
        this start, not from its answer. */
    method Start(now: int) returns (goes: bool)
      modifies `running, `due
      ensures goes == (old(due) <= now && !old(running))
      ensures View() == if goes then Going(old(View()), now) else old(View())
    {
      goes := due <= now && !running;
      if goes {
        running := true;
        due := now + interval;
      }
    }

    /** `refresh`: the schedule stays as it is. */
    method Refresh(check: Check)
      modifies `interval
      ensures interval == IntervalOf(check)
    {
      interval := IntervalOf(check);
    }
  }

  /** The answer of the server: a missing interval, or zero, keeps the one in force. */
  datatype Work = Work(checks: seq<Check>, refreshSeconds: Option<int>, flushSeconds: Option<int>)

  function Given(asked: Option<int>, own: int): int {
    if asked.None? || asked.value == 0 then own else asked.value
  }

  class Runner {
    var entries: map<Sid, Entry>
    var buffer: Buffer
    var flushNow: bool
    var probes: nat
    /** What a flush that is waiting for its answer has sent. */
    var posting: Option<Buffer>
    var flushSeconds: int
    var refreshSeconds: int
    var nextFlush: int
    var nextRefresh: int
    /** Every entry ever made, by handle: tasks hold on to entries that were removed. */
    var made: seq<Entry>

    constructor (refreshSeconds: int, flushSeconds: int, now: int)
      ensures Valid() && made == [] && View() == Lane([], map[], map[], None, false, 0)
      ensures nextFlush == now + 1000 * flushSeconds && nextRefresh == now + 1000 * refreshSeconds
    {
      entries, buffer, flushNow, probes, posting, made := map[], map[], false, 0, None, [];
      this.flushSeconds, nextFlush := flushSeconds, now + 1000 * flushSeconds;
      this.refreshSeconds, nextRefresh := refreshSeconds, now + 1000 * refreshSeconds;
    }

    ghost predicate Valid()
      reads this
    {
      && Named(made)
      && (forall sid | sid in entries :: entries[sid] in made && entries[sid].sid == sid)
    }

    ghost function View(): Lane
      reads this, made
    {
      Lane(Slots(made), HandlesOf(entries), buffer, posting, flushNow, probes)
    }

    static ghost function Slots(made: seq<Entry>): (slots: seq<Slot>)
      reads made
      ensures |slots| == |made|
      ensures forall h :: 0 <= h < |made| ==> slots[h] == made[h].View()
    {
      seq(|made|, h requires 0 <= h < |made| reads made => made[h].View())
    }

    /** `_probe`, from the moment its checker has answered. */
    method ProbeEnd(e: Entry, status: string)
      requires Valid() && e in made
      modifies `probes, `buffer, `flushNow, e
      ensures Valid() && made == old(made)
      ensures View() == Ended(old(View()), e.handle, status)
    {
      hide Reachable;
      ghost var slots := Slots(made);
      probes := probes + 1;
      buffer := buffer[e.sid := At(buffer, e.sid) + [Sample(probes - 1, e.handle, e.sid, status)]];
      var reachable := Reachable(status);
      if e.lastClass.Some? && reachable != e.lastClass.value {
        flushNow := true;
      }
      e.lastClass := Some(reachable);
      e.running := false;
      assert Slots(made) == slots[e.handle := e.View()];
    }

    /** One entry of a tick. */
    static method Visit(ghost made: seq<Entry>, e: Entry, now: int) returns (goes: bool)
      requires Named(made) && e in made
      modifies e
      ensures goes == (old(e.due) <= now && !old(e.running))
      ensures Slots(made) == old(Slots(made))[e.handle := if goes then Going(old(e.View()), now) else old(e.View())]
    {
      ghost var slots := Slots(made);
      goes := e.Start(now);
      assert Slots(made) == slots[e.handle := e.View()];
    }

    /** `tick`: the probes of the entries that are due are started. */
    method Tick(now: int) returns (started: set<Sid>)
      requires Valid()
      modifies made
      ensures Valid()
      ensures View() == Ticked(old(View()), now)
      ensures forall sid :: sid in started <==> sid in entries && old(View()).Starts(entries[sid].handle, now)
    {
      var all, mine := made, entries;
      started := TickAll(all, mine, View(), now);
    }

    static method TickAll(ghost made: seq<Entry>, entries: map<Sid, Entry>, ghost l: Lane, now: int)
      returns (started: set<Sid>)
      requires Named(made) && Slots(made) == l.slots
      requires forall sid | sid in entries :: entries[sid] in made && entries[sid].sid == sid
      requires l.entries == HandlesOf(entries)
      modifies made
      ensures Slots(made) == Ticked(l, now).slots
      ensures forall sid :: sid in started <==> sid in entries && l.Starts(entries[sid].handle, now)
    {
      started := {};
      var todo := entries.Keys;
      AllLeft(l, now, todo);
      while todo != {}
        invariant todo <= entries.Keys
        invariant forall sid :: sid in started <==>
                    sid in entries && sid !in todo && l.Starts(entries[sid].handle, now)
        invariant Slots(made) == Begun(l, now, todo)
        decreases todo
      {
        hide Begun;
        hide Lane.Starts;
        hide Going;
        var sid :| sid in todo;
        var e := entries[sid];
        BegunStep(l, now, todo, sid);
        var goes := Visit(made, e, now);
        assert Slots(made) == Begun(l, now, todo - {sid});
        if goes {
          started := started + {sid};
        }
        todo := todo - {sid};
      }
      NoneLeft(l, now, entries.Keys);
    }

    /** The first half of `flush`, up to its post: the buffer is swapped. */
    method FlushBegin() returns (posted: bool)
      requires Valid() && posting.None?
      modifies `buffer, `flushNow, `posting
      ensures Valid() && View() == Swapped(old(View()))
      ensures posted == posting.Some?
    {
      var results := map sid | sid in buffer && buffer[sid] != [] :: buffer[sid];
      buffer, flushNow := map[], false;
      posted := results != map[];
      if posted {
        posting := Some(results);
      }
    }

    /** The post was answered. */
    method FlushOk()
      requires Valid() && posting.Some?
      modifies `posting
      ensures Valid() && View() == Step(old(View()), FastLane.FlushOk)
    {
      posting := None;
    }

    /** The post failed: its samples go back in front, and each buffer keeps its newest. */
    method FlushFail()
      requires Valid() && posting.Some?
      modifies `buffer, `posting
      ensures Valid() && View() == Failed(old(View()))
    {
      ghost var l := View();
      buffer := PutBack(posting.value, buffer);
      ghost var restored := buffer;
      buffer := Trim(buffer);
      posting := None;
      assert buffer == Failed(l).buffer;
    }

    static method PutBack(results: Buffer, buffer0: Buffer) returns (buffer: Buffer)
      ensures buffer.Keys == results.Keys + buffer0.Keys
      ensures forall sid | sid in buffer :: buffer[sid] == At(results, sid) + At(buffer0, sid)
    {
      buffer := buffer0;
      var todo := results.Keys;
      while todo != {}
        invariant todo <= results.Keys
        invariant buffer.Keys == (results.Keys - todo) + buffer0.Keys
        invariant forall sid | sid in buffer ::
                    buffer[sid] == if sid in todo then At(buffer0, sid) else At(results, sid) + At(buffer0, sid)
        decreases todo
      {
        var sid :| sid in todo;
        buffer := buffer[sid := results[sid] + At(buffer, sid)];
        todo := todo - {sid};
      }
    }

    static method Trim(buffer0: Buffer) returns (buffer: Buffer)
      ensures buffer == map sid | sid in buffer0 :: Newest(buffer0[sid])
    {
      buffer := buffer0;
      var todo := buffer0.Keys;
      while todo != {}
        invariant todo <= buffer0.Keys && buffer.Keys == buffer0.Keys
        invariant forall sid | sid in buffer ::
                    buffer[sid] == if sid in todo then buffer0[sid] else Newest(buffer0[sid])
        decreases todo
      {
        var sid :| sid in todo;
        if |buffer[sid]| > NEWEST {
          buffer := buffer[sid := buffer[sid][|buffer[sid]| - NEWEST..]];
        }
        todo := todo - {sid};
      }
    }

    /** The main loop's look at the clock: an urgent flush does not wait for its turn. */
    method FlushCheck(now: int) returns (posted: bool)
      requires Valid() && posting.None?
      modifies `buffer, `flushNow, `posting, `nextFlush
      ensures Valid()
      ensures if old(flushNow) || now >= old(nextFlush)
              then View() == Swapped(old(View())) && nextFlush == now + 1000 * flushSeconds
              else View() == old(View()) && nextFlush == old(nextFlush)
      ensures posted == posting.Some?
    {
      posted := false;
      if flushNow || now >= nextFlush {
        nextFlush := now + 1000 * flushSeconds;
        posted := FlushBegin();
      }
    }

    /** A check that is known: its entry takes the new interval. */
    method Update(check: Check)
      requires Valid() && check.sid in entries
      modifies entries[check.sid]
      ensures View() == old(View()).(slots := old(Slots(made))[entries[check.sid].handle :=
                          old(entries[check.sid].View()).(interval := IntervalOf(check))])
    {
      var e := entries[check.sid];
      ghost var slots := Slots(made);
      assert made[e.handle] == e;
      e.Refresh(check);
      assert Slots(made) == slots[e.handle := e.View()];
    }

    /** A check that is new: an entry that is due at once. */
    method Add(check: Check, now: int)
      requires Valid()
      modifies `entries, `made
      ensures Valid() && |made| == |old(made)| + 1 && made[..|old(made)|] == old(made) && fresh(made[|old(made)|])
      ensures View() == old(View()).(slots := old(Slots(made)) + [Slot(check.sid, IntervalOf(check), now, false, None)],
                                     entries := old(View()).entries[check.sid := |old(made)|])
    {
      ghost var l := View();
      var e := new Entry(|made|, check, now);
      made := made + [e];
      entries := entries[check.sid := e];
      assert Slots(made) == l.slots + [e.View()];
      assert HandlesOf(entries) == l.entries[check.sid := e.handle];
    }

    /** One check of the answer to `refresh`. */
    method Meet(check: Check, now: int)
      requires Valid()
      modifies `entries, `made, made
      ensures Valid() && forall e | e in made && e !in old(made) :: fresh(e)
      ensures View() == MeetOne(old(View()), check, now)
    {
      if check.sid == "" {
        return;
      }
      ghost var l := View();
      if check.sid in entries {
        HandleIn(check.sid);
        Update(check);
      } else {
        Add(check, now);
      }
    }

    lemma HandleIn(sid: Sid)
      requires Valid() && sid in entries
      ensures entries[sid] in made && entries[sid].handle < |made| && made[entries[sid].handle] == entries[sid]
      ensures Slots(made)[entries[sid].handle] == entries[sid].View()
    {
    }

    /** `refresh`: the server's intervals are taken over, checks are added and kept, and those that
        are gone are dropped with their buffers. */
    method Refresh(work: Work, now: int)
      requires Valid() && posting.None?
      modifies `entries, `made, `buffer, `refreshSeconds, `flushSeconds, made
      ensures Valid() && View() == Refreshed(old(View()), work.checks, now)
      ensures refreshSeconds == if work.refreshSeconds == None || work.refreshSeconds == Some(0)
                                then old(refreshSeconds) else work.refreshSeconds.value
      ensures flushSeconds == if work.flushSeconds == None || work.flushSeconds == Some(0)
                              then old(flushSeconds) else work.flushSeconds.value
    {
      refreshSeconds := Given(work.refreshSeconds, refreshSeconds);
      flushSeconds := Given(work.flushSeconds, flushSeconds);
      RefreshChecks(work.checks, now);
    }

    /** The main loop's other look at the clock: the next refresh is due an interval from this
        turn, by the interval in force before it, and a fetch that fails changes nothing else. */
    method RefreshCheck(fetched: Option<Work>, now: int)
      requires Valid() && posting.None?
      modifies `entries, `made, `buffer, `refreshSeconds, `flushSeconds, `nextRefresh, made
      ensures Valid()
      ensures nextRefresh == if now >= old(nextRefresh) then now + 1000 * old(refreshSeconds) else old(nextRefresh)
      ensures if now >= old(nextRefresh) && fetched.Some?
              then View() == Refreshed(old(View()), fetched.value.checks, now)
              else View() == old(View()) && refreshSeconds == old(refreshSeconds) && flushSeconds == old(flushSeconds)
    {
      if now >= nextRefresh {
        nextRefresh := now + 1000 * refreshSeconds;
        if fetched.Some? {
          Refresh(fetched.value, now);
        }
      }
    }

    method RefreshChecks(checks: seq<Check>, now: int)
      requires Valid() && posting.None?
      modifies `entries, `made, `buffer, made
      ensures Valid() && View() == Refreshed(old(View()), checks, now)
    {
      hide MeetOne;
      hide IntervalOf;
      hide Dropped;
      ghost var l := View();
      var keep: set<Sid> := {};
      for n := 0 to |checks|
        invariant Valid() && forall e | e in made && e !in old(made) :: fresh(e)
        invariant View() == Met(l, checks[..n], now)
        invariant keep == SidsOf(checks[..n]) && buffer == old(buffer)
      {
        assert checks[..n + 1] == checks[..n] + [checks[n]];
        MetNext(l, checks[..n], checks[n], now);
        if checks[n].sid != "" {
          keep := keep + {checks[n].sid};
        }
        assert forall i :: 0 <= i < |made| ==> made[i] in old(made) || fresh(made[i]);
        Meet(checks[n], now);
      }
      assert checks[..|checks|] == checks;
      DropGone(keep);
    }

    /** The entries of checks that are gone. */
    method DropGone(keep: set<Sid>)
      requires Valid()
      modifies `entries, `buffer
      ensures Valid() && View() == Dropped(old(View()), keep)
    {
      ghost var l := View();
      var mine, waiting := DropAll(entries, buffer, keep);
      entries, buffer := mine, waiting;
      HandlesDrop(old(entries), keep);
    }

    static method DropAll(entries0: map<Sid, Entry>, buffer0: Buffer, keep: set<Sid>)
      returns (entries: map<Sid, Entry>, buffer: Buffer)
      ensures entries == map sid | sid in entries0 && sid in keep :: entries0[sid]
      ensures buffer == map sid | sid in buffer0 && !(sid in entries0 && sid !in keep) :: buffer0[sid]
    {
      entries, buffer := entries0, buffer0;
      var todo := entries0.Keys;
      while todo != {}
        invariant todo <= entries0.Keys
        invariant entries == map sid | sid in entries0 && (sid in todo || sid in keep) :: entries0[sid]
        invariant buffer == map sid | sid in buffer0 && !(sid in entries0.Keys - todo && sid !in keep) :: buffer0[sid]
        decreases todo
      {
        var sid :| sid in todo;
        if sid !in keep {
          entries := entries - {sid};
          buffer := buffer - {sid};
        }
        todo := todo - {sid};
      }
    }
  }

  ghost function HandlesOf(entries: map<Sid, Entry>): map<Sid, nat> {
    map sid | sid in entries :: entries[sid].handle
  }

  lemma HandlesDrop(entries: map<Sid, Entry>, keep: set<Sid>)
    ensures HandlesOf(map sid | sid in entries && sid in keep :: entries[sid])
            == map sid | sid in HandlesOf(entries) && sid in keep :: HandlesOf(entries)[sid]
  {
  }

  /** Handles are positions. */
  ghost predicate Named(made: seq<Entry>) {
    forall h {:trigger made[h]} :: 0 <= h < |made| ==> made[h].handle == h
  }

  function Going(slot: Slot, now: int): Slot {
    slot.(running := true, due := now + slot.interval)
  }

  /** The slots when a tick has been at all checks but `todo`. */
  function Begun(l: Lane, now: int, todo: set<Sid>): (slots: seq<Slot>)
    ensures |slots| == |l.slots|
  {
    seq(|l.slots|, h requires 0 <= h < |l.slots| =>
      if l.Starts(h, now) && l.slots[h].sid !in todo then Going(l.slots[h], now) else l.slots[h])
  }

  lemma AllLeft(l: Lane, now: int, todo: set<Sid>)
    requires todo == l.entries.Keys
    ensures Begun(l, now, todo) == l.slots
    ensures forall h {:trigger l.Starts(h, now)} :: 0 <= h < |l.slots| && l.Starts(h, now) ==> l.slots[h].sid in todo
  {
  }

  lemma NoneLeft(l: Lane, now: int, all: set<Sid>)
    ensures Begun(l, now, {}) == Ticked(l, now).slots
  {
  }

  lemma StillIdle(l: Lane, now: int, todo: set<Sid>, sid: Sid)
    requires sid in todo && sid in l.entries && l.entries[sid] < |l.slots| && l.slots[l.entries[sid]].sid == sid
    ensures Begun(l, now, todo)[l.entries[sid]] == l.slots[l.entries[sid]]
  {
  }

  /** Of all entries ever made for a check, only its present one can be started. */
  lemma OneLive(l: Lane, sid: Sid, now: int)
    requires sid in l.entries && l.entries[sid] < |l.slots| && l.slots[l.entries[sid]].sid == sid
    ensures var slot := l.slots[l.entries[sid]];
            l.Starts(l.entries[sid], now) <==> slot.due <= now && !slot.running
    ensures forall h {:trigger l.slots[h]} :: 0 <= h < |l.slots| && l.slots[h].sid == sid && l.Starts(h, now) ==>
              h == l.entries[sid]
  {
  }

  /** A tick goes on by one check. */
  lemma BegunStep(l: Lane, now: int, todo: set<Sid>, sid: Sid)
    requires sid in todo && sid in l.entries && l.entries[sid] < |l.slots| && l.slots[l.entries[sid]].sid == sid
    ensures var h := l.entries[sid];
            var begun := Begun(l, now, todo);
            && begun[h] == l.slots[h]
            && (l.Starts(h, now) <==> l.slots[h].due <= now && !l.slots[h].running)
            && Begun(l, now, todo - {sid}) == begun[h := if l.Starts(h, now) then Going(begun[h], now) else begun[h]]
  {
    hide Lane.Starts;
    hide Going;
    OneLive(l, sid, now);
    StillIdle(l, now, todo, sid);
  }

  lemma MetNext(l: Lane, checks: seq<Check>, c: Check, now: int)
    ensures Met(l, checks + [c], now) == MeetOne(Met(l, checks, now), c, now)
    ensures SidsOf(checks + [c]) == SidsOf(checks) + if c.sid != "" then {c.sid} else {}
  {
    assert (checks + [c])[..|checks|] == checks;
  }
}
