/** What the fast lane promises, for every order of ticks, answers, flushes and refreshes. */
module FastLaneResults {
  import opened Text
  import opened FastLane
  import opened FastLaneProofs
  import opened FastLaneRuns

  // ---- Samples ----

  /** For each check what was delivered, is in flight and is buffered are, in this order and
      without a duplicate, its completed probes without those that were discarded. */
  lemma SamplesConserved(l0: Lane, s0: Story, run: seq<Event>, l: Lane, s: Story, sid: Sid)
    requires Idle(l0, s0) && Runs(l0, s0, run, l, s)
    ensures At(s.delivered, sid) + At(l.Posting(), sid) + At(l.buffer, sid) == Keep(Of(s.history, sid), s.lost)
    ensures Rising(Whole(l, s, sid))
    ensures forall x :: x in Whole(l, s, sid) <==> x in s.history && x.sid == sid && x.serial !in s.lost
  {
    hide Of;
    hide Keep;
    hide OneProbe;
    hide Spaced;
    hide Urgent;
    hide HandedOver;
    hide Bounded;
    IdleHealthy(l0, s0);
    RunsHealthy(l0, s0, run, l, s);
    assert Whole(l, s, sid) == Keep(Of(s.history, sid), s.lost);
    NumberedRising(s.history);
    OfMembers(s.history, sid);
    OfRising(s.history, sid);
    KeepMembers(Of(s.history, sid), s.lost);
  }

  /** An event that discards samples: a failed flush that trims, or a refresh that removes a
      check with samples. */
  predicate Discards(l: Lane, e: Event) {
    || (e.FlushFail? && Trimmed(l) != {})
    || (e.Refresh? && Removed(Met(l, e.checks, e.now), SidsOf(e.checks)) != {})
  }

  /** A failed flush discards only what is over NEWEST. */
  lemma TrimsWhatIsOver(l: Lane)
    ensures Trimmed(l) != {} <==> exists sid: Sid :: |Restored(l, sid)| > NEWEST
  {
    hide Restored;
    if Trimmed(l) != {} {
      var n :| n in Trimmed(l);
      TrimmedMeans(l, n);
      var sid, x :| sid in l.Posting().Keys + l.buffer.Keys && x in Oldest(Restored(l, sid)) && x.serial == n;
      assert |Restored(l, sid)| > NEWEST;
    }
    if sid: Sid :| |Restored(l, sid)| > NEWEST {
      RestoredIn(l, sid);
      var x := Oldest(Restored(l, sid))[0];
      assert x in Oldest(Restored(l, sid));
      TrimmedMeans(l, x.serial);
    }
  }

  lemma RestoredIn(l: Lane, sid: Sid)
    requires |Restored(l, sid)| > 0
    ensures sid in l.Posting().Keys + l.buffer.Keys
  {
  }

  ghost predicate Gentle(l: Lane, run: seq<Event>)
    decreases |run|
  {
    run == [] ||
    (!Discards(l, run[0]) && (run[0].ProbeEnd? ==> run[0].handle < |l.slots|) && Gentle(Step(l, run[0]), run[1..]))
  }

  lemma {:induction false} GentleLosesNothing(l: Lane, s: Story, run: seq<Event>, l': Lane, s': Story)
    requires Runs(l, s, run, l', s') && Gentle(l, run)
    ensures s'.lost == s.lost
    decreases |run|
  {
    hide Step;
    hide Trimmed;
    hide Removed;
    if run != [] {
      GentleLosesNothing(Step(l, run[0]), Tell(l, s, run[0]), run[1..], l', s');
    }
  }

  lemma {:induction false} KeepAllOf(samples: seq<Sample>)
    ensures Keep(samples, {}) == samples
  {
    KeepAll(samples, {});
  }

  /** When no event discards anything, every completed probe of a check is delivered, in flight
      or buffered, whatever number of posts failed. */
  lemma NothingIsLost(l0: Lane, s0: Story, run: seq<Event>, l: Lane, s: Story, sid: Sid)
    requires Idle(l0, s0) && Runs(l0, s0, run, l, s) && Gentle(l0, run)
    ensures At(s.delivered, sid) + At(l.Posting(), sid) + At(l.buffer, sid) == Of(s.history, sid)
  {
    hide Keep;
    hide Of;
    hide Runs;
    hide Gentle;
    SamplesConserved(l0, s0, run, l, s, sid);
    GentleLosesNothing(l0, s0, run, l, s);
    KeepAllOf(Of(s.history, sid));
  }

  // ---- Scheduling ----

  /** No entry ever has two probes in flight. */
  lemma OneProbeAtATime(l0: Lane, s0: Story, run: seq<Event>, l: Lane, s: Story, h: nat)
    requires Idle(l0, s0) && Runs(l0, s0, run, l, s)
    ensures InFlight(s.flying, h) <= 1
    ensures h < |l.slots| ==> (l.slots[h].running <==> InFlight(s.flying, h) == 1)
  {
    hide Recorded;
    hide Conserved;
    hide Spaced;
    hide Urgent;
    hide HandedOver;
    hide Bounded;
    IdleHealthy(l0, s0);
    RunsHealthy(l0, s0, run, l, s);
    assert h < |l.slots| ==> l.slots[h] == l.slots[h];
  }

  predicate StartsIn(x: Start, h: nat, from: int, length: nat) {
    x.handle == h && from <= x.at <= from + length
  }

  function StartCount(starts: seq<Start>, h: nat, from: int, length: nat): nat {
    if starts == [] then 0
    else
      StartCount(starts[..|starts| - 1], h, from, length)
      + if StartsIn(starts[|starts| - 1], h, from, length) then 1 else 0
  }

  /** The last of `c` starts in a window is `c - 1` shortest intervals into it. */
  lemma {:induction false} LastStart(starts: seq<Start>, h: nat, from: int, length: nat) returns (i: nat)
    requires Apart(starts) && forall i :: 0 <= i < |starts| ==> starts[i].interval >= SHORTEST
    requires StartCount(starts, h, from, length) > 0
    ensures i < |starts| && StartsIn(starts[i], h, from, length)
    ensures starts[i].at >= from + SHORTEST * (StartCount(starts, h, from, length) - 1)
  {
    var front, last := starts[..|starts| - 1], starts[|starts| - 1];
    if StartCount(front, h, from, length) > 0 {
      i := LastStart(front, h, from, length);
      if StartsIn(last, h, from, length) {
        assert starts[i].at + starts[i].interval <= last.at;
        i := |starts| - 1;
      }
    } else {
      i := |starts| - 1;
    }
  }

  /** In any window of `length` milliseconds an entry is started at most `length / 200 + 1`
      times, for every order of ticks, slow answers and refreshes. */
  lemma StartsInWindow(l0: Lane, s0: Story, run: seq<Event>, l: Lane, s: Story, h: nat, from: int, length: nat)
    requires Idle(l0, s0) && Runs(l0, s0, run, l, s)
    ensures StartCount(s.starts, h, from, length) <= length / SHORTEST + 1
  {
    hide Recorded;
    hide Conserved;
    hide OneProbe;
    hide Urgent;
    hide HandedOver;
    hide Bounded;
    hide StartCount;
    IdleHealthy(l0, s0);
    RunsHealthy(l0, s0, run, l, s);
    if StartCount(s.starts, h, from, length) > 0 {
      var i := LastStart(s.starts, h, from, length);
    }
  }

  /** Any two starts of one entry are at least the interval apart that was in force at the
      earlier, and that is at least the shortest. */
  lemma StartsApartBy(l0: Lane, s0: Story, run: seq<Event>, l: Lane, s: Story, i: nat, j: nat)
    requires Idle(l0, s0) && Runs(l0, s0, run, l, s)
    requires i < j < |s.starts| && s.starts[i].handle == s.starts[j].handle
    ensures s.starts[j].at - s.starts[i].at >= s.starts[i].interval >= SHORTEST
  {
    hide Recorded;
    hide Conserved;
    hide OneProbe;
    hide Urgent;
    hide HandedOver;
    hide Bounded;
    IdleHealthy(l0, s0);
    RunsHealthy(l0, s0, run, l, s);
    assert s.starts[i] == s.starts[i];
  }

  /** A tick starts a probe of an entry exactly when the entry is the one its check has, it is
      due, and no probe of it is in flight; and then one. */
  lemma TickStartsWhatIsDue(l0: Lane, s0: Story, run: seq<Event>, l: Lane, s: Story, now: int, h: nat)
    requires Idle(l0, s0) && Runs(l0, s0, run, l, s)
    ensures var t := Tell(l, s, Tick(now));
            InFlight(t.flying, h)
            == if l.Live(h) && l.slots[h].due <= now && InFlight(s.flying, h) == 0 then 1 else InFlight(s.flying, h)
  {
    hide Started;
    OneProbeAtATime(l0, s0, run, l, s, h);
    IdleHealthy(l0, s0);
    RunsHealthy(l0, s0, run, l, s);
    assert |s.flying| <= |l.slots| by { FlyingFits(l, s); }
    hide Healthy;
  }

  lemma FlyingFits(l: Lane, s: Story)
    requires Healthy(l, s)
    ensures |s.flying| <= |l.slots|
  {
  }

  /** The milliseconds a check asks for: 1000 if it says nothing or zero, and never less than
      200. */
  ghost predicate AsksFor(c: Check, ms: int) {
    match c.intervalMs
    case None => ms == 1000
    case Some(asked) => if asked == 0 then ms == 1000 else if asked < 200 then ms == 200 else ms == asked
  }

  lemma IntervalMeaning(c: Check, ms: int)
    ensures IntervalOf(c) == ms <==> AsksFor(c, ms)
  {
  }

  /** The last word of an answer on a check. */
  ghost predicate LastCheck(checks: seq<Check>, i: nat, sid: Sid) {
    && i < |checks| && checks[i].sid == sid && sid != ""
    && forall j :: i < j < |checks| ==> checks[j].sid != sid
  }

  /** A slot has the interval the answer asks for last for its check. */
  ghost predicate Asked(checks: seq<Check>, slot: Slot) {
    forall i: nat | LastCheck(checks, i, slot.sid) :: AsksFor(checks[i], slot.interval)
  }

  lemma LastOfMore(front: seq<Check>, c: Check, i: nat, sid: Sid)
    ensures LastCheck(front + [c], i, sid) <==>
              if c.sid == sid && sid != "" then i == |front| else LastCheck(front, i, sid)
  {
    var all := front + [c];
    assert forall j :: 0 <= j < |front| ==> all[j] == front[j];
    if LastCheck(front, i, sid) && c.sid != sid {
      assert forall j :: i < j < |all| ==> all[j] == if j < |front| then front[j] else c;
    }
    if LastCheck(all, i, sid) && c.sid == sid {
      assert all[|front|] == c;
    }
  }

  lemma {:induction false} SomeLastCheck(checks: seq<Check>, sid: Sid)
    ensures sid in SidsOf(checks) <==> exists i: nat :: LastCheck(checks, i, sid)
  {
    if checks != [] {
      var front, c := checks[..|checks| - 1], checks[|checks| - 1];
      assert checks == front + [c];
      SomeLastCheck(front, sid);
      SidsNext(front, c);
      hide SidsOf;
      hide LastCheck;
      forall i: nat ensures LastCheck(checks, i, sid) <==>
                              if c.sid == sid && sid != "" then i == |front| else LastCheck(front, i, sid) {
        LastOfMore(front, c, i, sid);
      }
      if c.sid == sid && sid != "" {
        assert LastCheck(checks, |front|, sid);
      } else if i: nat :| LastCheck(front, i, sid) {
        assert LastCheck(checks, i, sid);
      }
    }
  }

  lemma SidsNext(front: seq<Check>, c: Check)
    ensures SidsOf(front + [c]) == SidsOf(front) + if c.sid != "" then {c.sid} else {}
  {
  }

  lemma {:induction false} MetKeys(l: Lane, checks: seq<Check>, now: int)
    requires Wired(l)
    ensures Met(l, checks, now).entries.Keys == l.entries.Keys + SidsOf(checks)
  {
    hide IntervalOf;
    if checks != [] {
      var front, c := checks[..|checks| - 1], checks[|checks| - 1];
      MetKeys(l, front, now);
      assert Wired(Met(l, front, now)) by { MetExtends(l, front, now); }
      assert checks == front + [c];
      SidsNext(front, c);
      hide SidsOf;
    }
  }

  lemma {:induction false} MetAsked(l: Lane, checks: seq<Check>, now: int, sid: Sid)
    requires Wired(l) && sid in SidsOf(checks)
    ensures var m := Met(l, checks, now);
            sid in m.entries && m.entries[sid] < |m.slots| && Asked(checks, m.slots[m.entries[sid]])
  {
    hide IntervalOf;
    hide Asked;
    hide MeetOne;
    if checks != [] {
      var front, c := checks[..|checks| - 1], checks[|checks| - 1];
      assert checks == front + [c];
      SidsNext(front, c);
      if sid in SidsOf(front) {
        MetAsked(l, front, now, sid);
      }
      assert Wired(Met(l, front, now)) by { MetExtends(l, front, now); }
      hide SidsOf;
      hide Wired;
      MetInterval(l, front, c, now, sid);
    }
  }

  lemma MetInterval(l: Lane, front: seq<Check>, c: Check, now: int, sid: Sid)
    requires Wired(Met(l, front, now))
    requires sid in SidsOf(front) ==>
               var b := Met(l, front, now);
               sid in b.entries && b.entries[sid] < |b.slots| && Asked(front, b.slots[b.entries[sid]])
    requires sid in SidsOf(front) || (c.sid == sid && sid != "")
    ensures var m := MeetOne(Met(l, front, now), c, now);
            sid in m.entries && m.entries[sid] < |m.slots| && Asked(front + [c], m.slots[m.entries[sid]])
  {
    hide IntervalOf;
    hide AsksFor;
    hide LastCheck;
    var b, m := Met(l, front, now), MeetOne(Met(l, front, now), c, now);
    if c.sid == sid && sid != "" {
      assert m.slots[m.entries[sid]].interval == IntervalOf(c) && m.slots[m.entries[sid]].sid == sid;
      IntervalMeaning(c, IntervalOf(c));
    } else {
      assert c.sid != "" && c.sid in b.entries ==> b.entries[c.sid] != b.entries[sid];
      assert m.slots[m.entries[sid]] == b.slots[b.entries[sid]];
    }
    var all := front + [c];
    forall i: nat | i < |all| && LastCheck(all, i, sid) ensures AsksFor(all[i], m.slots[m.entries[sid]].interval) {
      LastOfMore(front, c, i, sid);
      LastIn(front, i, sid);
    }
    LastInAll(all, sid);
  }

  lemma LastIn(checks: seq<Check>, i: nat, sid: Sid)
    ensures LastCheck(checks, i, sid) ==> i < |checks|
  {
  }

  lemma LastInAll(checks: seq<Check>, sid: Sid)
    ensures forall i: nat | LastCheck(checks, i, sid) :: i < |checks|
  {
  }

  /** A check of the answer that has no entry gets one that is due at once and idle. */
  lemma {:induction false} MetNew(l: Lane, checks: seq<Check>, now: int, sid: Sid)
    requires Wired(l) && sid in SidsOf(checks) && sid !in l.entries
    ensures var m := Met(l, checks, now);
            && sid in m.entries && |l.slots| <= m.entries[sid] < |m.slots|
            && m.slots[m.entries[sid]]
               == Slot(sid, m.slots[m.entries[sid]].interval, now, false, None)
  {
    hide IntervalOf;
    if checks != [] {
      var front, c := checks[..|checks| - 1], checks[|checks| - 1];
      assert checks == front + [c];
      SidsNext(front, c);
      if sid in SidsOf(front) {
        MetNew(l, front, now, sid);
      } else {
        MetKeys(l, front, now);
        assert sid !in Met(l, front, now).entries;
      }
      MetExtends(l, front, now);
      hide SidsOf;
    }
  }

  /** After a refresh there are entries for exactly the checks of the answer, each with the
      milliseconds the answer asks for last. A check that was there before has its entry, its due
      time and its running probe still; a new one is due at once and idle. A check that was there
      and is gone loses its buffer, and no other does. */
  lemma RefreshMeaning(l0: Lane, s0: Story, run: seq<Event>, l: Lane, s: Story, checks: seq<Check>, now: int, sid: Sid)
    requires Idle(l0, s0) && Runs(l0, s0, run, l, s)
    ensures var r := Refreshed(l, checks, now);
            && (sid in r.entries <==> exists i: nat :: LastCheck(checks, i, sid))
            && At(r.buffer, sid) == (if sid in l.entries && sid !in r.entries then [] else At(l.buffer, sid))
            && (sid in r.entries ==>
                  && r.entries[sid] < |r.slots| && r.slots[r.entries[sid]].sid == sid
                  && (forall i: nat | LastCheck(checks, i, sid) ::
                        AsksFor(checks[i], r.slots[r.entries[sid]].interval))
                  && (if sid in l.entries then
                        && r.entries[sid] == l.entries[sid] < |l.slots|
                        && r.slots[r.entries[sid]]
                           == l.slots[l.entries[sid]].(interval := r.slots[r.entries[sid]].interval)
                      else
                        && r.entries[sid] >= |l.slots|
                        && r.slots[r.entries[sid]]
                           == Slot(sid, r.slots[r.entries[sid]].interval, now, false, None)))
  {
    hide Recorded;
    hide Conserved;
    hide OneProbe;
    hide Spaced;
    hide Urgent;
    hide HandedOver;
    hide Bounded;
    hide IntervalOf;
    hide AsksFor;
    hide LastCheck;
    IdleHealthy(l0, s0);
    RunsHealthy(l0, s0, run, l, s);
    MetKeys(l, checks, now);
    MetExtends(l, checks, now);
    SomeLastCheck(checks, sid);
    if sid in SidsOf(checks) {
      MetAsked(l, checks, now, sid);
      if sid !in l.entries {
        MetNew(l, checks, now, sid);
      }
    }
    hide Met;
  }

  // ---- Urgency and bounds ----

  /** A flush is called for at once exactly when some entry's reachability flipped since the
      buffer was last swapped, be it while a post was outstanding. */
  lemma UrgentIffFlipped(l0: Lane, s0: Story, run: seq<Event>, l: Lane, s: Story)
    requires Idle(l0, s0) && Runs(l0, s0, run, l, s)
    ensures l.flushNow <==> exists i :: s.swappedAt <= i < |s.history| && Flips(s.history, i)
  {
    hide Recorded;
    hide Conserved;
    hide OneProbe;
    hide Spaced;
    hide HandedOver;
    hide Bounded;
    IdleHealthy(l0, s0);
    RunsHealthy(l0, s0, run, l, s);
  }

  /** The flush that follows hands over every sample completed since the last swap and not
      discarded, among them those that flipped, and leaves nothing behind. */
  lemma FlushHandsOver(l0: Lane, s0: Story, run: seq<Event>, l: Lane, s: Story, i: nat)
    requires Idle(l0, s0) && Runs(l0, s0, run, l, s) && l.posting.None?
    requires s.swappedAt <= i < |s.history| && i !in s.lost
    ensures s.history[i] in At(Step(l, FlushBegin).Posting(), s.history[i].sid)
    ensures Step(l, FlushBegin).buffer == map[]
  {
    hide OneProbe;
    hide Spaced;
    hide Urgent;
    hide Bounded;
    hide Of;
    hide Keep;
    IdleHealthy(l0, s0);
    RunsHealthy(l0, s0, run, l, s);
    var sid := s.history[i].sid;
    SamplesConserved(l0, s0, run, l, s, sid);
    assert s.history[i] in Whole(l, s, sid);
    assert s.history[i] !in At(s.delivered, sid);
    SwapMoves(l, sid);
  }

  /** A buffer holds at most NEWEST samples and those completed since the last failed flush. */
  lemma BufferBounded(l0: Lane, s0: Story, run: seq<Event>, l: Lane, s: Story, sid: Sid)
    requires Idle(l0, s0) && Runs(l0, s0, run, l, s)
    ensures s.failedAt <= |s.history|
    ensures |At(l.buffer, sid)| <= NEWEST + |Of(s.history[s.failedAt..], sid)|
  {
    hide Conserved;
    hide OneProbe;
    hide Spaced;
    hide Urgent;
    hide HandedOver;
    hide Of;
    IdleHealthy(l0, s0);
    RunsHealthy(l0, s0, run, l, s);
    assert Waiting(l, sid) >= |At(l.buffer, sid)|;
  }
}
