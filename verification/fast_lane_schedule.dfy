/** When the fast lane's probes start, said of what happened before; and what a failed post
    leaves. */
module FastLaneSchedule {
  import opened Text
  import opened FastLane
  import opened FastLaneProofs
  import opened FastLaneRuns
  import opened FastLaneResults

  // ---- The next start is one interval after the last ----

  /** The last start of an entry. */
  function LastOf(starts: seq<Start>, h: nat): Option<Start> {
    if starts == [] then None
    else if starts[|starts| - 1].handle == h then Some(starts[|starts| - 1])
    else LastOf(starts[..|starts| - 1], h)
  }

  /** An entry that was started is due one interval after its last start, as long as the interval
      was then. */
  ghost predicate DueByStart(l: Lane, s: Story) {
    forall h: nat {:trigger l.slots[h]} | h < |l.slots| && LastOf(s.starts, h).Some? ::
      l.slots[h].due == LastOf(s.starts, h).value.at + LastOf(s.starts, h).value.interval
  }

  lemma {:induction false} LastOfNone(starts: seq<Start>, more: seq<Start>, h: nat)
    requires forall i :: 0 <= i < |more| ==> more[i].handle != h
    ensures LastOf(starts + more, h) == LastOf(starts, h)
  {
    if more == [] {
      assert starts + more == starts;
    } else {
      var front := more[..|more| - 1];
      assert (starts + more)[..|starts + more| - 1] == starts + front;
      LastOfNone(starts, front, h);
    }
  }

  lemma {:induction false} LastOfOne(starts: seq<Start>, more: seq<Start>, h: nat, k: nat)
    requires k < |more| && more[k].handle == h
    requires forall i, j :: 0 <= i < j < |more| ==> more[i].handle != more[j].handle
    ensures LastOf(starts + more, h) == Some(more[k])
  {
    var front := more[..|more| - 1];
    assert (starts + more)[..|starts + more| - 1] == starts + front;
    if k < |front| {
      LastOfOne(starts, front, h, k);
    }
  }

  lemma {:induction false} StartedHas(l: Lane, now: int, n: nat, h: nat) returns (k: nat)
    requires h < n <= |l.slots| && l.Starts(h, now)
    ensures k < |Started(l, now, n)| && Started(l, now, n)[k] == Start(h, now, l.slots[h].interval)
  {
    hide Lane.Starts;
    if h == n - 1 {
      k := |Started(l, now, n)| - 1;
    } else {
      k := StartedHas(l, now, n - 1, h);
    }
  }

  lemma TickDue(l: Lane, s: Story, now: int)
    requires DueByStart(l, s)
    ensures DueByStart(Ticked(l, now), Tell(l, s, Tick(now)))
  {
    hide Lane.Starts;
    StartedAre(l, now, |l.slots|);
    var started := Started(l, now, |l.slots|);
    var r, t := Ticked(l, now), Tell(l, s, Tick(now));
    hide Started;
    hide LastOf;
    forall h: nat {:trigger r.slots[h]} | h < |r.slots| && LastOf(t.starts, h).Some?
      ensures r.slots[h].due == LastOf(t.starts, h).value.at + LastOf(t.starts, h).value.interval
    {
      assert l.slots[h] == l.slots[h];
      if l.Starts(h, now) {
        var k := StartedHas(l, now, |l.slots|, h);
        LastOfOne(s.starts, started, h, k);
      } else {
        forall i | 0 <= i < |started| ensures started[i].handle != h {
          assert StartedBy(l, now, |l.slots|, started[i]);
        }
        LastOfNone(s.starts, started, h);
      }
    }
  }

  lemma {:induction false} NotStarted(starts: seq<Start>, h: nat)
    requires forall i :: 0 <= i < |starts| ==> starts[i].handle != h
    ensures LastOf(starts, h) == None
  {
    LastOfNone([], starts, h);
    assert [] + starts == starts;
  }

  lemma StepDue(l: Lane, s: Story, e: Event)
    requires Healthy(l, s) && Enabled(l, s, e) && DueByStart(l, s)
    ensures DueByStart(Step(l, e), Tell(l, s, e))
  {
    match e
    case Tick(now) => TickDue(l, s, now);
    case ProbeEnd(h, status) => EndDue(l, s, h, status);
    case FlushBegin =>
    case FlushOk =>
    case FlushFail =>
    case Refresh(checks, now) => RefreshDue(l, s, checks, now);
  }

  lemma EndDue(l: Lane, s: Story, h: nat, status: string)
    requires h < |l.slots| && DueByStart(l, s)
    ensures DueByStart(Ended(l, h, status), Tell(l, s, ProbeEnd(h, status)))
  {
    hide LastOf;
    hide Reachable;
    var r := Ended(l, h, status);
    assert forall k: nat {:trigger r.slots[k]} | k < |r.slots| :: r.slots[k].due == l.slots[k].due;
  }

  lemma RefreshDue(l: Lane, s: Story, checks: seq<Check>, now: int)
    requires Healthy(l, s) && DueByStart(l, s)
    ensures DueByStart(Refreshed(l, checks, now), Tell(l, s, Refresh(checks, now)))
  {
    hide LastOf;
    hide Recorded;
    hide Conserved;
    hide OneProbe;
    hide Urgent;
    hide HandedOver;
    hide Bounded;
    hide Apart;
    MetExtends(l, checks, now);
    var r := Met(l, checks, now);
    hide Met;
    forall h: nat {:trigger r.slots[h]} | h < |r.slots| && LastOf(s.starts, h).Some?
      ensures r.slots[h].due == LastOf(s.starts, h).value.at + LastOf(s.starts, h).value.interval
    {
      if h >= |l.slots| {
        assert forall i :: 0 <= i < |s.starts| ==> s.starts[i].handle < |l.slots|;
        NotStarted(s.starts, h);
      } else {
        assert l.slots[h].due == r.slots[h].due;
      }
    }
  }

  lemma {:induction false} RunsDue(l: Lane, s: Story, run: seq<Event>, l': Lane, s': Story)
    requires Healthy(l, s) && DueByStart(l, s) && Runs(l, s, run, l', s')
    ensures DueByStart(l', s')
    decreases |run|
  {
    hide Healthy;
    hide DueByStart;
    hide Step;
    hide Tell;
    if run != [] {
      StepHealthy(l, s, run[0]);
      StepDue(l, s, run[0]);
      RunsDue(Step(l, run[0]), Tell(l, s, run[0]), run[1..], l', s');
    }
  }

  /** A present entry without a probe in flight that was started before is started again by a
      tick exactly when one interval, as it was at that start, has passed since. */
  lemma StartedAgain(l0: Lane, s0: Story, run: seq<Event>, l: Lane, s: Story, now: int, h: nat)
    requires Idle(l0, s0) && Runs(l0, s0, run, l, s)
    requires l.Live(h) && InFlight(s.flying, h) == 0 && LastOf(s.starts, h).Some?
    ensures var x := LastOf(s.starts, h).value;
            InFlight(Tell(l, s, Tick(now)).flying, h) == 1 <==> now >= x.at + x.interval
  {
    hide LastOf;
    IdleHealthy(l0, s0);
    RunsDue(l0, s0, run, l, s);
    TickStartsWhatIsDue(l0, s0, run, l, s, now, h);
    assert l.slots[h].due == l.slots[h].due;
  }

  // ---- Intervals ----

  predicate NoRefresh(run: seq<Event>) {
    forall k :: 0 <= k < |run| ==> !run[k].Refresh?
  }

  lemma StepInterval(l: Lane, s: Story, e: Event, h: nat)
    requires Enabled(l, s, e) && !e.Refresh? && h < |l.slots|
    ensures var l', s' := Step(l, e), Tell(l, s, e);
            && h < |l'.slots| && l'.slots[h].interval == l.slots[h].interval
            && s.starts <= s'.starts
            && forall k :: |s.starts| <= k < |s'.starts| && s'.starts[k].handle == h ==>
                 s'.starts[k].interval == l.slots[h].interval
  {
    hide Reachable;
    hide Lane.Starts;
    if e.Tick? {
      StartedAre(l, e.now, |l.slots|);
      var started := Started(l, e.now, |l.slots|);
      hide Started;
      forall k | 0 <= k < |started| && started[k].handle == h ensures started[k].interval == l.slots[h].interval {
        assert StartedBy(l, e.now, |l.slots|, started[k]);
      }
    }
  }

  /** Until the next refresh an entry's interval holds for all its starts. */
  lemma {:induction false} IntervalHolds(l: Lane, s: Story, run: seq<Event>, l': Lane, s': Story, h: nat)
    requires Runs(l, s, run, l', s') && NoRefresh(run) && h < |l.slots|
    ensures s.starts <= s'.starts
    ensures forall k :: |s.starts| <= k < |s'.starts| && s'.starts[k].handle == h ==>
              s'.starts[k].interval == l.slots[h].interval
    decreases |run|
  {
    hide Step;
    hide Tell;
    if run != [] {
      var m, t := Step(l, run[0]), Tell(l, s, run[0]);
      StepInterval(l, s, run[0], h);
      assert forall k :: 0 <= k < |run| - 1 ==> run[1..][k] == run[k + 1];
      IntervalHolds(m, t, run[1..], l', s', h);
      assert forall k :: |s.starts| <= k < |t.starts| ==> s'.starts[k] == t.starts[k];
    }
  }

  /** After a refresh whose last word on a check asks for `ms` milliseconds, and until the next
      refresh, any two starts of its entry lie at least `ms` apart. */
  lemma StartsAskedApart(l0: Lane, s0: Story, run: seq<Event>, l: Lane, s: Story, checks: seq<Check>, now: int,
                         c: nat, ms: int, after: seq<Event>, l': Lane, s': Story, i: nat, j: nat)
    requires Idle(l0, s0) && Runs(l0, s0, run, l, s) && Enabled(l, s, Refresh(checks, now))
    requires c < |checks| && LastCheck(checks, c, checks[c].sid) && AsksFor(checks[c], ms)
    requires Runs(Refreshed(l, checks, now), Tell(l, s, Refresh(checks, now)), after, l', s') && NoRefresh(after)
    requires |s.starts| <= i < j < |s'.starts| && s'.starts[i].handle == s'.starts[j].handle
    requires var r := Refreshed(l, checks, now);
             checks[c].sid in r.entries && s'.starts[i].handle == r.entries[checks[c].sid]
    ensures s'.starts[j].at - s'.starts[i].at >= ms
  {
    hide Healthy;
    hide LastCheck;
    hide AsksFor;
    hide Refreshed;
    hide Apart;
    var sid := checks[c].sid;
    var r, t := Refreshed(l, checks, now), Tell(l, s, Refresh(checks, now));
    RefreshMeaning(l0, s0, run, l, s, checks, now, sid);
    var h := r.entries[sid];
    IntervalHolds(r, t, after, l', s', h);
    assert s'.starts[i].interval == r.slots[h].interval == ms by {
      OneInterval(checks[c], r.slots[h].interval, ms);
    }
    IdleHealthy(l0, s0);
    RunsHealthy(l0, s0, run, l, s);
    StepHealthy(l, s, Refresh(checks, now));
    assert Step(l, Refresh(checks, now)) == r;
    RunsHealthy(r, t, after, l', s');
    HealthyApart(l', s', i, j);
  }

  lemma OneInterval(c: Check, a: int, b: int)
    requires AsksFor(c, a) && AsksFor(c, b)
    ensures a == b
  {
  }

  lemma HealthyApart(l: Lane, s: Story, i: nat, j: nat)
    requires Healthy(l, s) && i < j < |s.starts| && s.starts[i].handle == s.starts[j].handle
    ensures s.starts[i].at + s.starts[i].interval <= s.starts[j].at
  {
  }

  // ---- Every start ends in one sample ----

  function StartsOf(starts: seq<Start>, h: nat): nat {
    if starts == [] then 0
    else StartsOf(starts[..|starts| - 1], h) + if starts[|starts| - 1].handle == h then 1 else 0
  }

  function EndsOf(history: seq<Sample>, h: nat): nat {
    if history == [] then 0
    else EndsOf(history[..|history| - 1], h) + if history[|history| - 1].handle == h then 1 else 0
  }

  ghost predicate Accounted(l: Lane, s: Story) {
    && |s.flying| <= |l.slots|
    && forall h: nat {:trigger StartsOf(s.starts, h)} ::
         StartsOf(s.starts, h) == EndsOf(s.history, h) + InFlight(s.flying, h)
  }

  lemma {:induction false} StartsOfAppend(a: seq<Start>, b: seq<Start>, h: nat)
    ensures StartsOf(a + b, h) == StartsOf(a, h) + StartsOf(b, h)
  {
    if b == [] {
      assert a + b == a;
    } else {
      var front := b[..|b| - 1];
      assert (a + b)[..|a + b| - 1] == a + front;
      StartsOfAppend(a, front, h);
    }
  }

  lemma {:induction false} StartedOnce(l: Lane, now: int, n: nat, h: nat)
    requires n <= |l.slots|
    ensures StartsOf(Started(l, now, n), h) == if h < n && l.Starts(h, now) then 1 else 0
  {
    hide Lane.Starts;
    if n > 0 {
      StartedOnce(l, now, n - 1, h);
      var front := Started(l, now, n - 1);
      var one := if l.Starts(n - 1, now) then [Start(n - 1, now, l.slots[n - 1].interval)] else [];
      assert Started(l, now, n) == front + one;
      StartsOfAppend(front, one, h);
      if one != [] {
        assert one[..0] == [];
      }
    }
  }

  lemma TickAccounted(l: Lane, s: Story, now: int)
    requires Accounted(l, s)
    ensures Accounted(Ticked(l, now), Tell(l, s, Tick(now)))
  {
    hide Lane.Starts;
    var r, t := Ticked(l, now), Tell(l, s, Tick(now));
    forall h: nat ensures StartsOf(t.starts, h) == EndsOf(t.history, h) + InFlight(t.flying, h) {
      StartsOfAppend(s.starts, Started(l, now, |l.slots|), h);
      StartedOnce(l, now, |l.slots|, h);
      assert StartsOf(s.starts, h) == EndsOf(s.history, h) + InFlight(s.flying, h);
      hide Started;
      hide StartsOf;
    }
  }

  lemma EndAccounted(l: Lane, s: Story, h: nat, status: string)
    requires Enabled(l, s, ProbeEnd(h, status)) && Accounted(l, s)
    ensures Accounted(Ended(l, h, status), Tell(l, s, ProbeEnd(h, status)))
  {
    hide Reachable;
    var r, t := Ended(l, h, status), Tell(l, s, ProbeEnd(h, status));
    forall k: nat ensures StartsOf(t.starts, k) == EndsOf(t.history, k) + InFlight(t.flying, k) {
      assert t.history[..|t.history| - 1] == s.history;
      assert StartsOf(s.starts, k) == EndsOf(s.history, k) + InFlight(s.flying, k);
      hide StartsOf;
    }
  }

  lemma StepAccounted(l: Lane, s: Story, e: Event)
    requires Healthy(l, s) && Enabled(l, s, e) && Accounted(l, s)
    ensures Accounted(Step(l, e), Tell(l, s, e))
  {
    hide StartsOf;
    hide EndsOf;
    match e
    case Tick(now) => TickAccounted(l, s, now);
    case ProbeEnd(h, status) => EndAccounted(l, s, h, status);
    case FlushBegin =>
    case FlushOk =>
    case FlushFail =>
    case Refresh(checks, now) =>
      HealthyIsWired(l, s);
      MetExtends(l, checks, now);
  }

  lemma {:induction false} RunsAccounted(l: Lane, s: Story, run: seq<Event>, l': Lane, s': Story)
    requires Healthy(l, s) && Accounted(l, s) && Runs(l, s, run, l', s')
    ensures Accounted(l', s')
    decreases |run|
  {
    hide Healthy;
    hide Accounted;
    hide Step;
    hide Tell;
    if run != [] {
      StepHealthy(l, s, run[0]);
      StepAccounted(l, s, run[0]);
      RunsAccounted(Step(l, run[0]), Tell(l, s, run[0]), run[1..], l', s');
    }
  }

  /** Every probe that was started has ended in one sample or is in flight. */
  lemma StartsAccounted(l0: Lane, s0: Story, run: seq<Event>, l: Lane, s: Story, h: nat)
    requires Idle(l0, s0) && Runs(l0, s0, run, l, s)
    ensures StartsOf(s.starts, h) == EndsOf(s.history, h) + InFlight(s.flying, h)
  {
    IdleHealthy(l0, s0);
    assert Accounted(l0, s0);
    RunsAccounted(l0, s0, run, l, s);
  }

  // ---- A failed post ----

  /** A failed post puts its samples back in front of those that came since; of more than 600 the
      newest 600 are kept. */
  lemma FailedKeepsNewest(l: Lane, sid: Sid)
    ensures var all, kept := At(l.Posting(), sid) + At(l.buffer, sid), At(Failed(l).buffer, sid);
            && |kept| == (if |all| > 600 then 600 else |all|)
            && kept == all[|all| - |kept|..]
  {
  }

  /** A flush posts the buffers that have something in them, and posts nothing if none has. */
  lemma SwapPosts(l: Lane, sid: Sid)
    ensures At(Swapped(l).Posting(), sid) == At(l.buffer, sid)
    ensures Swapped(l).posting.Some? <==> exists x: Sid :: At(l.buffer, x) != []
  {
    if x: Sid :| At(l.buffer, x) != [] {
      assert x in Filled(l.buffer);
    }
    if Filled(l.buffer) != map[] {
      assert Filled(l.buffer).Keys != {};
      var x :| x in Filled(l.buffer);
      assert At(l.buffer, x) != [];
    }
  }
}
