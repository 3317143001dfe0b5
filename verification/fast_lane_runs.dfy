/** The fast lane's invariants hold at every moment of every run. */
module FastLaneRuns {
  import opened Text
  import opened FastLane
  import opened FastLaneProofs

  ghost predicate Healthy(l: Lane, s: Story) {
    && Wired(l)
    && Recorded(l, s)
    && Conserved(l, s)
    && OneProbe(l, s)
    && Spaced(l, s)
    && Urgent(l, s)
    && HandedOver(l, s)
    && Bounded(l, s)
  }

  // ---- Tick ----

  ghost predicate StartedBy(l: Lane, now: int, n: nat, x: Start) {
    x.handle < n <= |l.slots| && l.Starts(x.handle, now) && x.at == now && x.interval == l.slots[x.handle].interval
  }

  lemma {:induction false} StartedAre(l: Lane, now: int, n: nat)
    requires n <= |l.slots|
    ensures forall i :: 0 <= i < |Started(l, now, n)| ==> StartedBy(l, now, n, Started(l, now, n)[i])
    ensures forall i, j :: 0 <= i < j < |Started(l, now, n)| ==>
              Started(l, now, n)[i].handle != Started(l, now, n)[j].handle
  {
    hide Lane.Starts;
    if n > 0 {
      StartedAre(l, now, n - 1);
      var front := Started(l, now, n - 1);
      assert forall i :: 0 <= i < |front| ==> StartedBy(l, now, n - 1, front[i]);
    }
  }

  lemma TickProbes(l: Lane, s: Story, now: int)
    requires OneProbe(l, s)
    ensures OneProbe(Ticked(l, now), Tell(l, s, Tick(now)))
  {
    hide Started;
    var r, t := Ticked(l, now), Tell(l, s, Tick(now));
    forall h: nat {:trigger r.slots[h]} | h < |r.slots|
      ensures InFlight(t.flying, h) == if r.slots[h].running then 1 else 0
    {
      assert l.slots[h] == l.slots[h];
    }
  }

  lemma StartsApart(a: seq<Start>, b: seq<Start>)
    requires Apart(a)
    requires forall i, j :: 0 <= i < j < |b| ==> b[i].handle != b[j].handle
    requires forall i, j :: 0 <= i < |a| && 0 <= j < |b| && a[i].handle == b[j].handle ==>
               a[i].at + a[i].interval <= b[j].at
    ensures Apart(a + b)
  {
  }

  lemma TickSpaces(l: Lane, s: Story, now: int)
    requires Wired(l) && Spaced(l, s)
    ensures Spaced(Ticked(l, now), Tell(l, s, Tick(now)))
  {
    StartedAre(l, now, |l.slots|);
    var started := Started(l, now, |l.slots|);
    hide Started;
    forall i, j | 0 <= i < |s.starts| && 0 <= j < |started| && s.starts[i].handle == started[j].handle
      ensures s.starts[i].at + s.starts[i].interval <= started[j].at
    {
      assert StartedBy(l, now, |l.slots|, started[j]);
    }
    StartsApart(s.starts, started);
    hide Apart;
    var r, starts := Ticked(l, now), s.starts + started;
    forall i {:trigger starts[i]} | 0 <= i < |starts|
      ensures starts[i].handle < |r.slots| && starts[i].interval >= SHORTEST
              && starts[i].at + starts[i].interval <= r.slots[starts[i].handle].due
    {
      if i >= |s.starts| {
        assert StartedBy(l, now, |l.slots|, started[i - |s.starts|]);
      } else {
        assert s.starts[i] == starts[i];
      }
    }
  }

  lemma TickKeeps(l: Lane, s: Story, now: int)
    requires Wired(l) && Recorded(l, s) && Conserved(l, s) && Urgent(l, s) && HandedOver(l, s) && Bounded(l, s)
    ensures var r, t := Ticked(l, now), Tell(l, s, Tick(now));
            && Wired(r) && Recorded(r, t) && Conserved(r, t) && Urgent(r, t) && HandedOver(r, t) && Bounded(r, t)
  {
    hide Started;
    hide Of;
    hide Keep;
    hide ClassOf;
    hide FlippedSince;
    var r, t := Ticked(l, now), Tell(l, s, Tick(now));
    assert r.Posting() == l.Posting();
    assert forall h {:trigger r.slots[h]} :: 0 <= h < |r.slots| ==>
             r.slots[h].sid == l.slots[h].sid && r.slots[h].interval == l.slots[h].interval
             && r.slots[h].lastClass == l.slots[h].lastClass;
    assert forall sid :: Whole(r, t, sid) == Whole(l, s, sid);
    assert forall sid :: Waiting(r, sid) == Waiting(l, sid);
  }

  lemma TickHealthy(l: Lane, s: Story, now: int)
    requires Healthy(l, s)
    ensures Healthy(Ticked(l, now), Tell(l, s, Tick(now)))
  {
    hide Ticked;
    hide Tell;
    hide Wired;
    hide Recorded;
    hide Conserved;
    hide OneProbe;
    hide Spaced;
    hide Urgent;
    hide HandedOver;
    hide Bounded;
    TickProbes(l, s, now);
    TickSpaces(l, s, now);
    TickKeeps(l, s, now);
  }

  // ---- The end of a probe ----

  lemma OfNext(history: seq<Sample>, x: Sample, sid: Sid)
    ensures Of(history + [x], sid) == Of(history, sid) + (if x.sid == sid then [x] else [])
  {
    assert (history + [x])[..|history|] == history;
  }

  lemma KeepNext(samples: seq<Sample>, x: Sample, lost: set<nat>)
    ensures Keep(samples + [x], lost) == Keep(samples, lost) + (if x.serial in lost then [] else [x])
  {
    assert (samples + [x])[..|samples|] == samples;
  }

  lemma EndConserves(l: Lane, s: Story, h: nat, status: string)
    requires h < |l.slots| && Recorded(l, s) && Conserved(l, s)
    ensures Conserved(Ended(l, h, status), Tell(l, s, ProbeEnd(h, status)))
  {
    hide Of;
    hide Keep;
    hide Reachable;
    var r, t := Ended(l, h, status), Tell(l, s, ProbeEnd(h, status));
    var x := Sample(l.probes, h, l.slots[h].sid, status);
    forall sid: Sid ensures Whole(r, t, sid) == Keep(Of(t.history, sid), t.lost) {
      OfNext(s.history, x, sid);
      KeepNext(Of(s.history, sid), x, s.lost);
      assert Whole(l, s, sid) == Keep(Of(s.history, sid), s.lost);
      if x.sid == sid {
        assert Whole(r, t, sid) == Whole(l, s, sid) + [x];
      } else {
        assert Whole(r, t, sid) == Whole(l, s, sid);
        assert Of(s.history, sid) + [] == Of(s.history, sid);
      }
    }
  }

  lemma EndBounds(l: Lane, s: Story, h: nat, status: string)
    requires h < |l.slots| && Recorded(l, s) && Bounded(l, s)
    ensures Bounded(Ended(l, h, status), Tell(l, s, ProbeEnd(h, status)))
  {
    hide Of;
    hide Reachable;
    var r, t := Ended(l, h, status), Tell(l, s, ProbeEnd(h, status));
    var x := Sample(l.probes, h, l.slots[h].sid, status);
    forall sid: Sid {:trigger Waiting(r, sid)}
      ensures Waiting(r, sid) <= NEWEST + |Of(t.history[t.failedAt..], sid)|
    {
      assert t.history[t.failedAt..] == s.history[s.failedAt..] + [x];
      OfNext(s.history[s.failedAt..], x, sid);
      assert Waiting(r, sid) == Waiting(l, sid) + if x.sid == sid then 1 else 0;
    }
  }

  lemma ClassNext(history: seq<Sample>, x: Sample, h: nat)
    ensures ClassOf(history + [x], h) == if x.handle == h then Some(Reachable(x.status)) else ClassOf(history, h)
  {
    assert (history + [x])[..|history|] == history;
  }

  lemma FlipsNext(history: seq<Sample>, x: Sample, i: nat)
    requires i <= |history|
    ensures i < |history| ==> (Flips(history + [x], i) <==> Flips(history, i))
    ensures i == |history| ==>
              (Flips(history + [x], i) <==>
                 ClassOf(history, x.handle).Some? && ClassOf(history, x.handle).value != Reachable(x.status))
  {
    assert (history + [x])[..i] == history[..i];
    assert i == |history| ==> history[..i] == history;
  }

  lemma EndIsUrgent(l: Lane, s: Story, h: nat, status: string)
    requires h < |l.slots| && Recorded(l, s) && Urgent(l, s)
    ensures Urgent(Ended(l, h, status), Tell(l, s, ProbeEnd(h, status)))
  {
    hide ClassOf;
    hide Flips;
    hide Reachable;
    var r, t := Ended(l, h, status), Tell(l, s, ProbeEnd(h, status));
    var x := Sample(l.probes, h, l.slots[h].sid, status);
    forall g: nat {:trigger r.slots[g]} | g < |r.slots| ensures r.slots[g].lastClass == ClassOf(t.history, g) {
      ClassNext(s.history, x, g);
      assert l.slots[g] == l.slots[g];
    }
    assert l.slots[h].lastClass == ClassOf(s.history, h);
    forall i | 0 <= i <= |s.history|
      ensures i < |s.history| ==> (Flips(t.history, i) <==> Flips(s.history, i))
    {
      FlipsNext(s.history, x, i);
    }
    FlipsNext(s.history, x, |s.history|);
    if FlippedSince(s.history, s.swappedAt) {
      var i :| s.swappedAt <= i < |s.history| && Flips(s.history, i);
      assert Flips(t.history, i);
    }
  }

  lemma EndProbes(l: Lane, s: Story, h: nat, status: string)
    requires h < |l.slots| && InFlight(s.flying, h) > 0 && OneProbe(l, s)
    ensures OneProbe(Ended(l, h, status), Tell(l, s, ProbeEnd(h, status)))
  {
    hide Reachable;
    var r, t := Ended(l, h, status), Tell(l, s, ProbeEnd(h, status));
    forall g: nat {:trigger r.slots[g]} | g < |r.slots|
      ensures InFlight(t.flying, g) == if r.slots[g].running then 1 else 0
    {
      assert l.slots[g] == l.slots[g];
    }
  }

  lemma EndKeeps(l: Lane, s: Story, h: nat, status: string)
    requires h < |l.slots| && Wired(l) && Recorded(l, s) && HandedOver(l, s) && Spaced(l, s)
    ensures var r, t := Ended(l, h, status), Tell(l, s, ProbeEnd(h, status));
            Wired(r) && Recorded(r, t) && HandedOver(r, t) && Spaced(r, t)
  {
    hide Reachable;
    hide Apart;
    var r, t := Ended(l, h, status), Tell(l, s, ProbeEnd(h, status));
    assert r.Posting() == l.Posting();
    assert forall g {:trigger r.slots[g]} :: 0 <= g < |r.slots| ==>
             r.slots[g].sid == l.slots[g].sid && r.slots[g].interval == l.slots[g].interval
             && r.slots[g].due == l.slots[g].due;
    forall i {:trigger t.history[i]} | 0 <= i < |t.history|
      ensures t.history[i].serial == i && t.history[i].handle < |r.slots|
              && r.slots[t.history[i].handle].sid == t.history[i].sid
    {
      assert i < |s.history| ==> t.history[i] == s.history[i];
    }
  }

  lemma EndHealthy(l: Lane, s: Story, h: nat, status: string)
    requires Healthy(l, s) && h < |l.slots| && InFlight(s.flying, h) > 0
    ensures Healthy(Ended(l, h, status), Tell(l, s, ProbeEnd(h, status)))
  {
    hide Ended;
    hide Tell;
    hide Wired;
    hide Recorded;
    hide Conserved;
    hide OneProbe;
    hide Spaced;
    hide Urgent;
    hide HandedOver;
    hide Bounded;
    EndConserves(l, s, h, status);
    EndBounds(l, s, h, status);
    EndIsUrgent(l, s, h, status);
    EndProbes(l, s, h, status);
    EndKeeps(l, s, h, status);
  }

  // ---- Flushes ----

  lemma FilledSame(b: Buffer, sid: Sid)
    ensures At(Filled(b), sid) == At(b, sid)
    ensures Filled(b) == map[] ==> At(b, sid) == []
  {
    assert sid in Filled(b) <==> sid in b && b[sid] != [];
  }

  lemma SwapMoves(l: Lane, sid: Sid)
    requires l.posting.None?
    ensures At(Swapped(l).Posting(), sid) == At(l.buffer, sid) && At(Swapped(l).buffer, sid) == []
    ensures At(l.Posting(), sid) == []
  {
    hide Filled;
    FilledSame(l.buffer, sid);
  }

  /** What belongs to a check is among its completed probes. */
  lemma WholeMembers(l: Lane, s: Story, sid: Sid)
    requires Recorded(l, s) && Conserved(l, s)
    ensures forall x | x in Whole(l, s, sid) ::
              x.sid == sid && x.serial < |s.history| && s.history[x.serial] == x && x.serial !in s.lost
  {
    hide Of;
    hide Keep;
    NumberedRising(s.history);
    OfMembers(s.history, sid);
    OfRising(s.history, sid);
    KeepMembers(Of(s.history, sid), s.lost);
    assert Whole(l, s, sid) == Keep(Of(s.history, sid), s.lost);
  }

  lemma PartMembers(l: Lane, s: Story, sid: Sid, x: Sample)
    requires Recorded(l, s) && Conserved(l, s)
    requires x in At(s.delivered, sid) || x in At(l.Posting(), sid) || x in At(l.buffer, sid)
    ensures x.sid == sid && x.serial < |s.history| && s.history[x.serial] == x
  {
    WholeMembers(l, s, sid);
    assert x in Whole(l, s, sid);
  }

  lemma SwapHealthy(l: Lane, s: Story)
    requires Healthy(l, s) && l.posting.None?
    ensures Healthy(Swapped(l), Tell(l, s, FlushBegin))
  {
    hide Of;
    hide Keep;
    hide ClassOf;
    hide Flips;
    hide Spaced;
    hide OneProbe;
    hide Numbered;
    var r, t := Swapped(l), Tell(l, s, FlushBegin);
    assert Spaced(r, t) by { SameSlots(l, s, r, t); }
    assert OneProbe(r, t) by { SameSlots(l, s, r, t); }
    hide Swapped;
    assert r.slots == l.slots && r.entries == l.entries && r.probes == l.probes && !r.flushNow by { SwapRest(l); }
    forall sid: Sid
      ensures Whole(r, t, sid) == Whole(l, s, sid) && Waiting(r, sid) == Waiting(l, sid)
    {
      SwapMoves(l, sid);
    }
    forall sid, x {:trigger x in At(t.delivered, sid)} | x in At(t.delivered, sid) ensures x.serial < t.swappedAt {
      PartMembers(l, s, sid, x);
    }
    forall sid, x {:trigger x in At(r.Posting(), sid)} | x in At(r.Posting(), sid) ensures x.serial < t.swappedAt {
      SwapMoves(l, sid);
      PartMembers(l, s, sid, x);
    }
  }

  lemma SwapRest(l: Lane)
    ensures var r := Swapped(l);
            r.slots == l.slots && r.entries == l.entries && r.probes == l.probes && !r.flushNow
  {
  }

  lemma SameSlots(l: Lane, s: Story, r: Lane, t: Story)
    requires Spaced(l, s) && OneProbe(l, s)
    requires r.slots == l.slots && t.starts == s.starts && t.flying == s.flying
    ensures Spaced(r, t) && OneProbe(r, t)
  {
  }

  lemma PostedHealthy(l: Lane, s: Story)
    requires Healthy(l, s) && l.posting.Some?
    ensures Healthy(l.(posting := None), Tell(l, s, FlushOk))
  {
    hide Of;
    hide Keep;
    hide ClassOf;
    hide FlippedSince;
    hide Spaced;
    hide OneProbe;
    hide Numbered;
    var r, t := l.(posting := None), Tell(l, s, FlushOk);
    assert Spaced(r, t) && OneProbe(r, t) by { SameSlots(l, s, r, t); }
    forall sid: Sid ensures At(t.delivered, sid) == At(s.delivered, sid) + At(l.Posting(), sid)
    {
      assert sid in t.delivered <==> sid in s.delivered || sid in l.Posting();
    }
    forall sid: Sid ensures Whole(r, t, sid) == Whole(l, s, sid) && Waiting(r, sid) <= Waiting(l, sid)
    {
      assert At(t.delivered, sid) + [] + At(l.buffer, sid) == Whole(l, s, sid);
    }
  }

  lemma FailRest(l: Lane, sid: Sid)
    ensures var r := Failed(l);
            && r.slots == l.slots && r.entries == l.entries && r.probes == l.probes && r.flushNow == l.flushNow
            && At(r.Posting(), sid) == [] && At(r.buffer, sid) == Newest(Restored(l, sid))
  {
  }

  lemma SplitNewest(samples: seq<Sample>)
    ensures samples == Oldest(samples) + Newest(samples)
    ensures Oldest(samples) == [] <==> |samples| <= NEWEST
  {
  }

  lemma TrimmedMeans(l: Lane, n: nat)
    ensures n in Trimmed(l) <==>
              exists sid, x :: sid in l.Posting().Keys + l.buffer.Keys && x in Oldest(Restored(l, sid)) && x.serial == n
  {
    hide Oldest;
    hide Restored;
  }

  lemma FailConserves(l: Lane, s: Story, sid: Sid)
    requires Recorded(l, s) && Conserved(l, s)
    ensures Whole(Failed(l), Tell(l, s, FlushFail), sid) == Keep(Of(s.history, sid), s.lost + Trimmed(l))
  {
    hide Of;
    hide Keep;
    hide Oldest;
    hide Newest;
    hide Failed;
    hide Trimmed;
    var all := Restored(l, sid);
    var x, y := Oldest(all), Newest(all);
    SplitNewest(all);
    FailRest(l, sid);
    assert x + y == At(l.Posting(), sid) + At(l.buffer, sid);
    assert At(s.delivered, sid) + x + y == At(s.delivered, sid) + (x + y) == Whole(l, s, sid);
    forall i | 0 <= i < |x| ensures x[i].serial in Trimmed(l) {
      assert sid in l.Posting().Keys + l.buffer.Keys || all == [];
      TrimmedMeans(l, x[i].serial);
    }
    forall n | n in Trimmed(l) && n < |s.history| && s.history[n].sid == sid ensures s.history[n] in x {
      TrimmedMeans(l, n);
      var other, z :| other in l.Posting().Keys + l.buffer.Keys && z in Oldest(Restored(l, other)) && z.serial == n;
      OldestIn(Restored(l, other), z);
      PartMembers(l, s, other, z);
    }
    Discard(s.history, sid, s.lost, Trimmed(l), At(s.delivered, sid), x, y);
    assert At(s.delivered, sid) + [] + y == At(s.delivered, sid) + y;
  }

  lemma OldestIn(samples: seq<Sample>, x: Sample)
    requires x in Oldest(samples)
    ensures x in samples
  {
  }

  lemma FailRecorded(l: Lane, s: Story)
    requires Recorded(l, s) && Conserved(l, s)
    ensures Recorded(Failed(l), Tell(l, s, FlushFail))
  {
    hide Trimmed;
    hide Conserved;
    hide Numbered;
    forall n | n in Trimmed(l) ensures n < l.probes {
      TrimmedMeans(l, n);
      var sid, z :| sid in l.Posting().Keys + l.buffer.Keys && z in Oldest(Restored(l, sid)) && z.serial == n;
      OldestIn(Restored(l, sid), z);
      PartMembers(l, s, sid, z);
    }
  }

  lemma FailHealthy(l: Lane, s: Story)
    requires Healthy(l, s) && l.posting.Some?
    ensures Healthy(Failed(l), Tell(l, s, FlushFail))
  {
    hide Of;
    hide Keep;
    hide ClassOf;
    hide FlippedSince;
    hide Spaced;
    hide OneProbe;
    hide Failed;
    hide Trimmed;
    hide Recorded;
    hide Newest;
    var r, t := Failed(l), Tell(l, s, FlushFail);
    assert r.slots == l.slots && r.entries == l.entries && r.probes == l.probes && r.flushNow == l.flushNow by {
      FailRest(l, "");
    }
    assert Spaced(r, t) && OneProbe(r, t) by { SameSlots(l, s, r, t); }
    FailRecorded(l, s);
    forall sid: Sid
      ensures Whole(r, t, sid) == Keep(Of(t.history, sid), t.lost) && Waiting(r, sid) <= NEWEST
      ensures At(r.Posting(), sid) == []
    {
      FailConserves(l, s, sid);
      FailRest(l, sid);
    }
  }

  // ---- Refresh ----

  /** What meeting the checks of an answer leaves alone. */
  ghost predicate Extends(l: Lane, r: Lane) {
    && r.buffer == l.buffer && r.posting == l.posting && r.probes == l.probes && r.flushNow == l.flushNow
    && |l.slots| <= |r.slots|
    && (forall h {:trigger r.slots[h]} :: 0 <= h < |l.slots| ==>
          r.slots[h] == l.slots[h].(interval := r.slots[h].interval))
    && (forall h {:trigger r.slots[h]} :: |l.slots| <= h < |r.slots| ==>
          !r.slots[h].running && r.slots[h].lastClass == None)
    && (forall sid | sid in l.entries :: sid in r.entries && r.entries[sid] == l.entries[sid])
  }

  lemma MeetOneExtends(l: Lane, c: Check, now: int)
    requires Wired(l)
    ensures Wired(MeetOne(l, c, now)) && Extends(l, MeetOne(l, c, now))
    ensures c.sid != "" ==> c.sid in MeetOne(l, c, now).entries
  {
  }

  lemma {:induction false} MetExtends(l: Lane, checks: seq<Check>, now: int)
    requires Wired(l)
    ensures Wired(Met(l, checks, now)) && Extends(l, Met(l, checks, now))
    ensures forall sid | sid in SidsOf(checks) :: sid in Met(l, checks, now).entries
  {
    if checks != [] {
      var front, last := checks[..|checks| - 1], checks[|checks| - 1];
      MetExtends(l, front, now);
      MeetOneExtends(Met(l, front, now), last, now);
      ExtendsOn(l, Met(l, front, now), Met(l, checks, now));
      assert checks == front + [last];
      assert forall sid | sid in SidsOf(checks) :: sid in SidsOf(front) || sid == last.sid;
    }
  }

  lemma ExtendsOn(a: Lane, b: Lane, c: Lane)
    requires Extends(a, b) && Extends(b, c)
    ensures Extends(a, c)
  {
    assert forall h {:trigger c.slots[h]} :: 0 <= h < |b.slots| ==>
             c.slots[h] == b.slots[h].(interval := c.slots[h].interval);
  }

  lemma MetHealthy(l: Lane, s: Story, m: Lane)
    requires Healthy(l, s) && Extends(l, m) && Wired(m)
    ensures Healthy(m, s)
  {
    hide Of;
    hide Keep;
    hide FlippedSince;
    hide Apart;
    hide Numbered;
    assert m.Posting() == l.Posting();
    forall sid: Sid ensures Whole(m, s, sid) == Whole(l, s, sid) && Waiting(m, sid) == Waiting(l, sid) {
    }
    forall h: nat {:trigger m.slots[h]} | h < |m.slots|
      ensures m.slots[h].lastClass == ClassOf(s.history, h)
      ensures InFlight(s.flying, h) == if m.slots[h].running then 1 else 0
    {
      if h >= |l.slots| {
        NoClass(s.history, h);
      } else {
        assert l.slots[h] == l.slots[h];
      }
    }
  }

  lemma {:induction false} NoClass(history: seq<Sample>, h: nat)
    requires forall i :: 0 <= i < |history| ==> history[i].handle != h
    ensures ClassOf(history, h) == None
  {
    if history != [] {
      NoClass(history[..|history| - 1], h);
    }
  }

  lemma RemovedMeans(l: Lane, keep: set<Sid>, n: nat)
    ensures n in Removed(l, keep) <==>
              exists sid, x ::
                sid in l.buffer && sid in l.entries && sid !in keep && x in l.buffer[sid] && x.serial == n
  {
  }

  lemma DropConserves(l: Lane, s: Story, keep: set<Sid>, sid: Sid)
    requires Recorded(l, s) && Conserved(l, s) && l.posting.None?
    ensures Whole(Dropped(l, keep), s, sid) == Keep(Of(s.history, sid), s.lost + Removed(l, keep))
  {
    hide Of;
    hide Keep;
    hide Removed;
    var gone := Removed(l, keep);
    var a, b := At(s.delivered, sid), At(l.buffer, sid);
    assert Whole(l, s, sid) == a + b;
    var dropped := sid in l.buffer && sid in l.entries && sid !in keep;
    var x, y := if dropped then b else [], if dropped then [] else b;
    assert a + x + y == Whole(l, s, sid) && a + y == Whole(Dropped(l, keep), s, sid);
    forall i | 0 <= i < |x| ensures x[i].serial in gone {
      RemovedMeans(l, keep, x[i].serial);
    }
    forall n | n in gone && n < |s.history| && s.history[n].sid == sid ensures s.history[n] in x {
      RemovedMeans(l, keep, n);
      var other, z :|
        other in l.buffer && other in l.entries && other !in keep && z in l.buffer[other] && z.serial == n;
      PartMembers(l, s, other, z);
    }
    Discard(s.history, sid, s.lost, gone, a, x, y);
  }

  lemma DropHealthy(l: Lane, s: Story, keep: set<Sid>)
    requires Healthy(l, s) && l.posting.None?
    ensures Healthy(Dropped(l, keep), s.(lost := s.lost + Removed(l, keep)))
  {
    hide Of;
    hide Keep;
    hide ClassOf;
    hide FlippedSince;
    hide Spaced;
    hide OneProbe;
    hide Removed;
    hide Numbered;
    var r, t := Dropped(l, keep), s.(lost := s.lost + Removed(l, keep));
    assert Spaced(r, t) && OneProbe(r, t) by { SameSlots(l, s, r, t); }
    assert r.Posting() == l.Posting();
    forall n | n in Removed(l, keep) ensures n < l.probes {
      RemovedMeans(l, keep, n);
      var sid, z :| sid in l.buffer && sid in l.entries && sid !in keep && z in l.buffer[sid] && z.serial == n;
      PartMembers(l, s, sid, z);
    }
    forall sid: Sid
      ensures Whole(r, t, sid) == Keep(Of(t.history, sid), t.lost) && Waiting(r, sid) <= Waiting(l, sid)
    {
      DropConserves(l, s, keep, sid);
      assert At(r.buffer, sid) == At(l.buffer, sid) || At(r.buffer, sid) == [];
    }
  }

  lemma RefreshHealthy(l: Lane, s: Story, checks: seq<Check>, now: int)
    requires Healthy(l, s) && l.posting.None?
    ensures Healthy(Refreshed(l, checks, now), Tell(l, s, Refresh(checks, now)))
  {
    hide Healthy;
    assert Wired(l) by { HealthyIsWired(l, s); }
    MetExtends(l, checks, now);
    MetHealthy(l, s, Met(l, checks, now));
    DropHealthy(Met(l, checks, now), s, SidsOf(checks));
  }

  lemma HealthyIsWired(l: Lane, s: Story)
    requires Healthy(l, s)
    ensures Wired(l)
  {
  }

  // ---- Every run ----

  lemma StepHealthy(l: Lane, s: Story, e: Event)
    requires Healthy(l, s) && Enabled(l, s, e)
    ensures Healthy(Step(l, e), Tell(l, s, e))
  {
    hide Healthy;
    hide Tell;
    match e
    case Tick(now) => TickHealthy(l, s, now);
    case ProbeEnd(h, status) => EndHealthy(l, s, h, status);
    case FlushBegin => SwapHealthy(l, s);
    case FlushOk => PostedHealthy(l, s);
    case FlushFail => FailHealthy(l, s);
    case Refresh(checks, now) => RefreshHealthy(l, s, checks, now);
  }

  /** A runner that was just made. */
  ghost predicate Idle(l: Lane, s: Story) {
    && l.slots == [] && l.entries == map[] && l.buffer == map[] && l.posting == None && !l.flushNow && l.probes == 0
    && s.history == [] && s.delivered == map[] && s.lost == {} && s.flying == [] && s.starts == []
    && s.swappedAt == 0 && s.failedAt == 0
  }

  lemma IdleHealthy(l: Lane, s: Story)
    requires Idle(l, s)
    ensures Healthy(l, s)
  {
    hide ClassOf;
    hide Flips;
  }

  /** Whatever ticks, ends of probes, flushes and refreshes come in what order, all invariants
      hold. */
  lemma {:induction false} RunsHealthy(l: Lane, s: Story, run: seq<Event>, l': Lane, s': Story)
    requires Healthy(l, s) && Runs(l, s, run, l', s')
    ensures Healthy(l', s')
    decreases |run|
  {
    hide Healthy;
    hide Step;
    hide Tell;
    if run != [] {
      StepHealthy(l, s, run[0]);
      RunsHealthy(Step(l, run[0]), Tell(l, s, run[0]), run[1..], l', s');
    }
  }
}
