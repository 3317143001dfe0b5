/** What every run of the fast lane keeps. */
module FastLaneProofs {
  import opened Text
  import opened FastLane

  // ---- Samples of one check, without the discarded ones ----

  function Of(history: seq<Sample>, sid: Sid): seq<Sample> {
    if history == [] then []
    else
      var front, last := history[..|history| - 1], history[|history| - 1];
      Of(front, sid) + (if last.sid == sid then [last] else [])
  }

  function Keep(samples: seq<Sample>, lost: set<nat>): seq<Sample> {
    if samples == [] then []
    else
      var front, last := samples[..|samples| - 1], samples[|samples| - 1];
      Keep(front, lost) + (if last.serial in lost then [] else [last])
  }

  lemma {:induction false} KeepMore(samples: seq<Sample>, lost: set<nat>, more: set<nat>)
    ensures Keep(samples, lost + more) == Keep(Keep(samples, lost), more)
  {
    if samples != [] {
      var front, last := samples[..|samples| - 1], samples[|samples| - 1];
      KeepMore(front, lost, more);
      var kept := Keep(samples, lost);
      if last.serial in lost {
        assert kept == Keep(front, lost);
      } else {
        assert kept[..|kept| - 1] == Keep(front, lost);
      }
    }
  }

  lemma {:induction false} KeepAppend(a: seq<Sample>, b: seq<Sample>, lost: set<nat>)
    ensures Keep(a + b, lost) == Keep(a, lost) + Keep(b, lost)
  {
    if b == [] {
      assert a + b == a;
    } else {
      var front := b[..|b| - 1];
      assert (a + b)[..|a + b| - 1] == a + front;
      KeepAppend(a, front, lost);
    }
  }

  lemma {:induction false} KeepNone(samples: seq<Sample>, lost: set<nat>)
    requires forall i :: 0 <= i < |samples| ==> samples[i].serial in lost
    ensures Keep(samples, lost) == []
  {
    if samples != [] {
      KeepNone(samples[..|samples| - 1], lost);
    }
  }

  lemma {:induction false} KeepAll(samples: seq<Sample>, lost: set<nat>)
    requires forall i :: 0 <= i < |samples| ==> samples[i].serial !in lost
    ensures Keep(samples, lost) == samples
  {
    if samples != [] {
      KeepAll(samples[..|samples| - 1], lost);
    }
  }

  ghost predicate Numbered(history: seq<Sample>) {
    forall i :: 0 <= i < |history| ==> history[i].serial == i
  }

  ghost predicate Rising(samples: seq<Sample>) {
    forall i, j :: 0 <= i < j < |samples| ==> samples[i].serial < samples[j].serial
  }

  lemma {:induction false} OfMembers(history: seq<Sample>, sid: Sid)
    ensures forall x :: x in Of(history, sid) <==> x in history && x.sid == sid
  {
    if history != [] {
      var front, last := history[..|history| - 1], history[|history| - 1];
      OfMembers(front, sid);
      assert history == front + [last];
    }
  }

  lemma NumberedRising(history: seq<Sample>)
    requires Numbered(history)
    ensures Rising(history)
    ensures forall x | x in history :: x.serial < |history| && history[x.serial] == x
  {
  }

  lemma {:induction false} OfRising(history: seq<Sample>, sid: Sid)
    requires Rising(history)
    ensures Rising(Of(history, sid))
  {
    if history != [] {
      var front, last := history[..|history| - 1], history[|history| - 1];
      OfRising(front, sid);
      OfMembers(front, sid);
      forall i | 0 <= i < |Of(front, sid)| ensures Of(front, sid)[i].serial < last.serial {
        assert Of(front, sid)[i] in front;
      }
    }
  }

  lemma {:induction false} KeepMembers(samples: seq<Sample>, lost: set<nat>)
    requires Rising(samples)
    ensures Rising(Keep(samples, lost))
    ensures forall x :: x in Keep(samples, lost) <==> x in samples && x.serial !in lost
  {
    if samples != [] {
      var front, last := samples[..|samples| - 1], samples[|samples| - 1];
      assert samples == front + [last];
      KeepMembers(front, lost);
      forall i | 0 <= i < |Keep(front, lost)| ensures Keep(front, lost)[i].serial < last.serial {
        assert Keep(front, lost)[i] in front;
      }
    }
  }

  /** Samples in the middle are discarded: what is left are those around them. */
  lemma Discard(history: seq<Sample>, sid: Sid, lost: set<nat>, gone: set<nat>,
                a: seq<Sample>, x: seq<Sample>, y: seq<Sample>)
    requires Numbered(history) && a + x + y == Keep(Of(history, sid), lost)
    requires forall i :: 0 <= i < |x| ==> x[i].serial in gone
    requires forall n | n in gone && n < |history| && history[n].sid == sid :: history[n] in x
    ensures Keep(Of(history, sid), lost + gone) == a + y
  {
    hide Of;
    hide Keep;
    var all := a + x + y;
    NumberedRising(history);
    OfMembers(history, sid);
    OfRising(history, sid);
    KeepMembers(Of(history, sid), lost);
    KeepMore(Of(history, sid), lost, gone);
    KeepAppend(a + x, y, gone);
    KeepAppend(a, x, gone);
    KeepNone(x, gone);
    forall i | 0 <= i < |a| ensures a[i].serial !in gone {
      StaysOutside(history, sid, a, x, y, gone, i);
    }
    forall i | 0 <= i < |y| ensures y[i].serial !in gone {
      StaysOutside(history, sid, a, x, y, gone, |a| + |x| + i);
    }
    KeepAll(a, gone);
    KeepAll(y, gone);
    assert Keep(all, gone) == a + [] + y;
  }

  lemma StaysOutside(history: seq<Sample>, sid: Sid, a: seq<Sample>, x: seq<Sample>, y: seq<Sample>,
                     gone: set<nat>, i: nat)
    requires Rising(a + x + y)
    requires forall z | z in a + x + y :: z.sid == sid && z.serial < |history| && history[z.serial] == z
    requires forall n | n in gone && n < |history| && history[n].sid == sid :: history[n] in x
    requires i < |a + x + y| && !(|a| <= i < |a| + |x|)
    ensures (a + x + y)[i].serial !in gone
  {
    var all := a + x + y;
    assert all[i] in all;
    forall j | 0 <= j < |x| ensures x[j] != all[i] {
      assert all[|a| + j] == x[j];
    }
  }

  // ---- The invariants ----

  /** Entries name their own slots. */
  ghost predicate Wired(l: Lane) {
    && (forall sid | sid in l.entries :: l.entries[sid] < |l.slots| && l.slots[l.entries[sid]].sid == sid)
    && (forall h {:trigger l.slots[h]} :: 0 <= h < |l.slots| ==> l.slots[h].interval >= SHORTEST)
  }

  ghost predicate Recorded(l: Lane, s: Story) {
    && |s.history| == l.probes && Numbered(s.history)
    && (forall n | n in s.lost :: n < l.probes)
    && s.swappedAt <= |s.history| && s.failedAt <= |s.history|
    && (forall i {:trigger s.history[i]} :: 0 <= i < |s.history| ==>
          s.history[i].handle < |l.slots| && l.slots[s.history[i].handle].sid == s.history[i].sid)
  }

  /** Sample conservation: delivered, in flight and buffered samples of a check are, in this
      order, its completed probes without the discarded ones. */
  ghost predicate Conserved(l: Lane, s: Story) {
    forall sid: Sid :: Whole(l, s, sid) == Keep(Of(s.history, sid), s.lost)
  }

  function Whole(l: Lane, s: Story, sid: Sid): seq<Sample> {
    At(s.delivered, sid) + At(l.Posting(), sid) + At(l.buffer, sid)
  }

  /** An entry runs exactly when one probe of it is in flight, and never two are. */
  ghost predicate OneProbe(l: Lane, s: Story) {
    && |s.flying| <= |l.slots|
    && forall h: nat {:trigger l.slots[h]} :: h < |l.slots| ==>
         InFlight(s.flying, h) == if l.slots[h].running then 1 else 0
  }

  /** Starts of one entry are as far apart as the interval in force at the earlier. */
  ghost predicate Spaced(l: Lane, s: Story) {
    && Apart(s.starts)
    && (forall i {:trigger s.starts[i]} :: 0 <= i < |s.starts| ==>
          && s.starts[i].handle < |l.slots| && s.starts[i].interval >= SHORTEST
          && s.starts[i].at + s.starts[i].interval <= l.slots[s.starts[i].handle].due)
  }

  ghost predicate Apart(starts: seq<Start>) {
    forall i, j :: 0 <= i < j < |starts| && starts[i].handle == starts[j].handle ==>
      starts[i].at + starts[i].interval <= starts[j].at
  }

  /** An `up` or `degraded` answer: the target was reached. */
  predicate Up(status: string) {
    status == "up" || status == "degraded"
  }

  /** Whether the last probe of an entry reached its target. */
  function ClassOf(history: seq<Sample>, h: nat): Option<bool> {
    if history == [] then None
    else if history[|history| - 1].handle == h then Some(Up(history[|history| - 1].status))
    else ClassOf(history[..|history| - 1], h)
  }

  /** The sample differs in reachability from the one before it of the same entry. */
  predicate Flips(history: seq<Sample>, i: nat)
    requires i < |history|
  {
    var before := ClassOf(history[..i], history[i].handle);
    before.Some? && before.value != Up(history[i].status)
  }

  ghost predicate FlippedSince(history: seq<Sample>, from: nat) {
    exists i :: from <= i < |history| && Flips(history, i)
  }

  /** A flush is urgent exactly when reachability flipped since the buffer was last swapped. */
  ghost predicate Urgent(l: Lane, s: Story) {
    && (forall h: nat {:trigger l.slots[h]} :: h < |l.slots| ==> l.slots[h].lastClass == ClassOf(s.history, h))
    && (l.flushNow <==> FlippedSince(s.history, s.swappedAt))
  }

  /** What was handed over was completed before the last swap. */
  ghost predicate HandedOver(l: Lane, s: Story) {
    && (forall sid, x {:trigger x in At(s.delivered, sid)} :: x in At(s.delivered, sid) ==> x.serial < s.swappedAt)
    && (forall sid, x {:trigger x in At(l.Posting(), sid)} :: x in At(l.Posting(), sid) ==> x.serial < s.swappedAt)
  }

  /** No outage grows a buffer beyond NEWEST and what has completed since. */
  ghost predicate Bounded(l: Lane, s: Story) {
    forall sid: Sid {:trigger Waiting(l, sid)} ::
      s.failedAt <= |s.history| ==> Waiting(l, sid) <= NEWEST + |Of(s.history[s.failedAt..], sid)|
  }

  function Waiting(l: Lane, sid: Sid): nat {
    |At(l.Posting(), sid)| + |At(l.buffer, sid)|
  }
}
