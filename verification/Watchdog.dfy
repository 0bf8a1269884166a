/** Stall detection: per queue, how often in a row a sample showed the same backlog and the same sequence number. */
module Watchdog {
  import opened Numbers

  datatype Entry = Entry(queue: nat, len: nat, sequence: nat)
  datatype Track = Track(len: nat, sequence: nat, n: nat)

  type Tracks = map<nat, Track>
  type Sample = seq<Entry>

  predicate Present(s: Sample, q: nat) { exists e | e in s :: e.queue == q }

  predicate DistinctQueues(s: Sample) { forall i, j | 0 <= i < j < |s| :: s[i].queue != s[j].queue }

  function Capped(n: nat): nat { if n < U8_MAX then n else U8_MAX }

  // ------------------------------------------------------------- the sampler

  function Count(tracks: Tracks, e: Entry): nat {
    if e.queue in tracks && e.len > 0 && tracks[e.queue].len == e.len && tracks[e.queue].sequence == e.sequence then
      Capped(tracks[e.queue].n + 1)
    else 0
  }

  function Noted(tracks: Tracks, e: Entry): Tracks { tracks[e.queue := Track(e.len, e.sequence, Count(tracks, e))] }

  /** The entries one after another, with the highest count so far. */
  function Walk(tracks: Tracks, s: Sample): (Tracks, nat) {
    if s == [] then (tracks, 0)
    else
      var (before, worst) := Walk(tracks, s[..|s| - 1]);
      var e := s[|s| - 1];
      (Noted(before, e), Max(worst, Count(before, e)))
  }

  function Retained(tracks: Tracks, s: Sample): Tracks { map q | q in tracks && Present(s, q) :: tracks[q] }

  method StallSample(previous: Tracks, s: Sample) returns (tracks: Tracks, worst: nat)
    ensures (tracks, worst) == Walk(Retained(previous, s), s)
  {
    tracks := map q | q in previous && Present(s, q) :: previous[q];
    worst := 0;
    for i := 0 to |s|
      invariant (tracks, worst) == Walk(Retained(previous, s), s[..i])
    {
      assert s[..i + 1][..i] == s[..i];
      var e := s[i];
      var n := 0;
      if e.queue in tracks && e.len > 0 && e.len == tracks[e.queue].len && e.sequence == tracks[e.queue].sequence {
        n := Capped(tracks[e.queue].n + 1);
      }
      tracks := tracks[e.queue := Track(e.len, e.sequence, n)];
      worst := Max(worst, n);
    }
    assert s[..|s|] == s;
  }

  /** Every entry is counted against what the previous samples left; other queues keep their track. */
  ghost predicate Counted(tracks: Tracks, s: Sample, after: Tracks, worst: nat) {
    && (forall e | e in s ::
          e.queue in after && after[e.queue] == Track(e.len, e.sequence, Count(tracks, e)) && Count(tracks, e) <= worst)
    && (forall q | !Present(s, q) :: (q in after <==> q in tracks) && (q in tracks ==> after[q] == tracks[q]))
    && (worst > 0 ==> exists e :: e in s && Count(tracks, e) == worst)
  }

  lemma {:induction false} WalkDistinct(tracks: Tracks, s: Sample)
    requires DistinctQueues(s)
    ensures Counted(tracks, s, Walk(tracks, s).0, Walk(tracks, s).1)
  {
    if s != [] {
      var rest, e := s[..|s| - 1], s[|s| - 1];
      WalkDistinct(tracks, rest);
      assert s == rest + [e];
      LastIsNew(s);
      var (before, worst) := Walk(tracks, rest);
      hide Walk;
      CountedOneMore(tracks, rest, e, before, worst);
    }
  }

  lemma LastIsNew(s: Sample)
    requires DistinctQueues(s) && s != []
    ensures !Present(s[..|s| - 1], s[|s| - 1].queue)
  {
    var rest := s[..|s| - 1];
    forall d | d in rest
      ensures d.queue != s[|s| - 1].queue
    {
      var i :| 0 <= i < |rest| && rest[i] == d;
      assert s[i] == d;
    }
  }

  lemma CountedOneMore(tracks: Tracks, rest: Sample, e: Entry, before: Tracks, worst: nat)
    requires Counted(tracks, rest, before, worst) && !Present(rest, e.queue)
    ensures Counted(tracks, rest + [e], Noted(before, e), Max(worst, Count(before, e)))
  {
    var s := rest + [e];
    assert forall d :: d in s <==> d in rest || d == e;
    assert Count(before, e) == Count(tracks, e);
    hide Count;
    forall q | !Present(s, q)
      ensures !Present(rest, q) && q != e.queue
    {
      assert e in s;
    }
  }

  // -------------------------------------------------------------- the history

  /** What is remembered after a list of samples, counted from the last clear. */
  function After(h: seq<Sample>): Tracks {
    if h == [] then map[] else Walk(Retained(After(h[..|h| - 1]), h[|h| - 1]), h[|h| - 1]).0
  }

  function Verdict(h: seq<Sample>): nat
    requires h != []
  {
    Walk(Retained(After(h[..|h| - 1]), h[|h| - 1]), h[|h| - 1]).1
  }

  lemma NextSample(h: seq<Sample>, s: Sample)
    requires AllDistinct(h) && DistinctQueues(s)
    ensures AllDistinct(h + [s]) && (After(h + [s]), Verdict(h + [s])) == Walk(Retained(After(h), s), s)
  {
    assert (h + [s])[..|h|] == h;
  }

  predicate Stood(s: Sample, q: nat, len: nat, sequence: nat) { Entry(q, len, sequence) in s }

  /** In each of the last limit + 1 samples the queue had the same positive length and the same sequence number. */
  ghost predicate Stuck(h: seq<Sample>, q: nat, limit: nat) {
    exists len, sequence :: len > 0 && StoodFor(h, q, len, sequence, limit)
  }

  ghost predicate StoodFor(h: seq<Sample>, q: nat, len: nat, sequence: nat, limit: nat) {
    |h| > limit && forall k | |h| - 1 - limit <= k < |h| :: Stood(h[k], q, len, sequence)
  }

  predicate AllDistinct(h: seq<Sample>) { forall k | 0 <= k < |h| :: DistinctQueues(h[k]) }

  /** The entry of one queue, as the recursion over the history sees it: how long it has not moved. */
  function Streak(h: seq<Sample>, e: Entry): nat
    decreases |h|
  {
    if |h| >= 2 && e.len > 0 && e in h[|h| - 2] then Streak(h[..|h| - 1], e) + 1 else 0
  }

  lemma {:induction false} TracksFollowStreaks(h: seq<Sample>)
    requires AllDistinct(h) && h != []
    ensures forall q :: q in After(h) <==> Present(h[|h| - 1], q)
    ensures forall e | e in h[|h| - 1] ::
      e.queue in After(h) && After(h)[e.queue] == Track(e.len, e.sequence, Capped(Streak(h, e)))
    ensures forall e | e in h[|h| - 1] :: Streak(h, e) > 0 ==> Verdict(h) >= Capped(Streak(h, e))
    ensures Verdict(h) > 0 ==> exists e :: e in h[|h| - 1] && Verdict(h) == Capped(Streak(h, e))
    decreases |h|
  {
    var before, s := h[..|h| - 1], h[|h| - 1];
    var kept := Retained(After(before), s);
    WalkDistinct(kept, s);
    if before != [] {
      TracksFollowStreaks(before);
      assert before[|before| - 1] == h[|h| - 2];
    }
    forall e | e in s
      ensures Count(kept, e) == Capped(Streak(h, e))
    {
      assert Present(s, e.queue);
      if before != [] {
        CountIsStreak(h, kept, e);
      }
    }
    assert forall e | e in s :: Present(s, e.queue);
  }

  lemma CountIsStreak(h: seq<Sample>, kept: Tracks, e: Entry)
    requires AllDistinct(h) && |h| >= 2 && e in h[|h| - 1]
    requires var before := h[..|h| - 1]; var last := h[|h| - 2];
      && (forall q :: q in After(before) <==> Present(last, q))
      && (forall d | d in last ::
            d.queue in After(before) && After(before)[d.queue] == Track(d.len, d.sequence, Capped(Streak(before, d))))
      && kept == Retained(After(before), h[|h| - 1])
    ensures Count(kept, e) == Capped(Streak(h, e))
  {
    var last := h[|h| - 2];
    assert Present(h[|h| - 1], e.queue);
    if e.queue in kept {
      var d :| d in last && d.queue == e.queue;
      assert kept[e.queue] == After(h[..|h| - 1])[d.queue];
      if e in last {
        SameEntry(last, d, e);
      }
    } else {
      assert e !in last;
    }
  }

  lemma SameEntry(s: Sample, d: Entry, e: Entry)
    requires DistinctQueues(s) && d in s && e in s && d.queue == e.queue
    ensures d == e
  {
  }

  lemma {:induction false} StreakMeansStuck(h: seq<Sample>, e: Entry, limit: nat)
    requires h != [] && e in h[|h| - 1] && e.len > 0
    ensures Streak(h, e) >= limit <==> StoodFor(h, e.queue, e.len, e.sequence, limit)
    decreases limit
  {
    if limit > 0 && |h| >= 2 {
      var before := h[..|h| - 1];
      if e in h[|h| - 2] {
        StreakMeansStuck(before, e, limit - 1);
        assert forall k | 0 <= k < |before| :: before[k] == h[k];
      } else {
        assert |h| > limit ==> !Stood(h[|h| - 2], e.queue, e.len, e.sequence);
      }
    }
  }

  /** The watchdog fires at a limit exactly when one queue has stood still for that many samples after its first. */
  lemma StallMeansStuck(h: seq<Sample>, limit: nat)
    requires h != [] && AllDistinct(h) && 1 <= limit <= U8_MAX
    ensures Verdict(h) >= limit <==> exists q :: Stuck(h, q, limit)
  {
    TracksFollowStreaks(h);
    var s := h[|h| - 1];
    if Verdict(h) >= limit {
      var e :| e in s && Verdict(h) == Capped(Streak(h, e));
      StreakMeansStuck(h, e, limit);
      assert Stuck(h, e.queue, limit);
    }
    if q :| Stuck(h, q, limit) {
      var len, sequence :| len > 0 && StoodFor(h, q, len, sequence, limit);
      var e := Entry(q, len, sequence);
      assert Stood(s, q, len, sequence);
      StreakMeansStuck(h, e, limit);
    }
  }
}
