/**
 What the supervisor promises over whole runs, told by packets, chain names, samples and events alone:
 where packets go after an iteration, what a cleanup has removed, and what the watchdog has seen.
 */
module Promises {
  import opened Wrappers
  import opened Iptables
  import opened Net
  import opened Payloads
  import opened Coverage
  import opened Firewall
  import opened Recovery
  import opened Ticks
  import Watchdog

  // ------------------------------------------------------------------- packets

  /** Both families as the configuration wants them for these links, with a worker behind each queue in use. */
  ghost predicate Serving(rig: Rig, s: Snap) {
    && Sends4(s.fw.t4, s.links, rig.kernel, s.health.workers, rig.ttl)
    && (rig.mode == Normalize || rig.mode == Block ==>
          s.fw.t6.Some? && Sends6(s.fw.t6.value, s.links, rig.mode, rig.hl))
    && (!rig.kernel ==> forall q: nat :: 6464 <= q < 6464 + s.health.workers <==> q in s.running)
  }

  ghost predicate QuietTables(a: Tables) { Quiet(a.t4) && (a.t6.Some? ==> Quiet(a.t6.value)) }

  lemma InOrderServes(rig: Rig, s: Snap)
    requires Inv(rig, s) && InOrder(rig, s) && QuietTables(s.fw)
    ensures Serving(rig, s)
  {
    hide Quiet, Orderly, Watchdog.AllDistinct, Classified, Sends4, Sends6, Serves;
    RulesSend4(s.fw.t4, s.active4, s.links, rig.kernel, s.health.workers, rig.ttl);
    if rig.mode == Normalize || rig.mode == Block {
      RulesSend6(s.fw.t6.value, s.active6, s.links, rig.mode, rig.hl);
    }
    if !rig.kernel {
      WorkersAreThere(s);
    }
  }

  lemma WorkersAreThere(s: Snap)
    requires s.running == Queues(s.health.workers)
    ensures forall q: nat :: 6464 <= q < 6464 + s.health.workers <==> q in s.running
  {
    forall q: nat | 6464 <= q < 6464 + s.health.workers
      ensures q in s.running
    {
      assert s.running[q - 6464] == q;
    }
  }

  /** An iteration that has installed or checked the rules, with true reads, leaves packets going where they should. */
  lemma TurnServes(rig: Rig, t: Turn)
    requires Inv(rig, t.found) && Sensible(t.input) && Ticked(rig, t.found, t.left, t.input, t.act)
    requires TrueReads(t.found.fw, t.left.fw) && QuietTables(t.left.fw)
    requires t.act == Renewed || (t.act == Kept && t.left.links.Active() && (t.found.changed || t.input.checkDue))
    ensures Serving(rig, t.left)
  {
    TickKeepsInv(rig, t.found, t.left, t.input, t.act);
    TickOutcome(rig, t.found, t.left, t.input, t.act);
    hide Ticked, Inv, Astray, InOrder, QuietTables;
    InOrderServes(rig, t.left);
  }

  /** No jump to a chain of this program, or of its earlier versions, stands in FORWARD. */
  predicate Jumpless(a: Tables) {
    && (forall c | c in {Hook, V30h, V30a, V30b, V29a, V29b, OldForward} :: JumpCount(a.t4, c) == 0)
    && (a.t6.Some? ==> forall c | c in {Hook, V30h, V30a, V30b} :: JumpCount(a.t6.value, c) == 0)
  }

  lemma CleanIsJumpless(a: Tables)
    requires Clean(a)
    ensures Jumpless(a)
  {
    Listed4();
    Listed6();
    forall c | c in {Hook, V30h, V30a, V30b, V29a, V29b, OldForward}
      ensures JumpCount(a.t4, c) == 0
    {
      var i :| 0 <= i < |JUMPS4| && JUMPS4[i] == c;
      assert Plain(JUMPS4[i]) !in multiset(a.t4[Forward]);
    }
    if a.t6.Some? {
      forall c | c in {Hook, V30h, V30a, V30b}
        ensures JumpCount(a.t6.value, c) == 0
      {
        var i :| 0 <= i < |JUMPS6| && JUMPS6[i] == c;
        assert Plain(JUMPS6[i]) !in multiset(a.t6.value[Forward]);
      }
    }
  }

  /** A run that ends with true, and an idle cleanup that returned true, have left no such jump, if reads were true. */
  lemma EndIsJumpless(x: Snap, y: Snap)
    requires Ended(x, y, true) && TrueReads(x.fw, y.fw)
    ensures Jumpless(y.fw) && y.running == []
  {
    CleanIsJumpless(y.fw);
  }

  lemma IdleIsJumpless(rig: Rig, x: Snap, y: Snap, i: Input)
    requires Ticked(rig, x, y, i, Idled(Some(true))) && TrueReads(x.fw, y.fw)
    ensures Jumpless(y.fw) && y.running == []
  {
    TickOutcome(rig, x, y, i, Idled(Some(true)));
    CleanIsJumpless(y.fw);
  }

  // -------------------------------------------------------------- the watchdog

  /** The samples taken since the links were last settled, read off the turns alone. */
  function Samples(turns: seq<Turn>): seq<Watchdog.Sample> {
    if turns == [] then []
    else
      var t := turns[|turns| - 1];
      (if t.act == Kept then Samples(turns[..|turns| - 1]) else [])
      + (if t.left.active4.Some? && t.input.watch.Some? then [t.input.watch.value] else [])
  }

  /** What an iteration without a fallback has sampled, and what it has seen. */
  lemma TickSamples(rig: Rig, x: Snap, y: Snap, i: Input, act: Action)
    requires Ticked(rig, x, y, i, act) && !rig.kernel && act != Recovering
    ensures act == Kept ==> !x.first
    ensures var s := if y.active4.Some? && i.watch.Some? then [i.watch.value] else [];
      && y.history == (if act == Kept then x.history else []) + s
      && (s != [] ==> |y.log| > |x.log| && y.log[|y.log| - 1] == Checked(true) && |i.watch.value| == y.health.workers)
      && (s != [] ==> !exists q :: Watchdog.Stuck(y.history, q, rig.stallLimit))
  {
    hide Watchdog.Stuck, InOrder, Fitted, RecoveredTo;
    var m, fit :| Fitted(rig, x, m, i, fit) && Finished(rig, m, y, i, fit, act);
    FitSettles(rig, x, m, i, fit);
  }

  lemma FitSettles(rig: Rig, x: Snap, m: Snap, i: Input, fit: Action)
    requires Fitted(rig, x, m, i, fit) && fit != Recovering
    ensures fit == Kept ==> !x.first && m.history == x.history
    ensures fit != Kept ==> m.history == []
    ensures x.log <= m.log
  {
    hide InOrder;
    if fit != Kept {
      var l :| Looked(rig, x, l, i, false) && RenewedTo(rig, l.(first := false), m, fit);
    }
  }

  lemma FallbackRestarts(rig: Rig, x: Snap, y: Snap, i: Input)
    requires Ticked(rig, x, y, i, Recovering)
    ensures y.first
  {
    TickOutcome(rig, x, y, i, Recovering);
  }

  /** What the watchdog remembers are exactly the samples of the inputs since the links were last settled. */
  lemma {:induction false} HistorySamples(rig: Rig, start: Snap, turns: seq<Turn>)
    requires History(rig, start, turns) && start.first && !rig.kernel
    ensures var end := Final(start, turns); end.first || end.history == Samples(turns)
    decreases |turns|
  {
    if turns != [] {
      hide Ticked;
      var before, t := turns[..|turns| - 1], turns[|turns| - 1];
      HistorySamples(rig, start, before);
      if t.act == Recovering {
        FallbackRestarts(rig, t.found, t.left, t.input);
      } else {
        TickSamples(rig, t.found, t.left, t.input, t.act);
      }
    }
  }

  /**
   Whenever rules send packets to queues and a sample is due, an iteration that does not fall back has found the
   workers healthy, a row for each of them, and no queue that has stood still for the limit since the links settled.
   */
  lemma HistoryIsWatched(rig: Rig, start: Snap, turns: seq<Turn>)
    requires History(rig, start, turns) && start.first && !rig.kernel && turns != []
    requires var t := turns[|turns| - 1]; t.act != Recovering && t.left.active4.Some? && t.input.watch.Some?
    ensures var t := turns[|turns| - 1];
      && |t.left.log| > |t.found.log| && t.left.log[|t.left.log| - 1] == Checked(true)
      && |t.input.watch.value| == t.left.health.workers
      && !exists q :: Watchdog.Stuck(Samples(turns), q, rig.stallLimit)
  {
    var before, t := turns[..|turns| - 1], turns[|turns| - 1];
    HistorySamples(rig, start, before);
    TickSamples(rig, t.found, t.left, t.input, t.act);
    hide Ticked, Watchdog.Stuck;
    assert t.left.history == Samples(turns);
  }

  /** What was sampled before a fallback that came after a good health check. */
  lemma FallbackSampled(rig: Rig, x: Snap, y: Snap, i: Input)
    requires Ticked(rig, x, y, i, Recovering) && FellBack(x.log, y.log, Checked(true))
    requires i.watch.Some? ==> |i.watch.value| == x.health.workers
    ensures i.watch.Some? && (y.history == [i.watch.value] || (!x.first && y.history == x.history + [i.watch.value]))
  {
    hide Watchdog.Stuck, InOrder, Recovered;
    var m, fit :| Fitted(rig, x, m, i, fit) && Finished(rig, m, y, i, fit, Recovering);
    if fit == Recovering {
      FitFellBack(rig, x, y, i);
      assert false;
    } else {
      FitSettles(rig, x, m, i, fit);
      FitHealth(rig, x, m, i, fit);
      hide Fitted;
    }
  }

  lemma FitHealth(rig: Rig, x: Snap, m: Snap, i: Input, fit: Action)
    requires Fitted(rig, x, m, i, fit) && fit != Recovering
    ensures m.health == x.health
  {
    hide InOrder;
    if fit != Kept {
      var l :| Looked(rig, x, l, i, false) && RenewedTo(rig, l.(first := false), m, fit);
    }
  }

  lemma FitFellBack(rig: Rig, x: Snap, y: Snap, i: Input)
    requires Fitted(rig, x, y, i, Recovering)
    ensures !FellBack(x.log, y.log, Checked(true))
  {
    hide InOrder, Recovered, Smooth;
    var l :| Looked(rig, x, l, i, false) && RenewedTo(rig, l.(first := false), y, Recovering);
    var b :| Brought(rig, l.(first := false), b, false) && RecoveredTo(rig, b, y);
  }

  /**
   The watchdog never cries wolf: a fallback after a good health check means a sample without a row for each worker,
   or a queue that has stood still for the limit, in samples taken since the links settled.
   */
  lemma FallbackIsDue(rig: Rig, start: Snap, turns: seq<Turn>)
    requires History(rig, start, turns) && start.first && !rig.kernel && rig.stallLimit >= 1 && turns != []
    requires var t := turns[|turns| - 1]; t.act == Recovering && FellBack(t.found.log, t.left.log, Checked(true))
    ensures var t := turns[|turns| - 1];
      && t.input.watch.Some?
      && (|t.input.watch.value| != t.found.health.workers
          || var seen := Samples(turns[..|turns| - 1]) + [t.input.watch.value];
             exists q :: Watchdog.Stuck(seen, q, rig.stallLimit))
  {
    var before, t := turns[..|turns| - 1], turns[|turns| - 1];
    HistorySamples(rig, start, before);
    TickOutcome(rig, t.found, t.left, t.input, Recovering);
    if !(t.input.watch.Some? && |t.input.watch.value| != t.found.health.workers) {
      FallbackSampled(rig, t.found, t.left, t.input);
      hide Ticked, Recovered, Smooth;
      var q :| Watchdog.Stuck(t.left.history, q, rig.stallLimit);
      OneSampleIsNotStuck(t.input.watch.value, q, rig.stallLimit);
      assert t.left.history == Samples(before) + [t.input.watch.value];
    }
  }

  lemma OneSampleIsNotStuck(s: Watchdog.Sample, q: nat, limit: nat)
    requires limit >= 1
    ensures !Watchdog.Stuck([s], q, limit)
  {
  }
}
