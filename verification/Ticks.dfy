/**
 What one iteration of the supervisor may do, as a relation between what is the case before
 and after it, and what follows for whole histories of iterations.
 */
module Ticks {
  import opened Wrappers
  import opened Iptables
  import opened Net
  import opened Payloads
  import opened Coverage
  import opened Firewall
  import opened Recovery
  import Watchdog

  // -------------------------------------------------------------------- events

  /** What happens to the worker set and the rules, in order. */
  datatype Event = Checked(ok: bool) | Stopped | Started(ok: bool) | Installed(queued: bool) | Cleaned(ok: bool)

  function Queues(n: nat): seq<nat> { seq(n, i => QUEUE_BASE + i) }

  /**
   Rules that send packets to queues go in right after a good health check or start;
   workers are stopped only after a cleanup or a bad check.
   */
  predicate Orderly(log: seq<Event>) {
    && (forall k | 0 <= k < |log| && log[k] == Installed(true) ::
          k > 0 && (log[k - 1] == Checked(true) || log[k - 1] == Started(true)))
    && (forall k | 0 <= k < |log| && log[k] == Stopped ::
          k > 0 && (log[k - 1].Cleaned? || log[k - 1] == Checked(false)))
  }

  /** What bringing up leaves in the log: rules go in after a good check or start, or without queues. */
  predicate BroughtLog(was: seq<Event>, now: seq<Event>, kernel: bool) {
    if kernel then now == was + [Installed(false)]
    else
      || now == was + [Checked(true), Installed(true)]
      || now == was + [Checked(false), Stopped, Started(true), Installed(true)]
  }

  predicate FailedStart(was: seq<Event>, now: seq<Event>) { now == was + [Checked(false), Stopped, Started(false)] }

  /** A cleanup and the end of the workers, with nothing else. */
  predicate TakenDown(was: seq<Event>, now: seq<Event>) {
    |now| == |was| + 2 && was <= now && now[|was|].Cleaned? && now[|was| + 1] == Stopped
  }

  // ------------------------------------------------------------------- snapshots

  /** What is fixed for a whole run. */
  datatype Rig = Rig(kernel: bool, mode: V6Mode, ttl: nat, hl: nat, stallLimit: nat, maxFailures: nat)

  predicate KeepsV6(rig: Rig) { rig.mode == Normalize || rig.mode == Block }

  /** Both tables, how many commands were issued, how many reads failed, how many writes failed for nothing. */
  datatype Tables = Tables(t4: Table, t6: Option<Table>, issued: nat, misreads: nat, faults: nat)

  datatype Snap = Snap(fw: Tables, links: Links, served: Links, active4: Option<Chain>, active6: Option<Chain>,
                       first: bool, changed: bool, health: Health, running: seq<nat>,
                       log: seq<Event>, history: seq<Watchdog.Sample>)

  predicate TrueReads(a: Tables, b: Tables) { b.misreads == a.misreads }

  predicate Grown(a: Tables, b: Tables) { b.misreads >= a.misreads && b.faults >= a.faults && b.issued >= a.issued }

  predicate NoCommand(a: Tables, b: Tables) {
    b.t4 == a.t4 && b.t6 == a.t6 && b.issued == a.issued && b.faults == a.faults
  }

  predicate NoFault(a: Tables, b: Tables) { TrueReads(a, b) && b.faults == a.faults }

  /** Nothing failed, and neither table had more hook jumps than can be deleted. */
  predicate Smooth(a: Tables, b: Tables) {
    NoFault(a, b) && Removable(a.t4, Hook) && (a.t6.Some? ==> Removable(a.t6.value, Hook))
  }

  /** Each listed chain has few enough jumps to be dropped. */
  predicate AllRemovable(t: Table, jumps: seq<Chain>) { forall i | 0 <= i < |jumps| :: Removable(t, jumps[i]) }

  /** Nothing failed, and neither table had more jumps of any kind than a cleanup can delete. */
  predicate SmoothSweep(a: Tables, b: Tables) {
    NoFault(a, b) && AllRemovable(a.t4, JUMPS4) && (a.t6.Some? ==> AllRemovable(a.t6.value, JUMPS6))
  }

  /** No plain jump of FORWARD leads to a listed chain. */
  predicate Unjumped(t: Table, jumps: seq<Chain>) { forall i | 0 <= i < |jumps| :: Plain(jumps[i]) !in t[Forward] }

  /** Neither table has a jump to any chain of ours, past or present. */
  predicate Clean(a: Tables) { Unjumped(a.t4, JUMPS4) && (a.t6.Some? ==> Unjumped(a.t6.value, JUMPS6)) }

  /** The rules in both tables are those the links call for. */
  predicate InOrder(rig: Rig, s: Snap) {
    && RulesOk(s.fw.t4, s.active4, s.links, Target4(rig.kernel, s.health.workers, rig.ttl))
    && (KeepsV6(rig) ==> s.fw.t6.Some? && RulesOk(s.fw.t6.value, s.active6, s.links, Target6(rig.mode, rig.hl)))
  }

  /** Nothing is installed, no worker runs, and the next iteration starts afresh. */
  predicate Down(s: Snap) { s.active4 == None && s.active6 == None && s.running == [] && s.first }

  /** What holds between any two iterations. */
  ghost predicate Inv(rig: Rig, s: Snap) {
    && KnownSide(s.active4) && KnownSide(s.active6) && s.health.workers >= 1
    && s.running == Queues(|s.running|) && Orderly(s.log) && Watchdog.AllDistinct(s.history)
    && Classified(s.links) && Classified(s.served)
    && (!rig.kernel && s.active4.Some? ==> s.running == Queues(s.health.workers))
  }

  // ----------------------------------------------------------------- iterations

  /** What one iteration finds: the interfaces, the elapsed timers, a queue sample, a network event. */
  datatype Input = Input(links: Links, rescan: bool, checkDue: bool, watch: Option<Watchdog.Sample>,
                         stable: bool, changed: bool)

  predicate Sensible(i: Input) {
    Classified(i.links) && (i.watch.Some? ==> Watchdog.DistinctQueues(i.watch.value))
  }

  /** What one iteration did. */
  datatype Action = Kept | Idled(cleaned: Option<bool>) | Renewed | Recovering

  function LinksNow(x: Snap, i: Input): Links { if x.first || x.changed || i.rescan then i.links else x.links }

  /** The links are read again when it is time to, and compared, and the rules with them. */
  predicate Looked(rig: Rig, x: Snap, y: Snap, i: Input, fits: bool) {
    && y == x.(fw := y.fw, links := LinksNow(x, i)) && NoCommand(x.fw, y.fw) && Grown(x.fw, y.fw)
    && (fits ==> !x.first && y.links == x.served)
    && (TrueReads(x.fw, y.fw) ==>
          (fits <==> !x.first && y.links == x.served
                     && (y.links.Active() && (x.changed || i.checkDue) ==> InOrder(rig, y))))
    && (!fits ==> x.first || y.links != x.served || y.links.Active())
  }

  predicate Verified(rig: Rig, x: Snap, y: Snap, intact: bool) {
    && y == x.(fw := y.fw) && NoCommand(x.fw, y.fw) && Grown(x.fw, y.fw)
    && (TrueReads(x.fw, y.fw) ==> (intact <==> InOrder(rig, y)))
  }

  /** Both rule sets go in, IPv4 first, and IPv6 only if that worked. */
  predicate RulesIn(rig: Rig, x: Snap, y: Snap, ok: bool) {
    && y == x.(fw := y.fw, active4 := y.active4, active6 := y.active6) && Grown(x.fw, y.fw)
    && KnownSide(y.active4) && KnownSide(y.active6)
    && (y.active4 == x.active4 || y.active4 == Some(OtherSide(x.active4)))
    && (y.active4 == x.active4 ==> !ok && y.active6 == x.active6 && y.fw.t6 == x.fw.t6)
    && (ok ==> y.active4.Some? && (TrueReads(x.fw, y.fw) ==> InOrder(rig, y)))
    && (Smooth(x.fw, y.fw) ==> ok)
  }

  /** Workers first, then both rule sets. */
  predicate Brought(rig: Rig, x: Snap, y: Snap, ok: bool) {
    && y == x.(fw := y.fw, active4 := y.active4, active6 := y.active6, running := y.running, log := y.log)
    && Grown(x.fw, y.fw) && KnownSide(y.active4) && KnownSide(y.active6)
    && (if rig.kernel then y.running == x.running else ok ==> y.running == Queues(x.health.workers))
    && (ok ==> BroughtLog(x.log, y.log, rig.kernel) && y.active4.Some? && (TrueReads(x.fw, y.fw) ==> InOrder(rig, y)))
    && (!ok ==> FailedStart(x.log, y.log) || (BroughtLog(x.log, y.log, rig.kernel) && !Smooth(x.fw, y.fw)))
  }

  predicate CleanedUp(x: Snap, y: Snap, ok: bool) {
    && y == x.(fw := y.fw, log := x.log + [Cleaned(ok)]) && Grown(x.fw, y.fw)
    && (ok && TrueReads(x.fw, y.fw) ==> Clean(y.fw)) && (SmoothSweep(x.fw, y.fw) ==> ok)
  }

  /** recover: rules first, then workers; then fewer workers or a longer wait. */
  predicate RecoveredTo(rig: Rig, x: Snap, y: Snap) {
    && y == x.(fw := y.fw, active4 := None, active6 := None, running := [], first := true,
               health := Recovered(x.health, rig.maxFailures), log := y.log)
    && Grown(x.fw, y.fw) && TakenDown(x.log, y.log)
    && (y.log[|x.log|] == Cleaned(true) && TrueReads(x.fw, y.fw) ==> Clean(y.fw))
    && (SmoothSweep(x.fw, y.fw) ==> y.log[|x.log|] == Cleaned(true))
  }

  /** No links: what was installed is cleaned up once, and forgotten even if that failed. */
  predicate IdledTo(x: Snap, y: Snap, cleaned: Option<bool>) {
    && (cleaned.None? <==> x.active4.None? && x.active6.None?)
    && (cleaned.None? ==> y == x)
    && (cleaned.Some? ==>
          && y == x.(fw := y.fw, active4 := None, active6 := None, running := [], first := x.first || !cleaned.value,
                     log := x.log + [Cleaned(cleaned.value), Stopped])
          && Grown(x.fw, y.fw) && (cleaned.value && TrueReads(x.fw, y.fw) ==> Clean(y.fw))
          && (SmoothSweep(x.fw, y.fw) ==> cleaned.value))
  }

  /** The links count as served, and the watchdog starts anew. */
  function Settle(s: Snap): Snap { s.(served := s.links, history := []) }

  /** Links or rules do not fit: clean up, or bring everything up, or fall back. */
  ghost predicate RenewedTo(rig: Rig, x: Snap, y: Snap, act: Action) {
    match act
    case Kept => false
    case Idled(cleaned) => !x.links.Active() && exists m :: IdledTo(x, m, cleaned) && y == Settle(m)
    case Renewed => x.links.Active() && exists m :: Brought(rig, x, m, true) && y == Settle(m)
    case Recovering => x.links.Active() && exists m :: Brought(rig, x, m, false) && RecoveredTo(rig, m, y)
  }

  /** The first half of an iteration: rules and workers are made to fit the links. */
  ghost predicate Fitted(rig: Rig, x: Snap, y: Snap, i: Input, act: Action) {
    if act == Kept then Looked(rig, x, y, i, true)
    else exists m :: Looked(rig, x, m, i, false) && RenewedTo(rig, m.(first := false), y, act)
  }

  predicate WatchDue(rig: Rig, s: Snap, i: Input) { !rig.kernel && s.active4.Some? && i.watch.Some? }

  /** The watchdog's sample, counted only if the workers are healthy and their number is right. */
  function Watched(x: Snap, s: Watchdog.Sample, healthy: bool): Snap {
    x.(log := x.log + [Checked(healthy)],
       history := if healthy && |s| == x.health.workers then x.history + [s] else x.history)
  }

  ghost predicate Well(rig: Rig, x: Snap, s: Watchdog.Sample, healthy: bool) {
    healthy && |s| == x.health.workers && !exists q :: Watchdog.Stuck(Watched(x, s, healthy).history, q, rig.stallLimit)
  }

  function Rested(s: Snap, i: Input): Snap {
    s.(health := if i.stable then Health(0, s.health.workers) else s.health, changed := i.changed)
  }

  /** The second half, after a first half with outcome `fit`. */
  ghost predicate Finished(rig: Rig, x: Snap, y: Snap, i: Input, fit: Action, act: Action) {
    if fit == Recovering then act == Recovering && y == x
    else if !WatchDue(rig, x, i) then act == fit && y == Rested(x, i)
    else exists healthy ::
      if Well(rig, x, i.watch.value, healthy) then act == fit && y == Rested(Watched(x, i.watch.value, healthy), i)
      else act == Recovering && RecoveredTo(rig, Watched(x, i.watch.value, healthy), y)
  }

  /** One iteration. */
  ghost predicate Ticked(rig: Rig, x: Snap, y: Snap, i: Input, act: Action) {
    exists m, fit :: Fitted(rig, x, m, i, fit) && Finished(rig, m, y, i, fit, act)
  }

  // ----------------------------------------------------- what every tick keeps

  lemma {:induction false} QueuesBack(workers: nat, ttl: nat)
    requires workers >= 1
    ensures Backed(Queues(workers), Target4(false, workers, ttl))
  {
    var items := Queues(workers);
    forall q: nat | QUEUE_BASE <= q < QUEUE_BASE + workers
      ensures q in items
    {
      assert items[q - QUEUE_BASE] == q;
    }
  }

  /** Every queue the rules name has its worker, and no other worker runs. */
  ghost predicate Backed(items: seq<nat>, target: Target) {
    target.Queue? && forall q: nat :: target.first <= q <= target.last <==> q in items
  }

  lemma OrderlyAfterTakingDown(was: seq<Event>, now: seq<Event>)
    requires Orderly(was) && TakenDown(was, now)
    ensures Orderly(now)
  {
  }

  lemma OrderlyAfterBringing(was: seq<Event>, now: seq<Event>, kernel: bool)
    requires Orderly(was) && (BroughtLog(was, now, kernel) || FailedStart(was, now))
    ensures Orderly(now)
  {
  }

  lemma OrderlyAfterChecking(was: seq<Event>, ok: bool)
    requires Orderly(was)
    ensures Orderly(was + [Checked(ok)])
  {
  }

  lemma LookedKeeps(rig: Rig, x: Snap, y: Snap, i: Input, fits: bool)
    requires Inv(rig, x) && Sensible(i) && Looked(rig, x, y, i, fits)
    ensures Inv(rig, y)
  {
    hide Orderly, Classified, InOrder, Watchdog.AllDistinct;
  }

  lemma RecoveredKeeps(rig: Rig, x: Snap, y: Snap)
    requires Inv(rig, x.(running := [], active4 := None)) && RecoveredTo(rig, x, y)
    ensures Inv(rig, y) && Down(y)
  {
    OrderlyAfterTakingDown(x.log, y.log);
    hide Orderly, Classified, Watchdog.AllDistinct, TakenDown;
  }

  lemma IdledKeeps(rig: Rig, x: Snap, y: Snap, cleaned: Option<bool>)
    requires Inv(rig, x) && IdledTo(x, y, cleaned)
    ensures Inv(rig, y)
  {
    if cleaned.Some? {
      OrderlyAfterTakingDown(x.log, y.log);
    }
    hide Orderly, Classified, Watchdog.AllDistinct, TakenDown, Clean, SmoothSweep;
  }

  lemma BroughtKeeps(rig: Rig, x: Snap, y: Snap, ok: bool)
    requires Inv(rig, x) && Brought(rig, x, y, ok)
    ensures Inv(rig, y.(running := [], active4 := None)) && (ok ==> Inv(rig, y))
  {
    OrderlyAfterBringing(x.log, y.log, rig.kernel);
    hide Orderly, Classified, Watchdog.AllDistinct, BroughtLog, FailedStart, InOrder, Smooth;
  }

  lemma SettledKeeps(rig: Rig, x: Snap)
    requires Inv(rig, x)
    ensures Inv(rig, Settle(x))
  {
    hide Orderly, Classified;
  }

  lemma RenewedKeeps(rig: Rig, x: Snap, y: Snap, act: Action)
    requires Inv(rig, x) && RenewedTo(rig, x, y, act)
    ensures Inv(rig, y)
  {
    hide Inv, Brought, RecoveredTo, IdledTo, Down;
    match act
    case Idled(cleaned) =>
      var m :| IdledTo(x, m, cleaned) && y == Settle(m);
      IdledKeeps(rig, x, m, cleaned);
      SettledKeeps(rig, m);
    case Renewed =>
      var m :| Brought(rig, x, m, true) && y == Settle(m);
      BroughtKeeps(rig, x, m, true);
      SettledKeeps(rig, m);
    case Recovering =>
      var m :| Brought(rig, x, m, false) && RecoveredTo(rig, m, y);
      BroughtKeeps(rig, x, m, false);
      RecoveredKeeps(rig, m, y);
    case Kept =>
  }

  lemma FittedKeeps(rig: Rig, x: Snap, y: Snap, i: Input, act: Action)
    requires Inv(rig, x) && Sensible(i) && Fitted(rig, x, y, i, act)
    ensures Inv(rig, y)
  {
    hide Looked, RenewedTo;
    if act == Kept {
      LookedKeeps(rig, x, y, i, true);
    } else {
      var m :| Looked(rig, x, m, i, false) && RenewedTo(rig, m.(first := false), y, act);
      LookedKeeps(rig, x, m, i, false);
      RenewedKeeps(rig, m.(first := false), y, act);
    }
  }

  lemma WatchedKeeps(rig: Rig, x: Snap, s: Watchdog.Sample, healthy: bool)
    requires Inv(rig, x) && Watchdog.DistinctQueues(s)
    ensures Inv(rig, Watched(x, s, healthy))
  {
    OrderlyAfterChecking(x.log, healthy);
    hide Orderly, Classified;
  }

  lemma RestedKeeps(rig: Rig, x: Snap, i: Input)
    requires Inv(rig, x)
    ensures Inv(rig, Rested(x, i))
  {
    hide Orderly, Classified, Watchdog.AllDistinct;
  }

  /** The supervisor's invariant, over any iteration. */
  lemma TickKeepsInv(rig: Rig, x: Snap, y: Snap, i: Input, act: Action)
    requires Inv(rig, x) && Sensible(i) && Ticked(rig, x, y, i, act)
    ensures Inv(rig, y)
  {
    hide Inv, Fitted, Well, RecoveredTo, Watched, Rested, Down;
    var m, fit :| Fitted(rig, x, m, i, fit) && Finished(rig, m, y, i, fit, act);
    FittedKeeps(rig, x, m, i, fit);
    if fit != Recovering && WatchDue(rig, m, i) {
      var healthy :|
        if Well(rig, m, i.watch.value, healthy) then act == fit && y == Rested(Watched(m, i.watch.value, healthy), i)
        else act == Recovering && RecoveredTo(rig, Watched(m, i.watch.value, healthy), y);
      var w := Watched(m, i.watch.value, healthy);
      WatchedKeeps(rig, m, i.watch.value, healthy);
      if Well(rig, m, i.watch.value, healthy) {
        RestedKeeps(rig, w, i);
      } else {
        TakenKeeps(rig, w);
        RecoveredKeeps(rig, w, y);
      }
    } else if fit != Recovering {
      RestedKeeps(rig, m, i);
    }
  }

  lemma TakenKeeps(rig: Rig, x: Snap)
    requires Inv(rig, x)
    ensures Inv(rig, x.(running := [], active4 := None))
  {
    hide Orderly, Classified, Watchdog.AllDistinct;
  }

  // --------------------------------------------------- what a tick has done, flat

  /** The log has gained a fallback: this event, then a cleanup and the end of the workers. */
  predicate FellBack(was: seq<Event>, now: seq<Event>, e: Event) {
    && was <= now && |now| >= |was| + 3
    && now[|now| - 3] == e && now[|now| - 2].Cleaned? && now[|now| - 1] == Stopped
  }

  /** Why an iteration changes anything: the start, other links, or rules out of order, or a read that failed. */
  predicate Astray(rig: Rig, x: Snap, y: Snap) {
    || x.first || y.links != x.served
    || (y.links.Active() && !(TrueReads(x.fw, y.fw) && InOrder(rig, x.(links := y.links))))
  }

  /** Why an iteration falls back: a start or an install that failed, a bad check, or a sample that does not fit. */
  ghost predicate Justified(rig: Rig, x: Snap, y: Snap, i: Input) {
    || FellBack(x.log, y.log, Started(false)) || FellBack(x.log, y.log, Checked(false))
    || (FellBack(x.log, y.log, Installed(!rig.kernel)) && !Smooth(x.fw, y.fw))
    || (FellBack(x.log, y.log, Checked(true)) && i.watch.Some?
        && (|i.watch.value| != x.health.workers || exists q :: Watchdog.Stuck(y.history, q, rig.stallLimit)))
  }

  /** What an iteration with this outcome has done to rules, workers and links, and why. */
  ghost predicate Did(rig: Rig, x: Snap, y: Snap, i: Input, act: Action) {
    match act
    case Kept =>
      && NoCommand(x.fw, y.fw) && y.active4 == x.active4 && y.active6 == x.active6 && y.running == x.running
      && y.links == y.served == x.served && !x.first
      && (y.links.Active() && (x.changed || i.checkDue) && TrueReads(x.fw, y.fw) ==> InOrder(rig, y))
    case Renewed =>
      && Astray(rig, x, y) && y.links == y.served && y.links.Active() && y.active4.Some?
      && (TrueReads(x.fw, y.fw) ==> InOrder(rig, y))
    case Idled(cleaned) =>
      && Astray(rig, x, y) && y.links == y.served && !y.links.Active() && y.active4 == None && y.active6 == None
      && (cleaned.None? <==> x.active4.None? && x.active6.None?)
      && (cleaned.None? ==> NoCommand(x.fw, y.fw) && y.log == x.log)
      && (cleaned.Some? ==>
            y.log == x.log + [Cleaned(cleaned.value), Stopped] && y.running == [] && y.first == !cleaned.value)
      && (cleaned == Some(false) ==> !SmoothSweep(x.fw, y.fw))
      && (cleaned == Some(true) && TrueReads(x.fw, y.fw) ==> Clean(y.fw))
    case Recovering =>
      && Down(y) && Justified(rig, x, y, i) && y.health == Recovered(x.health, rig.maxFailures)
      && |y.log| >= 2 && (y.log[|y.log| - 2] == Cleaned(true) && TrueReads(x.fw, y.fw) ==> Clean(y.fw))
  }

  lemma RenewedDid(rig: Rig, x: Snap, m: Snap, y: Snap, i: Input, act: Action)
    requires Looked(rig, x, m, i, false) && RenewedTo(rig, m.(first := false), y, act)
    ensures Did(rig, x, y, i, act) && Grown(x.fw, y.fw) && x.log <= y.log && y.links == LinksNow(x, i)
    ensures y.changed == x.changed
    ensures act != Recovering ==> y.health == x.health
  {
    hide RulesOk, AllRemovable, Unjumped, Removable, Watchdog.Stuck, Recovered;
    assert InOrder(rig, m) <==> InOrder(rig, x.(links := m.links));
    hide InOrder;
  }

  lemma KeptDid(rig: Rig, x: Snap, y: Snap, i: Input)
    requires Looked(rig, x, y, i, true)
    ensures Did(rig, x, y, i, Kept) && y.log == x.log && y.health == x.health
  {
    hide InOrder;
  }

  /** The iteration, told by its outcome. */
  lemma TickOutcome(rig: Rig, x: Snap, y: Snap, i: Input, act: Action)
    requires Ticked(rig, x, y, i, act)
    ensures Did(rig, x, y, i, act) && Grown(x.fw, y.fw) && x.log <= y.log
    ensures y.links == if x.first || x.changed || i.rescan then i.links else x.links
    ensures act != Recovering ==>
      y.changed == i.changed && y.health == if i.stable then Health(0, x.health.workers) else x.health
    ensures act != Recovering && WatchDue(rig, y, i) ==>
      |i.watch.value| == y.health.workers && !exists q :: Watchdog.Stuck(y.history, q, rig.stallLimit)
  {
    hide Looked, RenewedTo, Watchdog.Stuck, Recovered, InOrder, Smooth, Clean, SmoothSweep;
    var m, fit :| Fitted(rig, x, m, i, fit) && Finished(rig, m, y, i, fit, act);
    if fit == Kept {
      KeptDid(rig, x, m, i);
      LookedLinks(rig, x, m, i);
    } else {
      var l :| Looked(rig, x, l, i, false) && RenewedTo(rig, l.(first := false), m, fit);
      RenewedDid(rig, x, l, m, i, fit);
    }
    FinishedDid(rig, x, m, y, i, fit, act);
  }

  lemma LookedLinks(rig: Rig, x: Snap, y: Snap, i: Input)
    requires Looked(rig, x, y, i, true)
    ensures Grown(x.fw, y.fw) && y.links == LinksNow(x, i)
  {
  }

  lemma FinishedDid(rig: Rig, x: Snap, m: Snap, y: Snap, i: Input, fit: Action, act: Action)
    requires Did(rig, x, m, i, fit) && Finished(rig, m, y, i, fit, act)
    requires Grown(x.fw, m.fw) && x.log <= m.log && m.links == LinksNow(x, i)
    requires (fit != Recovering ==> m.health == x.health)
    ensures Did(rig, x, y, i, act) && Grown(x.fw, y.fw) && x.log <= y.log && y.links == LinksNow(x, i)
    ensures act != Recovering ==>
      y.changed == i.changed && y.health == if i.stable then Health(0, x.health.workers) else x.health
    ensures act != Recovering && WatchDue(rig, y, i) ==>
      |i.watch.value| == y.health.workers && !exists q :: Watchdog.Stuck(y.history, q, rig.stallLimit)
  {
    if fit != Recovering {
      if WatchDue(rig, m, i) {
        var s := i.watch.value;
        assert fit.Idled? ==> m.active4 == None;
        var healthy :| if Well(rig, m, s, healthy) then act == fit && y == Rested(Watched(m, s, healthy), i)
          else act == Recovering && RecoveredTo(rig, Watched(m, s, healthy), y);
        hide Did, Watchdog.Stuck, Recovered;
        if Well(rig, m, s, healthy) {
          DidRests(rig, x, m, y, i, act);
        } else {
          DidFalls(rig, x, m, y, i, healthy);
        }
      } else {
        hide Did, Watchdog.Stuck, Recovered;
        DidRests(rig, x, m, y, i, act);
      }
    }
  }

  lemma DidRests(rig: Rig, x: Snap, m: Snap, y: Snap, i: Input, act: Action)
    requires Did(rig, x, m, i, act) && act != Recovering && (act.Idled? ==> y.log == m.log)
    requires y == m.(health := y.health, changed := y.changed, log := y.log, history := y.history)
    requires y.health.workers == m.health.workers
    ensures Did(rig, x, y, i, act)
  {
    hide RulesOk, Clean, SmoothSweep;
  }

  lemma DidFalls(rig: Rig, x: Snap, m: Snap, y: Snap, i: Input, healthy: bool)
    requires Grown(x.fw, m.fw) && x.log <= m.log && m.health == x.health
    requires i.watch.Some? && !Well(rig, m, i.watch.value, healthy)
    requires RecoveredTo(rig, Watched(m, i.watch.value, healthy), y)
    ensures Did(rig, x, y, i, Recovering)
  {
    hide Watchdog.Stuck, Recovered, Smooth;
    var w := Watched(m, i.watch.value, healthy);
    FallbackOf(x.log, w.log, y.log, Checked(healthy));
    hide FellBack;
  }

  lemma FallbackOf(was: seq<Event>, mid: seq<Event>, now: seq<Event>, e: Event)
    requires was <= mid && |mid| > |was| && mid[|mid| - 1] == e && TakenDown(mid, now)
    ensures FellBack(was, now, e)
  {
  }

  // ------------------------------------------------------------ idle iterations

  lemma IdleFit(rig: Rig, x: Snap, y: Snap, i: Input, act: Action)
    requires Fitted(rig, x, y, i, act) && !LinksNow(x, i).Active() && x.active4 == None && x.active6 == None
    ensures act == Kept || act == Idled(None)
    ensures y.active4 == None && NoCommand(x.fw, y.fw) && y.log == x.log && y.changed == x.changed
    ensures (x.first ==> act != Kept)
  {
    hide InOrder;
    if act != Kept {
      var m :| Looked(rig, x, m, i, false) && RenewedTo(rig, m.(first := false), y, act);
    }
  }

  /** With no links and nothing active, an iteration issues no command and touches no worker. */
  lemma IdleIsQuiet(rig: Rig, x: Snap, y: Snap, i: Input, act: Action)
    requires Ticked(rig, x, y, i, act) && !LinksNow(x, i).Active() && x.active4 == None && x.active6 == None
    ensures act == Kept || act == Idled(None)
    ensures NoCommand(x.fw, y.fw) && y.log == x.log && (x.first ==> act != Kept)
  {
    hide Fitted;
    var m, fit :| Fitted(rig, x, m, i, fit) && Finished(rig, m, y, i, fit, act);
    IdleFit(rig, x, m, i, fit);
  }

  /** Somebody else edits the tables. */
  predicate Disturbed(x: Snap, y: Snap) {
    && y == x.(fw := x.fw.(t4 := y.fw.t4, t6 := y.fw.t6)) && (y.fw.t6.Some? <==> x.fw.t6.Some?)
  }

  /**
   A cleanup that failed when the links went away is not tried again while they stay away, whatever
   the tables hold.
   */
  lemma FailedIdleIsNotRetried(rig: Rig, x: Snap, m: Snap, n: Snap, y: Snap, i: Input, j: Input, act: Action)
    requires Ticked(rig, x, m, i, Idled(Some(false))) && Disturbed(m, n)
    requires Ticked(rig, n, y, j, act) && !LinksNow(n, j).Active()
    ensures act == Idled(None) && NoCommand(n.fw, y.fw) && y.log == x.log + [Cleaned(false), Stopped]
  {
    TickOutcome(rig, x, m, i, Idled(Some(false)));
    hide Ticked, LinksNow, Astray, SmoothSweep;
    IdleIsQuiet(rig, n, y, j, act);
  }

  // ------------------------------------------------------------------- histories

  /** One turn of the loop: the tables may have been edited, then comes one iteration. */
  datatype Turn = Turn(found: Snap, left: Snap, input: Input, act: Action)

  function Final(start: Snap, turns: seq<Turn>): Snap { if turns == [] then start else turns[|turns| - 1].left }

  ghost predicate History(rig: Rig, start: Snap, turns: seq<Turn>) {
    turns == [] ||
    var before, t := turns[..|turns| - 1], turns[|turns| - 1];
    && History(rig, start, before) && Disturbed(Final(start, before), t.found)
    && Ticked(rig, t.found, t.left, t.input, t.act)
  }

  predicate AllSensible(turns: seq<Turn>) { forall t | t in turns :: Sensible(t.input) }

  lemma DisturbedKeeps(rig: Rig, x: Snap, y: Snap)
    requires Inv(rig, x) && Disturbed(x, y)
    ensures Inv(rig, y) && Grown(x.fw, y.fw)
  {
    hide Orderly, Classified, Watchdog.AllDistinct;
  }

  /** Whatever happens between them, any number of iterations keeps the invariant, and nothing in the log is lost. */
  lemma {:induction false} HistoryKeeps(rig: Rig, start: Snap, turns: seq<Turn>)
    requires Inv(rig, start) && History(rig, start, turns) && AllSensible(turns)
    ensures Inv(rig, Final(start, turns)) && start.log <= Final(start, turns).log
    ensures Grown(start.fw, Final(start, turns).fw)
    decreases |turns|
  {
    if turns != [] {
      hide Inv, Ticked, Did;
      var before, t := turns[..|turns| - 1], turns[|turns| - 1];
      assert t in turns && forall u | u in before :: u in turns;
      HistoryKeeps(rig, start, before);
      DisturbedKeeps(rig, Final(start, before), t.found);
      TickKeepsInv(rig, t.found, t.left, t.input, t.act);
      TickOutcome(rig, t.found, t.left, t.input, t.act);
    }
  }

  /** How many iterations of a history fell back. */
  function Fallbacks(turns: seq<Turn>): nat {
    if turns == [] then 0
    else Fallbacks(turns[..|turns| - 1]) + if turns[|turns| - 1].act == Recovering then 1 else 0
  }

  lemma DisturbedHealth(x: Snap, y: Snap)
    ensures Disturbed(x, y) ==> y.health == x.health
  {
  }

  lemma TickHealth(rig: Rig, x: Snap, y: Snap, i: Input, act: Action)
    requires Ticked(rig, x, y, i, act) && !i.stable
    ensures y.health == if act == Recovering then Recovered(x.health, rig.maxFailures) else x.health
  {
    TickOutcome(rig, x, y, i, act);
    hide Ticked, Recovered, Astray, Justified, InOrder, Clean;
  }

  /** With no stable minute, the workers left after a history are decided by its number of fallbacks alone. */
  lemma {:induction false} HistoryDegrades(rig: Rig, start: Snap, turns: seq<Turn>)
    requires History(rig, start, turns) && forall t | t in turns :: !t.input.stable
    ensures Final(start, turns).health == After(start.health, rig.maxFailures, Fallbacks(turns))
    decreases |turns|
  {
    if turns != [] {
      var before := turns[..|turns| - 1];
      assert turns[|turns| - 1] in turns && forall u | u in before :: u in turns;
      HistoryDegrades(rig, start, before);
      OneMoreTurn(rig, start, turns);
    }
  }

  lemma OneMoreTurn(rig: Rig, start: Snap, turns: seq<Turn>)
    requires turns != [] && History(rig, start, turns) && !turns[|turns| - 1].input.stable
    requires var before := turns[..|turns| - 1];
      Final(start, before).health == After(start.health, rig.maxFailures, Fallbacks(before))
    ensures Final(start, turns).health == After(start.health, rig.maxFailures, Fallbacks(turns))
  {
    hide Ticked, Disturbed, Recovered, After, Fallbacks;
    var before, t := turns[..|turns| - 1], turns[|turns| - 1];
    DisturbedHealth(Final(start, before), t.found);
    TickHealth(rig, t.found, t.left, t.input, t.act);
    FallbacksOneMore(turns);
    AfterOneMore(start.health, rig.maxFailures, Fallbacks(before));
  }

  lemma FallbacksOneMore(turns: seq<Turn>)
    requires turns != []
    ensures Fallbacks(turns) == Fallbacks(turns[..|turns| - 1]) + if turns[|turns| - 1].act == Recovering then 1 else 0
  {
  }

  lemma AfterOneMore(h: Health, maxFailures: nat, n: nat)
    ensures After(h, maxFailures, n + 1) == Recovered(After(h, maxFailures, n), maxFailures)
  {
  }

  /** After a history with F fallbacks and no stable minute, W workers are the ceiling of W / 2^(F div maxFailures). */
  lemma HistoryClosedForm(rig: Rig, start: Snap, turns: seq<Turn>)
    requires History(rig, start, turns) && forall t | t in turns :: !t.input.stable
    requires start.health.failures == 0 && start.health.workers >= 1 && 1 <= rig.maxFailures <= 255
    ensures Final(start, turns).health.workers == Remaining(start.health.workers, rig.maxFailures, Fallbacks(turns))
  {
    HistoryDegrades(rig, start, turns);
    Degrades(start.health.workers, rig.maxFailures, Fallbacks(turns));
  }

  /** An installing turn with true reads leaves rules that name exactly the queues that have workers. */
  lemma RenewedMeansServed(rig: Rig, t: Turn, p: Packet, depth: nat)
    requires Inv(rig, t.found) && Sensible(t.input) && Ticked(rig, t.found, t.left, t.input, t.act) && t.act == Renewed
    requires !rig.kernel && TrueReads(t.found.fw, t.left.fw) && Quiet(t.left.fw.t4) && depth >= 2
    ensures var y := t.left; var target := Target4(false, y.health.workers, rig.ttl);
      && Backed(y.running, target) && y.active4.Some?
      && OurHits(Treatment(y.fw.t4, p, depth)) ==
           if p.input in y.links.down && p.output in y.links.up then [Hit(y.active4.value, target)] else []
  {
    TickKeepsInv(rig, t.found, t.left, t.input, t.act);
    TickOutcome(rig, t.found, t.left, t.input, t.act);
    hide Ticked, Astray, Watchdog.AllDistinct, Orderly, Classified, Quiet, RulesOk;
    var y := t.left;
    QueuesBack(y.health.workers, rig.ttl);
    VerifiedMeansCovered(y.fw.t4, y.active4, y.links, Target4(false, y.health.workers, rig.ttl), p, depth);
  }

  function Inputs(turns: seq<Turn>): seq<Input> {
    if turns == [] then [] else Inputs(turns[..|turns| - 1]) + [turns[|turns| - 1].input]
  }

  lemma OneMore(rig: Rig, start: Snap, turns: seq<Turn>, t: Turn)
    requires History(rig, start, turns) && Disturbed(Final(start, turns), t.found)
    requires Ticked(rig, t.found, t.left, t.input, t.act)
    ensures History(rig, start, turns + [t]) && Inputs(turns + [t]) == Inputs(turns) + [t.input]
    ensures Final(start, turns + [t]) == t.left
  {
    hide Ticked, Disturbed;
    assert (turns + [t])[..|turns|] == turns;
  }

  /** After the loop: one cleanup, and no workers. */
  predicate Ended(x: Snap, y: Snap, ok: bool) {
    && y == x.(fw := y.fw, running := [], log := x.log + [Cleaned(ok), Stopped])
    && Grown(x.fw, y.fw) && (ok && TrueReads(x.fw, y.fw) ==> Clean(y.fw)) && (SmoothSweep(x.fw, y.fw) ==> ok)
  }

  lemma EndIsOrderly(rig: Rig, x: Snap, ok: bool)
    requires Inv(rig, x)
    ensures Orderly(x.log + [Cleaned(ok), Stopped])
  {
    OrderlyAfterTakingDown(x.log, x.log + [Cleaned(ok), Stopped]);
  }
}
