/**
 The supervisor: one loop that keeps worker processes and firewall rules in step. Between
 two iterations anybody may change the tables; within one, what processes and clocks answer
 is arbitrary. Each method is tied to the relation in Ticks that says what it may do.
 */
module Supervisor {
  import opened Wrappers
  import opened Iptables
  import opened Net
  import opened Payloads
  import opened Mangles
  import opened Firewall
  import opened Recovery
  import opened Ticks
  import Config
  import Watchdog

  // ------------------------------------------------------------------ workers

  datatype Worker = Worker(queue: nat, pid: int)

  function QueuesOf(items: seq<Worker>): seq<nat> { seq(|items|, i requires 0 <= i < |items| => items[i].queue) }

  lemma QueuesOneMore(items: seq<Worker>, w: Worker, n: nat)
    requires QueuesOf(items) == Queues(n) && w.queue == QUEUE_BASE + n
    ensures QueuesOf(items + [w]) == Queues(n + 1)
  {
    assert |items| == |QueuesOf(items)| == n;
    assert QueuesOf(items + [w]) == QueuesOf(items) + [w.queue];
    assert Queues(n + 1) == Queues(n) + [QUEUE_BASE + n];
  }

  class Workers {
    var items: seq<Worker>
    ghost var log: seq<Event>

    constructor ()
      ensures items == [] && log == []
    {
      items, log := [], [];
    }

    method Stop()
      modifies this
      ensures items == [] && log == old(log) + [Stopped]
    {
      items := [];
      log := log + [Stopped];
    }

    /** Whether `count` processes are there, none has exited, and each owns its queue in the kernel. */
    method Healthy(count: nat, owners: map<nat, int>, exited: set<int>) returns (ok: bool)
      modifies this`log
      ensures log == old(log) + [Checked(ok)]
      ensures ok <==>
        |items| == count && forall w | w in items :: w.pid !in exited && w.queue in owners && owners[w.queue] == w.pid
    {
      ok := |items| == count;
      if ok {
        for i := 0 to |items|
          invariant ok <==> forall k | 0 <= k < i :: Owns(items[k], owners, exited)
        {
          ok := ok && Owns(items[i], owners, exited);
        }
      }
      log := log + [Checked(ok)];
    }

    static predicate Owns(w: Worker, owners: map<nat, int>, exited: set<int>) {
      w.pid !in exited && w.queue in owners && owners[w.queue] == w.pid
    }

    /**
     The old set is stopped first. A queue may have a foreign owner, a spawn may fail, or the set
     may never get ready.
     */
    method Start(count: nat) returns (ok: bool)
      modifies this
      ensures log == old(log) + [Stopped, Started(ok)]
      ensures items == [] || QueuesOf(items) == Queues(count)
      ensures ok ==> QueuesOf(items) == Queues(count)
    {
      Stop();
      var free: bool := *;
      if !free {
        log := log + [Started(false)];
        return false;
      }
      for i := 0 to count
        invariant QueuesOf(items) == Queues(i) && log == old(log) + [Stopped]
      {
        var spawned: bool := *;
        var pid: int := *;
        if !spawned {
          items := [];
          log := log + [Started(false)];
          return false;
        }
        QueuesOneMore(items, Worker(QUEUE_BASE + i, pid), i);
        items := items + [Worker(QUEUE_BASE + i, pid)];
      }
      var ready: bool := *;
      var interrupted: bool := *;
      if !ready && interrupted {
        items := [];
      }
      log := log + [Started(ready)];
      ok := ready;
    }
  }

  // ---------------------------------------------------------------- contracts

  lemma SwapDelivers(r: Stretch, ok: bool, links: Links, target: Target, active: Option<Chain>, now: Option<Chain>)
    requires SwapContract(r, ok, links, target, active, now) && KnownSide(active)
    ensures now == if ok then Some(OtherSide(active)) else active
    ensures KnownSide(now) && (ok ==> now.Some?) && (ok && r.readsTrue ==> RulesOk(r.after, now, links, target))
    ensures r.faultFree && r.readsTrue && Removable(r.before, Hook) ==> ok
  {
  }

  lemma SweepDelivers(r: Stretch, ok: bool, jumps: seq<Chain>, sweep: seq<Chain>)
    requires SweepContract(r, ok, jumps, sweep)
    ensures ok && r.readsTrue ==> Unjumped(r.after, jumps)
    ensures r.faultFree && r.readsTrue && AllRemovable(r.before, jumps) ==> ok
  {
    DroppedRules(r.before[Forward], jumps, |jumps|);
  }

  /** The two tables as they are, with the counters of both families together. */
  ghost function Shown(fw: Firewall): Tables
    reads fw.ipt, fw.V6()
  {
    if fw.ip6t == null then Tables(fw.ipt.table, None, |fw.ipt.trace|, fw.ipt.misreads, fw.ipt.faults)
    else
      Tables(fw.ipt.table, Some(fw.ip6t.table), |fw.ipt.trace| + |fw.ip6t.trace|,
             fw.ipt.misreads + fw.ip6t.misreads, fw.ipt.faults + fw.ip6t.faults)
  }

  class Supervisor {
    const fw: Firewall
    const workers: Workers
    const kernel: bool
    const mode: V6Mode
    const ttl: nat
    const hl: nat
    const stallLimit: nat
    const maxFailures: nat
    const cooldown: nat

    var links: Links
    var active4: Option<Chain>
    var active6: Option<Chain>
    var last: string
    var first: bool
    var changed: bool
    var failures: nat
    var activeWorkers: nat
    var progress: Watchdog.Tracks
    ghost var served: Links                   // the links of the last completed install or idle pass
    ghost var history: seq<Watchdog.Sample>   // the samples since queue_progress was cleared

    constructor (fw: Firewall, workers: Workers, kernel: bool, mode: V6Mode, ttl: nat, hl: nat, count: nat,
                 stallLimit: nat, maxFailures: nat, cooldown: nat)
      requires fw.Valid() && workers.items == [] && Orderly(workers.log) && count >= 1
      requires mode == Normalize || mode == Block ==> fw.ip6t != null
      requires 2 <= stallLimit <= 20
      ensures Valid() && Fixed() == Rig(kernel, mode, ttl, hl, stallLimit, maxFailures)
      ensures this.fw == fw && this.workers == workers && this.cooldown == cooldown
      ensures Now() ==
        Snap(Shown(fw), Links([], []), Links([], []), None, None, true, true, Health(0, count), [], workers.log, [])
    {
      this.fw, this.workers, this.kernel, this.mode, this.ttl, this.hl := fw, workers, kernel, mode, ttl, hl;
      this.stallLimit, this.maxFailures, this.cooldown := stallLimit, maxFailures, cooldown;
      links, active4, active6, last := Links([], []), None, None, "";
      first, changed, failures, activeWorkers, progress, history := true, true, 0, count, map[], [];
      served := Links([], []);
    }

    ghost function Fixed(): Rig { Rig(kernel, mode, ttl, hl, stallLimit, maxFailures) }

    ghost function Now(): Snap
      reads this, workers, fw.ipt, fw.V6()
    {
      Snap(Shown(fw), links, served, active4, active6, first, changed, Health(failures, activeWorkers),
           QueuesOf(workers.items), workers.log, history)
    }

    ghost predicate Rigged() { fw.Valid() && (KeepsV6(Fixed()) ==> fw.ip6t != null) && 2 <= stallLimit <= 20 }

    /** The watchdog remembers its samples, and the signature is that of the links last served. */
    ghost predicate Remembers()
      reads this
    {
      progress == Watchdog.After(history) && (!first ==> last == Signature(served))
    }

    ghost predicate Valid()
      reads this, workers, fw.ipt, fw.V6()
    {
      Rigged() && Remembers() && Inv(Fixed(), Now())
    }

    method Cleanup() returns (ok: bool)
      requires Rigged()
      modifies fw.ipt, fw.V6(), workers`log
      ensures CleanedUp(old(Now()), Now(), ok)
    {
      hide SweepContract, Unjumped, Swept, AllRemovable, Mangle.Touched, QueuesOf;
      label L:
      ok := fw.Cleanup();
      ghost var ok4 :| (
        && SweepContract(fw.ipt.Since@L(), ok4, JUMPS4, SWEEP4)
        && (if ok4 && fw.ip6t != null then SweepContract(fw.ip6t.Since@L(), ok, JUMPS6, SWEEP6) else ok == ok4)
        && (!ok4 && fw.ip6t != null ==> fw.ip6t.table == old(fw.ip6t.table) && fw.ip6t.trace == old(fw.ip6t.trace)));
      SweepDelivers(fw.ipt.Since@L(), ok4, JUMPS4, SWEEP4);
      if ok4 && fw.ip6t != null {
        SweepDelivers(fw.ip6t.Since@L(), ok, JUMPS6, SWEEP6);
      }
      workers.log := workers.log + [Cleaned(ok)];
    }

    /** recover: rules first, then workers; then fewer workers or a longer wait. */
    method Recover() returns (waited: nat)
      requires Rigged()
      modifies this`active4, this`active6, this`first, this`failures, this`activeWorkers, workers, fw.ipt, fw.V6()
      ensures RecoveredTo(Fixed(), old(Now()), Now()) && first
      ensures waited == Wait(Health(old(failures), old(activeWorkers)), maxFailures, cooldown)
    {
      hide Clean, SmoothSweep, Recovered, Wait, Shown;
      var cleaned := Cleanup();
      active4, active6 := None, None;
      workers.Stop();
      var before := Health(failures, activeWorkers);
      waited := Wait(before, maxFailures, cooldown);
      var after := Recovered(before, maxFailures);
      failures, activeWorkers := after.failures, after.workers;
      first := true;
    }

    method Verify() returns (intact: bool)
      requires Rigged()
      modifies fw.ipt, fw.V6()
      ensures Verified(Fixed(), old(Now()), Now(), intact)
    {
      hide RulesOk, Target4, Target6, QueuesOf;
      intact := fw.ipt.ReadRulesOk(active4, links, Target4(kernel, activeWorkers, ttl));
      if intact && (mode == Normalize || mode == Block) {
        intact := fw.ip6t.ReadRulesOk(active6, links, Target6(mode, hl));
      }
    }

    ghost predicate Known()
      reads this`active4, this`active6
    {
      Rigged() && KnownSide(active4) && KnownSide(active6)
    }

    method Install() returns (ok: bool)
      requires Known()
      modifies this`active4, this`active6, fw.ipt, fw.V6()
      ensures RulesIn(Fixed(), old(Now()), Now(), ok)
    {
      hide RulesOk, Target4, Target6, Removable, QueuesOf;
      ok := Install4();
      if ok {
        ok := Install6();
      }
    }

    method Install4() returns (ok: bool)
      requires Known()
      modifies this`active4, fw.ipt
      ensures KnownSide(active4) && active4 == if ok then Some(OtherSide(old(active4))) else old(active4)
      ensures fw.ipt.misreads >= old(fw.ipt.misreads) && fw.ipt.faults >= old(fw.ipt.faults)
      ensures old(|fw.ipt.trace|) <= |fw.ipt.trace|
      ensures !ok && fw.ipt.misreads == old(fw.ipt.misreads) && fw.ipt.faults == old(fw.ipt.faults) ==>
        !Removable(old(fw.ipt.table), Hook)
      ensures ok && fw.ipt.misreads == old(fw.ipt.misreads) ==>
        RulesOk(fw.ipt.table, active4, links, Target4(kernel, activeWorkers, ttl))
    {
      hide SwapContract, Treated, RulesOk, Swept, Target4, Removable;
      ghost var was := active4;
      label L:
      ok, active4 := fw.Install4(links, kernel, activeWorkers, ttl, active4);
      SwapDelivers(fw.ipt.Since@L(), ok, links, Target4(kernel, activeWorkers, ttl), was, active4);
    }

    method Install6() returns (ok: bool)
      requires Known()
      modifies this`active6, fw.V6()
      ensures KnownSide(active6) && (ok || fw.ip6t != null)
      ensures fw.ip6t != null ==>
        && fw.ip6t.misreads >= old(fw.ip6t.misreads) && fw.ip6t.faults >= old(fw.ip6t.faults)
        && old(|fw.ip6t.trace|) <= |fw.ip6t.trace|
      ensures !ok && fw.ip6t.misreads == old(fw.ip6t.misreads) && fw.ip6t.faults == old(fw.ip6t.faults) ==>
        !Removable(old(fw.ip6t.table), Hook)
      ensures ok && (mode == Normalize || mode == Block) && fw.ip6t.misreads == old(fw.ip6t.misreads) ==>
        RulesOk(fw.ip6t.table, active6, links, Target6(mode, hl))
    {
      hide SwapContract, SweepContract, Treated, RulesOk, Swept, Target6, Removable;
      ghost var was := active6;
      label L:
      ok, active6 := fw.Install6(links, mode, hl, active6);
      if mode == Normalize || mode == Block {
        SwapDelivers(fw.ip6t.Since@L(), ok, links, Target6(mode, hl), was, active6);
      }
    }

    /** What /proc and the processes answer is arbitrary. */
    method CheckWorkers() returns (ok: bool)
      modifies workers`log
      ensures workers.log == old(workers.log) + [Checked(ok)] && (ok ==> |workers.items| == activeWorkers)
    {
      var owners: map<nat, int> := *;
      var exited: set<int> := *;
      ok := workers.Healthy(activeWorkers, owners, exited);
    }

    /** Workers first, then both rule sets. */
    method Bring() returns (ok: bool)
      requires Known() && Now().running == Queues(|Now().running|)
      modifies this`active4, this`active6, workers, fw.ipt, fw.V6()
      ensures Brought(Fixed(), old(Now()), Now(), ok)
    {
      hide InOrder, Shown, Smooth;
      ok := ReadyWorkers();
      if !ok {
        return;
      }
      workers.log := workers.log + [Installed(!kernel)];
      ghost var before := Now();
      ok := Install();
      SmoothLater(old(Shown(fw)), before.fw, Shown(fw));
    }

    lemma SmoothLater(a: Tables, b: Tables, c: Tables)
      requires b == a
      ensures Smooth(a, c) <==> Smooth(b, c)
    {
    }

    /** In NFQUEUE mode the workers are checked, and started if need be. */
    method ReadyWorkers() returns (ok: bool)
      requires Now().running == Queues(|Now().running|)
      modifies workers
      ensures Now() == old(Now()).(running := Now().running, log := Now().log)
      ensures kernel ==> ok && Now() == old(Now())
      ensures !kernel && ok ==> Now().running == Queues(activeWorkers)
      ensures !kernel && ok ==>
        || Now().log == old(Now().log) + [Checked(true)]
        || Now().log == old(Now().log) + [Checked(false), Stopped, Started(true)]
      ensures !ok ==> FailedStart(old(Now().log), Now().log)
    {
      ok := true;
      if !kernel {
        ok := CheckWorkers();
        if !ok {
          ok := workers.Start(activeWorkers);
        }
      }
    }

    /** No links: what was installed is cleaned up once, and forgotten even if that failed. */
    method Idle() returns (cleaned: Option<bool>)
      requires Rigged()
      modifies this`active4, this`active6, this`first, workers, fw.ipt, fw.V6()
      ensures IdledTo(old(Now()), Now(), cleaned)
    {
      hide Clean, SmoothSweep, Shown;
      if active4.None? && active6.None? {
        return None;
      }
      var ok := Cleanup();
      if !ok {
        first := true;
      }
      workers.Stop();
      active4, active6 := None, None;
      cleaned := Some(ok);
    }

    /** The watchdog: all workers in place, as many queues as workers, and no queue standing still. */
    method Watch(s: Watchdog.Sample) returns (ok: bool)
      requires Rigged() && Watchdog.DistinctQueues(s) && progress == Watchdog.After(history)
      requires Watchdog.AllDistinct(history)
      modifies this`progress, this`history, workers`log
      ensures progress == Watchdog.After(history)
      ensures exists healthy ::
        Now() == Watched(old(Now()), s, healthy) && (ok <==> Well(Fixed(), old(Now()), s, healthy))
    {
      hide Watchdog.After, Watchdog.Verdict, Watchdog.Walk, Watchdog.Retained, Watchdog.AllDistinct, Watchdog.Stuck;
      var healthy := CheckWorkers();
      if !healthy || |s| != activeWorkers {
        assert Now() == Watched(old(Now()), s, healthy);
        return false;
      }
      var stalled: nat;
      progress, stalled := Watchdog.StallSample(progress, s);
      Watchdog.NextSample(history, s);
      history := history + [s];
      Watchdog.StallMeansStuck(history, stallLimit);
      ok := stalled < stallLimit;
      assert Now() == Watched(old(Now()), s, healthy);
    }

    /** The links are read again when it is time to, and compared, and the rules with them. */
    method Look(i: Input) returns (fits: bool)
      requires Rigged() && Remembers() && Classified(served) && Classified(LinksNow(Now(), i))
      modifies this`links, fw.ipt, fw.V6()
      ensures Looked(Fixed(), old(Now()), Now(), i, fits)
    {
      hide InOrder, Shown, Signature, Classified, Watchdog.After, QueuesOf;
      if first || changed || i.rescan {
        links := i.links;
      }
      var intact := true;
      if links.Active() && (first || changed || i.checkDue) {
        intact := Verify();
      }
      SignatureInjective(links, served);
      fits := !first && Signature(links) == last && intact;
    }

    /** The links count as served, and the watchdog starts anew. */
    method Settled()
      modifies this`last, this`progress, this`served, this`history
      ensures Now() == Settle(old(Now())) && Remembers()
    {
      last, progress := Signature(links), map[];
      served, history := links, [];
    }

    /** Links or rules do not fit: clean up, or bring everything up, or fall back. */
    method Renew() returns (act: Action)
      requires Known() && Now().running == Queues(|Now().running|) && progress == Watchdog.After(history)
      modifies this`active4, this`active6, this`first, this`failures, this`activeWorkers, this`last,
        this`progress, this`served, this`history, workers, fw.ipt, fw.V6()
      ensures RenewedTo(Fixed(), old(Now()), Now(), act) && Remembers()
    {
      hide IdledTo, Brought, RecoveredTo, Shown, QueuesOf, Queues, Watchdog.After;
      if !links.Active() {
        var cleaned := Idle();
        ghost var mid := Now();
        assert IdledTo(old(Now()), mid, cleaned);
        Settled();
        return Idled(cleaned);
      }
      var up := Bring();
      ghost var mid := Now();
      assert Brought(Fixed(), old(Now()), mid, up);
      if up {
        Settled();
        return Renewed;
      }
      var waited := Recover();
      act := Recovering;
    }

    /** The first half of an iteration: rules and workers are made to fit the links. */
    method Fit(i: Input) returns (act: Action)
      requires Valid() && Sensible(i)
      modifies this, workers, fw.ipt, fw.V6()
      ensures Fitted(Fixed(), old(Now()), Now(), i, act) && Remembers()
    {
      assert Known() && Now().running == Queues(|Now().running|);
      assert Classified(served) && Classified(LinksNow(Now(), i));
      hide Inv, RenewedTo, Shown, QueuesOf, Queues, InOrder, Watchdog.After, Classified, Signature;
      var fits := Look(i);
      if fits {
        return Kept;
      }
      ghost var mid := Now();
      assert Looked(Fixed(), old(Now()), mid, i, false);
      first := false;
      assert Now() == mid.(first := false);
      hide Looked;
      act := Renew();
    }

    /** One iteration of the loop. */
    method Tick(i: Input) returns (act: Action)
      requires Valid() && Sensible(i)
      modifies this, workers, fw.ipt, fw.V6()
      ensures Valid() && Ticked(Fixed(), old(Now()), Now(), i, act)
    {
      hide Inv, Fitted, Well, RecoveredTo, Shown, QueuesOf, Watchdog.After;
      ghost var x := Now();
      var fit := Fit(i);
      ghost var m := Now();
      FittedKeeps(Fixed(), x, m, i, fit);
      act := Finish(i, fit);
      assert Ticked(Fixed(), x, Now(), i, act) by {
        assert Fitted(Fixed(), x, m, i, fit);
      }
      TickKeepsInv(Fixed(), x, Now(), i, act);
    }

    /** The second half: the watchdog, the stable minute, and the wait for the next event. */
    method Finish(i: Input, fit: Action) returns (act: Action)
      requires Valid() && Sensible(i)
      modifies this, workers, fw.ipt, fw.V6()
      ensures Finished(Fixed(), old(Now()), Now(), i, fit, act) && Remembers()
    {
      assert Watchdog.AllDistinct(history);
      hide Inv, Well, RecoveredTo, Watchdog.After, Signature, Shown, QueuesOf;
      if fit == Recovering {
        return fit;
      }
      if !kernel && active4.Some? && i.watch.Some? {
        act := FinishWatched(i, fit);
      } else {
        Rest(i);
        act := fit;
      }
    }

    method FinishWatched(i: Input, fit: Action) returns (act: Action)
      requires Rigged() && Remembers() && i.watch.Some? && Sensible(i) && Watchdog.AllDistinct(history)
      requires fit != Recovering && WatchDue(Fixed(), Now(), i)
      modifies this, workers, fw.ipt, fw.V6()
      ensures Finished(Fixed(), old(Now()), Now(), i, fit, act) && Remembers()
    {
      hide Well, RecoveredTo, Watched, Watchdog.After, Watchdog.AllDistinct, Watchdog.Stuck, Signature, Shown,
        QueuesOf, Classified;
      ghost var x := Now();
      var well := Watch(i.watch.value);
      ghost var s := i.watch.value;
      ghost var healthy :| Now() == Watched(x, s, healthy) && (well <==> Well(Fixed(), x, s, healthy));
      if well {
        Rest(i);
        act := fit;
      } else {
        var waited := Recover();
        act := Recovering;
      }
    }

    /** A stable minute forgets the failures; then the next event is awaited. */
    method Rest(i: Input)
      modifies this`failures, this`changed
      ensures Now() == Rested(old(Now()), i)
    {
      if i.stable {
        failures := 0;
      }
      changed := i.changed;
    }

    /** Somebody else edits the tables. */
    method Disturb()
      modifies fw.ipt`table, fw.V6()
      ensures Disturbed(old(Now()), Now())
    {
      fw.ipt.table := *;
      if fw.ip6t != null {
        fw.ip6t.table := *;
      }
    }

    /** The whole loop, one turn for each input, and the cleanup after it. */
    method Run(inputs: seq<Input>) returns (ok: bool, ghost turns: seq<Turn>)
      requires Valid() && forall i | i in inputs :: Sensible(i)
      modifies this, workers, fw.ipt, fw.V6()
      ensures History(Fixed(), old(Now()), turns) && Inputs(turns) == inputs
      ensures Ended(Final(old(Now()), turns), Now(), ok) && Orderly(Now().log)
    {
      hide Inv, Ticked, Disturbed, Sensible, Shown, QueuesOf, Orderly, Clean, SmoothSweep, Watchdog.After, Signature;
      turns := [];
      ghost var start := Now();
      for n := 0 to |inputs|
        invariant Valid() && History(Fixed(), start, turns) && Final(start, turns) == Now()
        invariant Inputs(turns) == inputs[..n]
      {
        ghost var x := Now();
        Disturb();
        ghost var found := Now();
        DisturbedKeeps(Fixed(), x, found);
        var act := Tick(inputs[n]);
        ghost var turn := Turn(found, Now(), inputs[n], act);
        OneMore(Fixed(), start, turns, turn);
        assert inputs[..n + 1] == inputs[..n] + [inputs[n]];
        turns := turns + [turn];
      }
      assert inputs[..|inputs|] == inputs;
      ghost var x := Now();
      ok := End();
      EndIsOrderly(Fixed(), x, ok);
    }

    method End() returns (ok: bool)
      requires Rigged()
      modifies workers, fw.ipt, fw.V6()
      ensures Ended(old(Now()), Now(), ok)
    {
      hide Shown, Clean, SmoothSweep;
      ok := Cleanup();
      workers.Stop();
    }
  }

  // --------------------------------------------------------------- the whole run

  datatype Failure = CleanupFailed | NoTtlTarget | NoIp6tables | NoHlTarget | CleanupIncomplete

  /** What becomes of the configured IPv6 mode on a system with these means. */
  predicate Suits(wanted: Config.Ipv6Mode, has6: bool, r: Result<V6Mode, Failure>) {
    match wanted
    case PassMode => r == Ok(Pass)
    case BlockMode => r == Ok(if has6 then Block else PassNoIp6tables)
    case NormalizeMode => if has6 then r == Ok(Normalize) || r == Err(NoHlTarget) else r == Err(NoIp6tables)
    case AutoMode => if has6 then r == Ok(Normalize) || r == Ok(Block) else r == Ok(PassNoIp6tables)
  }

  /** Normalisation is chosen whenever it is allowed and no command fails. */
  method ChooseV6(fw: Firewall, wanted: Config.Ipv6Mode, hl: nat) returns (r: Result<V6Mode, Failure>)
    modifies fw.V6()
    ensures Suits(wanted, fw.ip6t != null, r)
    ensures r == Ok(Normalize) ==> fw.ip6t.Took(old(|fw.ip6t.trace|), SetHopLimit(hl))
    ensures r == Err(NoHlTarget) || (wanted == Config.AutoMode && r == Ok(Block)) ==>
      fw.ip6t.faults > old(fw.ip6t.faults)
    ensures fw.ip6t != null ==> fw.ip6t.misreads >= old(fw.ip6t.misreads) && fw.ip6t.faults >= old(fw.ip6t.faults)
    ensures fw.ip6t != null && fw.ip6t.faults == old(fw.ip6t.faults) ==>
      (wanted == Config.AutoMode || wanted == Config.NormalizeMode ==> r == Ok(Normalize))
  {
    match wanted
    case PassMode =>
      r := Ok(Pass);
    case BlockMode =>
      r := Ok(if fw.ip6t != null then Block else PassNoIp6tables);
    case NormalizeMode =>
      if fw.ip6t == null {
        return Err(NoIp6tables);
      }
      var able := fw.ProbeHl(hl);
      r := if able then Ok(Normalize) else Err(NoHlTarget);
    case AutoMode =>
      if fw.ip6t == null {
        return Ok(PassNoIp6tables);
      }
      var able := fw.ProbeHl(hl);
      r := Ok(if able then Normalize else Block);
  }

  datatype Setup = Setup(backend: Config.Backend, ttl: nat, workers: nat, ipv6: Config.Ipv6Mode, hl: nat,
                         stallLimit: nat, maxFailures: nat, cooldown: nat)

  /** The backend, the number of workers and the IPv6 mode that this system supports. */
  datatype Means = Means(kernel: bool, count: nat, mode: V6Mode)

  /** Nothing failed since the old state, in either family. */
  twostate predicate Flawless(fw: Firewall)
    reads fw.ipt, fw.V6()
  {
    && fw.ipt.misreads == old(fw.ipt.misreads) && fw.ipt.faults == old(fw.ipt.faults)
    && (fw.ip6t != null ==> fw.ip6t.misreads == old(fw.ip6t.misreads) && fw.ip6t.faults == old(fw.ip6t.faults))
  }

  twostate predicate Counted(fw: Firewall)
    reads fw.ipt, fw.V6()
  {
    && fw.ipt.misreads >= old(fw.ipt.misreads) && fw.ipt.faults >= old(fw.ipt.faults)
    && (fw.ip6t != null ==> fw.ip6t.misreads >= old(fw.ip6t.misreads) && fw.ip6t.faults >= old(fw.ip6t.faults))
  }

  /** No jump of ours stands more often than a cleanup can delete it. */
  ghost predicate Sweepable(fw: Firewall)
    reads fw.ipt, fw.V6()
  {
    AllRemovable(fw.ipt.table, JUMPS4) && (fw.ip6t != null ==> AllRemovable(fw.ip6t.table, JUMPS6))
  }

  method FirstCleanup(fw: Firewall) returns (ok: bool)
    requires fw.Valid()
    modifies fw.ipt, fw.V6()
    ensures Counted(fw) && (Flawless(fw) && old(Sweepable(fw)) ==> ok)
    ensures old(|fw.ipt.trace|) <= |fw.ipt.trace|
    ensures fw.ip6t != null ==> old(|fw.ip6t.trace|) <= |fw.ip6t.trace|
  {
    hide SweepContract, Swept, AllRemovable, Unjumped;
    label L:
    ok := fw.Cleanup();
    ghost var ok4 :| (
      && SweepContract(fw.ipt.Since@L(), ok4, JUMPS4, SWEEP4)
      && (if ok4 && fw.ip6t != null then SweepContract(fw.ip6t.Since@L(), ok, JUMPS6, SWEEP6) else ok == ok4)
      && (!ok4 && fw.ip6t != null ==> fw.ip6t.table == old(fw.ip6t.table) && fw.ip6t.trace == old(fw.ip6t.trace)));
    SweepDelivers(fw.ipt.Since@L(), ok4, JUMPS4, SWEEP4);
    if ok4 && fw.ip6t != null {
      SweepDelivers(fw.ip6t.Since@L(), ok, JUMPS6, SWEEP6);
    }
  }

  /**
   The first cleanup and the probes. Without faults they succeed, unless the configuration asks for
   what is not there.
   */
  method Prepare(fw: Firewall, c: Setup) returns (r: Result<Means, Failure>)
    requires fw.Valid() && c.workers >= 1
    modifies fw.ipt, fw.V6()
    ensures Counted(fw)
    ensures Flawless(fw) && old(Sweepable(fw)) ==> (r.Ok? <==> !(c.ipv6 == Config.NormalizeMode && fw.ip6t == null))
    ensures Flawless(fw) && r.Ok? ==>
      (r.value.kernel <==> c.backend != Config.Nfqueue) && (!r.value.kernel ==> r.value.count == c.workers)
    ensures r.Ok? ==>
      && (c.backend == Config.Nfqueue ==> !r.value.kernel) && (c.backend == Config.KernelTarget ==> r.value.kernel)
      && (r.value.count == 1 || (!r.value.kernel && r.value.count == c.workers))
      && Suits(c.ipv6, fw.ip6t != null, Ok(r.value.mode))
    ensures r.Ok? && r.value.kernel ==> fw.ipt.Took(old(|fw.ipt.trace|), SetTtl(c.ttl))
    ensures r.Ok? && r.value.count > 1 ==> fw.ipt.Took(old(|fw.ipt.trace|), Queue(6464, 6463 + c.workers))
    ensures r.Ok? && r.value.mode == Normalize ==>
      fw.ip6t != null && fw.ip6t.Took(old(|fw.ip6t.trace|), SetHopLimit(c.hl))
    ensures r.Ok? && !r.value.kernel && (c.backend == Config.AutoBackend || r.value.count < c.workers) ==>
      fw.ipt.faults > old(fw.ipt.faults)
    ensures r == Err(NoTtlTarget) ==> c.backend == Config.KernelTarget && fw.ipt.faults > old(fw.ipt.faults)
    ensures r == Err(NoHlTarget) ==>
      c.ipv6 == Config.NormalizeMode && fw.ip6t != null && fw.ip6t.faults > old(fw.ip6t.faults)
    ensures r == Err(NoIp6tables) ==> c.ipv6 == Config.NormalizeMode && fw.ip6t == null
    ensures r == Err(CleanupFailed) ==> !(Flawless(fw) && old(Sweepable(fw)))
    ensures r.Err? ==> r.error != CleanupIncomplete
  {
    hide Unentangled, Sweepable;
    var clean := FirstCleanup(fw);
    if !clean {
      return Err(CleanupFailed);
    }
    var kernel := false;
    if c.backend != Config.Nfqueue {
      kernel := fw.ProbeTtl(c.ttl);
      if !kernel && c.backend == Config.KernelTarget {
        return Err(NoTtlTarget);
      }
    }
    var count := 1;
    if !kernel {
      var balanced := fw.ProbeBalance(c.workers);
      if balanced {
        count := c.workers;
      }
    }
    var mode := ChooseV6(fw, c.ipv6, c.hl);
    r := if mode.Err? then Err(mode.error) else Ok(Means(kernel, count, mode.value));
  }

  /**
   run_inner from the first cleanup on: unless it is refused at the start, it runs one turn for each input,
   from a state in which nothing is active, and ends with a cleanup and no workers.
   */
  method Supervise(fw: Firewall, c: Setup, inputs: seq<Input>)
    returns (r: Result<(), Failure>, ghost rig: Rig, ghost start: Snap, ghost turns: seq<Turn>, ghost end: Snap)
    requires fw.Valid() && c.workers >= 1 && 2 <= c.stallLimit <= 20 && forall i | i in inputs :: Sensible(i)
    modifies fw.ipt, fw.V6()
    ensures Flawless(fw) && old(Sweepable(fw)) && !(c.ipv6 == Config.NormalizeMode && fw.ip6t == null) ==>
      r.Ok? || r.error == CleanupIncomplete
    ensures r.Ok? || r.error == CleanupIncomplete ==>
      && start.active4 == None && start.active6 == None && start.running == [] && start.log == [] && start.first
      && start.health.failures == 0 && (start.health.workers == 1 || start.health.workers == c.workers)
      && rig == Rig(rig.kernel, rig.mode, c.ttl, c.hl, c.stallLimit, c.maxFailures)
      && (c.backend == Config.Nfqueue ==> !rig.kernel) && (c.backend == Config.KernelTarget ==> rig.kernel)
      && Suits(c.ipv6, fw.ip6t != null, Ok(rig.mode))
      && History(rig, start, turns) && Inputs(turns) == inputs && Ended(Final(start, turns), end, r.Ok?)
      && end.fw == Shown(fw) && Orderly(end.log)
  {
    var workers := new Workers();
    NothingYet();
    hide Orderly, Sensible, Sweepable, History, Ended, Inputs;
    var means := Prepare(fw, c);
    if means.Err? {
      r := Err(means.error);
      rig, start, turns, end := *, *, *, *;
      return;
    }
    var Means(kernel, count, mode) := means.value;
    var s := new Supervisor(fw, workers, kernel, mode, c.ttl, c.hl, count, c.stallLimit, c.maxFailures, c.cooldown);
    rig, start := s.Fixed(), s.Now();
    var ok;
    ok, turns := s.Run(inputs);
    end := s.Now();
    r := if ok then Ok(()) else Err(CleanupIncomplete);
  }

  lemma NothingYet()
    ensures Orderly([])
  {
  }
}
