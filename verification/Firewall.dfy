/** The two address families together: install4/6, the probes and cleanup as the supervisor calls them. */
module Firewall {
  import opened Wrappers
  import opened Iptables
  import opened Net
  import opened Payloads
  import opened Mangles
  import opened Coverage

  const JUMPS4: seq<Chain> := [Hook, V30h, V30a, V30b, V29a, V29b, OldForward]
  const SWEEP4: seq<Chain> := [Hook, PayloadA, PayloadB, V30h, V30a, V30b, V29a, V29b, OldForward]
  const JUMPS6: seq<Chain> := [Hook, V30h, V30a, V30b]
  const SWEEP6: seq<Chain> := [Hook, PayloadA, PayloadB, V30h, V30a, V30b]

  function Swept(sweep: seq<Chain>): set<Chain> { {Forward} + set c | c in sweep }

  predicate Passes(mode: V6Mode) { mode == Pass || mode == PassNoIp6tables }

  class Firewall {
    const ipt: Mangle
    const ip6t: Mangle?

    constructor (ipt: Mangle, ip6t: Mangle?)
      requires ipt != ip6t
      ensures this.ipt == ipt && this.ip6t == ip6t && Valid()
    {
      this.ipt, this.ip6t := ipt, ip6t;
    }

    predicate Valid() { ipt != ip6t }

    function V6(): set<object> { if ip6t == null then {} else {ip6t} }

    method Cleanup4() returns (ok: bool)
      modifies ipt
      ensures ipt.Touched(old(ipt.trace), old(ipt.table), Swept(SWEEP4))
      ensures SweepContract(ipt.Since(), ok, JUMPS4, SWEEP4)
      ensures ipt.Counted(old(ipt.faults), old(ipt.replaceFaults), old(ipt.misreads))
    {
      ok := ipt.Sweep(JUMPS4, SWEEP4, Swept(SWEEP4));
    }

    method Cleanup6() returns (ok: bool)
      modifies V6()
      ensures ip6t == null ==> ok
      ensures ip6t != null ==> ip6t.Touched(old(ip6t.trace), old(ip6t.table), Swept(SWEEP6))
      ensures ip6t != null ==> SweepContract(ip6t.Since(), ok, JUMPS6, SWEEP6)
      ensures ip6t != null ==> ip6t.Counted(old(ip6t.faults), old(ip6t.replaceFaults), old(ip6t.misreads))
    {
      if ip6t == null {
        return true;
      }
      ok := ip6t.Sweep(JUMPS6, SWEEP6, Swept(SWEEP6));
    }

    /** cleanup: IPv6 is only cleaned once IPv4 was. */
    method Cleanup() returns (ok: bool)
      requires Valid()
      modifies ipt, V6()
      ensures ipt.Touched(old(ipt.trace), old(ipt.table), Swept(SWEEP4))
      ensures ip6t != null ==> ip6t.Touched(old(ip6t.trace), old(ip6t.table), Swept(SWEEP6))
      ensures exists ok4 :: (
        && SweepContract(ipt.Since(), ok4, JUMPS4, SWEEP4)
        && (if ok4 && ip6t != null then SweepContract(ip6t.Since(), ok, JUMPS6, SWEEP6) else ok == ok4)
        && (!ok4 && ip6t != null ==> ip6t.table == old(ip6t.table) && ip6t.trace == old(ip6t.trace)))
      ensures ipt.Counted(old(ipt.faults), old(ipt.replaceFaults), old(ipt.misreads))
      ensures ip6t != null ==> ip6t.Counted(old(ip6t.faults), old(ip6t.replaceFaults), old(ip6t.misreads))
    {
      ok := Cleanup4();
      ghost var ok4, r4 := ok, ipt.Since();
      if ok {
        ok := Cleanup6();
      }
      assert ipt.Since() == r4 && SweepContract(r4, ok4, JUMPS4, SWEEP4);
    }

    method ProbeTtl(ttl: nat) returns (ok: bool)
      modifies ipt
      ensures ipt.Touched(old(ipt.trace), old(ipt.table), {Probe})
      ensures ipt.Counted(old(ipt.faults), old(ipt.replaceFaults), old(ipt.misreads))
      ensures ipt.faults == old(ipt.faults) ==> ok && (Unentangled(old(ipt.table), [], [Probe]) ==> Probe !in ipt.table)
      ensures ok ==> ipt.Took(old(|ipt.trace|), SetTtl(ttl))
    {
      ok := ipt.TryTarget(SetTtl(ttl));
    }

    method ProbeHl(hl: nat) returns (ok: bool)
      modifies V6()
      ensures ip6t == null ==> !ok
      ensures ip6t != null ==> ip6t.Touched(old(ip6t.trace), old(ip6t.table), {Probe})
      ensures ip6t != null ==> ip6t.Counted(old(ip6t.faults), old(ip6t.replaceFaults), old(ip6t.misreads))
      ensures ip6t != null && ip6t.faults == old(ip6t.faults) ==>
        ok && (Unentangled(old(ip6t.table), [], [Probe]) ==> Probe !in ip6t.table)
      ensures ok ==> ip6t.Took(old(|ip6t.trace|), SetHopLimit(hl))
    {
      if ip6t == null {
        return false;
      }
      ok := ip6t.TryTarget(SetHopLimit(hl));
    }

    method ProbeBalance(workers: nat) returns (ok: bool)
      modifies ipt
      ensures workers <= 1 ==> !ok && ipt.table == old(ipt.table) && ipt.trace == old(ipt.trace)
      ensures workers > 1 ==> ipt.Touched(old(ipt.trace), old(ipt.table), {Probe})
      ensures ipt.Counted(old(ipt.faults), old(ipt.replaceFaults), old(ipt.misreads))
      ensures workers > 1 && ipt.faults == old(ipt.faults) ==>
        ok && (Unentangled(old(ipt.table), [], [Probe]) ==> Probe !in ipt.table)
      ensures ok ==> ipt.Took(old(|ipt.trace|), Queue(6464, 6463 + workers))
    {
      if workers <= 1 {
        return false;
      }
      ok := ipt.TryTarget(Queue(QUEUE_BASE, QUEUE_BASE + workers - 1));
    }

    method Install4(links: Links, kernel: bool, workers: nat, ttl: nat, active: Option<Chain>)
      returns (ok: bool, now: Option<Chain>)
      requires KnownSide(active)
      modifies ipt
      ensures ipt.Touched(old(ipt.trace), old(ipt.table), SWAPPED)
      ensures SwapContract(ipt.Since(), ok, links, Target4(kernel, workers, ttl), active, now)
      ensures Treated(ipt.Since(), ok, links, Target4(kernel, workers, ttl), active)
      ensures ok && ipt.misreads == old(ipt.misreads) && Quiet(ipt.table) && Classified(links) && workers >= 1 ==>
        Sends4(ipt.table, links, kernel, workers, ttl)
      ensures ipt.Counted(old(ipt.faults), old(ipt.replaceFaults), old(ipt.misreads))
    {
      ok, now := ipt.Swap(links, Target4(kernel, workers, ttl), active);
      StretchTreats(ipt.Since(), ok, links, Target4(kernel, workers, ttl), active, now);
      hide RulesOk, Treated, Target4, Quiet, Classified;
      if ok && ipt.misreads == old(ipt.misreads) && Quiet(ipt.table) && Classified(links) && workers >= 1 {
        RulesSend4(ipt.table, now, links, kernel, workers, ttl);
      }
    }

    method Install6(links: Links, mode: V6Mode, hl: nat, active: Option<Chain>) returns (ok: bool, now: Option<Chain>)
      requires KnownSide(active)
      modifies V6()
      ensures mode == Pass || mode == PassNoIp6tables ==> ok && now == None
      ensures ip6t != null ==> ip6t.Counted(old(ip6t.faults), old(ip6t.replaceFaults), old(ip6t.misreads))
      ensures Passes(mode) && ip6t != null ==>
        && ip6t.Touched(old(ip6t.trace), old(ip6t.table), Swept(SWEEP6))
        && exists swept :: SweepContract(ip6t.Since(), swept, JUMPS6, SWEEP6)
      ensures !Passes(mode) && ip6t == null ==> !ok && now == active
      ensures !Passes(mode) && ip6t != null ==>
        && ip6t.Touched(old(ip6t.trace), old(ip6t.table), SWAPPED)
        && SwapContract(ip6t.Since(), ok, links, Target6(mode, hl), active, now)
        && Treated(ip6t.Since(), ok, links, Target6(mode, hl), active)
        && (ok && ip6t.misreads == old(ip6t.misreads) && Quiet(ip6t.table) && Classified(links) ==>
              Sends6(ip6t.table, links, mode, hl))
    {
      if Passes(mode) {
        var swept := Cleanup6();
        assert ip6t != null ==> SweepContract(ip6t.Since(), swept, JUMPS6, SWEEP6);
        return true, None;
      }
      if ip6t == null {
        return mode == PassNoIp6tables, active;
      }
      ok, now := ip6t.Swap(links, Target6(mode, hl), active);
      StretchTreats(ip6t.Since(), ok, links, Target6(mode, hl), active, now);
      hide RulesOk, Treated, Target6, Quiet, Classified;
      if ok && ip6t.misreads == old(ip6t.misreads) && Quiet(ip6t.table) && Classified(links) {
        RulesSend6(ip6t.table, now, links, mode, hl);
      }
    }
  }

  /** What packets meet at every table of a swap that started from a quiet table. */
  ghost predicate Treated(r: Stretch, ok: bool, links: Links, target: Target, active: Option<Chain>) {
    && Leaves(Payload(links, target))
    && (Quiet(r.before) && r.readsTrue && r.replacesTrue && Intact(r.before, active) ==>
          AlwaysOldOrNew(r, links, target, active))
    && (ok && Quiet(r.before) && r.readsTrue && Intact(r.before, active) && Visible(r.before, links, target, active) ==>
          (AlwaysOldOrNew(r, links, target, active) <==> r.replacesTrue))
    && (Quiet(r.before) && r.readsTrue && Unhooked(r.before) ==>
          forall k | 0 <= k < |r.steps| :: NothingOrNew(r.steps[k], active, links, target))
  }

  ghost predicate AlwaysOldOrNew(r: Stretch, links: Links, target: Target, active: Option<Chain>)
    requires Leaves(Payload(links, target)) && Intact(r.before, active)
  {
    forall k | 0 <= k < |r.steps| :: OldOrNew(r.steps[k], r.before, active, links, target)
  }

  /** Both the payload in force and the new one hold a rule, so that a packet can tell. */
  predicate Visible(was: Table, links: Links, target: Target, active: Option<Chain>)
    requires active.Some?
  {
    At(was, active.value) != [] && Payload(links, target) != []
  }

  /** The swap contract, read as what happens to packets: never a partial payload, unless an -R failed for nothing. */
  lemma StretchTreats(r: Stretch, ok: bool, links: Links, target: Target, active: Option<Chain>, now: Option<Chain>)
    requires KnownSide(active) && !target.Jump?
    requires forall k | 0 <= k < |r.steps| :: View(r.steps[k]) == View(r.before)
    requires SwapContract(r, ok, links, target, active, now)
    ensures Treated(r, ok, links, target, active)
  {
    PayloadLeaves(links, |links.down|, target);
    assert Leaves(Payload(links, target));
    hide View, Serves, Rows;
    if Quiet(r.before) && r.readsTrue {
      forall k | 0 <= k < |r.steps|
        ensures r.replacesTrue && Intact(r.before, active) ==> OldOrNew(r.steps[k], r.before, active, links, target)
        ensures Unhooked(r.before) ==> NothingOrNew(r.steps[k], active, links, target)
      {
        if r.replacesTrue && Intact(r.before, active) {
          SwapTreats(r.steps[k], r.before, active, links, target);
        }
        if Unhooked(r.before) {
          FirstTreats(r.steps[k], r.before, active, links, target);
        }
      }
      if ok && !r.replacesTrue && Intact(r.before, active) && Visible(r.before, links, target, active) {
        EmptiedIsNeither(r, links, target, active);
      }
    }
  }

  lemma EmptiedIsNeither(r: Stretch, links: Links, target: Target, active: Option<Chain>)
    requires Emptied(r) && Quiet(r.before) && Intact(r.before, active) && Visible(r.before, links, target, active)
    requires Leaves(Payload(links, target)) && forall k | 0 <= k < |r.steps| :: View(r.steps[k]) == View(r.before)
    ensures !AlwaysOldOrNew(r, links, target, active)
  {
    hide View, Payload, OldOrNew;
    var k :| 0 <= k < |r.steps| && At(r.steps[k], Hook) == [] && r.steps[k][Forward] == r.before[Forward];
    EmptyHookIsNeither(r.steps[k], r.before, active, links, target);
  }

  // ------------------------------------------------------------ chains by name

  /** How often FORWARD jumps to c unconditionally. */
  function JumpCount(t: Table, c: Chain): nat { multiset(t[Forward])[Plain(c)] }

  lemma NoJumpLeft(s: seq<Rule>, jumps: seq<Chain>, c: Chain)
    requires c in jumps
    ensures multiset(Dropped(s, jumps, |jumps|))[Plain(c)] == 0
  {
    DroppedRules(s, jumps, |jumps|);
    var i :| 0 <= i < |jumps| && jumps[i] == c;
    assert Plain(jumps[i]) !in multiset(Dropped(s, jumps, |jumps|));
  }

  lemma FewJumps4(t: Table)
    ensures (forall i | 0 <= i < |JUMPS4| :: Removable(t, JUMPS4[i])) <==>
      forall c | c in {Hook, V30h, V30a, V30b, V29a, V29b, OldForward} :: JumpCount(t, c) <= 15
  {
    Listed4();
    assert forall i | 0 <= i < |JUMPS4| :: JUMPS4[i] in {Hook, V30h, V30a, V30b, V29a, V29b, OldForward};
    assert forall i | 0 <= i < |JUMPS4| :: Removable(t, JUMPS4[i]) <==> JumpCount(t, JUMPS4[i]) <= 15;
  }

  lemma FewJumps6(t: Table)
    ensures (forall i | 0 <= i < |JUMPS6| :: Removable(t, JUMPS6[i])) <==>
      forall c | c in {Hook, V30h, V30a, V30b} :: JumpCount(t, c) <= 15
  {
    Listed6();
    assert forall i | 0 <= i < |JUMPS6| :: JUMPS6[i] in {Hook, V30h, V30a, V30b};
    assert forall i | 0 <= i < |JUMPS6| :: Removable(t, JUMPS6[i]) <==> JumpCount(t, JUMPS6[i]) <= 15;
  }

  /** cleanup4, chain by chain: what is gone after it, and when it succeeds. */
  lemma Cleaned4(r: Stretch, ok: bool)
    requires SweepContract(r, ok, JUMPS4, SWEEP4)
    ensures ok && r.readsTrue ==>
      forall c | c in {Hook, V30h, V30a, V30b, V29a, V29b, OldForward} :: JumpCount(r.after, c) == 0
    ensures r.faultFree && r.readsTrue ==>
      (ok <==> forall c | c in {Hook, V30h, V30a, V30b, V29a, V29b, OldForward} :: JumpCount(r.before, c) <= 15)
    ensures ok && r.faultFree && r.readsTrue && Unentangled(r.before, JUMPS4, SWEEP4) ==>
      forall c | c in {Hook, PayloadA, PayloadB, V30h, V30a, V30b, V29a, V29b, OldForward} :: c !in r.after
  {
    Listed4();
    FewJumps4(r.before);
    forall c | c in {Hook, V30h, V30a, V30b, V29a, V29b, OldForward}
      ensures multiset(Dropped(r.before[Forward], JUMPS4, |JUMPS4|))[Plain(c)] == 0
    {
      assert c in JUMPS4;
      NoJumpLeft(r.before[Forward], JUMPS4, c);
    }
    hide Unentangled, Dropped, Removable;
  }

  lemma Listed4()
    ensures JUMPS4[0] == Hook && JUMPS4[1] == V30h && JUMPS4[2] == V30a && JUMPS4[3] == V30b && JUMPS4[4] == V29a
    ensures JUMPS4[5] == V29b && JUMPS4[6] == OldForward && |JUMPS4| == 7
    ensures SWEEP4[0] == Hook && SWEEP4[1] == PayloadA && SWEEP4[2] == PayloadB && SWEEP4[3] == V30h
    ensures SWEEP4[4] == V30a && SWEEP4[5] == V30b && SWEEP4[6] == V29a
    ensures SWEEP4[7] == V29b && SWEEP4[8] == OldForward && |SWEEP4| == 9
  {
  }

  /** cleanup6, likewise. */
  lemma Cleaned6(r: Stretch, ok: bool)
    requires SweepContract(r, ok, JUMPS6, SWEEP6)
    ensures ok && r.readsTrue ==> forall c | c in {Hook, V30h, V30a, V30b} :: JumpCount(r.after, c) == 0
    ensures r.faultFree && r.readsTrue ==>
      (ok <==> forall c | c in {Hook, V30h, V30a, V30b} :: JumpCount(r.before, c) <= 15)
    ensures ok && r.faultFree && r.readsTrue && Unentangled(r.before, JUMPS6, SWEEP6) ==>
      forall c | c in {Hook, PayloadA, PayloadB, V30h, V30a, V30b} :: c !in r.after
  {
    Listed6();
    FewJumps6(r.before);
    forall c | c in {Hook, V30h, V30a, V30b}
      ensures multiset(Dropped(r.before[Forward], JUMPS6, |JUMPS6|))[Plain(c)] == 0
    {
      assert c in JUMPS6;
      NoJumpLeft(r.before[Forward], JUMPS6, c);
    }
    hide Unentangled, Dropped, Removable;
  }

  lemma Listed6()
    ensures JUMPS6[0] == Hook && JUMPS6[1] == V30h && JUMPS6[2] == V30a && JUMPS6[3] == V30b && |JUMPS6| == 4
    ensures SWEEP6[0] == Hook && SWEEP6[1] == PayloadA && SWEEP6[2] == PayloadB && SWEEP6[3] == V30h
    ensures SWEEP6[4] == V30a && SWEEP6[5] == V30b && |SWEEP6| == 6
  {
  }

  /** Nothing failing, a swap succeeds from any table that jumps to the hook at most 15 times, and from no other. */
  lemma SwapSucceeds(r: Stretch, ok: bool, links: Links, target: Target, active: Option<Chain>, now: Option<Chain>)
    requires SwapContract(r, ok, links, target, active, now) && r.faultFree && r.readsTrue
    ensures ok <==> JumpCount(r.before, Hook) <= 15
  {
  }
}
