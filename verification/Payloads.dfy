/**
 When a table is in order: the hook first in FORWARD, one payload behind it, and the
 payload that a set of links calls for.
 */
module Payloads {
  import opened Wrappers
  import opened Iptables
  import opened Net

  const QUEUE_BASE: nat := 6464
  const MAX_DUPLICATE_JUMPS: nat := 15

  // ------------------------------------------------------------ specification

  /** FORWARD starts with the jump to the hook chain and holds no second one. */
  predicate HookOk(t: Table) {
    t[Forward] != [] && t[Forward][0] == Plain(Hook) && Plain(Hook) !in t[Forward][1..]
  }

  function Row(i: string, up: seq<string>, n: nat, target: Target): (rules: seq<Rule>)
    requires n <= |up|
  {
    if n == 0 then []
    else Row(i, up, n - 1, target) + (if i == up[n - 1] then [] else [Rule(Some(i), Some(up[n - 1]), None, target)])
  }

  lemma RowSnoc(i: string, up: seq<string>, n: nat, target: Target)
    requires n < |up|
    ensures Row(i, up, n + 1, target) ==
      Row(i, up, n, target) + (if i == up[n] then [] else [Rule(Some(i), Some(up[n]), None, target)])
  {
  }

  lemma RowNone(i: string, up: seq<string>, target: Target)
    ensures Row(i, up, 0, target) == []
  {
  }

  /** The payload for the first n downstream interfaces: one rule per pair of different interfaces. */
  function Rows(links: Links, n: nat, target: Target): (rules: seq<Rule>)
    requires n <= |links.down|
  {
    if n == 0 then [] else Rows(links, n - 1, target) + Row(links.down[n - 1], links.up, |links.up|, target)
  }

  function Payload(links: Links, target: Target): seq<Rule> { Rows(links, |links.down|, target) }

  function At(t: Table, c: Chain): seq<Rule> { if c in t then t[c] else [] }

  /** FORWARD, the hook and payload chain c together give exactly `payload`, before any foreign rule. */
  predicate Serves(t: Table, c: Chain, payload: seq<Rule>) {
    HookOk(t) && At(t, Hook) == [Plain(c)] && At(t, c) == payload
  }

  predicate Unhooked(t: Table) { Plain(Hook) !in t[Forward] }

  /** Few enough jumps to c for the bounded deletion loop. */
  predicate Removable(t: Table, c: Chain) { multiset(t[Forward])[Plain(c)] <= MAX_DUPLICATE_JUMPS }

  predicate Pointed(t: Table) { HookOk(t) && |At(t, Hook)| == 1 }

  predicate Side(c: Chain) { c == PayloadA || c == PayloadB }

  predicate KnownSide(active: Option<Chain>) { active.Some? ==> Side(active.value) }

  function OtherSide(active: Option<Chain>): Chain { if active == Some(PayloadA) then PayloadB else PayloadA }

  predicate RulesOk(t: Table, active: Option<Chain>, links: Links, target: Target) {
    active.Some? && Serves(t, active.value, Payload(links, target))
  }

  function Target4(kernel: bool, workers: nat, ttl: nat): Target {
    if kernel then SetTtl(ttl)
    else if workers > 1 then Queue(QUEUE_BASE, QUEUE_BASE + workers - 1)
    else Queue(QUEUE_BASE, QUEUE_BASE)
  }

  datatype V6Mode = Pass | PassNoIp6tables | Normalize | Block

  function Target6(mode: V6Mode, hl: nat): Target { if mode == Normalize then SetHopLimit(hl) else Drop }

  const SWAPPED: set<Chain> := {Forward, Hook, PayloadA, PayloadB}

  predicate Leaves(rules: seq<Rule>) { forall i | 0 <= i < |rules| :: !rules[i].target.Jump? }

  /** The active side is in force and holds no jumps. */
  predicate Intact(t: Table, active: Option<Chain>) {
    active.Some? && Side(active.value) && Serves(t, active.value, At(t, active.value)) && Leaves(At(t, active.value))
  }

  /** Either the payload that was in force is untouched, or the complete new one is in force. */
  predicate SwapState(t: Table, was: Table, active: Option<Chain>, links: Links, target: Target)
    requires active.Some?
  {
    Serves(t, active.value, At(was, active.value)) || Serves(t, OtherSide(active), Payload(links, target))
  }

  /** Either FORWARD is as it was, or the only change is the hook on top, with the complete payload behind it. */
  predicate FirstState(t: Table, was: Table, c: Chain, payload: seq<Rule>) {
    || t[Forward] == was[Forward]
    || (t[Forward] == [Plain(Hook)] + was[Forward] && At(t, Hook) == [Plain(c)] && At(t, c) == payload)
  }

  lemma {:induction false} PayloadLeaves(links: Links, n: nat, target: Target)
    requires n <= |links.down| && !target.Jump?
    ensures Leaves(Rows(links, n, target))
  {
    if n > 0 {
      PayloadLeaves(links, n - 1, target);
      RowLeaves(links.down[n - 1], links.up, |links.up|, target);
    }
  }

  lemma {:induction false} RowLeaves(i: string, up: seq<string>, n: nat, target: Target)
    requires n <= |up| && !target.Jump?
    ensures Leaves(Row(i, up, n, target))
  {
    if n > 0 {
      RowLeaves(i, up, n - 1, target);
    }
  }

  // ----------------------------------------------------- stretches of a run

  /**
   A stretch of commands: the table before and after, the table after each command,
   and whether no write failed for nothing, no read failed, and no -R failed for nothing.
   */
  datatype Stretch = Stretch(before: Table, steps: seq<Table>, after: Table,
                             faultFree: bool, readsTrue: bool, replacesTrue: bool)

  /** Some table of the stretch has an empty hook behind an unchanged FORWARD. */
  predicate Emptied(r: Stretch) {
    exists k | 0 <= k < |r.steps| :: At(r.steps[k], Hook) == [] && r.steps[k][Forward] == r.before[Forward]
  }

  /** The hook chain exists, and -R was tried if a side was active. */
  predicate ReplaceContract(r: Stretch, replaced: bool, next: Chain, active: Option<Chain>) {
    && (r.faultFree ==> Hook in r.after && (next in r.before ==> next in r.after))
    && (replaced ==> r.replacesTrue && At(r.after, Hook) != [] && At(r.after, Hook)[0] == Plain(next))
    && (r.replacesTrue && active.Some? && |At(r.before, Hook)| == 1 && next in r.before ==>
          replaced && r.after == r.before[Hook := [Plain(next)]]
          && forall k | 0 <= k < |r.steps| :: r.steps[k] == r.before || r.steps[k] == r.after)
  }

  /** The fallback: the hook is emptied and filled again. */
  predicate RefillContract(r: Stretch, ok: bool, next: Chain) {
    && r.replacesTrue
    && (ok ==> At(r.after, Hook) == [Plain(next)] && Emptied(r))
    && (r.faultFree && Hook in r.before && next in r.before ==> ok)
  }

  /** The hook's first entry is made to jump to `next`; after a failed -R only by emptying the hook. */
  predicate PointContract(r: Stretch, ok: bool, next: Chain, active: Option<Chain>) {
    && (ok ==> At(r.after, Hook) != [] && At(r.after, Hook)[0] == Plain(next))
    && (r.faultFree && next in r.before ==> ok)
    && (ok && !r.replacesTrue ==> Emptied(r))
    && (r.replacesTrue && active.Some? && |At(r.before, Hook)| == 1 && next in r.before ==>
          ok && r.after == r.before[Hook := [Plain(next)]]
          && forall k | 0 <= k < |r.steps| :: r.steps[k] == r.before || r.steps[k] == r.after)
  }

  /** Hook entries after the first are deleted. */
  predicate TrimContract(r: Stretch, ok: bool) {
    At(r.before, Hook) != [] ==>
      && (ok && r.readsTrue ==> At(r.after, Hook) == [At(r.before, Hook)[0]])
      && (r.faultFree ==> ok)
      && (|At(r.before, Hook)| == 1 ==> ok && r.after == r.before && r.steps == [])
  }

  /** After both, the hook holds one entry, the jump to `next`. */
  predicate PreparedContract(r: Stretch, ok: bool, next: Chain, active: Option<Chain>) {
    && (ok && r.readsTrue ==> At(r.after, Hook) == [Plain(next)])
    && (r.faultFree && next in r.before ==> ok)
    && (ok && !r.replacesTrue ==> Emptied(r))
    && (r.replacesTrue && active.Some? && |At(r.before, Hook)| == 1 && next in r.before ==>
          ok && r.after == r.before[Hook := [Plain(next)]]
          && forall k | 0 <= k < |r.steps| :: r.steps[k] == r.before || r.steps[k] == r.after)
  }

  /** Unless it is first and single, the jump to the hook is deleted everywhere and inserted on top. */
  predicate AttachContract(r: Stretch, ok: bool) {
    && (ok && r.readsTrue ==> HookOk(r.after))
    && (r.faultFree && r.readsTrue ==> (ok <==> Removable(r.before, Hook)))
    && (r.readsTrue && HookOk(r.before) ==> ok && r.after == r.before && r.steps == [])
    && (r.readsTrue && Unhooked(r.before) ==>
          forall k | 0 <= k < |r.steps| ::
            r.steps[k] == r.before || r.steps[k] == r.before[Forward := [Plain(Hook)] + r.before[Forward]])
  }

  /** Nothing outside the given chains changes along the stretch. */
  predicate Within(r: Stretch, chains: set<Chain>) {
    && Except(r.after, chains) == Except(r.before, chains)
    && forall k | 0 <= k < |r.steps| :: Except(r.steps[k], chains) == Except(r.before, chains)
  }

  predicate Last(r: Stretch) { r.after == if r.steps == [] then r.before else r.steps[|r.steps| - 1] }

  /** What `activate` achieves. */
  predicate ActivateContract(r: Stretch, ok: bool, next: Chain, active: Option<Chain>) {
    && (ok && r.readsTrue ==> HookOk(r.after) && At(r.after, Hook) == [Plain(next)])
    && (r.faultFree && r.readsTrue && next in r.before ==> (ok <==> Removable(r.before, Hook)))
    && (ok && !r.replacesTrue ==> Emptied(r))
    && (r.replacesTrue && r.readsTrue && active.Some? && next in r.before && Pointed(r.before) ==>
          forall k | 0 <= k < |r.steps| :: r.steps[k] == r.before || r.steps[k] == r.before[Hook := [Plain(next)]])
    && (r.readsTrue && Unhooked(r.before) ==>
          forall k | 0 <= k < |r.steps| ::
            || r.steps[k][Forward] == r.before[Forward]
            || (r.steps[k][Forward] == [Plain(Hook)] + r.before[Forward] && At(r.steps[k], Hook) == [Plain(next)]))
  }

  /** From an intact state, with no -R failing for nothing, every table on the way is a swap state. */
  predicate IntactSteps(r: Stretch, links: Links, target: Target, active: Option<Chain>) {
    r.replacesTrue && r.readsTrue && Intact(r.before, active) ==>
      forall k | 0 <= k < |r.steps| ::
        r.steps[k][Forward] == r.before[Forward] && SwapState(r.steps[k], r.before, active, links, target)
  }

  /** From an unhooked state every table on the way is a first state. */
  predicate UnhookedSteps(r: Stretch, links: Links, target: Target, active: Option<Chain>) {
    r.readsTrue && Unhooked(r.before) ==>
      forall k | 0 <= k < |r.steps| :: FirstState(r.steps[k], r.before, OtherSide(active), Payload(links, target))
  }

  /** What a swap achieves: its outcome, and the state of every table on the way. */
  predicate SwapContract(r: Stretch, ok: bool, links: Links, target: Target, active: Option<Chain>,
                         now: Option<Chain>) {
    && now == (if ok then Some(OtherSide(active)) else active)
    && (ok && r.readsTrue ==> RulesOk(r.after, now, links, target))
    && (r.faultFree && r.readsTrue ==> (ok <==> Removable(r.before, Hook)))
    && (ok && !r.replacesTrue ==> Emptied(r))
    && IntactSteps(r, links, target, active) && UnhookedSteps(r, links, target, active)
  }

  /** What a sweep over the listed jumps and chains achieves. */
  predicate SweepContract(r: Stretch, ok: bool, jumps: seq<Chain>, sweep: seq<Chain>) {
    && (ok && r.readsTrue ==> r.after[Forward] == Dropped(r.before[Forward], jumps, |jumps|))
    && (r.faultFree && r.readsTrue ==> (ok <==> forall i | 0 <= i < |jumps| :: Removable(r.before, jumps[i])))
    && (ok && r.faultFree && r.readsTrue && Unentangled(r.before, jumps, sweep) ==>
          forall i | 0 <= i < |sweep| :: sweep[i] !in r.after)
  }

  /** Two stretches in a row. */
  function Join(a: Stretch, b: Stretch): Stretch {
    Stretch(a.before, a.steps + b.steps, b.after, a.faultFree && b.faultFree, a.readsTrue && b.readsTrue,
            a.replacesTrue && b.replacesTrue)
  }

  /** Loading leaves FORWARD, the hook and the active side alone, so the rest of the swap starts from the same state. */
  lemma SwapAfterLoad(a: Stretch, b: Stretch, ok: bool, links: Links, target: Target, active: Option<Chain>,
                      now: Option<Chain>)
    requires KnownSide(active) && b.before == a.after && a.readsTrue && a.replacesTrue
    requires Except(a.after, {OtherSide(active)}) == Except(a.before, {OtherSide(active)})
    requires forall k | 0 <= k < |a.steps| ::
      Except(a.steps[k], {OtherSide(active)}) == Except(a.before, {OtherSide(active)})
    requires SwapContract(b, ok, links, target, active, now)
    ensures SwapContract(Join(a, b), ok, links, target, active, now)
  {
    SameElsewhere(a.after, a.before, OtherSide(active), active);
    LoadedIntact(a, b, links, target, active);
    LoadedUnhooked(a, b, links, target, active);
    EmptiedJoins(a, b);
    hide Emptied, IntactSteps, UnhookedSteps, RulesOk, Except;
  }

  lemma LoadedIntact(a: Stretch, b: Stretch, links: Links, target: Target, active: Option<Chain>)
    requires KnownSide(active) && b.before == a.after
    requires Except(a.after, {OtherSide(active)}) == Except(a.before, {OtherSide(active)})
    requires forall k | 0 <= k < |a.steps| ::
      Except(a.steps[k], {OtherSide(active)}) == Except(a.before, {OtherSide(active)})
    requires IntactSteps(b, links, target, active)
    ensures IntactSteps(Join(a, b), links, target, active)
  {
    var next := OtherSide(active);
    SameElsewhere(a.after, a.before, next, active);
    if Intact(a.before, active) {
      forall k | 0 <= k < |a.steps|
        ensures a.steps[k][Forward] == a.before[Forward] && SwapState(a.steps[k], a.before, active, links, target)
      {
        SameElsewhere(a.steps[k], a.before, next, active);
      }
    }
    hide Except, Payload, HookOk, Leaves;
  }

  lemma LoadedUnhooked(a: Stretch, b: Stretch, links: Links, target: Target, active: Option<Chain>)
    requires KnownSide(active) && b.before == a.after
    requires Except(a.after, {OtherSide(active)}) == Except(a.before, {OtherSide(active)})
    requires forall k | 0 <= k < |a.steps| ::
      Except(a.steps[k], {OtherSide(active)}) == Except(a.before, {OtherSide(active)})
    requires UnhookedSteps(b, links, target, active)
    ensures UnhookedSteps(Join(a, b), links, target, active)
  {
    hide Payload;
    var next := OtherSide(active);
    SameElsewhere(a.after, a.before, next, active);
    forall k | 0 <= k < |a.steps|
      ensures a.steps[k][Forward] == a.before[Forward]
    {
      SameElsewhere(a.steps[k], a.before, next, active);
    }
  }

  /** A swap that stops while loading. */
  lemma SwapStopped(a: Stretch, links: Links, target: Target, active: Option<Chain>)
    requires KnownSide(active) && !a.faultFree
    requires forall k | 0 <= k < |a.steps| ::
      Except(a.steps[k], {OtherSide(active)}) == Except(a.before, {OtherSide(active)})
    ensures SwapContract(a, false, links, target, active, active)
  {
    forall k | 0 <= k < |a.steps|
      ensures a.steps[k][Forward] == a.before[Forward]
      ensures Intact(a.before, active) ==> SwapState(a.steps[k], a.before, active, links, target)
    {
      SameElsewhere(a.steps[k], a.before, OtherSide(active), active);
    }
  }

  lemma SameElsewhere(t: Table, was: Table, next: Chain, active: Option<Chain>)
    requires Side(next) && active != Some(next) && Except(t, {next}) == Except(was, {next})
    ensures t[Forward] == was[Forward] && At(t, Hook) == At(was, Hook)
    ensures active.Some? ==> At(t, active.value) == At(was, active.value)
  {
    ExceptSame(t, was, {next}, Forward);
    ExceptSame(t, was, {next}, Hook);
    if active.Some? {
      ExceptSame(t, was, {next}, active.value);
    }
  }

  lemma SameForward(r: Stretch)
    requires Within(r, {Hook})
    ensures r.after[Forward] == r.before[Forward]
    ensures forall k | 0 <= k < |r.steps| :: r.steps[k][Forward] == r.before[Forward]
  {
    ExceptSame(r.after, r.before, {Hook}, Forward);
    forall k | 0 <= k < |r.steps|
      ensures r.steps[k][Forward] == r.before[Forward]
    {
      ExceptSame(r.steps[k], r.before, {Hook}, Forward);
    }
  }

  /** An empty hook stays on record in a longer stretch. */
  lemma EmptiedJoins(a: Stretch, b: Stretch)
    ensures Emptied(a) ==> Emptied(Join(a, b))
    ensures Emptied(b) && b.before[Forward] == a.before[Forward] ==> Emptied(Join(a, b))
  {
    if Emptied(a) {
      var k :| 0 <= k < |a.steps| && At(a.steps[k], Hook) == [] && a.steps[k][Forward] == a.before[Forward];
      assert Join(a, b).steps[k] == a.steps[k];
    }
    if Emptied(b) && b.before[Forward] == a.before[Forward] {
      var k :| 0 <= k < |b.steps| && At(b.steps[k], Hook) == [] && b.steps[k][Forward] == b.before[Forward];
      assert Join(a, b).steps[|a.steps| + k] == b.steps[k];
    }
  }

  lemma PointByReplace(c: Stretch, next: Chain, active: Option<Chain>)
    requires ReplaceContract(c, true, next, active)
    ensures PointContract(c, true, next, active)
  {
  }

  lemma PointByRefill(c: Stretch, f: Stretch, ok: bool, next: Chain, active: Option<Chain>)
    requires ReplaceContract(c, false, next, active) && RefillContract(f, ok, next)
    requires f.before == c.after && Within(c, {Hook})
    ensures PointContract(Join(c, f), ok, next, active)
  {
    SameForward(c);
    hide Emptied, Except;
    EmptiedJoins(c, f);
  }

  lemma PointOnly(p: Stretch, ok: bool, next: Chain, active: Option<Chain>)
    requires PointContract(p, ok, next, active)
    ensures ok ==> At(p.after, Hook) != []
    ensures !ok ==> PreparedContract(p, ok, next, active)
  {
  }

  lemma PointThenTrim(p: Stretch, t: Stretch, ok: bool, next: Chain, active: Option<Chain>)
    requires p.after == t.before && PointContract(p, true, next, active) && TrimContract(t, ok) && t.replacesTrue
    ensures PreparedContract(Join(p, t), ok, next, active)
  {
    hide Emptied;
    EmptiedJoins(p, t);
  }

  lemma ActivateDone(p: Stretch, a: Stretch, ok: bool, next: Chain, active: Option<Chain>)
    requires p.after == a.before && Within(p, {Hook}) && Within(a, {Forward})
    requires PreparedContract(p, true, next, active) && AttachContract(a, ok) && a.replacesTrue
    ensures ActivateContract(Join(p, a), ok, next, active)
  {
    hide Emptied;
    EmptiedJoins(p, a);
    SameForward(p);
    ExceptSame(a.after, a.before, {Forward}, Hook);
    hide Except;
  }

  lemma ActivateUnprepared(p: Stretch, next: Chain, active: Option<Chain>)
    requires Within(p, {Hook}) && PreparedContract(p, false, next, active)
    ensures ActivateContract(p, false, next, active)
  {
    SameForward(p);
    hide Except;
  }

  /** The last command of a swap: nothing, or the flush of the side that was active. */
  predicate Emptying(b: Stretch, ok: bool, active: Option<Chain>) {
    || (b.steps == [] && b.after == b.before)
    || (ok && active.Some? && b.steps == [b.after] && (b.after == b.before || b.after == b.before[active.value := []]))
  }

  /** Once the loaded side is active, emptying the old one changes nothing a packet meets. */
  lemma SwapAfterActivate(a: Stretch, b: Stretch, ok: bool, links: Links, target: Target, active: Option<Chain>)
    requires KnownSide(active) && ActivateContract(a, ok, OtherSide(active), active) && OtherSide(active) in a.before
    requires At(a.before, OtherSide(active)) == Payload(links, target)
    requires At(a.after, OtherSide(active)) == Payload(links, target)
    requires forall k | 0 <= k < |a.steps| :: At(a.steps[k], OtherSide(active)) == Payload(links, target)
    requires a.after == if a.steps == [] then a.before else a.steps[|a.steps| - 1]
    requires b.before == a.after && b.readsTrue && b.replacesTrue && Emptying(b, ok, active)
    ensures SwapContract(Join(a, b), ok, links, target, active, if ok then Some(OtherSide(active)) else active)
  {
    hide Payload, Emptied, IntactSteps, UnhookedSteps;
    EmptiedJoins(a, b);
    ActivatedIntact(a, b, ok, links, target, active);
    ActivatedUnhooked(a, b, ok, links, target, active);
  }

  lemma ActivatedIntact(a: Stretch, b: Stretch, ok: bool, links: Links, target: Target, active: Option<Chain>)
    requires KnownSide(active) && ActivateContract(a, ok, OtherSide(active), active) && OtherSide(active) in a.before
    requires At(a.before, OtherSide(active)) == Payload(links, target)
    requires At(a.after, OtherSide(active)) == Payload(links, target)
    requires forall k | 0 <= k < |a.steps| :: At(a.steps[k], OtherSide(active)) == Payload(links, target)
    requires a.after == if a.steps == [] then a.before else a.steps[|a.steps| - 1]
    requires b.before == a.after && b.readsTrue && b.replacesTrue && Emptying(b, ok, active)
    ensures IntactSteps(Join(a, b), links, target, active)
  {
    hide Payload, Emptied;
    if a.replacesTrue && a.readsTrue && Intact(a.before, active) {
      forall k | 0 <= k < |a.steps|
        ensures a.steps[k][Forward] == a.before[Forward] && SwapState(a.steps[k], a.before, active, links, target)
      {
      }
      assert ok ==> At(a.after, Hook) == [Plain(OtherSide(active))];
    }
  }

  lemma ActivatedUnhooked(a: Stretch, b: Stretch, ok: bool, links: Links, target: Target, active: Option<Chain>)
    requires KnownSide(active) && ActivateContract(a, ok, OtherSide(active), active) && OtherSide(active) in a.before
    requires At(a.before, OtherSide(active)) == Payload(links, target)
    requires At(a.after, OtherSide(active)) == Payload(links, target)
    requires forall k | 0 <= k < |a.steps| :: At(a.steps[k], OtherSide(active)) == Payload(links, target)
    requires a.after == if a.steps == [] then a.before else a.steps[|a.steps| - 1]
    requires b.before == a.after && b.readsTrue && b.replacesTrue && Emptying(b, ok, active)
    ensures UnhookedSteps(Join(a, b), links, target, active)
  {
    hide Payload, Emptied;
  }

  // ------------------------------------------- tables up to a set of chains

  function Except(t: Table, chains: set<Chain>): map<Chain, seq<Rule>> {
    var m: map<Chain, seq<Rule>> := t;
    m - chains
  }

  lemma ExceptWiden(t: Table, u: Table, chains: set<Chain>, more: set<Chain>)
    requires Except(t, chains) == Except(u, chains) && chains <= more
    ensures Except(t, more) == Except(u, more)
  {
    var a, b := Except(t, more), Except(u, more);
    forall c
      ensures (c in a <==> c in b) && (c in a ==> a[c] == b[c])
    {
      ExceptSame(t, u, chains, c);
    }
  }

  lemma ExceptSame(t: Table, u: Table, chains: set<Chain>, c: Chain)
    requires Except(t, chains) == Except(u, chains)
    ensures c !in chains ==> (c in t <==> c in u) && At(t, c) == At(u, c)
  {
    if c !in chains {
      assert c in t <==> c in Except(t, chains);
      assert c in u <==> c in Except(u, chains);
      if c in t {
        assert Except(t, chains)[c] == t[c];
        assert Except(u, chains)[c] == u[c];
      }
    }
  }

  // ----------------------------------------------------------- purging a rule

  function Purge(s: seq<Rule>, r: Rule): (rest: seq<Rule>) {
    if s == [] then [] else (if s[0] == r then [] else [s[0]]) + Purge(s[1..], r)
  }

  lemma {:induction false} PurgeKeepsOthers(s: seq<Rule>, r: Rule)
    ensures r !in Purge(s, r)
    ensures r !in s ==> Purge(s, r) == s
    ensures forall x :: x in Purge(s, r) <==> x in s && x != r
  {
    if s != [] {
      PurgeKeepsOthers(s[1..], r);
      assert s == [s[0]] + s[1..];
    }
  }

  lemma {:induction false} PurgeAfterRemove(s: seq<Rule>, r: Rule)
    requires r in s
    ensures Purge(RemoveFirst(s, r), r) == Purge(s, r)
  {
    if s[0] != r {
      var rest := RemoveFirst(s[1..], r);
      assert ([s[0]] + rest)[1..] == rest;
      PurgeAfterRemove(s[1..], r);
    }
  }

  lemma {:induction false} PurgeCounts(s: seq<Rule>, r: Rule)
    ensures forall x :: multiset(Purge(s, r))[x] == if x == r then 0 else multiset(s)[x]
  {
    if s != [] {
      PurgeCounts(s[1..], r);
      assert s == [s[0]] + s[1..];
      var kept := if s[0] == r then [] else [s[0]];
      assert multiset(kept + Purge(s[1..], r)) == multiset(kept) + multiset(Purge(s[1..], r));
    }
  }

  /** FORWARD once the plain jumps to the first n listed chains are gone. */
  function Dropped(s: seq<Rule>, jumps: seq<Chain>, n: nat): seq<Rule>
    requires n <= |jumps|
  {
    if n == 0 then s else Purge(Dropped(s, jumps, n - 1), Plain(jumps[n - 1]))
  }

  lemma {:induction false} DroppedRules(s: seq<Rule>, jumps: seq<Chain>, n: nat)
    requires n <= |jumps|
    ensures forall i :: 0 <= i < n ==> Plain(jumps[i]) !in Dropped(s, jumps, n)
    ensures forall r :: r in Dropped(s, jumps, n) ==> r in s
  {
    if n > 0 {
      DroppedRules(s, jumps, n - 1);
      PurgeKeepsOthers(Dropped(s, jumps, n - 1), Plain(jumps[n - 1]));
    }
  }

  lemma {:induction false} DroppedKeeps(s: seq<Rule>, jumps: seq<Chain>, n: nat, c: Chain)
    requires n <= |jumps| && forall i | 0 <= i < n :: jumps[i] != c
    ensures multiset(Dropped(s, jumps, n))[Plain(c)] == multiset(s)[Plain(c)]
  {
    if n > 0 {
      DroppedKeeps(s, jumps, n - 1, c);
      PurgeCounts(Dropped(s, jumps, n - 1), Plain(jumps[n - 1]));
    }
  }

  /** Whether the next jump can be dropped does not depend on the ones dropped before. */
  lemma DroppedCounts(s: seq<Rule>, jumps: seq<Chain>, n: nat)
    requires n < |jumps|
    ensures var c := Plain(jumps[n]);
      || multiset(Dropped(s, jumps, n))[c] == multiset(s)[c]
      || (multiset(Dropped(s, jumps, n))[c] == 0 && exists i :: 0 <= i < n && jumps[i] == jumps[n])
  {
    if i :| 0 <= i < n && jumps[i] == jumps[n] {
      DroppedRules(s, jumps, n);
    } else {
      DroppedKeeps(s, jumps, n, jumps[n]);
    }
  }

  predicate JumpsTo(r: Rule, chains: seq<Chain>) { r.target.Jump? && r.target.chain in chains }

  /** Only plain jumps of FORWARD to the listed chains lead into the swept ones. */
  predicate Unentangled(t: Table, jumps: seq<Chain>, sweep: seq<Chain>) {
    forall k, i | k in t && k !in sweep && 0 <= i < |t[k]| && JumpsTo(t[k][i], sweep) ::
      k == Forward && t[k][i].target.chain in jumps && t[k][i] == Plain(t[k][i].target.chain)
  }

  predicate AllEmpty(t: Table, sweep: seq<Chain>) { forall i | 0 <= i < |sweep| :: At(t, sweep[i]) == [] }

  /** No rule left anywhere leads into the swept chains. */
  predicate Unreferenced(t: Table, sweep: seq<Chain>) {
    forall k, i | k in t && 0 <= i < |t[k]| :: !JumpsTo(t[k][i], sweep)
  }

  /** After the jumps are dropped (t1) and the chains flushed (t2), nothing leads into the swept chains. */
  lemma SweptUnreferenced(t0: Table, t1: Table, t2: Table, jumps: seq<Chain>, sweep: seq<Chain>)
    requires Unentangled(t0, jumps, sweep)
    requires Except(t1, {Forward}) == Except(t0, {Forward}) && t1[Forward] == Dropped(t0[Forward], jumps, |jumps|)
    requires t2.Keys == t1.Keys && forall c | c in t2 :: t2[c] == [] || t2[c] == t1[c]
    requires forall i | 0 <= i < |sweep| :: At(t2, sweep[i]) == []
    ensures Unreferenced(t2, sweep)
  {
    DroppedRules(t0[Forward], jumps, |jumps|);
    forall k, i | k in t2 && 0 <= i < |t2[k]|
      ensures !JumpsTo(t2[k][i], sweep)
    {
      if k == Forward {
        var r := t1[Forward][i];
        assert r in t1[Forward];
        var j :| 0 <= j < |t0[Forward]| && t0[Forward][j] == r;
      } else {
        ExceptSame(t1, t0, {Forward}, k);
        assert k !in sweep;
      }
    }
  }
}
