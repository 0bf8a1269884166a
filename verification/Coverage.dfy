/** What a packet meets while a payload is in force. */
module Coverage {
  import opened Wrappers
  import opened Iptables
  import opened Net
  import opened Payloads

  /** The hits of rules that hold no jumps. */
  function Effect(c: Chain, rules: seq<Rule>, p: Packet): seq<Hit>
    requires Leaves(rules)
  {
    if rules == [] then []
    else if !Matches(rules[0], p) then Effect(c, rules[1..], p)
    else if rules[0].target.Final() then [Hit(c, rules[0].target)]
    else [Hit(c, rules[0].target)] + Effect(c, rules[1..], p)
  }

  /** Every packet meets exactly the payload's own effect among our rules, and meets it first. */
  predicate TreatsAs(t: Table, c: Chain, payload: seq<Rule>, p: Packet, depth: nat)
    requires Leaves(payload)
  {
    && OurHits(Treatment(t, p, depth)) == Effect(c, payload, p)
    && Effect(c, payload, p) <= Treatment(t, p, depth)
  }

  lemma {:induction false} LeafTraversal(t: Table, c: Chain, rules: seq<Rule>, p: Packet, depth: nat)
    requires Leaves(rules) && c.Ours()
    ensures Traverse(t, c, rules, p, depth).hits == Effect(c, rules, p)
    ensures OurHits(Effect(c, rules, p)) == Effect(c, rules, p)
  {
    if rules != [] {
      LeafTraversal(t, c, rules[1..], p, depth);
    }
  }

  lemma ServedPacket(t: Table, c: Chain, payload: seq<Rule>, p: Packet, depth: nat)
    requires Side(c) && Serves(t, c, payload) && Leaves(payload) && Quiet(t) && depth >= 2
    ensures TreatsAs(t, c, payload, p, depth)
  {
    var hook := t[Hook];
    assert hook == [Plain(c)] && hook[1..] == [];
    var inPayload := if c in t then Traverse(t, c, t[c], p, depth - 2) else Walk([], false);
    LeafTraversal(t, c, payload, p, depth - 2);
    assert inPayload.hits == Effect(c, payload, p);
    var inHook := Traverse(t, Hook, hook, p, depth - 1);
    assert Traverse(t, Hook, hook[1..], p, depth - 1) == Walk([], false);
    assert inHook.hits == inPayload.hits;
    var rest := t[Forward][1..];
    forall i | 0 <= i < |rest|
      ensures Aloof(rest[i])
    {
      assert rest[i] == t[Forward][i + 1];
    }
    AloofRulesNeverTreat(t, Forward, rest, p, depth);
    OurHitsAppend(inHook.hits, Traverse(t, Forward, rest, p, depth).hits);
  }

  lemma UnhookedPacket(t: Table, p: Packet, depth: nat)
    requires Unhooked(t) && Quiet(t)
    ensures OurHits(Treatment(t, p, depth)) == []
  {
    AloofRulesNeverTreat(t, Forward, t[Forward], p, depth);
  }

  /** Between two intact states: every packet gets the complete old payload or the complete new one. */
  ghost predicate OldOrNew(t: Table, was: Table, active: Option<Chain>, links: Links, target: Target)
    requires Intact(was, active) && Leaves(Payload(links, target))
  {
    || (forall p, depth | depth >= 2 :: TreatsAs(t, active.value, At(was, active.value), p, depth))
    || (forall p, depth | depth >= 2 :: TreatsAs(t, OtherSide(active), Payload(links, target), p, depth))
  }

  /** From an unhooked state: every packet gets nothing of ours, or the complete new payload. */
  ghost predicate NothingOrNew(t: Table, active: Option<Chain>, links: Links, target: Target)
    requires Leaves(Payload(links, target))
  {
    || (forall p, depth :: OurHits(Treatment(t, p, depth)) == [])
    || (forall p, depth | depth >= 2 :: TreatsAs(t, OtherSide(active), Payload(links, target), p, depth))
  }

  lemma QuietAgain(t: Table, was: Table)
    requires Quiet(was) && View(t) == View(was)
    requires t[Forward] == was[Forward] || t[Forward] == [Plain(Hook)] + was[Forward]
    ensures Quiet(t)
  {
    forall c, i | c in t && c.Foreign? && 0 <= i < |t[c]|
      ensures Aloof(t[c][i])
    {
      assert c in View(t).chains && View(t).chains[c] == t[c];
      assert c in View(was).chains && View(was).chains[c] == was[c];
    }
  }

  lemma SwapTreats(t: Table, was: Table, active: Option<Chain>, links: Links, target: Target)
    requires Quiet(was) && Intact(was, active) && !target.Jump?
    requires View(t) == View(was) && t[Forward] == was[Forward] && SwapState(t, was, active, links, target)
    ensures Leaves(Payload(links, target)) && OldOrNew(t, was, active, links, target)
  {
    PayloadLeaves(links, |links.down|, target);
    assert Leaves(Payload(links, target));
    hide View, Payload, Serves;
    QuietAgain(t, was);
    if Serves(t, active.value, At(was, active.value)) {
      forall p, depth | depth >= 2
        ensures TreatsAs(t, active.value, At(was, active.value), p, depth)
      {
        ServedPacket(t, active.value, At(was, active.value), p, depth);
      }
    } else {
      forall p, depth | depth >= 2
        ensures TreatsAs(t, OtherSide(active), Payload(links, target), p, depth)
      {
        ServedPacket(t, OtherSide(active), Payload(links, target), p, depth);
      }
    }
  }

  lemma FirstTreats(t: Table, was: Table, active: Option<Chain>, links: Links, target: Target)
    requires Quiet(was) && Unhooked(was) && KnownSide(active) && !target.Jump?
    requires View(t) == View(was) && FirstState(t, was, OtherSide(active), Payload(links, target))
    ensures Leaves(Payload(links, target)) && NothingOrNew(t, active, links, target)
  {
    hide View;
    PayloadLeaves(links, |links.down|, target);
    QuietAgain(t, was);
    if t[Forward] == was[Forward] {
      forall p, depth
        ensures OurHits(Treatment(t, p, depth)) == []
      {
        UnhookedPacket(t, p, depth);
      }
    } else {
      assert t[Forward][1..] == was[Forward];
      forall p, depth | depth >= 2
        ensures TreatsAs(t, OtherSide(active), Payload(links, target), p, depth)
      {
        ServedPacket(t, OtherSide(active), Payload(links, target), p, depth);
      }
    }
  }

  /** While the hook is empty no packet is treated, although FORWARD still starts with the jump to it. */
  lemma EmptyHookTreatsNothing(t: Table, p: Packet, depth: nat)
    requires HookOk(t) && Quiet(t) && At(t, Hook) == []
    ensures OurHits(Treatment(t, p, depth)) == []
  {
    var rest := t[Forward][1..];
    assert depth > 0 && Hook in t ==> Traverse(t, Hook, t[Hook], p, depth - 1) == Walk([], false);
    forall i | 0 <= i < |rest|
      ensures Aloof(rest[i])
    {
      assert rest[i] == t[Forward][i + 1];
    }
    AloofRulesNeverTreat(t, Forward, rest, p, depth);
    OurHitsAppend([], Traverse(t, Forward, rest, p, depth).hits);
  }

  lemma PatternMatchesItself(pattern: string)
    ensures NameMatches(pattern, pattern)
  {
  }

  /** Rules without jumps treat some packet, unless there are none. */
  lemma RulesTreatSomething(c: Chain, rules: seq<Rule>) returns (p: Packet)
    requires Leaves(rules) && rules != []
    ensures Effect(c, rules, p) != []
  {
    var r := rules[0];
    var input, output := if r.input.Some? then r.input.value else "", if r.output.Some? then r.output.value else "";
    p := Packet(input, output, 64, if r.extra.Some? then {r.extra.value} else {});
    PatternMatchesItself(input);
    PatternMatchesItself(output);
  }

  /** A table with an empty hook is neither old nor new for every packet, if both payloads hold a rule. */
  lemma EmptyHookIsNeither(t: Table, was: Table, active: Option<Chain>, links: Links, target: Target)
    requires Quiet(was) && Intact(was, active) && Leaves(Payload(links, target))
    requires View(t) == View(was) && t[Forward] == was[Forward] && At(t, Hook) == []
    requires At(was, active.value) != [] && Payload(links, target) != []
    ensures !OldOrNew(t, was, active, links, target)
  {
    QuietAgain(t, was);
    var p := RulesTreatSomething(active.value, At(was, active.value));
    var q := RulesTreatSomething(OtherSide(active), Payload(links, target));
    hide View, Payload, Quiet;
    EmptyHookTreatsNothing(t, p, 2);
    EmptyHookTreatsNothing(t, q, 2);
    assert !TreatsAs(t, active.value, At(was, active.value), p, 2);
    assert !TreatsAs(t, OtherSide(active), Payload(links, target), q, 2);
  }

  /**
   The run in which -R fails for nothing: the kernel would have taken it, takes the flush and the
   append that follow, and the result is the wanted hook, but on the way the hook is empty.
   */
  lemma FailedReplaceRun(t: Table, active: Option<Chain>)
    requires Intact(t, active) && OtherSide(active) in t && Hook in t
    ensures var next, flush := OtherSide(active), Flush(Hook);
      && Accepts(t, Replace(Hook, 1, Plain(next))) && Accepts(t, flush)
      && Accepts(Apply(t, flush), Append(Hook, Plain(next)))
      && var flushed, filled := Apply(t, flush), Apply(Apply(t, flush), Append(Hook, Plain(next)));
      && PointContract(Stretch(t, [t, flushed, filled], filled, false, true, false), true, next, active)
      && HookOk(flushed) && At(flushed, Hook) == []
  {
    var next := OtherSide(active);
    var flushed := Apply(t, Flush(Hook));
    var filled := Apply(flushed, Append(Hook, Plain(next)));
    assert At(filled, Hook) == [Plain(next)];
    var r := Stretch(t, [t, flushed, filled], filled, false, true, false);
    assert At(r.steps[1], Hook) == [] && r.steps[1][Forward] == t[Forward];
  }

  // ------------------------------------------------- verified rules mean coverage

  function PairRule(p: Packet, target: Target): Rule { Rule(Some(p.input), Some(p.output), None, target) }

  /** A payload rule names one downstream and one upstream interface and nothing else. */
  predicate PairOf(r: Rule, down: seq<string>, up: seq<string>, target: Target) {
    && r.input.Some? && r.input.value in down
    && r.output.Some? && r.output.value in up
    && r.extra.None? && r.target == target
  }

  lemma {:induction false} RowShape(i: string, down: seq<string>, up: seq<string>, n: nat, target: Target)
    requires n <= |up| && i in down
    ensures forall r :: r in Row(i, up, n, target) ==> PairOf(r, down, up, target)
  {
    if n > 0 {
      RowShape(i, down, up, n - 1, target);
    }
  }

  lemma {:induction false} RowsShape(l: Links, n: nat, target: Target)
    requires n <= |l.down|
    ensures forall r :: r in Rows(l, n, target) ==> PairOf(r, l.down, l.up, target)
  {
    if n > 0 {
      RowsShape(l, n - 1, target);
      RowShape(l.down[n - 1], l.down, l.up, |l.up|, target);
    }
  }

  /** How often x stands among the first n names. */
  function Occurrences(s: seq<string>, n: nat, x: string): nat
    requires n <= |s|
  {
    if n == 0 then 0 else Occurrences(s, n - 1, x) + (if s[n - 1] == x then 1 else 0)
  }

  lemma {:induction false} DistinctOccurs(s: seq<string>, n: nat, x: string)
    requires Distinct(s) && n <= |s|
    ensures Occurrences(s, n, x) <= 1
    ensures Occurrences(s, n, x) == 1 <==> exists k :: 0 <= k < n && s[k] == x
  {
    if n > 0 {
      DistinctOccurs(s, n - 1, x);
    }
  }

  function Copies(s: seq<Rule>, r: Rule): nat { multiset(s)[r] }

  lemma CountOneMore(a: seq<Rule>, x: Rule, r: Rule)
    ensures Copies(a + [x], r) == Copies(a, r) + (if x == r then 1 else 0)
  {
  }

  lemma {:induction false} RowCount(i: string, up: seq<string>, n: nat, p: Packet, target: Target)
    requires n <= |up| && forall k | 0 <= k < |up| :: up[k] != i
    ensures Copies(Row(i, up, n, target), PairRule(p, target)) ==
      if i == p.input then Occurrences(up, n, p.output) else 0
  {
    hide Row, Copies, PairRule;
    if n > 0 {
      RowSnoc(i, up, n - 1, target);
      RowCount(i, up, n - 1, p, target);
      var rule := Rule(Some(i), Some(up[n - 1]), None, target);
      SamePair(rule, p, target);
      CountOneMore(Row(i, up, n - 1, target), rule, PairRule(p, target));
    } else {
      EmptyRow(i, up, PairRule(p, target), target);
    }
  }

  lemma SamePair(r: Rule, p: Packet, target: Target)
    requires r.input.Some? && r.output.Some? && r.extra.None? && r.target == target
    ensures r == PairRule(p, target) <==> r.input.value == p.input && r.output.value == p.output
  {
  }

  lemma EmptyRow(i: string, up: seq<string>, r: Rule, target: Target)
    ensures Copies(Row(i, up, 0, target), r) == 0
  {
  }

  lemma {:induction false} RowsCount(l: Links, n: nat, p: Packet, target: Target)
    requires n <= |l.down| && Distinct(l.down) && forall i :: 0 <= i < |l.down| ==> l.down[i] !in l.up
    ensures Copies(Rows(l, n, target), PairRule(p, target)) ==
      if Occurrences(l.down, n, p.input) > 0 then Occurrences(l.up, |l.up|, p.output) else 0
  {
    hide Distinct, Row;
    if n > 0 {
      RowsCount(l, n - 1, p, target);
      RowCount(l.down[n - 1], l.up, |l.up|, p, target);
      DistinctOccurs(l.down, n, p.input);
      SumOfCounts(Rows(l, n - 1, target), Row(l.down[n - 1], l.up, |l.up|, target), PairRule(p, target));
    }
  }

  lemma SumOfCounts(a: seq<Rule>, b: seq<Rule>, r: Rule)
    ensures Copies(a + b, r) == Copies(a, r) + Copies(b, r)
  {
  }

  /** Rules of one target for plain names: only the packet's own pair matches. */
  lemma {:induction false} EffectByCount(c: Chain, rules: seq<Rule>, p: Packet, target: Target)
    requires Leaves(rules) && !target.Jump?
    requires forall r :: r in rules ==> (Matches(r, p) <==> r == PairRule(p, target))
    requires Copies(rules, PairRule(p, target)) <= 1
    ensures Effect(c, rules, p) == if PairRule(p, target) in rules then [Hit(c, target)] else []
  {
    if rules != [] {
      assert rules == [rules[0]] + rules[1..];
      assert multiset(rules) == multiset{rules[0]} + multiset(rules[1..]);
      EffectByCount(c, rules[1..], p, target);
    }
  }

  lemma ValidNameMatches(name: string, other: string)
    requires ValidIface(name)
    ensures NameMatches(name, other) <==> name == other
  {
    assert name[|name| - 1] in name;
  }

  lemma PayloadRules(l: Links, target: Target, p: Packet)
    requires Classified(l) && !target.Jump?
    ensures Leaves(Payload(l, target))
    ensures forall r :: r in Payload(l, target) ==> (Matches(r, p) <==> r == PairRule(p, target))
  {
    var rules := Payload(l, target);
    RowsShape(l, |l.down|, target);
    forall r | r in rules
      ensures Matches(r, p) <==> r == PairRule(p, target)
    {
      assert PairOf(r, l.down, l.up, target);
      ValidNameMatches(r.input.value, p.input);
      ValidNameMatches(r.output.value, p.output);
    }
    forall i | 0 <= i < |rules|
      ensures !rules[i].target.Jump?
    {
      assert rules[i] in rules;
      assert PairOf(rules[i], l.down, l.up, target);
    }
  }

  lemma PayloadEffect(l: Links, target: Target, c: Chain, p: Packet)
    requires Classified(l) && !target.Jump?
    ensures Leaves(Payload(l, target))
    ensures Effect(c, Payload(l, target), p) == if p.input in l.down && p.output in l.up then [Hit(c, target)] else []
  {
    PayloadRules(l, target, p);
    var rules := Payload(l, target);
    RowsCount(l, |l.down|, p, target);
    DistinctOccurs(l.down, |l.down|, p.input);
    DistinctOccurs(l.up, |l.up|, p.output);
    hide Rows, Row;
    EffectByCount(c, rules, p, target);
  }

  /** rules_ok on classified links: a forwarded packet meets our target once and first, any other packet never. */
  lemma VerifiedMeansCovered(t: Table, active: Option<Chain>, l: Links, target: Target, p: Packet, depth: nat)
    requires KnownSide(active) && RulesOk(t, active, l, target) && Classified(l) && !target.Jump?
    requires Quiet(t) && depth >= 2
    ensures p.input in l.down && p.output in l.up ==>
      && OurHits(Treatment(t, p, depth)) == [Hit(active.value, target)]
      && Treatment(t, p, depth)[..1] == [Hit(active.value, target)]
    ensures !(p.input in l.down && p.output in l.up) ==> OurHits(Treatment(t, p, depth)) == []
  {
    PayloadEffect(l, target, active.value, p);
    ServedPacket(t, active.value, Payload(l, target), p, depth);
  }

  // ------------------------------------------------------------ packets and fates

  /** A forwarded packet from a downstream to an upstream interface. */
  predicate Between(l: Links, p: Packet) { p.input in l.down && p.output in l.up }

  /**
   Our rules, which every packet meets before any foreign one, send it this way if it goes from a downstream
   to an upstream interface, and let it pass as it is otherwise.
   */
  predicate Sends(t: Table, l: Links, p: Packet, depth: nat, fate: Fate) {
    var hits := Treatment(t, p, depth);
    OurHits(hits) <= hits && FateOf(p.hops, OurHits(hits)) == if Between(l, p) then fate else GoesOn(p.hops)
  }

  function OneFate(target: Target, hops: nat): Fate
    requires !target.Jump?
  {
    FateOf(hops, [Hit(Hook, target)])
  }

  lemma VerifiedSends(t: Table, active: Option<Chain>, l: Links, target: Target, p: Packet, depth: nat)
    requires KnownSide(active) && RulesOk(t, active, l, target) && Classified(l) && !target.Jump?
    requires Quiet(t) && depth >= 2
    ensures Sends(t, l, p, depth, OneFate(target, p.hops))
  {
    VerifiedMeansCovered(t, active, l, target, p, depth);
    hide Treatment, OurHits, RulesOk, Quiet;
    if Between(l, p) {
      SameFate(p.hops, active.value, target);
    }
  }

  lemma SameFate(hops: nat, c: Chain, target: Target)
    requires !target.Jump?
    ensures FateOf(hops, [Hit(c, target)]) == OneFate(target, hops)
  {
    assert [Hit(c, target)][1..] == [] && [Hit(Hook, target)][1..] == [];
    if target.SetTtl? || target.SetHopLimit? || (target.Other? && !target.verdict) {
      assert FateOf(hops, []) == GoesOn(hops);
    }
  }

  predicate Sent4(t: Table, l: Links, kernel: bool, workers: nat, ttl: nat, p: Packet, depth: nat) {
    Sends(t, l, p, depth, if kernel then GoesOn(ttl) else Queued(6464, 6463 + workers, p.hops))
  }

  /** The TTL of every packet between the two sides is set, or the packet waits in one of the workers' queues. */
  ghost predicate Sends4(t: Table, l: Links, kernel: bool, workers: nat, ttl: nat) {
    forall p: Packet, depth: nat | depth >= 2 :: Sent4(t, l, kernel, workers, ttl, p, depth)
  }

  /** The hop limit of every packet between the two sides is set, or the packet is dropped. */
  ghost predicate Sends6(t: Table, l: Links, mode: V6Mode, hl: nat) {
    forall p: Packet, depth: nat | depth >= 2 ::
      && (mode == Normalize ==> Sends(t, l, p, depth, GoesOn(hl)))
      && (mode == Block ==> Sends(t, l, p, depth, Discarded))
  }

  lemma RulesSend4(t: Table, active: Option<Chain>, l: Links, kernel: bool, workers: nat, ttl: nat)
    requires KnownSide(active) && RulesOk(t, active, l, Target4(kernel, workers, ttl)) && Classified(l) && Quiet(t)
    requires workers >= 1
    ensures Sends4(t, l, kernel, workers, ttl)
  {
    var target := Target4(kernel, workers, ttl);
    hide Sends, RulesOk, Quiet, Classified;
    forall p: Packet, depth: nat | depth >= 2
      ensures Sent4(t, l, kernel, workers, ttl, p, depth)
    {
      VerifiedSends(t, active, l, target, p, depth);
      TargetFate(target, p.hops);
    }
  }

  lemma TargetFate(target: Target, hops: nat)
    requires !target.Jump?
    ensures target.SetTtl? ==> OneFate(target, hops) == GoesOn(target.ttl)
    ensures target.SetHopLimit? ==> OneFate(target, hops) == GoesOn(target.limit)
    ensures target.Queue? ==> OneFate(target, hops) == Queued(target.first, target.last, hops)
    ensures target.Drop? ==> OneFate(target, hops) == Discarded
  {
    assert [Hit(Hook, target)][1..] == [];
    assert target.SetTtl? ==> FateOf(target.ttl, []) == GoesOn(target.ttl);
    assert target.SetHopLimit? ==> FateOf(target.limit, []) == GoesOn(target.limit);
  }

  lemma RulesSend6(t: Table, active: Option<Chain>, l: Links, mode: V6Mode, hl: nat)
    requires KnownSide(active) && RulesOk(t, active, l, Target6(mode, hl)) && Classified(l) && Quiet(t)
    requires mode == Normalize || mode == Block
    ensures Sends6(t, l, mode, hl)
  {
    var target := Target6(mode, hl);
    hide Sends, RulesOk, Quiet, Classified;
    forall p: Packet, depth: nat | depth >= 2
      ensures mode == Normalize ==> Sends(t, l, p, depth, GoesOn(hl))
      ensures mode == Block ==> Sends(t, l, p, depth, Discarded)
    {
      VerifiedSends(t, active, l, target, p, depth);
      TargetFate(target, p.hops);
    }
  }
}
