/**
 The mangle table of one address family as the kernel keeps it: what a single
 iptables command does to it, and what it does to a packet.
 */
module Iptables {
  import opened Wrappers

  /** The chain names the program knows, and everybody else's. */
  datatype Chain =
    | Forward
    | Hook | PayloadA | PayloadB
    | V30h | V30a | V30b | V29a | V29b | OldForward
    | Probe
    | Foreign(name: string)
  {
    predicate Ours() { !Forward? && !Foreign? }
  }

  datatype Target =
    | Jump(chain: Chain)
    | SetTtl(ttl: nat)
    | SetHopLimit(limit: nat)
    | Queue(first: nat, last: nat)
    | Drop
    | Other(text: string, verdict: bool)
  {
    /** TTL and HL let the packet go on to the next rule; NFQUEUE and DROP do not. */
    predicate Final() { Queue? || Drop? || (Other? && verdict) }
  }

  /** `extra` stands for any further match the program never writes itself. */
  datatype Rule = Rule(input: Option<string>, output: Option<string>, extra: Option<string>, target: Target)

  function Plain(c: Chain): Rule { Rule(None, None, None, Jump(c)) }

  type Table = t: map<Chain, seq<Rule>> | Forward in t witness map[Forward := []]

  // ---------------------------------------------------------------- commands

  /** -N, -F, -X, -A, -I at position 1, -R, -D by rule and -D by position. */
  datatype Command =
    | New(chain: Chain)
    | Flush(chain: Chain)
    | Delete(chain: Chain)
    | Append(chain: Chain, rule: Rule)
    | Insert(chain: Chain, rule: Rule)
    | Replace(chain: Chain, pos: nat, rule: Rule)
    | Remove(chain: Chain, rule: Rule)
    | RemoveAt(chain: Chain, pos: nat)

  function RemoveFirst(s: seq<Rule>, r: Rule): (rest: seq<Rule>)
    requires r in s
    ensures multiset(rest) == multiset(s) - multiset{r}
    ensures |rest| == |s| - 1
  {
    assert s == [s[0]] + s[1..];
    if s[0] == r then s[1..] else [s[0]] + RemoveFirst(s[1..], r)
  }

  predicate Resolves(t: Table, r: Rule) {
    r.target.Jump? ==> r.target.chain in t && r.target.chain != Forward
  }

  predicate Referenced(t: Table, c: Chain) {
    exists k, i | k in t && 0 <= i < |t[k]| :: t[k][i].target == Jump(c)
  }

  /** Whether the kernel takes the command. */
  predicate Accepts(t: Table, cmd: Command) {
    match cmd
    case New(c) => c !in t
    case Flush(c) => c in t
    case Delete(c) => c in t && c != Forward && t[c] == [] && !Referenced(t, c)
    case Append(c, r) => c in t && Resolves(t, r)
    case Insert(c, r) => c in t && Resolves(t, r)
    case Replace(c, pos, r) => c in t && 1 <= pos <= |t[c]| && Resolves(t, r)
    case Remove(c, r) => c in t && r in t[c]
    case RemoveAt(c, pos) => c in t && 1 <= pos <= |t[c]|
  }

  function Apply(t: Table, cmd: Command): Table
    requires Accepts(t, cmd)
  {
    match cmd
    case New(c) => t[c := []]
    case Flush(c) => t[c := []]
    case Delete(c) => t - {c}
    case Append(c, r) => t[c := t[c] + [r]]
    case Insert(c, r) => t[c := [r] + t[c]]
    case Replace(c, pos, r) => t[c := t[c][pos - 1 := r]]
    case Remove(c, r) => t[c := RemoveFirst(t[c], r)]
    case RemoveAt(c, pos) => t[c := t[c][..pos - 1] + t[c][pos..]]
  }

  // ------------------------------------------------------- other people's rules

  predicate OwnJump(r: Rule) {
    r.target.Jump? && r.target.chain.Ours() && r == Plain(r.target.chain)
  }

  function Strangers(s: seq<Rule>): seq<Rule> {
    if s == [] then []
    else (if OwnJump(s[0]) then [] else [s[0]]) + Strangers(s[1..])
  }

  /** Everything in the table that is not the program's: foreign chains and the ordered foreign rules of FORWARD. */
  datatype ForeignView = ForeignView(chains: map<Chain, seq<Rule>>, forward: seq<Rule>)

  function View(t: Table): ForeignView {
    ForeignView(map c | c in t && c.Foreign? :: t[c], Strangers(t[Forward]))
  }

  /** A command that names one of the program's chains, or moves a jump to one of them in FORWARD. */
  predicate Confined(cmd: Command) {
    cmd.chain.Ours() || (cmd.chain == Forward && (cmd.Insert? || cmd.Remove?) && OwnJump(cmd.rule))
  }

  lemma {:induction false} RemovingOwnJumpKeepsStrangers(s: seq<Rule>, r: Rule)
    requires r in s && OwnJump(r)
    ensures Strangers(RemoveFirst(s, r)) == Strangers(s)
  {
    if s[0] != r {
      var rest := RemoveFirst(s[1..], r);
      assert ([s[0]] + rest)[1..] == rest;
      RemovingOwnJumpKeepsStrangers(s[1..], r);
    }
  }

  lemma ConfinedKeepsForeign(t: Table, cmd: Command)
    requires Confined(cmd) && Accepts(t, cmd)
    ensures View(Apply(t, cmd)) == View(t)
  {
    if cmd.chain == Forward {
      if cmd.Remove? {
        RemovingOwnJumpKeepsStrangers(t[Forward], cmd.rule);
      } else {
        assert ([cmd.rule] + t[Forward])[1..] == t[Forward];
      }
    }
    var t' := Apply(t, cmd);
    assert View(t').chains == View(t).chains;
  }

  // ---------------------------------------------------------------- traversal

  /** A packet being forwarded, with its TTL or hop limit, and the set of `extra` matches that hold for it. */
  datatype Packet = Packet(input: string, output: string, hops: nat, holds: set<string>)

  /** An interface pattern ending in '+' stands for every name it prefixes. */
  predicate NameMatches(pattern: string, name: string) {
    if pattern != "" && pattern[|pattern| - 1] == '+' then pattern[..|pattern| - 1] <= name else pattern == name
  }

  predicate Matches(r: Rule, p: Packet) {
    && (r.input.Some? ==> NameMatches(r.input.value, p.input))
    && (r.output.Some? ==> NameMatches(r.output.value, p.output))
    && (r.extra.Some? ==> r.extra.value in p.holds)
  }

  /** A target applied to the packet, and the chain whose rule applied it. */
  datatype Hit = Hit(chain: Chain, target: Target)
  datatype Walk = Walk(hits: seq<Hit>, stopped: bool)

  /** What happens to p from the head of `rules` in chain c on; jumps nest at most `depth` deep. */
  function Traverse(t: Table, c: Chain, rules: seq<Rule>, p: Packet, depth: nat): Walk
    decreases depth, |rules|
  {
    if rules == [] then Walk([], false)
    else if !Matches(rules[0], p) then Traverse(t, c, rules[1..], p, depth)
    else
      var here :=
        if !rules[0].target.Jump? then Walk([Hit(c, rules[0].target)], rules[0].target.Final())
        else if depth > 0 && rules[0].target.chain in t then
          Traverse(t, rules[0].target.chain, t[rules[0].target.chain], p, depth - 1)
        else Walk([], false);
      if here.stopped then here
      else
        var rest := Traverse(t, c, rules[1..], p, depth);
        Walk(here.hits + rest.hits, rest.stopped)
  }

  /** What becomes of a packet: it goes on, waits in one of some queues, is dropped, or another target has decided. */
  datatype Fate = GoesOn(hops: nat) | Queued(first: nat, last: nat, hops: nat) | Discarded | Judged(text: string)

  /** What these targets, one after another, do to a packet that comes with this TTL or hop limit. */
  function FateOf(hops: nat, hits: seq<Hit>): Fate
    decreases |hits|
  {
    if hits == [] then GoesOn(hops)
    else
      match hits[0].target
      case Jump(_) => FateOf(hops, hits[1..])
      case SetTtl(n) => FateOf(n, hits[1..])
      case SetHopLimit(n) => FateOf(n, hits[1..])
      case Queue(first, last) => Queued(first, last, hops)
      case Drop => Discarded
      case Other(text, verdict) => if verdict then Judged(text) else FateOf(hops, hits[1..])
  }

  function Treatment(t: Table, p: Packet, depth: nat): seq<Hit> {
    Traverse(t, Forward, t[Forward], p, depth).hits
  }

  function OurHits(hits: seq<Hit>): seq<Hit> {
    if hits == [] then []
    else (if hits[0].chain.Ours() then [hits[0]] else []) + OurHits(hits[1..])
  }

  lemma {:induction false} OurHitsAppend(a: seq<Hit>, b: seq<Hit>)
    ensures OurHits(a + b) == OurHits(a) + OurHits(b)
  {
    if a == [] {
      assert a + b == b;
    } else {
      assert (a + b)[1..] == a[1..] + b;
      OurHitsAppend(a[1..], b);
    }
  }

  /** No foreign rule jumps into our chains, and FORWARD holds no jump of ours but those to the hook chain. */
  predicate Quiet(t: Table) {
    && (forall c, i | c in t && c.Foreign? && 0 <= i < |t[c]| :: Aloof(t[c][i]))
    && (forall i | 0 <= i < |t[Forward]| :: t[Forward][i] == Plain(Hook) || Aloof(t[Forward][i]))
  }

  predicate Aloof(r: Rule) { !(r.target.Jump? && r.target.chain.Ours()) && r.target != Jump(Forward) }

  /** Foreign rules alone never bring a packet to a rule of ours. */
  lemma {:induction false} AloofRulesNeverTreat(t: Table, c: Chain, rules: seq<Rule>, p: Packet, depth: nat)
    requires Quiet(t) && !c.Ours()
    requires forall i | 0 <= i < |rules| :: Aloof(rules[i])
    ensures OurHits(Traverse(t, c, rules, p, depth).hits) == []
    decreases depth, |rules|
  {
    if rules != [] {
      AloofRulesNeverTreat(t, c, rules[1..], p, depth);
      var target := rules[0].target;
      if Matches(rules[0], p) {
        if !target.Jump? {
          var rest := Traverse(t, c, rules[1..], p, depth).hits;
          OurHitsAppend([Hit(c, target)], rest);
        } else if depth > 0 && target.chain in t {
          assert Aloof(rules[0]);
          AloofRulesNeverTreat(t, target.chain, t[target.chain], p, depth - 1);
          OurHitsAppend(Traverse(t, target.chain, t[target.chain], p, depth - 1).hits,
                        Traverse(t, c, rules[1..], p, depth).hits);
        } else {
          OurHitsAppend([], Traverse(t, c, rules[1..], p, depth).hits);
        }
      }
    }
  }
}
