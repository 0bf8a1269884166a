/**
 One iptables binary and the steps of the rule swap. A write command may fail, with or
 without having taken effect; a read (-S, -C) may fail and then comes back empty.
 Packets flow between any two commands, so the contracts speak of every table in
 `trace`, not only of the last one.
 */
module Mangles {
  import opened Wrappers
  import opened Iptables
  import opened Net
  import opened Payloads

  class Mangle {
    var table: Table
    ghost var trace: seq<Table>    // the table after every write command
    ghost var faults: nat          // writes reported as failed although the kernel takes them
    ghost var replaceFaults: nat   // those of them that were -R
    ghost var misreads: nat        // reads that came back empty because they failed

    constructor (t: Table)
      ensures table == t && trace == [] && faults == 0 && replaceFaults == 0 && misreads == 0
    {
      table, trace, faults, replaceFaults, misreads := t, [], 0, 0, 0;
    }

    /** Since `was`, started from `from`, no table of the trace differs in foreign rules or outside `chains`. */
    ghost predicate Touched(was: seq<Table>, from: Table, chains: set<Chain>)
      reads this
    {
      && was <= trace
      && table == (if |trace| == |was| then from else trace[|trace| - 1])
      && View(table) == View(from) && Except(table, chains) == Except(from, chains)
      && forall k :: |was| <= k < |trace| ==>
           View(trace[k]) == View(from) && Except(trace[k], chains) == Except(from, chains)
    }

    /** The counters only grow. */
    ghost predicate Counted(f: nat, r: nat, m: nat)
      reads this
    {
      faults >= f && replaceFaults >= r && misreads >= m
    }

    /** The same trace, seen with a larger set of chains. */
    lemma Widen(was: seq<Table>, from: Table, chains: set<Chain>, more: set<Chain>)
      requires Touched(was, from, chains) && chains <= more
      ensures Touched(was, from, more)
    {
      hide View;
      ExceptWiden(table, from, chains, more);
      forall k | |was| <= k < |trace|
        ensures Except(trace[k], more) == Except(from, more)
      {
        ExceptWiden(trace[k], from, chains, more);
      }
    }

    /** Two stretches of the trace, one after the other. */
    lemma Chain2(was: seq<Table>, from: Table, n: nat, mid: Table, chains: set<Chain>, more: set<Chain>)
      requires |was| <= n <= |trace| && was <= trace[..n]
      requires mid == if n == |was| then from else trace[n - 1]
      requires View(mid) == View(from) && Except(mid, more) == Except(from, more)
      requires forall k :: |was| <= k < n ==>
        View(trace[k]) == View(from) && Except(trace[k], more) == Except(from, more)
      requires Touched(trace[..n], mid, chains) && chains <= more
      ensures Touched(was, from, more)
    {
      Widen(trace[..n], mid, chains, more);
      hide View, Except;
    }

    /** The same bound, read off a stretch of the trace. */
    lemma TouchedWithin(was: seq<Table>, from: Table, chains: set<Chain>, r: Stretch)
      requires Touched(was, from, chains)
      requires r.before == from && r.steps == trace[|was|..] && r.after == table
      ensures Within(r, chains) && Last(r)
      ensures forall k | 0 <= k < |r.steps| :: View(r.steps[k]) == View(r.before)
    {
      hide View, Except;
      forall k | 0 <= k < |r.steps|
        ensures Except(r.steps[k], chains) == Except(r.before, chains) && View(r.steps[k]) == View(r.before)
      {
        assert r.steps[k] == trace[|was| + k];
      }
    }

    /** What a trace has gained since `was`, in two parts. */
    lemma Resume(was: seq<Table>, mid: seq<Table>, now: seq<Table>)
      requires was <= mid <= now
      ensures now[|was|..] == mid[|was|..] + now[|mid|..]
    {
      assert now[..|mid|] == mid;
    }

    /** The stretch since the old state. */
    twostate function Since(): Stretch
      requires old(|trace|) <= |trace|
      reads this
    {
      Stretch(old(table), trace[old(|trace|)..], table, faults == old(faults), misreads == old(misreads),
              replaceFaults == old(replaceFaults))
    }

    method Run(cmd: Command) returns (ok: bool)
      requires Confined(cmd)
      modifies this
      ensures misreads == old(misreads)
      ensures trace == old(trace) + [table]
      ensures table == old(table) || (Accepts(old(table), cmd) && table == Apply(old(table), cmd))
      ensures ok ==> Accepts(old(table), cmd) && table == Apply(old(table), cmd)
      ensures ok || !Accepts(old(table), cmd) ==> faults == old(faults) && replaceFaults == old(replaceFaults)
      ensures !ok && Accepts(old(table), cmd) ==>
        faults == old(faults) + 1 && replaceFaults == old(replaceFaults) + (if cmd.Replace? then 1 else 0)
      ensures View(table) == View(old(table)) && Except(table, {cmd.chain}) == Except(old(table), {cmd.chain})
    {
      var fault: bool := *;
      var effect: bool := *;
      if !Accepts(table, cmd) {
        ok := false;
      } else {
        ConfinedKeepsForeign(table, cmd);
        ok := !fault;
        if fault {
          faults := faults + 1;
          replaceFaults := replaceFaults + (if cmd.Replace? then 1 else 0);
        }
        if !fault || effect {
          table := Apply(table, cmd);
        }
      }
      trace := trace + [table];
    }

    /** -C: a failed read looks like an absent rule. */
    method Check(c: Chain, r: Rule) returns (found: bool)
      modifies this`misreads
      ensures misreads == old(misreads) ==> (found <==> c in table && r in table[c])
      ensures misreads == old(misreads) || (misreads == old(misreads) + 1 && !found)
    {
      var fault: bool := *;
      found := !fault && c in table && r in table[c];
      misreads := misreads + (if fault then 1 else 0);
    }

    /** The "-A" lines of -S: a failed read looks like an empty chain. */
    method List(c: Chain) returns (rules: seq<Rule>)
      modifies this`misreads
      ensures misreads == old(misreads) ==> rules == At(table, c)
      ensures misreads == old(misreads) || (misreads == old(misreads) + 1 && rules == [])
    {
      var fault: bool := *;
      rules := if c in table && !fault then table[c] else [];
      misreads := misreads + (if fault then 1 else 0);
    }

    method RemoveJump(jump: Rule) returns (ok: bool)
      requires OwnJump(jump) && jump in table[Forward]
      modifies this
      ensures trace == old(trace) + [table]
      ensures View(table) == View(old(table)) && Except(table, {Forward}) == Except(old(table), {Forward})
      ensures misreads == old(misreads) && replaceFaults == old(replaceFaults)
      ensures faults == old(faults) + (if ok then 0 else 1)
      ensures ok ==> Purge(table[Forward], jump) == Purge(old(table)[Forward], jump)
      ensures ok ==> multiset(table[Forward])[jump] + 1 == multiset(old(table)[Forward])[jump]
    {
      hide View, Except;
      PurgeAfterRemove(table[Forward], jump);
      ok := Run(Remove(Forward, jump));
    }

    method DelJump(target: Chain) returns (ok: bool)
      requires target.Ours()
      modifies this
      ensures Touched(old(trace), old(table), {Forward})
      ensures Counted(old(faults), old(replaceFaults), old(misreads)) && replaceFaults == old(replaceFaults)
      ensures Plain(target) !in old(table)[Forward] ==> ok && table == old(table) && trace == old(trace)
      ensures ok && misreads == old(misreads) ==> table[Forward] == Purge(old(table)[Forward], Plain(target))
      ensures faults == old(faults) && misreads == old(misreads) ==>
        (ok <==> Removable(old(table), target))
    {
      hide View, Except, Purge;
      var jump := Plain(target);
      PurgeKeepsOthers(table[Forward], jump);
      for i := 0 to 16
        invariant Touched(old(trace), old(table), {Forward})
        invariant Counted(old(faults), old(replaceFaults), old(misreads)) && replaceFaults == old(replaceFaults)
        invariant jump !in old(table)[Forward] ==> i == 0
        invariant i == 0 ==> table == old(table) && trace == old(trace)
        invariant Purge(table[Forward], jump) == Purge(old(table)[Forward], jump)
        invariant multiset(table[Forward])[jump] + i == multiset(old(table)[Forward])[jump]
      {
        var found := Check(Forward, jump);
        if !found {
          PurgeKeepsOthers(table[Forward], jump);
          return true;
        }
        var done := RemoveJump(jump);
        if !done {
          return false;
        }
      }
      ok := false;
    }

    method ReadHookOk() returns (ok: bool)
      modifies this`misreads
      ensures misreads >= old(misreads)
      ensures misreads == old(misreads) ==> (ok <==> HookOk(table))
      ensures ok ==> HookOk(table)
    {
      var rules := List(Forward);
      ok := rules != [] && rules[0] == Plain(Hook) && Plain(Hook) !in rules[1..];
    }

    method ReadRulesOk(active: Option<Chain>, links: Links, target: Target) returns (ok: bool)
      modifies this`misreads
      ensures misreads >= old(misreads)
      ensures misreads == old(misreads) ==> (ok <==> RulesOk(table, active, links, target))
      ensures ok && Payload(links, target) != [] ==> RulesOk(table, active, links, target)
    {
      if active.None? {
        return false;
      }
      var hooked := ReadHookOk();
      if !hooked {
        return false;
      }
      var inHook := List(Hook);
      if inHook != [Plain(active.value)] {
        return false;
      }
      var expected: seq<Rule> := [];
      for d := 0 to |links.down|
        invariant expected == Rows(links, d, target)
      {
        for u := 0 to |links.up|
          invariant expected == Rows(links, d, target) + Row(links.down[d], links.up, u, target)
        {
          if links.down[d] != links.up[u] {
            expected := expected + [Rule(Some(links.down[d]), Some(links.up[u]), None, target)];
          }
        }
      }
      var inPayload := List(active.value);
      ok := inPayload == expected;
    }

    /** One downstream interface's rules, appended to a chain packets do not reach yet. */
    method LoadRow(next: Chain, i: string, up: seq<string>, target: Target) returns (ok: bool)
      requires Side(next) && !target.Jump? && next in table
      modifies this
      ensures Touched(old(trace), old(table), {next})
      ensures Counted(old(faults), old(replaceFaults), old(misreads))
      ensures replaceFaults == old(replaceFaults) && misreads == old(misreads)
      ensures ok ==> next in table && table[next] == old(table)[next] + Row(i, up, |up|, target)
      ensures faults == old(faults) ==> ok
    {
      hide View, Except, Row;
      assert old(table)[next] + [] == old(table)[next];
      RowNone(i, up, target);
      for u := 0 to |up|
        invariant Touched(old(trace), old(table), {next})
        invariant Counted(old(faults), old(replaceFaults), old(misreads))
        invariant replaceFaults == old(replaceFaults) && misreads == old(misreads)
        invariant next in table && table[next] == old(table)[next] + Row(i, up, u, target)
      {
        RowSnoc(i, up, u, target);
        if i != up[u] {
          var added := AppendRule(next, Rule(Some(i), Some(up[u]), None, target));
          if !added {
            return false;
          }
          Associates(old(table)[next], Row(i, up, u, target), [Rule(Some(i), Some(up[u]), None, target)]);
        }
      }
      ok := true;
    }

    lemma Associates(a: seq<Rule>, b: seq<Rule>, c: seq<Rule>)
      ensures a + b + c == a + (b + c)
      ensures b + [] == b
    {
    }

    method AppendRule(next: Chain, rule: Rule) returns (ok: bool)
      requires Side(next) && next in table && !rule.target.Jump?
      modifies this
      ensures trace == old(trace) + [table] && misreads == old(misreads) && replaceFaults == old(replaceFaults)
      ensures View(table) == View(old(table)) && Except(table, {next}) == Except(old(table), {next})
      ensures faults == old(faults) + (if ok then 0 else 1)
      ensures ok ==> next in table && table[next] == old(table)[next] + [rule]
    {
      ok := Run(Append(next, rule));
    }

    /** Builds the payload in the chain packets do not reach yet. */
    method Load(next: Chain, links: Links, target: Target) returns (ok: bool)
      requires Side(next) && !target.Jump?
      modifies this
      ensures Touched(old(trace), old(table), {next})
      ensures Counted(old(faults), old(replaceFaults), old(misreads))
      ensures replaceFaults == old(replaceFaults) && misreads == old(misreads)
      ensures ok ==> next in table && table[next] == Payload(links, target)
      ensures faults == old(faults) ==> ok
    {
      hide View, Except, Row;
      var created := Run(New(next));
      var flushed := Run(Flush(next));
      if !flushed {
        return false;
      }
      ghost var mid, n := table, |trace|;
      ok := Fill(next, links, target);
      Chain2(old(trace), old(table), n, mid, {next}, {next});
    }

    method Fill(next: Chain, links: Links, target: Target) returns (ok: bool)
      requires Side(next) && !target.Jump? && next in table && table[next] == []
      modifies this
      ensures Touched(old(trace), old(table), {next})
      ensures Counted(old(faults), old(replaceFaults), old(misreads))
      ensures replaceFaults == old(replaceFaults) && misreads == old(misreads)
      ensures ok ==> next in table && table[next] == Payload(links, target)
      ensures faults == old(faults) ==> ok
    {
      hide View, Except, Row;
      for d := 0 to |links.down|
        invariant Touched(old(trace), old(table), {next})
        invariant Counted(old(faults), old(replaceFaults), old(misreads))
        invariant replaceFaults == old(replaceFaults) && misreads == old(misreads)
        invariant next in table && table[next] == Rows(links, d, target)
      {
        ghost var mid, n := table, |trace|;
        var loaded := LoadRow(next, links.down[d], links.up, target);
        Chain2(old(trace), old(table), n, mid, {next}, {next});
        if !loaded {
          return false;
        }
      }
      ok := true;
    }

    // -------------------------------------------------------------- activate

    /** The fallback when there is nothing to replace, or -R failed. */
    method RefillHook(next: Chain) returns (ok: bool)
      requires Side(next)
      modifies this
      ensures Touched(old(trace), old(table), {Hook})
      ensures Counted(old(faults), old(replaceFaults), old(misreads)) && misreads == old(misreads)
      ensures RefillContract(Since(), ok, next)
    {
      hide View, Except;
      ok := Run(Flush(Hook));
      ghost var emptied := table;
      KeepsAt(old(trace), old(table), {Hook}, Forward);
      if ok {
        ok := Run(Append(Hook, Plain(next)));
        assert Since().steps[0] == emptied;
      }
    }

    /** The hook chain is made, and -R tried on its first entry if a side is active. */
    method ReplaceHook(next: Chain, active: Option<Chain>) returns (replaced: bool)
      requires Side(next)
      modifies this
      ensures Touched(old(trace), old(table), {Hook})
      ensures Counted(old(faults), old(replaceFaults), old(misreads)) && misreads == old(misreads)
      ensures ReplaceContract(Since(), replaced, next, active)
    {
      hide View, Except;
      var created := Run(New(Hook));
      replaced := false;
      if active.Some? {
        replaced := Run(Replace(Hook, 1, Plain(next)));
        assert |At(old(table), Hook)| == 1 ==> At(old(table), Hook)[0 := Plain(next)] == [Plain(next)];
      }
    }

    /** First part of `activate`: the hook's first entry jumps to `next`, by -R or by flush and append. */
    method PointHook(next: Chain, active: Option<Chain>) returns (ok: bool)
      requires Side(next)
      modifies this
      ensures Touched(old(trace), old(table), {Hook})
      ensures Counted(old(faults), old(replaceFaults), old(misreads)) && misreads == old(misreads)
      ensures PointContract(Since(), ok, next, active)
    {
      hide View, Except, Within, ReplaceContract, RefillContract, PointContract;
      ok := ReplaceHook(next, active);
      ghost var c, n, mid := Since(), |trace|, trace;
      if ok {
        PointByReplace(c, next, active);
        return;
      }
      TouchedWithin(old(trace), old(table), {Hook}, c);
      label L:
      ok := RefillHook(next);
      Chain2(old(trace), old(table), n, c.after, {Hook}, {Hook});
      Resume(old(trace), mid, trace);
      PointByRefill(c, Since@L(), ok, next, active);
      assert Since() == Join(c, Since@L());
    }

    /** Second part: entries after the first are deleted. */
    method TrimHook() returns (ok: bool)
      requires At(table, Hook) != []
      modifies this
      ensures Touched(old(trace), old(table), {Hook})
      ensures Counted(old(faults), old(replaceFaults), old(misreads)) && replaceFaults == old(replaceFaults)
      ensures Hook in table && TrimContract(Since(), ok)
    {
      hide View, Except;
      var rules := List(Hook);
      var n := |rules|;
      var i := 1;
      while i < n
        invariant Touched(old(trace), old(table), {Hook})
        invariant Counted(old(faults), old(replaceFaults), old(misreads)) && replaceFaults == old(replaceFaults)
        invariant Hook in table && 1 <= i
        invariant n > 0 ==> i <= n && misreads == old(misreads)
        invariant table[Hook] != [] && table[Hook][0] == old(table)[Hook][0]
        invariant n > 0 ==> |table[Hook]| == n - i + 1
        invariant i == 1 ==> table == old(table) && trace == old(trace)
        invariant n <= 1 ==> i == 1
        invariant misreads == old(misreads) ==> n == |old(table)[Hook]|
      {
        var deleted := Run(RemoveAt(Hook, 2));
        if !deleted {
          return false;
        }
        i := i + 1;
      }
      assert n > 0 ==> table[Hook] == [table[Hook][0]];
      ok := true;
    }

    /** Third part: unless the jump is first and single, it is deleted everywhere and inserted on top. */
    method AttachHook() returns (ok: bool)
      requires Hook in table
      modifies this
      ensures Touched(old(trace), old(table), {Forward})
      ensures Counted(old(faults), old(replaceFaults), old(misreads)) && replaceFaults == old(replaceFaults)
      ensures AttachContract(Since(), ok)
    {
      hide View, Purge;
      var good := ReadHookOk();
      if HookOk(table) {
        assert table[Forward] == [Plain(Hook)] + table[Forward][1..];
      }
      if !good {
        var gone := DelJump(Hook);
        if !gone {
          return false;
        }
        ExceptSame(table, old(table), {Forward}, Hook);
        PurgeKeepsOthers(old(table)[Forward], Plain(Hook));
        hide Except;
        var inserted := Run(Insert(Forward, Plain(Hook)));
        if !inserted {
          return false;
        }
      }
      ok := true;
    }

    method PrepareHook(next: Chain, active: Option<Chain>) returns (ok: bool)
      requires Side(next)
      modifies this
      ensures Touched(old(trace), old(table), {Hook})
      ensures Counted(old(faults), old(replaceFaults), old(misreads))
      ensures (ok ==> Hook in table) && PreparedContract(Since(), ok, next, active)
    {
      hide View, Except, PointContract, TrimContract, PreparedContract;
      ok := PointHook(next, active);
      ghost var p, n, mid := Since(), |trace|, trace;
      PointOnly(p, ok, next, active);
      if !ok {
        return;
      }
      label L:
      ok := TrimHook();
      Chain2(old(trace), old(table), n, p.after, {Hook}, {Hook});
      ghost var t := Since@L();
      PointThenTrim(p, t, ok, next, active);
      Resume(old(trace), mid, trace);
      assert Since() == Join(p, t);
    }

    method Activate(next: Chain, active: Option<Chain>) returns (ok: bool)
      requires Side(next)
      modifies this
      ensures Touched(old(trace), old(table), {Hook, Forward})
      ensures Counted(old(faults), old(replaceFaults), old(misreads)) && ActivateContract(Since(), ok, next, active)
    {
      hide View, Except, Within, PreparedContract, AttachContract, ActivateContract;
      ok := PrepareHook(next, active);
      ghost var p, n, mid := Since(), |trace|, trace;
      Widen(old(trace), old(table), {Hook}, {Hook, Forward});
      TouchedWithin(old(trace), old(table), {Hook}, p);
      if !ok {
        ActivateUnprepared(p, next, active);
        return;
      }
      label L:
      ok := AttachHook();
      ghost var a := Since@L();
      TouchedWithin(trace[..n], p.after, {Forward}, a);
      Chain2(old(trace), old(table), n, p.after, {Forward}, {Hook, Forward});
      ActivateDone(p, a, ok, next, active);
      Resume(old(trace), mid, trace);
      assert Since() == Join(p, a);
    }

    // ------------------------------------------------------- install and clean

    /** The part install4 and install6 share: load the other side, activate it, flush the old one. */
    method Swap(links: Links, target: Target, active: Option<Chain>) returns (ok: bool, now: Option<Chain>)
      requires KnownSide(active) && !target.Jump?
      modifies this
      ensures Touched(old(trace), old(table), SWAPPED)
      ensures Counted(old(faults), old(replaceFaults), old(misreads))
      ensures SwapContract(Since(), ok, links, target, active, now)
    {
      hide View, Except, SwapContract;
      ok := Load(OtherSide(active), links, target);
      now := active;
      Widen(old(trace), old(table), {OtherSide(active)}, SWAPPED);
      ghost var loaded, n1, mid := Since(), |trace|, trace;
      if !ok {
        SwapStopped(loaded, links, target, active);
        return;
      }
      label L:
      ok := SwitchOver(links, target, active);
      now := if ok then Some(OtherSide(active)) else active;
      Chain2(old(trace), old(table), n1, loaded.after, SWAPPED, SWAPPED);
      SwapAfterLoad(loaded, Since@L(), ok, links, target, active, now);
      Resume(old(trace), mid, trace);
      assert Since() == Join(loaded, Since@L());
    }

    /** Activation of the loaded side, then the old side is emptied. */
    method SwitchOver(links: Links, target: Target, active: Option<Chain>) returns (ok: bool)
      requires KnownSide(active) && OtherSide(active) in table && At(table, OtherSide(active)) == Payload(links, target)
      modifies this
      ensures Touched(old(trace), old(table), SWAPPED)
      ensures Counted(old(faults), old(replaceFaults), old(misreads))
      ensures SwapContract(Since(), ok, links, target, active, if ok then Some(OtherSide(active)) else active)
    {
      hide View, Except, Payload, SwapContract, ActivateContract;
      ok := Activate(OtherSide(active), active);
      KeepsAt(old(trace), old(table), {Hook, Forward}, OtherSide(active));
      Widen(old(trace), old(table), {Hook, Forward}, SWAPPED);
      ghost var activated, n1, mid := Since(), |trace|, trace;
      label L:
      if ok && active.Some? {
        var flushed := Run(Flush(active.value));
        Chain2(old(trace), old(table), n1, activated.after, {active.value}, SWAPPED);
      }
      SwapAfterActivate(activated, Since@L(), ok, links, target, active);
      Resume(old(trace), mid, trace);
      assert Since() == Join(activated, Since@L());
    }

    // ---------------------------------------------------------------- cleanup

    method DropJumps(jumps: seq<Chain>) returns (ok: bool)
      requires forall c | c in jumps :: c.Ours()
      modifies this
      ensures Touched(old(trace), old(table), {Forward})
      ensures Counted(old(faults), old(replaceFaults), old(misreads))
      ensures ok && misreads == old(misreads) ==> table[Forward] == Dropped(old(table)[Forward], jumps, |jumps|)
      ensures faults == old(faults) && misreads == old(misreads) ==>
        (ok <==> forall i | 0 <= i < |jumps| :: Removable(old(table), jumps[i]))
    {
      hide View, Except, Purge;
      for n := 0 to |jumps|
        invariant Touched(old(trace), old(table), {Forward})
        invariant Counted(old(faults), old(replaceFaults), old(misreads))
        invariant misreads == old(misreads) ==> table[Forward] == Dropped(old(table)[Forward], jumps, n)
        invariant faults == old(faults) && misreads == old(misreads) ==>
          forall i | 0 <= i < n :: Removable(old(table), jumps[i])
      {
        DroppedCounts(old(table)[Forward], jumps, n);
        ghost var was, from := trace, table;
        var done := DelJump(jumps[n]);
        Chain2(old(trace), old(table), |was|, from, {Forward}, {Forward});
        if !done {
          return false;
        }
      }
      ok := true;
    }

    method FlushAll(sweep: seq<Chain>, ghost chains: set<Chain>)
      requires forall i | 0 <= i < |sweep| :: sweep[i].Ours() && sweep[i] in chains
      modifies this
      ensures Touched(old(trace), old(table), chains)
      ensures Counted(old(faults), old(replaceFaults), old(misreads)) && misreads == old(misreads)
      ensures table.Keys == old(table).Keys
      ensures forall c | c in table :: table[c] == [] || table[c] == old(table)[c]
      ensures forall c | c in table && c !in sweep :: table[c] == old(table)[c]
      ensures faults == old(faults) ==> forall i | 0 <= i < |sweep| :: At(table, sweep[i]) == []
    {
      hide View, Except;
      for n := 0 to |sweep|
        invariant Touched(old(trace), old(table), chains)
        invariant Counted(old(faults), old(replaceFaults), old(misreads)) && misreads == old(misreads)
        invariant table.Keys == old(table).Keys
        invariant forall c | c in table :: table[c] == [] || table[c] == old(table)[c]
        invariant forall c | c in table && c !in sweep :: table[c] == old(table)[c]
        invariant faults == old(faults) ==> forall i | 0 <= i < n :: At(table, sweep[i]) == []
      {
        ghost var before := table;
        var flushed := Run(Flush(sweep[n]));
        ExceptWiden(table, before, {sweep[n]}, chains);
      }
    }

    method DeleteAll(sweep: seq<Chain>, ghost chains: set<Chain>)
      requires forall i | 0 <= i < |sweep| :: sweep[i].Ours() && sweep[i] in chains
      modifies this
      ensures Touched(old(trace), old(table), chains)
      ensures Counted(old(faults), old(replaceFaults), old(misreads)) && misreads == old(misreads)
      ensures forall c | c in table :: c in old(table) && table[c] == old(table)[c]
      ensures faults == old(faults) && Unreferenced(old(table), sweep) && AllEmpty(old(table), sweep) ==>
        forall i | 0 <= i < |sweep| :: sweep[i] !in table
    {
      hide View, Except;
      for n := 0 to |sweep|
        invariant Touched(old(trace), old(table), chains)
        invariant Counted(old(faults), old(replaceFaults), old(misreads)) && misreads == old(misreads)
        invariant forall c | c in table :: c in old(table) && table[c] == old(table)[c]
        invariant faults == old(faults) && Unreferenced(old(table), sweep) && AllEmpty(old(table), sweep) ==>
          forall i | 0 <= i < n :: sweep[i] !in table
      {
        ghost var before := table;
        assert Unreferenced(old(table), sweep) ==> !Referenced(table, sweep[n]);
        var deleted := Run(Delete(sweep[n]));
        ExceptWiden(table, before, {sweep[n]}, chains);
      }
    }

    /** cleanup4 and cleanup6, for their own lists of jumps and chains. */
    method Sweep(jumps: seq<Chain>, sweep: seq<Chain>, ghost chains: set<Chain>) returns (ok: bool)
      requires (forall c | c in jumps :: c.Ours()) && Forward in chains
      requires forall i | 0 <= i < |sweep| :: sweep[i].Ours() && sweep[i] in chains
      modifies this
      ensures Touched(old(trace), old(table), chains)
      ensures Counted(old(faults), old(replaceFaults), old(misreads)) && SweepContract(Since(), ok, jumps, sweep)
    {
      hide View, Except;
      ok := DropJumps(jumps);
      Widen(old(trace), old(table), {Forward}, chains);
      if ok {
        ghost var t1, n1 := table, |trace|;
        FlushAll(sweep, chains);
        Chain2(old(trace), old(table), n1, t1, chains, chains);
        ghost var t2, n2 := table, |trace|;
        if misreads == old(misreads) && faults == old(faults) && Unentangled(old(table), jumps, sweep) {
          SweptUnreferenced(old(table), t1, t2, jumps, sweep);
        }
        DeleteAll(sweep, chains);
        Chain2(old(trace), old(table), n2, t2, chains, chains);
      }
    }

    /** Since the trace had n tables, the kernel has taken a rule with this target into the probe chain. */
    ghost predicate Took(n: nat, target: Target)
      reads this
    {
      exists k | n <= k < |trace| :: Rule(None, None, None, target) in At(trace[k], Probe)
    }

    /** A capability probe builds a chain of its own and takes it down again. */
    method TryTarget(target: Target) returns (ok: bool)
      requires !target.Jump?
      modifies this
      ensures Touched(old(trace), old(table), {Probe})
      ensures Counted(old(faults), old(replaceFaults), old(misreads)) && misreads == old(misreads)
      ensures faults == old(faults) ==> ok
      ensures ok ==> Took(old(|trace|), target)
      ensures faults == old(faults) && Unentangled(old(table), [], [Probe]) ==> Probe !in table
    {
      hide View, Except;
      assert [Probe][0] == Probe;
      ok := BuildProbe(target);
      ghost var t1, n1 := table, |trace|;
      FlushAll([Probe], {Probe});
      Chain2(old(trace), old(table), n1, t1, {Probe}, {Probe});
      ghost var t2, n2 := table, |trace|;
      if Unentangled(old(table), [], [Probe]) && faults == old(faults) {
        ProbeUnreferenced(old(table), t2);
      }
      DeleteAll([Probe], {Probe});
      Chain2(old(trace), old(table), n2, t2, {Probe}, {Probe});
    }

    method BuildProbe(target: Target) returns (ok: bool)
      requires !target.Jump?
      modifies this
      ensures Touched(old(trace), old(table), {Probe})
      ensures Counted(old(faults), old(replaceFaults), old(misreads)) && misreads == old(misreads)
      ensures faults == old(faults) ==> ok
      ensures |trace| > old(|trace|) && (ok ==> Rule(None, None, None, target) in At(table, Probe))
    {
      hide View, Except;
      var created := Run(New(Probe));
      var flushed := Run(Flush(Probe));
      ok := Run(Append(Probe, Rule(None, None, None, target)));
    }

    lemma ProbeUnreferenced(t0: Table, t: Table)
      requires Unentangled(t0, [], [Probe]) && Except(t, {Probe}) == Except(t0, {Probe}) && At(t, Probe) == []
      ensures Unreferenced(t, [Probe])
    {
      forall k, i | k in t && 0 <= i < |t[k]|
        ensures !JumpsTo(t[k][i], [Probe])
      {
        ExceptSame(t, t0, {Probe}, k);
      }
    }

    lemma KeepsAt(was: seq<Table>, from: Table, chains: set<Chain>, c: Chain)
      requires Touched(was, from, chains) && c !in chains
      ensures At(table, c) == At(from, c)
      ensures forall k :: |was| <= k < |trace| ==> At(trace[k], c) == At(from, c)
    {
      hide View;
      ExceptSame(table, from, chains, c);
      forall k | |was| <= k < |trace|
        ensures At(trace[k], c) == At(from, c)
      {
        ExceptSame(trace[k], from, chains, c);
      }
    }
  }
}
