/**
 The offload journal: three settings, each with a file saying what the program wrote and
 a file saying what was there before. Every outcome of a command or of a file operation
 is an input. A run that is cut short is one in which everything after the cut fails.
 */
module Offload {
  import opened Numbers
  import opened Wrappers
  import opened Text

  datatype Key = Hw | Bpf | BpfTethering

  function Ours(key: Key): string { if key == Hw then "1" else "false" }

  predicate Allowed(key: Key, v: string) {
    if key == Hw then v == "0" || v == "1" || v == "null" else v == "true" || v == "false" || v == "null"
  }

  /** One setting with its two files. */
  datatype Slot = Slot(setting: string, before: Option<string>, owned: Option<string>)

  /** A file write: complete, or given up with the file as it was or cut down to a prefix. */
  datatype Write = Write(ok: bool, touched: bool, kept: nat)

  function Left(w: Write, file: Option<string>, text: string): Option<string> {
    if w.ok then Some(text) else if w.touched then Some(text[..Min(w.kept, |text|)]) else file
  }

  /** What the system answers during one apply, and during one restore. */
  datatype Applying = Applying(read: bool, stat: bool, before: Write, owned: Write, effect: bool)
  datatype Restoring = Restoring(ownedRead: bool, read: bool, beforeRead: bool, ok: bool, effect: bool, reread: bool,
                                 ownedRemoved: bool, beforeRemoved: bool)

  function Applied(key: Key, s: Slot, p: Applying): Slot {
    if !p.read || !Allowed(key, s.setting) || s.setting == Ours(key) then s
    else
      var skip := p.stat && s.owned.Some?;
      var s1 := if skip then s else s.(before := Left(p.before, s.before, s.setting));
      if !skip && !p.before.ok then s1
      else
        var s2 := s1.(owned := Left(p.owned, s.owned, Ours(key)));
        if !p.owned.ok || !p.effect then s2 else s2.(setting := Ours(key))
  }

  predicate Writes(s: Slot, p: Restoring) {
    s.owned.Some? && s.setting == Trim(s.owned.value) && p.beforeRead && s.before.Some?
  }

  /** The setting after the write, if there is one. */
  function Written(s: Slot, p: Restoring): string {
    if Writes(s, p) && p.effect then Trim(s.before.value) else s.setting
  }

  /** Both files are about to be removed. */
  predicate Removes(s: Slot, p: Restoring) {
    p.ownedRead && s.owned.Some? && p.read &&
    (Writes(s, p) ==> p.ok && p.reread && Written(s, p) == Trim(s.before.value))
  }

  function Restored(s: Slot, p: Restoring): Slot {
    if !p.ownedRead || s.owned.None? || !p.read then s
    else if !Removes(s, p) then s.(setting := Written(s, p))
    else Slot(Written(s, p), if p.beforeRemoved then None else s.before, if p.ownedRemoved then None else s.owned)
  }

  // ------------------------------------------------------------------- safety

  /** The original value is in place, or the files say how to put it back. */
  predicate Safe(key: Key, s: Slot, original: string) {
    && (s.setting == original || (s.setting == Ours(key) && s.owned == Some(Ours(key))))
    && (s.owned.Some? ==>
          s.before == Some(original) && Allowed(key, original) && original != Ours(key) && s.owned.value <= Ours(key))
  }

  /** The owned file is there but its status cannot be read, and rewriting the other one is cut short. */
  predicate Tears(key: Key, s: Slot, p: Applying) {
    && p.read && Allowed(key, s.setting) && s.setting != Ours(key) && s.owned.Some? && !p.stat
    && !p.before.ok && p.before.touched && p.before.kept < |s.setting|
  }

  /** Only the file naming the old value goes away, or the claim goes away although the old value could not be read. */
  predicate Strands(s: Slot, p: Restoring) {
    && Removes(s, p)
    && if p.ownedRemoved then s.owned == Some(s.setting) && !p.beforeRead else p.beforeRemoved
  }

  lemma TrimPlain(s: string)
    requires forall c | c in s :: !IsSpace(c)
    ensures Trim(s) == s
  {
  }

  lemma OursTrims(key: Key, s: string)
    requires s <= Ours(key) || Allowed(key, s)
    ensures Trim(s) == s
  {
    TrimPlain(s);
  }

  lemma ProperPrefixIsInvalid(key: Key, s: string)
    requires s <= Ours(key) && s != Ours(key)
    ensures !Allowed(key, s)
  {
    assert s == Ours(key)[..|s|] && |s| < |Ours(key)|;
    assert s != "" ==> s[0] == Ours(key)[0];
  }

  lemma LeftIsPrefix(w: Write, file: Option<string>, text: string)
    requires !w.ok && w.touched
    ensures Left(w, file, text).Some? && Left(w, file, text).value <= text
    ensures Left(w, file, text).value == text <==> w.kept >= |text|
  {
    assert text[..|text|] == text;
  }

  lemma ApplyIsSafe(key: Key, s: Slot, original: string, p: Applying)
    requires Safe(key, s, original)
    ensures Safe(key, Applied(key, s, p), original) <==> !Tears(key, s, p)
  {
    if !p.before.ok && p.before.touched {
      LeftIsPrefix(p.before, s.before, s.setting);
    }
    if !p.owned.ok && p.owned.touched {
      LeftIsPrefix(p.owned, s.owned, Ours(key));
    }
    hide Left;
    if p.before.ok {
      assert Left(p.before, s.before, s.setting) == Some(s.setting);
    }
  }

  lemma RestoreIsSafe(key: Key, s: Slot, original: string, p: Restoring)
    requires Safe(key, s, original)
    ensures Safe(key, Restored(s, p), original) <==> !Strands(s, p)
  {
    hide Trim;
    if s.owned.Some? {
      OursTrims(key, s.owned.value);
      OursTrims(key, original);
      if s.owned.value != Ours(key) {
        ProperPrefixIsInvalid(key, s.owned.value);
      }
    }
  }

  /** A restore that runs to its end puts the original back, unless it could not read what that was. */
  lemma FinishedRestoreRecovers(key: Key, s: Slot, original: string, p: Restoring)
    requires Safe(key, s, original) && p.ownedRead && (s.owned.Some? ==> Removes(s, p))
    ensures Restored(s, p).setting == original <==> !(s.owned == Some(s.setting) && !p.beforeRead)
  {
    hide Trim;
    if s.owned.Some? {
      OursTrims(key, s.owned.value);
      OursTrims(key, original);
      if s.owned.value != Ours(key) {
        ProperPrefixIsInvalid(key, s.owned.value);
      }
    }
  }

  /** The setting commands a restore issues. */
  function Issued(key: Key, s: Slot, p: Restoring): seq<(Key, string)> {
    if p.ownedRead && p.read && Writes(s, p) then [(key, Trim(s.before.value))] else []
  }

  /** No command is issued for a setting somebody changed since, and without one the setting stays. */
  lemma RestoreRespectsOthers(key: Key, s: Slot, p: Restoring)
    ensures Issued(key, s, p) != [] ==> s.owned.Some? && s.setting == Trim(s.owned.value) && p.read
    ensures Issued(key, s, p) == [] ==> Restored(s, p).setting == s.setting
  {
  }

  // --------------------------------------------------------------------- runs

  datatype Move = Apply(a: Applying) | Restore(r: Restoring)

  function After(key: Key, s: Slot, m: Move): Slot { if m.Apply? then Applied(key, s, m.a) else Restored(s, m.r) }

  function Run(key: Key, s: Slot, moves: seq<Move>): Slot
    decreases |moves|
  {
    if moves == [] then s else Run(key, After(key, s, moves[0]), moves[1..])
  }

  predicate Harmless(key: Key, s: Slot, m: Move) { if m.Apply? then !Tears(key, s, m.a) else !Strands(s, m.r) }

  predicate AllHarmless(key: Key, s: Slot, moves: seq<Move>)
    decreases |moves|
  {
    moves == [] || (Harmless(key, s, moves[0]) && AllHarmless(key, After(key, s, moves[0]), moves[1..]))
  }

  lemma {:induction false} RunIsSafe(key: Key, s: Slot, original: string, moves: seq<Move>)
    requires Safe(key, s, original) && AllHarmless(key, s, moves)
    ensures Safe(key, Run(key, s, moves), original)
    decreases |moves|
  {
    if moves != [] {
      hide Safe, Applied, Restored, Tears, Strands;
      if moves[0].Apply? {
        ApplyIsSafe(key, s, original, moves[0].a);
      } else {
        RestoreIsSafe(key, s, original, moves[0].r);
      }
      RunIsSafe(key, After(key, s, moves[0]), original, moves[1..]);
    }
  }

  // ------------------------------------------------- which outcomes are harmless

  /**
   Outcomes that keep every recoverable setting recoverable: no torn write of `before` after a failed
   status, no claim removed without its old value read, no old value removed without its claim.
   */
  predicate Steady(m: Move) {
    match m
    case Apply(a) => !(a.read && !a.stat && !a.before.ok && a.before.touched && a.before.kept < 4)
    case Restore(r) => !(r.ownedRead && r.read && (if r.ownedRemoved then !r.beforeRead else r.beforeRemoved))
  }

  lemma SteadyIsHarmless(key: Key, s: Slot, original: string, m: Move)
    requires Safe(key, s, original) && Steady(m)
    ensures Harmless(key, s, m)
  {
  }

  /** Any other outcome loses some setting: the condition is exact. */
  lemma UnsteadyHarms(m: Move) returns (key: Key, s: Slot, original: string)
    requires !Steady(m)
    ensures Safe(key, s, original) && !Safe(key, After(key, s, m), original)
  {
    key, original := Bpf, "true";
    if m.Apply? {
      s := Slot("true", Some("true"), Some("false"));
      ApplyIsSafe(key, s, original, m.a);
    } else {
      s := Slot(if m.r.ownedRemoved then "false" else "true", Some("true"), Some("false"));
      OursTrims(key, "false");
      RestoreIsSafe(key, s, original, m.r);
    }
  }

  lemma {:induction false} SteadyRun(key: Key, s: Slot, original: string, moves: seq<Move>)
    requires Safe(key, s, original) && forall m | m in moves :: Steady(m)
    ensures AllHarmless(key, s, moves)
    decreases |moves|
  {
    if moves != [] {
      hide Safe, Applied, Restored, Tears, Strands, Steady, Harmless;
      assert moves[0] in moves;
      SteadyIsHarmless(key, s, original, moves[0]);
      RunIsSafe(key, s, original, [moves[0]]) by {
        assert AllHarmless(key, After(key, s, moves[0]), [moves[0]][1..]);
      }
      assert [moves[0]][1..] == [];
      SteadyRun(key, After(key, s, moves[0]), original, moves[1..]);
    }
  }

  /** The outcomes of a restore that runs to its end: all reads work, and the write takes effect. */
  predicate Completes(p: Restoring) { p.ownedRead && p.read && p.beforeRead && p.ok && p.effect && p.reread }

  /** Whatever applies and restores ran before, with steady outcomes, a restore that runs to its end recovers. */
  lemma RunThenRestoreRecovers(key: Key, start: Slot, moves: seq<Move>, p: Restoring)
    requires start.owned.None? && Completes(p) && forall m | m in moves :: Steady(m)
    ensures Restored(Run(key, start, moves), p).setting == start.setting
  {
    SteadyRun(key, start, start.setting, moves);
    RunIsSafe(key, start, start.setting, moves);
    FinishedRestoreRecovers(key, Run(key, start, moves), start.setting, p);
  }

  // ---------------------------------------------------------- interrupted runs

  /** A file write in a run that ends in step `steps`: it may still be cut down to a prefix when it is that step. */
  function CutWrite(w: Write, steps: nat, at: nat): Write {
    if steps > at then w else if steps == at then Write(false, w.touched, w.kept) else Write(false, false, 0)
  }

  /** The same call, ended in step `steps`; a command that is that step may or may not take effect. */
  function Cut(m: Move, steps: nat): Move {
    match m
    case Apply(a) =>
      Apply(Applying(a.read && steps > 0, a.stat, CutWrite(a.before, steps, 2), CutWrite(a.owned, steps, 3),
                     a.effect && steps >= 4))
    case Restore(r) =>
      Restore(Restoring(r.ownedRead && steps > 0, r.read && steps > 1, r.beforeRead && steps > 2, r.ok && steps > 3,
                        r.effect && steps >= 3, r.reread && steps > 4,
                        r.ownedRemoved && steps > 5, r.beforeRemoved && steps > 6))
  }

  /** The status, reading the old value and removing the claim work; every other outcome is free. */
  predicate Works(m: Move) { if m.Apply? then m.a.stat else m.r.beforeRead && m.r.ownedRemoved }

  lemma CutIsSteady(m: Move, steps: nat)
    requires Works(m)
    ensures Steady(Cut(m, steps))
  {
  }

  function CutAll(moves: seq<Move>, steps: seq<nat>): (cut: seq<Move>)
    requires |steps| == |moves|
  {
    seq(|moves|, i requires 0 <= i < |moves| => Cut(moves[i], steps[i]))
  }

  /**
   Applies and restores, each cut in any step, with file writes torn and setting writes failing or taking
   effect unreported as they like: the next restore that runs to its end gives the original back.
   */
  lemma InterruptedRunsRecover(key: Key, start: Slot, moves: seq<Move>, steps: seq<nat>, p: Restoring)
    requires start.owned.None? && |steps| == |moves| && Completes(p) && forall m | m in moves :: Works(m)
    ensures Restored(Run(key, start, CutAll(moves, steps)), p).setting == start.setting
  {
    var cut := CutAll(moves, steps);
    forall m | m in cut
      ensures Steady(m)
    {
      var i :| 0 <= i < |cut| && cut[i] == m;
      assert moves[i] in moves;
      CutIsSteady(moves[i], steps[i]);
    }
    RunThenRestoreRecovers(key, start, cut, p);
  }

  const DONE := Write(true, true, 0)
  const APPLY := Applying(true, true, DONE, DONE, true)
  const RESTORE := Restoring(true, true, true, true, true, true, true, true)

  /** One claim that could not be removed, and the next apply and restore lose the original for good. */
  lemma FailedRemovalStrands()
    ensures var moves := [Apply(APPLY), Restore(RESTORE.(ownedRemoved := false)), Apply(APPLY), Restore(RESTORE)];
      Run(Hw, Slot("0", None, None), moves) == Slot("1", None, None)
  {
    var s0 := Slot("0", None, None);
    var stuck := RESTORE.(ownedRemoved := false);
    OursTrims(Hw, "1");
    OursTrims(Hw, "0");
    hide Trim;
    var s1 := Slot("1", Some("0"), Some("1"));
    assert Applied(Hw, s0, APPLY) == s1;
    var s2 := Slot("0", None, Some("1"));
    assert Restored(s1, stuck) == s2;
    var s3 := Slot("1", None, Some("1"));
    assert Applied(Hw, s2, APPLY) == s3;
    assert Restored(s3, RESTORE) == Slot("1", None, None);
    var m0, m1, m2, m3 := Apply(APPLY), Restore(stuck), Apply(APPLY), Restore(RESTORE);
    assert [m0, m1, m2, m3][1..] == [m1, m2, m3] && [m1, m2, m3][1..] == [m2, m3];
    assert [m2, m3][1..] == [m3] && [m3][1..] == [];
    assert Run(Hw, s3, [m3]) == Slot("1", None, None);
    assert Run(Hw, s2, [m2, m3]) == Run(Hw, s3, [m3]);
    assert Run(Hw, s1, [m1, m2, m3]) == Run(Hw, s2, [m2, m3]);
  }

  // ------------------------------------------------- when every operation works

  predicate ApplyWorks(p: Applying) { p.read && p.stat && p.before.ok && p.owned.ok && p.effect }

  predicate RestoreWorks(p: Restoring) { Completes(p) && p.ownedRemoved && p.beforeRemoved }

  /**
   Offload that was on, or left to the system, is switched off and claimed, with the old value on record
   unless there was a claim before; everything else stays as it was, files included.
   */
  predicate SwitchedOff(key: Key, was: Slot, now: Slot) {
    match key
    case Hw =>
      if was.setting == "0" || was.setting == "null" then
        now == Slot("1", if was.owned.Some? then was.before else Some(was.setting), Some("1"))
      else now == was
    case Bpf | BpfTethering =>
      if was.setting == "true" || was.setting == "null" then
        now == Slot("false", if was.owned.Some? then was.before else Some(was.setting), Some("false"))
      else now == was
  }

  /** A claimed setting that still has our value gets its old one back; a claim always ends, with both its files. */
  predicate GivenBack(was: Slot, now: Slot) {
    if was.owned.None? then now == was
    else
      && now.before == None && now.owned == None
      && now.setting ==
           if was.setting == Trim(was.owned.value) && was.before.Some? then Trim(was.before.value) else was.setting
  }

  lemma ApplySwitchesOff(key: Key, s: Slot, p: Applying)
    requires ApplyWorks(p)
    ensures SwitchedOff(key, s, Applied(key, s, p))
  {
  }

  lemma RestoreGivesBack(s: Slot, p: Restoring)
    requires RestoreWorks(p)
    ensures GivenBack(s, Restored(s, p))
  {
    hide Trim;
  }

  /** Whatever fails, a setting is only ever changed to the value that switches offload off, behind a complete claim. */
  lemma ChangedOnlyWhenClaimed(key: Key, s: Slot, p: Applying)
    ensures var now := Applied(key, s, p);
      now.setting != s.setting ==>
        && (key == Hw ==> now.setting == "1" && s.setting in {"0", "null"})
        && (key != Hw ==> now.setting == "false" && s.setting in {"true", "null"})
        && now.owned == Some(now.setting) && (s.owned.None? ==> now.before == Some(s.setting))
  {
  }

  /** An apply and a restore that both work leave nothing behind. */
  lemma ApplyThenRestore(key: Key, was: Slot, mid: Slot, now: Slot)
    requires was.owned.None? && was.before.None? && SwitchedOff(key, was, mid) && GivenBack(mid, now)
    ensures now == was
  {
    if mid != was {
      OursTrims(key, mid.setting);
      OursTrims(key, was.setting);
    }
    hide Trim;
  }

  // ---------------------------------------------------------------- the program

  const KEYS: seq<Key> := [Hw, Bpf, BpfTethering]

  /** The keys a loop over KEYS has dealt with before step i. */
  predicate Done(key: Key, i: nat) {
    match key
    case Hw => i > 0
    case Bpf => i > 1
    case BpfTethering => i > 2
  }

  class Phone {
    var setting: map<Key, string>
    var before: map<Key, string>
    var owned: map<Key, string>
    ghost var issued: seq<(Key, string)>   // the setting commands of restores

    ghost predicate Valid()
      reads this
    {
      forall k: Key :: k in setting
    }

    function File(files: map<Key, string>, key: Key): Option<string> {
      if key in files then Some(files[key]) else None
    }

    function At(key: Key): Slot
      requires key in setting
      reads this
    {
      Slot(setting[key], File(before, key), File(owned, key))
    }

    /** Only this key's slot may differ. */
    twostate predicate Only(key: Key)
      requires old(Valid()) && Valid()
      reads this
    {
      forall k: Key | k != key :: At(k) == old(At(k))
    }

    method ApplyKey(key: Key, p: Applying)
      requires Valid()
      modifies this
      ensures Valid() && Only(key) && At(key) == Applied(key, old(At(key)), p)
    {
      if !p.read {
        return;
      }
      var current := setting[key];
      if !Allowed(key, current) || current == Ours(key) {
        return;
      }
      if !(p.stat && key in owned) {
        before := Store(before, key, current, p.before);
        if !p.before.ok {
          return;
        }
      }
      owned := Store(owned, key, Ours(key), p.owned);
      if !p.owned.ok {
        return;
      }
      if p.effect {
        setting := setting[key := Ours(key)];
      }
    }

    function Store(files: map<Key, string>, key: Key, text: string, w: Write): (r: map<Key, string>)
      ensures File(r, key) == Left(w, File(files, key), text)
      ensures forall k | k != key :: File(r, k) == File(files, k)
    {
      if w.ok then files[key := text]
      else if w.touched then files[key := text[..Min(w.kept, |text|)]]
      else files
    }

    /** The old value is written back and read again, if the setting is still ours and the old value is known. */
    method PutBack(key: Key, p: Restoring) returns (go: bool)
      requires Valid() && key in owned
      modifies this`setting, this`issued
      ensures issued == old(issued) + (if Writes(old(At(key)), p) then [(key, Trim(old(At(key)).before.value))] else [])
      ensures Valid() && Only(key) && At(key) == old(At(key)).(setting := Written(old(At(key)), p))
      ensures go <==> (Writes(old(At(key)), p) ==> p.ok && p.reread && setting[key] == Trim(old(At(key)).before.value))
    {
      hide Trim;
      if setting[key] != Trim(owned[key]) || !p.beforeRead || key !in before {
        return true;
      }
      var value := Trim(before[key]);
      issued := issued + [(key, value)];
      if p.effect {
        setting := setting[key := value];
      }
      go := p.ok && p.reread && setting[key] == value;
    }

    method RestoreKey(key: Key, p: Restoring)
      requires Valid()
      modifies this
      ensures Valid() && Only(key) && At(key) == Restored(old(At(key)), p)
      ensures issued == old(issued) + Issued(key, old(At(key)), p)
    {
      hide Trim;
      if !p.ownedRead || key !in owned || !p.read {
        return;
      }
      var go := PutBack(key, p);
      if !go {
        return;
      }
      if p.ownedRemoved {
        owned := owned - {key};
      }
      if p.beforeRemoved {
        before := before - {key};
      }
    }

    /** apply: the three settings in turn. */
    method ApplyAll(enabled: bool, p: map<Key, Applying>)
      requires Valid() && forall k: Key :: k in p
      modifies this
      ensures Valid()
      ensures forall k: Key :: At(k) == if enabled then Applied(k, old(At(k)), p[k]) else old(At(k))
      ensures forall k: Key | enabled && ApplyWorks(p[k]) :: SwitchedOff(k, old(At(k)), At(k))
    {
      if !enabled {
        return;
      }
      hide Applied;
      for i := 0 to |KEYS|
        invariant Valid()
        invariant forall k: Key :: At(k) == if Done(k, i) then Applied(k, old(At(k)), p[k]) else old(At(k))
      {
        ApplyKey(KEYS[i], p[KEYS[i]]);
      }
      forall k: Key | ApplyWorks(p[k])
        ensures SwitchedOff(k, old(At(k)), At(k))
      {
        ApplySwitchesOff(k, old(At(k)), p[k]);
      }
    }

    /** restore: the three settings in turn. */
    method RestoreAll(p: map<Key, Restoring>)
      requires Valid() && forall k: Key :: k in p
      modifies this
      ensures Valid()
      ensures forall k: Key :: At(k) == Restored(old(At(k)), p[k])
      ensures forall k: Key | RestoreWorks(p[k]) :: GivenBack(old(At(k)), At(k))
    {
      hide Restored;
      for i := 0 to |KEYS|
        invariant Valid()
        invariant forall k: Key :: At(k) == if Done(k, i) then Restored(old(At(k)), p[k]) else old(At(k))
      {
        RestoreKey(KEYS[i], p[KEYS[i]]);
      }
      forall k: Key | RestoreWorks(p[k])
        ensures GivenBack(old(At(k)), At(k))
      {
        RestoreGivesBack(old(At(k)), p[k]);
      }
    }
  }
}
