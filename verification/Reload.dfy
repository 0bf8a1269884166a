/** configure and load together: what the daemon loads from the file that configure has written. */
module Reload {
  import opened Wrappers
  import opened Text
  import opened Config
  import opened Ctl
  import Settings

  // ------------------------------------------------------------------- blanks

  predicate Blank(s: string) { forall i | 0 <= i < |s| :: s[i] == ' ' || s[i] == '\t' }

  lemma {:induction false} BlankIsTrimmed(s: string)
    requires Blank(s)
    ensures TrimStart(s) == "" && TrimEnd(s) == ""
    decreases |s|
  {
    if s != "" {
      BlankIsTrimmed(s[1..]);
      BlankIsTrimmed(s[..|s| - 1]);
    }
  }

  /** Blanks around a line, however many, make no difference to what it says. */
  lemma BlanksDoNotMatter(a: string, line: string, b: string)
    requires Blank(a) && Blank(b)
    ensures Read(a + line + b) == Read(line)
  {
    BlankIsTrimmed(a);
    BlankIsTrimmed(b);
    TrimStartAppend(a, line + b);
    TrimStartAppend(line, b);
    TrimEndAppend(TrimStart(line), b);
    assert a + line + b == a + (line + b);
    assert Trim(a + line + b) == Trim(line);
  }

  // --------------------------------------------------------- settings and load

  lemma NamesAreKeys(k: Key)
    ensures KeyOf(NameOf(k)) == Some(k)
  {
    Settings.NumberKeys();
    Settings.MoreNumberKeys();
    Settings.TextKeys();
    hide KeyOf;
  }

  /** The only line that names a setting decides it. */
  lemma {:induction false} OnlyLineLoads(lines: seq<string>, i: nat, k: Key)
    requires i < |lines| && Sets(lines[i], NameOf(k))
    requires forall j | 0 <= j < |lines| && j != i :: !Sets(lines[j], NameOf(k))
    ensures LoadLines(lines)[k] == Loaded(KindOf(k), Read(lines[i]).value, DefaultOf(KindOf(k)))
  {
    hide KeyOf, KindOf, Loaded, Read, DefaultOf;
    var rest, last := lines[..|lines| - 1], lines[|lines| - 1];
    NamesAreKeys(k);
    if i == |lines| - 1 {
      forall j | 0 <= j < |rest|
        ensures !(Read(rest[j]).Setting? && KeyOf(Read(rest[j]).key) == Some(k))
      {
        assert rest[j] == lines[j];
        KeyOfIsNamed(if Read(rest[j]).Setting? then Read(rest[j]).key else "");
      }
      UnsetKeepsDefault(rest, k);
    } else {
      assert forall j | 0 <= j < |rest| :: rest[j] == lines[j];
      OnlyLineLoads(rest, i, k);
      KeyOfIsNamed(if Read(last).Setting? then Read(last).key else "");
    }
  }

  lemma NoLineLoads(lines: seq<string>, k: Key)
    requires forall j | 0 <= j < |lines| :: !Sets(lines[j], NameOf(k))
    ensures LoadLines(lines)[k] == DefaultOf(KindOf(k))
  {
    hide KeyOf, KindOf, Read, DefaultOf, LoadLines;
    forall j | 0 <= j < |lines|
      ensures !(Read(lines[j]).Setting? && KeyOf(Read(lines[j]).key) == Some(k))
    {
      KeyOfIsNamed(if Read(lines[j]).Setting? then Read(lines[j]).key else "");
    }
    UnsetKeepsDefault(lines, k);
  }

  lemma DistinctAfter(lines: seq<string>, i: nat, name: string)
    requires KeysDistinct(lines) && i < |lines| && Sets(lines[i], name)
    ensures forall j | 0 <= j < |lines| && j != i :: !Sets(lines[j], name)
  {
    hide Read;
  }

  /** What load makes of a file in which no setting comes twice is decided by the settings, one by one. */
  lemma SettingDecides(lines: seq<string>, k: Key)
    requires AtMostOnce(lines)
    ensures var settings, name := SettingsOf(lines), NameOf(k);
      LoadLines(lines)[k] ==
        if name in settings then Loaded(KindOf(k), settings[name], DefaultOf(KindOf(k))) else DefaultOf(KindOf(k))
  {
    var name := NameOf(k);
    DistinctCounts(lines);
    SettingsAreRead(lines, name);
    ZeroCount(lines, name);
    hide Read, KindOf, Loaded, DefaultOf, LoadLines, SettingsOf, NameOf;
    if name in SettingsOf(lines) {
      var v := SettingsOf(lines)[name];
      assert Has(lines, name, v);
      var l :| l in lines && Read(l) == Setting(name, v);
      var i :| 0 <= i < |lines| && lines[i] == l;
      DistinctAfter(lines, i, name);
      OnlyLineLoads(lines, i, k);
    } else {
      NoLineLoads(lines, k);
    }
  }

  // ----------------------------------------------------------------- configure

  lemma {:induction false} CollectGives(args: seq<string>, i: nat)
    requires ArgsOk(args) && i < |args|
    ensures ArgKey(args[i]) in Collect(args) && Collect(args)[ArgKey(args[i])] == ArgValue(args[i])
  {
    hide ArgOk, ArgKey, ArgValue;
    var rest := args[..|args| - 1];
    if i < |args| - 1 {
      assert rest[i] == args[i];
      CollectGives(rest, i);
    }
  }

  /** An argument is an upper-case name, '=' and a value on one line, and is taken apart there. */
  lemma ArgumentsAreSplit(name: string, v: string)
    requires '=' !in name
    ensures ArgKey(name + "=" + v) == name && ArgValue(name + "=" + v) == v
    ensures ArgOk(name + "=" + v) <==> Settings.KeyName(name) && '\n' !in v && '\r' !in v && '\0' !in v
  {
    SplitAt(name, v);
  }

  lemma OldWasDistinct(old': string, new': string, args: seq<string>)
    requires Rewritten(old', new', args)
    ensures AtMostOnce(Lines(old')) && AtMostOnce(Lines(new'))
  {
    var edited := Edited(Lines(old'), Collect(args));
    CollectIsFine(args);
    DistinctCounts(Lines(new'));
    StrippedReadsSame(edited);
    hide Read, SqmOk, LoadLines, Overlap, WordsOf, LineOk, Edited, SettingsOf, Stripped, Entries, Unquote, Lines,
      ArgsOk;
    forall k
      ensures Count(edited, k) <= 1
    {
      assert Count(Stripped(edited), k) <= 1;
    }
    EditIsUpdate(Lines(old'), Collect(args));
  }

  /** What is then loaded: each given setting as its argument says, every other setting as before. */
  lemma ConfiguredIsLoaded(old': string, new': string, args: seq<string>, k: Key)
    requires Rewritten(old', new', args)
    ensures forall i | 0 <= i < |args| && ArgKey(args[i]) == NameOf(k) ::
      LoadLines(Lines(new'))[k] == Loaded(KindOf(k), Unquote(ArgValue(args[i])), DefaultOf(KindOf(k)))
    ensures (forall i | 0 <= i < |args| :: ArgKey(args[i]) != NameOf(k)) ==>
      LoadLines(Lines(new'))[k] == LoadLines(Lines(old'))[k]
  {
    OldWasDistinct(old', new', args);
    hide Acceptable, Edited, Stripped, AtMostOnce, Lines, LoadLines, KindOf, NameOf, Loaded, DefaultOf, ArgsOk, Collect,
      ArgKey, ArgValue, Unquote, SettingsOf;
    SettingDecides(Lines(old'), k);
    SettingDecides(Lines(new'), k);
    CollectHas(args, NameOf(k));
    forall i | 0 <= i < |args| && ArgKey(args[i]) == NameOf(k)
      ensures LoadLines(Lines(new'))[k] == Loaded(KindOf(k), Unquote(ArgValue(args[i])), DefaultOf(KindOf(k)))
    {
      CollectGives(args, i);
    }
    if NameOf(k) in Collect(args) {
      var a :| a in args && ArgKey(a) == NameOf(k);
      var i :| 0 <= i < |args| && args[i] == a;
      assert ArgKey(args[i]) == NameOf(k);
    }
  }
}
