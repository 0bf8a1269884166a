/** configure: an edit of the configuration text that is a map update, checked before it replaces the file. */
module Ctl {
  import opened Wrappers
  import opened Text
  import opened Config
  import Net

  // -------------------------------------------------------- trimming, in parts

  lemma {:induction false} TrimStartAppend(a: string, b: string)
    ensures TrimStart(a + b) == if TrimStart(a) == "" then TrimStart(b) else TrimStart(a) + b
  {
    if a == "" {
      assert a + b == b;
    } else {
      assert (a + b)[1..] == a[1..] + b;
      TrimStartAppend(a[1..], b);
    }
  }

  lemma {:induction false} TrimEndAppend(a: string, b: string)
    ensures TrimEnd(a + b) == if TrimEnd(b) == "" then TrimEnd(a) else a + TrimEnd(b)
    decreases |b|
  {
    if b == "" {
      assert a + b == a;
    } else {
      assert (a + b)[..|a + b| - 1] == a + b[..|b| - 1];
      TrimEndAppend(a, b[..|b| - 1]);
    }
  }

  lemma {:induction false} TrimStartIdle(s: string)
    ensures TrimStart(s) != "" ==> !IsSpace(TrimStart(s)[0])
    ensures TrimStart(TrimStart(s)) == TrimStart(s)
  {
    if s != "" {
      TrimStartIdle(s[1..]);
    }
  }

  lemma {:induction false} TrimsCommute(s: string)
    ensures TrimStart(TrimEnd(s)) == TrimEnd(TrimStart(s))
  {
    if s != "" {
      var c, rest := [s[0]], s[1..];
      assert s == c + rest;
      TrimEndAppend(c, rest);
      TrimsCommute(rest);
      assert TrimEnd(c) == if IsSpace(s[0]) then "" else c;
      TrimStartAppend(c, TrimEnd(rest));
      assert TrimStart(c) == if IsSpace(s[0]) then "" else c;
      assert c[1..] == "";
    }
  }

  lemma {:induction false} TrimEndIdle(s: string)
    ensures TrimEnd(TrimEnd(s)) == TrimEnd(s)
  {
    if s != "" {
      TrimEndIdle(s[..|s| - 1]);
    }
  }

  lemma UnquoteTrimmed(s: string)
    ensures Unquote(TrimEnd(s)) == Unquote(s)
  {
    TrimsCommute(s);
    TrimEndIdle(TrimStart(s));
  }

  lemma {:induction false} TrimKeeps(s: string, c: char)
    ensures c in TrimStart(s) ==> c in s
    ensures c in TrimEnd(s) ==> c in s
  {
    if s != "" {
      assert s == [s[0]] + s[1..] && s == s[..|s| - 1] + [s[|s| - 1]];
      TrimKeeps(s[1..], c);
      TrimKeeps(s[..|s| - 1], c);
    }
  }

  // ----------------------------------------------------- what a line is about

  /** The text before the first '=', trimmed: how configure finds the line of a setting. */
  function RawKey(line: string): Option<string> {
    match SplitOnce(line)
    case None => None
    case Some(pair) => Some(Trim(pair.0))
  }

  predicate KeyChar(c: char) { 'A' <= c <= 'Z' || c == '_' || '0' <= c <= '9' }

  predicate KeyName(k: string) { k != "" && forall c | c in k :: KeyChar(c) }

  predicate OneLine(v: string) { '\n' !in v && '\r' !in v && '\0' !in v }

  predicate Entries(e: map<string, string>) { forall k | k in e :: KeyName(k) && OneLine(e[k]) }

  lemma SplitAt(a: string, b: string)
    requires '=' !in a
    ensures SplitOnce(a + "=" + b) == Some((a, b))
  {
    IndexOfFirst(a, '=', b);
    var s := a + "=" + b;
    assert s[..|a|] == a && s[|a| + 1..] == b;
  }

  lemma TrimAround(a: string, b: string)
    ensures Trim(a + "=" + b) == TrimStart(a) + "=" + TrimEnd(b)
  {
    TrimStartAppend(a + "=", b);
    TrimStartAppend(a, "=");
    TrimEndAppend(TrimStart(a) + "=", b);
    TrimEndAppend(TrimStart(a), "=");
    assert "="[..0] == "" && "="[1..] == "";
    assert TrimStart("=") == "=" && TrimEnd("=") == "=";
  }

  /** load and validate see the same key as configure does, unless the line is a comment. */
  lemma ReadBySplit(a: string, b: string)
    requires '=' !in a
    ensures var line := a + "=" + b;
      Read(line) == if TrimStart(a) != "" && TrimStart(a)[0] == '#' then Nothing else Setting(Trim(a), Unquote(b))
  {
    TrimAround(a, b);
    TrimKeeps(a, '=');
    SplitAt(TrimStart(a), TrimEnd(b));
    TrimStartIdle(a);
    UnquoteTrimmed(b);
  }

  lemma NoSplitNoSetting(line: string)
    requires SplitOnce(line).None?
    ensures !Read(line).Setting?
  {
    TrimKeeps(line, '=');
    TrimKeeps(TrimStart(line), '=');
  }

  lemma ReadsByRawKey(line: string)
    ensures Read(line).Setting? ==> RawKey(line) == Some(Read(line).key)
    ensures RawKey(line).Some? && KeyName(RawKey(line).value) ==> Read(line).Setting?
  {
    hide Read, Unquote;
    match SplitOnce(line)
    case None =>
      NoSplitNoSetting(line);
    case Some(pair) =>
      ReadBySplit(pair.0, pair.1);
      if TrimStart(pair.0) != "" && TrimStart(pair.0)[0] == '#' {
        FirstOfTrimmed(pair.0);
      }
  }

  lemma FirstOfTrimmed(a: string)
    requires TrimStart(a) != "" && TrimStart(a)[0] == '#'
    ensures !KeyName(Trim(a))
  {
    TrimEndAppend(TrimStart(a)[..1], TrimStart(a)[1..]);
    assert TrimStart(a) == TrimStart(a)[..1] + TrimStart(a)[1..];
    assert TrimStart(a)[..1] == "#" && "#"[..0] == "";
    assert TrimEnd("#") == "#";
    assert Trim(a)[0] == '#';
    assert '#' in Trim(a) && !KeyChar('#');
  }

  lemma TrimName(k: string)
    requires KeyName(k)
    ensures Trim(k) == k && TrimStart(k) == k && k[0] != '#' && '=' !in k
  {
    assert KeyChar(k[0]) && KeyChar(k[|k| - 1]);
    assert k[0] in k && k[|k| - 1] in k;
  }

  /** A line that configure writes says what it was given. */
  lemma WrittenReadsBack(k: string, v: string)
    requires KeyName(k)
    ensures Read(k + "=" + v) == Setting(k, Unquote(v)) && RawKey(k + "=" + v) == Some(k)
  {
    TrimName(k);
    ReadBySplit(k, v);
    SplitAt(k, v);
  }

  // ------------------------------------------------------------------ the edit

  function Written(e: map<string, string>, k: string): string
    requires k in e
  {
    k + "=" + e[k]
  }

  lemma {:induction false} FirstExists(keys: set<string>) returns (k: string)
    requires keys != {}
    ensures k in keys && forall j | j in keys :: j == k || Net.Less(k, j)
    decreases |keys|
  {
    k :| k in keys;
    var rest := keys - {k};
    if rest != {} {
      var m := FirstExists(rest);
      Net.LessTotal(m, k);
      forall j | j in keys && Net.Less(m, k)
        ensures j == m || Net.Less(m, j)
      {
        assert j != k ==> j in rest;
      }
      forall j | j in keys && Net.Less(k, m)
        ensures j == k || Net.Less(k, j)
      {
        if j != k && j != m {
          assert j in rest;
          Net.LessTransitive(k, m, j);
        }
      }
      if Net.Less(m, k) {
        k := m;
      }
    }
  }

  /** The first key of a BTreeMap. */
  ghost function First(keys: set<string>): (k: string)
    requires keys != {}
    ensures k in keys && forall j | j in keys :: j == k || Net.Less(k, j)
  {
    assert exists k :: k in keys && forall j | j in keys :: j == k || Net.Less(k, j) by {
      var k := FirstExists(keys);
    }
    var k :| k in keys && forall j | j in keys :: j == k || Net.Less(k, j);
    k
  }

  /** The settings no line had, in the order of their keys. */
  ghost function Appended(e: map<string, string>): seq<string>
    decreases |e|
  {
    if e == map[] then []
    else
      var k := First(e.Keys);
      Shrinks(e, k);
      [Written(e, k)] + Appended(e - {k})
  }

  lemma Shrinks(e: map<string, string>, k: string)
    requires k in e
    ensures |e - {k}| < |e|
  {
    assert (e - {k}).Keys == e.Keys - {k};
    assert |(e - {k}).Keys| < |e.Keys|;
  }

  /** The first line of each given setting is replaced, every other line stays, the rest is appended. */
  ghost function Edited(lines: seq<string>, e: map<string, string>): seq<string> {
    if lines == [] then Appended(e)
    else
      match RawKey(lines[0])
      case Some(k) =>
        if k in e then [Written(e, k)] + Edited(lines[1..], e - {k}) else [lines[0]] + Edited(lines[1..], e)
      case None => [lines[0]] + Edited(lines[1..], e)
  }

  function Count(lines: seq<string>, k: string): nat {
    if lines == [] then 0 else (if Sets(lines[0], k) then 1 else 0) + Count(lines[1..], k)
  }

  predicate Has(lines: seq<string>, k: string, v: string) { exists l | l in lines :: Read(l) == Setting(k, v) }

  lemma {:induction false} AppendedCounts(e: map<string, string>, k: string)
    requires Entries(e)
    ensures Count(Appended(e), k) == if k in e then 1 else 0
    ensures forall v :: Has(Appended(e), k, v) <==> k in e && v == Unquote(e[k])
    decreases |e|
  {
    hide Read, Unquote, KeyName, OneLine;
    if e != map[] {
      var f := First(e.Keys);
      Shrinks(e, f);
      WrittenReadsBack(f, e[f]);
      AppendedCounts(e - {f}, k);
      HeadHas(Written(e, f), Appended(e - {f}), k);
    }
  }

  /** How counting and reading proceed over the first line. */
  lemma HeadHas(line: string, rest: seq<string>, k: string)
    ensures Count([line] + rest, k) == (if Sets(line, k) then 1 else 0) + Count(rest, k)
    ensures forall v :: Has([line] + rest, k, v) <==> Read(line) == Setting(k, v) || Has(rest, k, v)
  {
    hide Read;
    assert ([line] + rest)[1..] == rest;
    assert forall l :: l in [line] + rest <==> l == line || l in rest;
  }

  /** The edit is a map update, line by line: given settings get one line with their value, others keep theirs. */
  lemma {:induction false} EditedCounts(lines: seq<string>, e: map<string, string>, k: string)
    requires Entries(e)
    ensures Count(Edited(lines, e), k) == if k in e && Count(lines, k) == 0 then 1 else Count(lines, k)
    ensures k in e ==> Has(Edited(lines, e), k, Unquote(e[k]))
    ensures k !in e ==> forall v :: Has(Edited(lines, e), k, v) <==> Has(lines, k, v)
  {
    hide Read, Unquote, KeyName, OneLine, RawKey;
    if lines == [] {
      AppendedCounts(e, k);
    } else {
      var line, rest := lines[0], lines[1..];
      assert lines == [line] + rest;
      HeadHas(line, rest, k);
      ReadsByRawKey(line);
      if RawKey(line).Some? && RawKey(line).value in e {
        var f := RawKey(line).value;
        EditedCounts(rest, e - {f}, k);
        WrittenReadsBack(f, e[f]);
        HeadHas(Written(e, f), Edited(rest, e - {f}), k);
      } else {
        EditedCounts(rest, e, k);
        HeadHas(line, Edited(rest, e), k);
      }
    }
  }

  ghost predicate AtMostOnce(lines: seq<string>) { forall k :: Count(lines, k) <= 1 }

  lemma {:induction false} DistinctCounts(lines: seq<string>)
    ensures KeysDistinct(lines) <==> AtMostOnce(lines)
  {
    if lines != [] {
      DistinctTail(lines);
      DistinctCounts(lines[1..]);
      AtMostOnceTail(lines);
      ZeroCount(lines[1..], if Read(lines[0]).Setting? then Read(lines[0]).key else "");
      hide Read, Count, KeysDistinct, AtMostOnce, Sets;
    }
  }

  lemma AtMostOnceTail(lines: seq<string>)
    requires lines != []
    ensures AtMostOnce(lines) <==>
      AtMostOnce(lines[1..]) && (Read(lines[0]).Setting? ==> Count(lines[1..], Read(lines[0]).key) == 0)
  {
    hide Read;
    var line, rest := lines[0], lines[1..];
    assert forall k :: Count(lines, k) == (if Sets(line, k) then 1 else 0) + Count(rest, k);
    if Read(line).Setting? {
      assert Sets(line, Read(line).key);
    }
    if AtMostOnce(rest) && (Read(line).Setting? ==> Count(rest, Read(line).key) == 0) {
      forall k
        ensures Count(lines, k) <= 1
      {
        assert Count(rest, k) <= 1;
      }
    }
    if AtMostOnce(lines) {
      forall k
        ensures Count(rest, k) <= 1
      {
        assert Count(lines, k) <= 1;
      }
      if Read(line).Setting? {
        assert Count(lines, Read(line).key) <= 1;
      }
    }
  }

  lemma {:induction false} ZeroCount(lines: seq<string>, k: string)
    ensures Count(lines, k) == 0 <==> forall i | 0 <= i < |lines| :: !Sets(lines[i], k)
  {
    if lines != [] {
      ZeroCount(lines[1..], k);
      assert forall i | 0 < i < |lines| :: lines[i] == lines[1..][i - 1];
    }
  }

  lemma DistinctTail(lines: seq<string>)
    requires lines != []
    ensures KeysDistinct(lines) <==>
      && KeysDistinct(lines[1..])
      && (Read(lines[0]).Setting? ==> forall i | 0 <= i < |lines[1..]| :: !Sets(lines[1..][i], Read(lines[0]).key))
  {
    hide Read;
    assert forall i | 0 < i < |lines| :: lines[i] == lines[1..][i - 1];
  }

  // ------------------------------------------------------ the file as a map

  /** The settings a list of lines makes; of several lines with one key the last counts. */
  function SettingsOf(lines: seq<string>): map<string, string> {
    if lines == [] then map[]
    else
      var first := if Read(lines[0]).Setting? then map[Read(lines[0]).key := Read(lines[0]).value] else map[];
      first + SettingsOf(lines[1..])
  }

  lemma {:induction false} SettingsAreRead(lines: seq<string>, k: string)
    requires AtMostOnce(lines)
    ensures forall v :: (k in SettingsOf(lines) && SettingsOf(lines)[k] == v) <==> Has(lines, k, v)
    ensures k in SettingsOf(lines) <==> Count(lines, k) > 0
  {
    if lines != [] {
      hide Read;
      assert lines == [lines[0]] + lines[1..];
      AtMostOnceTail(lines);
      SettingsAreRead(lines[1..], k);
      HeadHas(lines[0], lines[1..], k);
    }
  }

  function Given(e: map<string, string>): map<string, string> { map k | k in e :: Unquote(e[k]) }

  /** An edit that leaves no duplicates overrides exactly the given settings, with their unquoted values. */
  lemma EditIsUpdate(lines: seq<string>, e: map<string, string>)
    requires Entries(e) && AtMostOnce(Edited(lines, e))
    ensures AtMostOnce(lines) && SettingsOf(Edited(lines, e)) == SettingsOf(lines) + Given(e)
  {
    hide Read, Unquote, Edited, SettingsOf, Has, Entries;
    var edited := Edited(lines, e);
    forall k
      ensures Count(lines, k) <= 1
    {
      EditedCounts(lines, e, k);
      assert Count(edited, k) <= 1;
    }
    var was, now := SettingsOf(lines), SettingsOf(edited);
    forall k
      ensures (k in now <==> k in was || k in e) && (k in now ==> now[k] == (was + Given(e))[k])
    {
      EditedCounts(lines, e, k);
      SettingsAreRead(lines, k);
      SettingsAreRead(edited, k);
      if k in now && k !in e {
        assert Has(edited, k, now[k]);
      }
    }
    assert now == was + Given(e);
  }

  /** Lines that are not about a given setting stay where they are, as they are. */
  lemma {:induction false} EditKeepsLines(lines: seq<string>, e: map<string, string>, i: nat)
    requires Entries(e) && AtMostOnce(lines) && i < |lines|
    ensures i < |Edited(lines, e)|
    ensures var k := RawKey(lines[i]);
      Edited(lines, e)[i] == if k.Some? && k.value in e then Written(e, k.value) else lines[i]
  {
    hide Read, KeyName, OneLine, RawKey;
    ReadsByRawKey(lines[0]);
    AtMostOnceTail(lines);
    if i > 0 {
      var rest := lines[1..];
      ReadsByRawKey(lines[i]);
      ZeroCount(rest, if Read(lines[0]).Setting? then Read(lines[0]).key else "");
      assert rest[i - 1] == lines[i];
      var k := RawKey(lines[0]);
      EditKeepsLines(rest, if k.Some? && k.value in e then e - {k.value} else e, i - 1);
    }
  }

  // ------------------------------------------------------------------- the text

  function Unlines(lines: seq<string>): string {
    if lines == [] then "" else lines[0] + "\n" + Unlines(lines[1..])
  }

  function Stripped(lines: seq<string>): seq<string> {
    if lines == [] then [] else [StripCr(lines[0])] + Stripped(lines[1..])
  }

  predicate NoFeeds(lines: seq<string>) { forall i | 0 <= i < |lines| :: '\n' !in lines[i] }

  lemma {:induction false} WrittenLinesReadBack(lines: seq<string>)
    requires NoFeeds(lines)
    ensures Lines(Unlines(lines)) == Stripped(lines)
  {
    if lines != [] {
      FirstLine(lines[0], Unlines(lines[1..]));
      WrittenLinesReadBack(lines[1..]);
    }
  }

  lemma {:induction false} LinesHaveNoFeeds(s: string)
    ensures NoFeeds(Lines(s))
    decreases |s|
  {
    if s != "" {
      var i := IndexOf(s, '\n');
      if i < |s| {
        LinesHaveNoFeeds(s[i + 1..]);
      } else {
        assert s[..i] == s;
      }
    }
  }

  lemma ReadsWithoutCr(line: string)
    ensures Read(StripCr(line)) == Read(line)
  {
    if line != "" && line[|line| - 1] == '\r' {
      var t := line[..|line| - 1];
      assert line == t + "\r";
      TrimStartAppend(t, "\r");
      assert TrimStart("\r") == "" by {
        assert "\r"[1..] == "";
      }
      assert TrimEnd("\r") == "" by {
        assert "\r"[..0] == "";
      }
      TrimEndAppend(TrimStart(t), "\r");
      assert Trim(line) == Trim(t);
    }
  }

  lemma {:induction false} StrippedReadsSame(lines: seq<string>)
    ensures SettingsOf(Stripped(lines)) == SettingsOf(lines)
    ensures forall k :: Count(Stripped(lines), k) == Count(lines, k)
  {
    if lines != [] {
      hide Read, StripCr;
      ReadsWithoutCr(lines[0]);
      StrippedReadsSame(lines[1..]);
      assert Stripped(lines)[1..] == Stripped(lines[1..]);
    }
  }

  lemma {:induction false} EditedHasNoFeeds(lines: seq<string>, e: map<string, string>)
    requires NoFeeds(lines) && Entries(e)
    ensures NoFeeds(Edited(lines, e))
  {
    hide RawKey;
    if lines == [] {
      AppendedHasNoFeeds(e);
    } else {
      match RawKey(lines[0])
      case Some(k) =>
        if k in e {
          WrittenHasNoFeeds(e, k);
          EditedHasNoFeeds(lines[1..], e - {k});
        } else {
          EditedHasNoFeeds(lines[1..], e);
        }
      case None =>
        EditedHasNoFeeds(lines[1..], e);
    }
  }

  lemma WrittenHasNoFeeds(e: map<string, string>, k: string)
    requires Entries(e) && k in e
    ensures '\n' !in Written(e, k)
  {
    assert !KeyChar('\n');
  }

  lemma {:induction false} AppendedHasNoFeeds(e: map<string, string>)
    requires Entries(e)
    ensures NoFeeds(Appended(e))
    decreases |e|
  {
    if e != map[] {
      var k := First(e.Keys);
      Shrinks(e, k);
      WrittenHasNoFeeds(e, k);
      AppendedHasNoFeeds(e - {k});
    }
  }

  /** The text that is written, read again: accepted means the settings are the old ones overridden. */
  lemma SavedIsUpdate(text: string, e: map<string, string>)
    requires Entries(e) && Acceptable(Lines(Unlines(Edited(Lines(text), e))))
    ensures var saved := Lines(Unlines(Edited(Lines(text), e)));
      saved == Stripped(Edited(Lines(text), e)) && SettingsOf(saved) == SettingsOf(Lines(text)) + Given(e)
  {
    var edited := Edited(Lines(text), e);
    LinesHaveNoFeeds(text);
    EditedHasNoFeeds(Lines(text), e);
    WrittenLinesReadBack(edited);
    StrippedReadsSame(edited);
    hide Read, SqmOk, LoadLines, Overlap, WordsOf, LineOk, Edited, SettingsOf, Stripped, Entries, Unquote,
      Unlines, Lines;
    DistinctCounts(Stripped(edited));
    assert AtMostOnce(edited) by {
      forall k
        ensures Count(edited, k) <= 1
      {
        assert Count(Stripped(edited), k) <= 1;
      }
    }
    EditIsUpdate(Lines(text), e);
  }

  // ---------------------------------------------------------------- configure

  function ArgKey(s: string): string { if SplitOnce(s).Some? then SplitOnce(s).value.0 else "" }

  function ArgValue(s: string): string { if SplitOnce(s).Some? then SplitOnce(s).value.1 else "" }

  predicate ArgOk(s: string) { SplitOnce(s).Some? && KeyName(ArgKey(s)) && OneLine(ArgValue(s)) }

  predicate ArgsOk(args: seq<string>) {
    && (forall i | 0 <= i < |args| :: ArgOk(args[i]))
    && forall i, j | 0 <= i < j < |args| :: ArgKey(args[i]) != ArgKey(args[j])
  }

  /** The arguments as a map. */
  function Collect(args: seq<string>): map<string, string> {
    if args == [] then map[]
    else Collect(args[..|args| - 1])[ArgKey(args[|args| - 1]) := ArgValue(args[|args| - 1])]
  }

  predicate Mentions(args: seq<string>, k: string) { exists a | a in args :: ArgKey(a) == k }

  lemma {:induction false} CollectHas(args: seq<string>, k: string)
    ensures k in Collect(args) <==> Mentions(args, k)
  {
    hide ArgKey, ArgValue;
    if args != [] {
      CollectHas(args[..|args| - 1], k);
      assert args == args[..|args| - 1] + [args[|args| - 1]];
    }
  }

  lemma {:induction false} CollectIsFine(args: seq<string>)
    requires ArgsOk(args)
    ensures Entries(Collect(args))
  {
    hide KeyName, OneLine, ArgKey, ArgValue;
    if args != [] {
      CollectIsFine(args[..|args| - 1]);
    }
  }

  /** One more argument is fine exactly when its key is new. */
  lemma OneMoreArg(args: seq<string>, i: nat)
    requires i < |args| && ArgsOk(args[..i])
    ensures ArgsOk(args[..i + 1]) <==> ArgOk(args[i]) && !Mentions(args[..i], ArgKey(args[i]))
    ensures ArgsOk(args) ==> ArgsOk(args[..i + 1])
  {
    hide ArgOk, ArgKey;
    var now := args[..i + 1];
    assert now[..i] == args[..i] && now[i] == args[i];
    assert forall j | 0 <= j < i :: now[j] == args[..i][j];
    if ArgOk(args[i]) && !Mentions(args[..i], ArgKey(args[i])) {
      forall j | 0 <= j < i
        ensures ArgKey(now[j]) != ArgKey(now[i])
      {
        assert args[..i][j] in args[..i];
      }
    }
  }

  /** Each argument is KEY=VALUE and no key comes twice, or there is no result. */
  method ParseArgs(args: seq<string>) returns (r: Option<map<string, string>>)
    ensures r == if args != [] && ArgsOk(args) then Some(Collect(args)) else None
  {
    assert ArgsOk([]);
    hide ArgOk, ArgKey, ArgValue, ArgsOk, Mentions;
    assert args[..0] == [];
    var e: map<string, string> := map[];
    for i := 0 to |args|
      invariant e == Collect(args[..i]) && ArgsOk(args[..i])
    {
      assert args[..i + 1][..i] == args[..i];
      CollectHas(args[..i], ArgKey(args[i]));
      OneMoreArg(args, i);
      if !ArgOk(args[i]) || ArgKey(args[i]) in e {
        return None;
      }
      e := e[ArgKey(args[i]) := ArgValue(args[i])];
    }
    assert args[..|args|] == args;
    if args == [] {
      return None;
    }
    r := Some(e);
  }

  lemma FirstUnique(keys: set<string>, k: string)
    requires k in keys && forall j | j in keys :: j == k || Net.Less(k, j)
    ensures First(keys) == k
  {
    Net.LessTotal(k, First(keys));
  }

  /** The first loop: the lines in order, with the given settings replaced as they come up. */
  method Rewrite(current: string, entries: map<string, string>) returns (text: string)
    ensures text == Unlines(Edited(Lines(current), entries))
  {
    hide RawKey, Lines, Appended;
    text := "";
    var rest := entries;
    var lines := Lines(current);
    ghost var goal := Unlines(Edited(lines, entries));
    assert lines[0..] == lines;
    for i := 0 to |lines|
      invariant text + Unlines(Edited(lines[i..], rest)) == goal
    {
      ghost var before, tail, left := text, lines[i + 1..], rest;
      assert lines[i..] == [lines[i]] + tail;
      var key := RawKey(lines[i]);
      var line := lines[i];
      if key.Some? && key.value in rest {
        line := key.value + "=" + rest[key.value];
        rest := rest - {key.value};
      }
      text := text + line + "\n";
      assert Edited(lines[i..], left) == [line] + Edited(tail, rest);
      NextLine(before, line, Edited(tail, rest));
    }
    assert lines[|lines|..] == [];
    text := AppendRest(text, rest);
  }

  /** The second loop: what no line had, in the order of the keys. */
  method AppendRest(start: string, entries: map<string, string>) returns (text: string)
    ensures text == start + Unlines(Appended(entries))
  {
    text := start;
    var rest := entries;
    while rest != map[]
      invariant text + Unlines(Appended(rest)) == start + Unlines(Appended(entries))
      decreases |rest|
    {
      ghost var before, left := text, rest;
      ghost var first := FirstExists(rest.Keys);
      var k :| k in rest && forall j | j in rest.Keys :: j == k || Net.Less(k, j);
      FirstUnique(rest.Keys, k);
      Shrinks(rest, k);
      text := text + k + "=" + rest[k] + "\n";
      rest := rest - {k};
      assert text == before + Written(left, k) + "\n";
      NextLine(before, Written(left, k), Appended(rest));
    }
    assert text + "" == text;
  }

  lemma NextLine(before: string, line: string, rest: seq<string>)
    ensures before + Unlines([line] + rest) == before + line + "\n" + Unlines(rest)
  {
    assert ([line] + rest)[1..] == rest;
  }

  /**
   Refused: the file and the daemon are as before. StopFailed: the daemon was asked to stop and may have.
   LeftStopped: it has stopped, and the file could not be replaced. Saved: the edit is in force.
   NotRestarted: so it is, but the daemon did not come back.
   */
  datatype Outcome = Refused | StopFailed | LeftStopped | Saved | NotRestarted

  predicate Replaced(r: Outcome) { r == Saved || r == NotRestarted }

  /** The file that configure leaves: accepted, with the given settings in place of the old ones. */
  ghost predicate Rewritten(old': string, new': string, args: seq<string>) {
    && ArgsOk(args) && Acceptable(Lines(new'))
    && Lines(new') == Stripped(Edited(Lines(old'), Collect(args)))
    && SettingsOf(Lines(new')) == SettingsOf(Lines(old')) + Given(Collect(args))
  }

  class Module {
    var config: Option<string>
    var backup: Option<string>
    var temp: Option<string>
    var running: bool         // the daemon
    ghost var troubles: nat   // file operations, stops and starts that failed

    constructor (config: Option<string>, running: bool)
      ensures this.config == config && this.running == running
    {
      this.config, backup, temp, this.running, troubles := config, None, None, running, 0;
    }

    /** One operation outside the program: a file written or renamed, or the daemon stopped or started. */
    method Attempt() returns (ok: bool)
      modifies this`troubles
      ensures troubles == old(troubles) + (if ok then 0 else 1)
    {
      ok := *;
      troubles := troubles + (if ok then 0 else 1);
    }

    /** The daemon is stopped; when that is reported as failed it may have stopped all the same. */
    method Stop() returns (ok: bool)
      modifies this`troubles, this`running
      ensures troubles == old(troubles) + (if ok then 0 else 1) && (ok ==> !running) && (running ==> old(running))
    {
      ok := Attempt();
      var effect: bool := *;
      running := running && !ok && !effect;
    }

    method Configure(args: seq<string>) returns (r: Outcome)
      modifies this
      ensures !Replaced(r) ==> config == old(config)
      ensures Replaced(r) ==>
        && old(config).Some? && config.Some? && args != [] && Rewritten(old(config).value, config.value, args)
        && backup == old(config) && temp == None
      ensures old(config).None? || args == [] || !ArgsOk(args) ==> r == Refused
      ensures r == Refused || r == Saved ==> running == old(running)
      ensures r == LeftStopped || r == NotRestarted ==> old(running) && !running
      ensures r == StopFailed || r == LeftStopped ==> temp.Some? && old(running)
      ensures r == StopFailed || r == LeftStopped || r == NotRestarted ==> troubles > old(troubles)
      ensures troubles == old(troubles) && old(config).Some? && args != [] && ArgsOk(args) ==>
        (r == Saved <==> Acceptable(Lines(Unlines(Edited(Lines(old(config).value), Collect(args))))))
    {
      hide Acceptable, Edited, Lines, Stripped, SettingsOf, Entries, ArgsOk, Unlines, Collect;
      if config.None? {
        return Refused;
      }
      var parsed := ParseArgs(args);
      if parsed.None? {
        return Refused;
      }
      CollectIsFine(args);
      var text := Rewrite(config.value, parsed.value);
      var ok := Attempt();
      if !ok {
        return Refused;
      }
      temp := Some(text);
      var valid := Validate(temp);
      if !valid {
        temp := None;
        return Refused;
      }
      SavedIsUpdate(config.value, parsed.value);
      var wasRunning := running;
      if wasRunning {
        ok := Stop();
        if !ok {
          return StopFailed;
        }
      }
      ok := Attempt();
      if !ok {
        return if wasRunning then LeftStopped else Refused;
      }
      backup := config;
      ok := Attempt();
      if !ok {
        return if wasRunning then LeftStopped else Refused;
      }
      config, temp := temp, None;
      if wasRunning {
        ok := Attempt();
        running := ok;
      }
      r := if ok then Saved else NotRestarted;
    }
  }
}
