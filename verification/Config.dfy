/** The configuration file: what load makes of any text, and which texts validate accepts. */
module Config {
  import opened Numbers
  import opened Wrappers
  import opened Text
  import Net

  // ------------------------------------------------------------------- lines

  function Unquote(text: string): string {
    var s := Trim(text);
    if |s| >= 2 && (s[0] == s[|s| - 1] == '"' || s[0] == s[|s| - 1] == '\'') then s[1..|s| - 1] else s
  }

  /** What one line says. */
  datatype Reading = Nothing | NotASetting | Setting(key: string, value: string)

  function Read(raw: string): Reading {
    var line := Trim(raw);
    if line == "" || line[0] == '#' then Nothing
    else
      match SplitOnce(line)
      case None => NotASetting
      case Some(pair) => Setting(Trim(pair.0), Unquote(pair.1))
  }

  function Words(s: string): seq<string>
    decreases |s|
  {
    if s == "" then []
    else if IsSpace(s[0]) then Words(s[1..])
    else [s[..WordEnd(s)]] + Words(s[WordEnd(s)..])
  }

  function WordEnd(s: string): (n: nat)
    ensures n <= |s| && (s != "" && !IsSpace(s[0]) ==> n > 0)
  {
    if s == "" || IsSpace(s[0]) then 0 else 1 + WordEnd(s[1..])
  }

  function Negated(n: int): int { -n }

  /** str::parse for a signed integer type. */
  function ParseSigned(s: string, max: nat): Option<int> {
    if s != "" && s[0] == '-' then
      if |s| < 2 || s[1] == '+' then None
      else
        match ParseUnsigned(s[1..], max + 1)
        case None => None
        case Some(n) => Some(Negated(n))
    else
      match ParseUnsigned(s, max)
      case None => None
      case Some(n) => Some(n)
  }

  // ---------------------------------------------------------------- settings

  datatype Backend = AutoBackend | KernelTarget | Nfqueue
  datatype Ipv6Mode = AutoMode | NormalizeMode | BlockMode | PassMode

  datatype Value = Number(n: int) | Flag(on: bool) | BackendIs(backend: Backend) | ModeIs(mode: Ipv6Mode)
                 | Names(names: seq<string>) | Iface(name: string)

  datatype Key = Ttl | Ipv6Hl | Workers | MaxFailures | Cooldown | QueueMaxlen | RcvbufMb | MaxBacklog | StallLimit
               | WatchdogMs | IdleMs | RescanMs | CheckMs | SqmUpKbit | SqmDownKbit | DisableOffload | Gso | BackendName
               | Ipv6ModeName | Downstreams | Upstreams | SqmUpIface | SqmDownIface

  /** The settings; each is always present. */
  type Config = c: map<Key, Value> | forall k: Key :: k in c
    ghost witness map k: Key :: Flag(true)

  /** What load does with a number outside the bounds. */
  datatype Stray = Keep | Clamp | Take

  datatype Kind = Num(lo: int, hi: int, max: nat, signed: bool, fallback: int, stray: Stray)
                | FlagKind(on: bool) | BackendKind | ModeKind | NamesKind | IfaceKind

  function KeyOf(name: string): Option<Key> {
    if name == "TTL" then Some(Ttl)
    else if name == "IPV6_HL" then Some(Ipv6Hl)
    else if name == "WORKERS" then Some(Workers)
    else if name == "MAX_FAILURES" then Some(MaxFailures)
    else if name == "COOLDOWN" then Some(Cooldown)
    else if name == "QUEUE_MAXLEN" then Some(QueueMaxlen)
    else if name == "RCVBUF_MB" then Some(RcvbufMb)
    else if name == "MAX_BACKLOG" then Some(MaxBacklog)
    else if name == "STALL_LIMIT" then Some(StallLimit)
    else if name == "WATCHDOG_MS" then Some(WatchdogMs)
    else if name == "IDLE_MS" then Some(IdleMs)
    else if name == "RESCAN_MS" then Some(RescanMs)
    else if name == "CHECK_MS" then Some(CheckMs)
    else if name == "SQM_UP_KBIT" then Some(SqmUpKbit)
    else if name == "SQM_DOWN_KBIT" then Some(SqmDownKbit)
    else TextKeyOf(name)
  }

  function TextKeyOf(name: string): Option<Key> {
    if name == "DISABLE_OFFLOAD" then Some(DisableOffload)
    else if name == "GSO" then Some(Gso)
    else if name == "BACKEND" then Some(BackendName)
    else if name == "IPV6_MODE" then Some(Ipv6ModeName)
    else if name == "DOWNSTREAMS" then Some(Downstreams)
    else if name == "UPSTREAMS" then Some(Upstreams)
    else if name == "SQM_UP_IFACE" then Some(SqmUpIface)
    else if name == "SQM_DOWN_IFACE" then Some(SqmDownIface)
    else None
  }

  function NameOf(key: Key): string {
    match key
    case Ttl => "TTL"
    case Ipv6Hl => "IPV6_HL"
    case Workers => "WORKERS"
    case MaxFailures => "MAX_FAILURES"
    case Cooldown => "COOLDOWN"
    case QueueMaxlen => "QUEUE_MAXLEN"
    case RcvbufMb => "RCVBUF_MB"
    case MaxBacklog => "MAX_BACKLOG"
    case StallLimit => "STALL_LIMIT"
    case WatchdogMs => "WATCHDOG_MS"
    case IdleMs => "IDLE_MS"
    case RescanMs => "RESCAN_MS"
    case CheckMs => "CHECK_MS"
    case SqmUpKbit => "SQM_UP_KBIT"
    case SqmDownKbit => "SQM_DOWN_KBIT"
    case DisableOffload => "DISABLE_OFFLOAD"
    case Gso => "GSO"
    case BackendName => "BACKEND"
    case Ipv6ModeName => "IPV6_MODE"
    case Downstreams => "DOWNSTREAMS"
    case Upstreams => "UPSTREAMS"
    case SqmUpIface => "SQM_UP_IFACE"
    case SqmDownIface => "SQM_DOWN_IFACE"
  }

  lemma KeyOfIsNamed(name: string)
    ensures KeyOf(name).Some? ==> NameOf(KeyOf(name).value) == name
  {
    TextKeyOfIsNamed(name);
    hide TextKeyOf;
  }

  lemma TextKeyOfIsNamed(name: string)
    ensures TextKeyOf(name).Some? ==> NameOf(TextKeyOf(name).value) == name
  {
  }

  function KindOf(key: Key): Kind {
    match key
    case Ttl | Ipv6Hl => Num(1, 255, U16_MAX, false, 64, Keep)
    case Workers => Num(1, 8, U16_MAX, false, 1, Keep)
    case MaxFailures => Num(1, 20, U16_MAX, false, 6, Keep)
    case Cooldown => Num(0, 60, U64_MAX, false, 1, Keep)
    case QueueMaxlen => Num(256, 32768, U32_MAX, false, 4096, Keep)
    case RcvbufMb => Num(1, 64, U32_MAX, false, 8, Keep)
    case MaxBacklog => Num(32, 32768, U64_MAX, false, 3072, Keep)
    case StallLimit => Num(2, 20, U16_MAX, false, 3, Keep)
    case WatchdogMs => Num(100, 5000, I32_MAX, true, 500, Keep)
    case IdleMs => Num(1000, 60000, I32_MAX, true, 10000, Clamp)
    case RescanMs => Num(1000, 60000, U64_MAX, false, 10000, Clamp)
    case CheckMs => Num(1000, 60000, U64_MAX, false, 5000, Clamp)
    case SqmUpKbit | SqmDownKbit => Num(0, 1000000, U32_MAX, false, 0, Take)
    case DisableOffload => FlagKind(true)
    case Gso => FlagKind(false)
    case BackendName => BackendKind
    case Ipv6ModeName => ModeKind
    case Downstreams | Upstreams => NamesKind
    case SqmUpIface | SqmDownIface => IfaceKind
  }

  function DefaultOf(kind: Kind): Value {
    match kind
    case Num(_, _, _, _, fallback, _) => Number(fallback)
    case FlagKind(on) => Flag(on)
    case BackendKind => BackendIs(AutoBackend)
    case ModeKind => ModeIs(AutoMode)
    case NamesKind => Names([])
    case IfaceKind => Iface("")
  }

  /** The shape a setting of this kind has, and for a bounded number its bounds. */
  predicate Fits(kind: Kind, v: Value) {
    match kind
    case Num(lo, hi, max, _, _, stray) => v.Number? && (if stray == Take then 0 <= v.n <= max else lo <= v.n <= hi)
    case FlagKind(_) => v.Flag?
    case BackendKind => v.BackendIs?
    case ModeKind => v.ModeIs?
    case NamesKind => v.Names? && forall s | s in v.names :: Net.ValidIface(s)
    case IfaceKind => v.Iface?
  }

  ghost predicate WithinBounds(c: Config) { forall k: Key :: Fits(KindOf(k), c[k]) }

  function Parsed(kind: Kind, v: string): int
    requires kind.Num?
  {
    if kind.signed then
      if ParseSigned(v, kind.max).Some? then ParseSigned(v, kind.max).value else kind.fallback
    else
      if ParseUnsigned(v, kind.max).Some? then ParseUnsigned(v, kind.max).value else kind.fallback
  }

  function Lower(s: string): string {
    if s == "" then "" else [if 'A' <= s[0] <= 'Z' then s[0] - 'A' + 'a' else s[0]] + Lower(s[1..])
  }

  function ValidNames(words: seq<string>): (r: seq<string>)
    ensures forall s | s in r :: Net.ValidIface(s)
  {
    if words == [] then [] else (if Net.ValidIface(words[0]) then [words[0]] else []) + ValidNames(words[1..])
  }

  /** A setting after a line gives it the text v. */
  function Loaded(kind: Kind, v: string, was: Value): Value {
    match kind
    case Num(lo, hi, _, _, _, stray) =>
      var n := Parsed(kind, v);
      if stray == Take || lo <= n <= hi then Number(n)
      else if stray == Keep then was
      else Number(if n < lo then lo else hi)
    case FlagKind(_) => Flag(v == "1" || Lower(v) == "true")
    case BackendKind =>
      BackendIs(if v == "kernel" then KernelTarget else if v == "nfqueue" then Nfqueue else AutoBackend)
    case ModeKind =>
      ModeIs(if v == "normalize" then NormalizeMode
             else if v == "block" then BlockMode
             else if v == "pass" then PassMode
             else AutoMode)
    case NamesKind => Names(ValidNames(Words(v)))
    case IfaceKind => Iface(v)
  }

  lemma LoadedFits(k: Key, v: string, was: Value)
    requires Fits(KindOf(k), was)
    ensures Fits(KindOf(k), Loaded(KindOf(k), v, was))
  {
  }

  // -------------------------------------------------------------------- load

  const DEFAULTS: Config := map k: Key :: DefaultOf(KindOf(k))

  function Put(c: Config, name: string, v: string): Config {
    match KeyOf(name)
    case None => c
    case Some(k) => c[k := Loaded(KindOf(k), v, c[k])]
  }

  function LoadLine(c: Config, raw: string): Config {
    match Read(raw)
    case Setting(name, v) => Put(c, name, v)
    case _ => c
  }

  function LoadLines(lines: seq<string>): Config {
    if lines == [] then DEFAULTS else LoadLine(LoadLines(lines[..|lines| - 1]), lines[|lines| - 1])
  }

  function Int(c: Config, k: Key): int { if c[k].Number? then c[k].n else 0 }

  /** The backlog limit never exceeds the queue length. */
  function Clamped(c: Config): Config {
    if Int(c, MaxBacklog) > Int(c, QueueMaxlen) then c[MaxBacklog := c[QueueMaxlen]] else c
  }

  method Load(text: Option<string>) returns (c: Config)
    ensures c == if text.None? then DEFAULTS else Clamped(LoadLines(Lines(text.value)))
  {
    hide LoadLine;
    c := DEFAULTS;
    if text.None? {
      return;
    }
    var lines := Lines(text.value);
    for i := 0 to |lines|
      invariant c == LoadLines(lines[..i])
    {
      assert lines[..i + 1][..i] == lines[..i];
      c := LoadLine(c, lines[i]);
    }
    assert lines[..|lines|] == lines;
    c := Clamped(c);
  }

  lemma PutFits(c: Config, name: string, v: string)
    requires WithinBounds(c)
    ensures WithinBounds(Put(c, name, v))
  {
    hide KeyOf;
    if KeyOf(name).Some? {
      LoadedFits(KeyOf(name).value, v, c[KeyOf(name).value]);
    }
    hide KindOf, Loaded, Fits;
  }

  lemma {:induction false} LinesWithinBounds(lines: seq<string>)
    ensures WithinBounds(LoadLines(lines))
  {
    hide KeyOf, Put, WithinBounds, Read;
    if lines != [] {
      var c := LoadLines(lines[..|lines| - 1]);
      LinesWithinBounds(lines[..|lines| - 1]);
      var r := Read(lines[|lines| - 1]);
      if r.Setting? {
        PutFits(c, r.key, r.value);
      }
    } else {
      DefaultsWithinBounds();
    }
  }

  lemma DefaultsWithinBounds()
    ensures WithinBounds(DEFAULTS)
  {
    hide KindOf, Fits, DefaultOf;
    forall k: Key
      ensures Fits(KindOf(k), DEFAULTS[k])
    {
      DefaultFits(k);
    }
  }

  lemma DefaultFits(k: Key)
    ensures Fits(KindOf(k), DefaultOf(KindOf(k)))
  {
  }

  lemma ClampFits(c: Config)
    requires WithinBounds(c)
    ensures WithinBounds(Clamped(c)) && Int(Clamped(c), MaxBacklog) <= Int(Clamped(c), QueueMaxlen)
  {
    assert Fits(KindOf(MaxBacklog), c[MaxBacklog]) && Fits(KindOf(QueueMaxlen), c[QueueMaxlen]);
  }

  /** Whatever the file holds, what is loaded is within bounds, and the backlog limit fits the queue. */
  lemma LoadedIsWithinBounds(text: string)
    ensures var c := Clamped(LoadLines(Lines(text))); WithinBounds(c) && Int(c, MaxBacklog) <= Int(c, QueueMaxlen)
  {
    hide LoadLines, Lines, WithinBounds, Clamped;
    LinesWithinBounds(Lines(text));
    ClampFits(LoadLines(Lines(text)));
  }

  // ---------------------------------------------------------------- validate

  function Named(b: Backend): string {
    match b
    case AutoBackend => "auto"
    case KernelTarget => "kernel"
    case Nfqueue => "nfqueue"
  }

  function ModeNamed(m: Ipv6Mode): string {
    match m
    case AutoMode => "auto"
    case NormalizeMode => "normalize"
    case BlockMode => "block"
    case PassMode => "pass"
  }

  predicate AllValid(words: seq<string>) { forall w | w in words :: Net.ValidIface(w) }

  predicate ValueOk(kind: Kind, v: string) {
    match kind
    case Num(lo, hi, _, _, _, _) => ParseUnsigned(v, U64_MAX).Some? && lo <= ParseUnsigned(v, U64_MAX).value <= hi
    case FlagKind(_) => v == "0" || v == "1" || v == "true" || v == "false"
    case BackendKind => v == "auto" || v == "kernel" || v == "nfqueue"
    case ModeKind => v == "auto" || v == "normalize" || v == "block" || v == "pass"
    case NamesKind => AllValid(Words(v))
    case IfaceKind => v == "" || Net.ValidIface(v)
  }

  predicate LineOk(raw: string) {
    match Read(raw)
    case Nothing => true
    case NotASetting => false
    case Setting(name, v) => KeyOf(name).Some? && ValueOk(KindOf(KeyOf(name).value), v)
  }

  predicate Sets(raw: string, name: string) { Read(raw).Setting? && Read(raw).key == name }

  predicate KeysDistinct(lines: seq<string>) {
    forall i, j | 0 <= i < j < |lines| && Read(lines[i]).Setting? :: !Sets(lines[j], Read(lines[i]).key)
  }

  function WordsOf(lines: seq<string>, name: string): seq<string> {
    if lines == [] then []
    else if Sets(lines[|lines| - 1], name) then Words(Read(lines[|lines| - 1]).value)
    else WordsOf(lines[..|lines| - 1], name)
  }

  predicate Overlap(a: seq<string>, b: seq<string>) { exists s | s in a :: s in b }

  function IfaceOf(c: Config, k: Key): string { if c[k].Iface? then c[k].name else "" }

  predicate RateOk(rate: int, iface: string) { rate > 0 ==> rate >= 100 && iface != "" }

  /** What a CAKE setup needs: rates with interfaces, no offload, two interfaces, the physical uplink. */
  predicate SqmOk(c: Config) {
    var up, down := Int(c, SqmUpKbit), Int(c, SqmDownKbit);
    var upIface, downIface := IfaceOf(c, SqmUpIface), IfaceOf(c, SqmDownIface);
    && RateOk(up, upIface) && RateOk(down, downIface)
    && (up > 0 || down > 0 ==>
          && c[DisableOffload] == Flag(true)
          && (upIface == downIface ==> up <= 0 || down <= 0)
          && !("v4-" <= upIface) && !("clat" <= upIface))
  }

  predicate Acceptable(lines: seq<string>) {
    && (forall i | 0 <= i < |lines| :: LineOk(lines[i]))
    && KeysDistinct(lines)
    && !Overlap(WordsOf(lines, "DOWNSTREAMS"), WordsOf(lines, "UPSTREAMS"))
    && SqmOk(Clamped(LoadLines(lines)))
  }

  lemma NoLinesDistinct()
    ensures KeysDistinct([])
  {
  }

  lemma DistinctOneMore(lines: seq<string>, i: nat)
    requires i < |lines|
    ensures KeysDistinct(lines[..i + 1]) <==>
      && KeysDistinct(lines[..i])
      && (Read(lines[i]).Setting? ==> forall k | 0 <= k < i :: !Sets(lines[k], Read(lines[i]).key))
    ensures KeysDistinct(lines) ==> KeysDistinct(lines[..i + 1])
  {
    hide Read;
    assert forall k | 0 <= k < i :: lines[..i + 1][k] == lines[k] == lines[..i][k];
    assert lines[..i + 1][i] == lines[i];
    if KeysDistinct(lines[..i + 1]) {
      forall k | 0 <= k < i
        ensures Read(lines[i]).Setting? ==> !Sets(lines[k], Read(lines[i]).key)
      {
        assert Read(lines[..i + 1][k]).Setting? ==> !Sets(lines[..i + 1][i], Read(lines[..i + 1][k]).key);
      }
    }
  }

  method Validate(text: Option<string>) returns (ok: bool)
    ensures ok <==> text.Some? && Acceptable(Lines(text.value))
  {
    hide KeyOf, KindOf, ValueOk, LoadLines, Words, Lines, Read, SqmOk, KeysDistinct;
    if text.None? {
      return false;
    }
    var lines := Lines(text.value);
    var keys: set<string> := {};
    var down, up := [], [];
    NoLinesDistinct();
    assert lines[..0] == [];
    for i := 0 to |lines|
      invariant forall k | 0 <= k < i :: LineOk(lines[k])
      invariant KeysDistinct(lines[..i])
      invariant forall name :: name in keys <==> exists k :: 0 <= k < i && Sets(lines[k], name)
      invariant down == WordsOf(lines[..i], "DOWNSTREAMS") && up == WordsOf(lines[..i], "UPSTREAMS")
    {
      assert lines[..i + 1][..i] == lines[..i];
      DistinctOneMore(lines, i);
      match Read(lines[i])
      case Nothing =>
      case NotASetting =>
        return false;
      case Setting(name, v) =>
        if name in keys {
          return false;
        }
        keys := keys + {name};
        if !LineOk(lines[i]) {
          return false;
        }
        if name == "DOWNSTREAMS" {
          down := Words(v);
        } else if name == "UPSTREAMS" {
          up := Words(v);
        }
    }
    assert lines[..|lines|] == lines;
    if Overlap(down, up) {
      return false;
    }
    var c := Load(text);
    ok := SqmOk(c);
  }

  // --------------------------------------------------- what acceptance means

  /** The value is what the text says, with nothing replaced by a default. */
  predicate Exact(kind: Kind, v: string, value: Value) {
    match kind
    case Num(lo, hi, _, _, _, _) => value.Number? && lo <= value.n <= hi && ParseUnsigned(v, U64_MAX) == Some(value.n)
    case FlagKind(_) => value == Flag(v == "1" || v == "true")
    case BackendKind => value.BackendIs? && Named(value.backend) == v
    case ModeKind => value.ModeIs? && ModeNamed(value.mode) == v
    case NamesKind => value == Names(Words(v))
    case IfaceKind => value == Iface(v)
  }

  lemma {:induction false} AllNamesKept(words: seq<string>)
    requires AllValid(words)
    ensures ValidNames(words) == words
  {
    if words != [] {
      assert words[0] in words;
      AllNamesKept(words[1..]);
      assert words == [words[0]] + words[1..];
    }
  }

  lemma ParsedExactly(kind: Kind, v: string)
    requires kind.Num? && kind.hi <= kind.max <= U64_MAX && ParseUnsigned(v, U64_MAX).Some?
    requires ParseUnsigned(v, U64_MAX).value <= kind.hi
    ensures Parsed(kind, v) == ParseUnsigned(v, U64_MAX).value
  {
    assert v != "" && (v[0] == '+' || IsDigit(v[0]));
  }

  lemma LowerOfValid(v: string)
    requires v == "0" || v == "1" || v == "true" || v == "false"
    ensures Lower(v) == "true" <==> v == "true"
  {
    assert Lower("e") == "e" && Lower("ue") == "ue" by {
      assert "ue"[1..] == "e" && "e"[1..] == "";
    }
    assert Lower("true") == "true" by {
      assert "true"[1..] == "rue" && "rue"[1..] == "ue";
    }
    assert v != "true" ==> Lower(v)[0] != 't';
  }

  lemma LoadedExactly(k: Key, v: string, was: Value)
    requires ValueOk(KindOf(k), v)
    ensures Exact(KindOf(k), v, Loaded(KindOf(k), v, was))
  {
    var kind := KindOf(k);
    hide Lower, Parsed, Words, ValidNames, ParseUnsigned;
    match kind
    case Num(_, _, _, _, _, _) =>
      ParsedExactly(kind, v);
    case FlagKind(_) =>
      LowerOfValid(v);
    case NamesKind =>
      AllNamesKept(Words(v));
    case _ =>
  }

  /** Each line of an accepted file decides its setting. */
  lemma {:induction false} AcceptedLoadsExactly(lines: seq<string>, i: nat)
    requires i < |lines| && KeysDistinct(lines) && Read(lines[i]).Setting? && LineOk(lines[i])
    ensures var k := KeyOf(Read(lines[i]).key).value; Exact(KindOf(k), Read(lines[i]).value, LoadLines(lines)[k])
  {
    hide KeyOf, KindOf, Exact, Loaded, Read, ValueOk;
    var rest := lines[..|lines| - 1];
    var c, last := LoadLines(rest), lines[|lines| - 1];
    var name, v := Read(lines[i]).key, Read(lines[i]).value;
    var k := KeyOf(name).value;
    if i == |lines| - 1 {
      LoadedExactly(k, v, c[k]);
    } else {
      AcceptedLoadsExactly(rest, i);
      assert !Sets(last, name);
      if Read(last).Setting? && KeyOf(Read(last).key) == Some(k) {
        KeyOfIsNamed(name);
        KeyOfIsNamed(Read(last).key);
      }
    }
  }

  /** A setting no line names keeps its default. */
  lemma {:induction false} UnsetKeepsDefault(lines: seq<string>, k: Key)
    requires forall i | 0 <= i < |lines| :: !(Read(lines[i]).Setting? && KeyOf(Read(lines[i]).key) == Some(k))
    ensures LoadLines(lines)[k] == DefaultOf(KindOf(k))
  {
    hide KeyOf, KindOf, Loaded, Read, DefaultOf;
    if lines != [] {
      UnsetKeepsDefault(lines[..|lines| - 1], k);
    }
  }

  /** Validated files load as written: no value is dropped or replaced, except that the backlog limit is capped. */
  lemma ValidatedMeansExact(text: string, i: nat)
    requires Acceptable(Lines(text)) && i < |Lines(text)| && Read(Lines(text)[i]).Setting?
    ensures var c, raw := Clamped(LoadLines(Lines(text))), LoadLines(Lines(text));
      && KeyOf(Read(Lines(text)[i]).key).Some?
      && var k := KeyOf(Read(Lines(text)[i]).key).value;
      && Exact(KindOf(k), Read(Lines(text)[i]).value, raw[k])
      && c[k] == if k == MaxBacklog && Int(raw, MaxBacklog) > Int(raw, QueueMaxlen) then raw[QueueMaxlen] else raw[k]
  {
    hide LoadLines, Lines, Exact, KeyOf, KindOf, Read, SqmOk;
    assert LineOk(Lines(text)[i]);
    AcceptedLoadsExactly(Lines(text), i);
  }
}
