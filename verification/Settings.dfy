/** What lines written the documented way do: KEY=VALUE, the value bare or quoted. */
module Settings {
  import opened Numbers
  import opened Text
  import opened Wrappers
  import opened Config
  import Net

  // --------------------------------------------------------------- one line

  /** A character neither trimmed away nor taken for a quote. */
  predicate Solid(c: char) { !IsSpace(c) && c != '"' && c != '\'' }

  predicate Bare(v: string) { v == "" || (Solid(v[0]) && Solid(v[|v| - 1])) }

  predicate Quote(q: string) { q == "" || q == "\"" || q == "'" }

  predicate KeyName(name: string) {
    name != "" && forall c | c in name :: 'A' <= c <= 'Z' || c == '_' || '0' <= c <= '9'
  }

  function Line(name: string, q: string, v: string): string { name + "=" + q + v + q }

  lemma Untrimmed(s: string)
    requires s != "" && !IsSpace(s[0]) && !IsSpace(s[|s| - 1])
    ensures Trim(s) == s
  {
  }

  lemma UnquotesTo(q: string, v: string)
    requires Quote(q) && Bare(v)
    ensures Unquote(q + v + q) == v
  {
    var s := q + v + q;
    if s != "" {
      Untrimmed(s);
    }
    if q != "" {
      assert s[1..|s| - 1] == v;
    }
  }

  /** Such a line says exactly its value, whichever quotes it wears. */
  lemma LineIsRead(name: string, q: string, v: string)
    requires KeyName(name) && Quote(q) && Bare(v)
    ensures Read(Line(name, q, v)) == Setting(name, v)
  {
    var rest, line := q + v + q, Line(name, q, v);
    assert line == name + ['='] + rest;
    assert name[0] in name && name[|name| - 1] in name;
    Untrimmed(name);
    Untrimmed(line);
    UnquotesTo(q, v);
    IndexOfFirst(name, '=', rest);
    assert line[..|name|] == name && line[|name| + 1..] == rest;
    hide Trim, Unquote, IsSpace, IndexOf;
  }

  // ------------------------------------------------------------ lists of names

  predicate ValidList(names: seq<string>) { forall i | 0 <= i < |names| :: Net.ValidIface(names[i]) }

  lemma {:induction false} WordEndIs(a: string, rest: string)
    requires (forall c | c in a :: !IsSpace(c)) && (rest != "" ==> IsSpace(rest[0]))
    ensures WordEnd(a + rest) == |a|
  {
    if a != "" {
      assert (a + rest)[1..] == a[1..] + rest;
      WordEndIs(a[1..], rest);
    } else {
      assert a + rest == rest;
    }
  }

  lemma NameHasNoSpace(s: string)
    requires Net.ValidIface(s)
    ensures s != "" && forall c | c in s :: Solid(c)
  {
  }

  lemma WordThenRest(a: string, rest: string)
    requires Net.ValidIface(a) && (rest != "" ==> IsSpace(rest[0]))
    ensures Words(a + rest) == [a] + Words(rest)
  {
    var s := a + rest;
    NameHasNoSpace(a);
    assert s[0] == a[0] && a[0] in a;
    WordEndIs(a, rest);
    assert s[..|a|] == a && s[|a|..] == rest;
  }

  lemma SpaceIsSkipped(rest: string)
    ensures Words(" " + rest) == Words(rest)
  {
    assert (" " + rest)[1..] == rest;
  }

  /** Names joined by single spaces read back as these names. */
  lemma {:induction false} ListReadsBack(names: seq<string>)
    requires ValidList(names)
    ensures Words(Net.Spaced(names)) == names
  {
    hide Net.ValidIface, Words, IsSpace;
    if names == [] {
      NoWords();
    } else if |names| == 1 {
      WordThenRest(names[0], "");
      NoWords();
      assert names[0] + "" == names[0];
    } else {
      var rest := Net.Spaced(names[1..]);
      Separates();
      WordThenRest(names[0], " " + rest);
      SpaceIsSkipped(rest);
      ListReadsBack(names[1..]);
      assert names[0] + (" " + rest) == names[0] + " " + rest;
    }
  }

  lemma NoWords()
    ensures Words("") == []
  {
  }

  lemma Separates()
    ensures IsSpace(" "[0])
  {
  }

  lemma {:induction false} ListIsBare(names: seq<string>)
    requires ValidList(names)
    ensures Bare(Net.Spaced(names)) && (names != [] ==> Net.Spaced(names) != "")
  {
    if names != [] {
      var a := names[0];
      NameHasNoSpace(a);
      assert a[0] in a && a[|a| - 1] in a;
      hide Net.ValidIface, Solid;
      ListIsBare(names[1..]);
    }
  }

  // ------------------------------------------------------------------ the keys

  lemma NumberKeys()
    ensures KeyOf("TTL") == Some(Ttl) && KeyOf("IPV6_HL") == Some(Ipv6Hl) && KeyOf("WORKERS") == Some(Workers)
    ensures KeyOf("MAX_FAILURES") == Some(MaxFailures) && KeyOf("COOLDOWN") == Some(Cooldown)
    ensures KeyOf("QUEUE_MAXLEN") == Some(QueueMaxlen) && KeyOf("RCVBUF_MB") == Some(RcvbufMb)
  {
  }

  lemma MoreNumberKeys()
    ensures KeyOf("MAX_BACKLOG") == Some(MaxBacklog) && KeyOf("STALL_LIMIT") == Some(StallLimit)
    ensures KeyOf("WATCHDOG_MS") == Some(WatchdogMs) && KeyOf("IDLE_MS") == Some(IdleMs)
    ensures KeyOf("RESCAN_MS") == Some(RescanMs) && KeyOf("CHECK_MS") == Some(CheckMs)
    ensures KeyOf("SQM_UP_KBIT") == Some(SqmUpKbit) && KeyOf("SQM_DOWN_KBIT") == Some(SqmDownKbit)
  {
  }

  lemma TextNames()
    ensures TextKeyOf("DISABLE_OFFLOAD") == Some(DisableOffload) && TextKeyOf("GSO") == Some(Gso)
    ensures TextKeyOf("BACKEND") == Some(BackendName) && TextKeyOf("IPV6_MODE") == Some(Ipv6ModeName)
    ensures TextKeyOf("DOWNSTREAMS") == Some(Downstreams) && TextKeyOf("UPSTREAMS") == Some(Upstreams)
    ensures TextKeyOf("SQM_UP_IFACE") == Some(SqmUpIface) && TextKeyOf("SQM_DOWN_IFACE") == Some(SqmDownIface)
  {
  }

  lemma TextKeys()
    ensures KeyOf("DISABLE_OFFLOAD") == Some(DisableOffload) && KeyOf("GSO") == Some(Gso)
    ensures KeyOf("BACKEND") == Some(BackendName) && KeyOf("IPV6_MODE") == Some(Ipv6ModeName)
    ensures KeyOf("DOWNSTREAMS") == Some(Downstreams) && KeyOf("UPSTREAMS") == Some(Upstreams)
    ensures KeyOf("SQM_UP_IFACE") == Some(SqmUpIface) && KeyOf("SQM_DOWN_IFACE") == Some(SqmDownIface)
  {
    TextNames();
    hide TextKeyOf;
  }

  /** What a setting is while nothing says otherwise. */
  lemma NumberDefaults()
    ensures DefaultOf(KindOf(Ttl)) == DefaultOf(KindOf(Ipv6Hl)) == Number(64)
    ensures DefaultOf(KindOf(Workers)) == DefaultOf(KindOf(Cooldown)) == Number(1)
    ensures DefaultOf(KindOf(MaxFailures)) == Number(6) && DefaultOf(KindOf(StallLimit)) == Number(3)
    ensures DefaultOf(KindOf(QueueMaxlen)) == Number(4096) && DefaultOf(KindOf(RcvbufMb)) == Number(8)
    ensures DefaultOf(KindOf(MaxBacklog)) == Number(3072) && DefaultOf(KindOf(WatchdogMs)) == Number(500)
    ensures DefaultOf(KindOf(IdleMs)) == DefaultOf(KindOf(RescanMs)) == Number(10000)
    ensures DefaultOf(KindOf(CheckMs)) == Number(5000)
    ensures DefaultOf(KindOf(SqmUpKbit)) == DefaultOf(KindOf(SqmDownKbit)) == Number(0)
  {
  }

  lemma TextDefaults()
    ensures DefaultOf(KindOf(DisableOffload)) == Flag(true) && DefaultOf(KindOf(Gso)) == Flag(false)
    ensures DefaultOf(KindOf(BackendName)) == BackendIs(AutoBackend)
    ensures DefaultOf(KindOf(Ipv6ModeName)) == ModeIs(AutoMode)
    ensures DefaultOf(KindOf(Downstreams)) == DefaultOf(KindOf(Upstreams)) == Names([])
    ensures DefaultOf(KindOf(SqmUpIface)) == DefaultOf(KindOf(SqmDownIface)) == Iface("")
  {
  }

  // --------------------------------------------------------------- the numbers

  /** The line sets k to this number if it is one from lo to hi; validate accepts these and no others. */
  predicate TakesNumber(c: Config, name: string, q: string, k: Key, n: nat, lo: nat, hi: nat) {
    var line := Line(name, q, Decimal(n));
    (LineOk(line) <==> lo <= n <= hi) && (lo <= n <= hi ==> LoadLine(c, line) == c[k := Number(n)])
  }

  lemma DecimalIsBare(n: nat)
    ensures Bare(Decimal(n))
  {
    var s := Decimal(n);
    assert IsDigit(s[0]) && IsDigit(s[|s| - 1]);
  }

  lemma DecimalIsParsed(kind: Kind, n: nat)
    requires kind.Num? && kind.hi <= kind.max <= U64_MAX && 0 <= kind.lo
    ensures ValueOk(kind, Decimal(n)) <==> kind.lo <= n <= kind.hi
    ensures kind.lo <= n <= kind.hi ==> Parsed(kind, Decimal(n)) == n
  {
    ParseDecimal(n, U64_MAX);
    ParseDecimal(n, kind.max);
    assert IsDigit(Decimal(n)[0]);
    hide Decimal, ParseUnsigned;
  }

  predicate NumberKind(k: Key, lo: int, hi: int, max: nat, stray: Stray) {
    KindOf(k).Num? && KindOf(k).lo == lo && KindOf(k).hi == hi && KindOf(k).max == max && KindOf(k).stray == stray
  }

  lemma NumberKinds()
    ensures NumberKind(Ttl, 1, 255, 65535, Keep) && NumberKind(Ipv6Hl, 1, 255, 65535, Keep)
    ensures NumberKind(Workers, 1, 8, 65535, Keep) && NumberKind(MaxFailures, 1, 20, 65535, Keep)
    ensures NumberKind(StallLimit, 2, 20, 65535, Keep) && NumberKind(QueueMaxlen, 256, 32768, U32_MAX, Keep)
    ensures NumberKind(RcvbufMb, 1, 64, U32_MAX, Keep) && NumberKind(MaxBacklog, 32, 32768, U64_MAX, Keep)
    ensures NumberKind(Cooldown, 0, 60, U64_MAX, Keep) && NumberKind(WatchdogMs, 100, 5000, I32_MAX, Keep)
    ensures NumberKind(IdleMs, 1000, 60000, I32_MAX, Clamp) && NumberKind(RescanMs, 1000, 60000, U64_MAX, Clamp)
    ensures NumberKind(CheckMs, 1000, 60000, U64_MAX, Clamp)
    ensures NumberKind(SqmUpKbit, 0, 1000000, U32_MAX, Take) && NumberKind(SqmDownKbit, 0, 1000000, U32_MAX, Take)
  {
  }

  lemma NumberNames()
    ensures KeyName("TTL") && KeyName("IPV6_HL") && KeyName("WORKERS") && KeyName("MAX_FAILURES") && KeyName("COOLDOWN")
    ensures KeyName("QUEUE_MAXLEN") && KeyName("RCVBUF_MB")
  {
  }

  lemma MoreNumberNames()
    ensures KeyName("MAX_BACKLOG") && KeyName("STALL_LIMIT")
    ensures KeyName("WATCHDOG_MS") && KeyName("IDLE_MS") && KeyName("RESCAN_MS") && KeyName("CHECK_MS")
    ensures KeyName("SQM_UP_KBIT") && KeyName("SQM_DOWN_KBIT")
  {
  }

  lemma NumberIsTaken(c: Config, name: string, q: string, k: Key, n: nat, lo: nat, hi: nat, max: nat, stray: Stray)
    requires KeyName(name) && Quote(q) && KeyOf(name) == Some(k)
    requires NumberKind(k, lo, hi, max, stray) && lo <= hi <= max <= U64_MAX
    ensures TakesNumber(c, name, q, k, n, lo, hi)
  {
    hide KeyOf, KindOf, Decimal, Line, Parsed, Read, ParseUnsigned, ValueOk, KeyName, Bare, Quote, IsSpace, Loaded;
    DecimalIsBare(n);
    LineIsRead(name, q, Decimal(n));
    DecimalIsParsed(KindOf(k), n);
    LoadedNumber(KindOf(k), Decimal(n), c[k], n);
  }

  lemma LoadedNumber(kind: Kind, v: string, was: Value, n: nat)
    requires kind.Num? && (kind.lo <= n <= kind.hi ==> Parsed(kind, v) == n)
    ensures kind.lo <= n <= kind.hi ==> Loaded(kind, v, was) == Number(n)
  {
    hide Parsed;
  }

  /** Every numeric setting, with the numbers it takes. */
  lemma NumericSettings(c: Config, q: string, n: nat)
    requires Quote(q)
    ensures TakesNumber(c, "TTL", q, Ttl, n, 1, 255)
    ensures TakesNumber(c, "IPV6_HL", q, Ipv6Hl, n, 1, 255)
    ensures TakesNumber(c, "WORKERS", q, Workers, n, 1, 8)
    ensures TakesNumber(c, "MAX_FAILURES", q, MaxFailures, n, 1, 20)
    ensures TakesNumber(c, "COOLDOWN", q, Cooldown, n, 0, 60)
    ensures TakesNumber(c, "QUEUE_MAXLEN", q, QueueMaxlen, n, 256, 32768)
    ensures TakesNumber(c, "RCVBUF_MB", q, RcvbufMb, n, 1, 64)
    ensures TakesNumber(c, "MAX_BACKLOG", q, MaxBacklog, n, 32, 32768)
    ensures TakesNumber(c, "STALL_LIMIT", q, StallLimit, n, 2, 20)
    ensures TakesNumber(c, "WATCHDOG_MS", q, WatchdogMs, n, 100, 5000)
    ensures TakesNumber(c, "IDLE_MS", q, IdleMs, n, 1000, 60000)
    ensures TakesNumber(c, "RESCAN_MS", q, RescanMs, n, 1000, 60000)
    ensures TakesNumber(c, "CHECK_MS", q, CheckMs, n, 1000, 60000)
    ensures TakesNumber(c, "SQM_UP_KBIT", q, SqmUpKbit, n, 0, 1000000)
    ensures TakesNumber(c, "SQM_DOWN_KBIT", q, SqmDownKbit, n, 0, 1000000)
  {
    NumberKeys();
    MoreNumberKeys();
    NumberKinds();
    NumberNames();
    MoreNumberNames();
    hide KeyOf, TakesNumber, NumberKind, KeyName, Quote;
    NumberIsTaken(c, "TTL", q, Ttl, n, 1, 255, 65535, Keep);
    NumberIsTaken(c, "IPV6_HL", q, Ipv6Hl, n, 1, 255, 65535, Keep);
    NumberIsTaken(c, "WORKERS", q, Workers, n, 1, 8, 65535, Keep);
    NumberIsTaken(c, "MAX_FAILURES", q, MaxFailures, n, 1, 20, 65535, Keep);
    NumberIsTaken(c, "COOLDOWN", q, Cooldown, n, 0, 60, U64_MAX, Keep);
    NumberIsTaken(c, "QUEUE_MAXLEN", q, QueueMaxlen, n, 256, 32768, U32_MAX, Keep);
    NumberIsTaken(c, "RCVBUF_MB", q, RcvbufMb, n, 1, 64, U32_MAX, Keep);
    NumberIsTaken(c, "MAX_BACKLOG", q, MaxBacklog, n, 32, 32768, U64_MAX, Keep);
    NumberIsTaken(c, "STALL_LIMIT", q, StallLimit, n, 2, 20, 65535, Keep);
    NumberIsTaken(c, "WATCHDOG_MS", q, WatchdogMs, n, 100, 5000, I32_MAX, Keep);
    NumberIsTaken(c, "IDLE_MS", q, IdleMs, n, 1000, 60000, I32_MAX, Clamp);
    NumberIsTaken(c, "RESCAN_MS", q, RescanMs, n, 1000, 60000, U64_MAX, Clamp);
    NumberIsTaken(c, "CHECK_MS", q, CheckMs, n, 1000, 60000, U64_MAX, Clamp);
    NumberIsTaken(c, "SQM_UP_KBIT", q, SqmUpKbit, n, 0, 1000000, U32_MAX, Take);
    NumberIsTaken(c, "SQM_DOWN_KBIT", q, SqmDownKbit, n, 0, 1000000, U32_MAX, Take);
  }

  /** Numbers that validate refuses: some settings stay as they were, */
  lemma StrayIsIgnored(c: Config, q: string, n: nat)
    requires Quote(q)
    ensures n == 0 || 255 < n <= 65535 ==> LoadLine(c, Line("TTL", q, Decimal(n))) == c
    ensures n == 0 || 255 < n <= 65535 ==> LoadLine(c, Line("IPV6_HL", q, Decimal(n))) == c
    ensures n == 0 || 8 < n <= 65535 ==> LoadLine(c, Line("WORKERS", q, Decimal(n))) == c
    ensures n == 0 || 20 < n <= 65535 ==> LoadLine(c, Line("MAX_FAILURES", q, Decimal(n))) == c
    ensures n < 2 || 20 < n <= 65535 ==> LoadLine(c, Line("STALL_LIMIT", q, Decimal(n))) == c
    ensures n < 256 || 32768 < n <= U32_MAX ==> LoadLine(c, Line("QUEUE_MAXLEN", q, Decimal(n))) == c
    ensures n == 0 || 64 < n <= U32_MAX ==> LoadLine(c, Line("RCVBUF_MB", q, Decimal(n))) == c
    ensures n < 32 || 32768 < n <= U64_MAX ==> LoadLine(c, Line("MAX_BACKLOG", q, Decimal(n))) == c
    ensures 60 < n <= U64_MAX ==> LoadLine(c, Line("COOLDOWN", q, Decimal(n))) == c
    ensures n < 100 || 5000 < n <= I32_MAX ==> LoadLine(c, Line("WATCHDOG_MS", q, Decimal(n))) == c
  {
    NumberKeys();
    MoreNumberKeys();
    NumberNames();
    MoreNumberNames();
    NumberKinds();
    hide KeyOf, KeyName, Quote, Line, LoadLine, NumberKind, KindOf;
    StrayLine(c, "TTL", q, Ttl, n, 1, 255, 65535, Keep);
    StrayLine(c, "IPV6_HL", q, Ipv6Hl, n, 1, 255, 65535, Keep);
    StrayLine(c, "WORKERS", q, Workers, n, 1, 8, 65535, Keep);
    StrayLine(c, "MAX_FAILURES", q, MaxFailures, n, 1, 20, 65535, Keep);
    StrayLine(c, "STALL_LIMIT", q, StallLimit, n, 2, 20, 65535, Keep);
    StrayLine(c, "QUEUE_MAXLEN", q, QueueMaxlen, n, 256, 32768, U32_MAX, Keep);
    StrayLine(c, "RCVBUF_MB", q, RcvbufMb, n, 1, 64, U32_MAX, Keep);
    StrayLine(c, "MAX_BACKLOG", q, MaxBacklog, n, 32, 32768, U64_MAX, Keep);
    StrayLine(c, "COOLDOWN", q, Cooldown, n, 0, 60, U64_MAX, Keep);
    StrayLine(c, "WATCHDOG_MS", q, WatchdogMs, n, 100, 5000, I32_MAX, Keep);
  }

  /** and some take the nearest bound, or, for the two rates, the number itself. */
  lemma StrayIsTaken(c: Config, q: string, n: nat)
    requires Quote(q) && n <= I32_MAX
    ensures n < 1000 ==> LoadLine(c, Line("IDLE_MS", q, Decimal(n))) == c[IdleMs := Number(1000)]
    ensures n > 60000 ==> LoadLine(c, Line("IDLE_MS", q, Decimal(n))) == c[IdleMs := Number(60000)]
    ensures n < 1000 ==> LoadLine(c, Line("RESCAN_MS", q, Decimal(n))) == c[RescanMs := Number(1000)]
    ensures n > 60000 ==> LoadLine(c, Line("RESCAN_MS", q, Decimal(n))) == c[RescanMs := Number(60000)]
    ensures n < 1000 ==> LoadLine(c, Line("CHECK_MS", q, Decimal(n))) == c[CheckMs := Number(1000)]
    ensures n > 60000 ==> LoadLine(c, Line("CHECK_MS", q, Decimal(n))) == c[CheckMs := Number(60000)]
    ensures LoadLine(c, Line("SQM_UP_KBIT", q, Decimal(n))) == c[SqmUpKbit := Number(n)]
    ensures LoadLine(c, Line("SQM_DOWN_KBIT", q, Decimal(n))) == c[SqmDownKbit := Number(n)]
  {
    MoreNumberKeys();
    MoreNumberNames();
    NumberKinds();
    NumericSettings(c, q, n);
    hide KeyOf, KeyName, Quote, Line, LoadLine, NumberKind, KindOf, LineOk;
    StrayLine(c, "IDLE_MS", q, IdleMs, n, 1000, 60000, I32_MAX, Clamp);
    StrayLine(c, "RESCAN_MS", q, RescanMs, n, 1000, 60000, U64_MAX, Clamp);
    StrayLine(c, "CHECK_MS", q, CheckMs, n, 1000, 60000, U64_MAX, Clamp);
    StrayLine(c, "SQM_UP_KBIT", q, SqmUpKbit, n, 0, 1000000, U32_MAX, Take);
    StrayLine(c, "SQM_DOWN_KBIT", q, SqmDownKbit, n, 0, 1000000, U32_MAX, Take);
  }

  lemma StrayLine(c: Config, name: string, q: string, k: Key, n: nat, lo: int, hi: int, max: nat, stray: Stray)
    requires KeyName(name) && Quote(q) && KeyOf(name) == Some(k) && NumberKind(k, lo, hi, max, stray) && lo <= hi
    ensures n <= max && !(lo <= n <= hi) ==>
      LoadLine(c, Line(name, q, Decimal(n))) ==
        c[k := if stray == Keep then c[k] else if stray == Take then Number(n) else Number(if n < lo then lo else hi)]
    ensures n <= max && !(lo <= n <= hi) && stray == Keep ==> LoadLine(c, Line(name, q, Decimal(n))) == c
  {
    hide KeyOf, KindOf, Decimal, Line, Read, ParseUnsigned, KeyName, Bare, Quote, IsSpace;
    DecimalIsBare(n);
    LineIsRead(name, q, Decimal(n));
    ParsedNumber(KindOf(k), n);
    hide Parsed;
    assert c[k := c[k]] == c;
  }

  lemma ParsedNumber(kind: Kind, n: nat)
    requires kind.Num?
    ensures n <= kind.max ==> Parsed(kind, Decimal(n)) == n
  {
    ParseDecimal(n, kind.max);
    assert IsDigit(Decimal(n)[0]);
    hide Decimal, ParseUnsigned;
  }

  // ----------------------------------------------------------------- the words

  /** The line with this value sets k to this. */
  predicate Takes(c: Config, name: string, q: string, k: Key, v: string, value: Value) {
    LineOk(Line(name, q, v)) && LoadLine(c, Line(name, q, v)) == c[k := value]
  }

  lemma TextKinds()
    ensures KindOf(BackendName) == BackendKind && KindOf(Ipv6ModeName) == ModeKind
    ensures KindOf(DisableOffload).FlagKind? && KindOf(Gso).FlagKind?
    ensures KindOf(Downstreams) == NamesKind && KindOf(Upstreams) == NamesKind
    ensures KindOf(SqmUpIface) == IfaceKind && KindOf(SqmDownIface) == IfaceKind
  {
  }

  lemma TextKeyNames()
    ensures KeyName("BACKEND") && KeyName("IPV6_MODE") && KeyName("DISABLE_OFFLOAD") && KeyName("GSO")
    ensures KeyName("DOWNSTREAMS") && KeyName("UPSTREAMS") && KeyName("SQM_UP_IFACE") && KeyName("SQM_DOWN_IFACE")
  {
  }

  lemma WordIsTaken(c: Config, name: string, q: string, k: Key, kind: Kind, v: string, value: Value)
    requires KeyName(name) && Quote(q) && Bare(v) && KeyOf(name) == Some(k) && KindOf(k) == kind && !kind.Num?
    requires ValueOk(kind, v) && Loaded(kind, v, c[k]) == value
    ensures Takes(c, name, q, k, v, value)
  {
    LineIsRead(name, q, v);
    hide KeyOf, KindOf, Line, Loaded, ValueOk, Read, KeyName, Bare, Quote;
  }

  lemma ChoiceSettings(c: Config, q: string)
    requires Quote(q)
    ensures Takes(c, "BACKEND", q, BackendName, "auto", BackendIs(AutoBackend))
    ensures Takes(c, "BACKEND", q, BackendName, "kernel", BackendIs(KernelTarget))
    ensures Takes(c, "BACKEND", q, BackendName, "nfqueue", BackendIs(Nfqueue))
    ensures Takes(c, "IPV6_MODE", q, Ipv6ModeName, "auto", ModeIs(AutoMode))
    ensures Takes(c, "IPV6_MODE", q, Ipv6ModeName, "normalize", ModeIs(NormalizeMode))
    ensures Takes(c, "IPV6_MODE", q, Ipv6ModeName, "block", ModeIs(BlockMode))
    ensures Takes(c, "IPV6_MODE", q, Ipv6ModeName, "pass", ModeIs(PassMode))
  {
    TextKeys();
    TextKinds();
    TextKeyNames();
    hide KeyOf, KindOf, Takes, KeyName, Quote;
    WordIsTaken(c, "BACKEND", q, BackendName, BackendKind, "auto", BackendIs(AutoBackend));
    WordIsTaken(c, "BACKEND", q, BackendName, BackendKind, "kernel", BackendIs(KernelTarget));
    WordIsTaken(c, "BACKEND", q, BackendName, BackendKind, "nfqueue", BackendIs(Nfqueue));
    WordIsTaken(c, "IPV6_MODE", q, Ipv6ModeName, ModeKind, "auto", ModeIs(AutoMode));
    WordIsTaken(c, "IPV6_MODE", q, Ipv6ModeName, ModeKind, "normalize", ModeIs(NormalizeMode));
    WordIsTaken(c, "IPV6_MODE", q, Ipv6ModeName, ModeKind, "block", ModeIs(BlockMode));
    WordIsTaken(c, "IPV6_MODE", q, Ipv6ModeName, ModeKind, "pass", ModeIs(PassMode));
  }

  lemma AcceptedValue(name: string, q: string, k: Key, kind: Kind, v: string)
    requires KeyName(name) && Quote(q) && Bare(v) && KeyOf(name) == Some(k) && KindOf(k) == kind
    ensures LineOk(Line(name, q, v)) <==> ValueOk(kind, v)
  {
    LineIsRead(name, q, v);
    hide KeyOf, KindOf, Line, ValueOk, Read, KeyName, Bare, Quote;
  }

  /** validate accepts no other words. */
  lemma OnlyTheseWords(q: string, v: string)
    requires Quote(q) && Bare(v)
    ensures LineOk(Line("BACKEND", q, v)) ==> v in ["auto", "kernel", "nfqueue"]
    ensures LineOk(Line("IPV6_MODE", q, v)) ==> v in ["auto", "normalize", "block", "pass"]
    ensures LineOk(Line("DISABLE_OFFLOAD", q, v)) || LineOk(Line("GSO", q, v)) ==> v in ["0", "1", "true", "false"]
  {
    TextKeys();
    TextKinds();
    TextKeyNames();
    hide KeyOf, KindOf, KeyName, Quote, Bare, Line, LineOk;
    AcceptedValue("BACKEND", q, BackendName, BackendKind, v);
    AcceptedValue("IPV6_MODE", q, Ipv6ModeName, ModeKind, v);
    AcceptedValue("DISABLE_OFFLOAD", q, DisableOffload, KindOf(DisableOffload), v);
    AcceptedValue("GSO", q, Gso, KindOf(Gso), v);
  }

  lemma FlagSettings(c: Config, q: string, on: bool, v: string)
    requires Quote(q) && if on then v == "1" || v == "true" else v == "0" || v == "false"
    ensures Takes(c, "DISABLE_OFFLOAD", q, DisableOffload, v, Flag(on)) && Takes(c, "GSO", q, Gso, v, Flag(on))
  {
    TextKeys();
    TextKinds();
    TextKeyNames();
    LowerOfValid(v);
    hide KeyOf, KindOf, Takes, KeyName, Quote, Lower;
    WordIsTaken(c, "DISABLE_OFFLOAD", q, DisableOffload, KindOf(DisableOffload), v, Flag(on));
    WordIsTaken(c, "GSO", q, Gso, KindOf(Gso), v, Flag(on));
  }

  /** "true" in any case. */
  predicate SaysTrue(v: string) {
    |v| == 4 && v[0] in "tT" && v[1] in "rR" && v[2] in "uU" && v[3] in "eE"
  }

  lemma LowerIsTrue(v: string)
    ensures Lower(v) == "true" <==> SaysTrue(v)
  {
    LowerLetters(v);
    if |v| == 4 {
      assert Lower(v) == [Lower(v)[0], Lower(v)[1], Lower(v)[2], Lower(v)[3]];
    }
    hide Lower;
  }

  lemma {:induction false} LowerLetters(v: string)
    ensures |Lower(v)| == |v|
    ensures forall i | 0 <= i < |v| :: Lower(v)[i] == if 'A' <= v[i] <= 'Z' then v[i] - 'A' + 'a' else v[i]
  {
    if v != "" {
      LowerLetters(v[1..]);
    }
  }

  /** What load makes of any text for a switch. */
  lemma FlagsAreLoaded(c: Config, q: string, v: string)
    requires Quote(q) && Bare(v)
    ensures LoadLine(c, Line("DISABLE_OFFLOAD", q, v)) == c[DisableOffload := Flag(v == "1" || SaysTrue(v))]
    ensures LoadLine(c, Line("GSO", q, v)) == c[Gso := Flag(v == "1" || SaysTrue(v))]
  {
    TextKeys();
    TextKinds();
    TextKeyNames();
    hide KeyOf, KindOf, KeyName, Quote, Line, Read, SaysTrue, Lower, Bare;
    LineIsRead("DISABLE_OFFLOAD", q, v);
    LineIsRead("GSO", q, v);
    LowerIsTrue(v);
  }

  /** A list of interface names, in any quotes, is loaded as these names. */
  lemma NameSettings(c: Config, q: string, names: seq<string>)
    requires Quote(q) && ValidList(names)
    ensures Takes(c, "DOWNSTREAMS", q, Downstreams, Net.Spaced(names), Names(names))
    ensures Takes(c, "UPSTREAMS", q, Upstreams, Net.Spaced(names), Names(names))
  {
    TextKeys();
    TextKinds();
    TextKeyNames();
    ListReadsBack(names);
    ListIsBare(names);
    hide KeyOf, KindOf, Takes, KeyName, Quote, Words, ValidNames;
    AllNamesKept(names);
    WordIsTaken(c, "DOWNSTREAMS", q, Downstreams, NamesKind, Net.Spaced(names), Names(names));
    WordIsTaken(c, "UPSTREAMS", q, Upstreams, NamesKind, Net.Spaced(names), Names(names));
  }

  lemma InterfaceSettings(c: Config, q: string, v: string)
    requires Quote(q) && (v == "" || Net.ValidIface(v))
    ensures Takes(c, "SQM_UP_IFACE", q, SqmUpIface, v, Iface(v))
    ensures Takes(c, "SQM_DOWN_IFACE", q, SqmDownIface, v, Iface(v))
  {
    TextKeys();
    TextKinds();
    TextKeyNames();
    if v != "" {
      NameHasNoSpace(v);
      assert v[0] in v && v[|v| - 1] in v;
    }
    hide KeyOf, KindOf, Takes, KeyName, Quote;
    WordIsTaken(c, "SQM_UP_IFACE", q, SqmUpIface, IfaceKind, v, Iface(v));
    WordIsTaken(c, "SQM_DOWN_IFACE", q, SqmDownIface, IfaceKind, v, Iface(v));
  }

  // ------------------------------------------------------------- whole files

  /** With distinct keys the last line that sets a key is the only one. */
  lemma {:induction false} OnlyLineDecides(lines: seq<string>, i: nat, name: string)
    requires i < |lines| && KeysDistinct(lines) && Sets(lines[i], name)
    ensures WordsOf(lines, name) == Words(Read(lines[i]).value)
  {
    hide Read, Words;
    if i < |lines| - 1 {
      var rest := lines[..|lines| - 1];
      assert rest[i] == lines[i];
      OnlyLineDecides(rest, i, name);
    }
  }

  /** No accepted file names an interface on both sides. */
  lemma NamesAreDisjoint(lines: seq<string>, i: nat, j: nat, q: string, r: string, down: seq<string>, up: seq<string>)
    requires Acceptable(lines) && i < |lines| && j < |lines| && Quote(q) && Quote(r) && ValidList(down) && ValidList(up)
    requires lines[i] == Line("DOWNSTREAMS", q, Net.Spaced(down)) && lines[j] == Line("UPSTREAMS", r, Net.Spaced(up))
    ensures forall s | s in down :: s !in up
  {
    TextKeyNames();
    ListReadsBack(down);
    ListReadsBack(up);
    ListIsBare(down);
    ListIsBare(up);
    hide KeyName, Quote, Bare, Words, Line, SqmOk, LoadLines, Read;
    LineIsRead("DOWNSTREAMS", q, Net.Spaced(down));
    LineIsRead("UPSTREAMS", r, Net.Spaced(up));
    OnlyLineDecides(lines, i, "DOWNSTREAMS");
    OnlyLineDecides(lines, j, "UPSTREAMS");
  }

  /** A file whose lines are fine is refused over CAKE exactly for these reasons. */
  lemma CakeNeeds(lines: seq<string>, up: nat, down: nat, upIface: string, downIface: string)
    requires (forall i | 0 <= i < |lines| :: LineOk(lines[i])) && KeysDistinct(lines)
    requires !Overlap(WordsOf(lines, "DOWNSTREAMS"), WordsOf(lines, "UPSTREAMS"))
    requires var c := Clamped(LoadLines(lines));
      && c[SqmUpKbit] == Number(up) && c[SqmUpIface] == Iface(upIface)
      && c[SqmDownKbit] == Number(down) && c[SqmDownIface] == Iface(downIface)
    ensures !Acceptable(lines) <==>
      || 0 < up < 100 || 0 < down < 100 || (up > 0 && upIface == "") || (down > 0 && downIface == "")
      || (up + down > 0 && Clamped(LoadLines(lines))[DisableOffload] != Flag(true))
      || (up > 0 && down > 0 && upIface == downIface)
      || (up + down > 0 && ("v4-" <= upIface || "clat" <= upIface))
  {
    hide LoadLines, LineOk, KeysDistinct, Overlap, WordsOf, Clamped;
  }
}
