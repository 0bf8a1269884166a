/**
 The byte and text formats of the CAKE client: the option attributes, the hex journal,
 and the netlink message whose answer is compared with what was asked for.
 */
module QosCodec {
  import opened Numbers
  import opened Wrappers
  import opened Bytes
  import opened Text

  type u16 = k: nat | k < 0x10000
  type Options = map<u16, bytes>

  // ---------------------------------------------------------------- attributes

  /** One attribute as `attr` writes it: the length field keeps only 16 bits. */
  function AttrBytes(kind: u16, value: bytes): (b: bytes)
    ensures |b| == Align4(4 + |value|)
  {
    PadTo4(PutLe16((|value| + 4) % 0x10000) + PutLe16(kind) + value)
  }

  lemma {:induction false} LeastExists(s: set<u16>) returns (k: u16)
    requires s != {}
    ensures k in s && forall j | j in s :: k <= j
    decreases |s|
  {
    k :| k in s;
    var rest := s - {k};
    if rest != {} {
      var m := LeastExists(rest);
      if m < k {
        forall j | j in s
          ensures m <= j
        {
          if j != k {
            assert j in rest;
          }
        }
        k := m;
      } else {
        forall j | j in s
          ensures k <= j
        {
          if j != k {
            assert j in rest;
          }
        }
      }
    }
  }

  /** The first key of a BTreeMap. */
  function Least(s: set<u16>): (k: u16)
    requires s != {}
    ensures k in s && forall j | j in s :: k <= j
  {
    assert exists k :: k in s && forall j | j in s :: k <= j by {
      var k := LeastExists(s);
    }
    var k :| k in s && forall j | j in s :: k <= j;
    k
  }

  /** All attributes, in ascending order of their keys. */
  function Encode(o: Options): bytes
    decreases |o|
  {
    if o == map[] then []
    else
      var k := Least(o.Keys);
      Shrinks(o, k);
      AttrBytes(k, o[k]) + Encode(o - {k})
  }

  lemma Shrinks(o: Options, k: u16)
    requires k in o
    ensures |o - {k}| < |o|
  {
    assert (o - {k}).Keys == o.Keys - {k};
    assert |(o - {k}).Keys| < |o.Keys|;
  }

  datatype Malformed = ShortAttribute | BadLength | Duplicate | BadHex | BadIndex | ShortJournal
                     | ShortMessage | NoKind | BadKind | NoOptions

  predicate WellSized(b: bytes)
    requires |b| >= 4
  {
    Le16(b, 0) >= 4 && Align4(Le16(b, 0)) <= |b|
  }

  function KeyAt(b: bytes): u16
    requires |b| >= 4
  {
    Le16(b, 2) % 0x4000
  }

  /** The attribute walk, with what has been read so far. */
  function Parse(b: bytes, out: Options): Result<Options, Malformed>
    decreases |b|
  {
    if b == [] then Ok(out)
    else if |b| < 4 then Err(ShortAttribute)
    else if !WellSized(b) then Err(BadLength)
    else if KeyAt(b) in out then Err(Duplicate)
    else Parse(b[Align4(Le16(b, 0))..], out[KeyAt(b) := b[4..Le16(b, 0)]])
  }

  predicate Encodable(o: Options) { forall k | k in o :: k < 0x4000 && |o[k]| <= 65531 }

  lemma AttrReadsBack(kind: u16, value: bytes, rest: bytes)
    requires kind < 0x4000 && |value| <= 65531
    ensures var b := AttrBytes(kind, value) + rest;
      && |b| >= 4 && Le16(b, 0) == 4 + |value| && WellSized(b) && KeyAt(b) == kind
      && b[4..Le16(b, 0)] == value && b[Align4(Le16(b, 0))..] == rest
  {
    var n := 4 + |value|;
    var pad := Zeros(Align4(n) - n);
    LayoutReadsBack(n, kind, value, pad + rest);
    AttrThenRest(kind, value, rest);
    hide PutLe16, Le16, Zeros, AttrBytes;
    var b := AttrBytes(kind, value) + rest;
    assert b[Align4(n)..] == rest;
  }

  lemma AttrThenRest(kind: u16, value: bytes, rest: bytes)
    requires |value| <= 65531
    ensures var n := 4 + |value|;
      AttrBytes(kind, value) + rest == PutLe16(n) + PutLe16(kind) + value + (Zeros(Align4(n) - n) + rest)
  {
    hide PutLe16, Zeros;
  }

  lemma ParseHead(k: u16, value: bytes, rest: bytes, out: Options)
    requires k < 0x4000 && |value| <= 65531 && k !in out
    ensures Parse(AttrBytes(k, value) + rest, out) == Parse(rest, out[k := value])
  {
    AttrReadsBack(k, value, rest);
    hide AttrBytes;
  }

  lemma MoveKey(out: Options, o: Options, k: u16)
    requires k in o
    ensures out[k := o[k]] + (o - {k}) == out + o
  {
  }

  lemma {:induction false} EncodedReadsBack(o: Options, out: Options)
    requires Encodable(o) && forall i, j | i in out && j in o :: i < j
    ensures Parse(Encode(o), out) == Ok(out + o)
    decreases |o|
  {
    if o == map[] {
      assert out + o == out;
    } else {
      var k := Least(o.Keys);
      var rest, more := o - {k}, out[k := o[k]];
      EncodeHead(o);
      ParseHead(k, o[k], Encode(rest), out);
      hide Parse, AttrBytes, Encode;
      Shrinks(o, k);
      EncodedReadsBack(rest, more);
      MoveKey(out, o, k);
    }
  }

  lemma EncodeHead(o: Options)
    requires o != map[]
    ensures var k := Least(o.Keys); Encode(o) == AttrBytes(k, o[k]) + Encode(o - {k})
  {
  }

  /** What the walk returns always has masked keys and values that fit a length field. */
  lemma {:induction false} ParsedIsEncodable(b: bytes, out: Options)
    requires Encodable(out)
    ensures Parse(b, out).Ok? ==> Encodable(Parse(b, out).value)
    decreases |b|
  {
    if |b| >= 4 && WellSized(b) {
      ParsedIsEncodable(b[Align4(Le16(b, 0))..], out[KeyAt(b) := b[4..Le16(b, 0)]]);
    }
  }

  /** Reading back what was encoded gives the same options exactly when keys and values fit. */
  lemma OptionsRoundTrip(o: Options)
    ensures Parse(Encode(o), map[]) == Ok(o) <==> Encodable(o)
  {
    if Encodable(o) {
      EncodedReadsBack(o, map[]);
      assert map[] + o == o;
    }
    ParsedIsEncodable(Encode(o), map[]);
  }

  /** encode: a BTreeMap's keys in order, each attribute appended to the buffer. */
  method EncodeOptions(o: Options) returns (b: bytes)
    ensures b == Encode(o)
  {
    EncodeEmpty();
    hide AttrBytes, Encode;
    b := [];
    var rest := o;
    while rest != map[]
      invariant b + Encode(rest) == Encode(o) && |b| % 4 == 0
      decreases |rest|
    {
      ghost var before, whole := b, rest;
      var k := Least(rest.Keys);
      b := AppendAttr(b, k, rest[k]);
      rest := rest - {k};
      EncodeStep(before, whole, k);
    }
  }

  lemma EncodeEmpty()
    ensures Encode(map[]) == []
  {
  }

  lemma EncodeStep(before: bytes, o: Options, k: u16)
    requires o != map[] && k == Least(o.Keys)
    ensures before + AttrBytes(k, o[k]) + Encode(o - {k}) == before + Encode(o)
    ensures |o - {k}| < |o|
  {
    hide AttrBytes;
    Shrinks(o, k);
    Associates(before, AttrBytes(k, o[k]), Encode(o - {k}));
  }

  lemma Associates(a: bytes, b: bytes, c: bytes)
    ensures a + b + c == a + (b + c)
  {
  }

  /** attr on a buffer whose length is already aligned. */
  method AppendAttr(b: bytes, kind: u16, value: bytes) returns (r: bytes)
    requires |b| % 4 == 0
    ensures r == b + AttrBytes(kind, value)
  {
    r := b + PutLe16((|value| + 4) % 0x10000);
    r := r + PutLe16(kind);
    r := r + value;
    r := r + Zeros(Align4(|r|) - |r|);
  }

  /** attrs: the loop over the rest of the buffer. */
  method ParseOptions(buffer: bytes) returns (r: Result<Options, Malformed>)
    ensures r == Parse(buffer, map[])
  {
    var b := buffer;
    var out: Options := map[];
    while b != []
      invariant Parse(b, out) == Parse(buffer, map[])
      decreases |b|
    {
      if |b| < 4 {
        return Err(ShortAttribute);
      }
      var n, k := Le16(b, 0), Le16(b, 2) % 0x4000;
      if n < 4 || Align4(n) > |b| {
        return Err(BadLength);
      }
      if k in out {
        return Err(Duplicate);
      }
      out := out[k := b[4..n]];
      b := b[Align4(n)..];
    }
    r := Ok(out);
  }

  // ----------------------------------------------------------------------- hex

  function HexDigit(d: nat): (c: char)
    requires d < 16
  {
    if d < 10 then '0' + d as char else 'a' + (d - 10) as char
  }

  function Hex(b: bytes): (s: string)
    ensures |s| == 2 * |b|
  {
    if b == [] then "" else [HexDigit(Byte(b, 0) / 16), HexDigit(Byte(b, 0) % 16)] + Hex(b[1..])
  }

  function HexValue(c: char): (d: Option<nat>)
    ensures d.Some? ==> d.value < 16
  {
    if '0' <= c <= '9' then Some(c as int - '0' as int)
    else if 'a' <= c <= 'f' then Some(c as int - 'a' as int + 10)
    else if 'A' <= c <= 'F' then Some(c as int - 'A' as int + 10)
    else None
  }

  /** u8::from_str_radix on two characters: a leading '+' is a sign. */
  function HexPair(a: char, b: char): (v: Option<u8>) {
    if HexValue(b).None? then None
    else if a == '+' then Some(HexValue(b).value)
    else if HexValue(a).None? then None
    else Some(16 * HexValue(a).value + HexValue(b).value)
  }

  function HexPairs(s: string): (r: Option<bytes>)
    requires |s| % 2 == 0
  {
    if s == "" then Some([])
    else
      var rest := HexPairs(s[2..]);
      if HexPair(s[0], s[1]).None? || rest.None? then None else Some([HexPair(s[0], s[1]).value] + rest.value)
  }

  predicate Ascii(s: string) { forall i | 0 <= i < |s| :: s[i] < 128 as char }

  function Unhex(s: string): Result<bytes, Malformed> {
    if |s| > 2048 || |s| % 2 != 0 || !Ascii(s) then Err(BadHex)
    else if HexPairs(s).None? then Err(BadHex)
    else Ok(HexPairs(s).value)
  }

  lemma {:induction false} HexReadsBack(b: bytes)
    ensures HexPairs(Hex(b)) == Some(b)
    ensures Ascii(Hex(b)) && '\n' !in Hex(b) && '\r' !in Hex(b)
  {
    if b != [] {
      var s, v := Hex(b), Byte(b, 0);
      HexReadsBack(b[1..]);
      assert s[2..] == Hex(b[1..]) && s[0] == HexDigit(v / 16) && s[1] == HexDigit(v % 16);
      HexDigitReadsBack(v / 16);
      HexDigitReadsBack(v % 16);
      assert b == [b[0]] + b[1..];
      forall i | 0 <= i < |s|
        ensures s[i] < 128 as char && s[i] != '\n' && s[i] != '\r'
      {
        if i >= 2 {
          assert s[i] == s[2..][i - 2];
        }
      }
    }
  }

  lemma HexDigitReadsBack(d: nat)
    requires d < 16
    ensures HexValue(HexDigit(d)) == Some(d) && HexDigit(d) != '+'
    ensures HexDigit(d) < 128 as char && HexDigit(d) != '\n' && HexDigit(d) != '\r'
  {
  }

  // ------------------------------------------------------------------- journal

  function JournalText(index: nat, o: Options): string { Decimal(index) + "\n" + Hex(Encode(o)) + "\n" }

  function ReadJournal(text: string): Result<(nat, Options), Malformed> {
    var lines := Lines(text);
    if lines == [] || ParseUnsigned(lines[0], U32_MAX).None? then Err(BadIndex)
    else if |lines| < 2 then Err(ShortJournal)
    else
      var b := Unhex(lines[1]);
      if b.Err? then Err(b.error)
      else
        var o := Parse(b.value, map[]);
        if o.Err? then Err(o.error) else Ok((ParseUnsigned(lines[0], U32_MAX).value, o.value))
  }

  lemma DecimalIsLine(n: nat)
    ensures '\n' !in Decimal(n) && StripCr(Decimal(n)) == Decimal(n)
  {
    var s := Decimal(n);
    assert IsDigit(s[|s| - 1]);
  }

  lemma JournalLines(index: nat, o: Options)
    ensures Lines(JournalText(index, o)) == [Decimal(index), Hex(Encode(o))]
  {
    var number, hex := Decimal(index), Hex(Encode(o));
    DecimalIsLine(index);
    HexReadsBack(Encode(o));
    hide Decimal, Hex, Encode;
    assert StripCr(hex) == hex;
    TwoLines(number, hex);
    assert JournalText(index, o) == number + "\n" + (hex + "\n" + "");
  }

  lemma TwoLines(a: string, b: string)
    requires CleanLine(a) && CleanLine(b)
    ensures Lines(a + "\n" + (b + "\n" + "")) == [a, b]
  {
    FirstLine(a, b + "\n" + "");
    FirstLine(b, "");
    hide Lines;
    assert [a] + ([b] + []) == [a, b];
    assert Lines("") == [] by { EmptyText(); }
  }

  lemma EmptyText()
    ensures Lines("") == []
  {
  }

  /** The journal reads back as what was written exactly when the options encode, into at most 1024 bytes. */
  lemma JournalRoundTrip(index: nat, o: Options)
    requires index <= U32_MAX
    ensures ReadJournal(JournalText(index, o)) == Ok((index, o)) <==> Encodable(o) && |Encode(o)| <= 1024
  {
    JournalLines(index, o);
    ParseDecimal(index, U32_MAX);
    HexReadsBack(Encode(o));
    OptionsRoundTrip(o);
    hide Encode, Hex, Lines, Decimal, Parse, Encodable;
  }

  // ------------------------------------------------------------------ messages

  const ROOT: nat := 0xffff_ffff
  const HANDLE: nat := 0x7e10_0000
  const RTM_NEWQDISC: u16 := 36
  const RTM_GETQDISC: u16 := 38
  const CAKE: bytes := [0x63, 0x61, 0x6b, 0x65]

  datatype Qdisc = Qdisc(index: nat, parent: nat, handle: nat, kind: bytes, options: Options)

  /** The netlink header and tcmsg, then kind and options if there are any. */
  function Message(ty: u16, flags: u16, index: nat, handle: nat, o: Option<Options>): (b: bytes)
    requires index <= U32_MAX && handle <= U32_MAX
    ensures |b| >= 36
  {
    var body := if o.Some? then AttrBytes(1, CAKE + [0]) + AttrBytes(2, Encode(o.value)) else [];
    PutLe32((36 + |body|) % 0x1_0000_0000) + PutLe16(ty) + PutLe16(flags) + PutLe32(1) + PutLe32(0)
    + Zeros(4) + PutLe32(index) + PutLe32(handle) + PutLe32(if ty != RTM_GETQDISC then ROOT else 0) + PutLe32(0)
    + body
  }

  predicate Continuation(b: u8) { 0x80 <= b < 0xc0 }

  /** Well-formed UTF-8. */
  predicate Utf8(b: bytes) {
    if b == [] then true
    else if b[0] < 0x80 then Utf8(b[1..])
    else if 0xc2 <= b[0] < 0xe0 then |b| >= 2 && Continuation(b[1]) && Utf8(b[2..])
    else if 0xe0 <= b[0] < 0xf0 then
      && |b| >= 3 && Continuation(b[1]) && Continuation(b[2])
      && (b[0] == 0xe0 ==> b[1] >= 0xa0) && (b[0] == 0xed ==> b[1] < 0xa0) && Utf8(b[3..])
    else
      && 0xf0 <= b[0] < 0xf5 && |b| >= 4 && Continuation(b[1]) && Continuation(b[2]) && Continuation(b[3])
      && (b[0] == 0xf0 ==> b[1] >= 0x90) && (b[0] == 0xf4 ==> b[1] < 0x90) && Utf8(b[4..])
  }

  function StripNul(b: bytes): bytes { if b != [] && b[|b| - 1] == 0 then b[..|b| - 1] else b }

  /** decode_qdisc on the tcmsg and its attributes. */
  function Decode(b: bytes): Result<Qdisc, Malformed> {
    if |b| < 20 then Err(ShortMessage)
    else
      var a := Parse(b[20..], map[]);
      if a.Err? then Err(a.error)
      else if 1 !in a.value then Err(NoKind)
      else
        var kind := StripNul(a.value[1]);
        if !Utf8(kind) then Err(BadKind)
        else if kind == CAKE && 2 !in a.value then Err(NoOptions)
        else
          var o: Result<Options, Malformed> := if kind == CAKE then Parse(a.value[2], map[]) else Ok(map[]);
          if o.Err? then Err(o.error)
          else Ok(Qdisc(Le32(b, 4), Le32(b, 12), Le32(b, 8), kind, o.value - {1}))
  }

  predicate Owned(q: Qdisc, index: nat, o: Options) {
    q.index == index && q.parent == ROOT && q.handle == HANDLE && q.kind == CAKE && q.options == o
  }

  lemma KindAndOptions(o: Options)
    requires Encodable(o) && |Encode(o)| <= 65531
    ensures Parse(AttrBytes(1, CAKE + [0]) + AttrBytes(2, Encode(o)), map[]) == Ok(map[1 := CAKE + [0], 2 := Encode(o)])
  {
    var none: Options := map[];
    hide Parse, AttrBytes, Encode;
    ParseHead(1, CAKE + [0], AttrBytes(2, Encode(o)), none);
    ParseHead(2, Encode(o), [], none[1 := CAKE + [0]]);
    assert AttrBytes(2, Encode(o)) + [] == AttrBytes(2, Encode(o));
    ParseNothing(none[1 := CAKE + [0]][2 := Encode(o)]);
    assert none[1 := CAKE + [0]][2 := Encode(o)] == map[1 := CAKE + [0], 2 := Encode(o)];
  }

  lemma ParseNothing(out: Options)
    ensures Parse([], out) == Ok(out)
  {
  }

  lemma AddMessageLayout(index: nat, body: bytes, o: Options)
    requires index <= U32_MAX && body == AttrBytes(1, CAKE + [0]) + AttrBytes(2, Encode(o))
    ensures var b := Message(RTM_NEWQDISC, 0x605, index, HANDLE, Some(o))[16..];
      |b| >= 20 && b[20..] == body && Le32(b, 4) == index && Le32(b, 8) == HANDLE && Le32(b, 12) == ROOT
  {
    var b := Message(RTM_NEWQDISC, 0x605, index, HANDLE, Some(o))[16..];
    hide AttrBytes, Encode;
    assert b == Zeros(4) + PutLe32(index) + PutLe32(HANDLE) + PutLe32(ROOT) + PutLe32(0) + body;
    assert b[4..8] == PutLe32(index) && b[8..12] == PutLe32(HANDLE) && b[12..16] == PutLe32(ROOT);
    PutGet32(b, 4, index);
    PutGet32(b, 8, HANDLE);
    PutGet32(b, 12, ROOT);
  }

  lemma CakeKind()
    ensures StripNul(CAKE + [0]) == CAKE && Utf8(CAKE)
  {
    assert CAKE[1..] == [0x61, 0x6b, 0x65] && CAKE[1..][1..] == [0x6b, 0x65];
    assert Utf8([0x65]) && Utf8([0x6b, 0x65]);
  }

  lemma DecodeCake(b: bytes, enc: bytes, o: Options)
    requires |b| >= 20 && Parse(b[20..], map[]) == Ok(map[1 := CAKE + [0], 2 := enc])
    requires Parse(enc, map[]) == Ok(o)
    ensures Decode(b) == Ok(Qdisc(Le32(b, 4), Le32(b, 12), Le32(b, 8), CAKE, o - {1}))
  {
    CakeKind();
    hide Parse, StripNul, Utf8;
  }

  /**
   What the kernel is asked to add, read back as a dump entry, is owned exactly when the options
   leave key 1 to padding.
   */
  lemma AddedIsOwned(index: nat, o: Options)
    requires index <= U32_MAX && Encodable(o) && |Encode(o)| <= 65531
    ensures var q := Decode(Message(RTM_NEWQDISC, 0x605, index, HANDLE, Some(o))[16..]);
      && q == Ok(Qdisc(index, ROOT, HANDLE, CAKE, o - {1}))
      && (Owned(q.value, index, o) <==> 1 !in o)
  {
    var body := AttrBytes(1, CAKE + [0]) + AttrBytes(2, Encode(o));
    var b := Message(RTM_NEWQDISC, 0x605, index, HANDLE, Some(o))[16..];
    hide Parse, AttrBytes, Encode, Message, Encodable, Decode;
    AddMessageLayout(index, body, o);
    KindAndOptions(o);
    OptionsRoundTrip(o);
    DecodeCake(b, Encode(o), o);
    WithoutPadding(o);
  }

  lemma WithoutPadding(o: Options)
    ensures o - {1} == o <==> 1 !in o
  {
    assert 1 !in o - {1};
  }

  // ------------------------------------------------------------------- options

  function PutLe64(v: nat): (b: bytes)
    requires v < 0x1_0000_0000_0000_0000
    ensures |b| == 8
  {
    PutLe32(v % 0x1_0000_0000) + PutLe32(v / 0x1_0000_0000)
  }

  /** One of the fixed settings; only the rate and the flow mode vary. */
  function CakeValue(k: u16, kbit: nat, flow: nat): (v: bytes)
    requires kbit <= U32_MAX && flow <= U32_MAX
    ensures |v| <= 8
  {
    if k == 2 then PutLe64(kbit * 125)
    else if k == 3 then PutLe32(3)
    else if k == 5 then PutLe32(flow)
    else if k == 7 then PutLe32(100_000)
    else if k == 8 then PutLe32(5_000)
    else if k == 10 then PutLe32(0x40_0000)
    else if k == 11 || k == 17 then PutLe32(1)
    else PutLe32(0)
  }

  /** The options for a rate in kbit/s and a flow mode. */
  function CakeOptions(kbit: nat, flow: nat): Options
    requires kbit <= U32_MAX && flow <= U32_MAX
  {
    map k: u16 | 2 <= k < 19 :: CakeValue(k, kbit, flow)
  }

  /** Values of at most 8 bytes under keys below `end` take at most 12 bytes a key. */
  lemma {:induction false} EncodedSize(o: Options, start: nat, end: nat)
    requires start <= end && forall k | k in o :: start <= k < end && |o[k]| <= 8
    ensures |Encode(o)| <= 12 * (end - start)
    decreases |o|
  {
    if o != map[] {
      var k := Least(o.Keys);
      assert (o - {k}).Keys == o.Keys - {k};
      hide Encode;
      var least: nat := k;
      EncodedSize(o - {k}, least + 1, end);
      EncodeLength(o, k);
    }
  }

  lemma EncodeLength(o: Options, k: u16)
    requires o != map[] && k == Least(o.Keys)
    ensures |Encode(o)| == Align4(4 + |o[k]|) + |Encode(o - {k})|
  {
    hide AttrBytes;
  }

  /** The options the program asks for survive the journal and the netlink round trip. */
  lemma CakeOptionsSurvive(kbit: nat, flow: nat, index: nat)
    requires kbit <= U32_MAX && flow <= U32_MAX && index <= U32_MAX
    ensures var o := CakeOptions(kbit, flow);
      && ReadJournal(JournalText(index, o)) == Ok((index, o))
      && Decode(Message(RTM_NEWQDISC, 0x605, index, HANDLE, Some(o))[16..]) == Ok(Qdisc(index, ROOT, HANDLE, CAKE, o))
  {
    var o := CakeOptions(kbit, flow);
    assert Encodable(o) && 1 !in o;
    hide CakeValue, ReadJournal, JournalText, Message, Decode, Encode;
    EncodedSize(o, 2, 19);
    JournalRoundTrip(index, o);
    AddedIsOwned(index, o);
  }
}
