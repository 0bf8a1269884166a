/** The bytes of the CAKE client, spelled out: options, the request that adds a root, and the journal's text. */
module Requests {
  import opened Numbers
  import opened Wrappers
  import opened Bytes
  import opened Layout
  import opened QosCodec
  import opened Text

  // ------------------------------------------------------------------- options

  /** These are the options, one attribute each, in ascending order of keys. */
  predicate Lists(items: seq<Item>, o: Options) {
    && Sendable(items)
    && (forall i, j | 0 <= i < j < |items| :: items[i].kind < items[j].kind)
    && (forall i | 0 <= i < |items| :: items[i].kind in o && o[items[i].kind] == items[i].value)
    && forall k | k in o :: exists i | 0 <= i < |items| :: items[i].kind == k
  }

  lemma AttrIsItem(kind: u16, value: bytes)
    requires |value| <= 65531
    ensures AttrBytes(kind, value) == ItemBytes(Item(kind, value))
  {
  }

  lemma FirstIsLeast(items: seq<Item>, o: Options)
    requires Lists(items, o) && items != []
    ensures o != map[] && Least(o.Keys) == items[0].kind
  {
    var k := items[0].kind;
    assert k in o.Keys;
    var least := Least(o.Keys);
    var i :| 0 <= i < |items| && items[i].kind == least;
  }

  lemma RestLists(items: seq<Item>, o: Options)
    requires Lists(items, o) && items != []
    ensures Lists(items[1..], o - {items[0].kind})
  {
    var k, rest, tail := items[0].kind, o - {items[0].kind}, items[1..];
    assert forall i | 0 <= i < |tail| :: tail[i] == items[i + 1];
    forall j | j in rest
      ensures exists n | 0 <= n < |tail| :: tail[n].kind == j
    {
      var n :| 0 <= n < |items| && items[n].kind == j;
      assert tail[n - 1].kind == j;
    }
  }

  /** The options go out as these attributes and nothing else. */
  lemma {:induction false} EncodedIsLaid(items: seq<Item>, o: Options)
    requires Lists(items, o)
    ensures Encode(o) == Laid(items)
    decreases |items|
  {
    hide AttrBytes, ItemBytes;
    if items == [] {
      assert o == map[] by {
        assert forall k :: k !in o;
      }
    } else {
      var k := items[0].kind;
      FirstIsLeast(items, o);
      RestLists(items, o);
      AttrIsItem(k, items[0].value);
      EncodedIsLaid(items[1..], o - {k});
    }
  }

  /** An attribute is read under its type without flags, once. */
  lemma ItemIsParsed(a: Item, tail: bytes, out: Options)
    requires a.kind < 0x10000 && |a.value| <= 65531
    ensures Parse(ItemBytes(a) + tail, out) ==
      if a.kind % 0x4000 in out then Err(Duplicate) else Parse(tail, out[a.kind % 0x4000 := a.value])
  {
    var n := 4 + |a.value|;
    var b := ItemBytes(a) + tail;
    assert b[0] == n % 0x100 && b[1] == n / 0x100 && b[2] == a.kind % 0x100 && b[3] == a.kind / 0x100;
    assert Le16(b, 0) == n && Le16(b, 2) == a.kind;
    assert b[4..n] == a.value && b[Align4(n)..] == tail;
    hide ItemBytes, Align4, Le16;
  }

  /** What no attribute can start, or one whose padded length n is beyond the end, is refused. */
  lemma BadTails(b: bytes, n: nat, out: Options)
    requires n < 0x10000
    ensures 0 < |b| < 4 ==> Parse(b, out) == Err(ShortAttribute)
    ensures |b| >= 4 && b[..2] == [n % 0x100, n / 0x100] && (n < 4 || n + (4 - n % 4) % 4 > |b|) ==>
      Parse(b, out) == Err(BadLength)
  {
    if |b| >= 4 && b[..2] == [n % 0x100, n / 0x100] {
      assert b[0] == b[..2][0] && b[1] == b[..2][1];
      assert Le16(b, 0) == n;
    }
  }

  /** The value of bytes that stand with the least significant one first. */
  function LeNumber(b: bytes): nat {
    if b == [] then 0 else Byte(b, 0) + 0x100 * LeNumber(b[1..])
  }

  lemma FourBytes(v: nat)
    requires v <= U32_MAX
    ensures LeNumber(PutLe32(v)) == v && |PutLe32(v)| == 4
  {
    var b := PutLe32(v);
    var b0: nat, b1: nat, b2: nat, b3: nat := b[0], b[1], b[2], b[3];
    var t1, t2, t3 := b[1..], b[2..], b[3..];
    assert t1[1..] == t2 && t2[1..] == t3 && t3[1..] == [];
    assert LeNumber(t3) == b3;
    assert LeNumber(t2) == b2 + 0x100 * b3;
    assert LeNumber(t1) == b1 + 0x100 * (b2 + 0x100 * b3);
    assert LeNumber(b) == b0 + 0x100 * (b1 + 0x100 * (b2 + 0x100 * b3));
    assert v % 0x10000 == b0 + 0x100 * b1 && v / 0x10000 == b2 + 0x100 * b3;
  }

  lemma {:induction false} NumberOfBoth(a: bytes, b: bytes)
    ensures |a| == 4 ==> LeNumber(a + b) == LeNumber(a) + 0x1_0000_0000 * LeNumber(b)
  {
    if |a| == 4 {
      var c := a + b;
      assert c[1..] == a[1..] + b && c[1..][1..] == a[2..] + b && c[2..][1..] == a[3..] + b && c[3..][1..] == b;
      assert a[1..][1..] == a[2..] && a[2..][1..] == a[3..] && a[3..][1..] == [];
      assert c[1..][1..] == c[2..] && c[2..][1..] == c[3..];
      assert LeNumber(a[3..]) == a[3] && LeNumber(c[3..]) == a[3] + 0x100 * LeNumber(b);
      assert LeNumber(a[2..]) == a[2] + 0x100 * LeNumber(a[3..]);
      assert LeNumber(c[2..]) == a[2] + 0x100 * LeNumber(c[3..]);
      assert LeNumber(a[1..]) == a[1] + 0x100 * LeNumber(a[2..]);
      assert LeNumber(c[1..]) == a[1] + 0x100 * LeNumber(c[2..]);
    }
  }

  /**
   What the program asks for: the rate in bytes per second, the given flow mode, triple isolation, interval and
   target in microseconds, the memory limit, and the rest switched on or off.
   */
  lemma OptionsSay(kbit: nat, flow: nat)
    requires kbit <= U32_MAX && flow <= U32_MAX
    ensures var o := CakeOptions(kbit, flow);
      && (forall k: u16 :: k in o <==> 2 <= k <= 18)
      && LeNumber(o[2]) == 125 * kbit && |o[2]| == 8
      && LeNumber(o[3]) == 3 && LeNumber(o[5]) == flow && LeNumber(o[7]) == 100000 && LeNumber(o[8]) == 5000
      && LeNumber(o[10]) == 4194304 && LeNumber(o[11]) == LeNumber(o[17]) == 1
      && (forall k: u16 | k in [4, 6, 9, 12, 13, 14, 15, 16, 18] :: LeNumber(o[k]) == 0)
      && forall k: u16 | 3 <= k <= 18 :: |o[k]| == 4
  {
    RateIsSaid(kbit, flow);
    hide PutLe64;
    FourBytes(3);
    FourBytes(flow);
    FourBytes(100000);
    FourBytes(5000);
    FourBytes(4194304);
    FourBytes(1);
    FourBytes(0);
    hide PutLe32, LeNumber;
    forall k: u16 | 2 < k <= 18
      ensures CakeOptions(kbit, flow)[k] == CakeValue(k, kbit, flow)
    {
    }
  }

  lemma RateIsSaid(kbit: nat, flow: nat)
    requires kbit <= U32_MAX && flow <= U32_MAX
    ensures LeNumber(CakeValue(2, kbit, flow)) == 125 * kbit && |CakeValue(2, kbit, flow)| == 8
  {
    var rate := kbit * 125;
    FourBytes(rate % 0x1_0000_0000);
    FourBytes(rate / 0x1_0000_0000);
    NumberOfBoth(PutLe32(rate % 0x1_0000_0000), PutLe32(rate / 0x1_0000_0000));
    hide PutLe32, LeNumber;
  }

  // ------------------------------------------------------------------- requests

  /** RTM_NEWQDISC, a request to create exclusively: on this interface, under the root, our handle, kind and options. */
  lemma AddRequestIsSpelled(index: nat, o: Options)
    requires index <= U32_MAX && |Encode(o)| <= 65531
    ensures var body := ItemBytes(Item(1, Spelled("cake") + [0])) + ItemBytes(Item(2, Encode(o)));
      |body| < 0x1_0000_0000 - 36 &&
      Message(RTM_NEWQDISC, 0x605, index, HANDLE, Some(o)) ==
        Size(36 + |body|) + [36, 0, 5, 6, 1, 0, 0, 0, 0, 0, 0, 0] + [0, 0, 0, 0] + Size(index)
        + [0, 0, 0x10, 0x7e] + [0xff, 0xff, 0xff, 0xff] + [0, 0, 0, 0] + body
  {
    KindIsSpelled();
    AttrIsItem(1, CAKE + [0]);
    AttrIsItem(2, Encode(o));
    var body := AttrBytes(1, CAKE + [0]) + AttrBytes(2, Encode(o));
    SizeBytes(36 + |body|);
    SizeBytes(index);
    FixedFields();
    hide Encode, AttrBytes, ItemBytes, PutLe32, PutLe16, Size, Spelled, Zeros, Message;
    MessageParts(index, o, body);
  }

  lemma MessageParts(index: nat, o: Options, body: bytes)
    requires index <= U32_MAX && |body| < 0x1_0000_0000 - 36
    requires body == AttrBytes(1, CAKE + [0]) + AttrBytes(2, Encode(o))
    ensures Message(RTM_NEWQDISC, 0x605, index, HANDLE, Some(o)) ==
      PutLe32(36 + |body|) + [36, 0, 5, 6, 1, 0, 0, 0, 0, 0, 0, 0] + [0, 0, 0, 0] + PutLe32(index)
      + [0, 0, 0x10, 0x7e] + [0xff, 0xff, 0xff, 0xff] + [0, 0, 0, 0] + body
  {
    FixedFields();
    hide Encode, AttrBytes, PutLe32, PutLe16, Zeros;
    var head := PutLe32(36 + |body|);
    assert head + [36, 0] + [5, 6] + [1, 0, 0, 0] + [0, 0, 0, 0] == head + [36, 0, 5, 6, 1, 0, 0, 0, 0, 0, 0, 0];
  }

  lemma KindIsSpelled()
    ensures Spelled("cake") == CAKE
  {
  }

  lemma FixedFields()
    ensures PutLe16(36) == [36, 0] && PutLe16(0x605) == [5, 6] && PutLe32(1) == [1, 0, 0, 0]
    ensures PutLe32(0) == Zeros(4) == [0, 0, 0, 0] && PutLe32(HANDLE) == [0, 0, 0x10, 0x7e]
    ensures PutLe32(ROOT) == [0xff, 0xff, 0xff, 0xff]
  {
  }

  // ----------------------------------------------------------------- the journal

  /** Two lower-case hexadecimal digits a byte, the high one first. */
  lemma {:induction false} HexIsSpelled(b: bytes, i: nat)
    requires i < |b|
    ensures Hex(b)[2 * i] == "0123456789abcdef"[Byte(b, i) / 16]
    ensures Hex(b)[2 * i + 1] == "0123456789abcdef"[Byte(b, i) % 16]
  {
    if i > 0 {
      HexIsSpelled(b[1..], i - 1);
    } else {
      DigitIsSpelled(Byte(b, 0) / 16);
      DigitIsSpelled(Byte(b, 0) % 16);
    }
  }

  /** Digits are read in either case. */
  lemma DigitsAreRead(d: nat)
    requires d < 16
    ensures HexValue("0123456789abcdef"[d]) == HexValue("0123456789ABCDEF"[d]) == Some(d)
  {
  }

  lemma DigitIsSpelled(d: nat)
    requires d < 16
    ensures HexDigit(d) == "0123456789abcdef"[d]
  {
  }
}
