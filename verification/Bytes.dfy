/** Bytes, the integers laid out in them, and netlink's four-byte alignment. */
module Bytes {
  type u8 = b: int | 0 <= b < 0x100
  type bytes = seq<u8>

  function Byte(b: bytes, i: nat): (v: nat)
    requires i < |b|
    ensures v < 0x100
  {
    b[i]
  }

  function Le16(b: bytes, i: nat): (v: nat)
    requires i + 2 <= |b|
    ensures v < 0x10000
  {
    Byte(b, i) + 0x100 * Byte(b, i + 1)
  }

  function Be16(b: bytes, i: nat): (v: nat)
    requires i + 2 <= |b|
    ensures v < 0x10000
  {
    0x100 * Byte(b, i) + Byte(b, i + 1)
  }

  function Le32(b: bytes, i: nat): (v: nat)
    requires i + 4 <= |b|
    ensures v < 0x1_0000_0000
  {
    Le16(b, i) + 0x10000 * Le16(b, i + 2)
  }

  function Be32(b: bytes, i: nat): (v: nat)
    requires i + 4 <= |b|
    ensures v < 0x1_0000_0000
  {
    0x10000 * Be16(b, i) + Be16(b, i + 2)
  }

  function PutLe16(v: nat): (b: bytes)
    requires v < 0x10000
    ensures |b| == 2
  {
    [v % 0x100, v / 0x100]
  }

  function PutLe32(v: nat): (b: bytes)
    requires v < 0x1_0000_0000
    ensures |b| == 4
  {
    PutLe16(v % 0x10000) + PutLe16(v / 0x10000)
  }

  function Align4(n: nat): (a: nat)
    ensures n <= a < n + 4 && a % 4 == 0
  {
    (n + 3) / 4 * 4
  }

  function Zeros(n: nat): (z: bytes)
    ensures |z| == n
  {
    seq(n, _ => 0)
  }

  function PadTo4(b: bytes): (p: bytes)
    ensures |p| == Align4(|b|) && b <= p
  {
    b + Zeros(Align4(|b|) - |b|)
  }

  lemma PutGet(b: bytes, i: nat, v: nat)
    requires v < 0x10000 && i + 2 <= |b| && b[i..i + 2] == PutLe16(v)
    ensures Le16(b, i) == v
  {
    assert b[i] == b[i..i + 2][0] && b[i + 1] == b[i..i + 2][1];
  }

  lemma PutGet32(b: bytes, i: nat, v: nat)
    requires v < 0x1_0000_0000 && i + 4 <= |b| && b[i..i + 4] == PutLe32(v)
    ensures Le32(b, i) == v
  {
    assert b[i..i + 2] == b[i..i + 4][..2] == PutLe16(v % 0x10000);
    assert b[i + 2..i + 4] == b[i..i + 4][2..] == PutLe16(v / 0x10000);
    PutGet(b, i, v % 0x10000);
    PutGet(b, i + 2, v / 0x10000);
  }

  /** Two 16-bit fields, a body and a tail, laid out one after another. */
  lemma LayoutReadsBack(v: nat, k: nat, body: bytes, tail: bytes)
    requires v < 0x10000 && k < 0x10000
    ensures var b := PutLe16(v) + PutLe16(k) + body + tail;
      Le16(b, 0) == v && Le16(b, 2) == k && b[4..4 + |body|] == body && b[4 + |body|..] == tail
  {
    var p, q := PutLe16(v), PutLe16(k);
    var b := p + q + body + tail;
    hide PutLe16;
    assert b[0..2] == p && b[2..4] == q;
    PutGet(b, 0, v);
    PutGet(b, 2, k);
    hide Le16;
    assert b[4..4 + |body|] == body && b[4 + |body|..] == tail;
  }

  lemma Le16Tail(b: bytes, i: nat, j: nat)
    requires i + j + 2 <= |b|
    ensures Le16(b[i..], j) == Le16(b, i + j)
  {
  }

  lemma SizeReadsBack(v: nat, tail: bytes)
    requires v < 0x1_0000_0000
    ensures Le32(PutLe32(v) + tail, 0) == v
  {
    assert (PutLe32(v) + tail)[0..4] == PutLe32(v);
    PutGet32(PutLe32(v) + tail, 0, v);
  }
}
