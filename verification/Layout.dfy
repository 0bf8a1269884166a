/**
 Netlink bytes as the protocol lays them out, least significant byte first: attributes, sizes, and
 names. The formats of the program are measured against these.
 */
module Layout {
  import opened Bytes

  function Spelled(s: string): bytes {
    seq(|s|, i requires 0 <= i < |s| => if s[i] as int < 0x80 then s[i] as int else 0)
  }

  /** An attribute as the kernel sends it; the two highest bits of its type are flags. */
  datatype Item = Item(kind: nat, value: bytes)

  predicate Sendable(items: seq<Item>) {
    forall i | 0 <= i < |items| :: items[i].kind < 0x10000 && |items[i].value| <= 65531
  }

  /** Length and type, least significant byte first, the value, and padding to four bytes. */
  function ItemBytes(a: Item): (b: bytes)
    requires a.kind < 0x10000 && |a.value| <= 65531
  {
    var n := 4 + |a.value|;
    [n % 0x100, n / 0x100, a.kind % 0x100, a.kind / 0x100] + a.value + Zeros((4 - n % 4) % 4)
  }

  function Laid(items: seq<Item>): bytes
    requires Sendable(items)
  {
    if items == [] then [] else ItemBytes(items[0]) + Laid(items[1..])
  }

  function Size(n: nat): bytes
    requires n < 0x1_0000_0000
  {
    [n % 0x100, n / 0x100 % 0x100, n / 0x10000 % 0x100, n / 0x100_0000]
  }

  lemma {:induction false} LaidSize(items: seq<Item>)
    requires Sendable(items)
    ensures |Laid(items)| <= 65540 * |items|
  {
    if items != [] {
      LaidSize(items[1..]);
    }
  }

  lemma LaidOne(a: Item)
    requires a.kind < 0x10000 && |a.value| <= 65531
    ensures Laid([a]) == ItemBytes(a)
  {
    assert [a][1..] == [];
    assert Laid([a]) == ItemBytes(a) + Laid([]);
  }

  lemma LaidTwo(a: Item, b: Item)
    requires a.kind < 0x10000 && |a.value| <= 65531 && b.kind < 0x10000 && |b.value| <= 65531
    ensures Laid([a] + [b]) == ItemBytes(a) + ItemBytes(b)
  {
    LaidOne(b);
    assert ([a] + [b])[1..] == [b];
  }

  lemma {:induction false} LaidIsAligned(items: seq<Item>)
    requires Sendable(items)
    ensures |Laid(items)| % 4 == 0
  {
    if items != [] {
      LaidIsAligned(items[1..]);
    }
  }

  lemma SizeIsRead(f: bytes)
    requires 4 <= |f| < 0x1_0000_0000 && f[..4] == Size(|f|)
    ensures Le32(f, 0) == |f|
  {
    SizeBytes(|f|);
    assert f[0..4] == f[..4];
    PutGet32(f, 0, |f|);
  }

  lemma SizeBytes(n: nat)
    requires n < 0x1_0000_0000
    ensures PutLe32(n) == Size(n)
  {
    Digits(n % 0x10000, n / 0x10000);
    assert n == n / 0x10000 * 0x10000 + n % 0x10000;
  }

  lemma Digits(low: nat, high: nat)
    requires low < 0x10000
    ensures var n := high * 0x10000 + low;
      && n % 0x100 == low % 0x100 && n / 0x100 % 0x100 == low / 0x100
      && n / 0x10000 == high && n / 0x100_0000 == high / 0x100
  {
    var n := high * 0x10000 + low;
    assert n == 0x100 * (0x100 * high + low / 0x100) + low % 0x100;
    assert n / 0x100 == 0x100 * high + low / 0x100;
  }
}
