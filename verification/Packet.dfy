/** The in-place rewrite of an IPv4 header's TTL and checksum. */
module Packet {
  import opened Bytes

  // ---------------------------------------------------- the Internet checksum

  /** The sum of the first n 16-bit words. */
  function WordSum(h: bytes, n: nat): (s: nat)
    requires 2 * n <= |h|
    ensures s <= 0xffff * n
  {
    if n == 0 then 0 else WordSum(h, n - 1) + Be16(h, 2 * (n - 1))
  }

  /** End-around carry until 16 bits are left. */
  function Fold(sum: nat): (s: nat)
    ensures s < 0x10000
    decreases sum
  {
    if sum < 0x10000 then sum else Fold(sum % 0x10000 + sum / 0x10000)
  }

  /** Folding is reduction modulo 65535, with 65535 itself standing for every positive multiple. */
  lemma {:induction false} FoldIsResidue(sum: nat)
    ensures Fold(sum) % 0xffff == sum % 0xffff
    ensures Fold(sum) == 0 <==> sum == 0
    decreases sum
  {
    if sum >= 0x10000 {
      var next := sum % 0x10000 + sum / 0x10000;
      assert sum == next + 0xffff * (sum / 0x10000);
      FoldIsResidue(next);
      ResidueShift(next, sum / 0x10000);
    }
  }

  lemma ResidueShift(a: nat, k: nat)
    ensures (a + 0xffff * k) % 0xffff == a % 0xffff
  {
  }

  /** Positive sums with the same residue fold to the same word. */
  lemma SameFold(a: nat, b: nat)
    requires a > 0 && b > 0 && a % 0xffff == b % 0xffff
    ensures Fold(a) == Fold(b)
  {
    FoldIsResidue(a);
    FoldIsResidue(b);
  }

  /** Headers that agree outside word k have sums that differ by that word. */
  lemma {:induction false} WordSumChange(a: bytes, b: bytes, n: nat, k: nat)
    requires |a| == |b| && 2 * n <= |a|
    requires forall i | 0 <= i < 2 * n && i / 2 != k :: a[i] == b[i]
    ensures k < n ==> WordSum(a, n) + Be16(b, 2 * k) == WordSum(b, n) + Be16(a, 2 * k)
    ensures k >= n ==> WordSum(a, n) == WordSum(b, n)
  {
    if n > 0 {
      WordSumChange(a, b, n - 1, k);
      if n - 1 != k {
        assert a[2 * (n - 1)] == b[2 * (n - 1)] && a[2 * (n - 1) + 1] == b[2 * (n - 1) + 1];
      }
    }
  }

  // ------------------------------------------------------------------ headers

  function HeaderLength(p: bytes): nat
    requires p != []
  {
    var first: nat := p[0];
    first % 16 * 4
  }

  /** RFC 791 section 3.1 and RFC 1071 section 1: the header's words, checksum included, fold to all ones. */
  predicate Verifies(p: bytes)
    requires p != [] && HeaderLength(p) <= |p|
  {
    Fold(WordSum(p, HeaderLength(p) / 2)) == 0xffff
  }

  /** A complete IPv4 packet whose TTL is not the wanted one yet. */
  predicate Rewritable(p: bytes, ttl: u8) {
    && |p| >= 20 && p[0] / 16 == 4 && ttl != 0
    && 20 <= HeaderLength(p) <= |p|
    && HeaderLength(p) <= Be16(p, 2) <= |p|
    && p[8] != ttl
  }

  function Cleared(p: bytes, ttl: u8): bytes
    requires |p| >= 20
  {
    p[8 := ttl][10 := 0][11 := 0]
  }

  function Checksum(p: bytes): (c: nat)
    requires p != [] && HeaderLength(p) <= |p|
    ensures c < 0x10000
  {
    0xffff - Fold(WordSum(p, HeaderLength(p) / 2))
  }

  function WithChecksum(p: bytes, c: nat): bytes
    requires |p| >= 20 && c < 0x10000
  {
    p[10 := c / 0x100][11 := c % 0x100]
  }

  /** The packet the rewrite leaves behind. */
  function Rewritten(p: bytes, ttl: u8): bytes
    requires |p| >= 20 && HeaderLength(p) <= |p|
  {
    WithChecksum(Cleared(p, ttl), Checksum(Cleared(p, ttl)))
  }

  lemma ComplementVerifies(sum: nat)
    ensures Fold(sum + (0xffff - Fold(sum))) == 0xffff
  {
    var f := Fold(sum);
    var total := sum + (0xffff - f);
    FoldIsResidue(sum);
    FoldIsResidue(total);
    hide Fold;
    ResidueDifference(sum, f);
  }

  lemma ResidueDifference(a: nat, b: nat)
    requires a % 0xffff == b % 0xffff && b <= 0xffff
    ensures (a + (0xffff - b)) % 0xffff == 0
  {
    if b == 0xffff {
    } else {
      assert a == b + 0xffff * (a / 0xffff);
      Multiple(a / 0xffff + 1);
    }
  }

  lemma Multiple(k: nat)
    ensures 0xffff * k % 0xffff == 0
  {
  }

  lemma {:induction false} WordSumAtLeast(h: bytes, n: nat, k: nat)
    requires 2 * n <= |h| && k < n
    ensures WordSum(h, n) >= Be16(h, 2 * k)
  {
    if k < n - 1 {
      WordSumAtLeast(h, n - 1, k);
    }
  }

  /** The rewritten header verifies, and only TTL and checksum differ. */
  lemma RewrittenVerifies(p: bytes, ttl: u8)
    requires Rewritable(p, ttl)
    ensures |Rewritten(p, ttl)| == |p| && HeaderLength(Rewritten(p, ttl)) == HeaderLength(p)
    ensures Rewritten(p, ttl)[8] == ttl
    ensures forall i | 0 <= i < |p| && i != 8 && i != 10 && i != 11 :: Rewritten(p, ttl)[i] == p[i]
    ensures Verifies(Rewritten(p, ttl))
  {
    var z, q, n := Cleared(p, ttl), Rewritten(p, ttl), HeaderLength(p) / 2;
    WordSumChange(q, z, n, 5);
    assert Be16(z, 10) == 0 && Be16(q, 10) == Checksum(z);
    ComplementVerifies(WordSum(z, n));
  }

  /** Bytes read as one number, most significant first. */
  function Number(h: bytes): nat {
    if h == [] then 0 else 0x100 * Number(h[..|h| - 1]) + Byte(h, |h| - 1)
  }

  /** The word sum of a header is the header itself, as one number, modulo 65535. */
  lemma {:induction false} WordSumIsNumber(h: bytes, n: nat)
    requires 2 * n <= |h|
    ensures Number(h[..2 * n]) % 0xffff == WordSum(h, n) % 0xffff
    ensures Number(h[..2 * n]) == 0 <==> WordSum(h, n) == 0
  {
    if n > 0 {
      WordSumIsNumber(h, n - 1);
      var a, b, c := h[..2 * n], h[..2 * n - 1], h[..2 * n - 2];
      assert a[..|a| - 1] == b && b[..|b| - 1] == c;
      var high, low := Number(c), Be16(h, 2 * (n - 1));
      assert Number(a) == (high + low) + 0xffff * high;
      ResidueShift(high + low, high);
      SameResidue(high, WordSum(h, n - 1), low);
    }
  }

  lemma SameResidue(a: nat, b: nat, c: nat)
    requires a % 0xffff == b % 0xffff
    ensures (a + c) % 0xffff == (b + c) % 0xffff
  {
  }

  /** RFC 791 section 3.1: version 4, `words` 32-bit words of header, `total` bytes in all, and all of them there. */
  predicate Ipv4(p: bytes, words: nat, total: nat) {
    && 5 <= words <= 15 && 4 * words <= total <= |p|
    && p[0] == 0x40 + words && p[2] == total / 0x100 && p[3] == total % 0x100
  }

  /**
   q is p with this TTL, whatever its checksum was; the checksum is such that the header, as one number,
   is a positive multiple of 65535, and nothing else differs.
   */
  predicate Updated(p: bytes, q: bytes, words: nat, ttl: u8)
    requires |p| >= 20 && 4 * words <= |p|
  {
    && |q| == |p| && q[8] == ttl && Number(q[..4 * words]) > 0 && Number(q[..4 * words]) % 0xffff == 0
    && forall i | 0 <= i < |p| && i != 8 && i != 10 && i != 11 :: q[i] == p[i]
  }

  /** Exactly the complete IPv4 packets with another TTL are rewritten, and come out with the wanted one. */
  lemma CompletePacketsAreUpdated(p: bytes, ttl: u8)
    ensures Rewritable(p, ttl) <==>
      ttl != 0 && exists words: nat, total: nat :: Ipv4(p, words, total) && p[8] != ttl
    ensures forall words: nat, total: nat | Ipv4(p, words, total) ::
      total == Be16(p, 2) && (Rewritable(p, ttl) ==> Updated(p, Rewritten(p, ttl), words, ttl))
  {
    hide Fold, WordSum, Rewritten, Number;
    if Rewritable(p, ttl) {
      var first: nat := p[0];
      assert Ipv4(p, first % 16, Be16(p, 2));
    }
    forall words: nat, total: nat | Ipv4(p, words, total)
      ensures total == Be16(p, 2) && (Rewritable(p, ttl) ==> Updated(p, Rewritten(p, ttl), words, ttl))
    {
      assert HeaderLength(p) == 4 * words;
      if Rewritable(p, ttl) {
        RewrittenVerifies(p, ttl);
        VerifiedIsMultiple(Rewritten(p, ttl), words);
      }
    }
  }

  lemma VerifiedIsMultiple(q: bytes, words: nat)
    requires q != [] && HeaderLength(q) == 4 * words <= |q| && Verifies(q)
    ensures Number(q[..4 * words]) > 0 && Number(q[..4 * words]) % 0xffff == 0
  {
    WordSumIsNumber(q, 2 * words);
    FoldIsResidue(WordSum(q, 2 * words));
  }

  /** RFC 1624 section 3, equation 3: the checksum after one 16-bit field changes from m to m'. */
  function Incremental(c: nat, m: nat, m': nat): (c': nat)
    requires c < 0x10000 && m < 0x10000
  {
    0xffff - Fold((0xffff - c) + (0xffff - m) + m')
  }

  /** For a header that verified before, recomputing the checksum is the incremental update of RFC 1624. */
  lemma RecomputationIsIncremental(p: bytes, ttl: u8)
    requires Rewritable(p, ttl) && Verifies(p)
    ensures Be16(Rewritten(p, ttl), 10) == Incremental(Be16(p, 10), Be16(p, 8), Be16(Rewritten(p, ttl), 8))
  {
    var z, n := Cleared(p, ttl), HeaderLength(p) / 2;
    var c, m, m' := Be16(p, 10), Be16(p, 8), Be16(z, 8);
    RewrittenWords(p, ttl);
    WordSumAtLeast(z, n, 4);
    ClearedSum(p, ttl);
    var old', new' := WordSum(p, n), WordSum(z, n);
    FoldIsResidue(old');
    assert old' % 0xffff == 0 by { assert Fold(old') == 0xffff; }
    hide *;
    CancelResidue(old', new', c, m, m');
    SameFold(new', (0xffff - c) + (0xffff - m) + m');
  }

  lemma RewrittenWords(p: bytes, ttl: u8)
    requires Rewritable(p, ttl)
    ensures HeaderLength(Cleared(p, ttl)) == HeaderLength(p)
    ensures Be16(Rewritten(p, ttl), 10) == Checksum(Cleared(p, ttl))
    ensures Be16(Rewritten(p, ttl), 8) == Be16(Cleared(p, ttl), 8) > 0
  {
  }

  lemma ClearedSum(p: bytes, ttl: u8)
    requires Rewritable(p, ttl)
    ensures WordSum(p, HeaderLength(p) / 2) + Be16(Cleared(p, ttl), 8) ==
            WordSum(Cleared(p, ttl), HeaderLength(p) / 2) + Be16(p, 10) + Be16(p, 8)
  {
    var z, n, bare := Cleared(p, ttl), HeaderLength(p) / 2, p[10 := 0][11 := 0];
    WordSumChange(p, bare, n, 5);
    WordSumChange(bare, z, n, 4);
    assert Be16(bare, 8) == Be16(p, 8) && Be16(bare, 10) == 0;
  }

  lemma CancelResidue(old': nat, new': nat, c: nat, m: nat, m': nat)
    requires old' % 0xffff == 0 && old' + m' == new' + c + m && c < 0x10000 && m < 0x10000
    ensures new' % 0xffff == ((0xffff - c) + (0xffff - m) + m') % 0xffff
  {
    var k := old' / 0xffff;
    var x := (0xffff - c) + (0xffff - m) + m';
    assert new' == x + 0xffff * (k - 2);
    if k >= 2 {
      ResidueShift(x, k - 2);
    } else {
      ResidueShift(new', 2 - k);
    }
  }

  // ------------------------------------------------------------- the rewrite

  /** The checksum loops over the header at buf[lo..hi]; the sum fits the 32 bits it is kept in. */
  method HeaderChecksum(buf: array<u8>, lo: nat, hi: nat, ihl: nat) returns (csum: nat)
    requires lo + 20 <= hi <= buf.Length && ihl == HeaderLength(buf[lo..hi]) && ihl <= hi - lo
    ensures csum == Checksum(buf[lo..hi])
  {
    hide Fold;
    ghost var p := buf[lo..hi];
    var sum: nat := 0;
    var i := 0;
    while i < ihl
      invariant 0 <= i <= ihl && i % 2 == 0
      invariant sum == WordSum(p, i / 2)
    {
      var high: nat, low: nat := buf[lo + i], buf[lo + i + 1];
      sum := sum + (high * 0x100 + low);
      assert sum == WordSum(p, i / 2 + 1) < 0x1_0000_0000;
      i := i + 2;
    }
    csum := Complement(sum);
  }

  method Complement(sum: nat) returns (csum: nat)
    ensures csum == 0xffff - Fold(sum)
  {
    var folded := sum;
    while folded / 0x10000 != 0
      invariant Fold(folded) == Fold(sum)
      decreases folded
    {
      folded := folded % 0x10000 + folded / 0x10000;
    }
    csum := 0xffff - folded;
  }

  /** set_ipv4_ttl on the packet that lies at buf[lo..hi]. */
  method SetIpv4Ttl(buf: array<u8>, lo: nat, hi: nat, ttl: u8) returns (changed: bool)
    requires lo <= hi <= buf.Length
    modifies buf
    ensures changed <==> Rewritable(old(buf[lo..hi]), ttl)
    ensures changed ==> buf[lo..hi] == Rewritten(old(buf[lo..hi]), ttl)
    ensures !changed ==> buf[..] == old(buf[..])
    ensures buf[..lo] == old(buf[..lo]) && buf[hi..] == old(buf[hi..])
  {
    hide Checksum, Fold, WordSum;
    if hi - lo < 20 || buf[lo] / 16 != 4 || ttl == 0 {
      return false;
    }
    var first: nat, high: nat, low: nat := buf[lo], buf[lo + 2], buf[lo + 3];
    var ihl := first % 16 * 4;
    var total := high * 0x100 + low;
    if ihl < 20 || ihl > hi - lo || total < ihl || total > hi - lo {
      return false;
    }
    if buf[lo + 8] == ttl {
      return false;
    }
    buf[lo + 8] := ttl;
    buf[lo + 10] := 0;
    buf[lo + 11] := 0;
    assert buf[lo..hi] == Cleared(old(buf[lo..hi]), ttl);
    var csum := HeaderChecksum(buf, lo, hi, ihl);
    buf[lo + 10] := csum / 0x100;
    buf[lo + 11] := csum % 0x100;
    assert buf[lo..hi] == WithChecksum(Cleared(old(buf[lo..hi]), ttl), csum);
    changed := true;
  }
}
