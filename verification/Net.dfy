/** Which interfaces are downstream and which upstream, and the text by which a change of them is noticed. */
module Net {
  import Text

  datatype Links = Links(down: seq<string>, up: seq<string>) {
    predicate Active() { down != [] && up != [] }
  }

  predicate NameChar(c: char) {
    'a' <= c <= 'z' || 'A' <= c <= 'Z' || '0' <= c <= '9' || c in "_.:-"
  }

  predicate ValidIface(s: string) { s != "" && |s| <= 15 && forall c | c in s :: NameChar(c) }

  predicate Distinct(s: seq<string>) { forall i, j | 0 <= i < j < |s| :: s[i] != s[j] }

  predicate Classified(l: Links) {
    && Distinct(l.down) && Distinct(l.up)
    && (forall s | s in l.down :: ValidIface(s) && s !in l.up)
    && (forall s | s in l.up :: ValidIface(s))
  }

  const UP_PREFIXES: seq<string> :=
    ["rmnet", "v4-rmnet", "clat", "ccmni", "pdp", "wwan", "wlan", "eth", "tun", "tap", "wg", "tailscale", "zt"]
  const DOWN_PREFIXES: seq<string> :=
    ["ap", "wlan", "swlan", "softap", "wifi", "rndis", "usb", "ncm", "bnep", "bt-pan", "bt_pan", "br"]

  predicate HasPrefix(s: string, prefixes: seq<string>) { exists p | p in prefixes :: p <= s }

  // ------------------------------------------------------------ string order

  predicate Less(a: string, b: string) {
    b != "" && (a == "" || a[0] < b[0] || (a[0] == b[0] && Less(a[1..], b[1..])))
  }

  lemma {:induction false} LessTotal(a: string, b: string)
    ensures Less(a, b) || Less(b, a) || a == b
    ensures !(Less(a, b) && Less(b, a)) && (a == b ==> !Less(a, b))
  {
    if a != "" && b != "" {
      LessTotal(a[1..], b[1..]);
      if a[0] == b[0] && a[1..] == b[1..] {
        assert a == [a[0]] + a[1..] == b;
      }
    }
  }

  lemma {:induction false} LessTransitive(a: string, b: string, c: string)
    requires Less(a, b) && Less(b, c)
    ensures Less(a, c)
  {
    if a != "" && a[0] == b[0] == c[0] {
      LessTransitive(a[1..], b[1..], c[1..]);
    }
  }

  lemma NotAfterTransitive(a: string, b: string, c: string)
    requires !Less(b, a) && !Less(c, b)
    ensures !Less(c, a)
  {
    LessTotal(a, b);
    LessTotal(b, c);
    if Less(a, b) && Less(b, c) {
      LessTransitive(a, b, c);
    }
    LessTotal(a, c);
  }

  predicate Sorted(s: seq<string>) { forall i, j | 0 <= i < j < |s| :: !Less(s[j], s[i]) }

  predicate Ascending(s: seq<string>) { forall i, j | 0 <= i < j < |s| :: Less(s[i], s[j]) }

  predicate SameMembers(a: seq<string>, b: seq<string>) { (forall x | x in a :: x in b) && forall x | x in b :: x in a }

  /** An ascending list is determined by what it contains. */
  lemma {:induction false} AscendingUnique(a: seq<string>, b: seq<string>)
    requires Ascending(a) && Ascending(b) && SameMembers(a, b)
    ensures a == b
  {
    assert a != [] ==> a[0] in a;
    assert b != [] ==> b[0] in b;
    if a != [] {
      SameHead(a, b);
      forall x | x in a[1..]
        ensures x in b[1..]
      {
        TailKeeps(a, b, x);
      }
      forall x | x in b[1..]
        ensures x in a[1..]
      {
        TailKeeps(b, a, x);
      }
      AscendingUnique(a[1..], b[1..]);
      assert a == [a[0]] + a[1..] && b == [b[0]] + b[1..];
    }
  }

  lemma SameHead(a: seq<string>, b: seq<string>)
    requires Ascending(a) && Ascending(b) && SameMembers(a, b) && a != [] && b != []
    ensures a[0] == b[0]
  {
    assert a[0] in a && b[0] in b;
    var i :| 0 <= i < |b| && b[i] == a[0];
    var j :| 0 <= j < |a| && a[j] == b[0];
    LessTotal(a[0], b[0]);
  }

  lemma TailKeeps(a: seq<string>, b: seq<string>, x: string)
    requires Ascending(a) && SameMembers(a, b) && a != [] && b != [] && a[0] == b[0] && x in a[1..]
    ensures x in b[1..]
  {
    var i :| 0 <= i < |a[1..]| && a[1..][i] == x;
    assert a[i + 1] == x && x in a;
    LessTotal(a[0], x);
    assert b == [b[0]] + b[1..];
  }

  // --------------------------------------------------------------- classify

  /** Keeps the members of s that p accepts, in order. */
  method Retain(s: seq<string>, p: string -> bool) returns (r: seq<string>)
    ensures forall x :: x in r <==> x in s && p(x)
  {
    r := [];
    for i := 0 to |s|
      invariant forall x :: x in r <==> x in s[..i] && p(x)
    {
      assert s[..i + 1] == s[..i] + [s[i]];
      if p(s[i]) {
        r := r + [s[i]];
      }
    }
    assert s[..|s|] == s;
  }

  /** Vec::sort. */
  method Sort(s: seq<string>) returns (r: seq<string>)
    ensures Sorted(r) && multiset(r) == multiset(s)
  {
    r := [];
    for i := 0 to |s|
      invariant Sorted(r) && multiset(r) == multiset(s[..i])
    {
      assert s[..i + 1] == s[..i] + [s[i]];
      r := InsertSorted(r, s[i]);
    }
    assert s[..|s|] == s;
  }

  method InsertSorted(s: seq<string>, x: string) returns (r: seq<string>)
    requires Sorted(s)
    ensures Sorted(r) && multiset(r) == multiset(s) + multiset{x}
  {
    var i := 0;
    while i < |s| && !Less(x, s[i])
      invariant 0 <= i <= |s| && forall k | 0 <= k < i :: !Less(x, s[k])
    {
      i := i + 1;
    }
    r := s[..i] + [x] + s[i..];
    assert s == s[..i] + s[i..];
    forall k | i <= k < |s|
      ensures !Less(s[k], x)
    {
      LessTotal(x, s[i]);
      LessTotal(s[i], s[k]);
      NotAfterTransitive(x, s[i], s[k]);
    }
  }

  /** Vec::dedup on a sorted list. */
  method Dedup(s: seq<string>) returns (r: seq<string>)
    requires Sorted(s)
    ensures Ascending(r) && SameMembers(r, s)
  {
    r := [];
    for i := 0 to |s|
      invariant Ascending(r) && SameMembers(r, s[..i])
      invariant if i == 0 then r == [] else r != [] && r[|r| - 1] == s[i - 1]
    {
      assert s[..i + 1] == s[..i] + [s[i]];
      if r == [] || r[|r| - 1] != s[i] {
        forall k | 0 <= k < |r|
          ensures Less(r[k], s[i])
        {
          LessTotal(r[|r| - 1], s[i]);
          if k < |r| - 1 {
            LessTransitive(r[k], r[|r| - 1], s[i]);
          }
        }
        r := r + [s[i]];
      }
    }
    assert s[..|s|] == s;
  }

  /** What the interface lists are made from: the configured names and what the system shows. */
  datatype Sight = Sight(upstreams: seq<string>, downstreams: seq<string>,
                         default: seq<string>, addrs: seq<string>, live: set<string>)

  predicate IsUp(v: Sight, s: string) {
    && ValidIface(s) && s in v.live
    && if v.upstreams == [] then s in v.default && HasPrefix(s, UP_PREFIXES) else s in v.upstreams
  }

  predicate IsDown(v: Sight, s: string) {
    && ValidIface(s) && s in v.live && !IsUp(v, s)
    && if v.downstreams == [] then s in v.addrs && HasPrefix(s, DOWN_PREFIXES) else s in v.downstreams
  }

  /** Exactly the upstream and the downstream names, each list ascending. */
  ghost predicate Sorts(v: Sight, l: Links) {
    && Ascending(l.up) && Ascending(l.down)
    && (forall s :: s in l.up <==> IsUp(v, s))
    && (forall s :: s in l.down <==> IsDown(v, s))
  }

  /** One to fifteen letters, digits, dashes, dots, colons or underscores, by their ASCII codes. */
  predicate InterfaceName(s: string) {
    && 1 <= |s| <= 15
    && forall c | c in s ::
         var n := c as int; 97 <= n <= 122 || 65 <= n <= 90 || 48 <= n <= 58 || n == 45 || n == 46 || n == 95
  }

  predicate Starts(s: string, prefix: string) { prefix <= s }

  predicate UplinkName(s: string) {
    || Starts(s, "rmnet") || Starts(s, "v4-rmnet") || Starts(s, "clat") || Starts(s, "ccmni") || Starts(s, "pdp")
    || Starts(s, "wwan") || Starts(s, "wlan") || Starts(s, "eth") || Starts(s, "tun") || Starts(s, "tap")
    || Starts(s, "wg") || Starts(s, "tailscale") || Starts(s, "zt")
  }

  predicate TetherName(s: string) {
    || Starts(s, "ap") || Starts(s, "wlan") || Starts(s, "swlan") || Starts(s, "softap") || Starts(s, "wifi")
    || Starts(s, "rndis") || Starts(s, "usb") || Starts(s, "ncm") || Starts(s, "bnep") || Starts(s, "bt-pan")
    || Starts(s, "bt_pan") || Starts(s, "br")
  }

  /** The live interfaces that are configured as upstreams, or else hold a default route and look like an uplink. */
  predicate Upstream(v: Sight, s: string) {
    && s in v.live && InterfaceName(s)
    && (if v.upstreams != [] then s in v.upstreams else s in v.default && UplinkName(s))
  }

  /** Of the others, those configured as downstreams, or else with an address and a tethering name. */
  predicate Downstream(v: Sight, s: string) {
    && s in v.live && InterfaceName(s) && !Upstream(v, s)
    && (if v.downstreams != [] then s in v.downstreams else s in v.addrs && TetherName(s))
  }

  lemma NamesAreSpelled(s: string)
    ensures InterfaceName(s) <==> ValidIface(s)
  {
  }

  lemma PrefixByIndex(s: string, prefixes: seq<string>)
    ensures HasPrefix(s, prefixes) <==> exists i :: 0 <= i < |prefixes| && Starts(s, prefixes[i])
  {
    if HasPrefix(s, prefixes) {
      var p :| p in prefixes && p <= s;
      var i :| 0 <= i < |prefixes| && prefixes[i] == p;
      assert Starts(s, prefixes[i]);
    }
    if i :| 0 <= i < |prefixes| && Starts(s, prefixes[i]) {
      assert prefixes[i] in prefixes && prefixes[i] <= s;
    }
  }

  lemma UplinksAreSpelled(s: string)
    ensures UplinkName(s) <==> HasPrefix(s, UP_PREFIXES)
  {
    PrefixByIndex(s, UP_PREFIXES);
    hide Starts, HasPrefix;
    var p := UP_PREFIXES;
    assert p[0] == "rmnet" && p[1] == "v4-rmnet" && p[2] == "clat" && p[3] == "ccmni" && p[4] == "pdp";
    assert p[5] == "wwan" && p[6] == "wlan" && p[7] == "eth" && p[8] == "tun" && p[9] == "tap" && p[10] == "wg";
    assert p[11] == "tailscale" && p[12] == "zt" && |p| == 13;
  }

  lemma TethersAreSpelled(s: string)
    ensures TetherName(s) <==> HasPrefix(s, DOWN_PREFIXES)
  {
    PrefixByIndex(s, DOWN_PREFIXES);
    hide Starts, HasPrefix;
    var p := DOWN_PREFIXES;
    assert p[0] == "ap" && p[1] == "wlan" && p[2] == "swlan" && p[3] == "softap" && p[4] == "wifi" && p[5] == "rndis";
    assert p[6] == "usb" && p[7] == "ncm" && p[8] == "bnep" && p[9] == "bt-pan" && p[10] == "bt_pan" && p[11] == "br";
    assert |p| == 12;
  }

  lemma SortsAreSpelled(v: Sight, l: Links)
    requires Sorts(v, l)
    ensures forall s :: s in l.up <==> Upstream(v, s)
    ensures forall s :: s in l.down <==> Downstream(v, s)
  {
    hide ValidIface, HasPrefix, InterfaceName, UplinkName, TetherName;
    forall s
      ensures (s in l.up <==> Upstream(v, s)) && (s in l.down <==> Downstream(v, s))
    {
      NamesAreSpelled(s);
      UplinksAreSpelled(s);
      TethersAreSpelled(s);
    }
  }

  method Classify(v: Sight) returns (l: Links)
    ensures Sorts(v, l)
    ensures forall s :: s in l.up <==> Upstream(v, s)
    ensures forall s :: s in l.down <==> Downstream(v, s)
  {
    hide ValidIface, HasPrefix, Less;
    var up := v.upstreams;
    if v.upstreams == [] {
      up := Retain(v.default, s => HasPrefix(s, UP_PREFIXES));
    }
    up := Retain(up, s => ValidIface(s) && s in v.live);
    up := SortDedup(up);
    var down := v.downstreams;
    if v.downstreams == [] {
      down := Retain(v.addrs, s => HasPrefix(s, DOWN_PREFIXES));
    }
    down := Retain(down, s => ValidIface(s) && s in v.live && s !in up);
    down := SortDedup(down);
    l := Links(down, up);
    SortsAreSpelled(v, l);
  }

  method SortDedup(s: seq<string>) returns (r: seq<string>)
    ensures Ascending(r) && SameMembers(r, s)
  {
    var sorted := Sort(s);
    assert forall x :: x in sorted <==> x in multiset(sorted);
    assert forall x :: x in s <==> x in multiset(s);
    r := Dedup(sorted);
  }

  lemma SortsIsClassified(v: Sight, l: Links)
    requires Sorts(v, l)
    ensures Classified(l)
  {
    forall i, j | 0 <= i < j < |l.up|
      ensures l.up[i] != l.up[j]
    {
      LessTotal(l.up[i], l.up[j]);
    }
    forall i, j | 0 <= i < j < |l.down|
      ensures l.down[i] != l.down[j]
    {
      LessTotal(l.down[i], l.down[j]);
    }
  }

  /** Order and repetition of the inputs do not matter. */
  lemma OnlySetsMatter(v: Sight, w: Sight, l: Links, m: Links)
    requires Sorts(v, l) && Sorts(w, m) && v.live == w.live
    requires SameMembers(v.upstreams, w.upstreams) && SameMembers(v.downstreams, w.downstreams)
    requires SameMembers(v.default, w.default) && SameMembers(v.addrs, w.addrs)
    ensures l == m
  {
    hide ValidIface, HasPrefix, Less;
    assert v.upstreams == [] <==> w.upstreams == [] by {
      assert v.upstreams != [] ==> v.upstreams[0] in v.upstreams;
      assert w.upstreams != [] ==> w.upstreams[0] in w.upstreams;
    }
    assert v.downstreams == [] <==> w.downstreams == [] by {
      assert v.downstreams != [] ==> v.downstreams[0] in v.downstreams;
      assert w.downstreams != [] ==> w.downstreams[0] in w.downstreams;
    }
    assert forall s :: IsUp(v, s) <==> IsUp(w, s);
    assert forall s :: IsDown(v, s) <==> IsDown(w, s);
    AscendingUnique(l.up, m.up);
    AscendingUnique(l.down, m.down);
  }

  // -------------------------------------------------------------- signature

  function Spaced(s: seq<string>): string {
    if s == [] then "" else if |s| == 1 then s[0] else s[0] + " " + Spaced(s[1..])
  }

  function Signature(l: Links): string { Spaced(l.down) + "|" + Spaced(l.up) }

  predicate Separable(s: seq<string>) { forall i | 0 <= i < |s| :: s[i] != "" && ' ' !in s[i] && '|' !in s[i] }

  lemma {:induction false} SpacedHasNoBar(s: seq<string>)
    requires Separable(s)
    ensures '|' !in Spaced(s)
  {
    if |s| > 1 {
      SpacedHasNoBar(s[1..]);
    }
  }

  /** Two texts split at the first occurrence of the same separator are equal piece by piece. */
  lemma SplitUnique(a: string, x: string, b: string, y: string, c: char)
    requires c !in a && c !in b && a + [c] + x == b + [c] + y
    ensures a == b && x == y
  {
    Text.IndexOfFirst(a, c, x);
    Text.IndexOfFirst(b, c, y);
    var s := a + [c] + x;
    assert s[..|a|] == a && s[..|b|] == b;
    assert s[|a| + 1..] == x && s[|b| + 1..] == y;
  }

  lemma {:induction false} SpacedHasSpace(s: seq<string>)
    requires Separable(s)
    ensures ' ' in Spaced(s) <==> |s| > 1
    ensures Spaced(s) == "" <==> s == []
  {
    if |s| > 1 {
      assert Spaced(s)[|s[0]|] == ' ';
    }
  }

  lemma {:induction false} SpacedInjective(a: seq<string>, b: seq<string>)
    requires Separable(a) && Separable(b) && Spaced(a) == Spaced(b)
    ensures a == b
  {
    SpacedHasSpace(a);
    SpacedHasSpace(b);
    if |a| > 1 {
      SplitUnique(a[0], Spaced(a[1..]), b[0], Spaced(b[1..]), ' ');
      SpacedInjective(a[1..], b[1..]);
      assert a == [a[0]] + a[1..] && b == [b[0]] + b[1..];
    }
  }

  lemma ClassifiedIsSeparable(l: Links)
    requires Classified(l)
    ensures Separable(l.down) && Separable(l.up)
  {
    forall i | 0 <= i < |l.down|
      ensures l.down[i] != "" && ' ' !in l.down[i] && '|' !in l.down[i]
    {
      assert l.down[i] in l.down;
    }
    forall i | 0 <= i < |l.up|
      ensures l.up[i] != "" && ' ' !in l.up[i] && '|' !in l.up[i]
    {
      assert l.up[i] in l.up;
    }
  }

  /** The signature changes exactly when the links do. */
  lemma SignatureInjective(l: Links, m: Links)
    requires Classified(l) && Classified(m)
    ensures Signature(l) == Signature(m) <==> l == m
  {
    ClassifiedIsSeparable(l);
    ClassifiedIsSeparable(m);
    if Signature(l) == Signature(m) {
      SpacedHasNoBar(l.down);
      SpacedHasNoBar(m.down);
      SplitUnique(Spaced(l.down), Spaced(l.up), Spaced(m.down), Spaced(m.up), '|');
      SpacedInjective(l.down, m.down);
      SpacedInjective(l.up, m.up);
    }
  }
}
