/** Text the way the program reads and writes it: lines, trimming, KEY=VALUE, decimal numbers. */
module Text {
  import opened Wrappers

  function IndexOf(s: string, c: char): (i: nat)
    ensures i <= |s| && c !in s[..i]
    ensures i < |s| ==> s[i] == c
  {
    if s == "" || s[0] == c then 0
    else
      var k := IndexOf(s[1..], c);
      assert s[..k + 1] == [s[0]] + s[1..][..k];
      k + 1
  }

  lemma {:induction false} IndexOfFirst(a: string, c: char, rest: string)
    requires c !in a
    ensures IndexOf(a + [c] + rest, c) == |a|
  {
    if a != "" {
      IndexOfFirst(a[1..], c, rest);
      assert (a + [c] + rest)[1..] == a[1..] + [c] + rest;
    }
  }

  // --------------------------------------------------------------------- lines

  function StripCr(s: string): string {
    if s != "" && s[|s| - 1] == '\r' then s[..|s| - 1] else s
  }

  function Lines(s: string): seq<string> {
    if s == "" then []
    else
      var i := IndexOf(s, '\n');
      if i == |s| then [s] else [StripCr(s[..i])] + Lines(s[i + 1..])
  }

  /** A line as Lines returns it: without a line feed, and read back whole. */
  predicate CleanLine(s: string) { '\n' !in s && StripCr(s) == s }

  lemma FirstLine(line: string, rest: string)
    requires '\n' !in line
    ensures Lines(line + "\n" + rest) == [StripCr(line)] + Lines(rest)
  {
    var s := line + "\n" + rest;
    IndexOfFirst(line, '\n', rest);
    assert s[..|line|] == line && s[|line| + 1..] == rest;
  }

  // -------------------------------------------------------------------- trimming

  /** Unicode White_Space. */
  predicate IsSpace(c: char) {
    || '\t' <= c <= '\r' || c == ' ' || c == '\U{0085}' || c == '\U{00A0}' || c == '\U{1680}'
    || '\U{2000}' <= c <= '\U{200A}' || c == '\U{2028}' || c == '\U{2029}' || c == '\U{202F}'
    || c == '\U{205F}' || c == '\U{3000}'
  }

  function TrimStart(s: string): string {
    if s != "" && IsSpace(s[0]) then TrimStart(s[1..]) else s
  }

  function TrimEnd(s: string): string {
    if s != "" && IsSpace(s[|s| - 1]) then TrimEnd(s[..|s| - 1]) else s
  }

  function Trim(s: string): string { TrimEnd(TrimStart(s)) }

  /** The parts before and after the first '='. */
  function SplitOnce(s: string): (r: Option<(string, string)>)
    ensures r.Some? <==> '=' in s
    ensures r.Some? ==> s == r.value.0 + "=" + r.value.1 && '=' !in r.value.0
  {
    var i := IndexOf(s, '=');
    if i == |s| then
      assert s[..i] == s;
      None
    else Some((s[..i], s[i + 1..]))
  }

  // --------------------------------------------------------------------- numbers

  predicate IsDigit(c: char) { '0' <= c <= '9' }

  function Digit(c: char): (d: nat)
    requires IsDigit(c)
    ensures d < 10
  {
    c as int - '0' as int
  }

  predicate AllDigits(s: string) { forall i | 0 <= i < |s| :: IsDigit(s[i]) }

  function Value(s: string): nat
    requires AllDigits(s)
  {
    if s == "" then 0 else 10 * Value(s[..|s| - 1]) + Digit(s[|s| - 1])
  }

  /** str::parse for an unsigned integer type with the given maximum: an optional '+', then digits. */
  function ParseUnsigned(s: string, max: nat): (r: Option<nat>)
    ensures r.Some? ==> r.value <= max
  {
    var body := if s != "" && s[0] == '+' then s[1..] else s;
    if body == "" || !AllDigits(body) || Value(body) > max then None else Some(Value(body))
  }

  function DigitChar(d: nat): (c: char)
    requires d < 10
    ensures IsDigit(c) && Digit(c) == d
  {
    '0' + d as char
  }

  function Decimal(n: nat): (s: string)
    ensures s != "" && AllDigits(s)
  {
    if n < 10 then [DigitChar(n)] else Decimal(n / 10) + [DigitChar(n % 10)]
  }

  /** A digit more is ten times the value and that digit. */
  lemma DecimalPlaces(s: string, c: char)
    requires AllDigits(s) && '0' <= c <= '9'
    ensures AllDigits(s + [c]) && Value(s + [c]) == 10 * Value(s) + (c as int - 48)
  {
    assert (s + [c])[..|s|] == s;
  }

  lemma {:induction false} DecimalValue(n: nat)
    ensures Value(Decimal(n)) == n
  {
    var s := Decimal(n);
    if n >= 10 {
      DecimalValue(n / 10);
      assert s[..|s| - 1] == Decimal(n / 10);
    } else {
      assert s[..0] == "";
    }
  }

  lemma ParseDecimal(n: nat, max: nat)
    ensures ParseUnsigned(Decimal(n), max) == if n <= max then Some(n) else None
  {
    DecimalValue(n);
    assert IsDigit(Decimal(n)[0]);
  }
}
