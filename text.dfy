/** The handful of Python string operations the application relies on:
    `str.strip()`, `str.strip(chars)`, `startswith`, `in` on strings, `str.find`,
    `str.lower()`, `int(str)` and `str(int)`. */
module Text {
  import opened Wrappers

  /** The characters Python's `str.strip()` and `int()` treat as whitespace. */
  predicate IsSpace(c: char) {
    || c == ' '
    || ('\t' <= c <= '\r')
    || ('\U{1C}' <= c <= '\U{1F}')
    || c == '\U{85}' || c == '\U{A0}' || c == '\U{1680}'
    || ('\U{2000}' <= c <= '\U{200A}')
    || c == '\U{2028}' || c == '\U{2029}' || c == '\U{202F}' || c == '\U{205F}'
    || c == '\U{3000}'
  }

  /** Drops the leading characters satisfying `drop`. */
  function TrimStart(s: string, drop: char -> bool): (r: string)
    ensures |r| <= |s| && r == s[|s| - |r|..]
    ensures r == [] || !drop(r[0])
    ensures forall i :: 0 <= i < |s| - |r| ==> drop(s[i])
    decreases |s|
  {
    if s != [] && drop(s[0]) then
      var r := TrimStart(s[1..], drop);
      assert forall i :: 1 <= i < |s| - |r| ==> s[i] == s[1..][i - 1];
      assert s[1..][|s| - 1 - |r|..] == s[|s| - |r|..];
      r
    else s
  }

  /** Drops the trailing characters satisfying `drop`. */
  function TrimEnd(s: string, drop: char -> bool): (r: string)
    ensures |r| <= |s| && r == s[..|r|]
    ensures r == [] || !drop(r[|r| - 1])
    ensures forall i :: |r| <= i < |s| ==> drop(s[i])
    decreases |s|
  {
    if s != [] && drop(s[|s| - 1]) then
      var r := TrimEnd(s[..|s| - 1], drop);
      assert forall i :: |r| <= i < |s| - 1 ==> s[i] == s[..|s| - 1][i];
      r
    else s
  }

  /** Python's `s.strip()`. */
  function Strip(s: string): string {
    TrimEnd(TrimStart(s, IsSpace), IsSpace)
  }

  /** Python's `s.strip(c)` for a one-character argument: every leading and every
      trailing occurrence of `c` goes, not just one. */
  function StripChar(s: string, c: char): string {
    TrimEnd(TrimStart(s, x => x == c), x => x == c)
  }

  /** Stripping keeps a first character that is not whitespace. */
  lemma StripKeepsFirst(s: string)
    requires s != [] && !IsSpace(s[0])
    ensures Strip(s) != [] && Strip(s)[0] == s[0]
  {
    assert TrimStart(s, IsSpace) == s;
  }

  /** A string that neither starts nor ends with `c` is its own `strip(c)`. */
  lemma StripCharUnpadded(s: string, c: char)
    requires s != [] && s[0] != c && s[|s| - 1] != c
    ensures StripChar(s, c) == s
  {
  }

  /** Python truthiness of an optional string (`if value:`): present and not empty. */
  predicate TruthyText(o: Option<string>) {
    o.Some? && o.value != ""
  }

  predicate HasNonSpace(s: string) {
    exists i :: 0 <= i < |s| && !IsSpace(s[i])
  }

  /** `len(s.strip()) > 0` holds exactly when `s` has a non-whitespace character. */
  lemma StripNonEmptyIff(s: string)
    ensures |Strip(s)| > 0 <==> HasNonSpace(s)
  {
    var a := TrimStart(s, IsSpace);
    var b := TrimEnd(a, IsSpace);
    if |b| > 0 {
      assert !IsSpace(b[|b| - 1]);
      assert s[|s| - |a| + |b| - 1] == b[|b| - 1];
    }
  }

  /** A string whose first and last characters are not whitespace is its own strip. */
  lemma StripUnpadded(s: string)
    requires s != [] && !IsSpace(s[0]) && !IsSpace(s[|s| - 1])
    ensures Strip(s) == s
  {
  }

  predicate StartsWith(s: string, prefix: string) {
    |prefix| <= |s| && s[..|prefix|] == prefix
  }

  predicate OccursAt(s: string, sub: string, i: int) {
    0 <= i && i + |sub| <= |s| && s[i..i + |sub|] == sub
  }

  /** Python's `sub in s`. */
  predicate Contains(s: string, sub: string) {
    exists i | 0 <= i <= |s| - |sub| :: OccursAt(s, sub, i)
  }

  /** Python's `s.find(c)`, with `None` for -1. */
  function IndexOf(s: string, c: char): (r: Option<nat>)
    ensures r.None? <==> c !in s
    ensures r.Some? ==> r.value < |s| && s[r.value] == c && c !in s[..r.value]
  {
    if c !in s then None
    else if s[0] == c then Some(0)
    else
      var k := IndexOf(s[1..], c).value;
      assert s[..k + 1] == [s[0]] + s[1..][..k];
      Some(k + 1)
  }

  /** `c.lower()` for the characters whose lowercase form is ASCII: A-Z and the
      Kelvin sign. Every other character is left as it is. */
  function LowerChar(c: char): char {
    if 'A' <= c <= 'Z' then (c as int + 32) as char
    else if c == '\U{212A}' then 'k'
    else c
  }

  function Lower(s: string): (r: string)
    ensures |r| == |s|
    ensures forall i :: 0 <= i < |s| ==> r[i] == LowerChar(s[i])
  {
    seq(|s|, i requires 0 <= i < |s| => LowerChar(s[i]))
  }

  predicate IsDigit(c: char) {
    '0' <= c <= '9'
  }

  function DigitValue(c: char): nat
    requires IsDigit(c)
  {
    c as int - '0' as int
  }

  function DigitChar(d: nat): (c: char)
    requires d < 10
    ensures IsDigit(c) && DigitValue(c) == d
  {
    ('0' as int + d) as char
  }

  /** The digits-and-underscores part that Python's `int()` accepts:
      a digit, then any mix of digits and single underscores, ending in a digit. */
  predicate IsDecimalBody(b: string) {
    && |b| > 0
    && IsDigit(b[0])
    && IsDigit(b[|b| - 1])
    && (forall i :: 0 <= i < |b| ==> IsDigit(b[i]) || b[i] == '_')
    && !Contains(b, "__")
  }

  function WithoutUnderscores(b: string): (r: string)
    requires forall i :: 0 <= i < |b| ==> IsDigit(b[i]) || b[i] == '_'
    ensures forall i :: 0 <= i < |r| ==> IsDigit(r[i])
    ensures (forall i :: 0 <= i < |b| ==> IsDigit(b[i])) ==> r == b
  {
    if b == [] then []
    else if b[0] == '_' then WithoutUnderscores(b[1..])
    else [b[0]] + WithoutUnderscores(b[1..])
  }

  function DecimalValue(ds: string): nat
    requires forall i :: 0 <= i < |ds| ==> IsDigit(ds[i])
  {
    if ds == [] then 0 else DecimalValue(ds[..|ds| - 1]) * 10 + DigitValue(ds[|ds| - 1])
  }

  /** Python's `int(s)` on a string: `None` where Python raises `ValueError`. */
  function ParseInt(s: string): Option<int> {
    ParseStripped(Strip(s))
  }

  /** `int()` after the surrounding whitespace is gone: an optional sign, then a
      decimal body. */
  function ParseStripped(t: string): Option<int> {
    if |t| > 0 && t[0] == '-' then
      match ParseBody(t[1..])
      case Some(v) => Some(-(v as int))
      case None => None
    else if |t| > 0 && t[0] == '+' then ParseNat(t[1..])
    else ParseNat(t)
  }

  /** The decimal body as an `int`. */
  function ParseNat(b: string): Option<int> {
    match ParseBody(b)
    case Some(v) => Some(v as int)
    case None => None
  }

  /** The value of a decimal body, underscores ignored. */
  function ParseBody(b: string): Option<nat> {
    if IsDecimalBody(b) then Some(DecimalValue(WithoutUnderscores(b))) else None
  }

  /** Python's `str(n)` for a natural number. */
  function NatToString(n: nat): (r: string)
    ensures |r| > 0
    ensures forall i :: 0 <= i < |r| ==> IsDigit(r[i])
  {
    if n < 10 then [DigitChar(n)] else NatToString(n / 10) + [DigitChar(n % 10)]
  }

  /** Python's `str(n)` for an integer. */
  function IntToString(n: int): string {
    if n < 0 then "-" + NatToString(-n) else NatToString(n)
  }

  lemma {:induction false} DecimalValueOfNatToString(n: nat)
    ensures DecimalValue(NatToString(n)) == n
  {
    if n >= 10 {
      var s := NatToString(n);
      assert s[..|s| - 1] == NatToString(n / 10);
      DecimalValueOfNatToString(n / 10);
    }
  }

  /** A run of digits is a decimal body without underscores. */
  lemma DigitsAreDecimalBody(ds: string)
    requires |ds| > 0 && forall i :: 0 <= i < |ds| ==> IsDigit(ds[i])
    ensures IsDecimalBody(ds) && WithoutUnderscores(ds) == ds
  {
    forall i | 0 <= i <= |ds| - 2
      ensures !OccursAt(ds, "__", i)
    {
      assert ds[i..i + 2][0] == ds[i];
    }
  }

  /** A run of digits is a decimal body whose value is the digits' value. */
  lemma ParseBodyDigits(ds: string)
    requires |ds| > 0 && forall i :: 0 <= i < |ds| ==> IsDigit(ds[i])
    ensures ParseBody(ds) == Some(DecimalValue(ds))
  {
    DigitsAreDecimalBody(ds);
  }

  /** A string that is its own strip parses as `ParseStripped` says. */
  lemma ParseUnpadded(s: string)
    requires Strip(s) == s
    ensures ParseInt(s) == ParseStripped(s)
  {
  }

  /** A run of digits parses to its value. */
  lemma ParseDigits(ds: string)
    requires |ds| > 0 && forall i :: 0 <= i < |ds| ==> IsDigit(ds[i])
    ensures ParseInt(ds) == Some(DecimalValue(ds) as int)
  {
    assert !IsSpace(ds[0]) && !IsSpace(ds[|ds| - 1]);
    StripUnpadded(ds);
    ParseUnpadded(ds);
    ParseBodyDigits(ds);
    assert ParseStripped(ds) == ParseNat(ds);
  }

  /** A `-` in front of a body ending in a non-space character: its own strip, and
      parsed as the negated body. */
  lemma ParseMinus(b: string, v: nat)
    requires |b| > 0 && !IsSpace(b[|b| - 1]) && ParseBody(b) == Some(v)
    ensures ParseInt("-" + b) == Some(-(v as int))
  {
    var m := "-" + b;
    assert m[|m| - 1] == b[|b| - 1];
    StripUnpadded(m);
    ParseUnpadded(m);
    assert m[1..] == b;
  }

  /** `int(str(n)) == n`. */
  lemma ParseIntToString(n: int)
    ensures ParseInt(IntToString(n)) == Some(n)
  {
    var k: nat := if n < 0 then -n else n;
    var ds := NatToString(k);
    DecimalValueOfNatToString(k);
    if n < 0 {
      ParseBodyDigits(ds);
      assert IsDigit(ds[|ds| - 1]);
      ParseMinus(ds, k);
    } else {
      ParseDigits(ds);
    }
  }
}
