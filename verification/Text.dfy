/** Character classes, text checks, numbers in text and lengths in bytes, shared by the other modules. */
module Text {
  const U64_MAX: nat := 0xFFFF_FFFF_FFFF_FFFF

  type u64 = n: nat | n <= U64_MAX

  datatype Option<+T> = None | Some(value: T)

  type byte = n: nat | n < 256

  type Bytes = seq<byte>

  /** char::is_control: the Unicode category Cc. */
  predicate IsControl(c: char) {
    c as int < 0x20 || 0x7f <= c as int <= 0x9f
  }

  /** char::is_whitespace: the Unicode property White_Space. */
  predicate IsWhitespace(c: char) {
    var n := c as int;
    || 0x09 <= n <= 0x0d || n == 0x20 || n == 0x85 || n == 0xa0 || n == 0x1680
    || 0x2000 <= n <= 0x200a || n == 0x2028 || n == 0x2029 || n == 0x202f || n == 0x205f || n == 0x3000
  }

  predicate IsDigit(c: char) { '0' <= c <= '9' }

  predicate IsHexDigit(c: char) { '0' <= c <= '9' || 'a' <= c <= 'f' || 'A' <= c <= 'F' }

  predicate IsHex(s: string) { forall i :: 0 <= i < |s| ==> IsHexDigit(s[i]) }

  predicate HasControl(s: string) { exists i :: 0 <= i < |s| && IsControl(s[i]) }

  /** s.trim().is_empty() */
  predicate Blank(s: string) { forall i :: 0 <= i < |s| ==> IsWhitespace(s[i]) }

  /** validate_text_field accepts. */
  predicate TextField(s: string) { !Blank(s) && !HasControl(s) }

  // ----- decimal numbers -----

  function DigitChar(d: nat): (c: char)
    requires d < 10
    ensures IsDigit(c) && DigitOf(c) == d
  {
    ('0' as int + d) as char
  }

  function DigitOf(c: char): (d: nat)
    requires IsDigit(c)
    ensures d < 10
  {
    c as int - '0' as int
  }

  function Decimal(n: nat): (s: string)
    ensures s != []
  {
    if n < 10 then [DigitChar(n)] else Decimal(n / 10) + [DigitChar(n % 10)]
  }

  predicate AllDigits(s: string) { forall i :: 0 <= i < |s| ==> IsDigit(s[i]) }

  function DigitsValue(s: string): nat
    requires AllDigits(s)
  {
    if s == [] then 0 else 10 * DigitsValue(s[..|s| - 1]) + DigitOf(s[|s| - 1])
  }

  /** str::parse::<u64> succeeds. */
  predicate ParsesAsU64(s: string) {
    var d := if |s| > 1 && s[0] == '+' then s[1..] else s;
    d != [] && AllDigits(d) && DigitsValue(d) <= U64_MAX
  }

  lemma SnocValue(s: string, c: char)
    requires AllDigits(s) && IsDigit(c)
    ensures AllDigits(s + [c]) && DigitsValue(s + [c]) == 10 * DigitsValue(s) + DigitOf(c)
  {
    assert (s + [c])[..|s|] == s;
  }

  lemma {:induction false} DecimalParses(n: nat)
    ensures AllDigits(Decimal(n)) && DigitsValue(Decimal(n)) == n
  {
    hide DigitChar, DigitOf, IsDigit;
    if n < 10 {
      SnocValue([], DigitChar(n));
      assert [] + [DigitChar(n)] == Decimal(n);
    } else {
      DecimalParses(n / 10);
      SnocValue(Decimal(n / 10), DigitChar(n % 10));
    }
  }

  lemma DecimalIsU64(n: u64)
    ensures ParsesAsU64(Decimal(n))
  {
    DecimalParses(n);
    assert IsDigit(Decimal(n)[0]);
  }

  function Pow10(k: nat): nat { if k == 0 then 1 else 10 * Pow10(k - 1) }

  lemma {:induction false} DecimalLength(n: nat, k: nat)
    requires 0 < k && n < Pow10(k)
    ensures |Decimal(n)| <= k
  {
    if n >= 10 {
      assert Pow10(1) == 10 * Pow10(0);
      assert n / 10 < Pow10(k - 1);
      DecimalLength(n / 10, k - 1);
    }
  }

  lemma U64DecimalLength(n: u64)
    ensures |Decimal(n)| <= 20
  {
    assert Pow10(5) == 100_000;
    assert Pow10(10) == 100_000 * Pow10(5);
    assert Pow10(15) == 100_000 * Pow10(10);
    assert Pow10(20) == 100_000 * Pow10(15);
    DecimalLength(n, 20);
  }

  // ----- lengths in bytes -----

  function Utf8Len(c: char): (n: nat)
    ensures 1 <= n <= 4
  {
    if c as int < 0x80 then 1 else if c as int < 0x800 then 2 else if c as int < 0x1_0000 then 3 else 4
  }

  /** The bytes serde_json writes for one character of a string. */
  function EscapedLen(c: char): (n: nat)
    ensures !IsControl(c) ==> n <= 4
  {
    if c == '"' || c == '\\' then 2
    else if c as int in {0x08, 0x09, 0x0a, 0x0c, 0x0d} then 2
    else if c as int < 0x20 then 6
    else Utf8Len(c)
  }

  function EscapedSum(s: string): nat {
    if s == [] then 0 else EscapedSum(s[..|s| - 1]) + EscapedLen(s[|s| - 1])
  }

  /** The bytes of s as a JSON string, quotes included. */
  function JsonStringLen(s: string): nat { EscapedSum(s) + 2 }

  lemma {:induction false} EscapedBound(s: string)
    requires !HasControl(s)
    ensures EscapedSum(s) <= 4 * |s|
  {
    if s != [] {
      assert !IsControl(s[|s| - 1]);
      EscapedBound(s[..|s| - 1]);
    }
  }

  predicate PlainAscii(s: string) {
    forall i :: 0 <= i < |s| ==> 0x20 <= s[i] as int < 0x7f && s[i] != '"' && s[i] != '\\'
  }

  lemma {:induction false} PlainLength(s: string)
    requires PlainAscii(s)
    ensures EscapedSum(s) == |s|
  {
    if s != [] { PlainLength(s[..|s| - 1]); }
  }

  lemma HexLength(s: string)
    requires IsHex(s)
    ensures JsonStringLen(s) == |s| + 2
  {
    assert PlainAscii(s);
    PlainLength(s);
  }
}
