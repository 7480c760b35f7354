/** Text helpers the decoders and parsers share. Text is a sequence of Unicode scalar values. */
module Text {
  import opened Options

  /** A UTF-16 code unit */
  type Unit = n: nat | n < 0x1_0000

  /** The Unicode `White_Space` property. */
  predicate IsWhitespace(c: char) {
    var n := c as int;
    || 0x09 <= n <= 0x0D
    || n in {0x20, 0x85, 0xA0, 0x1680, 0x2028, 0x2029, 0x202F, 0x205F, 0x3000}
    || 0x2000 <= n <= 0x200A
  }

  function TrimStart(s: string): string {
    if s != "" && IsWhitespace(s[0]) then TrimStart(s[1..]) else s
  }

  function TrimEnd(s: string): string {
    if s != "" && IsWhitespace(s[|s| - 1]) then TrimEnd(s[..|s| - 1]) else s
  }

  function Trim(s: string): string {
    TrimEnd(TrimStart(s))
  }

  predicate IsTrimmed(s: string) {
    s != "" ==> !IsWhitespace(s[0]) && !IsWhitespace(s[|s| - 1])
  }

  lemma {:induction false} TrimEndLeavesNoSpace(s: string)
    ensures TrimEnd(s) <= s
    ensures TrimEnd(s) != "" ==> !IsWhitespace(TrimEnd(s)[|TrimEnd(s)| - 1])
  {
    if s != "" {
      TrimEndLeavesNoSpace(s[..|s| - 1]);
    }
  }

  lemma {:induction false} TrimStartLeavesNoSpace(s: string)
    ensures TrimStart(s) != "" ==> !IsWhitespace(TrimStart(s)[0])
  {
    if s != "" {
      TrimStartLeavesNoSpace(s[1..]);
    }
  }

  lemma TrimIsTrimmed(s: string)
    ensures IsTrimmed(Trim(s)) && Trim(Trim(s)) == Trim(s)
  {
    TrimStartLeavesNoSpace(s);
    TrimEndLeavesNoSpace(TrimStart(s));
  }

  predicate StartsWith(s: string, prefix: string) {
    prefix <= s
  }

  predicate IsDigit(c: char) {
    '0' <= c <= '9'
  }

  predicate IsAlpha(c: char) {
    'a' <= c <= 'z' || 'A' <= c <= 'Z'
  }

  function DigitValue(c: char): nat
    requires IsDigit(c)
  {
    c as int - '0' as int
  }

  function DigitChar(d: nat): char
    requires d < 10
  {
    ('0' as int + d) as char
  }

  // ----- decimal numbers ------------------------------------------------------------------------

  predicate AllDigits(s: string) {
    forall i | 0 <= i < |s| :: IsDigit(s[i])
  }

  function DigitsValue(s: string): nat
    requires AllDigits(s)
  {
    if s == "" then 0 else 10 * DigitsValue(s[..|s| - 1]) + DigitValue(s[|s| - 1])
  }

  /** The decimal digits of a number, without leading zeros. */
  function Decimal(n: nat): (s: string)
    ensures s != "" && AllDigits(s)
  {
    if n < 10 then [DigitChar(n)] else Decimal(n / 10) + [DigitChar(n % 10)]
  }

  function SignedDecimal(n: int): string {
    if n < 0 then "-" + Decimal(-n) else Decimal(n)
  }

  lemma {:induction false} DecimalValue(n: nat)
    ensures DigitsValue(Decimal(n)) == n
  {
    if n < 10 {
      assert Decimal(n)[..0] == "";
    } else {
      DecimalValue(n / 10);
      assert Decimal(n)[..|Decimal(n)| - 1] == Decimal(n / 10);
    }
  }

  /** `str::parse::<i32>`, for text without a plus sign. */
  function ParseI32(s: string): Option<int> {
    var digits := if s != "" && s[0] == '-' then s[1..] else s;
    if digits == "" || !AllDigits(digits) then
      None
    else
      var n := (if s[0] == '-' then -1 else 1) * DigitsValue(digits);
      if -0x8000_0000 <= n < 0x8000_0000 then Some(n) else None
  }

  /** `str::parse::<usize>` on a 64-bit platform, for text without a plus sign. */
  function ParseUsize(s: string): Option<nat> {
    if s == "" || !AllDigits(s) || DigitsValue(s) >= 0x1_0000_0000_0000_0000 then None else Some(DigitsValue(s))
  }

  lemma DigitsParse(digits: string)
    requires digits != "" && AllDigits(digits) && DigitsValue(digits) < 0x8000_0000
    ensures ParseI32(digits) == Some(DigitsValue(digits))
  {
    assert IsDigit(digits[0]);
  }

  lemma NegativeDigitsParse(digits: string)
    requires digits != "" && AllDigits(digits) && DigitsValue(digits) <= 0x8000_0000
    ensures ParseI32("-" + digits) == Some(-(DigitsValue(digits) as int))
  {
    assert ("-" + digits)[1..] == digits;
  }

  lemma SignedDecimalParses(n: int)
    requires -0x8000_0000 <= n < 0x8000_0000
    ensures ParseI32(SignedDecimal(n)) == Some(n)
  {
    if n < 0 {
      DecimalValue(-n);
      NegativeDigitsParse(Decimal(-n));
    } else {
      DecimalValue(n);
      DigitsParse(Decimal(n));
    }
  }

  // ----- the order of texts ---------------------------------------------------------------------

  /** Comparing character by character, as for the UTF-8 bytes of the texts. */
  predicate TextLess(a: string, b: string) {
    b != "" && (a == "" || a[0] < b[0] || (a[0] == b[0] && TextLess(a[1..], b[1..])))
  }

  lemma {:induction false} TextLessIsTransitive(a: string, b: string, c: string)
    requires TextLess(a, b) && TextLess(b, c)
    ensures TextLess(a, c)
  {
    if a != "" && a[0] == b[0] == c[0] {
      TextLessIsTransitive(a[1..], b[1..], c[1..]);
    }
  }

  lemma {:induction false} TextLessIsIrreflexive(a: string)
    ensures !TextLess(a, a)
  {
    if a != "" {
      TextLessIsIrreflexive(a[1..]);
    }
  }
}
