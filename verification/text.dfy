/** Character-level helpers the response composer relies on: Rust's
    `char::is_whitespace` and `str::trim`, and the decimal text that
    `format!("{}", n)` produces for an unsigned integer, with its reading back. */
module Text {

  /** `char::is_whitespace`: the characters with the Unicode White_Space property. */
  predicate IsWhitespace(c: char) {
    var x := c as int;
    (0x09 <= x <= 0x0D) || x == 0x20 || x == 0x85 || x == 0xA0 || x == 0x1680
    || (0x2000 <= x <= 0x200A) || x == 0x2028 || x == 0x2029 || x == 0x202F
    || x == 0x205F || x == 0x3000
  }

  predicate AllWhitespace(s: string) {
    forall i :: 0 <= i < |s| ==> IsWhitespace(s[i])
  }

  /** `str::trim_start`: drops the leading whitespace, keeping a suffix of `s`. */
  function TrimStart(s: string): (r: string)
    ensures |r| <= |s| && r == s[|s| - |r|..]
  {
    if s != [] && IsWhitespace(s[0]) then TrimStart(s[1..]) else s
  }

  /** `str::trim_end`: drops the trailing whitespace, keeping a prefix of `s`. */
  function TrimEnd(s: string): (r: string)
    ensures |r| <= |s| && r == s[..|r|]
  {
    if s != [] && IsWhitespace(s[|s| - 1]) then TrimEnd(s[..|s| - 1]) else s
  }

  /** `str::trim` */
  function Trim(s: string): string {
    TrimEnd(TrimStart(s))
  }

  lemma {:induction false} TrimStartEmptyIff(s: string)
    ensures (TrimStart(s) == []) == AllWhitespace(s)
    ensures TrimStart(s) != [] ==> !IsWhitespace(TrimStart(s)[0])
  {
    if s != [] && IsWhitespace(s[0]) {
      TrimStartEmptyIff(s[1..]);
      assert AllWhitespace(s) <==> AllWhitespace(s[1..]) by {
        if AllWhitespace(s[1..]) {
          forall i | 0 <= i < |s| ensures IsWhitespace(s[i]) {
            if i > 0 { assert s[i] == s[1..][i - 1]; }
          }
        }
      }
    }
  }

  lemma {:induction false} TrimEndKeepsNonBlankHead(t: string)
    requires t != [] && !IsWhitespace(t[0])
    ensures TrimEnd(t) != []
  {
    if IsWhitespace(t[|t| - 1]) {
      TrimEndKeepsNonBlankHead(t[..|t| - 1]);
    }
  }

  /** `s.trim().is_empty()` holds exactly when every character of `s` is whitespace. */
  lemma TrimEmptyIff(s: string)
    ensures (Trim(s) == []) == AllWhitespace(s)
  {
    TrimStartEmptyIff(s);
    if TrimStart(s) != [] {
      TrimEndKeepsNonBlankHead(TrimStart(s));
    }
  }

  predicate IsDigit(c: char) {
    '0' <= c <= '9'
  }

  predicate AllDigits(s: string) {
    forall i :: 0 <= i < |s| ==> IsDigit(s[i])
  }

  function DigitChar(d: int): (c: char)
    requires 0 <= d < 10
    ensures IsDigit(c) && c as int - '0' as int == d
  {
    ('0' as int + d) as char
  }

  /** The decimal text of `n`, as `format!("{}", n)` writes an unsigned integer:
      at least one digit and no leading zero. */
  function Decimal(n: nat): (r: string)
    ensures |r| > 0 && AllDigits(r)
    ensures (r[0] == '0') == (n == 0)
    ensures n == 0 ==> r == "0"
  {
    if n < 10 then [DigitChar(n)] else Decimal(n / 10) + [DigitChar(n % 10)]
  }

  /** The number a string of decimal digits denotes. */
  function DigitsValue(s: string): nat
    requires AllDigits(s)
  {
    if s == [] then 0
    else
      DigitsValue(s[..|s| - 1]) * 10 + (s[|s| - 1] as int - '0' as int)
  }

  /** Reading the decimal text back gives the number that was written. */
  lemma {:induction false} DecimalRoundTrip(n: nat)
    ensures DigitsValue(Decimal(n)) == n
  {
    if n >= 10 {
      DecimalRoundTrip(n / 10);
      var d := Decimal(n);
      assert d[..|d| - 1] == Decimal(n / 10);
    }
  }

  /** A run of digits without a leading zero (or the single digit `0`) is
      exactly how `Decimal` writes the number it denotes. */
  lemma {:induction false} DecimalOfDigits(d: string)
    requires |d| > 0 && AllDigits(d) && (|d| == 1 || d[0] != '0')
    ensures Decimal(DigitsValue(d)) == d
  {
    if |d| > 1 {
      var p := d[..|d| - 1];
      DecimalOfDigits(p);
      var v, n := DigitsValue(p), DigitsValue(d);
      assert v != 0;
      assert n / 10 == v && n % 10 == d[|d| - 1] as int - '0' as int;
      assert d == p + [d[|d| - 1]];
    }
  }

  /** The length of the longest run of digits at the start of `s`. */
  function DigitSpan(s: string): (k: nat)
    ensures k <= |s| && AllDigits(s[..k])
    ensures k < |s| ==> !IsDigit(s[k])
  {
    if s != [] && IsDigit(s[0]) then
      var k := 1 + DigitSpan(s[1..]);
      assert s[..k] == [s[0]] + s[1..][..k - 1];
      k
    else 0
  }

  /** A run of digits followed by a non-digit is read exactly up to that non-digit. */
  lemma {:induction false} DigitSpanOfDigitsThen(a: string, b: string)
    requires AllDigits(a) && b != [] && !IsDigit(b[0])
    ensures DigitSpan(a + b) == |a|
  {
    if a != [] {
      assert (a + b)[1..] == a[1..] + b;
      DigitSpanOfDigitsThen(a[1..], b);
    }
  }
}
