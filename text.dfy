/** Kotlin string helpers the app relies on: decimal rendering of numbers in
    string templates, `isBlank`, `startsWith` and `substringAfter`. */
module Text {

  /** `Char.isWhitespace()` on the JVM: `Character.isWhitespace` or
      `Character.isSpaceChar` (the Unicode space separators, including the
      no-break spaces, and the line and paragraph separators). */
  predicate IsWhitespace(c: char) {
    var n := c as int;
    || 0x09 <= n <= 0x0D
    || 0x1C <= n <= 0x20
    || n == 0xA0 || n == 0x1680
    || 0x2000 <= n <= 0x200A
    || n == 0x2028 || n == 0x2029 || n == 0x202F || n == 0x205F || n == 0x3000
  }

  /** `CharSequence.isBlank()`: empty or only whitespace. */
  predicate IsBlank(s: string) {
    forall i :: 0 <= i < |s| ==> IsWhitespace(s[i])
  }

  lemma ConcatAssoc<T>(a: seq<T>, b: seq<T>, c: seq<T>)
    ensures a + b + c == a + (b + c)
  {
  }

  predicate StartsWith(s: string, prefix: string) {
    |prefix| <= |s| && s[..|prefix|] == prefix
  }

  /** A text begins with the first character of any non-empty prefix of it. */
  lemma StartsWithHead(s: string, prefix: string)
    requires StartsWith(s, prefix) && |prefix| > 0
    ensures s[0] == prefix[0]
  {
    assert s[..|prefix|][0] == s[0];
  }

  predicate IsDigit(c: char) {
    '0' <= c <= '9'
  }

  function DigitChar(d: nat): (c: char)
    requires d < 10
    ensures IsDigit(c) && c as int - '0' as int == d
  {
    ['0', '1', '2', '3', '4', '5', '6', '7', '8', '9'][d]
  }

  /** `n.toString()` for a non-negative number: no sign, no leading zeros. */
  function Decimal(n: nat): (s: string)
    ensures |s| >= 1
    ensures forall i :: 0 <= i < |s| ==> IsDigit(s[i])
    ensures n < 10 <==> |s| == 1
    decreases n
  {
    if n < 10 then [DigitChar(n)] else Decimal(n / 10) + [DigitChar(n % 10)]
  }

  /** `Long.toString()`: a minus sign before the magnitude of a negative number. */
  function SignedDecimal(n: int): string {
    if n < 0 then "-" + Decimal(-n) else Decimal(n)
  }

  /** Different numbers render differently, so names built from distinct clock
      readings are distinct. */
  lemma {:induction false} DecimalInjective(a: nat, b: nat)
    requires Decimal(a) == Decimal(b)
    ensures a == b
    decreases a
  {
    var s := Decimal(a);
    if a < 10 || b < 10 {
      assert |s| == 1;
      assert a < 10 && b < 10;
      assert s[0] == DigitChar(a) && s[0] == DigitChar(b);
    } else {
      assert Decimal(a) == Decimal(a / 10) + [DigitChar(a % 10)];
      assert Decimal(b) == Decimal(b / 10) + [DigitChar(b % 10)];
      assert s[..|s| - 1] == Decimal(a / 10) == Decimal(b / 10);
      assert s[|s| - 1] == DigitChar(a % 10) == DigitChar(b % 10);
      DecimalInjective(a / 10, b / 10);
    }
  }

  /** A name made of a fixed prefix, a rendered number and a fixed suffix
      determines the number. */
  lemma DecimalNameInjective(prefix: string, suffix: string, a: nat, b: nat)
    requires prefix + Decimal(a) + suffix == prefix + Decimal(b) + suffix
    ensures a == b
  {
    var x, y := prefix + Decimal(a) + suffix, prefix + Decimal(b) + suffix;
    assert |Decimal(a)| == |Decimal(b)|;
    assert Decimal(a) == x[|prefix|..|prefix| + |Decimal(a)|];
    assert Decimal(b) == y[|prefix|..|prefix| + |Decimal(b)|];
    DecimalInjective(a, b);
  }
}
