/**
 * Character classes and string helpers shared by the extractor and the
 * normaliser: Python's `str.strip()`, the `\s`, `\d` and `\w` classes of its
 * regular expressions, and decimal digit strings.
 *
 * Only the ASCII members of each class are modelled (see README).
 */
module Text {

  /**
   * Python `\s` and the characters `str.strip()` removes, ASCII members:
   * space, tab, line feed, carriage return, vertical tab, form feed and the
   * four separators U+001C to U+001F.
   */
  predicate IsSpace(c: char) {
    c == ' ' || c == '\t' || c == '\n' || c == '\r' || c == '\U{000B}' || c == '\U{000C}'
    || ('\U{001C}' <= c <= '\U{001F}')
  }

  /** Python `\d`, ASCII members. */
  predicate IsDigit(c: char) {
    '0' <= c <= '9'
  }

  /** Python `\w`, ASCII members: letters, digits and underscore. */
  predicate IsWordChar(c: char) {
    IsDigit(c) || ('a' <= c <= 'z') || ('A' <= c <= 'Z') || c == '_'
  }

  predicate AllDigits(s: string) {
    forall k :: 0 <= k < |s| ==> IsDigit(s[k])
  }

  predicate StartsWith(s: string, prefix: string) {
    |prefix| <= |s| && s[..|prefix|] == prefix
  }

  /** Python `needle in s`. */
  predicate Contains(s: string, needle: string) {
    exists i :: 0 <= i <= |s| && StartsWith(s[i..], needle)
  }

  /** The three character classes the patterns repeat with `*` or `+`. */
  datatype CharClass = Space | Digit | Word

  predicate InClass(c: char, cls: CharClass) {
    match cls
    case Space => IsSpace(c)
    case Digit => IsDigit(c)
    case Word => IsWordChar(c)
  }

  /**
   * End of the maximal run of characters of class `p` that starts at `i`:
   * what a greedy `p*` consumes.
   */
  function SpanEnd(s: string, i: nat, p: CharClass): (j: nat)
    requires i <= |s|
    ensures i <= j <= |s|
    ensures forall k :: i <= k < j ==> InClass(s[k], p)
    ensures j < |s| ==> !InClass(s[j], p)
    decreases |s| - i
  {
    if i < |s| && InClass(s[i], p) then SpanEnd(s, i + 1, p) else i
  }

  /** A run that already stops at `j` ends there. */
  lemma {:induction false} SpanEndAt(s: string, i: nat, j: nat, p: CharClass)
    requires i <= j <= |s|
    requires forall k :: i <= k < j ==> InClass(s[k], p)
    requires j < |s| ==> !InClass(s[j], p)
    ensures SpanEnd(s, i, p) == j
    decreases j - i
  {
    if i < j {
      SpanEndAt(s, i + 1, j, p);
    }
  }

  function TrimLeft(s: string): string {
    if s != [] && IsSpace(s[0]) then TrimLeft(s[1..]) else s
  }

  function TrimRight(s: string): string {
    if s != [] && IsSpace(s[|s| - 1]) then TrimRight(s[..|s| - 1]) else s
  }

  predicate AllSpaces(s: string) {
    forall k :: 0 <= k < |s| ==> IsSpace(s[k])
  }

  /**
   * `t` is `s` with a whitespace prefix and a whitespace suffix cut off, and
   * `t` itself neither starts nor ends with whitespace.
   */
  predicate TrimmedOf(t: string, s: string) {
    (exists i, j :: 0 <= i <= j <= |s| && t == s[i..j] && AllSpaces(s[..i]) && AllSpaces(s[j..]))
    && (t != [] ==> !IsSpace(t[0]) && !IsSpace(t[|t| - 1]))
  }

  /** Python `s.strip()` with no argument: no whitespace is left at either end. */
  function Strip(s: string): (r: string)
    ensures |r| <= |s|
    ensures r != [] ==> !IsSpace(r[0]) && !IsSpace(r[|r| - 1])
  {
    TrimLeftSpec(s);
    TrimRightSpec(TrimLeft(s));
    TrimRight(TrimLeft(s))
  }

  /** Cutting a spaces-only prefix and then a spaces-only suffix leaves a trimmed infix. */
  lemma StripWitness(s: string, l: string, r: string)
    requires |l| <= |s| && l == s[|s| - |l|..] && AllSpaces(s[..|s| - |l|])
    requires |r| <= |l| && r == l[..|r|] && AllSpaces(l[|r|..])
    requires r != [] ==> !IsSpace(r[0]) && !IsSpace(r[|r| - 1])
    ensures TrimmedOf(r, s)
  {
    var i := |s| - |l|;
    var j := i + |r|;
    assert r == s[i..j];
    assert s[j..] == l[|r|..];
  }

  /** A string with no whitespace at either end is its own `strip()`. */
  lemma StripNoOp(s: string)
    requires s == [] || (!IsSpace(s[0]) && !IsSpace(s[|s| - 1]))
    ensures Strip(s) == s
  {
  }

  lemma {:induction false} TrimLeftSpec(s: string)
    ensures TrimLeft(s) == [] <==> AllSpaces(s)
    ensures TrimLeft(s) != [] ==> !IsSpace(TrimLeft(s)[0])
    ensures |TrimLeft(s)| <= |s| && TrimLeft(s) == s[|s| - |TrimLeft(s)|..]
    ensures AllSpaces(s[..|s| - |TrimLeft(s)|])
  {
    if s != [] && IsSpace(s[0]) {
      TrimLeftSpec(s[1..]);
      var n := |s| - |TrimLeft(s)|;
      assert s[..n] == [s[0]] + s[1..][..n - 1];
      if AllSpaces(s[1..]) {
        assert AllSpaces(s) by {
          forall k | 0 <= k < |s| ensures IsSpace(s[k]) {
            if k > 0 { assert s[k] == s[1..][k - 1]; }
          }
        }
      }
    }
  }

  lemma {:induction false} TrimRightSpec(s: string)
    ensures TrimRight(s) == [] <==> AllSpaces(s)
    ensures TrimRight(s) != [] ==> !IsSpace(TrimRight(s)[|TrimRight(s)| - 1])
    ensures |TrimRight(s)| <= |s| && TrimRight(s) == s[..|TrimRight(s)|]
    ensures AllSpaces(s[|TrimRight(s)|..])
  {
    if s != [] && IsSpace(s[|s| - 1]) {
      var t := s[..|s| - 1];
      TrimRightSpec(t);
      var n := |TrimRight(s)|;
      assert s[n..] == t[n..] + [s[|s| - 1]];
      if AllSpaces(t) {
        assert AllSpaces(s) by {
          forall k | 0 <= k < |s| ensures IsSpace(s[k]) {
            if k < |s| - 1 { assert s[k] == t[k]; }
          }
        }
      }
    }
  }

  /**
   * `strip()` cuts off exactly the whitespace at both ends: it yields the
   * empty string exactly for all-whitespace input, and otherwise the infix
   * of `s` between its first and last non-whitespace characters.
   */
  lemma StripSpec(s: string)
    ensures Strip(s) == [] <==> AllSpaces(s)
    ensures TrimmedOf(Strip(s), s)
  {
    TrimLeftSpec(s);
    TrimRightSpec(TrimLeft(s));
    StripWitness(s, TrimLeft(s), TrimRight(TrimLeft(s)));
  }

  /** `strip()` is idempotent. */
  lemma StripIdempotent(s: string)
    ensures Strip(Strip(s)) == Strip(s)
  {
    StripSpec(s);
    StripNoOp(Strip(s));
  }

  function DigitValue(c: char): nat
    requires IsDigit(c)
  {
    (c as int - '0' as int) as nat
  }

  function DigitChar(d: nat): (c: char)
    requires d < 10
    ensures IsDigit(c) && DigitValue(c) == d
  {
    ('0' as int + d) as char
  }

  /** The value of a string of decimal digits, as Python `int(s)` reads it. */
  function DigitsValue(s: string): nat
    requires AllDigits(s)
  {
    if s == [] then 0 else DigitsValue(s[..|s| - 1]) * 10 + DigitValue(s[|s| - 1])
  }

  function Pow10(n: nat): (r: nat)
    ensures r >= 1
  {
    if n == 0 then 1 else 10 * Pow10(n - 1)
  }

  /** Python `str(n)` for a natural number. */
  function NatToString(n: nat): (s: string)
    ensures s != [] && AllDigits(s)
  {
    if n < 10 then [DigitChar(n)] else NatToString(n / 10) + [DigitChar(n % 10)]
  }

  /** `str(n)` starts with `0` only for zero: it has no leading zeros. */
  lemma {:induction false} NatToStringLeadingDigit(n: nat)
    ensures NatToString(n)[0] == '0' <==> n == 0
  {
    if n >= 10 {
      NatToStringLeadingDigit(n / 10);
      assert NatToString(n)[0] == NatToString(n / 10)[0];
    }
  }

  /** Reading back what `str` printed gives the number: `int(str(n)) == n`. */
  lemma {:induction false} NatToStringRoundTrip(n: nat)
    ensures DigitsValue(NatToString(n)) == n
  {
    var s := NatToString(n);
    if n >= 10 {
      NatToStringRoundTrip(n / 10);
      assert s[..|s| - 1] == NatToString(n / 10);
    }
  }

  /** `str` is injective on natural numbers. */
  lemma NatToStringInjective(m: nat, n: nat)
    requires NatToString(m) == NatToString(n)
    ensures m == n
  {
    NatToStringRoundTrip(m);
    NatToStringRoundTrip(n);
  }

  /** Reading a concatenation of digit strings: `int(a + b) == int(a) * 10^|b| + int(b)`. */
  lemma {:induction false} DigitsValueAppend(a: string, b: string)
    requires AllDigits(a) && AllDigits(b)
    ensures AllDigits(a + b)
    ensures DigitsValue(a + b) == DigitsValue(a) * Pow10(|b|) + DigitsValue(b)
  {
    var ab := a + b;
    assert AllDigits(ab) by {
      forall k | 0 <= k < |ab| ensures IsDigit(ab[k]) {
        if k < |a| { assert ab[k] == a[k]; } else { assert ab[k] == b[k - |a|]; }
      }
    }
    if b == [] {
      assert ab == a;
    } else {
      var b' := b[..|b| - 1];
      var last := DigitValue(b[|b| - 1]);
      assert ab[..|ab| - 1] == a + b';
      assert ab[|ab| - 1] == b[|b| - 1];
      assert DigitsValue(b) == DigitsValue(b') * 10 + last;
      DigitsValueAppend(a, b');
      ShiftDigit(DigitsValue(a), Pow10(|b'|), DigitsValue(b'), last);
    }
  }

  lemma ShiftDigit(x: int, p: int, y: int, d: int)
    ensures (x * p + y) * 10 + d == x * (10 * p) + (y * 10 + d)
  {
  }

  /** A digit string of length `k` reads as less than `10^k`. */
  lemma {:induction false} DigitsValueBound(s: string)
    requires AllDigits(s)
    ensures DigitsValue(s) < Pow10(|s|)
  {
    if s != [] {
      DigitsValueBound(s[..|s| - 1]);
    }
  }

  function Zeros(n: nat): (s: string)
    ensures |s| == n && AllDigits(s) && DigitsValue(s) == 0
  {
    if n == 0 then [] else Zeros(n - 1) + "0"
  }

  /** Zero-padded decimal rendering, as `%02d`-style formatting does it. */
  function PadNat(n: nat, width: nat): (s: string)
    ensures AllDigits(s)
  {
    var d := NatToString(n);
    if |d| >= width then d else Zeros(width - |d|) + d
  }

  /** Padding never shortens the rendering and never changes the value read back. */
  lemma PadNatValue(n: nat, width: nat)
    ensures |PadNat(n, width)| >= width
    ensures DigitsValue(PadNat(n, width)) == n
  {
    var d := NatToString(n);
    NatToStringRoundTrip(n);
    if |d| < width {
      var z := Zeros(width - |d|);
      assert PadNat(n, width) == z + d;
      DigitsValueAppend(z, d);
      var p := Pow10(|d|);
      assert DigitsValue(z + d) == DigitsValue(z) * p + DigitsValue(d);
      assert DigitsValue(z) == 0;
      ZeroTimes(p);
    }
  }

  lemma ZeroTimes(x: int)
    ensures 0 * x == 0
  {
  }

  /** Any slice of a digit string is a digit string. */
  lemma AllDigitsSlice(s: string, a: nat, b: nat)
    requires a <= b <= |s| && AllDigits(s)
    ensures AllDigits(s[a..b])
  {
    forall k | 0 <= k < b - a ensures IsDigit(s[a..b][k]) {
      assert s[a..b][k] == s[a + k];
    }
  }

  /** A number below `10^width` renders in exactly `width` digits and reads back unchanged. */
  lemma PadNatSpec(n: nat, width: nat)
    requires 0 < width && n < Pow10(width)
    ensures |PadNat(n, width)| == width
    ensures DigitsValue(PadNat(n, width)) == n
  {
    PadNatValue(n, width);
    NatToStringLength(n, width);
  }

  lemma {:induction false} NatToStringLength(n: nat, width: nat)
    requires 0 < width && n < Pow10(width)
    ensures |NatToString(n)| <= width
  {
    if n >= 10 {
      NatToStringLength(n / 10, width - 1);
    }
  }
}
