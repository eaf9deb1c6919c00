/**
 * The two Python text primitives the server's validation relies on:
 * `str.strip()` with no argument, and `float()` applied to a string.
 */
module PyText {
  import opened Wrappers
  import opened Digits

  /** The characters for which Python's `str.isspace()` holds. */
  predicate IsSpace(c: char)
  {
    || c == ' '
    || '\t' <= c <= '\r'
    || '\U{1C}' <= c <= '\U{1F}'
    || c == '\U{85}' || c == '\U{A0}' || c == '\U{1680}'
    || '\U{2000}' <= c <= '\U{200A}'
    || c == '\U{2028}' || c == '\U{2029}' || c == '\U{202F}'
    || c == '\U{205F}' || c == '\U{3000}'
  }

  predicate AllSpace(s: string)
  {
    forall i :: 0 <= i < |s| ==> IsSpace(s[i])
  }

  /** Neither end of `s` is whitespace. */
  predicate Trimmed(s: string)
  {
    s == [] || (!IsSpace(s[0]) && !IsSpace(s[|s| - 1]))
  }

  /** Length of the longest all-whitespace prefix. */
  function LeadingSpaces(s: string): (n: nat)
    ensures n <= |s| && AllSpace(s[..n])
    ensures n < |s| ==> !IsSpace(s[n])
  {
    if s != [] && IsSpace(s[0]) then
      var n := 1 + LeadingSpaces(s[1..]);
      assert s[..n] == [s[0]] + s[1..][..n - 1];
      n
    else 0
  }

  /** Length of the longest all-whitespace suffix. */
  function TrailingSpaces(s: string): (n: nat)
    ensures n <= |s| && AllSpace(s[|s| - n..])
    ensures n < |s| ==> !IsSpace(s[|s| - 1 - n])
  {
    if s != [] && IsSpace(s[|s| - 1]) then
      var n := 1 + TrailingSpaces(s[..|s| - 1]);
      SpaceSuffixSnoc(s, n);
      n
    else 0
  }

  /** A whitespace suffix of all but the last character grows by a final whitespace character. */
  lemma SpaceSuffixSnoc(s: string, n: nat)
    requires 0 < n <= |s| && IsSpace(s[|s| - 1])
    requires AllSpace(s[..|s| - 1][|s| - n..])
    ensures AllSpace(s[|s| - n..])
  {
    var t := s[..|s| - 1][|s| - n..];
    var u := s[|s| - n..];
    forall i | 0 <= i < |u| ensures IsSpace(u[i]) {
      if i < n - 1 {
        assert u[i] == t[i];
      }
    }
  }

  /** Any whitespace prefix followed by a non-space (or the end) is the longest one. */
  lemma {:induction false} LeadingSpacesExact(s: string, k: nat)
    requires k <= |s| && AllSpace(s[..k]) && (k < |s| ==> !IsSpace(s[k]))
    ensures LeadingSpaces(s) == k
  {
    if k > 0 {
      assert s[..k][0] == s[0];
      assert s[1..][..k - 1] == s[1..k];
      assert forall i :: 0 <= i < k - 1 ==> s[1..k][i] == s[..k][i + 1];
      LeadingSpacesExact(s[1..], k - 1);
    }
  }

  lemma {:induction false} TrailingSpacesExact(s: string, k: nat)
    requires k <= |s| && AllSpace(s[|s| - k..]) && (k < |s| ==> !IsSpace(s[|s| - 1 - k]))
    ensures TrailingSpaces(s) == k
  {
    if k > 0 {
      var s' := s[..|s| - 1];
      assert s[|s| - k..][k - 1] == s[|s| - 1];
      assert s'[|s'| - (k - 1)..] == s[|s| - k..][..k - 1];
      TrailingSpacesExact(s', k - 1);
    }
  }

  /** `s.strip()`: whitespace removed from both ends. */
  function Strip(s: string): (r: string)
    ensures Trimmed(r)
    ensures |r| <= |s|
  {
    var t := s[LeadingSpaces(s)..];
    t[..|t| - TrailingSpaces(t)]
  }

  /** Stripping undoes exactly the padding around a trimmed core. */
  lemma StripPadding(pre: string, core: string, post: string)
    requires AllSpace(pre) && AllSpace(post) && Trimmed(core)
    ensures Strip(pre + core + post) == core
  {
    var s := pre + core + post;
    if core == [] {
      assert s == pre + post;
      AllSpaceStrip(s);
    } else {
      assert s[..|pre|] == pre;
      assert s[|pre|] == core[0];
      LeadingSpacesExact(s, |pre|);
      var t := s[|pre|..];
      assert t == core + post;
      assert t[|t| - |post|..] == post;
      assert t[|t| - 1 - |post|] == core[|core| - 1];
      TrailingSpacesExact(t, |post|);
      assert t[..|t| - |post|] == core;
    }
  }

  lemma AllSpaceStrip(s: string)
    requires AllSpace(s)
    ensures Strip(s) == []
  {
    assert s[..|s|] == s;
    LeadingSpacesExact(s, |s|);
  }

  /** The stripped text is empty exactly when the input is all whitespace. */
  lemma StripEmptyIffAllSpace(s: string)
    ensures Strip(s) == [] <==> AllSpace(s)
  {
    if AllSpace(s) {
      AllSpaceStrip(s);
    } else {
      var n := LeadingSpaces(s);
      assert s[..|s|] == s;
      assert n != |s|;
      var t := s[n..];
      assert !IsSpace(t[0]);
      var m := TrailingSpaces(t);
      assert m != |t| by {
        assert |t| > 0 && t[|t| - |t|..] == t;
      }
    }
  }

  lemma StripIdempotent(s: string)
    ensures Strip(Strip(s)) == Strip(s)
  {
    StripPadding([], Strip(s), []);
    assert [] + Strip(s) + [] == Strip(s);
  }

  // ---------------------------------------------------------------------
  // float(text)

  /** Index of the first occurrence of a character in `marks`, or `|s|`. */
  function IndexOfAny(s: string, marks: set<char>): (i: nat)
    ensures i <= |s|
    ensures forall k :: 0 <= k < i ==> s[k] !in marks
    ensures i < |s| ==> s[i] in marks
  {
    if s == [] || s[0] in marks then 0 else 1 + IndexOfAny(s[1..], marks)
  }

  /** `digits`, `digits.`, `digits.digits` or `.digits`. */
  function ParseMantissa(t: string): Option<real>
  {
    var dot := IndexOfAny(t, {'.'});
    var whole := t[..dot];
    var frac := if dot < |t| then t[dot + 1..] else [];
    if AllDigits(whole) && AllDigits(frac) && |whole| + |frac| > 0 then
      Some(PointValue(whole, frac))
    else None
  }

  /** The value of `whole.frac`. */
  function PointValue(whole: string, frac: string): real
    requires AllDigits(whole) && AllDigits(frac)
  {
    DigitsValue(whole) as real + DigitsValue(frac) as real / Pow10(|frac|) as real
  }

  /** An optionally signed, non-empty digit string. */
  function ParseExponent(t: string): Option<int>
  {
    var neg := |t| > 0 && t[0] == '-';
    var digits := if |t| > 0 && (t[0] == '-' || t[0] == '+') then t[1..] else t;
    if digits != [] && AllDigits(digits) then
      Some(if neg then -(DigitsValue(digits) as int) else DigitsValue(digits))
    else None
  }

  function Scale(m: real, e: int): real
  {
    if e >= 0 then m * Pow10(e) as real else m / Pow10(-e) as real
  }

  /** A mantissa with an optional `e`/`E` exponent, no sign. */
  function ParseUnsigned(t: string): Option<real>
  {
    var e := IndexOfAny(t, {'e', 'E'});
    match ParseMantissa(t[..e])
    case None => None
    case Some(m) =>
      if e == |t| then Some(m)
      else
        match ParseExponent(t[e + 1..])
        case None => None
        case Some(x) => Some(Scale(m, x))
  }

  /**
   * The characters `float()` trims from a string. It first turns every
   * non-ASCII whitespace character into a space and then trims ASCII
   * whitespace only, so the four separators U+001C to U+001F, which
   * `str.strip()` removes, stay in place.
   */
  predicate FloatSpace(c: char)
  {
    IsSpace(c) && !('\U{1C}' <= c <= '\U{1F}')
  }

  /** The text `float()` reads: `s` without the `FloatSpace` characters at either end. */
  function FloatTrim(s: string): (r: string)
    ensures |r| <= |s|
    ensures r == [] || (!FloatSpace(r[0]) && !FloatSpace(r[|r| - 1]))
    decreases |s|
  {
    if s != [] && FloatSpace(s[0]) then FloatTrim(s[1..])
    else if s != [] && FloatSpace(s[|s| - 1]) then FloatTrim(s[..|s| - 1])
    else s
  }

  /** The trim removes exactly the padding around a core that starts and ends with something else. */
  lemma {:induction false} FloatTrimPadding(pre: string, core: string, post: string)
    requires forall i :: 0 <= i < |pre| ==> FloatSpace(pre[i])
    requires forall i :: 0 <= i < |post| ==> FloatSpace(post[i])
    requires core != [] && !FloatSpace(core[0]) && !FloatSpace(core[|core| - 1])
    ensures FloatTrim(pre + core + post) == core
    decreases |pre| + |post|
  {
    var s := pre + core + post;
    if pre != [] {
      assert s[0] == pre[0];
      assert s[1..] == pre[1..] + core + post;
      FloatTrimPadding(pre[1..], core, post);
    } else if post != [] {
      assert s == core + post;
      assert s[0] == core[0] && s[|s| - 1] == post[|post| - 1];
      assert s[..|s| - 1] == [] + core + post[..|post| - 1];
      FloatTrimPadding([], core, post[..|post| - 1]);
    } else {
      assert s == core;
    }
  }

  /** Text that starts with a kept character keeps its prefix up to any later kept character. */
  lemma {:induction false} FloatTrimKeepsPrefix(s: string, k: nat)
    requires k < |s| && !FloatSpace(s[0]) && !FloatSpace(s[k])
    ensures k < |FloatTrim(s)| && FloatTrim(s)[..k + 1] == s[..k + 1]
    decreases |s|
  {
    if FloatSpace(s[|s| - 1]) {
      var s' := s[..|s| - 1];
      assert s'[0] == s[0] && s'[k] == s[k];
      FloatTrimKeepsPrefix(s', k);
      assert s'[..k + 1] == s[..k + 1];
    }
  }

  /**
   * `float(s)` for a string `s`: surrounding whitespace trimmed, an
   * optional sign, then a decimal literal with an optional exponent.
   * `None` stands for the `ValueError` Python raises.
   */
  function ParseFloat(s: string): Option<real>
  {
    var t := FloatTrim(s);
    if |t| > 0 && t[0] == '-' then Negate(ParseUnsigned(t[1..]))
    else if |t| > 0 && t[0] == '+' then ParseUnsigned(t[1..])
    else ParseUnsigned(t)
  }

  // ---------------------------------------------------------------------
  // Round trip: decimal text with two fraction digits reads back exactly.

  /** `a / 100` written with exactly two fraction digits, e.g. `12.05`. */
  function CentsDigits(a: nat): (t: string)
    ensures |t| > 0 && IsDigit(t[0]) && IsDigit(t[|t| - 1])
  {
    var whole := NatText(a / 100);
    var t := whole + "." + [DigitChar(a % 100 / 10), DigitChar(a % 10)];
    assert t[0] == whole[0];
    t
  }

  lemma IndexOfAnyExact(s: string, marks: set<char>, k: nat)
    requires k <= |s| && (forall i :: 0 <= i < k ==> s[i] !in marks) && (k < |s| ==> s[k] in marks)
    ensures IndexOfAny(s, marks) == k
  {
  }

  /** Digits, a point, digits: the fraction is scaled by its number of digits. */
  lemma ParseMantissaPoint(whole: string, frac: string)
    requires AllDigits(whole) && AllDigits(frac) && |whole| > 0
    ensures ParseMantissa(whole + "." + frac) == Some(PointValue(whole, frac))
  {
    var u := whole + "." + frac;
    forall i | 0 <= i < |whole| ensures u[i] !in {'.'} {
      assert u[i] == whole[i] && IsDigit(whole[i]);
    }
    IndexOfAnyExact(u, {'.'}, |whole|);
    assert u[..|whole|] == whole;
    assert u[|whole| + 1..] == frac;
  }

  /** Without an exponent mark, the text is a bare mantissa. */
  lemma ParseUnsignedNoExponent(u: string)
    requires forall i :: 0 <= i < |u| ==> u[i] != 'e' && u[i] != 'E'
    ensures ParseUnsigned(u) == ParseMantissa(u)
  {
    IndexOfAnyExact(u, {'e', 'E'}, |u|);
    assert u[..|u|] == u;
  }

  lemma TwoDigitsValue(d1: nat, d2: nat)
    requires d1 < 10 && d2 < 10
    ensures DigitsValue([DigitChar(d1), DigitChar(d2)]) == 10 * d1 + d2
  {
    var f := [DigitChar(d1), DigitChar(d2)];
    assert f[..1] == [DigitChar(d1)];
    assert [DigitChar(d1)][..0] == [];
    assert DigitsValue([DigitChar(d1)]) == d1;
    assert DigitsValue(f) == 10 * DigitsValue(f[..1]) + (f[1] - '0') as nat;
  }

  /** Digits, a point and two digits, with no exponent. */
  lemma ParseTwoDecimals(whole: string, d1: nat, d2: nat)
    requires AllDigits(whole) && |whole| > 0 && d1 < 10 && d2 < 10
    ensures ParseUnsigned(whole + "." + [DigitChar(d1), DigitChar(d2)])
         == Some(PointValue(whole, [DigitChar(d1), DigitChar(d2)]))
  {
    var frac := [DigitChar(d1), DigitChar(d2)];
    var u := whole + "." + frac;
    forall i | 0 <= i < |u| ensures u[i] != 'e' && u[i] != 'E' {
      if i < |whole| {
        assert u[i] == whole[i] && IsDigit(whole[i]);
      } else if i > |whole| {
        assert u[i] == frac[i - |whole| - 1];
      }
    }
    ParseUnsignedNoExponent(u);
    ParseMantissaPoint(whole, frac);
  }

  lemma MantissaOfCents(a: nat)
    ensures ParseUnsigned(CentsDigits(a)) == Some(a as real / 100.0)
  {
    ParseTwoDecimals(NatText(a / 100), a % 100 / 10, a % 10);
    CentsValue(a);
  }

  lemma CentsValue(a: nat)
    ensures PointValue(NatText(a / 100), [DigitChar(a % 100 / 10), DigitChar(a % 10)]) == a as real / 100.0
  {
    TwoDigitsValue(a % 100 / 10, a % 10);
    assert 10 * (a % 100 / 10) + a % 10 == a % 100;
    assert Pow10(2) == 100;
    assert a == 100 * (a / 100) + a % 100;
    calc {
      (a / 100) as real + (a % 100) as real / 100.0;
      ((100 * (a / 100)) as real + (a % 100) as real) / 100.0;
      a as real / 100.0;
    }
  }

  function Negate(v: Option<real>): Option<real>
  {
    match v
    case None => None
    case Some(x) => Some(-x)
  }

  /** Text that starts and ends with a digit is read without a sign. */
  lemma ParseDigitLed(u: string)
    requires |u| > 0 && IsDigit(u[0]) && IsDigit(u[|u| - 1])
    ensures ParseFloat(u) == ParseUnsigned(u)
  {
    assert FloatTrim(u) == u;
  }

  /** A leading minus negates what follows. */
  lemma ParseMinusDigitLed(u: string)
    requires |u| > 0 && IsDigit(u[0]) && IsDigit(u[|u| - 1])
    ensures ParseFloat("-" + u) == Negate(ParseUnsigned(u))
  {
    var t := "-" + u;
    assert t[|t| - 1] == u[|u| - 1];
    assert t[0] == '-' && t[1..] == u;
    assert FloatTrim(t) == t;
  }

  /** A leading minus on digit-led text negates the value read. */
  lemma ParseMinusValue(u: string, v: real)
    requires |u| > 0 && IsDigit(u[0]) && IsDigit(u[|u| - 1])
    requires ParseUnsigned(u) == Some(v)
    ensures ParseFloat("-" + u) == Some(-v)
  {
    ParseMinusDigitLed(u);
    NegateSome(ParseUnsigned(u), v);
  }

  lemma NegateSome(x: Option<real>, v: real)
    requires x == Some(v)
    ensures Negate(x) == Some(-v)
  {
  }

  /** `float()` reads back a two-decimal spelling of a number of cents exactly. */
  lemma ParseCentsDigits(a: nat)
    ensures ParseFloat(CentsDigits(a)) == Some(a as real / 100.0)
  {
    ParseDigitLed(CentsDigits(a));
    MantissaOfCents(a);
  }

  /** `IndexOfAny` passes over a prefix holding none of the marks. */
  lemma {:induction false} IndexOfAnyBeyond(s: string, marks: set<char>, k: nat)
    requires k < |s| && forall j :: 0 <= j <= k ==> s[j] !in marks
    ensures IndexOfAny(s, marks) > k
  {
    if k > 0 {
      IndexOfAnyBeyond(s[1..], marks, k - 1);
    }
  }

  /** A mantissa with a character other than a digit before its point is rejected. */
  lemma MantissaJunk(m: string, k: nat)
    requires k < |m| && !IsDigit(m[k]) && forall j :: 0 <= j <= k ==> m[j] != '.'
    ensures ParseMantissa(m) == None
  {
    IndexOfAnyBeyond(m, {'.'}, k);
    var whole := m[..IndexOfAny(m, {'.'})];
    assert whole[k] == m[k];
  }

  /** So is unsigned text with such a character before any point or exponent mark. */
  lemma UnsignedJunk(t: string, k: nat)
    requires k < |t| && !IsDigit(t[k]) && forall j :: 0 <= j <= k ==> t[j] !in {'.', 'e', 'E'}
    ensures ParseUnsigned(t) == None
  {
    IndexOfAnyBeyond(t, {'e', 'E'}, k);
    var m := t[..IndexOfAny(t, {'e', 'E'})];
    assert forall j :: 0 <= j <= k ==> m[j] == t[j];
    MantissaJunk(m, k);
  }

  /**
   * Digits followed by an ASCII character that is not a digit, a point, an
   * exponent mark, an underscore or a character `float()` trims make
   * `float()` raise, whatever comes after; U+001C to U+001F are such junk.
   * (Python reads `_` between digits as a separator and accepts non-ASCII
   * decimal digits, so those are not junk.)
   */
  lemma ParseFloatJunk(u: string, c: char, rest: string)
    requires u != [] && AllDigits(u) && !IsDigit(c) && c !in {'.', 'e', 'E', '_'} && !FloatSpace(c) && c < '\U{80}'
    ensures ParseFloat(u + [c] + rest) == None
  {
    var s := u + [c] + rest;
    var k := |u|;
    assert s[0] == u[0] && s[k] == c;
    assert forall j :: 0 <= j < k ==> s[j] == u[j];
    FloatTrimKeepsPrefix(s, k);
    var t := FloatTrim(s);
    assert forall j :: 0 <= j <= k ==> t[j] == s[j];
    UnsignedJunk(t, k);
  }
}
