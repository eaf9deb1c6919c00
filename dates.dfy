/**
 * Dates are stored and sent as `YYYY-MM-DD` text. The server orders them
 * as text, the browser by the instant `new Date(...)` gives them; on text
 * of that shape the two orders agree, because the text order is the
 * calendar order.
 */
module Dates {
  import opened Digits
  import opened Ledger

  /** Text of the shape `YYYY-MM-DD`. */
  predicate IsoDate(s: string)
  {
    && |s| == 10 && s[4] == '-' && s[7] == '-'
    && AllDigits(s[..4]) && AllDigits(s[5..7]) && AllDigits(s[8..])
  }

  function Year(s: string): nat
    requires IsoDate(s)
  {
    DigitsValue(s[..4])
  }

  function Month(s: string): nat
    requires IsoDate(s)
  {
    DigitsValue(s[5..7])
  }

  function Day(s: string): nat
    requires IsoDate(s)
  {
    DigitsValue(s[8..])
  }

  /** An earlier year, or the same year and an earlier month, or the same month and an earlier day. */
  predicate CalendarBefore(a: string, b: string)
    requires IsoDate(a) && IsoDate(b)
  {
    || Year(a) < Year(b)
    || (Year(a) == Year(b) && Month(a) < Month(b))
    || (Year(a) == Year(b) && Month(a) == Month(b) && Day(a) < Day(b))
  }

  /** Text order on a concatenation of equally long prefixes: the prefixes decide, then the rest. */
  lemma {:induction false} LexLessAppend(p: string, q: string, p2: string, q2: string)
    requires |p| == |p2|
    ensures LexLess(p + q, p2 + q2) <==> LexLess(p, p2) || (p == p2 && LexLess(q, q2))
  {
    if p != [] {
      assert (p + q)[0] == p[0] && (p2 + q2)[0] == p2[0];
      assert (p + q)[1..] == p[1..] + q && (p2 + q2)[1..] == p2[1..] + q2;
      LexLessAppend(p[1..], q, p2[1..], q2);
      if p[0] == p2[0] && p[1..] == p2[1..] {
        assert p == [p[0]] + p[1..] && p2 == [p2[0]] + p2[1..];
      }
    } else {
      assert p + q == q && p2 + q2 == q2;
    }
  }

  /** On digit strings of one length, text order is numeric order, and equal text is equal value. */
  lemma {:induction false} DigitsOrder(a: string, b: string)
    requires |a| == |b| && AllDigits(a) && AllDigits(b)
    ensures LexLess(a, b) <==> DigitsValue(a) < DigitsValue(b)
    ensures a == b <==> DigitsValue(a) == DigitsValue(b)
    decreases |a|
  {
    if a != [] {
      var n := |a| - 1;
      var a', b' := a[..n], b[..n];
      var x, y := a[n], b[n];
      assert a == a' + [x] && b == b' + [y];
      LexLessAppend(a', [x], b', [y]);
      DigitsOrder(a', b');
      LexLessTotal(a', b');
      LexLessAsymmetric(a', b');
      assert DigitsValue(a) == 10 * DigitsValue(a') + (x - '0') as nat;
      assert DigitsValue(b) == 10 * DigitsValue(b') + (y - '0') as nat;
    }
  }

  /** Two dates compare as text by year field, then month field, then day field. */
  lemma IsoDateFields(a: string, b: string)
    requires IsoDate(a) && IsoDate(b)
    ensures LexLess(a, b) <==>
      || LexLess(a[..4], b[..4])
      || (a[..4] == b[..4] && LexLess(a[5..7], b[5..7]))
      || (a[..4] == b[..4] && a[5..7] == b[5..7] && LexLess(a[8..], b[8..]))
  {
    assert a == a[..4] + (a[4..5] + (a[5..7] + (a[7..8] + a[8..])));
    assert b == b[..4] + (b[4..5] + (b[5..7] + (b[7..8] + b[8..])));
    assert a[4..5] == b[4..5] == "-" && a[7..8] == b[7..8] == "-";
    LexLessIrreflexive("-");
    LexLessAppend(a[..4], a[4..], b[..4], b[4..]);
    LexLessAppend(a[4..5], a[5..], b[4..5], b[5..]);
    LexLessAppend(a[5..7], a[7..], b[5..7], b[7..]);
    LexLessAppend(a[7..8], a[8..], b[7..8], b[8..]);
  }

  /** The text order of two `YYYY-MM-DD` dates is their calendar order. */
  lemma IsoDateOrder(a: string, b: string)
    requires IsoDate(a) && IsoDate(b)
    ensures LexLess(a, b) <==> CalendarBefore(a, b)
  {
    IsoDateFields(a, b);
    DigitsOrder(a[..4], b[..4]);
    DigitsOrder(a[5..7], b[5..7]);
    DigitsOrder(a[8..], b[8..]);
  }
}
