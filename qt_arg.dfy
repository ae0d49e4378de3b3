/**
  QString::arg(a): the copy of a string in which every occurrence of its
  lowest-numbered place marker (`%`, optionally `L`, then one or two
  decimal digits) is replaced by `a`; for a string argument the localized
  form `%Ln` is filled with the same text as `%n`. The inserted text is
  not scanned again by the same call, but a later `.arg(...)` in a chain
  scans the whole string, markers inside earlier insertions included. A
  string without any marker is returned unchanged.
 */
module QtArg {
  import opened Wrappers
  import opened Text

  /** Where the digits of a marker starting `s` begin: after `%L` for a localized marker, otherwise after `%`. */
  function DigitsStart(s: string): nat {
    if |s| >= 2 && s[1] == 'L' then 2 else 1
  }

  /**
    Length of the place marker that starts `s`, or 0 when `s` does not
    start with one: `%`, an optional `L`, then one or two digits.
   */
  function MarkerLength(s: string): nat {
    var o := DigitsStart(s);
    if |s| > o && s[0] == '%' && IsDigit(s[o]) then
      (if |s| > o + 1 && IsDigit(s[o + 1]) then o + 2 else o + 1)
    else 0
  }

  function MarkerNumber(s: string): nat
    requires MarkerLength(s) > 0
  {
    var o := DigitsStart(s);
    if MarkerLength(s) == o + 2 then 10 * DigitValue(s[o]) + DigitValue(s[o + 1]) else DigitValue(s[o])
  }

  /** The smaller of marker number `m` and the lowest number `rest` found after it. */
  function Lowest(m: nat, rest: Option<nat>): Option<nat> {
    if rest.Some? && rest.value < m then rest else Some(m)
  }

  /** The smallest marker number occurring in `s`, scanning left to right. */
  function LowestMarker(s: string): Option<nat>
    decreases |s|
  {
    if |s| == 0 then None
    else if MarkerLength(s) > 0 then Lowest(MarkerNumber(s), LowestMarker(s[MarkerLength(s)..]))
    else LowestMarker(s[1..])
  }

  /** `s` with every marker numbered `n` replaced by `a`. */
  function ReplaceMarker(s: string, n: nat, a: string): string
    decreases |s|
  {
    if |s| == 0 then ""
    else if MarkerLength(s) > 0 then
      (if MarkerNumber(s) == n then a else s[..MarkerLength(s)]) + ReplaceMarker(s[MarkerLength(s)..], n, a)
    else [s[0]] + ReplaceMarker(s[1..], n, a)
  }

  function Arg(s: string, a: string): string {
    match LowestMarker(s)
    case None => s
    case Some(n) => ReplaceMarker(s, n, a)
  }

  /** Text without `%` holds no marker: scanning passes over it unchanged. */
  lemma {:induction false} PlainPrefix(x: string, y: string, n: nat, a: string)
    requires '%' !in x
    ensures LowestMarker(x + y) == LowestMarker(y)
    ensures ReplaceMarker(x + y, n, a) == x + ReplaceMarker(y, n, a)
    decreases |x|
  {
    if |x| > 0 {
      assert (x + y)[0] == x[0] && (x + y)[1..] == x[1..] + y;
      PlainPrefix(x[1..], y, n, a);
    } else {
      assert x + y == y;
    }
  }

  /** A `%` with one digit, not followed by another digit, is a one-digit marker. */
  lemma OneDigitMarker(d: char, y: string, n: nat, a: string)
    requires IsDigit(d)
    requires |y| == 0 || !IsDigit(y[0])
    ensures var s := ['%', d] + y;
      && MarkerLength(s) == 2 && MarkerNumber(s) == DigitValue(d) && s[2..] == y
      && LowestMarker(s) == Lowest(DigitValue(d), LowestMarker(y))
      && ReplaceMarker(s, n, a) == (if DigitValue(d) == n then a else ['%', d]) + ReplaceMarker(y, n, a)
  {
    var s := ['%', d] + y;
    assert s[2..] == y;
    assert s[..2] == ['%', d];
  }

  /** `.arg` on a string without markers returns it unchanged. */
  lemma ArgWithoutMarker(s: string, a: string)
    requires '%' !in s
    ensures Arg(s, a) == s
  {
    PlainPrefix(s, "", 0, a);
    assert s + "" == s;
  }

  /** Text without `%`, then a one-digit marker, then text that does not start with a digit. */
  lemma PlainThenMarker(x: string, d: char, y: string, n: nat, a: string)
    requires '%' !in x && IsDigit(d)
    requires |y| == 0 || !IsDigit(y[0])
    ensures LowestMarker(x + (['%', d] + y)) == Lowest(DigitValue(d), LowestMarker(y))
    ensures ReplaceMarker(x + (['%', d] + y), n, a) == x + ((if DigitValue(d) == n then a else ['%', d]) + ReplaceMarker(y, n, a))
  {
    OneDigitMarker(d, y, n, a);
    PlainPrefix(x, ['%', d] + y, n, a);
  }

  /** Plain text ends the scan: nothing is replaced and no marker is found. */
  lemma PlainText(x: string, n: nat, a: string)
    requires '%' !in x
    ensures LowestMarker(x) == None && ReplaceMarker(x, n, a) == x
  {
    PlainPrefix(x, "", n, a);
    assert x + "" == x;
  }

  /**
    `.arg` on a template with markers 1, 2, 3 between plain pieces fills
    marker 1 and keeps the others.
   */
  lemma ArgOfThree(x0: string, x1: string, x2: string, x3: string, a: string)
    requires '%' !in x0 && '%' !in x1 && '%' !in x2 && '%' !in x3
    requires |x1| > 0 && !IsDigit(x1[0]) && |x2| > 0 && !IsDigit(x2[0]) && (|x3| == 0 || !IsDigit(x3[0]))
    ensures Arg(x0 + (['%', '1'] + (x1 + (['%', '2'] + (x2 + (['%', '3'] + x3))))), a)
         == x0 + (a + (x1 + (['%', '2'] + (x2 + (['%', '3'] + x3)))))
  {
    var t3 := x2 + (['%', '3'] + x3);
    var t2 := x1 + (['%', '2'] + t3);
    PlainText(x3, 1, a);
    PlainThenMarker(x2, '3', x3, 1, a);
    PlainThenMarker(x1, '2', t3, 1, a);
    PlainThenMarker(x0, '1', t2, 1, a);
  }

  /**
    `.arg` on a template with markers `d` and `e`, `d` not above `e`, fills
    `d`, and `e` as well when both carry the same number.
   */
  lemma ArgOfPair(x0: string, d: char, x1: string, e: char, x2: string, a: string)
    requires '%' !in x0 && '%' !in x1 && '%' !in x2 && IsDigit(d) && IsDigit(e) && DigitValue(d) <= DigitValue(e)
    requires |x1| > 0 && !IsDigit(x1[0]) && (|x2| == 0 || !IsDigit(x2[0]))
    ensures Arg(x0 + (['%', d] + (x1 + (['%', e] + x2))), a)
         == x0 + (a + (x1 + ((if d == e then a else ['%', e]) + x2)))
  {
    var t2 := x1 + (['%', e] + x2);
    var n := DigitValue(d);
    PlainText(x2, n, a);
    PlainThenMarker(x1, e, x2, n, a);
    PlainThenMarker(x0, d, t2, n, a);
  }

  /** `.arg` on a template with the single marker `d` fills it. */
  lemma ArgOfOne(x0: string, d: char, x1: string, a: string)
    requires '%' !in x0 && '%' !in x1 && IsDigit(d)
    requires |x1| == 0 || !IsDigit(x1[0])
    ensures Arg(x0 + (['%', d] + x1), a) == x0 + (a + x1)
  {
    PlainText(x1, DigitValue(d), a);
    PlainThenMarker(x0, d, x1, DigitValue(d), a);
  }

  /** A localized marker `%Ld` is a marker like `%d`: `.arg` fills it with the same text. */
  lemma ArgOfLocalizedOne(x0: string, d: char, x1: string, a: string)
    requires '%' !in x0 && '%' !in x1 && IsDigit(d)
    requires |x1| == 0 || !IsDigit(x1[0])
    ensures Arg(x0 + (['%', 'L', d] + x1), a) == x0 + (a + x1)
  {
    var n := DigitValue(d);
    var s := ['%', 'L', d] + x1;
    assert MarkerLength(s) == 3 && MarkerNumber(s) == n && s[3..] == x1;
    PlainText(x1, n, a);
    PlainPrefix(x0, s, n, a);
  }

  /** The first call on a template with markers `d` below `e` fills `d` only. */
  lemma FillLowerOfTwo(x0: string, d: char, x1: string, e: char, x2: string, a: string)
    requires '%' !in x0 && '%' !in x1 && '%' !in x2
    requires IsDigit(d) && IsDigit(e) && DigitValue(d) < DigitValue(e)
    requires |x1| > 0 && !IsDigit(x1[0]) && (|x2| == 0 || !IsDigit(x2[0]))
    ensures Arg(x0 + (['%', d] + (x1 + (['%', e] + x2))), a) == (x0 + a + x1) + (['%', e] + x2)
  {
    ArgOfPair(x0, d, x1, e, x2, a);
    assert x0 + (a + (x1 + (['%', e] + x2))) == (x0 + a + x1) + (['%', e] + x2);
  }

  /** Two chained `.arg` calls on a template with markers `d` below `e`, the first argument free of `%`. */
  lemma ChainOfTwo(x0: string, d: char, x1: string, e: char, x2: string, a: string, b: string)
    requires '%' !in x0 && '%' !in x1 && '%' !in x2 && '%' !in a
    requires IsDigit(d) && IsDigit(e) && DigitValue(d) < DigitValue(e)
    requires |x1| > 0 && !IsDigit(x1[0]) && (|x2| == 0 || !IsDigit(x2[0]))
    ensures Arg(Arg(x0 + (['%', d] + (x1 + (['%', e] + x2))), a), b) == x0 + a + x1 + b + x2
  {
    var p := x0 + a + x1;
    FillLowerOfTwo(x0, d, x1, e, x2, a);
    assert '%' !in p;
    ArgOfOne(p, e, x2, b);
    assert p + (b + x2) == x0 + a + x1 + b + x2;
  }

  /**
    Three chained `.arg` calls on a template with markers 1, 2, 3 between
    plain pieces, where neither of the first two arguments holds a `%`:
    each call fills its own marker.
   */
  lemma ChainOfThree(x0: string, x1: string, x2: string, x3: string, a: string, b: string, c: string)
    requires '%' !in x0 && '%' !in x1 && '%' !in x2 && '%' !in x3 && '%' !in a && '%' !in b
    requires |x1| > 0 && !IsDigit(x1[0]) && |x2| > 0 && !IsDigit(x2[0]) && (|x3| == 0 || !IsDigit(x3[0]))
    ensures Arg(Arg(Arg(x0 + (['%', '1'] + (x1 + (['%', '2'] + (x2 + (['%', '3'] + x3))))), a), b), c)
         == x0 + a + x1 + b + x2 + c + x3
  {
    ArgOfThree(x0, x1, x2, x3, a);
    var s1 := x0 + (a + (x1 + (['%', '2'] + (x2 + (['%', '3'] + x3)))));
    assert s1 == (x0 + a + x1) + (['%', '2'] + (x2 + (['%', '3'] + x3)));
    ChainOfTwo(x0 + a + x1, '2', x2, '3', x3, b, c);
  }

  /** The second call, whose argument carries `%2`: it fills `%2` and brings in a new `%2`. */
  lemma SecondArgCarriesMarker(p: string, x2: string, x3: string, l: string, r: string)
    requires '%' !in p && '%' !in x2 && '%' !in x3 && '%' !in l && '%' !in r
    requires |x2| > 0 && !IsDigit(x2[0]) && (|x3| == 0 || !IsDigit(x3[0]))
    ensures Arg(p + (['%', '2'] + (x2 + (['%', '3'] + x3))), l + (['%', '2'] + r))
         == (p + l) + (['%', '2'] + ((r + x2) + (['%', '3'] + x3)))
  {
    var b := l + (['%', '2'] + r);
    ArgOfPair(p, '2', x2, '3', x3, b);
    assert p + (b + (x2 + (['%', '3'] + x3))) == (p + l) + (['%', '2'] + ((r + x2) + (['%', '3'] + x3)));
  }

  /**
    Three chained `.arg` calls on the 1, 2, 3 template where the second
    argument carries a marker `%2` of its own: the third call fills that
    marker instead of `%3`, which stays in the text.
   */
  lemma ChainOfThreeCaptured(x0: string, x1: string, x2: string, x3: string, a: string, l: string, r: string, c: string)
    requires '%' !in x0 && '%' !in x1 && '%' !in x2 && '%' !in x3 && '%' !in a && '%' !in l && '%' !in r
    requires |x1| > 0 && !IsDigit(x1[0]) && |x2| > 0 && !IsDigit(x2[0]) && (|x3| == 0 || !IsDigit(x3[0]))
    requires |r| > 0 && !IsDigit(r[0])
    ensures Arg(Arg(Arg(x0 + (['%', '1'] + (x1 + (['%', '2'] + (x2 + (['%', '3'] + x3))))), a), l + (['%', '2'] + r)), c)
         == (x0 + a + x1 + l) + (c + ((r + x2) + (['%', '3'] + x3)))
  {
    var p := x0 + a + x1;
    assert '%' !in p && '%' !in p + l && '%' !in r + x2;
    assert (r + x2)[0] == r[0];
    ArgOfThree(x0, x1, x2, x3, a);
    assert x0 + (a + (x1 + (['%', '2'] + (x2 + (['%', '3'] + x3))))) == p + (['%', '2'] + (x2 + (['%', '3'] + x3)));
    SecondArgCarriesMarker(p, x2, x3, l, r);
    ArgOfPair(p + l, '2', r + x2, '3', x3, c);
  }
}
