/**
  The `geometry` query item: `name:wkbType:srid`, found anywhere in the
  value by the regular expression `(\w+):(\d+):(\d+)` (leftmost match,
  greedy groups), the two numbers converted with QString::toLong.
  `\w` and `\d` are taken over ASCII.
 */
module GeometrySpec {
  import opened Wrappers
  import opened Text

  /** The provider's record for a geometry column: name, WKB type code and SRID. */
  datatype GeometryField = GeometryField(name: string, wkbType: int, srid: int)

  /** The largest value of a 64-bit `long`. */
  const LongMax: nat := 0x7fff_ffff_ffff_ffff

  predicate IsWordChar(c: char) {
    ('a' <= c <= 'z') || ('A' <= c <= 'Z') || IsDigit(c) || c == '_'
  }

  predicate IsWord(s: string) {
    forall k :: 0 <= k < |s| ==> IsWordChar(s[k])
  }

  /** Length of the run of word characters starting at `i`. */
  function WordRun(s: string, i: nat): (n: nat)
    requires i <= |s|
    ensures i + n <= |s|
    decreases |s| - i
  {
    if i < |s| && IsWordChar(s[i]) then 1 + WordRun(s, i + 1) else 0
  }

  /** The run is made of word characters and is as long as it can be. */
  lemma {:induction false} WordRunChars(s: string, i: nat)
    requires i <= |s|
    ensures forall k :: i <= k < i + WordRun(s, i) ==> IsWordChar(s[k])
    ensures i + WordRun(s, i) == |s| || !IsWordChar(s[i + WordRun(s, i)])
    decreases |s| - i
  {
    if i < |s| && IsWordChar(s[i]) {
      WordRunChars(s, i + 1);
    }
  }

  /** Length of the run of digits starting at `i`. */
  function DigitRun(s: string, i: nat): (n: nat)
    requires i <= |s|
    ensures i + n <= |s|
    decreases |s| - i
  {
    if i < |s| && IsDigit(s[i]) then 1 + DigitRun(s, i + 1) else 0
  }

  /** The run is made of digits and is as long as it can be. */
  lemma {:induction false} DigitRunDigits(s: string, i: nat)
    requires i <= |s|
    ensures forall k :: i <= k < i + DigitRun(s, i) ==> IsDigit(s[k])
    ensures i + DigitRun(s, i) == |s| || !IsDigit(s[i + DigitRun(s, i)])
    decreases |s| - i
  {
    if i < |s| && IsDigit(s[i]) {
      DigitRunDigits(s, i + 1);
    }
  }

  /** The three captured groups. */
  datatype Captures = Captures(name: string, wkbType: string, srid: string)

  /**
    The match starting at `p`, if any. A shorter word or digit group would
    leave a word character or a digit where `:` is required, so the greedy
    groups are the only candidates: the name runs to `j`, the first `:`.
   */
  function MatchAt(s: string, p: nat): Option<Captures>
    requires p <= |s|
  {
    var j := p + WordRun(s, p);
    if j == p || j >= |s| || s[j] != ':' then None else MatchNumbers(s, p, j)
  }

  /** The rest of a match whose name spans `p` to `j`: the type code runs to `k`, the second `:`. */
  function MatchNumbers(s: string, p: nat, j: nat): Option<Captures>
    requires p < j < |s|
  {
    var k := j + 1 + DigitRun(s, j + 1);
    if k == j + 1 || k >= |s| || s[k] != ':' then None else MatchSrid(s, p, j, k)
  }

  /** The end of a match: the SRID digits after the second `:`. */
  function MatchSrid(s: string, p: nat, j: nat, k: nat): Option<Captures>
    requires p < j && j + 1 < k < |s|
  {
    var e := k + 1 + DigitRun(s, k + 1);
    if e == k + 1 then None else Some(Captures(s[p..j], s[j + 1..k], s[k + 1..e]))
  }

  /** QRegExp::indexIn from `p`: the match at the first position that has one. */
  function FirstMatch(s: string, p: nat): Option<Captures>
    requires p <= |s|
    decreases |s| - p
  {
    if p == |s| then None
    else
      match MatchAt(s, p)
      case Some(c) => Some(c)
      case None => FirstMatch(s, p + 1)
  }

  /** Captured groups as the pattern allows them: a word, then two runs of digits. */
  predicate WellFormedCaptures(c: Captures) {
    |c.name| > 0 && IsWord(c.name) && |c.wkbType| > 0 && IsDigits(c.wkbType) && |c.srid| > 0 && IsDigits(c.srid)
  }

  lemma MatchSridWellFormed(s: string, p: nat, j: nat, k: nat)
    requires p < j && j + 1 < k < |s|
    requires forall i :: p <= i < j ==> IsWordChar(s[i])
    requires forall i :: j < i < k ==> IsDigit(s[i])
    ensures MatchSrid(s, p, j, k).Some? ==> WellFormedCaptures(MatchSrid(s, p, j, k).value)
  {
    var e := k + 1 + DigitRun(s, k + 1);
    DigitRunDigits(s, k + 1);
    if e > k + 1 {
      var c := MatchSrid(s, p, j, k).value;
      assert forall i :: 0 <= i < |c.name| ==> c.name[i] == s[p + i];
      assert forall i :: 0 <= i < |c.wkbType| ==> c.wkbType[i] == s[j + 1 + i];
      assert forall i :: 0 <= i < |c.srid| ==> c.srid[i] == s[k + 1 + i];
    }
  }

  lemma MatchNumbersWellFormed(s: string, p: nat, j: nat)
    requires p < j < |s|
    requires forall i :: p <= i < j ==> IsWordChar(s[i])
    ensures MatchNumbers(s, p, j).Some? ==> WellFormedCaptures(MatchNumbers(s, p, j).value)
  {
    var k := j + 1 + DigitRun(s, j + 1);
    DigitRunDigits(s, j + 1);
    if k > j + 1 && k < |s| && s[k] == ':' {
      MatchSridWellFormed(s, p, j, k);
    }
  }

  lemma MatchAtWellFormed(s: string, p: nat)
    requires p <= |s|
    ensures MatchAt(s, p).Some? ==> WellFormedCaptures(MatchAt(s, p).value)
  {
    var j := p + WordRun(s, p);
    WordRunChars(s, p);
    if j > p && j < |s| && s[j] == ':' {
      MatchNumbersWellFormed(s, p, j);
    }
  }

  /** Whatever the search finds is a word and two runs of digits. */
  lemma {:induction false} FirstMatchWellFormed(s: string, p: nat)
    requires p <= |s|
    ensures FirstMatch(s, p).Some? ==> WellFormedCaptures(FirstMatch(s, p).value)
    decreases |s| - p
  {
    if p < |s| {
      MatchAtWellFormed(s, p);
      FirstMatchWellFormed(s, p + 1);
    }
  }

  /** QString::toLong on a string of digits: its value, or 0 when it does not fit in a `long`. */
  function ToLong(digits: string): (r: int)
    requires IsDigits(digits)
    ensures 0 <= r <= LongMax
  {
    var v := ParseNat(digits);
    if v <= LongMax then v else 0
  }

  /** The geometry field a `geometry` item defines, or None when the value does not match. */
  function ParseGeometryItem(value: string): (r: Option<GeometryField>)
    ensures r.Some? ==> |r.value.name| > 0 && IsWord(r.value.name)
    ensures r.Some? ==> 0 <= r.value.wkbType <= LongMax && 0 <= r.value.srid <= LongMax
  {
    FirstMatchWellFormed(value, 0);
    match FirstMatch(value, 0)
    case None => None
    case Some(c) => Some(GeometryField(c.name, ToLong(c.wkbType), ToLong(c.srid)))
  }

  // ---------------------------------------------------------------------
  // Properties

  /** toLong gives the number back when it fits and 0 when it overflows. */
  lemma ToLongOfNumber(n: nat)
    ensures ToLong(NatToString(n)) == if n <= LongMax then n else 0
  {
    ParseNatRoundTrip(n);
  }

  /** A value without `:` defines no geometry field. */
  lemma {:induction false} NoColonNoMatch(value: string, p: nat)
    requires ':' !in value && p <= |value|
    ensures FirstMatch(value, p) == None
    decreases |value| - p
  {
    if p < |value| {
      assert MatchAt(value, p) == None;
      NoColonNoMatch(value, p + 1);
    }
  }

  lemma {:induction false} WordRunExact(s: string, i: nat, n: nat)
    requires i + n <= |s|
    requires forall k :: i <= k < i + n ==> IsWordChar(s[k])
    requires i + n == |s| || !IsWordChar(s[i + n])
    ensures WordRun(s, i) == n
    decreases n
  {
    if n > 0 {
      WordRunExact(s, i + 1, n - 1);
    }
  }

  lemma {:induction false} DigitRunExact(s: string, i: nat, n: nat)
    requires i + n <= |s|
    requires forall k :: i <= k < i + n ==> IsDigit(s[k])
    requires i + n == |s| || !IsDigit(s[i + n])
    ensures DigitRun(s, i) == n
    decreases n
  {
    if n > 0 {
      DigitRunExact(s, i + 1, n - 1);
    }
  }

  /** Where the pieces of `name:w:d` sit. */
  lemma SpecLayout(name: string, w: string, d: string)
    ensures var s := name + ":" + w + ":" + d;
      var j, k := |name|, |name| + 1 + |w|;
      && |s| == k + 1 + |d|
      && s[j] == ':' && s[k] == ':'
      && (forall i :: 0 <= i < j ==> s[i] == name[i])
      && (forall i :: j < i < k ==> s[i] == w[i - j - 1])
      && (forall i :: k < i < |s| ==> s[i] == d[i - k - 1])
      && s[0..j] == name && s[j + 1..k] == w && s[k + 1..|s|] == d
  {
  }

  /** A name running to a `:` at `j` hands the match on to the numbers. */
  lemma MatchAtStage(s: string, p: nat, j: nat)
    requires p < j < |s| && s[j] == ':' && WordRun(s, p) == j - p
    ensures MatchAt(s, p) == MatchNumbers(s, p, j)
  {
  }

  /** A type code running to a `:` at `k` hands the match on to the SRID. */
  lemma MatchNumbersStage(s: string, p: nat, j: nat, k: nat)
    requires p < j && j + 1 < k < |s| && s[k] == ':' && DigitRun(s, j + 1) == k - j - 1
    ensures MatchNumbers(s, p, j) == MatchSrid(s, p, j, k)
  {
  }

  /** An SRID running to the end of the text completes the match. */
  lemma MatchSridStage(s: string, p: nat, j: nat, k: nat)
    requires p < j && j + 1 < k && k + 1 < |s| && DigitRun(s, k + 1) == |s| - k - 1
    ensures MatchSrid(s, p, j, k) == Some(Captures(s[p..j], s[j + 1..k], s[k + 1..|s|]))
  {
  }

  /** The name's run of word characters ends at the first `:`. */
  lemma SpecNameRun(name: string, w: string, d: string)
    requires |name| > 0 && IsWord(name)
    ensures WordRun(name + ":" + w + ":" + d, 0) == |name|
  {
    SpecLayout(name, w, d);
    WordRunExact(name + ":" + w + ":" + d, 0, |name|);
  }

  /** The type code's digits end at the second `:`. */
  lemma SpecTypeRun(name: string, w: string, d: string)
    requires IsDigits(w)
    ensures DigitRun(name + ":" + w + ":" + d, |name| + 1) == |w|
  {
    SpecLayout(name, w, d);
    DigitRunExact(name + ":" + w + ":" + d, |name| + 1, |w|);
  }

  /** Digits at the end of a text run to its end. */
  lemma DigitRunSuffix(x: string, d: string)
    requires IsDigits(d)
    ensures DigitRun(x + d, |x|) == |d|
  {
    DigitRunExact(d, 0, |d|);
    DigitRunShift(x, d, 0);
  }

  /** Text made of a name, `:`, digits, `:` and digits matches at its start with those groups. */
  lemma SpecMatch(name: string, w: string, d: string)
    requires |name| > 0 && IsWord(name) && |w| > 0 && IsDigits(w) && |d| > 0 && IsDigits(d)
    ensures MatchAt(name + ":" + w + ":" + d, 0) == Some(Captures(name, w, d))
  {
    var s := name + ":" + w + ":" + d;
    var j := |name|;
    var k := j + 1 + |w|;
    SpecNameRun(name, w, d);
    SpecTypeRun(name, w, d);
    DigitRunSuffix(name + ":" + w + ":", d);
    assert s[j] == ':' && s[k] == ':' && |s| == k + 1 + |d| by {
      SpecLayout(name, w, d);
    }
    assert s[0..j] == name && s[j + 1..k] == w && s[k + 1..|s|] == d by {
      SpecLayout(name, w, d);
    }
    MatchAtStage(s, 0, j);
    MatchNumbersStage(s, 0, j, k);
    MatchSridStage(s, 0, j, k);
  }

  /**
    The item written as `name:wkbType:srid`, with the numbers in decimal,
    defines exactly that field when both numbers fit in a `long`.
   */
  lemma SpecRoundTrip(name: string, wkbType: nat, srid: nat)
    requires |name| > 0 && IsWord(name)
    requires wkbType <= LongMax && srid <= LongMax
    ensures ParseGeometryItem(name + ":" + NatToString(wkbType) + ":" + NatToString(srid))
         == Some(GeometryField(name, wkbType, srid))
  {
    var w, d := NatToString(wkbType), NatToString(srid);
    SpecMatch(name, w, d);
    ToLongOfNumber(wkbType);
    ToLongOfNumber(srid);
  }

  /** A match depends only on the text from its start on. */
  lemma {:induction false} WordRunShift(x: string, s: string, i: nat)
    requires i <= |s|
    ensures WordRun(x + s, |x| + i) == WordRun(s, i)
    decreases |s| - i
  {
    if i < |s| {
      assert (x + s)[|x| + i] == s[i];
      WordRunShift(x, s, i + 1);
    }
  }

  lemma {:induction false} DigitRunShift(x: string, s: string, i: nat)
    requires i <= |s|
    ensures DigitRun(x + s, |x| + i) == DigitRun(s, i)
    decreases |s| - i
  {
    if i < |s| {
      assert (x + s)[|x| + i] == s[i];
      DigitRunShift(x, s, i + 1);
    }
  }

  lemma SliceShift(x: string, s: string, a: nat, b: nat)
    requires a <= b <= |s|
    ensures (x + s)[|x| + a..|x| + b] == s[a..b]
  {
  }

  lemma MatchSridShift(x: string, s: string, p: nat, j: nat, k: nat)
    requires p < j && j + 1 < k < |s|
    ensures MatchSrid(x + s, |x| + p, |x| + j, |x| + k) == MatchSrid(s, p, j, k)
  {
    DigitRunShift(x, s, k + 1);
    var e := k + 1 + DigitRun(s, k + 1);
    SliceShift(x, s, p, j);
    SliceShift(x, s, j + 1, k);
    SliceShift(x, s, k + 1, e);
  }

  lemma {:induction false} MatchNumbersShift(x: string, s: string, p: nat, j: nat)
    requires p < j < |s|
    ensures MatchNumbers(x + s, |x| + p, |x| + j) == MatchNumbers(s, p, j)
  {
    DigitRunShift(x, s, j + 1);
    var k := j + 1 + DigitRun(s, j + 1);
    if k > j + 1 && k < |s| && s[k] == ':' {
      assert (x + s)[|x| + k] == s[k];
      MatchSridShift(x, s, p, j, k);
    } else if k < |s| {
      assert (x + s)[|x| + k] == s[k];
    }
  }

  lemma {:induction false} MatchAtShift(x: string, s: string, p: nat)
    requires p <= |s|
    ensures MatchAt(x + s, |x| + p) == MatchAt(s, p)
  {
    var t, o := x + s, |x|;
    WordRunShift(x, s, p);
    var j := p + WordRun(s, p);
    assert o + j == o + p + WordRun(t, o + p);
    if j == p || j >= |s| {
    } else if s[j] != ':' {
      assert t[o + j] == s[j];
    } else {
      assert t[o + j] == s[j];
      MatchAtStage(s, p, j);
      MatchAtStage(t, o + p, o + j);
      MatchNumbersShift(x, s, p, j);
    }
  }

  lemma {:induction false} FirstMatchShift(x: string, s: string, p: nat)
    requires p <= |s|
    ensures FirstMatch(x + s, |x| + p) == FirstMatch(s, p)
    decreases |s| - p
  {
    if p < |s| {
      MatchAtShift(x, s, p);
      FirstMatchShift(x, s, p + 1);
    }
  }

  /** No match starts inside text without `:` that ends in a character that cannot belong to a name. */
  lemma NoMatchInPrefix(x: string, value: string, p: nat)
    requires ':' !in x && p < |x| && !IsWordChar(x[|x| - 1])
    ensures MatchAt(x + value, p) == None
  {
    var t := x + value;
    var j := p + WordRun(t, p);
    WordRunChars(t, p);
    assert t[|x| - 1] == x[|x| - 1];
    if WordRun(t, p) > 0 {
      assert j <= |x| - 1;
      assert t[j] == x[j];
    }
  }

  /**
    The search is leftmost: text without `:` in front of the value, ending
    in a character that cannot belong to a name, changes nothing.
   */
  lemma {:induction false} LeadingTextIgnored(x: string, value: string, p: nat)
    requires ':' !in x && p <= |x|
    requires |x| == 0 || !IsWordChar(x[|x| - 1])
    ensures FirstMatch(x + value, p) == ParseGeometryItemCaptures(value)
    decreases |x| - p
  {
    if p == |x| {
      FirstMatchShift(x, value, 0);
    } else {
      NoMatchInPrefix(x, value, p);
      LeadingTextIgnored(x, value, p + 1);
    }
  }

  /** The captures `ParseGeometryItem` converts. */
  function ParseGeometryItemCaptures(value: string): Option<Captures> {
    FirstMatch(value, 0)
  }

  /** Text in front of a `geometry` value that holds no `:` and ends in a non-word character is skipped. */
  lemma LeadingTextKeepsField(x: string, value: string)
    requires ':' !in x && (|x| == 0 || !IsWordChar(x[|x| - 1]))
    ensures ParseGeometryItem(x + value) == ParseGeometryItem(value)
  {
    LeadingTextIgnored(x, value, 0);
  }
}
