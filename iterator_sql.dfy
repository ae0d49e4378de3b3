/**
  The SQL text the virtual-layer feature iterator sends to SQLite: quoted
  identifiers, the WHERE conditions derived from a feature request, the
  column list and the final SELECT statement.
 */
module IteratorSql {
  import opened Wrappers
  import opened Text
  import opened QtArg
  import opened Fields

  // ---------------------------------------------------------------------
  // quotedColumn: SQL identifier quoting

  /** Every `"` of `name` doubled, everything else kept. */
  function Escape(name: string): (r: string)
    ensures |r| == |name| + Count('"', name)
    ensures forall c :: c in r <==> c in name
    decreases |name|
  {
    if |name| == 0 then ""
    else
      assert name == [name[0]] + name[1..];
      (if name[0] == '"' then "\"\"" else [name[0]]) + Escape(name[1..])
  }

  function QuotedColumn(name: string): (r: string)
    ensures |r| == |name| + Count('"', name) + 2
    ensures r[0] == '"' && r[|r| - 1] == '"'
    ensures forall c :: c in r ==> c == '"' || c in name
  {
    "\"" + Escape(name) + "\""
  }

  /** A name without `"` needs no escaping. */
  lemma {:induction false} EscapeWithoutQuote(name: string)
    requires '"' !in name
    ensures Escape(name) == name
    decreases |name|
  {
    if |name| > 0 {
      EscapeWithoutQuote(name[1..]);
      assert name == [name[0]] + name[1..];
    }
  }

  /** Reads an escaped identifier body back; fails on a `"` that is not doubled. */
  function Unescape(s: string): Option<string>
    decreases |s|
  {
    if |s| == 0 then Some("")
    else if s[0] == '"' then
      if |s| >= 2 && s[1] == '"' then
        match Unescape(s[2..])
        case None => None
        case Some(t) => Some("\"" + t)
      else None
    else
      match Unescape(s[1..])
      case None => None
      case Some(t) => Some([s[0]] + t)
  }

  /** Reads a quoted SQL identifier back. */
  function Unquote(s: string): Option<string> {
    if |s| >= 2 && s[0] == '"' && s[|s| - 1] == '"' then Unescape(s[1..|s| - 1]) else None
  }

  lemma {:induction false} UnescapeEscape(name: string)
    ensures Unescape(Escape(name)) == Some(name)
    decreases |name|
  {
    if |name| > 0 {
      var e := Escape(name);
      UnescapeEscape(name[1..]);
      if name[0] == '"' {
        assert e[2..] == Escape(name[1..]);
      } else {
        assert e[1..] == Escape(name[1..]);
      }
      assert name == [name[0]] + name[1..];
    }
  }

  /** Quoting is undone by stripping the outer quotes and collapsing `""` to `"`. */
  lemma QuotedColumnRoundTrip(name: string)
    ensures Unquote(QuotedColumn(name)) == Some(name)
  {
    var q := QuotedColumn(name);
    assert q[1..|q| - 1] == Escape(name);
    UnescapeEscape(name);
  }

  lemma QuotedColumnInjective(a: string, b: string)
    requires QuotedColumn(a) == QuotedColumn(b)
    ensures a == b
  {
    QuotedColumnRoundTrip(a);
    QuotedColumnRoundTrip(b);
  }

  // ---------------------------------------------------------------------
  // The request and the layer definition

  /** The virtual layer definition: each part may be null. */
  datatype Definition = Definition(query: Option<string>, uid: Option<string>, geometryField: Option<string>)

  /**
    The request's filter. `mbr` is the rectangle already rendered as
    "xmin,ymin,xmax,ymax"; fids are listed in the set's iteration order.
   */
  datatype Filter = NoFilter | FilterRect(mbr: string) | FilterFid(fid: int) | FilterFids(fids: seq<int>)

  /** A feature request: its filter, its flags, and the attribute list when SubsetOfAttributes is set. */
  datatype Request = Request(
    filter: Filter,
    exactIntersect: bool,
    noGeometry: bool,
    subsetOfAttributes: Option<seq<int>>)

  // ---------------------------------------------------------------------
  // WHERE conditions

  function RectCondition(exact: bool, geometryColumn: string, mbr: string): string {
    (if exact then "Mbr" else "") + "Intersects(" + QuotedColumn(geometryColumn) + ",BuildMbr(" + mbr + "))"
  }

  function FidCondition(uid: string, fid: int): string {
    QuotedColumn(uid) + "=" + IntToString(fid)
  }

  function FidTexts(fids: seq<int>): seq<string> {
    seq(|fids|, i requires 0 <= i < |fids| => IntToString(fids[i]))
  }

  function FidsCondition(uid: string, fids: seq<int>): string {
    QuotedColumn(uid) + " IN (" + Join(",", FidTexts(fids)) + ")"
  }

  /** The condition the request's filter contributes: at most one, and only when its column is defined. */
  function FilterCondition(def: Definition, req: Request): (r: seq<string>)
    ensures |r| <= 1
    ensures r != [] <==>
      || (req.filter.FilterRect? && def.geometryField.Some?)
      || ((req.filter.FilterFid? || req.filter.FilterFids?) && def.uid.Some?)
  {
    if def.geometryField.Some? && req.filter.FilterRect? then
      [RectCondition(req.exactIntersect, def.geometryField.value, req.filter.mbr)]
    else if def.uid.Some? && req.filter.FilterFid? then
      [FidCondition(def.uid.value, req.filter.fid)]
    else if def.uid.Some? && req.filter.FilterFids? then
      [FidsCondition(def.uid.value, req.filter.fids)]
    else []
  }

  function Conditions(subset: Option<string>, def: Definition, req: Request): (r: seq<string>)
    ensures |r| <= 2
    ensures r == [] <==> subset.None? && FilterCondition(def, req) == []
    ensures subset.Some? ==> r[0] == subset.value
    ensures r[|r| - |FilterCondition(def, req)|..] == FilterCondition(def, req)
  {
    (if subset.Some? then [subset.value] else []) + FilterCondition(def, req)
  }

  /** The `wheres` list: the subset string, then the first filter condition that applies. */
  method BuildConditions(subset: Option<string>, def: Definition, req: Request) returns (wheres: seq<string>)
    ensures wheres == Conditions(subset, def, req)
  {
    wheres := [];
    if subset.Some? {
      wheres := wheres + [subset.value];
    }
    if def.geometryField.Some? && req.filter.FilterRect? {
      wheres := wheres + [RectCondition(req.exactIntersect, def.geometryField.value, req.filter.mbr)];
    } else if def.uid.Some? && req.filter.FilterFid? {
      wheres := wheres + [FidCondition(def.uid.value, req.filter.fid)];
    } else if def.uid.Some? && req.filter.FilterFids? {
      var values := BuildFidsCondition(def.uid.value, req.filter.fids);
      wheres := wheres + [values];
    }
  }

  /**
    The IN list holds the ids in order, separated by single commas: splitting
    it at the commas and reading each piece as a number gives the ids back.
   */
  lemma FidsListRoundTrip(fids: seq<int>)
    requires |fids| > 0
    ensures var parts := Split(Join(",", FidTexts(fids)), ',');
      && |parts| == |fids|
      && forall i :: 0 <= i < |fids| ==> IsNumeral(parts[i]) && ParseInt(parts[i]) == fids[i]
    ensures Count(',', Join(",", FidTexts(fids))) == |fids| - 1
  {
    var xs := FidTexts(fids);
    forall i | 0 <= i < |xs|
      ensures ',' !in xs[i]
    {
      var t := IntToString(fids[i]);
      assert forall k :: 0 <= k < |t| ==> t[k] != ',';
    }
    assert "," == [','];
    SplitJoin(xs, ',');
    JoinSeparatorCount(xs, ',');
    forall i | 0 <= i < |fids|
      ensures IsNumeral(xs[i]) && ParseInt(xs[i]) == fids[i]
    {
      ParseIntRoundTrip(fids[i]);
    }
  }

  /** The fid condition names the uid column and the requested id: both read back from the text. */
  lemma FidConditionDecodes(uid: string, fid: int)
    ensures var c := FidCondition(uid, fid);
      var k := |QuotedColumn(uid)|;
      && k < |c| && Unquote(c[..k]) == Some(uid) && c[k] == '='
      && IsNumeral(c[k + 1..]) && ParseInt(c[k + 1..]) == fid
  {
    var q, n := QuotedColumn(uid), IntToString(fid);
    var c := q + "=" + n;
    assert c[..|q|] == q;
    assert c[|q| + 1..] == n;
    QuotedColumnRoundTrip(uid);
    ParseIntRoundTrip(fid);
  }

  /**
    The rectangle condition names the geometry column: after the optional
    `Mbr` prefix and `Intersects(`, the quoted column reads back to it,
    and the rectangle follows `,BuildMbr(`.
   */
  lemma RectConditionDecodes(exact: bool, geometryColumn: string, mbr: string)
    ensures var p := if exact then "Mbr" else "";
      var c := RectCondition(exact, geometryColumn, mbr);
      var a := |p| + |"Intersects("|;
      var b := a + |QuotedColumn(geometryColumn)|;
      && b <= |c| && c[..a] == p + "Intersects(" && Unquote(c[a..b]) == Some(geometryColumn)
      && c[b..] == ",BuildMbr(" + mbr + "))"
  {
    var p := if exact then "Mbr" else "";
    var q := QuotedColumn(geometryColumn);
    var x, y := p + "Intersects(", ",BuildMbr(" + mbr + "))";
    assert RectCondition(exact, geometryColumn, mbr) == x + q + y;
    var c := x + q + y;
    assert c[..|x|] == x;
    assert c[|x|..|x| + |q|] == q;
    assert c[|x| + |q|..] == y;
    QuotedColumnRoundTrip(geometryColumn);
  }

  lemma FidTextsSnoc(fids: seq<int>, i: nat)
    requires i < |fids|
    ensures FidTexts(fids[..i + 1]) == FidTexts(fids[..i]) + [IntToString(fids[i])]
  {
  }

  /** One more text in a comma-separated list that follows `head`, with a comma unless it is the first. */
  lemma AppendToList(head: string, values: string, texts: seq<string>, text: string, first: bool)
    requires values == head + Join(",", texts)
    requires first <==> texts == []
    ensures (if first then values else values + ",") + text == head + Join(",", texts + [text])
  {
    if texts == [] {
      assert texts + [text] == [text];
    } else {
      JoinSnoc(",", texts, text);
    }
  }

  /** The fids loop: values joined with a `first` flag between "IN (" and ")". */
  method BuildFidsCondition(uid: string, fids: seq<int>) returns (values: string)
    ensures values == FidsCondition(uid, fids)
  {
    var head := QuotedColumn(uid) + " IN (";
    values := head;
    var first := true;
    var i := 0;
    while i < |fids|
      invariant 0 <= i <= |fids|
      invariant first <==> i == 0
      invariant values == head + Join(",", FidTexts(fids[..i]))
    {
      ghost var texts := FidTexts(fids[..i]);
      var text := IntToString(fids[i]);
      FidTextsSnoc(fids, i);
      AppendToList(head, values, texts, text, first);
      if !first {
        values := values + ",";
      }
      first := false;
      values := values + text;
      i := i + 1;
    }
    assert fids[..i] == fids;
    assert values == head + Join(",", FidTexts(fids));
    values := values + ")";
  }

  // ---------------------------------------------------------------------
  // The chained QString::arg calls exactly as the source writes them

  const RectTemplate: string := "%1Intersects(%2,BuildMbr(%3))"
  const FidTemplate: string := "%1=%2"

  function RectConditionAsWritten(exact: bool, geometryColumn: string, mbr: string): string {
    Arg(Arg(Arg(RectTemplate, if exact then "Mbr" else ""), QuotedColumn(geometryColumn)), mbr)
  }

  /**
    The second call is Qt's integer overload; the fid is given as its decimal
    text, which is what that overload inserts for a `%N` marker (a `%LN`
    marker would get the locale's digit grouping instead).
   */
  function FidConditionAsWritten(uid: string, fid: int): string {
    Arg(Arg(FidTemplate, QuotedColumn(uid)), IntToString(fid))
  }

  /** The fid template is `%1`, `=`, `%2`. */
  lemma FidTemplateShape()
    ensures FidTemplate == "" + (['%', '1'] + ("=" + (['%', '2'] + "")))
  {
  }

  /** The plain pieces of the fid template hold no `%` and do not start with a digit. */
  lemma FidPiecesPlain()
    ensures '%' !in "" && '%' !in "=" && '%' !in "\"=" && !IsDigit("="[0]) && !IsDigit("\"="[0])
  {
  }

  /** While the uid holds no `%`, the chained `.arg` calls build the intended condition. */
  lemma FidConditionAsWrittenAgrees(uid: string, fid: int)
    requires '%' !in uid
    ensures FidConditionAsWritten(uid, fid) == FidCondition(uid, fid)
  {
    var q, num := QuotedColumn(uid), IntToString(fid);
    FidTemplateShape();
    FidPiecesPlain();
    ChainOfTwo("", '1', "=", '2', "", q, num);
    assert "" + q == q;
    assert q + "=" + num + "" == q + "=" + num;
  }

  /** The quoted form of a two-character name without `"`. */
  lemma QuotedPair(name: string)
    requires |name| == 2 && name[0] != '"' && name[1] != '"'
    ensures QuotedColumn(name) == "\"" + (name + "\"")
  {
    assert name[1..][1..] == "";
    assert Escape(name) == [name[0]] + ([name[1]] + "");
    assert [name[0]] + ([name[1]] + "") == name;
  }

  /** The first `.arg` puts the quoted uid `"%2"` into the fid template. */
  lemma FidFirstArgOfMarkerUid(uid: string)
    requires uid == "%2"
    ensures Arg(FidTemplate, QuotedColumn(uid)) == "\"" + (['%', '2'] + ("\"=" + (['%', '2'] + "")))
  {
    QuotedPair(uid);
    var q := QuotedColumn(uid);
    assert q == "\"" + (['%', '2'] + "\"");
    FidTemplateShape();
    FidPiecesPlain();
    ArgOfPair("", '1', "=", '2', "", q);
    assert "" + (q + ("=" + (['%', '2'] + ""))) == "\"" + (['%', '2'] + ("\"=" + (['%', '2'] + "")));
  }

  /**
    A uid named `%2` is rewritten by the second `.arg`: the condition
    compares the id with itself instead of with the uid column.
   */
  lemma FidConditionAsWrittenRewritesMarker(uid: string, fid: int)
    requires uid == "%2"
    ensures FidCondition(uid, fid) == "\"%2\"=" + IntToString(fid)
    ensures FidConditionAsWritten(uid, fid) == "\"" + IntToString(fid) + "\"=" + IntToString(fid)
  {
    var num := IntToString(fid);
    assert FidCondition(uid, fid) == "\"%2\"=" + num by {
      QuotedPair(uid);
    }
    FidFirstArgOfMarkerUid(uid);
    FidPiecesPlain();
    assert '%' !in "\"" && '%' !in num;
    ArgOfPair("\"", '2', "\"=", '2', "", num);
  }

  /** The rectangle template is `%1`, `Intersects(`, `%2`, `,BuildMbr(`, `%3`, `))`. */
  lemma RectTemplateShape()
    ensures RectTemplate == "" + (['%', '1'] + ("Intersects(" + (['%', '2'] + (",BuildMbr(" + (['%', '3'] + "))")))))
  {
  }

  /** The plain pieces of the rectangle template hold no `%` and do not start with a digit. */
  lemma RectPiecesPlain()
    ensures '%' !in "Intersects(" && '%' !in ",BuildMbr(" && '%' !in "))" && '%' !in "Mbr"
    ensures !IsDigit("Intersects("[0]) && !IsDigit(",BuildMbr("[0]) && !IsDigit("))"[0])
  {
  }

  /** While the geometry column holds no `%`, the chained `.arg` calls build the intended condition. */
  lemma RectConditionAsWrittenAgrees(exact: bool, geometryColumn: string, mbr: string)
    requires '%' !in geometryColumn
    ensures RectConditionAsWritten(exact, geometryColumn, mbr) == RectCondition(exact, geometryColumn, mbr)
  {
    var p := if exact then "Mbr" else "";
    RectTemplateShape();
    RectPiecesPlain();
    ChainOfThree("", "Intersects(", ",BuildMbr(", "))", p, QuotedColumn(geometryColumn), mbr);
    assert "" + p == p;
  }

  lemma Regroup(x: string, q: string, m: string, d: string, e: string, f: string)
    ensures (x + q) + (m + ((q + d) + (e + f))) == x + (q + m + q) + d + e + f
  {
  }

  /**
    A geometry column named `%2` receives the rectangle from the third
    `.arg`, and `%3` is left where the rectangle belongs: the text is the
    intended condition for a column named after the rectangle and a
    rectangle `%3`, not the intended one.
   */
  lemma RectConditionAsWrittenRewritesMarker(exact: bool, geometryColumn: string, mbr: string)
    requires geometryColumn == "%2" && '%' !in mbr && '"' !in mbr
    ensures RectConditionAsWritten(exact, geometryColumn, mbr) == RectCondition(exact, mbr, "%3")
    ensures RectConditionAsWritten(exact, geometryColumn, mbr) != RectCondition(exact, geometryColumn, mbr)
  {
    CapturedChain(exact, geometryColumn, mbr);
    CapturedIntended(exact, mbr);
    CapturedDiffers(exact, geometryColumn, mbr);
  }

  /** The text the chained calls leave for a column named `%2`. */
  function CapturedText(p: string, mbr: string): string {
    (p + "Intersects(" + "\"") + (mbr + (("\"" + ",BuildMbr(") + (['%', '3'] + "))")))
  }

  lemma CapturedChain(exact: bool, geometryColumn: string, mbr: string)
    requires geometryColumn == "%2" && '%' !in mbr
    ensures RectConditionAsWritten(exact, geometryColumn, mbr) == CapturedText(if exact then "Mbr" else "", mbr)
  {
    var p := if exact then "Mbr" else "";
    var quote := "\"";
    var i0, i1, i2 := "Intersects(", ",BuildMbr(", "))";
    QuotedPair(geometryColumn);
    assert QuotedColumn(geometryColumn) == quote + (['%', '2'] + quote);
    RectTemplateShape();
    RectPiecesPlain();
    ChainOfThreeCaptured("", i0, i1, i2, p, quote, quote, mbr);
    assert "" + p == p;
  }

  lemma CapturedDiffers(exact: bool, geometryColumn: string, mbr: string)
    requires geometryColumn == "%2" && '%' !in mbr
    ensures RectCondition(exact, geometryColumn, mbr) != CapturedText(if exact then "Mbr" else "", mbr)
  {
    var p := if exact then "Mbr" else "";
    var k := |p| + |"Intersects("| + 1;
    QuotedPair(geometryColumn);
    assert RectCondition(exact, geometryColumn, mbr)[k] == '%';
    assert CapturedText(p, mbr)[k] == (mbr + "\"")[0];
  }

  lemma CapturedIntended(exact: bool, mbr: string)
    requires '"' !in mbr
    ensures RectCondition(exact, mbr, "%3") == CapturedText(if exact then "Mbr" else "", mbr)
  {
    var p := if exact then "Mbr" else "";
    var quote := "\"";
    EscapeWithoutQuote(mbr);
    assert QuotedColumn(mbr) == quote + mbr + quote;
    assert "%3" == ['%', '3'];
    Regroup(p + "Intersects(", quote, mbr, ",BuildMbr(", ['%', '3'], "))");
  }

  // ---------------------------------------------------------------------
  // The selected fields and the column list

  predicate AttributeIndicesValid(req: Request, fieldCount: nat) {
    req.subsetOfAttributes.Some? ==>
      forall k :: 0 <= k < |req.subsetOfAttributes.value| ==> 0 <= req.subsetOfAttributes.value[k] < fieldCount
  }

  function Names(fields: seq<Field>): seq<string> {
    seq(|fields|, i requires 0 <= i < |fields| => fields[i].name)
  }

  predicate DistinctNames(fields: seq<Field>) {
    forall i, j :: 0 <= i < j < |fields| ==> fields[i].name != fields[j].name
  }

  /** The position of the first occurrence of `n` in `ns`. */
  function FirstIndex(ns: seq<string>, n: string): (k: nat)
    requires n in ns
    ensures k < |ns| && ns[k] == n && n !in ns[..k]
  {
    if ns[0] == n then 0
    else
      assert n in ns[1..];
      var k := FirstIndex(ns[1..], n);
      assert ns[..k + 1] == [ns[0]] + ns[1..][..k];
      k + 1
  }

  lemma FirstIndexUnique(ns: seq<string>, n: string, k: nat)
    requires k < |ns| && ns[k] == n && n !in ns[..k]
    ensures FirstIndex(ns, n) == k
  {
    var f := FirstIndex(ns, n);
    assert forall i :: 0 <= i < k ==> ns[..k][i] == ns[i];
    assert forall i :: 0 <= i < f ==> ns[..f][i] == ns[i];
  }

  lemma NamesSnoc(fields: seq<Field>, f: Field)
    ensures Names(fields + [f]) == Names(fields) + [f.name]
  {
  }

  /** A name already present keeps its first position when another is appended. */
  lemma FirstIndexSnoc(ns: seq<string>, m: string, n: string)
    requires n in ns
    ensures FirstIndex(ns + [m], n) == FirstIndex(ns, n)
  {
    var k := FirstIndex(ns, n);
    assert (ns + [m])[..k] == ns[..k];
    FirstIndexUnique(ns + [m], n, k);
  }

  /** A new name appended last is first found at the end. */
  lemma FirstIndexOfNew(ns: seq<string>, m: string)
    requires m !in ns
    ensures FirstIndex(ns + [m], m) == |ns|
  {
    assert (ns + [m])[..|ns|] == ns;
    FirstIndexUnique(ns + [m], m, |ns|);
  }

  /**
    `QgsFields::append`: a field whose name is already present is refused and
    the list is left as it was; otherwise the field goes at the end.
   */
  function AppendField(fields: seq<Field>, f: Field): (r: seq<Field>)
    ensures f.name in Names(r)
    ensures r == fields || r == fields + [f]
    ensures r == fields <==> f.name in Names(fields)
    ensures DistinctNames(fields) ==> DistinctNames(r)
  {
    if f.name in Names(fields) then fields
    else
      assert forall i :: 0 <= i < |fields| ==> Names(fields)[i] == fields[i].name;
      assert Names(fields + [f])[|fields|] == f.name;
      fields + [f]
  }

  /** Each field appended in turn to an initially empty list. */
  function AppendEach(xs: seq<Field>): seq<Field> {
    if |xs| == 0 then [] else AppendField(AppendEach(xs[..|xs| - 1]), xs[|xs| - 1])
  }

  /** Every name of `xs` is the name of some field of `r`. */
  predicate CoversNames(xs: seq<Field>, r: seq<Field>) {
    forall k :: 0 <= k < |xs| ==> xs[k].name in Names(r)
  }

  /** Each field of `r` is the first field of `xs` with its name. */
  predicate FirstOfEachName(xs: seq<Field>, r: seq<Field>) {
    forall i :: 0 <= i < |r| ==> r[i].name in Names(xs) && r[i] == xs[FirstIndex(Names(xs), r[i].name)]
  }

  /** The fields of `r` follow the order of their names' first positions in `xs`. */
  predicate InFirstOrder(xs: seq<Field>, r: seq<Field>)
    requires forall i :: 0 <= i < |r| ==> r[i].name in Names(xs)
  {
    forall i, j :: 0 <= i < j < |r| ==> FirstIndex(Names(xs), r[i].name) < FirstIndex(Names(xs), r[j].name)
  }

  /**
    Appending in turn keeps exactly the first field of each name, in the order
    of those first occurrences: the names are distinct, every name of `xs` is
    kept, each kept field is the first of its name in `xs`, and the kept fields
    are ordered by the positions of those first occurrences.
   */
  lemma {:induction false} AppendEachFirstOccurrences(xs: seq<Field>)
    ensures var r := AppendEach(xs);
      DistinctNames(r) && CoversNames(xs, r) && FirstOfEachName(xs, r) && InFirstOrder(xs, r)
  {
    if |xs| == 0 {
      return;
    }
    var ys, f := xs[..|xs| - 1], xs[|xs| - 1];
    assert xs == ys + [f];
    AppendEachFirstOccurrences(ys);
    var p := AppendEach(ys);
    if f.name in Names(p) {
      SnocIndices(ys, p, f);
      RefusedCovers(ys, p, f);
      FirstOfEachNameSnoc(ys, p, f);
      InFirstOrderSnoc(ys, p, f);
    } else {
      AcceptedIndices(ys, p, f);
      SnocIndices(ys, p, f);
      AcceptedCovers(ys, p, f);
      FirstOfEachNameSnoc(ys, p, f);
      AcceptedFirstOfEachName(ys, p, f);
      InFirstOrderSnoc(ys, p, f);
      AcceptedInFirstOrder(ys, p, f);
    }
  }

  /** Appending `f` to the input moves no kept name's first position. */
  lemma SnocIndices(ys: seq<Field>, p: seq<Field>, f: Field)
    requires FirstOfEachName(ys, p)
    ensures Names(ys + [f]) == Names(ys) + [f.name]
    ensures forall i :: 0 <= i < |p| ==> FirstIndex(Names(ys + [f]), p[i].name) == FirstIndex(Names(ys), p[i].name)
  {
    NamesSnoc(ys, f);
    forall i | 0 <= i < |p|
      ensures FirstIndex(Names(ys + [f]), p[i].name) == FirstIndex(Names(ys), p[i].name)
    {
      FirstIndexSnoc(Names(ys), f.name, p[i].name);
    }
  }

  lemma RefusedCovers(ys: seq<Field>, p: seq<Field>, f: Field)
    requires CoversNames(ys, p) && f.name in Names(p)
    ensures CoversNames(ys + [f], p)
  {
    var xs := ys + [f];
    forall k | 0 <= k < |xs|
      ensures xs[k].name in Names(p)
    {
      if k < |ys| {
        assert xs[k] == ys[k];
      }
    }
  }

  lemma FirstOfEachNameSnoc(ys: seq<Field>, p: seq<Field>, f: Field)
    requires FirstOfEachName(ys, p)
    requires Names(ys + [f]) == Names(ys) + [f.name]
    requires forall i :: 0 <= i < |p| ==> FirstIndex(Names(ys + [f]), p[i].name) == FirstIndex(Names(ys), p[i].name)
    ensures FirstOfEachName(ys + [f], p)
  {
    var xs := ys + [f];
    forall i | 0 <= i < |p|
      ensures p[i].name in Names(xs) && p[i] == xs[FirstIndex(Names(xs), p[i].name)]
    {
      var k := FirstIndex(Names(ys), p[i].name);
      assert xs[k] == ys[k];
    }
  }

  lemma InFirstOrderSnoc(ys: seq<Field>, p: seq<Field>, f: Field)
    requires FirstOfEachName(ys, p) && InFirstOrder(ys, p)
    requires Names(ys + [f]) == Names(ys) + [f.name]
    requires forall i :: 0 <= i < |p| ==> FirstIndex(Names(ys + [f]), p[i].name) == FirstIndex(Names(ys), p[i].name)
    ensures forall i :: 0 <= i < |p| ==> p[i].name in Names(ys + [f])
    ensures InFirstOrder(ys + [f], p)
  {
  }

  /** When `f`'s name is new, no earlier field has it and its first position is the last. */
  lemma AcceptedIndices(ys: seq<Field>, p: seq<Field>, f: Field)
    requires CoversNames(ys, p) && FirstOfEachName(ys, p)
    requires f.name !in Names(p)
    ensures f.name !in Names(ys)
    ensures f.name in Names(ys + [f]) && FirstIndex(Names(ys + [f]), f.name) == |ys|
    ensures forall i :: 0 <= i < |p| ==> FirstIndex(Names(ys), p[i].name) < |ys|
  {
    NamesSnoc(ys, f);
    forall k | 0 <= k < |ys|
      ensures Names(ys)[k] != f.name
    {
      assert ys[k].name in Names(p);
    }
    FirstIndexOfNew(Names(ys), f.name);
  }

  lemma AcceptedCovers(ys: seq<Field>, p: seq<Field>, f: Field)
    requires CoversNames(ys, p)
    ensures CoversNames(ys + [f], p + [f])
  {
    var xs, r := ys + [f], p + [f];
    NamesSnoc(p, f);
    forall k | 0 <= k < |xs|
      ensures xs[k].name in Names(r)
    {
      if k < |ys| {
        assert xs[k] == ys[k];
      }
    }
  }

  lemma AcceptedFirstOfEachName(ys: seq<Field>, p: seq<Field>, f: Field)
    requires FirstOfEachName(ys + [f], p)
    requires f.name in Names(ys + [f]) && FirstIndex(Names(ys + [f]), f.name) == |ys|
    ensures FirstOfEachName(ys + [f], p + [f])
  {
  }

  lemma AcceptedInFirstOrder(ys: seq<Field>, p: seq<Field>, f: Field)
    requires FirstOfEachName(ys + [f], p) && InFirstOrder(ys + [f], p)
    requires forall i :: 0 <= i < |p| ==> FirstIndex(Names(ys + [f]), p[i].name) < |ys|
    requires f.name in Names(ys + [f]) && FirstIndex(Names(ys + [f]), f.name) == |ys|
    ensures FirstOfEachName(ys + [f], p + [f])
    ensures InFirstOrder(ys + [f], p + [f])
  {
  }

  /** A list without repeated names is appended in full. */
  lemma {:induction false} AppendEachKeepsDistinct(xs: seq<Field>)
    requires DistinctNames(xs)
    ensures AppendEach(xs) == xs
  {
    if |xs| > 0 {
      var ys, f := xs[..|xs| - 1], xs[|xs| - 1];
      assert DistinctNames(ys);
      AppendEachKeepsDistinct(ys);
      assert forall k :: 0 <= k < |ys| ==> Names(ys)[k] != f.name;
      assert xs == ys + [f];
    }
  }

  /** The fields the request names, in request order and with repeats. */
  function RequestedFields(providerFields: seq<Field>, idxs: seq<int>): seq<Field>
    requires forall k :: 0 <= k < |idxs| ==> 0 <= idxs[k] < |providerFields|
  {
    seq(|idxs|, k requires 0 <= k < |idxs| => providerFields[idxs[k]])
  }

  /**
    The provider's fields, or the requested subset of them appended one by one,
    so that a repeated name is kept only at its first request.
   */
  function SelectedFields(providerFields: seq<Field>, req: Request): seq<Field>
    requires AttributeIndicesValid(req, |providerFields|)
  {
    match req.subsetOfAttributes
    case None => providerFields
    case Some(idxs) => AppendEach(RequestedFields(providerFields, idxs))
  }

  method SelectFields(providerFields: seq<Field>, req: Request) returns (fields: seq<Field>)
    requires AttributeIndicesValid(req, |providerFields|)
    ensures fields == SelectedFields(providerFields, req)
  {
    if req.subsetOfAttributes.Some? {
      var idxs := req.subsetOfAttributes.value;
      ghost var requested := RequestedFields(providerFields, idxs);
      fields := [];
      for k := 0 to |idxs|
        invariant fields == AppendEach(requested[..k])
      {
        var f := providerFields[idxs[k]];
        assert requested[..k + 1][..k] == requested[..k];
        if f.name !in Names(fields) {
          fields := fields + [f];
        }
      }
      assert requested[..|idxs|] == requested;
    } else {
      fields := providerFields;
    }
  }

  /** The geometry column is selected unless NoGeometry is set or the definition has none. */
  function SelectedGeometry(def: Definition, req: Request): Option<string> {
    if !req.noGeometry && def.geometryField.Some? then def.geometryField else None
  }

  function FieldColumn(f: Field): string {
    QuotedColumn(Lower(f.name))
  }

  /** The selected columns, one entry per column of the result. */
  function ColumnNames(uid: Option<string>, fields: seq<Field>, geometry: Option<string>): seq<string> {
    [if uid.Some? then QuotedColumn(uid.value) else "0"]
    + seq(|fields|, i requires 0 <= i < |fields| => FieldColumn(fields[i]))
    + (if geometry.Some? then [QuotedColumn(geometry.value)] else [])
  }

  /**
    Column 0 is the uid (or the constant 0), attribute i is column i + 1
    under its lower-cased name, and the geometry, when selected, is last.
   */
  lemma ColumnLayout(uid: Option<string>, fields: seq<Field>, geometry: Option<string>)
    ensures var names := ColumnNames(uid, fields, geometry);
      && |names| == |fields| + 1 + (if geometry.Some? then 1 else 0)
      && (uid.None? ==> names[0] == "0")
      && (uid.Some? ==> Unquote(names[0]) == uid)
      && (forall i :: 0 <= i < |fields| ==> Unquote(names[i + 1]) == Some(Lower(fields[i].name)))
      && (geometry.Some? ==> Unquote(names[|names| - 1]) == geometry)
  {
    var names := ColumnNames(uid, fields, geometry);
    if uid.Some? {
      QuotedColumnRoundTrip(uid.value);
    }
    forall i | 0 <= i < |fields|
      ensures Unquote(names[i + 1]) == Some(Lower(fields[i].name))
    {
      QuotedColumnRoundTrip(Lower(fields[i].name));
    }
    if geometry.Some? {
      QuotedColumnRoundTrip(geometry.value);
    }
  }

  lemma ColumnNamesSnoc(uid: Option<string>, fields: seq<Field>, f: Field)
    ensures ColumnNames(uid, fields + [f], None) == ColumnNames(uid, fields, None) + [FieldColumn(f)]
  {
    var xs := fields + [f];
    assert seq(|xs|, i requires 0 <= i < |xs| => FieldColumn(xs[i]))
        == seq(|fields|, i requires 0 <= i < |fields| => FieldColumn(fields[i])) + [FieldColumn(f)];
  }

  lemma ColumnNamesGeometry(uid: Option<string>, fields: seq<Field>, geometry: Option<string>)
    ensures ColumnNames(uid, fields, geometry)
         == ColumnNames(uid, fields, None) + (if geometry.Some? then [QuotedColumn(geometry.value)] else [])
  {
  }

  /** The column loop: the uid or 0, then ","-prefixed field columns, then the geometry. */
  method BuildColumnList(uid: Option<string>, fields: seq<Field>, geometry: Option<string>) returns (columns: string)
    ensures columns == Join(",", ColumnNames(uid, fields, geometry))
  {
    if uid.Some? {
      columns := QuotedColumn(uid.value);
    } else {
      columns := "0";
    }
    assert ColumnNames(uid, fields[..0], None) == [columns];
    for i := 0 to |fields|
      invariant columns == Join(",", ColumnNames(uid, fields[..i], None))
    {
      assert fields[..i + 1] == fields[..i] + [fields[i]];
      ColumnNamesSnoc(uid, fields[..i], fields[i]);
      JoinSnoc(",", ColumnNames(uid, fields[..i], None), FieldColumn(fields[i]));
      columns := columns + ",";
      var cname := Lower(fields[i].name);
      columns := columns + QuotedColumn(cname);
    }
    assert fields[..|fields|] == fields;
    ColumnNamesGeometry(uid, fields, geometry);
    if geometry.Some? {
      JoinSnoc(",", ColumnNames(uid, fields, None), QuotedColumn(geometry.value));
      columns := columns + "," + QuotedColumn(geometry.value);
    } else {
      assert ColumnNames(uid, fields, None) + [] == ColumnNames(uid, fields, None);
    }
  }

  // ---------------------------------------------------------------------
  // The statement

  function SelectText(columns: string, query: string, wheres: seq<string>): string {
    "SELECT " + columns + " FROM (" + query + ")"
    + (if |wheres| == 0 then "" else " WHERE " + Join(" AND ", wheres))
  }

  lemma SelectTextShape(columns: string, query: string, wheres: seq<string>)
    ensures |wheres| == 0 ==> SelectText(columns, query, wheres) == "SELECT " + columns + " FROM (" + query + ")"
    ensures |wheres| > 0 ==> SelectText(columns, query, wheres) == "SELECT " + columns + " FROM (" + query + ")" + " WHERE " + Join(" AND ", wheres)
  {
  }

  /** The statement for a definition, a subset string, a request and the selected fields. */
  function QueryText(def: Definition, subset: Option<string>, req: Request, fields: seq<Field>): string {
    SelectText(
      Join(",", ColumnNames(def.uid, fields, SelectedGeometry(def, req))),
      def.query.GetOr(""),
      Conditions(subset, def, req))
  }

  /** The joined `wheres` list for an optional subset string and at most one filter condition. */
  lemma JoinConditions(subset: Option<string>, filter: seq<string>)
    requires |filter| <= 1
    ensures var wheres := (if subset.Some? then [subset.value] else []) + filter;
      && (wheres == [] <==> subset.None? && filter == [])
      && (subset.None? && filter != [] ==> Join(" AND ", wheres) == filter[0])
      && (subset.Some? && filter == [] ==> Join(" AND ", wheres) == subset.value)
      && (subset.Some? && filter != [] ==> Join(" AND ", wheres) == subset.value + " AND " + filter[0])
  {
    var wheres := (if subset.Some? then [subset.value] else []) + filter;
    if subset.Some? && filter != [] {
      assert wheres == [subset.value, filter[0]];
      assert wheres[..1] == [subset.value];
    }
  }

  /**
    The WHERE clause: absent when there is nothing to filter, otherwise the
    subset string first and the filter's condition after it. `QueryText`
    passes `Conditions`, which is the subset string followed by the
    filter's condition.
   */
  lemma WhereClause(columns: string, query: string, subset: Option<string>, filter: seq<string>)
    requires |filter| <= 1
    ensures var base := "SELECT " + columns + " FROM (" + query + ")";
      var text := SelectText(columns, query, (if subset.Some? then [subset.value] else []) + filter);
      && (subset.None? && filter == [] ==> text == base)
      && (subset.None? && filter != [] ==> text == base + " WHERE " + filter[0])
      && (subset.Some? && filter == [] ==> text == base + " WHERE " + subset.value)
      && (subset.Some? && filter != [] ==> text == base + " WHERE " + subset.value + " AND " + filter[0])
  {
    var base := "SELECT " + columns + " FROM (" + query + ")";
    var wheres := (if subset.Some? then [subset.value] else []) + filter;
    JoinConditions(subset, filter);
    if wheres == [] {
      assert SelectText(columns, query, wheres) == base + "";
    } else {
      assert SelectText(columns, query, wheres) == base + (" WHERE " + Join(" AND ", wheres));
    }
  }
}
