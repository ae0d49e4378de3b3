/**
  The virtual-layer feature iterator: the SELECT statement it prepares
  from a feature request, and the fetch / rewind / close state machine
  over the statement's rows.

  SQLite is not part of this model: the rows the statement yields are an
  input (a `ResultSet`), and a cell is kept as SQLite returns it, together
  with the accessor (`column_int`, `column_double`, `column_text`) the
  iterator reads it with.
 */
module FeatureIteration {
  import opened Wrappers
  import opened Text
  import opened Fields
  import opened IteratorSql

  // ---------------------------------------------------------------------
  // Query results and features

  datatype SqlValue = SqlInteger(i: int) | SqlReal(r: real) | SqlText(t: string) | SqlBlob(b: seq<bv8>) | SqlNull

  /** The rows of a prepared statement, each with the statement's column count. */
  datatype ResultSet = ResultSet(columnCount: nat, rows: seq<seq<SqlValue>>) {
    predicate WellFormed() {
      forall r :: 0 <= r < |rows| ==> |rows[r]| == columnCount
    }
  }

  /** An attribute as read from its cell: by column_int, column_double or column_text. */
  datatype AttrValue = IntValue(cell: SqlValue) | DoubleValue(cell: SqlValue) | TextValue(cell: SqlValue)

  /** A feature id: the running counter when the layer has no uid, otherwise column_int64 of column 0. */
  datatype FeatureId = AutoId(n: int) | ColumnId(cell: SqlValue)

  /** A fetched feature; an attribute the iterator does not read stays null (`None`). */
  datatype Feature = Feature(id: FeatureId, attributes: seq<Option<AttrValue>>, geometry: Option<SqlValue>)

  /** What an iterator reads from: the selected fields, whether the uid is null, and the statement's rows. */
  datatype QuerySource = QuerySource(fields: seq<Field>, uidIsNull: bool, result: ResultSet) {
    predicate Valid() {
      result.WellFormed() && result.columnCount >= |fields| + 1
    }
  }

  /** The attribute for field `f` read from column `column` of `row`. */
  function ReadAttribute(f: Field, row: seq<SqlValue>, column: nat): (r: Option<AttrValue>)
    requires column < |row|
    ensures r.None? <==> f.attrType == Other
    ensures r.Some? ==> r.value.cell == row[column]
  {
    match f.attrType
    case Int => Some(IntValue(row[column]))
    case Double => Some(DoubleValue(row[column]))
    case String => Some(TextValue(row[column]))
    case Other => None
  }

  /** One attribute per field; attribute i comes from column i + 1. */
  function AttributesOf(fields: seq<Field>, row: seq<SqlValue>): (r: seq<Option<AttrValue>>)
    requires |row| >= |fields| + 1
    ensures |r| == |fields|
    ensures forall i :: 0 <= i < |fields| ==> r[i] == ReadAttribute(fields[i], row, i + 1)
  {
    seq(|fields|, i requires 0 <= i < |fields| => ReadAttribute(fields[i], row, i + 1))
  }

  /** The geometry blob is the last column, present only when there are more columns than the uid and the fields. */
  function GeometryOf(fieldCount: nat, row: seq<SqlValue>): (r: Option<SqlValue>)
    ensures r.Some? <==> |row| > fieldCount + 1
    ensures r.Some? ==> r.value == row[|row| - 1]
  {
    if |row| > fieldCount + 1 then Some(row[|row| - 1]) else None
  }

  /** The attribute loop of fetchFeature. */
  method ReadAttributes(fields: seq<Field>, row: seq<SqlValue>) returns (attributes: seq<Option<AttrValue>>)
    requires |row| >= |fields| + 1
    ensures attributes == AttributesOf(fields, row)
  {
    attributes := seq(|fields|, _ => None);
    for i := 0 to |fields|
      invariant |attributes| == |fields|
      invariant forall k :: 0 <= k < i ==> attributes[k] == ReadAttribute(fields[k], row, k + 1)
      invariant forall k :: i <= k < |fields| ==> attributes[k] == None
    {
      var f := fields[i];
      if f.attrType == Int {
        attributes := attributes[i := Some(IntValue(row[i + 1]))];
      } else if f.attrType == Double {
        attributes := attributes[i := Some(DoubleValue(row[i + 1]))];
      } else if f.attrType == String {
        attributes := attributes[i := Some(TextValue(row[i + 1]))];
      }
    }
  }

  // ---------------------------------------------------------------------
  // The iterator's state machine

  /** `closed`, the auto-id counter `fid`, and the index of the next row the statement steps to. */
  datatype IterState = IterState(closed: bool, fid: int, position: nat)

  function Initial(): IterState {
    IterState(false, 0, 0)
  }

  /** The feature built from row `r` when the counter stands at `fid`. */
  function FeatureAt(src: QuerySource, fid: int, r: nat): (f: Feature)
    requires src.Valid() && r < |src.result.rows|
    ensures f.id == if src.uidIsNull then AutoId(fid) else ColumnId(src.result.rows[r][0])
    ensures |f.attributes| == |src.fields|
    ensures f.geometry.Some? <==> src.result.columnCount > |src.fields| + 1
  {
    var row := src.result.rows[r];
    Feature(
      if src.uidIsNull then AutoId(fid) else ColumnId(row[0]),
      AttributesOf(src.fields, row),
      GeometryOf(|src.fields|, row))
  }

  /** fetchFeature: nothing once closed or past the last row, else the next row's feature. */
  function Fetch(src: QuerySource, st: IterState): (r: (Option<Feature>, IterState))
    requires src.Valid()
    ensures r.0.None? <==> st.closed || st.position >= |src.result.rows|
    ensures r.0.None? ==> r.1 == st
    ensures r.0.Some? ==> r.1.position == st.position + 1 && !r.1.closed
  {
    if st.closed || st.position >= |src.result.rows| then (None, st)
    else
      var f := FeatureAt(src, st.fid, st.position);
      (Some(f), IterState(false, if src.uidIsNull then st.fid + 1 else st.fid, st.position + 1))
  }

  /** rewind: refused once closed; otherwise the statement restarts and the id counter with it. */
  function RewindStep(st: IterState): (r: (bool, IterState))
    ensures r.0 <==> !st.closed
    ensures r.0 ==> r.1 == Initial()
    ensures !r.0 ==> r.1 == st
  {
    if st.closed then (false, st) else (true, IterState(false, 0, 0))
  }

  /** rewind as written: the statement restarts but the id counter keeps its value. */
  function RewindStepAsWritten(st: IterState): (r: (bool, IterState))
    ensures r.0 <==> !st.closed
    ensures r.1.position == (if st.closed then st.position else 0)
    ensures r.1.fid == st.fid && r.1.closed == st.closed
  {
    if st.closed then (false, st) else (true, st.(position := 0))
  }

  /** close: succeeds once, after which the iterator stays closed. */
  function CloseStep(st: IterState): (r: (bool, IterState))
    ensures r.0 <==> !st.closed
    ensures r.1.closed
    ensures r.1.fid == st.fid && r.1.position == st.position
  {
    if st.closed then (false, st) else (true, st.(closed := true))
  }

  /** The features of `k` successive fetches, and the state after them. */
  function FetchN(src: QuerySource, st: IterState, k: nat): (seq<Feature>, IterState)
    requires src.Valid()
    decreases k
  {
    if k == 0 then ([], st)
    else
      var (f, st1) := Fetch(src, st);
      var (fs, st2) := FetchN(src, st1, k - 1);
      ((if f.Some? then [f.value] else []) + fs, st2)
  }

  /**
    The counter invariant: without a uid, the counter equals the number of
    rows fetched since the statement (re)started; with a uid it stays 0.
   */
  predicate IdsInStep(src: QuerySource, st: IterState) {
    st.fid == (if src.uidIsNull then st.position else 0)
  }

  // ---------------------------------------------------------------------
  // Properties

  /** A closed iterator refuses every operation and keeps its state. */
  lemma ClosedIsFinal(src: QuerySource, st: IterState)
    requires src.Valid() && st.closed
    ensures Fetch(src, st) == (None, st)
    ensures RewindStep(st) == (false, st) && RewindStepAsWritten(st) == (false, st)
    ensures CloseStep(st) == (false, st)
  {
  }

  /** Closing twice: the second close returns false. */
  lemma SecondCloseFails(st: IterState)
    ensures !CloseStep(CloseStep(st).1).0
  {
  }

  /**
    `k` fetches from an open iterator with `k` rows left give `k` features:
    the j-th carries row `position + j`, attribute i from column i + 1, the
    geometry from the last column when there is one, and, without a uid,
    the id `fid + j`.
   */
  lemma {:induction false} FetchNPass(src: QuerySource, st: IterState, k: nat)
    requires src.Valid() && !st.closed && st.position + k <= |src.result.rows|
    ensures var (fs, end) := FetchN(src, st, k);
      && |fs| == k
      && end == IterState(false, st.fid + (if src.uidIsNull then k else 0), st.position + k)
      && forall j :: 0 <= j < k ==>
           fs[j] == FeatureAt(src, st.fid + (if src.uidIsNull then j else 0), st.position + j)
    decreases k
  {
    if k > 0 {
      var (f, st1) := Fetch(src, st);
      FetchNPass(src, st1, k - 1);
      var (fs, end) := FetchN(src, st, k);
      var rest := FetchN(src, st1, k - 1).0;
      assert fs == [f.value] + rest;
      forall j | 0 <= j < k
        ensures fs[j] == FeatureAt(src, st.fid + (if src.uidIsNull then j else 0), st.position + j)
      {
        if j > 0 {
          assert fs[j] == rest[j - 1];
        }
      }
    }
  }

  /** The first pass over a statement numbers its rows 0, 1, 2, ... when there is no uid. */
  lemma AutoIdsCount(src: QuerySource)
    requires src.Valid() && src.uidIsNull
    ensures var fs := FetchN(src, Initial(), |src.result.rows|).0;
      |fs| == |src.result.rows| && forall j :: 0 <= j < |fs| ==> fs[j].id == AutoId(j)
  {
    FetchNPass(src, Initial(), |src.result.rows|);
  }

  /** Past the last row, fetching gives nothing more and changes nothing. */
  lemma {:induction false} FetchAfterEnd(src: QuerySource, st: IterState, k: nat)
    requires src.Valid() && st.position >= |src.result.rows|
    ensures FetchN(src, st, k) == ([], st)
    decreases k
  {
    if k > 0 {
      FetchAfterEnd(src, st, k - 1);
      var (f, st1) := Fetch(src, st);
      assert f == None && st1 == st;
      var rest := FetchN(src, st1, k - 1);
      assert FetchN(src, st, k) == ([] + rest.0, rest.1);
      assert rest == ([], st);
      assert [] + rest.0 == [];
    } else {
      assert FetchN(src, st, k) == ([], st);
    }
  }

  /** Every operation keeps the counter invariant. */
  lemma OperationsKeepIdsInStep(src: QuerySource, st: IterState)
    requires src.Valid() && IdsInStep(src, st)
    ensures IdsInStep(src, Fetch(src, st).1)
    ensures IdsInStep(src, RewindStep(st).1)
    ensures IdsInStep(src, CloseStep(st).1)
  {
  }

  /** After a full pass, rewinding and fetching again yields the same features. */
  lemma RewindReplaysPass(src: QuerySource)
    requires src.Valid()
    ensures var n := |src.result.rows|;
      var (first, afterFirst) := FetchN(src, Initial(), n);
      var (ok, rewound) := RewindStep(afterFirst);
      ok && FetchN(src, rewound, n).0 == first && |first| == n
  {
    var n := |src.result.rows|;
    FetchNPass(src, Initial(), n);
  }

  /**
    Rewinding as written after a full pass without a uid gives the rows of
    the second pass the ids n, n + 1, ...: the same row gets another id.
   */
  lemma RewindAsWrittenRenumbers(src: QuerySource)
    requires src.Valid() && src.uidIsNull && |src.result.rows| > 0
    ensures var n := |src.result.rows|;
      var (first, afterFirst) := FetchN(src, Initial(), n);
      var (ok, rewound) := RewindStepAsWritten(afterFirst);
      var second := FetchN(src, rewound, n).0;
      && ok && |first| == n && |second| == n
      && first[0].id == AutoId(0) && second[0].id == AutoId(n)
      && !IdsInStep(src, rewound)
  {
    var n := |src.result.rows|;
    FetchNPass(src, Initial(), n);
    var afterFirst := FetchN(src, Initial(), n).1;
    FetchNPass(src, RewindStepAsWritten(afterFirst).1, n);
  }

  /**
    With the statement built from the iterator's own column list, the
    geometry is read exactly when the geometry column was selected, and
    attribute i is read from the column named after field i.
   */
  lemma GeometryReadIffSelected(uid: Option<string>, fields: seq<Field>, geometry: Option<string>, row: seq<SqlValue>)
    requires |row| == |ColumnNames(uid, fields, geometry)|
    ensures GeometryOf(|fields|, row).Some? <==> geometry.Some?
    ensures |row| >= |fields| + 1
    ensures forall i :: 0 <= i < |fields| ==>
      Unquote(ColumnNames(uid, fields, geometry)[i + 1]) == Some(Lower(fields[i].name))
  {
    ColumnLayout(uid, fields, geometry);
  }

  // ---------------------------------------------------------------------
  // The iterator object

  class FeatureIterator {
    const source: QuerySource
    const sqlQuery: string
    var closed: bool
    var fid: int
    var position: nat

    ghost predicate Valid()
      reads this
    {
      source.Valid() && IdsInStep(source, State())
    }

    function State(): IterState
      reads this
    {
      IterState(closed, fid, position)
    }

    /**
      Builds the statement for `req` over the layer definition and the
      provider's subset string and fields; `result` stands for the rows
      SQLite yields for that statement.
     */
    constructor(def: Definition, subset: Option<string>, req: Request, providerFields: seq<Field>, result: ResultSet)
      requires AttributeIndicesValid(req, |providerFields|)
      requires result.WellFormed()
      requires result.columnCount == |ColumnNames(def.uid, SelectedFields(providerFields, req), SelectedGeometry(def, req))|
      ensures sqlQuery == QueryText(def, subset, req, SelectedFields(providerFields, req))
      ensures source == QuerySource(SelectedFields(providerFields, req), def.uid.None?, result)
      ensures State() == Initial() && Valid()
    {
      var wheres := BuildConditions(subset, def, req);
      var fields := SelectFields(providerFields, req);
      var columns := BuildColumnList(def.uid, fields, SelectedGeometry(def, req));
      assert |ColumnNames(def.uid, fields, SelectedGeometry(def, req))| >= |fields| + 1;
      var query := def.query.GetOr("");
      var text := "SELECT " + columns + " FROM (" + query + ")";
      if |wheres| > 0 {
        text := text + " WHERE " + Join(" AND ", wheres);
      }
      SelectTextShape(columns, query, wheres);
      assert text == QueryText(def, subset, req, fields);
      source := QuerySource(fields, def.uid.None?, result);
      sqlQuery := text;
      closed := false;
      fid := 0;
      position := 0;
    }

    /** fetchFeature: the next row's feature, or nothing once closed or past the last row. */
    method FetchFeature() returns (feature: Option<Feature>)
      requires Valid()
      modifies this
      ensures (feature, State()) == Fetch(source, old(State()))
      ensures Valid()
    {
      if closed || position >= |source.result.rows| {
        return None;
      }
      var row := source.result.rows[position];
      var id: FeatureId;
      if source.uidIsNull {
        id := AutoId(fid);
        fid := fid + 1;
      } else {
        id := ColumnId(row[0]);
      }
      var attributes := ReadAttributes(source.fields, row);
      var geometry: Option<SqlValue> := None;
      var n := |row|;
      if n > |source.fields| + 1 {
        geometry := Some(row[n - 1]);
      }
      feature := Some(Feature(id, attributes, geometry));
      position := position + 1;
    }

    /** rewind: refused once closed; restarts the statement and the id counter. */
    method Rewind() returns (ok: bool)
      requires Valid()
      modifies this
      ensures (ok, State()) == RewindStep(old(State()))
      ensures Valid()
    {
      if closed {
        return false;
      }
      position := 0;
      fid := 0;
      return true;
    }

    /** close: succeeds once; a closed iterator stays closed. */
    method Close() returns (ok: bool)
      requires Valid()
      modifies this
      ensures (ok, State()) == CloseStep(old(State()))
      ensures Valid()
    {
      if closed {
        return false;
      }
      closed := true;
      return true;
    }
  }
}
