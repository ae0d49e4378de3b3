/**
  getSqliteFields: the attribute fields of a table or view, read from the
  rows of `PRAGMA table_info`. Each row gives a column name and its
  declared type; geometry columns produce no field and every other
  declared type is classified as Int, Double or String.
 */
module SqliteFields {
  import opened Wrappers
  import opened Fields
  import opened WkbTable

  /** One row of `PRAGMA table_info`: the column's name and declared type. */
  datatype ColumnInfo = ColumnInfo(name: string, declaredType: string)

  predicate IsGeometryTypeName(t: string) {
    t == "POINT" || t == "MULTIPOINT" || t == "LINESTRING" || t == "MULTILINESTRING"
    || t == "POLYGON" || t == "MULTIPOLYGON"
  }

  /**
    The field type for a declared column type, or None for a geometry
    column. The comparisons are exact: "INTEGER" or "int" are forced to
    String like every other unknown name.
   */
  function DeclaredAttrType(t: string): (r: Option<AttrType>)
    ensures r.None? <==> IsGeometryTypeName(t)
    ensures r == Some(Int) <==> t == "INT"
    ensures r == Some(Double) <==> t == "REAL"
    ensures r == Some(String) <==> t != "INT" && t != "REAL" && !IsGeometryTypeName(t)
    ensures r != Some(Other)
  {
    if t == "INT" then Some(Int)
    else if t == "REAL" then Some(Double)
    else if t == "TEXT" then Some(String)
    else if IsGeometryTypeName(t) then None
    else Some(String)
  }

  /** The field a row yields, if any. */
  function FieldOf(row: ColumnInfo): Option<Field> {
    match DeclaredAttrType(row.declaredType)
    case None => None
    case Some(t) => Some(Field(row.name, t))
  }

  /** The fields of all rows, in row order. */
  function FieldsOf(rows: seq<ColumnInfo>): (r: seq<Field>)
    ensures |r| <= |rows|
    decreases |rows|
  {
    if |rows| == 0 then []
    else
      var init := FieldsOf(rows[..|rows| - 1]);
      match FieldOf(rows[|rows| - 1])
      case None => init
      case Some(f) => init + [f]
  }

  /** The number of geometry rows. */
  function GeometryRowCount(rows: seq<ColumnInfo>): nat
    decreases |rows|
  {
    if |rows| == 0 then 0
    else GeometryRowCount(rows[1..]) + (if IsGeometryTypeName(rows[0].declaredType) then 1 else 0)
  }

  /** The row loop of getSqliteFields. */
  method ReadFields(rows: seq<ColumnInfo>) returns (fields: seq<Field>)
    ensures fields == FieldsOf(rows)
  {
    fields := [];
    var i := 0;
    while i < |rows|
      invariant 0 <= i <= |rows|
      invariant fields == FieldsOf(rows[..i])
    {
      var name := rows[i].name;
      var fieldType := rows[i].declaredType;
      assert rows[..i + 1][..i] == rows[..i];
      if fieldType == "INT" {
        fields := fields + [Field(name, Int)];
      } else if fieldType == "REAL" {
        fields := fields + [Field(name, Double)];
      } else if fieldType == "TEXT" {
        fields := fields + [Field(name, String)];
      } else if IsGeometryTypeName(fieldType) {
        i := i + 1;
        continue;
      } else {
        fields := fields + [Field(name, String)];
      }
      i := i + 1;
    }
    assert rows[..i] == rows;
  }

  /** Reading rows in two parts gives the fields of the first part followed by those of the second. */
  lemma {:induction false} FieldsOfAppend(a: seq<ColumnInfo>, b: seq<ColumnInfo>)
    ensures FieldsOf(a + b) == FieldsOf(a) + FieldsOf(b)
    decreases |b|
  {
    if |b| == 0 {
      assert a + b == a;
    } else {
      var b' := b[..|b| - 1];
      assert (a + b)[..|a + b| - 1] == a + b';
      assert (a + b)[|a + b| - 1] == b[|b| - 1];
      FieldsOfAppend(a, b');
    }
  }

  /** A single row gives its field, or nothing when it is a geometry column. */
  lemma FieldsOfSingle(row: ColumnInfo)
    ensures FieldsOf([row]) == if IsGeometryTypeName(row.declaredType) then [] else [Field(row.name, DeclaredAttrType(row.declaredType).value)]
  {
    assert [row][..0] == [];
  }

  lemma {:induction false} GeometryRowCountAppend(a: seq<ColumnInfo>, b: seq<ColumnInfo>)
    ensures GeometryRowCount(a + b) == GeometryRowCount(a) + GeometryRowCount(b)
    decreases |a|
  {
    if |a| == 0 {
      assert a + b == b;
    } else {
      assert (a + b)[0] == a[0] && (a + b)[1..] == a[1..] + b;
      GeometryRowCountAppend(a[1..], b);
    }
  }

  /** Every row but the geometry ones yields exactly one field. */
  lemma {:induction false} FieldCount(rows: seq<ColumnInfo>)
    ensures |FieldsOf(rows)| == |rows| - GeometryRowCount(rows)
    decreases |rows|
  {
    if |rows| > 0 {
      var init := rows[..|rows| - 1];
      var last := rows[|rows| - 1];
      FieldCount(init);
      GeometryRowCountAppend(init, [last]);
      assert init + [last] == rows;
      assert [last][1..] == [];
    }
  }

  /**
    The type name registered for a layer's geometry column is one that
    getSqliteFields skips, so a virtual table's geometry never becomes an
    attribute field.
   */
  lemma GeometryColumnsAreSkipped(t: WkbType)
    requires !t.WkbUnknown? && !t.WkbNoGeometry?
    ensures DeclaredAttrType(GeometryColumnOf(t).value.typeName).None?
  {
  }
}
