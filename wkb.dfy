/**
  The geometry description the provider registers for each virtual table:
  the QGIS WKB type of the source layer mapped to a SpatiaLite geometry
  type name, a coordinate dimension and the numeric WKB code (the OGC
  Simple Features codes, 1000 added for the 2.5D variants).
 */
module WkbTable {
  import opened Wrappers

  /** The QGIS WKB types the provider's switch distinguishes, and WKBUnknown, which it has no case for. */
  datatype WkbType =
    | WkbUnknown
    | WkbNoGeometry
    | WkbPoint | WkbPoint25D
    | WkbMultiPoint | WkbMultiPoint25D
    | WkbLineString | WkbLineString25D
    | WkbMultiLineString | WkbMultiLineString25D
    | WkbPolygon | WkbPolygon25D
    | WkbMultiPolygon | WkbMultiPolygon25D
  {
    predicate Is25D() {
      this.WkbPoint25D? || this.WkbMultiPoint25D? || this.WkbLineString25D?
      || this.WkbMultiLineString25D? || this.WkbPolygon25D? || this.WkbMultiPolygon25D?
    }

    /** A geometry type without a Z coordinate. */
    predicate Is2D() {
      !Is25D() && !this.WkbUnknown? && !this.WkbNoGeometry?
    }

    /** The 2D type a 2.5D type extends. */
    function Flat(): (r: WkbType)
      requires Is25D()
      ensures r.Is2D()
    {
      match this
      case WkbPoint25D => WkbPoint
      case WkbMultiPoint25D => WkbMultiPoint
      case WkbLineString25D => WkbLineString
      case WkbMultiLineString25D => WkbMultiLineString
      case WkbPolygon25D => WkbPolygon
      case WkbMultiPolygon25D => WkbMultiPolygon
    }
  }

  /** The type name, coordinate dimension and WKB code written for a virtual table's geometry column. */
  datatype GeometryColumnType = GeometryColumnType(typeName: string, dimension: nat, code: nat)

  /** The switch over the layer's WKB type; WKBUnknown matches no case. */
  function GeometryColumnOf(t: WkbType): (r: Option<GeometryColumnType>)
    ensures r.None? <==> t.WkbUnknown?
    ensures t.WkbNoGeometry? ==> r == Some(GeometryColumnType("", 0, 0))
    ensures t.Is2D() ==> r.Some? && r.value.dimension == 2 && 1 <= r.value.code <= 6 && r.value.typeName != ""
    ensures t.Is25D() ==> r.Some? && r.value.dimension == 3 && 1001 <= r.value.code <= 1006 && r.value.typeName != ""
  {
    match t
    case WkbUnknown => None
    case WkbNoGeometry => Some(GeometryColumnType("", 0, 0))
    case WkbPoint => Some(GeometryColumnType("POINT", 2, 1))
    case WkbPoint25D => Some(GeometryColumnType("POINT", 3, 1001))
    case WkbMultiPoint => Some(GeometryColumnType("MULTIPOINT", 2, 4))
    case WkbMultiPoint25D => Some(GeometryColumnType("MULTIPOINT", 3, 1004))
    case WkbLineString => Some(GeometryColumnType("LINESTRING", 2, 2))
    case WkbLineString25D => Some(GeometryColumnType("LINESTRING", 3, 1002))
    case WkbMultiLineString => Some(GeometryColumnType("MULTILINESTRING", 2, 5))
    case WkbMultiLineString25D => Some(GeometryColumnType("MULTILINESTRING", 3, 1005))
    case WkbPolygon => Some(GeometryColumnType("POLYGON", 2, 3))
    case WkbPolygon25D => Some(GeometryColumnType("POLYGON", 3, 1003))
    case WkbMultiPolygon => Some(GeometryColumnType("MULTIPOLYGON", 2, 6))
    case WkbMultiPolygon25D => Some(GeometryColumnType("MULTIPOLYGON", 3, 1006))
  }

  /** A 2.5D type has its 2D type's name, dimension 3 and the 2D code plus 1000. */
  lemma Variant25D(t: WkbType)
    requires t.Is25D()
    ensures var flat := GeometryColumnOf(t.Flat()).value;
      GeometryColumnOf(t) == Some(GeometryColumnType(flat.typeName, 3, flat.code + 1000))
  {
  }

  /** The WKB code identifies the type: no two handled types share one. */
  lemma CodeIdentifiesType(t: WkbType, u: WkbType)
    requires GeometryColumnOf(t).Some? && GeometryColumnOf(u).Some?
    requires GeometryColumnOf(t).value.code == GeometryColumnOf(u).value.code
    ensures t == u
  {
  }

  /** The code is 0 exactly for NoGeometry. */
  lemma CodeZeroIffNoGeometry(t: WkbType)
    requires !t.WkbUnknown?
    ensures GeometryColumnOf(t).value.code == 0 <==> t.WkbNoGeometry?
  {
  }

  /**
    has_geometry: set while looping over the layers as soon as one has a
    non-zero code. Every layer's type must be one the switch handles.
   */
  method HasGeometry(types: seq<WkbType>) returns (hasGeometry: bool)
    requires forall i :: 0 <= i < |types| ==> !types[i].WkbUnknown?
    ensures hasGeometry <==> exists i :: 0 <= i < |types| && GeometryColumnOf(types[i]).value.code != 0
    ensures hasGeometry <==> exists i :: 0 <= i < |types| && !types[i].WkbNoGeometry?
  {
    hasGeometry := false;
    for i := 0 to |types|
      invariant hasGeometry <==> exists k :: 0 <= k < i && GeometryColumnOf(types[k]).value.code != 0
    {
      var code := GeometryColumnOf(types[i]).value.code;
      if code != 0 {
        hasGeometry := true;
      }
    }
    forall k | 0 <= k < |types|
      ensures GeometryColumnOf(types[k]).value.code != 0 <==> !types[k].WkbNoGeometry?
    {
      CodeZeroIffNoGeometry(types[k]);
    }
  }
}
