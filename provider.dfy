/**
  Opening a virtual layer: the provider reads the URI's query items in
  order (`layer_id`, `geometry`, `uid`, `query`), checks each referenced
  layer against the map layer registry, then runs three consistency
  checks, each with its own error message. The SQLite / SpatiaLite phase
  that follows a successful check is not part of this model: `valid`
  here means the configuration passed every check.
 */
module VirtualLayerProvider {
  import opened Wrappers
  import opened Text
  import opened QtArg
  import opened GeometrySpec
  import opened WkbTable

  datatype LayerKind = VectorLayer | OtherLayer

  /** A registered map layer: its kind and the WKB type its data provider reports. */
  datatype MapLayer = MapLayer(kind: LayerKind, geometryType: WkbType)

  /** The map layer registry, by layer id. */
  type Registry = map<string, MapLayer>

  datatype QueryItem = QueryItem(key: string, value: string)

  /** The URI as QUrl::fromEncoded reads it: whether it is valid, its path and its query items in order. */
  datatype Url = Url(valid: bool, path: string, items: seq<QueryItem>)

  /**
    What the item loop accumulates: the layer ids, the matched geometry
    fields, the uid and the query (null reads as empty), and the name of
    the last matched geometry item, which the constructor keeps in a local.
   */
  datatype FoldState = FoldState(
    layers: seq<string>,
    geometryFields: seq<GeometryField>,
    uid: string,
    query: string,
    geometryName: string)

  function EmptyFold(): FoldState {
    FoldState([], [], "", "", "")
  }

  /** The state after the loop, and the error that ended it early, if any. */
  datatype FoldResult = FoldResult(state: FoldState, error: Option<string>)

  // ---------------------------------------------------------------------
  // Error messages

  const CannotFindTemplate: string := "Cannot find layer %1"
  const NotVectorTemplate: string := "Layer %1 is not a vector layer"
  const JoinMessage: string := "Don't know how to join layers, please specify a query"
  const UidMessage: string := "Please specify a 'uid' column name"
  const GeometryMessage: string := "Please specify the geometry column name and type"
  const MalformedMessage: string := "Malformed URL"

  /** The message for an id the registry does not know. */
  function CannotFindLayer(id: string): string {
    "Cannot find layer " + id
  }

  /** The message for a layer that is not a vector layer. */
  function NotVectorLayer(id: string): string {
    "Layer " + id + " is not a vector layer"
  }

  /** The message as the source builds it, with `.arg` on its template. */
  function CannotFindLayerAsBuilt(id: string): string {
    Arg(CannotFindTemplate, id)
  }

  function NotVectorLayerAsBuilt(id: string): string {
    Arg(NotVectorTemplate, id)
  }

  lemma CannotFindTemplateShape()
    ensures CannotFindTemplate == "Cannot find layer " + (['%', '1'] + "")
    ensures '%' !in "Cannot find layer "
  {
  }

  lemma NotVectorTemplateShape()
    ensures NotVectorTemplate == "Layer " + (['%', '1'] + " is not a vector layer")
    ensures '%' !in "Layer " && '%' !in " is not a vector layer" && !IsDigit(" is not a vector layer"[0])
  {
  }

  /** `.arg(value)` inserts the id as given, whatever it holds. */
  lemma CannotFindLayerMessage(id: string)
    ensures CannotFindLayerAsBuilt(id) == CannotFindLayer(id)
  {
    CannotFindTemplateShape();
    ArgOfOne("Cannot find layer ", '1', "", id);
  }

  /** `.arg(value)` inserts the id as given, whatever it holds. */
  lemma NotVectorLayerMessage(id: string)
    ensures NotVectorLayerAsBuilt(id) == NotVectorLayer(id)
  {
    NotVectorTemplateShape();
    ArgOfOne("Layer ", '1', " is not a vector layer", id);
  }

  // ---------------------------------------------------------------------
  // The item loop

  /** Why a `layer_id` item is refused, if it is. */
  function LayerProblem(id: string, registry: Registry): (r: Option<string>)
    ensures r.None? <==> id in registry && registry[id].kind == VectorLayer
    ensures r.Some? ==> |r.value| > |id|
  {
    if id !in registry then Some(CannotFindLayer(id))
    else if registry[id].kind != VectorLayer then Some(NotVectorLayer(id))
    else None
  }

  /** One item: a refused layer stops the loop; unknown keys change nothing. */
  function ApplyItem(st: FoldState, item: QueryItem, registry: Registry): (r: FoldResult)
    ensures r.error.Some? <==> item.key == "layer_id" && LayerProblem(item.value, registry).Some?
    ensures r.error.Some? ==> r.state == st && r.error.value != ""
  {
    if item.key == "layer_id" then
      match LayerProblem(item.value, registry)
      case Some(m) => FoldResult(st, Some(m))
      case None => FoldResult(st.(layers := st.layers + [item.value]), None)
    else if item.key == "geometry" then
      match ParseGeometryItem(item.value)
      case None => FoldResult(st, None)
      case Some(g) => FoldResult(st.(geometryFields := st.geometryFields + [g], geometryName := g.name), None)
    else if item.key == "uid" then FoldResult(st.(uid := item.value), None)
    else if item.key == "query" then FoldResult(st.(query := item.value), None)
    else FoldResult(st, None)
  }

  /** The items in order, stopping at the first refused layer. */
  function FoldItems(st: FoldState, items: seq<QueryItem>, registry: Registry): (r: FoldResult)
    ensures r.error.Some? ==> r.error.value != ""
    ensures r.error.Some? <==> exists i :: 0 <= i < |items| && IsRefusedLayer(items[i], registry)
    decreases |items|
  {
    if |items| == 0 then FoldResult(st, None)
    else
      var r := ApplyItem(st, items[0], registry);
      if r.error.Some? then r else FoldItems(r.state, items[1..], registry)
  }

  // ---------------------------------------------------------------------
  // Independent descriptions of what the loop collects

  predicate IsKnownKey(key: string) {
    key == "layer_id" || key == "geometry" || key == "uid" || key == "query"
  }

  /** The ids of the `layer_id` items, in order. */
  function LayerIds(items: seq<QueryItem>): seq<string>
    decreases |items|
  {
    if |items| == 0 then []
    else (if items[0].key == "layer_id" then [items[0].value] else []) + LayerIds(items[1..])
  }

  /** The fields of the `geometry` items whose value matches, in order. */
  function GeometryFieldsOf(items: seq<QueryItem>): seq<GeometryField>
    decreases |items|
  {
    if |items| == 0 then []
    else
      var here := if items[0].key == "geometry" && ParseGeometryItem(items[0].value).Some?
        then [ParseGeometryItem(items[0].value).value] else [];
      here + GeometryFieldsOf(items[1..])
  }

  /** The value of the last item with `key`. */
  function LastValue(items: seq<QueryItem>, key: string): Option<string>
    decreases |items|
  {
    if |items| == 0 then None
    else
      match LastValue(items[1..], key)
      case Some(v) => Some(v)
      case None => if items[0].key == key then Some(items[0].value) else None
  }

  /** The name of the last field of `gs`, or `current` when there is none. */
  function LastName(gs: seq<GeometryField>, current: string): string {
    if |gs| == 0 then current else gs[|gs| - 1].name
  }

  /** `st` extended by items that are all accepted. */
  function Extend(st: FoldState, items: seq<QueryItem>): FoldState {
    var gs := GeometryFieldsOf(items);
    FoldState(
      st.layers + LayerIds(items),
      st.geometryFields + gs,
      LastValue(items, "uid").GetOr(st.uid),
      LastValue(items, "query").GetOr(st.query),
      LastName(gs, st.geometryName))
  }

  predicate IsRefusedLayer(item: QueryItem, registry: Registry) {
    item.key == "layer_id" && !(item.value in registry && registry[item.value].kind == VectorLayer)
  }

  predicate NoRefusedLayer(items: seq<QueryItem>, registry: Registry) {
    forall i :: 0 <= i < |items| ==> !IsRefusedLayer(items[i], registry)
  }

  // ---------------------------------------------------------------------
  // Properties of the loop

  /** Folding two parts: the second part runs from where the first stopped, unless the first failed. */
  lemma {:induction false} FoldAppend(st: FoldState, a: seq<QueryItem>, b: seq<QueryItem>, registry: Registry)
    ensures var ra := FoldItems(st, a, registry);
      FoldItems(st, a + b, registry) == if ra.error.Some? then ra else FoldItems(ra.state, b, registry)
    decreases |a|
  {
    if |a| == 0 {
      assert a + b == b;
    } else {
      assert (a + b)[0] == a[0] && (a + b)[1..] == a[1..] + b;
      var r := ApplyItem(st, a[0], registry);
      if r.error.None? {
        FoldAppend(r.state, a[1..], b, registry);
      }
    }
  }

  /** What one item contributes to the layer ids and the geometry fields. */
  lemma CollectedCons(items: seq<QueryItem>)
    requires |items| > 0
    ensures LayerIds(items) == (if items[0].key == "layer_id" then [items[0].value] else []) + LayerIds(items[1..])
    ensures var g := ParseGeometryItem(items[0].value);
      GeometryFieldsOf(items) == (if items[0].key == "geometry" && g.Some? then [g.value] else []) + GeometryFieldsOf(items[1..])
  {
  }

  /** The last value of a key: the rest's, or else the first item's. */
  lemma LastValueCons(items: seq<QueryItem>, key: string, current: string)
    requires |items| > 0
    ensures var here := if items[0].key == key then items[0].value else current;
      LastValue(items, key).GetOr(current) == LastValue(items[1..], key).GetOr(here)
  {
  }

  lemma LastNameCons(g: GeometryField, gs: seq<GeometryField>, current: string)
    ensures LastName([g] + gs, current) == LastName(gs, g.name)
  {
    if |gs| > 0 {
      assert ([g] + gs)[|gs|] == gs[|gs| - 1];
    }
  }

  /** An accepted `layer_id` item, then the rest. */
  lemma ExtendConsLayer(st: FoldState, items: seq<QueryItem>)
    requires |items| > 0 && items[0].key == "layer_id"
    ensures Extend(st.(layers := st.layers + [items[0].value]), items[1..]) == Extend(st, items)
  {
    var tail := items[1..];
    CollectedCons(items);
    LastValueCons(items, "uid", st.uid);
    LastValueCons(items, "query", st.query);
    assert st.layers + [items[0].value] + LayerIds(tail) == st.layers + ([items[0].value] + LayerIds(tail));
  }

  /** A matching `geometry` item, then the rest. */
  lemma ExtendConsGeometry(st: FoldState, items: seq<QueryItem>, g: GeometryField)
    requires |items| > 0 && items[0].key == "geometry" && ParseGeometryItem(items[0].value) == Some(g)
    ensures Extend(st.(geometryFields := st.geometryFields + [g], geometryName := g.name), items[1..]) == Extend(st, items)
  {
    var gs := GeometryFieldsOf(items[1..]);
    CollectedCons(items);
    LastValueCons(items, "uid", st.uid);
    LastValueCons(items, "query", st.query);
    assert st.geometryFields + [g] + gs == st.geometryFields + ([g] + gs);
    LastNameCons(g, gs, st.geometryName);
  }

  /** A `uid` item, then the rest. */
  lemma ExtendConsUid(st: FoldState, items: seq<QueryItem>)
    requires |items| > 0 && items[0].key == "uid"
    ensures Extend(st.(uid := items[0].value), items[1..]) == Extend(st, items)
  {
    CollectedCons(items);
    LastValueCons(items, "uid", st.uid);
    LastValueCons(items, "query", st.query);
  }

  /** A `query` item, then the rest. */
  lemma ExtendConsQuery(st: FoldState, items: seq<QueryItem>)
    requires |items| > 0 && items[0].key == "query"
    ensures Extend(st.(query := items[0].value), items[1..]) == Extend(st, items)
  {
    CollectedCons(items);
    LastValueCons(items, "uid", st.uid);
    LastValueCons(items, "query", st.query);
  }

  /** An item that changes nothing, then the rest. */
  lemma ExtendConsSkipped(st: FoldState, items: seq<QueryItem>)
    requires |items| > 0 && items[0].key != "layer_id" && items[0].key != "uid" && items[0].key != "query"
    requires items[0].key == "geometry" ==> ParseGeometryItem(items[0].value).None?
    ensures Extend(st, items[1..]) == Extend(st, items)
  {
    CollectedCons(items);
    LastValueCons(items, "uid", st.uid);
    LastValueCons(items, "query", st.query);
  }

  /** One accepted item, then the rest: the same as extending by all of them. */
  lemma ExtendCons(st: FoldState, items: seq<QueryItem>, registry: Registry)
    requires |items| > 0 && !IsRefusedLayer(items[0], registry)
    ensures Extend(ApplyItem(st, items[0], registry).state, items[1..]) == Extend(st, items)
  {
    var item := items[0];
    var g := ParseGeometryItem(item.value);
    if item.key == "layer_id" {
      ExtendConsLayer(st, items);
    } else if item.key == "geometry" {
      if g.Some? {
        ExtendConsGeometry(st, items, g.value);
      } else {
        ExtendConsSkipped(st, items);
      }
    } else if item.key == "uid" {
      ExtendConsUid(st, items);
    } else if item.key == "query" {
      ExtendConsQuery(st, items);
    } else {
      ExtendConsSkipped(st, items);
    }
  }

  /**
    When every layer is accepted, the loop collects the layer ids and the
    matched geometry fields in item order, keeps the last `uid` and the
    last `query`, and remembers the name of the last matched geometry.
   */
  lemma {:induction false} FoldAccepted(st: FoldState, items: seq<QueryItem>, registry: Registry)
    requires NoRefusedLayer(items, registry)
    ensures FoldItems(st, items, registry) == FoldResult(Extend(st, items), None)
    decreases |items|
  {
    if |items| > 0 {
      assert !IsRefusedLayer(items[0], registry);
      var r := ApplyItem(st, items[0], registry);
      assert NoRefusedLayer(items[1..], registry) by {
        forall i | 0 <= i < |items[1..]|
          ensures !IsRefusedLayer(items[1..][i], registry)
        {
          assert items[1..][i] == items[i + 1];
        }
      }
      FoldAccepted(r.state, items[1..], registry);
      ExtendCons(st, items, registry);
    } else {
      assert Extend(st, items) == st;
    }
  }

  /** The loop stops at the first refused layer, with that layer's message and the state reached before it. */
  lemma FoldStopsAtFirstRefused(items: seq<QueryItem>, registry: Registry, i: nat)
    requires i < |items| && IsRefusedLayer(items[i], registry)
    requires NoRefusedLayer(items[..i], registry)
    ensures FoldItems(EmptyFold(), items, registry)
         == FoldResult(Extend(EmptyFold(), items[..i]), LayerProblem(items[i].value, registry))
  {
    FoldAccepted(EmptyFold(), items[..i], registry);
    assert items == items[..i] + items[i..];
    FoldAppend(EmptyFold(), items[..i], items[i..], registry);
    var st := Extend(EmptyFold(), items[..i]);
    assert items[i..][0] == items[i];
    assert FoldItems(st, items[i..], registry) == ApplyItem(st, items[i], registry);
  }

  /** An item with an unknown key can be dropped from anywhere without changing the outcome. */
  lemma FoldSkipsUnknown(st: FoldState, item: QueryItem, b: seq<QueryItem>, registry: Registry)
    requires !IsKnownKey(item.key)
    ensures FoldItems(st, [item] + b, registry) == FoldItems(st, b, registry)
  {
    assert ([item] + b)[0] == item && ([item] + b)[1..] == b;
    assert ApplyItem(st, item, registry) == FoldResult(st, None);
  }

  lemma UnknownKeyIgnored(st: FoldState, a: seq<QueryItem>, item: QueryItem, b: seq<QueryItem>, registry: Registry)
    requires !IsKnownKey(item.key)
    ensures FoldItems(st, a + [item] + b, registry) == FoldItems(st, a + b, registry)
  {
    assert a + [item] + b == a + ([item] + b);
    FoldAppend(st, a, [item] + b, registry);
    FoldAppend(st, a, b, registry);
    var ra := FoldItems(st, a, registry);
    if ra.error.None? {
      FoldSkipsUnknown(ra.state, item, b, registry);
    }
  }

  // ---------------------------------------------------------------------
  // The consistency checks and the outcome

  /** The three checks, in order; the first that fires gives the message. */
  function ConsistencyError(st: FoldState): (r: Option<string>)
    ensures r == Some(JoinMessage) <==> |st.layers| > 1 && st.query == ""
    ensures r == Some(UidMessage) <==> !(|st.layers| > 1 && st.query == "") && st.query != "" && st.uid == ""
    ensures r == Some(GeometryMessage) <==>
      !(|st.layers| > 1 && st.query == "") && !(st.query != "" && st.uid == "") && |st.layers| > 1 && st.geometryName == ""
    ensures r.None? <==>
      !(|st.layers| > 1 && st.query == "") && !(st.query != "" && st.uid == "") && !(|st.layers| > 1 && st.geometryName == "")
  {
    if |st.layers| > 1 && st.query == "" then Some(JoinMessage)
    else if st.query != "" && st.uid == "" then Some(UidMessage)
    else if |st.layers| > 1 && st.geometryName == "" then Some(GeometryMessage)
    else None
  }

  /** The provider's members after construction (up to the database phase). */
  datatype ProviderState = ProviderState(
    valid: bool,
    error: string,
    path: string,
    layers: seq<string>,
    geometryFields: seq<GeometryField>,
    uid: string,
    query: string)

  function Publish(valid: bool, error: string, path: string, st: FoldState): ProviderState {
    ProviderState(valid, error, path, st.layers, st.geometryFields, st.uid, st.query)
  }

  /** The constructor's outcome: a malformed URL, a refused layer, a failed check, or a valid configuration. */
  function Open(url: Url, registry: Registry): (r: ProviderState)
    ensures !url.valid ==> !r.valid && r.error == MalformedMessage
    ensures r.valid <==> r.error == ""
  {
    if !url.valid then ProviderState(false, MalformedMessage, "", [], [], "", "")
    else
      var f := FoldItems(EmptyFold(), url.items, registry);
      if f.error.Some? then
        Publish(false, f.error.value, url.path, f.state)
      else
        match ConsistencyError(f.state)
        case Some(m) => Publish(false, m, url.path, f.state)
        case None => Publish(true, "", url.path, f.state)
  }

  /**
    With every layer accepted, the outcome is read off the items directly:
    the checks see the layer ids, the last `uid` and `query`, and whether
    any `geometry` item matched.
   */
  lemma OpenAccepted(url: Url, registry: Registry)
    requires url.valid && NoRefusedLayer(url.items, registry)
    ensures var ids := LayerIds(url.items);
      var query := LastValue(url.items, "query").GetOr("");
      var uid := LastValue(url.items, "uid").GetOr("");
      var r := Open(url, registry);
      && r.path == url.path
      && r.layers == ids
      && r.geometryFields == GeometryFieldsOf(url.items)
      && r.uid == uid && r.query == query
      && (r.valid <==> !(|ids| > 1 && query == "") && !(query != "" && uid == "")
                       && !(|ids| > 1 && GeometryFieldsOf(url.items) == []))
  {
    FoldAccepted(EmptyFold(), url.items, registry);
    var gs := GeometryFieldsOf(url.items);
    if |gs| > 0 {
      GeometryFieldNamed(url.items);
    }
  }

  /** Every matched geometry field has a non-empty name. */
  lemma {:induction false} GeometryFieldNamed(items: seq<QueryItem>)
    ensures forall g :: g in GeometryFieldsOf(items) ==> g.name != ""
    decreases |items|
  {
    if |items| > 0 {
      GeometryFieldNamed(items[1..]);
    }
  }

  /** A refused layer makes the provider invalid with that layer's message, whatever comes after it. */
  lemma OpenRefused(url: Url, registry: Registry, i: nat)
    requires url.valid && i < |url.items| && IsRefusedLayer(url.items[i], registry)
    requires NoRefusedLayer(url.items[..i], registry)
    ensures var id := url.items[i].value;
      var r := Open(url, registry);
      && !r.valid
      && r.error == (if id in registry then NotVectorLayer(id) else CannotFindLayer(id))
      && r.layers == LayerIds(url.items[..i])
  {
    FoldStopsAtFirstRefused(url.items, registry, i);
  }

  /** Every id names a registered vector layer. */
  predicate AllVectorLayers(layers: seq<string>, registry: Registry) {
    forall i :: 0 <= i < |layers| ==> layers[i] in registry && registry[layers[i]].kind == VectorLayer
  }

  /** The loop only ever appends registered vector layers, whether it completes or stops early. */
  lemma {:induction false} FoldLayersRegistered(st: FoldState, items: seq<QueryItem>, registry: Registry)
    requires AllVectorLayers(st.layers, registry)
    ensures AllVectorLayers(FoldItems(st, items, registry).state.layers, registry)
    decreases |items|
  {
    if |items| > 0 {
      var r := ApplyItem(st, items[0], registry);
      if r.error.None? {
        FoldLayersRegistered(r.state, items[1..], registry);
      }
    }
  }

  /** The WKB types of the provider's layers, in layer order, as the geometry-column loop reads them. */
  function LayerTypes(layers: seq<string>, registry: Registry): (r: seq<WkbType>)
    requires AllVectorLayers(layers, registry)
    ensures |r| == |layers|
    ensures forall i :: 0 <= i < |layers| ==> r[i] == registry[layers[i]].geometryType
  {
    seq(|layers|, i requires 0 <= i < |layers| => registry[layers[i]].geometryType)
  }

  /** Every layer the provider keeps is a registered vector layer, so its WKB type can be looked up. */
  lemma OpenLayersRegistered(url: Url, registry: Registry)
    ensures AllVectorLayers(Open(url, registry).layers, registry)
  {
    if url.valid {
      var f := FoldItems(EmptyFold(), url.items, registry);
      FoldLayersRegistered(EmptyFold(), url.items, registry);
      assert Open(url, registry).layers == f.state.layers;
    }
  }

  // ---------------------------------------------------------------------
  // The provider object

  class Provider {
    var valid: bool
    var error: string
    var path: string
    var layers: seq<string>
    var geometryFields: seq<GeometryField>
    var uid: string
    var query: string

    function State(): ProviderState
      reads this
    {
      ProviderState(valid, error, path, layers, geometryFields, uid, query)
    }

    /** The constructor up to the database phase: the URL, the item loop, then the checks. */
    constructor(url: Url, registry: Registry)
      ensures State() == Open(url, registry)
      ensures AllVectorLayers(layers, registry)
    {
      if !url.valid {
        valid, error, path := false, MalformedMessage, "";
        layers, geometryFields, uid, query := [], [], "", "";
      } else {
        var items := url.items;
        var st := EmptyFold();
        var failure: Option<string> := None;
        var i := 0;
        while i < |items| && failure.None?
          invariant 0 <= i <= |items|
          invariant failure.None? ==> FoldItems(EmptyFold(), items[..i], registry) == FoldResult(st, None)
          invariant failure.Some? ==> FoldItems(EmptyFold(), items, registry) == FoldResult(st, failure)
          decreases |items| - i, if failure.None? then 1 else 0
        {
          var key, value := items[i].key, items[i].value;
          ghost var step := ApplyItem(st, items[i], registry);
          FoldAppend(EmptyFold(), items[..i], [items[i]], registry);
          assert items[..i + 1] == items[..i] + [items[i]];
          if key == "layer_id" {
            if value !in registry {
              failure := Some(CannotFindLayer(value));
            } else if registry[value].kind != VectorLayer {
              failure := Some(NotVectorLayer(value));
            } else {
              st := st.(layers := st.layers + [value]);
            }
          } else if key == "geometry" {
            var g := ParseGeometryItem(value);
            if g.Some? {
              st := st.(geometryFields := st.geometryFields + [g.value], geometryName := g.value.name);
            }
          } else if key == "uid" {
            st := st.(uid := value);
          } else if key == "query" {
            st := st.(query := value);
          }
          assert step == FoldResult(st, failure);
          if failure.Some? {
            FoldAppend(EmptyFold(), items[..i + 1], items[i + 1..], registry);
            assert items[..i + 1] + items[i + 1..] == items;
          } else {
            i := i + 1;
          }
        }
        if failure.None? {
          assert items[..i] == items;
        }
        path, layers, geometryFields, uid, query := url.path, st.layers, st.geometryFields, st.uid, st.query;
        if failure.Some? {
          valid, error := false, failure.value;
        } else if |st.layers| > 1 && st.query == "" {
          valid, error := false, JoinMessage;
        } else if st.query != "" && st.uid == "" {
          valid, error := false, UidMessage;
        } else if |st.layers| > 1 && st.geometryName == "" {
          valid, error := false, GeometryMessage;
        } else {
          valid, error := true, "";
        }
      }
      OpenLayersRegistered(url, registry);
    }

    /**
      `has_geometry` of the database phase: the loop over the kept layers
      that looks up each layer's WKB type and sets the flag on a non-zero
      code. Every kept layer's type must be one the switch handles.
     */
    method LayersHaveGeometry(registry: Registry) returns (hasGeometry: bool)
      requires AllVectorLayers(layers, registry)
      requires forall i :: 0 <= i < |layers| ==> !registry[layers[i]].geometryType.WkbUnknown?
      ensures hasGeometry <==> exists i :: 0 <= i < |layers| && registry[layers[i]].geometryType != WkbNoGeometry
    {
      var types := LayerTypes(layers, registry);
      hasGeometry := WkbTable.HasGeometry(types);
    }
  }
}
