/**
 * The desert buffer-zone batch: every feature of the parsed desert collection
 * is mapped twice, once with its polygonal geometry buffered outward by 30 km
 * and once inward by 30 km. Ids become the feature's position. The buffering
 * call (turf.buffer) is an oracle that can also throw or return undefined.
 */
module ScaleDesert {
  import opened Outcomes
  import opened Decimal

  /** A JSON value as JSON.parse produces it. */
  datatype Json =
    | JNull
    | JBool(b: bool)
    | JNumber(n: real)
    | JString(s: string)
    | JArray(items: seq<Json>)
    | JObject(fields: map<string, Json>)

  /** A GeoJSON geometry: its "type" tag and its other members (coordinates, geometries, bbox). */
  datatype Geometry = Geometry(kind: string, members: map<string, Json>)

  /**
   * A GeoJSON feature split into the members the batch touches (id, properties,
   * geometry; None for null or absent) and every other member, kept verbatim.
   */
  datatype Feature = Feature(
    id: Option<Json>,
    properties: Option<map<string, Json>>,
    geometry: Option<Geometry>,
    members: map<string, Json>)

  /** The document written to each output file. */
  datatype FeatureCollection = FeatureCollection(kind: string, features: seq<Feature>)

  datatype BufferOptions = BufferOptions(units: string, steps: nat)

  /** What a call of turf.buffer can do: return a feature, throw, or return undefined (collapsed result). */
  datatype BufferResult = Buffered(geometry: Geometry) | Threw | Undefined

  type BufferOracle = (Geometry, real, BufferOptions) -> BufferResult

  /** The distance in kilometres (SCALE_DISTANCE). */
  const ScaleDistance: real := 30.0

  /** The options of every buffering call. */
  const Options: BufferOptions := BufferOptions("kilometers", 8)

  predicate IsPolygonal(g: Geometry) {
    g.kind == "Polygon" || g.kind == "MultiPolygon"
  }

  /**
   * scaleGeometry: the buffered geometry when turf.buffer returns a feature,
   * otherwise (a throw, or `.geometry` read from undefined) the very same input.
   */
  function ScaleGeometry(buffer: BufferOracle, g: Geometry, distance: real): (r: Geometry)
    ensures buffer(g, distance, Options).Buffered? ==> r == buffer(g, distance, Options).geometry
    ensures !buffer(g, distance, Options).Buffered? ==> r == g
  {
    match buffer(g, distance, Options)
    case Buffered(result) => result
    case Threw => g
    case Undefined => g
  }

  /** The buffering oracle is consulted only with kilometres and 8 steps, at the given distance. */
  lemma ScaleGeometryUsesFixedOptions(b1: BufferOracle, b2: BufferOracle, g: Geometry, distance: real)
    requires b1(g, distance, BufferOptions("kilometers", 8)) == b2(g, distance, BufferOptions("kilometers", 8))
    ensures ScaleGeometry(b1, g, distance) == ScaleGeometry(b2, g, distance)
  {
  }

  /** The properties a feature carries; `...null` spreads nothing. */
  function PropertiesOf(f: Feature): map<string, Json> {
    f.properties.GetOr(map[])
  }

  function IdOf(idx: nat): Json {
    JString(NatToString(idx))
  }

  /** The callback of one `features.map`: ids overwritten with the position, geometry buffered if polygonal. */
  function MapFeature(buffer: BufferOracle, f: Feature, idx: nat, distance: real): (r: Feature)
    requires f.geometry.Some?
    ensures r.id == Some(IdOf(idx))
    ensures r.properties.Some?
    ensures r.properties.value.Keys == PropertiesOf(f).Keys + {"id"}
    ensures r.properties.value["id"] == IdOf(idx)
    ensures forall k :: k in PropertiesOf(f) && k != "id" ==> r.properties.value[k] == PropertiesOf(f)[k]
    ensures r.members == f.members
    ensures !IsPolygonal(f.geometry.value) ==> r.geometry == f.geometry
    ensures IsPolygonal(f.geometry.value) ==> r.geometry == Some(ScaleGeometry(buffer, f.geometry.value, distance))
  {
    var g := f.geometry.value;
    Feature(
      Some(IdOf(idx)),
      Some(PropertiesOf(f)["id" := IdOf(idx)]),
      if IsPolygonal(g) then Some(ScaleGeometry(buffer, g, distance)) else f.geometry,
      f.members)
  }

  predicate AllHaveGeometry(fs: seq<Feature>) {
    forall i :: 0 <= i < |fs| ==> fs[i].geometry.Some?
  }

  /** `features.map(callback)`: one output per input, in input order. */
  function MapFeatures(buffer: BufferOracle, fs: seq<Feature>, distance: real): (r: seq<Feature>)
    requires AllHaveGeometry(fs)
    ensures |r| == |fs|
    ensures forall i :: 0 <= i < |fs| ==> r[i] == MapFeature(buffer, fs[i], i, distance)
  {
    seq(|fs|, i requires 0 <= i < |fs| => MapFeature(buffer, fs[i], i, distance))
  }

  /** What one run produces: both documents, or the TypeError of reading `.type` of a null geometry. */
  datatype Run = Written(outer: FeatureCollection, inner: FeatureCollection) | NullGeometry

  function Document(features: seq<Feature>): FeatureCollection {
    FeatureCollection("FeatureCollection", features)
  }

  /** The whole batch over the parsed input features. */
  function ScaleDeserts(buffer: BufferOracle, fs: seq<Feature>): (r: Run)
    ensures r.NullGeometry? <==> exists i :: 0 <= i < |fs| && fs[i].geometry.None?
    ensures r.Written? ==> r.outer.kind == "FeatureCollection" && r.inner.kind == "FeatureCollection"
    ensures r.Written? ==> |r.outer.features| == |fs| && |r.inner.features| == |fs|
    ensures r.Written? ==> r.outer.features == MapFeatures(buffer, fs, ScaleDistance)
    ensures r.Written? ==> r.inner.features == MapFeatures(buffer, fs, -ScaleDistance)
  {
    if AllHaveGeometry(fs) then
      Written(Document(MapFeatures(buffer, fs, ScaleDistance)), Document(MapFeatures(buffer, fs, -ScaleDistance)))
    else
      NullGeometry
  }

  /** Output feature i of either collection carries id String(i), also under properties.id. */
  lemma IdsArePositions(buffer: BufferOracle, fs: seq<Feature>, i: nat)
    requires ScaleDeserts(buffer, fs).Written? && i < |fs|
    ensures var r := ScaleDeserts(buffer, fs);
      && r.outer.features[i].id == Some(JString(NatToString(i)))
      && r.inner.features[i].id == Some(JString(NatToString(i)))
      && r.outer.features[i].properties.value["id"] == JString(NatToString(i))
      && r.inner.features[i].properties.value["id"] == JString(NatToString(i))
  {
  }

  /** No two output features share an id. */
  lemma IdsAreDistinct(buffer: BufferOracle, fs: seq<Feature>, i: nat, j: nat, distance: real)
    requires AllHaveGeometry(fs) && i < |fs| && j < |fs| && i != j
    ensures MapFeatures(buffer, fs, distance)[i].id != MapFeatures(buffer, fs, distance)[j].id
  {
    if NatToString(i) == NatToString(j) {
      NatToStringInjective(i, j);
    }
  }

  /** A non-polygonal feature has the same geometry and members in the input and in both outputs. */
  lemma NonPolygonalPassThrough(buffer: BufferOracle, fs: seq<Feature>, i: nat)
    requires ScaleDeserts(buffer, fs).Written? && i < |fs|
    requires !IsPolygonal(fs[i].geometry.value)
    ensures var r := ScaleDeserts(buffer, fs);
      && r.outer.features[i] == r.inner.features[i]
      && r.outer.features[i].geometry == fs[i].geometry
      && r.outer.features[i].members == fs[i].members
  {
  }

  /** A polygonal feature is buffered by +30 km in the outer and by -30 km in the inner collection. */
  lemma PolygonalBuffered(buffer: BufferOracle, fs: seq<Feature>, i: nat)
    requires ScaleDeserts(buffer, fs).Written? && i < |fs|
    requires IsPolygonal(fs[i].geometry.value)
    ensures var r := ScaleDeserts(buffer, fs);
      && r.outer.features[i].geometry == Some(ScaleGeometry(buffer, fs[i].geometry.value, 30.0))
      && r.inner.features[i].geometry == Some(ScaleGeometry(buffer, fs[i].geometry.value, -30.0))
  {
  }

  /** When buffering fails in one direction, that output keeps the feature's original geometry. */
  lemma FallbackKeepsGeometry(buffer: BufferOracle, fs: seq<Feature>, i: nat)
    requires ScaleDeserts(buffer, fs).Written? && i < |fs|
    ensures !buffer(fs[i].geometry.value, 30.0, Options).Buffered? ==>
      ScaleDeserts(buffer, fs).outer.features[i].geometry == fs[i].geometry
    ensures !buffer(fs[i].geometry.value, -30.0, Options).Buffered? ==>
      ScaleDeserts(buffer, fs).inner.features[i].geometry == fs[i].geometry
  {
  }

  /** Outer and inner entries differ at most in their geometry. */
  lemma OuterInnerDifferOnlyInGeometry(buffer: BufferOracle, fs: seq<Feature>, i: nat)
    requires ScaleDeserts(buffer, fs).Written? && i < |fs|
    ensures var r := ScaleDeserts(buffer, fs);
      && r.outer.features[i].id == r.inner.features[i].id
      && r.outer.features[i].properties == r.inner.features[i].properties
      && r.outer.features[i].members == r.inner.features[i].members
  {
  }
}
