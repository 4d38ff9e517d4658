/**
 * Points, rings and GeoJSON snapshots shared by the drawing widgets, and the
 * unit conversion from the geometry library's square metres to hectares.
 *
 * Leaflet orders a point (latitude, longitude); GeoJSON stores a position as
 * the pair [longitude, latitude]. The two conversions are explicit here.
 */
module Geo {

  /** A Leaflet `L.latLng(lat, lng)`. */
  datatype LatLng = LatLng(lat: real, lng: real)

  /** A GeoJSON position `[coord[0], coord[1]]`, i.e. `[lng, lat]`. */
  type Position = (real, real)

  /** A polygon's outer ring as Leaflet holds it. */
  type Ring = seq<LatLng>

  /** The GeoJSON ring `geometry.coordinates[0]`. */
  type GeoRing = seq<Position>

  /**
   * What `toGeoJSON()` returns and what the history stacks hold: a single
   * polygon `Feature` (its outer ring), or a `FeatureCollection` of polygons,
   * which is what a layer group such as the EDITED event's `e.layers` yields.
   */
  datatype Snapshot = Feature(ring: GeoRing) | Collection(rings: seq<GeoRing>)

  /** A layer handed to `saveToHistory`: a drawn polygon or a group of them. */
  datatype Layer = Polygon(ring: Ring) | Group(rings: seq<Ring>)

  /** A member of the "drawn items" feature group. */
  datatype Drawn =
    | Shape(ring: Ring)              // a polygon layer (drawn, or built with `L.polygon`)
    | FromGeoJson(data: Snapshot)    // `L.geoJSON(snapshot)`

  /** Ten to the sixth: `toGeoJSON` keeps six decimal places by default. */
  const Scale: real := 1000000.0

  /**
   * Leaflet's `formatNum` at its default precision, `Math.round(x * 1e6) / 1e6`,
   * which `toGeoJSON` applies to every coordinate it writes. `Math.round`
   * takes halves upwards.
   */
  function FormatNum(x: real): (y: real)
    ensures x - 0.0000005 < y <= x + 0.0000005
    ensures (y * Scale).Floor as real == y * Scale
  {
    (x * Scale + 0.5).Floor as real / Scale
  }

  /** A coordinate that already has at most six decimals is written unchanged. */
  lemma FormatNumIdempotent(x: real)
    ensures FormatNum(FormatNum(x)) == FormatNum(x)
  {
    var n := (x * Scale + 0.5).Floor;
    assert FormatNum(x) * Scale == n as real;
    assert (n as real + 0.5).Floor == n;
  }

  /** `L.latLng(coord[1], coord[0])`: the stored `[lng, lat]` pair swapped. */
  function DecodePoint(c: Position): LatLng
  {
    LatLng(c.1, c.0)
  }

  /** A vertex with both coordinates rounded to six decimals. */
  function RoundPoint(p: LatLng): LatLng
  {
    LatLng(FormatNum(p.lat), FormatNum(p.lng))
  }

  /** How `toGeoJSON()` writes one vertex: `[lng, lat]`, each rounded. */
  function EncodePoint(p: LatLng): (c: Position)
    ensures DecodePoint(c) == RoundPoint(p)
  {
    (FormatNum(p.lng), FormatNum(p.lat))
  }

  /**
   * Reading a stored position and writing it again rounds it; a position
   * that already has six decimals, as every stored one does, comes back as it was.
   */
  lemma EncodeDecodePoint(c: Position)
    ensures EncodePoint(DecodePoint(c)) == (FormatNum(c.0), FormatNum(c.1))
    ensures FormatNum(c.0) == c.0 && FormatNum(c.1) == c.1 ==> EncodePoint(DecodePoint(c)) == c
  {
  }

  /** A vertex written, read back and written again gives the same position. */
  lemma ReencodePoint(p: LatLng)
    ensures EncodePoint(DecodePoint(EncodePoint(p))) == EncodePoint(p)
  {
    FormatNumIdempotent(p.lat);
    FormatNumIdempotent(p.lng);
  }

  /** `coordinates.map((coord) => L.latLng(coord[1], coord[0]))`. */
  function DecodeRing(coords: GeoRing): (r: Ring)
    ensures |r| == |coords|
    ensures forall i :: 0 <= i < |coords| ==> r[i] == DecodePoint(coords[i])
  {
    seq(|coords|, i requires 0 <= i < |coords| => DecodePoint(coords[i]))
  }

  /** Every vertex written as `[lng, lat]`, in order. */
  function EncodePoints(ring: Ring): (coords: GeoRing)
    ensures |coords| == |ring|
    ensures forall i :: 0 <= i < |ring| ==> coords[i] == EncodePoint(ring[i])
  {
    seq(|ring|, i requires 0 <= i < |ring| => EncodePoint(ring[i]))
  }

  /** Every vertex rounded to six decimals, in order. */
  function RoundRing(ring: Ring): (r: Ring)
    ensures |r| == |ring|
    ensures forall i :: 0 <= i < |ring| ==> r[i] == RoundPoint(ring[i])
  {
    seq(|ring|, i requires 0 <= i < |ring| => RoundPoint(ring[i]))
  }

  /** A ring closed the GeoJSON way: its first vertex repeated at the end. */
  function Close<T>(ring: seq<T>): (r: seq<T>)
    ensures ring != [] ==> |r| == |ring| + 1 && r[..|ring|] == ring && r[|ring|] == ring[0]
    ensures ring == [] ==> r == []
  {
    if ring == [] then [] else ring + [ring[0]]
  }

  /** A polygon's outer ring as `toGeoJSON()` stores it: encoded and closed. */
  function EncodeRing(ring: Ring): GeoRing
  {
    Close(EncodePoints(ring))
  }

  /**
   * Rebuilding a ring from the snapshot of a drawn polygon gives back the
   * drawn ring rounded to six decimals and closed: the swap undoes
   * `toGeoJSON`'s `[lng, lat]` order.
   */
  lemma DecodeEncodeRing(ring: Ring)
    ensures DecodeRing(EncodeRing(ring)) == Close(RoundRing(ring))
  {
    var coords := EncodePoints(ring);
    var r := DecodeRing(EncodeRing(ring));
    var expected := Close(RoundRing(ring));
    if ring != [] {
      assert |r| == |expected|;
      forall i | 0 <= i < |r|
        ensures r[i] == expected[i]
      {
        if i < |ring| {
          assert r[i] == DecodePoint(coords[i]);
        } else {
          assert r[i] == DecodePoint(coords[0]);
        }
      }
    }
  }

  /** `layer.toGeoJSON()` for the layers that reach `saveToHistory`. */
  function ToGeoJson(layer: Layer): (s: Snapshot)
    ensures layer.Polygon? <==> s.Feature?
    ensures layer.Polygon? ==> DecodeRing(s.ring) == Close(RoundRing(layer.ring))
    ensures layer.Group? ==> |s.rings| == |layer.rings|
    ensures layer.Group? ==> forall i :: 0 <= i < |s.rings| ==>
      DecodeRing(s.rings[i]) == Close(RoundRing(layer.rings[i]))
  {
    match layer
    case Polygon(ring) =>
      DecodeEncodeRing(ring);
      Feature(EncodeRing(ring))
    case Group(rings) => Collection(EncodeRings(rings))
  }

  /** The rings of a group's FeatureCollection, one per member, in order. */
  function EncodeRings(rings: seq<Ring>): (r: seq<GeoRing>)
    ensures |r| == |rings|
    ensures forall i :: 0 <= i < |rings| ==> r[i] == EncodeRing(rings[i])
    ensures forall i :: 0 <= i < |rings| ==> DecodeRing(r[i]) == Close(RoundRing(rings[i]))
  {
    var r := seq(|rings|, i requires 0 <= i < |rings| => EncodeRing(rings[i]));
    assert forall i :: 0 <= i < |rings| ==> DecodeRing(r[i]) == Close(RoundRing(rings[i])) by {
      forall i | 0 <= i < |rings| {
        DecodeEncodeRing(rings[i]);
      }
    }
    r
  }

  /** `calculateArea`: the library's geodesic area in m², divided by 10 000. */
  function Hectares(geodesicArea: Ring -> real, ring: Ring): (h: real)
    ensures h * 10000.0 == geodesicArea(ring)
  {
    geodesicArea(ring) / 10000.0
  }

  /**
   * The area undo, redo and the initial load report for a snapshot: its
   * outer ring, swapped back to (lat, lng), measured in hectares.
   */
  function RestoredHectares(geodesicArea: Ring -> real, s: Snapshot): (h: real)
    requires s.Feature?
  {
    Hectares(geodesicArea, DecodeRing(s.ring))
  }

  /**
   * Restoring the snapshot of a drawn polygon measures the drawn ring,
   * rounded to six decimals and closed.
   */
  lemma RestoredPolygonHectares(geodesicArea: Ring -> real, ring: Ring)
    ensures RestoredHectares(geodesicArea, ToGeoJson(Polygon(ring))) == Hectares(geodesicArea, Close(RoundRing(ring)))
  {
    DecodeEncodeRing(ring);
  }

  /** The sum of the rings' hectares, first to last. */
  function SumHectares(geodesicArea: Ring -> real, rings: seq<Ring>): real
  {
    if rings == [] then 0.0
    else SumHectares(geodesicArea, rings[..|rings| - 1]) + Hectares(geodesicArea, rings[|rings| - 1])
  }

  /** The batch total does not depend on how the batch is split. */
  lemma {:induction false} SumHectaresAppend(geodesicArea: Ring -> real, a: seq<Ring>, b: seq<Ring>)
    ensures SumHectares(geodesicArea, a + b) == SumHectares(geodesicArea, a) + SumHectares(geodesicArea, b)
  {
    if b == [] {
      assert a + b == a;
    } else {
      var last := |b| - 1;
      assert (a + b)[..|a + b| - 1] == a + b[..last];
      SumHectaresAppend(geodesicArea, a, b[..last]);
    }
  }

  /**
   * The EDITED handler's `eachLayer` loop: `totalArea += calculateArea(...)`
   * over the outer ring of every edited layer.
   */
  method EditedTotal(geodesicArea: Ring -> real, rings: seq<Ring>) returns (total: real)
    ensures total == SumHectares(geodesicArea, rings)
    ensures |rings| == 1 ==> total == Hectares(geodesicArea, rings[0])
  {
    total := 0.0;
    var i := 0;
    while i < |rings|
      invariant 0 <= i <= |rings|
      invariant total == SumHectares(geodesicArea, rings[..i])
    {
      assert rings[..i + 1][..i] == rings[..i];
      total := total + Hectares(geodesicArea, rings[i]);
      i := i + 1;
    }
    assert rings[..i] == rings;
  }
}
