/**
 * The polygon-drawing widget's draw history: two stacks of GeoJSON snapshots
 * (`refs.current.drawHistory.undo` / `.redo`, top at the end), the "drawn
 * items" feature group, the reported area, and the undo/redo button flags.
 *
 * One class serves both copies of the widget. `MapWritePolygon` also loads an
 * optional initial polygon and passes every created polygon to
 * `onPolygonChange`; `MapComponent` does neither.
 */
module DrawHistory {
  import opened Wrappers
  import opened Geo
  import opened BaseLayers

  class Session {
    /** The geometry library's geodesic area in m² (`L.GeometryUtil.geodesicArea`). */
    const geodesicArea: Ring -> real
    /** Whether CREATED calls `onPolygonChange` (MapWritePolygon) or not (MapComponent). */
    const emitsPolygon: bool
    /** The `initialPolygon` prop (always absent for MapComponent). */
    const initialPolygon: Option<Snapshot>
    /** The base tile layers of the current map. */
    const baseLayers: BaseLayerSwitch

    /** `refs.current.map != null`. */
    var mapReady: bool
    /** The members of `refs.current.drawnItems`, in the order they were added. */
    var drawn: seq<Drawn>
    var undo: seq<Snapshot>
    var redo: seq<Snapshot>
    /** The `currentArea` state, in hectares. */
    var currentArea: real
    var canUndo: bool
    var canRedo: bool
    /** Every value passed to `onAreaSelect`, oldest first. */
    var areaReports: seq<real>
    /** Every value passed to `onPolygonChange`, oldest first. */
    var polygonReports: seq<Snapshot>

    /** The button flags mirror the stacks; the initial polygon is a Feature. */
    ghost predicate Valid()
      reads this
    {
      && canUndo == (|undo| > 0)
      && canRedo == (|redo| > 0)
      && (initialPolygon.Some? ==> initialPolygon.value.Feature?)
    }

    /**
     * The map shows exactly the top of the undo stack and reports its area,
     * or shows nothing and reports 0 when the stack is empty.
     */
    ghost predicate ShowsTop()
      reads this
    {
      if undo == [] then drawn == [] && currentArea == 0.0
      else
        var top := undo[|undo| - 1];
        top.Feature? && drawn == [FromGeoJson(top)] && currentArea == RestoredHectares(geodesicArea, top)
    }

    /** The snapshot undo would restore, if any, can be read as a single polygon. */
    ghost predicate UndoReadable()
      reads this
    {
      |undo| >= 2 ==> undo[|undo| - 2].Feature?
    }

    /** The snapshot redo would restore, if any, can be read as a single polygon. */
    ghost predicate RedoReadable()
      reads this
    {
      redo != [] ==> redo[|redo| - 1].Feature?
    }

    /** The component's initial refs and state, with an `initialPolygon` prop. */
    constructor ForWritePolygon(geodesicArea: Ring -> real, initialPolygon: Option<Snapshot>)
      requires initialPolygon.Some? ==> initialPolygon.value.Feature?
      ensures Valid() && ShowsTop()
      ensures this.geodesicArea == geodesicArea && emitsPolygon && this.initialPolygon == initialPolygon
      ensures !mapReady && drawn == [] && undo == [] && redo == [] && currentArea == 0.0
      ensures areaReports == [] && polygonReports == []
      ensures fresh(baseLayers) && baseLayers.attached == {}
    {
      this.geodesicArea := geodesicArea;
      emitsPolygon := true;
      this.initialPolygon := initialPolygon;
      baseLayers := new BaseLayerSwitch();
      mapReady := false;
      drawn, undo, redo := [], [], [];
      currentArea, canUndo, canRedo := 0.0, false, false;
      areaReports, polygonReports := [], [];
    }

    /** MapComponent's initial refs and state: no initial polygon, no polygon callback. */
    constructor ForMapComponent(geodesicArea: Ring -> real)
      ensures Valid() && ShowsTop()
      ensures this.geodesicArea == geodesicArea && !emitsPolygon && initialPolygon.None?
      ensures !mapReady && drawn == [] && undo == [] && redo == [] && currentArea == 0.0
      ensures areaReports == [] && polygonReports == []
      ensures fresh(baseLayers) && baseLayers.attached == {}
    {
      this.geodesicArea := geodesicArea;
      emitsPolygon := false;
      initialPolygon := None;
      baseLayers := new BaseLayerSwitch();
      mapReady := false;
      drawn, undo, redo := [], [], [];
      currentArea, canUndo, canRedo := 0.0, false, false;
      areaReports, polygonReports := [], [];
    }

    /** `updateHistoryButtons`: each flag says whether its stack is non-empty. */
    method UpdateHistoryButtons()
      modifies this`canUndo, this`canRedo
      ensures canUndo == (|undo| > 0) && canRedo == (|redo| > 0)
    {
      canUndo := |undo| > 0;
      canRedo := |redo| > 0;
    }

    /** `updateArea`: set the displayed area and pass it to `onAreaSelect`. */
    method UpdateArea(hectares: real)
      modifies this`currentArea, this`areaReports
      ensures currentArea == hectares
      ensures areaReports == old(areaReports) + [hectares]
    {
      currentArea := hectares;
      areaReports := areaReports + [hectares];
    }

    /**
     * `saveToHistory`: a missing layer changes nothing; otherwise the layer's
     * GeoJSON is pushed on `undo` and `redo` is emptied (history is linear).
     */
    method SaveToHistory(layer: Option<Layer>)
      requires Valid()
      modifies this`undo, this`redo, this`canUndo, this`canRedo
      ensures Valid()
      ensures layer.None? ==> undo == old(undo) && redo == old(redo)
      ensures layer.Some? ==> undo == old(undo) + [ToGeoJson(layer.value)] && redo == []
    {
      if layer.None? {
        return;
      }
      var geoJson := ToGeoJson(layer.value);
      undo := undo + [geoJson];
      redo := [];
      UpdateHistoryButtons();
    }

    /**
     * The map-initialisation effect. It does nothing while a map exists;
     * otherwise it makes the map with the street layer and an empty
     * drawn-items group, and renders the initial polygon, if any, reporting
     * the area of its outer ring. The history stacks are not touched.
     */
    method Mount()
      requires Valid()
      modifies this, baseLayers
      ensures Valid()
      ensures old(mapReady) ==> unchanged(this) && unchanged(baseLayers)
      ensures !old(mapReady) ==> mapReady && baseLayers.attached == {Street}
      ensures !old(mapReady) && initialPolygon.None? ==>
        drawn == [] && currentArea == old(currentArea) && areaReports == old(areaReports)
      ensures !old(mapReady) && initialPolygon.Some? ==>
        && drawn == [FromGeoJson(initialPolygon.value)]
        && currentArea == RestoredHectares(geodesicArea, initialPolygon.value)
        && areaReports == old(areaReports) + [currentArea]
      ensures undo == old(undo) && redo == old(redo) && polygonReports == old(polygonReports)
    {
      if mapReady {
        return;
      }
      mapReady := true;
      baseLayers.Reset();
      drawn := [];
      if initialPolygon.Some? {
        var polygon := initialPolygon.value;
        drawn := drawn + [FromGeoJson(polygon)];
        var latLngs := DecodeRing(polygon.ring);
        UpdateArea(Hectares(geodesicArea, latLngs));
      }
    }

    /** The effect's cleanup: remove the map, which detaches every layer, and forget it. */
    method Unmount()
      modifies this`mapReady, baseLayers
      ensures !mapReady
      ensures old(mapReady) ==> baseLayers.attached == {}
      ensures !old(mapReady) ==> unchanged(baseLayers)
    {
      if mapReady {
        baseLayers.DetachAll();
        mapReady := false;
      }
    }

    /**
     * The CREATED handler: add the drawn polygon, report its area, push one
     * snapshot, and (MapWritePolygon only) pass its GeoJSON to `onPolygonChange`.
     */
    method Created(ring: Ring)
      requires Valid()
      modifies this
      ensures Valid()
      ensures drawn == old(drawn) + [Shape(ring)]
      ensures currentArea == Hectares(geodesicArea, ring)
      ensures areaReports == old(areaReports) + [currentArea]
      ensures undo == old(undo) + [Feature(EncodeRing(ring))] && redo == []
      ensures polygonReports == old(polygonReports) + (if emitsPolygon then [Feature(EncodeRing(ring))] else [])
      ensures mapReady == old(mapReady)
    {
      var layer := Polygon(ring);
      drawn := drawn + [Shape(ring)];
      var hectares := Hectares(geodesicArea, ring);
      UpdateArea(hectares);
      SaveToHistory(Some(layer));
      if emitsPolygon {
        polygonReports := polygonReports + [ToGeoJson(layer)];
      }
    }

    /**
     * The EDITED handler: report the sum of the edited layers' areas and push
     * one snapshot, the whole batch's FeatureCollection.
     */
    method Edited(rings: seq<Ring>)
      requires Valid()
      modifies this
      ensures Valid()
      ensures currentArea == SumHectares(geodesicArea, rings)
      ensures areaReports == old(areaReports) + [currentArea]
      ensures undo == old(undo) + [Collection(EncodeRings(rings))] && redo == []
      ensures drawn == old(drawn) && polygonReports == old(polygonReports) && mapReady == old(mapReady)
    {
      var totalArea := EditedTotal(geodesicArea, rings);
      UpdateArea(totalArea);
      SaveToHistory(Some(Group(rings)));
    }

    /**
     * `handleUndo`: nothing on an empty stack; otherwise the top of `undo`
     * moves onto `redo` and the map shows the new top of `undo` (or nothing,
     * reporting 0).
     */
    method Undo()
      requires Valid() && UndoReadable()
      modifies this
      ensures Valid()
      ensures old(undo) == [] ==> unchanged(this)
      ensures old(undo) != [] ==>
        && undo == old(undo)[..|old(undo)| - 1]
        && redo == old(redo) + [old(undo)[|old(undo)| - 1]]
        && ShowsTop()
        && areaReports == old(areaReports) + [currentArea]
      ensures polygonReports == old(polygonReports) && mapReady == old(mapReady)
    {
      if |undo| > 0 {
        var lastState := undo[|undo| - 1];
        undo := undo[..|undo| - 1];
        redo := redo + [lastState];
        drawn := [];
        if |undo| > 0 {
          var previousState := undo[|undo| - 1];
          drawn := drawn + [FromGeoJson(previousState)];
          var latLngs := DecodeRing(previousState.ring);
          UpdateArea(Hectares(geodesicArea, latLngs));
        } else {
          UpdateArea(0.0);
        }
        UpdateHistoryButtons();
      }
    }

    /**
     * `handleRedo`: nothing on an empty stack; otherwise the top of `redo`
     * moves back onto `undo` and the map shows only it, reporting its area.
     */
    method Redo()
      requires Valid() && RedoReadable()
      modifies this
      ensures Valid()
      ensures old(redo) == [] ==> unchanged(this)
      ensures old(redo) != [] ==>
        && redo == old(redo)[..|old(redo)| - 1]
        && undo == old(undo) + [old(redo)[|old(redo)| - 1]]
        && ShowsTop()
        && areaReports == old(areaReports) + [currentArea]
      ensures polygonReports == old(polygonReports) && mapReady == old(mapReady)
    {
      if |redo| > 0 {
        var nextState := redo[|redo| - 1];
        redo := redo[..|redo| - 1];
        undo := undo + [nextState];
        drawn := [];
        drawn := drawn + [FromGeoJson(nextState)];
        var latLngs := DecodeRing(nextState.ring);
        UpdateArea(Hectares(geodesicArea, latLngs));
        UpdateHistoryButtons();
      }
    }

    /** `handleClear`: from any state, no drawings, no history, area 0. */
    method Clear()
      requires Valid()
      modifies this
      ensures Valid() && ShowsTop()
      ensures drawn == [] && undo == [] && redo == [] && currentArea == 0.0
      ensures !canUndo && !canRedo
      ensures areaReports == old(areaReports) + [0.0]
      ensures polygonReports == old(polygonReports) && mapReady == old(mapReady)
    {
      drawn := [];
      undo, redo := [], [];
      UpdateArea(0.0);
      UpdateHistoryButtons();
    }

    /** The map-type effect: only while a map exists, switch its base layer. */
    method SwitchMapType(mapType: string)
      modifies baseLayers
      ensures old(mapReady) ==> baseLayers.attached == AttachedFor(mapType)
      ensures !old(mapReady) ==> unchanged(baseLayers)
    {
      if !mapReady {
        return;
      }
      baseLayers.Switch(mapType);
    }

    /**
     * Undo immediately followed by redo: both stacks come back as they were,
     * the map shows the top of `undo`, and a state that already showed its
     * top (after an earlier undo or redo) is restored exactly. Two areas are
     * reported: the one below the top (or 0), then the top's again.
     */
    method UndoThenRedo()
      requires Valid() && UndoReadable() && undo != [] && undo[|undo| - 1].Feature?
      modifies this
      ensures Valid() && ShowsTop() && UndoReadable()
      ensures undo == old(undo) && redo == old(redo)
      ensures old(ShowsTop()) ==> drawn == old(drawn) && currentArea == old(currentArea)
      ensures areaReports == old(areaReports) + [
        if |undo| >= 2 then RestoredHectares(geodesicArea, undo[|undo| - 2]) else 0.0,
        currentArea]
      ensures polygonReports == old(polygonReports) && mapReady == old(mapReady)
    {
      Undo();
      Redo();
      assert old(undo)[..|old(undo)| - 1] + [old(undo)[|old(undo)| - 1]] == old(undo);
    }

    /**
     * A sequence of CREATED events: one shape, one area report and one
     * snapshot per polygon, in drawing order; `redo` ends empty and the area
     * shown is the last polygon's.
     */
    method CreatedMany(rings: seq<Ring>)
      requires Valid()
      modifies this
      ensures Valid()
      ensures undo == old(undo) + Features(rings)
      ensures drawn == old(drawn) + Shapes(rings)
      ensures areaReports == old(areaReports) + HectaresEach(geodesicArea, rings)
      ensures polygonReports == old(polygonReports) + (if emitsPolygon then Features(rings) else [])
      ensures rings != [] ==> redo == [] && canUndo && !canRedo && currentArea == Hectares(geodesicArea, rings[|rings| - 1])
      ensures rings == [] ==> redo == old(redo) && currentArea == old(currentArea)
      ensures mapReady == old(mapReady)
    {
      var i := 0;
      while i < |rings|
        invariant 0 <= i <= |rings|
        invariant Valid() && mapReady == old(mapReady)
        invariant undo == old(undo) + Features(rings[..i])
        invariant drawn == old(drawn) + Shapes(rings[..i])
        invariant areaReports == old(areaReports) + HectaresEach(geodesicArea, rings[..i])
        invariant polygonReports == old(polygonReports) + (if emitsPolygon then Features(rings[..i]) else [])
        invariant i > 0 ==> redo == [] && currentArea == Hectares(geodesicArea, rings[i - 1])
        invariant i == 0 ==> redo == old(redo) && currentArea == old(currentArea)
      {
        var feature := Feature(EncodeRing(rings[i]));
        ExtendPrefix(geodesicArea, rings, i);
        Created(rings[i]);
        Extend(old(undo), Features(rings[..i]), feature, Features(rings[..i + 1]), undo);
        Extend(old(drawn), Shapes(rings[..i]), Shape(rings[i]), Shapes(rings[..i + 1]), drawn);
        Extend(old(areaReports), HectaresEach(geodesicArea, rings[..i]), currentArea, HectaresEach(geodesicArea, rings[..i + 1]), areaReports);
        if emitsPolygon {
          Extend(old(polygonReports), Features(rings[..i]), feature, Features(rings[..i + 1]), polygonReports);
        }
        i := i + 1;
      }
      assert rings[..i] == rings;
    }
  }

  /** The layers a run of CREATED events adds: one per polygon, in order. */
  function Shapes(rings: seq<Ring>): (r: seq<Drawn>)
    ensures |r| == |rings|
  {
    seq(|rings|, i requires 0 <= i < |rings| => Shape(rings[i]))
  }

  /** The snapshots a run of CREATED events pushes: one Feature per polygon, in order. */
  function Features(rings: seq<Ring>): (r: seq<Snapshot>)
    ensures |r| == |rings|
  {
    seq(|rings|, i requires 0 <= i < |rings| => Feature(EncodeRing(rings[i])))
  }

  /** The areas a run of CREATED events reports: each polygon's hectares, in order. */
  function HectaresEach(geodesicArea: Ring -> real, rings: seq<Ring>): (r: seq<real>)
    ensures |r| == |rings|
  {
    seq(|rings|, i requires 0 <= i < |rings| => Hectares(geodesicArea, rings[i]))
  }

  /** One more polygon drawn adds one shape, one snapshot and one area at the end. */
  lemma ExtendPrefix(geodesicArea: Ring -> real, rings: seq<Ring>, i: nat)
    requires i < |rings|
    ensures Shapes(rings[..i + 1]) == Shapes(rings[..i]) + [Shape(rings[i])]
    ensures Features(rings[..i + 1]) == Features(rings[..i]) + [Feature(EncodeRing(rings[i]))]
    ensures HectaresEach(geodesicArea, rings[..i + 1]) == HectaresEach(geodesicArea, rings[..i]) + [Hectares(geodesicArea, rings[i])]
  {
  }

  /** One more element appended after a prefix extends the part that follows the prefix. */
  lemma Extend<T>(start: seq<T>, done: seq<T>, x: T, next: seq<T>, s: seq<T>)
    requires next == done + [x]
    requires s == (start + done) + [x]
    ensures s == start + next
  {
  }
}
