/**
 * The read-mostly map of a listing's detail page: created once, shows a saved
 * area, reports areas of newly drawn polygons, and switches base layers.
 */
module MapDetails {
  import opened Wrappers
  import opened Geo
  import opened BaseLayers

  /** The `savedArea` prop: a ring already in (lat, lng) order and its stored area. */
  datatype SavedArea = SavedArea(coordinates: Ring, area: real)

  class DetailsMap {
    /** The geometry library's geodesic area in m². */
    const geodesicArea: Ring -> real
    /** The base tile layers of the current map. */
    const baseLayers: BaseLayerSwitch

    /** `mapRef.current != null`. */
    var hasMap: bool
    /** How many times `L.map(...)` has been called. */
    var mapsCreated: nat
    /** `drawnItemsRef.current`: null until the first map is made, then its members. */
    var drawnItems: Option<seq<Drawn>>
    /** Every value passed to `onAreaSelect`, oldest first. */
    var areaReports: seq<real>

    /** The drawn-items group exists exactly once some map has been created. */
    ghost predicate Valid()
      reads this
    {
      && (hasMap ==> mapsCreated > 0)
      && (drawnItems.Some? <==> mapsCreated > 0)
    }

    constructor (geodesicArea: Ring -> real)
      ensures Valid()
      ensures this.geodesicArea == geodesicArea
      ensures !hasMap && mapsCreated == 0 && drawnItems.None? && areaReports == []
      ensures fresh(baseLayers) && baseLayers.attached == {}
    {
      this.geodesicArea := geodesicArea;
      baseLayers := new BaseLayerSwitch();
      hasMap := false;
      mapsCreated := 0;
      drawnItems := None;
      areaReports := [];
    }

    /**
     * The setup effect. A map is created only when none exists (with the
     * street layer and an empty drawn-items group). Then, when a saved area
     * is given, the drawings are cleared and replaced by that one polygon,
     * and its stored area is reported verbatim.
     */
    method Setup(savedArea: Option<SavedArea>)
      requires Valid()
      modifies this, baseLayers
      ensures Valid()
      ensures hasMap && drawnItems.Some?
      ensures old(hasMap) ==> mapsCreated == old(mapsCreated) && unchanged(baseLayers)
      ensures !old(hasMap) ==> mapsCreated == old(mapsCreated) + 1 && baseLayers.attached == {Street}
      ensures savedArea.None? ==> areaReports == old(areaReports)
      ensures savedArea.None? && old(hasMap) ==> drawnItems == old(drawnItems)
      ensures savedArea.None? && !old(hasMap) ==> drawnItems == Some([])
      ensures savedArea.Some? ==>
        && drawnItems == Some([Shape(savedArea.value.coordinates)])
        && areaReports == old(areaReports) + [savedArea.value.area]
    {
      if !hasMap {
        hasMap := true;
        mapsCreated := mapsCreated + 1;
        baseLayers.Reset();
        drawnItems := Some([]);
      }
      if savedArea.Some? && hasMap && drawnItems.Some? {
        drawnItems := Some([]);
        var polygon := Shape(savedArea.value.coordinates);
        drawnItems := Some(drawnItems.value + [polygon]);
        assert drawnItems.value == [polygon];
        areaReports := areaReports + [savedArea.value.area];
      }
    }

    /** The CREATED handler: add the layer (if the group exists) and report its hectares. */
    method Created(ring: Ring)
      requires Valid()
      modifies this`drawnItems, this`areaReports
      ensures Valid()
      ensures old(drawnItems).None? ==> drawnItems.None?
      ensures old(drawnItems).Some? ==> drawnItems == Some(old(drawnItems).value + [Shape(ring)])
      ensures areaReports == old(areaReports) + [Hectares(geodesicArea, ring)]
    {
      if drawnItems.Some? {
        drawnItems := Some(drawnItems.value + [Shape(ring)]);
      }
      var area := geodesicArea(ring);
      areaReports := areaReports + [area / 10000.0];
    }

    /** The setup effect's cleanup: remove the map, which detaches every layer, and reset the reference. */
    method Teardown()
      requires Valid()
      modifies this`hasMap, baseLayers
      ensures Valid()
      ensures !hasMap
      ensures old(hasMap) ==> baseLayers.attached == {}
      ensures !old(hasMap) ==> unchanged(baseLayers)
    {
      if hasMap {
        baseLayers.DetachAll();
        hasMap := false;
      }
    }

    /** The map-type effect: only while a map exists, switch its base layer. */
    method SwitchMapType(mapType: string)
      modifies baseLayers
      ensures old(hasMap) ==> baseLayers.attached == AttachedFor(mapType)
      ensures !old(hasMap) ==> unchanged(baseLayers)
    {
      if hasMap {
        baseLayers.Switch(mapType);
      }
    }

    /**
     * Setup run again while the map exists never creates a second map; with
     * a saved area the drawings still hold exactly that one polygon, and its
     * stored area is reported once per run.
     */
    method SetupTwice(savedArea: Option<SavedArea>)
      requires Valid()
      modifies this, baseLayers
      ensures Valid() && hasMap
      ensures mapsCreated == old(mapsCreated) + (if old(hasMap) then 0 else 1)
      ensures old(hasMap) ==> unchanged(baseLayers)
      ensures !old(hasMap) ==> baseLayers.attached == {Street}
      ensures savedArea.Some? ==> drawnItems == Some([Shape(savedArea.value.coordinates)])
      ensures savedArea.Some? ==> areaReports == old(areaReports) + [savedArea.value.area, savedArea.value.area]
      ensures savedArea.None? ==> areaReports == old(areaReports)
      ensures savedArea.None? ==> drawnItems == (if old(hasMap) then old(drawnItems) else Some([]))
    {
      Setup(savedArea);
      Setup(savedArea);
    }
  }
}
