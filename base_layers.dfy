/**
 * The three base tile layers and the map-type switch effect that all three
 * map widgets share: remove every base layer, then add the selected one.
 */
module BaseLayers {
  import opened Wrappers

  /** `layersRef.current`'s keys: street, satellite imagery, and the hybrid group. */
  datatype BaseKind = Street | Satellite | Hybrid

  /** `Object.values(layersRef.current)`, in declaration order. */
  const AllKinds: seq<BaseKind> := [Street, Satellite, Hybrid]

  /** The `mapType` string the buttons store for each layer. */
  function Name(k: BaseKind): string
  {
    match k
    case Street => "street"
    case Satellite => "satellite"
    case Hybrid => "hybrid"
  }

  /** The `switch (mapType)` cases; a string no case matches selects nothing. */
  function Selected(mapType: string): (k: Option<BaseKind>)
    ensures k.Some? <==> mapType in {"street", "satellite", "hybrid"}
    ensures k.Some? ==> Name(k.value) == mapType
  {
    if mapType == "street" then Some(Street)
    else if mapType == "satellite" then Some(Satellite)
    else if mapType == "hybrid" then Some(Hybrid)
    else None
  }

  /** Every layer's name selects that layer back. */
  lemma SelectedName(k: BaseKind)
    ensures Selected(Name(k)) == Some(k)
  {
  }

  /** The base layers attached once the switch has run for `mapType`. */
  function AttachedFor(mapType: string): set<BaseKind>
  {
    match Selected(mapType)
    case Some(k) => {k}
    case None => {}
  }

  /** The base layers attached to one map. */
  class BaseLayerSwitch {
    var attached: set<BaseKind>

    constructor ()
      ensures attached == {}
    {
      attached := {};
    }

    /** A freshly created map: the street layer is added, nothing else. */
    method Reset()
      modifies this
      ensures attached == {Street}
    {
      attached := {Street};
    }

    /** `map.remove()`: every layer, base layers included, leaves the map. */
    method DetachAll()
      modifies this
      ensures attached == {}
    {
      attached := {};
    }

    /**
     * The map-type effect: the `forEach` that removes each base layer, then
     * the `switch` that adds back only the selected one.
     */
    method Switch(mapType: string)
      modifies this
      ensures attached == AttachedFor(mapType)
      ensures |attached| <= 1
    {
      var i := 0;
      while i < |AllKinds|
        invariant 0 <= i <= |AllKinds|
        invariant forall j :: 0 <= j < i ==> AllKinds[j] !in attached
      {
        attached := attached - {AllKinds[i]};
        i := i + 1;
      }
      assert Street !in attached && Satellite !in attached && Hybrid !in attached by {
        assert AllKinds[0] == Street && AllKinds[1] == Satellite && AllKinds[2] == Hybrid;
      }
      assert forall k: BaseKind :: k !in attached by {
        forall k: BaseKind ensures k !in attached {
          match k
          case Street =>
          case Satellite =>
          case Hybrid =>
        }
      }
      assert attached == {};
      match Selected(mapType)
      case Some(k) => attached := attached + {k};
      case None =>
    }
  }
}
