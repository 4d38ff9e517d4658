# Land-listing map widgets, modelled in Dafny

This project models the part of the land-listing web application that does
real work on the client side.

- **The polygon-drawing map widget** appears in two copies.
  `MapComponent` is the one the listing-creation modal renders.
  `MapWritePolygon` is a variant that also accepts an initial polygon and
  passes every drawn polygon to a callback. Both keep an undo stack and a redo stack of GeoJSON snapshots, the
  group of drawn layers, the reported area in hectares and the undo/redo
  button flags. They react to Leaflet's CREATED and EDITED draw events and
  to the undo, redo, clear and map-type buttons.
- **The details map** (`MapComponentDetails`) is the map on a listing's
  detail page. It creates its map once, shows a saved area and reports that
  area's stored value. It also has a draw control, and it reports the area
  of any polygon drawn on it.
- **The listing card** (`AreaCard`) formats numbers with thousands
  separators, builds the route of a listing's detail page and falls back to
  a placeholder image.
- **The navigation bar** (`Navbar`) rewrites the current path when a new
  locale is chosen and builds the locale select's options.

Each widget's refs and state are a Dafny `class` whose methods change its
fields. Each method states the whole new state against the old one. The
pure parts are functions and lemmas:

- coordinate conversion, GeoJSON encoding and the area sums, in module `Geo`
- the choice of base layer, in module `BaseLayers`
- number formatting, the detail-page route and the image fallback, in module
  `AreaCard`
- the locale path rewrite and the locale options, in module `Navbar`

The geometry library's `L.GeometryUtil.geodesicArea` is a parameter of type
`Ring -> real` (square metres). Every area property is therefore proved for
any area function the library might use.

GeoJSON positions are `[lng, lat]`. The model keeps that order as
`(lng, lat)` pairs and swaps it back when a snapshot is re-read. `toGeoJSON`
rounds every coordinate to six decimals (Leaflet's `formatNum` at its
default precision) and closes a polygon's ring by repeating its first
vertex. So a restored polygon is measured over the rounded, closed ring.
The model says so explicitly through `Geo.DecodeEncodeRing`.

### Behaviour worth knowing

- An EDITED event pushes one snapshot for the whole batch of edited layers,
  not one per edited shape. That snapshot is a FeatureCollection.
- The details map reports the saved area's stored `area` as it is. It does
  not recompute it from the coordinates.
- Undo followed by redo gives back both stacks, but it gives back the drawn
  layers and the area only when the map was already showing the top of the
  undo stack. That is the case after an earlier undo or redo. It is not the
  case after a CREATED event, which leaves the drawn polygon itself on the
  map rather than a layer rebuilt from its snapshot. Nor is it the case
  after an EDITED event.
  See `DrawHistory.Session.UndoThenRedo`.

## Model

| member | source | states |
|---|---|---|
| Geo.FormatNum | src/components/MapWritePolygon.jsx:66 | each coordinate `toGeoJSON` writes is within half a millionth of the original and has at most six decimals |
| Geo.FormatNumIdempotent | src/components/MapWritePolygon.jsx:66 | rounding an already rounded coordinate changes nothing |
| Geo.EncodePoint | src/components/MapWritePolygon.jsx:66 | a vertex written as a GeoJSON position and read back with the `[lng, lat]` swap is the vertex rounded to six decimals |
| Geo.EncodeDecodePoint | src/components/MapWritePolygon.jsx:153 | the other direction of the round trip: a stored position read back and written again is that position rounded, and exactly itself when it already has six decimals |
| Geo.ReencodePoint | src/components/MapWritePolygon.jsx:66 | writing, reading back and writing again gives the same stored position |
| Geo.DecodeRing | src/components/MapWritePolygon.jsx:375-376 | re-reading a snapshot's outer ring yields one vertex per position, each one the position swapped back to (lat, lng) |
| Geo.ToGeoJson | src/components/MapWritePolygon.jsx:66 | a single polygon gives a Feature whose ring reads back as the polygon's ring rounded and closed; a group gives a FeatureCollection with one ring per member, each reading back the same way |
| Geo.DecodeEncodeRing | src/components/MapWritePolygon.jsx:371-376 | re-reading the ring of a polygon's own snapshot gives back its vertices rounded to six decimals, followed by the first of them again (the ring is closed) |
| Geo.Hectares | src/components/MapWritePolygon.jsx:48-52 | the hectares reported are exactly the geodesic area in m² divided by 10 000 |
| Geo.RestoredPolygonHectares | src/components/MapWritePolygon.jsx:371-379 | the area measured when a created polygon's snapshot is restored is the area of its ring rounded to six decimals and closed |
| Geo.SumHectaresAppend | src/components/MapWritePolygon.jsx:250-254 | the EDITED total grows by exactly the hectares of each further layer |
| Geo.EditedTotal | src/components/MapWritePolygon.jsx:249-264 | the EDITED loop's total is the sum of the edited layers' hectares; for one layer it is that layer's hectares |
| BaseLayers.Selected | src/components/MapWritePolygon.jsx:334-344 | the map-type switch recognises exactly "street", "satellite" and "hybrid" |
| BaseLayers.SelectedName | src/components/MapWritePolygon.jsx:439-446 | each button's map-type name selects its own base layer |
| BaseLayers.BaseLayerSwitch.constructor | src/components/MapWritePolygon.jsx:28-32 | before the map exists no base layer is attached |
| BaseLayers.BaseLayerSwitch.Reset | src/components/MapWritePolygon.jsx:123 | map creation attaches the street layer and nothing else |
| BaseLayers.BaseLayerSwitch.Switch | src/components/MapWritePolygon.jsx:328-344 | after removing every base layer, only the selected one is attached (none for an unknown name); never more than one |
| BaseLayers.BaseLayerSwitch.DetachAll | src/components/MapWritePolygon.jsx:318 | removing the map leaves no base layer attached |
| DrawHistory.Session.ForWritePolygon | src/components/MapWritePolygon.jsx:20-40 | empty stacks, area 0, no map, both buttons disabled |
| DrawHistory.Session.ForMapComponent | src/components/MapComponent.jsx:12-32 | the same initial state, with no initial polygon and no polygon callback |
| DrawHistory.Session.UpdateHistoryButtons | src/components/MapWritePolygon.jsx:43-46 | undo is enabled iff the undo stack is non-empty; redo likewise |
| DrawHistory.Session.UpdateArea | src/components/MapWritePolygon.jsx:54-60 | the shown area becomes the value, and the value is reported once to the parent |
| DrawHistory.Session.SaveToHistory | src/components/MapWritePolygon.jsx:62-72 | a missing layer changes nothing; otherwise its GeoJSON is pushed, the redo stack is emptied and the buttons follow |
| DrawHistory.Session.Mount | src/components/MapWritePolygon.jsx:75-159 | a second run while the map exists changes nothing; otherwise the street layer is attached, the drawn group is empty or holds just the initial polygon, and that polygon's area is reported; the history is untouched |
| DrawHistory.Session.Unmount | src/components/MapWritePolygon.jsx:316-321 | cleanup removes the map, and with it every base layer; without a map it changes nothing else |
| DrawHistory.Session.Created | src/components/MapWritePolygon.jsx:224-235 | the layer is added, its hectares are shown and reported, exactly one Feature is pushed, redo is emptied, and the polygon goes to `onPolygonChange` only in `MapWritePolygon` |
| DrawHistory.Session.Edited | src/components/MapWritePolygon.jsx:249-266 | the reported area is the sum over the edited layers, and exactly one FeatureCollection snapshot is pushed for the batch |
| DrawHistory.Session.Undo | src/components/MapWritePolygon.jsx:361-386 | empty stack: nothing changes; otherwise the top moves to redo, the map shows the new top and its area, or nothing and 0 |
| DrawHistory.Session.Redo | src/components/MapWritePolygon.jsx:388-406 | empty stack: nothing changes; otherwise the redo top moves back to undo and is shown with its area |
| DrawHistory.Session.Clear | src/components/MapWritePolygon.jsx:408-413 | both stacks and the map are emptied, 0 is reported, both buttons are disabled |
| DrawHistory.Session.SwitchMapType | src/components/MapWritePolygon.jsx:325-345 | with a map, exactly the selected base layer is attached; without one, nothing changes |
| DrawHistory.Session.UndoThenRedo | src/components/MapComponent.jsx:332-379 | undo then redo gives back both stacks and leaves the top shown; the shape and area are restored when they showed the top before; two areas are reported, the one below the top (or 0) and then the top's |
| DrawHistory.Session.CreatedMany | src/components/MapComponent.jsx:202-209 | n CREATED events add n shapes, report n areas and push n Features, each in drawing order after the old contents; redo ends empty and the last polygon's area is shown |
| MapDetails.DetailsMap.constructor | src/components/MapComponentDetails.jsx:11-19 | no map and no drawn group before the first run |
| MapDetails.DetailsMap.Setup | src/components/MapComponentDetails.jsx:21-102 | a map is created only when none exists; a saved area replaces the drawn layers with just its polygon and its stored area is reported verbatim |
| MapDetails.DetailsMap.Created | src/components/MapComponentDetails.jsx:74-79 | a drawn polygon is added and its geodesic area in hectares is reported |
| MapDetails.DetailsMap.Teardown | src/components/MapComponentDetails.jsx:104-109 | cleanup removes the map, which detaches every base layer, and resets the reference; without a map the base layers are unchanged |
| MapDetails.DetailsMap.SwitchMapType | src/components/MapComponentDetails.jsx:112-134 | with a map, only the selected base layer stays attached (none for an unknown name); without one, nothing changes |
| MapDetails.DetailsMap.SetupTwice | src/components/MapComponentDetails.jsx:21-102 | running the effect twice without cleanup creates at most one map; a saved area still leaves exactly its polygon drawn, and its stored area is reported once per run |
| AreaCard.CommaIsRegexMatch | src/components/ui/AreaCard.jsx:10 | the formatter puts a comma at a position exactly where `\B(?=(\d{3})+(?!\d))` matches |
| AreaCard.LookaheadIff | src/components/ui/AreaCard.jsx:10 | the lookahead holds iff a non-empty run of digits follows whose length is a multiple of 3 |
| AreaCard.FormatNumber | src/components/ui/AreaCard.jsx:9-11 | the separators are the only thing added: deleting the commas from the output gives the input without its commas, which is the input itself when it has none |
| AreaCard.FormatShort | src/components/ui/AreaCard.jsx:10 | a digit string of at most three digits is unchanged |
| AreaCard.FormatDigits | src/components/ui/AreaCard.jsx:10 | an all-digit string becomes its 1-3 digit head followed by ",ddd" groups |
| AreaCard.FormatSplit | src/components/ui/AreaCard.jsx:10 | formatting works separately on either side of a non-word character such as `.` |
| AreaCard.CommaBeforeDigits | src/components/ui/AreaCard.jsx:10 | in a string of digits only, a comma goes in before position p exactly when 0 < p < length and the digits after p number a multiple of three |
| AreaCard.FormatIdempotent | src/components/ui/AreaCard.jsx:10 | for a string of digits, formatting the already formatted output changes nothing |
| AreaCard.FormatFixed2 | src/components/ui/AreaCard.jsx:34 | a `toFixed(2)` string gets commas in its integer part only, and its two decimals are kept |
| AreaCard.FormatExample | src/components/ui/AreaCard.jsx:34 | "1234567.89" becomes "1,234,567.89" |
| AreaCard.AreaRoute | src/components/ui/AreaCard.jsx:17-19 | the card's route is `/`, then the locale, then `/areas/`, then the id, and nothing else |
| AreaCard.ImageSource | src/components/ui/AreaCard.jsx:25 | a missing or empty image URL falls back to `/placeholder.svg`; any other is used as it is |
| Navbar.StripLocale | src/components/navbar/Navbar.jsx:24 | exactly the leading `/` and two lower-case letters are removed when present; otherwise the path is unchanged |
| Navbar.LocalizedPath | src/components/navbar/Navbar.jsx:23-25 | the new path is `/` and the new locale, followed by the stripped path |
| Navbar.SameLocaleKeepsPath | src/components/navbar/Navbar.jsx:23-25 | choosing the locale already in the path leaves the path unchanged |
| Navbar.SwitchTwice | src/components/navbar/Navbar.jsx:23-25 | switching to a locale and then to a second one equals switching straight to the second |
| Navbar.AreasPathExample | src/components/navbar/Navbar.jsx:24-25 | the strip is not segment-aware: `/areas` becomes `/<locale>eas` |
| Navbar.SwitchAreaRoute | src/components/navbar/Navbar.jsx:23-25 | switching locale on a listing page keeps the same listing route |
| Navbar.LocaleOptions | src/components/navbar/Navbar.jsx:18-21 | one option per locale, in order, labelled "Uzbek" exactly for `uz` and "Ўзбек" otherwise; no locale list gives no options |

## Left out

- DrawHistory.Session.Undo: requires that the snapshot below the top is a single polygon. The source reads `.geometry` from it and throws a TypeError on the FeatureCollection an EDITED event pushes. The model leaves that crash out rather than modelling an exception.
- DrawHistory.Session.Redo: requires that the redo top is a single polygon, for the same reason.
- DrawHistory.Session.ForWritePolygon: requires an `initialPolygon` that is present to be a Feature, and `Valid()` keeps that fact for `Mount`. The source reads `.geometry` from it and would throw on a FeatureCollection.
- DrawHistory.Session.UndoThenRedo: the shape and area are restored only when the map showed the undo top beforehand, because that is all the code guarantees.
- The geodesic area formula: it is a parameter, so its invariance under a cyclic rotation of the ring's starting vertex is not stated. That is a floating-point property of the geometry library.
- Floating point: areas, hectares and coordinates are exact reals. `formatNum`'s rounding is modelled on reals, but the error of the double multiplication inside it is not. `toFixed(2)` and `Number(area)` are left out. The formatter is proved over the digit string that `toString`/`toFixed` would produce.
- Leaflet's `L.geoJSON` drops the repeated closing vertex when it rebuilds a polygon layer. The model keeps the rebuilt layer as the snapshot it came from, and it measures the restored area over the stored coordinates, as the source does.
- Leaflet edits layer geometry in place before EDITED fires. The model receives the edited rings as the event's input, and `drawn` keeps its members as layers.
- Tile URLs and attributions, zoom and scale controls, the geocoder search, geolocation, fullscreen, popups, the drawing tooltip and the draw-control drawing options are display-only or browser I/O.
- The layers control (MapWritePolygon.jsx line 122, and its copies in the other two maps) lets the user attach any base layer directly, outside the map-type effect. The model leaves this control out, so the recorded set of attached base layers changes only through map creation, the map-type effect and cleanup.
- `readOnly` (MapWritePolygon.jsx lines 161-163): when it is set, no draw control is added, so no CREATED or EDITED event can occur. The model leaves the flag out and lets those events happen in every session, as they do when `readOnly` is false, its default.
- React's effect scheduling and re-render order are not modelled. Each effect or handler is one atomic method, and the callbacks `onAreaSelect` and `onPolygonChange` are logs of the values passed to them.
- Before the first mount, the drawn group of a `DrawHistory.Session` is the empty list, where the source has `null`. No event can reach it before the map exists.
- `router.push` and `router.replace` are not modelled. The model gives the path each would receive.
- The remaining components are not part of this model: the listing modal, the region select, announcements and the pages.
