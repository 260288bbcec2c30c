# Map component filter controller, in Dafny

This project models the controller core of the dashboard's map component
(`demo/frontend/src/Components/Map/Map.tsx`). The component keeps a filter
state (the shown layer, a date range whose end may be undefined, and an hour).
It builds the query of the `trips_source` tile source from that state. It
rewrites that source's url whenever the state changes, and it toggles the
`visibility` of the registry layers. The model also covers the two pure
per-feature computations of the airports overlay.

Modules:

- `Filter` holds the state record and `changeFilter`'s guarded shallow merge (`ApplyFilter`). It also holds `getQueryParams` (`Query`, `QueryParams`, `TripsUrl`).
- `Uri` models `encodeURI` as ECMA-262 defines it (section 19.2.6, "URI Handling Functions"): UTF-8 octets, upper-case `%XY` escapes, and the unescaped set that keeps `&`, `=`, `.` and `#`. It also models `decodeURI` as its inverse, to show that the encoding loses nothing.
- `Decimal` renders the hour as a template literal does. It also has a parser as the rendering's inverse.
- `Layers` holds the layer registry. `AddLayers` is what `mapOnLoad` registers, and `Toggled` is what `toggleLayer` writes.
- `Overlay` holds the arc layer's `scalerank` filter and the point radius.
- `MapComponent` holds the class `MapController`. Its fields are the state, the style's sources (`sources: map<string, string>`) and each layer's visibility (`visibility: map<string, Visibility>`). Its methods are `OnLoad`, `Refresh` (`componentDidUpdate`), `ChangeFilter` and `ToggleLayer`. The field `loaded` records whether the style has finished loading. The predicate `Synced()` says that the trips source, when present, serves the current state's query. The constructor establishes it. `Refresh`, `ChangeFilter`, `ToggleLayer` and a successful `OnLoad` keep it or establish it. A failed `OnLoad` (the style already has a `trips_source`) does not: the existing url is left as it was.

`dateConverter` is not part of this model. The controller holds it as an uninterpreted function `conv: Date -> string`. The layer configuration and the map style are not part of this model either. They enter as parameters: the registry as a sequence of `LayerConfig`, and the base style's sources and layers as arguments of `OnLoad`.

A registry entry carries two ids. `id` is the one `toggleLayer` passes to `setLayoutProperty` (Map.tsx:194-198). `styleId` is the id of its `maplibreLayer`, under which `mapOnLoad` adds it (Map.tsx:72-73). The source relies on the two being equal. The model keeps them apart. `Layers.RegistryHeldAfterLoad` shows that the engine holds every registry `id` after the load when they agree and the style has the `place_town` anchor.

Behaviour of the code that is easy to miss:

- `toggleLayer` calls `setState`. The component is a `PureComponent`, so a change of the shown layer re-renders it and runs `componentDidUpdate`. That re-applies the whole style with the same query. `ToggleLayer` models the refresh and proves that it leaves the sources unchanged when they were in sync.
- The hour is never range-checked, so the model takes any integer.
- The query goes through `encodeURI`, not `encodeURIComponent`. So `&`, `=` and `.` stay as they are (`Filter.QueryParamsShape`).
- `addLayer(layer, "place_town")` adds nothing when the style has no `place_town` layer: the engine reports the missing anchor and returns. `Layers.AddLayers` models that refusal.
- `setLayoutProperty` throws while the style is still loading. A toggle before the load therefore stops at the first registry layer and never records the shown layer (`MapComponent.MapController.ToggleLayer`).

## Model

| member | source | states |
|---|---|---|
| `MapComponent.MapController.constructor` | demo/frontend/src/Components/Map/Map.tsx:30-40 | the initial state is layer `trips`, 1 January to 4 May 2017, hour 9; no style is loaded yet, and the style holds no source and no layer |
| `MapComponent.MapController.OnLoad` | demo/frontend/src/Components/Map/Map.tsx:65-74 | the style is loaded; adds `trips_source` with the url of the current query, then the visibility becomes `AddLayers` of the base style's layers: each registry layer is added under its style id when the engine does not hold it and the `place_town` anchor exists; fails with only the loaded flag set when the style already has that source |
| `MapComponent.MapController.Refresh` | demo/frontend/src/Components/Map/Map.tsx:57-62 | only the `trips_source` url changes, to `/tiles/get_trips?` plus the encoded query; state and visibility stay; it fails without change when the style has no trips source; afterwards the source is in sync |
| `MapComponent.MapController.ChangeFilter` | demo/frontend/src/Components/Map/Map.tsx:169-176 | the new state is the guarded merge; a changed state refreshes the style; visibility stays; sync is kept |
| `MapComponent.MapController.ToggleLayer` | demo/frontend/src/Components/Map/Map.tsx:193-202 | succeeds exactly when the style has loaded or the registry is empty; on failure nothing changes; on success visibility becomes `Toggled` of the old visibility, the shown layer becomes the id, range and hour stay, and a changed state refreshes the sources; the trips url is unchanged when it was in sync |
| `MapComponent.Refreshed` | demo/frontend/src/Components/Map/Map.tsx:57-62 | a refresh keeps every source id and every other source's url, and sets the trips url, when that source exists, to the state's `TripsUrl` |
| `MapComponent.RefreshedSources` | demo/frontend/src/Components/Map/Map.tsx:57-62 | the trips url a refresh writes is the path `/tiles/get_trips?` followed by a query that `decodeURI` maps back to the state's query |
| `MapComponent.RefreshedIdempotent` | demo/frontend/src/Components/Map/Map.tsx:57-62 | refreshing twice for the same state equals refreshing once |
| `MapComponent.RefreshIgnoresVisibleLayer` | demo/frontend/src/Components/Map/Map.tsx:57-62 | the refresh after a toggle writes what it would have written before the toggle |
| `Filter.ApplyFilter` | demo/frontend/src/Components/Map/Map.tsx:169-176 | an undefined key or value leaves the state as it is; otherwise the key holds the value and every other key keeps its value |
| `Filter.ApplyFilterIdempotent` | demo/frontend/src/Components/Map/Map.tsx:171-174 | applying the same update twice gives the state of applying it once |
| `Filter.ApplyFilterCommutes` | demo/frontend/src/Components/Map/Map.tsx:171-174 | updates of two different keys give the same state in either order |
| `Filter.DateFrom` | demo/frontend/src/Components/Map/Map.tsx:184 | the from value is the converted start date followed by `.2017` |
| `Filter.DateTo` | demo/frontend/src/Components/Map/Map.tsx:185-188 | the to value ends with `.2017`; with an undefined end it equals the from value, otherwise it starts with the converted end date |
| `Filter.Query` | demo/frontend/src/Components/Map/Map.tsx:178-190 | the query starts with `date_from=` and the from value, and ends with `&hour=` and the hour's decimal text |
| `Filter.QueryParams` | demo/frontend/src/Components/Map/Map.tsx:190 | the encoded query is no shorter than the query and holds only characters `encodeURI` may emit |
| `Filter.TripsUrl` | demo/frontend/src/Components/Map/Map.tsx:59-61 | the trips url, as both `componentDidUpdate` and `mapOnLoad` (Map.tsx:70) build it, is `/tiles/get_trips?` followed by exactly the encoded query |
| `Filter.QueryParamsShape` | demo/frontend/src/Components/Map/Map.tsx:184-190 | the encoded query is `date_from=` plus the encoded from value, `&date_to=` plus the encoded to value, and `&hour=` plus the hour's decimal text; the separators are never escaped |
| `Filter.EncodedDateSuffix` | demo/frontend/src/Components/Map/Map.tsx:184-185 | every encoded date value ends with the literal `.2017` after the encoded converted date |
| `Filter.OpenRangeRepeatsFrom` | demo/frontend/src/Components/Map/Map.tsx:184-188 | without an end date, `date_to` carries exactly the `date_from` value |
| `Filter.ClosedRangeQuery` | demo/frontend/src/Components/Map/Map.tsx:184-190 | with an end date, the query holds both converted dates, each followed by `.2017` |
| `Filter.DistinctDatesStayDistinct` | demo/frontend/src/Components/Map/Map.tsx:184-190 | end points that the converter renders differently give different encoded `date_from` and `date_to` values |
| `Filter.QueryParamsDecode` | demo/frontend/src/Components/Map/Map.tsx:190 | `decodeURI` of the encoded query is the query as assembled |
| `Filter.QueryIgnoresVisibleLayer` | demo/frontend/src/Components/Map/Map.tsx:178-191 | the query depends only on the range and the hour |
| `Filter.PlainDatesQuery` | demo/frontend/src/Components/Map/Map.tsx:184-190 | converted dates that need no escaping appear verbatim in the query |
| `Filter.InitialQuery` | demo/frontend/src/Components/Map/Map.tsx:178-191 | for the initial state, with dates converted as `1.1` and `4.5`, the query is `date_from=1.1.2017&date_to=4.5.2017&hour=9` |
| `Uri.EncodeUri` | demo/frontend/src/Components/Map/Map.tsx:190 | the result is at least as long as the input and holds only unescaped characters and `%` |
| `Uri.EncodeChar` | demo/frontend/src/Components/Map/Map.tsx:190 | an unescaped character is copied; any other becomes 3 to 12 characters starting with `%` |
| `Uri.EncodeUriAppend` | demo/frontend/src/Components/Map/Map.tsx:190 | encoding a concatenation concatenates the encodings |
| `Uri.EncodeUriUnescaped` | demo/frontend/src/Components/Map/Map.tsx:190 | a string of unescaped characters, including `&`, `=` and `.`, encodes to itself |
| `Uri.DecodeEncodeUri` | demo/frontend/src/Components/Map/Map.tsx:190 | `decodeURI(encodeURI(s))` is `s` |
| `Uri.EncodeUriInjective` | demo/frontend/src/Components/Map/Map.tsx:190 | two strings with the same encoding are equal |
| `Uri.Utf8Encode` | demo/frontend/src/Components/Map/Map.tsx:190 | one to four octets; one exactly for ASCII; the lead octet announces the length; the rest are continuation octets |
| `Uri.Utf8RoundTrip` | demo/frontend/src/Components/Map/Map.tsx:190 | UTF-8 decoding of a character's octets gives the character back |
| `Decimal.IntToString` | demo/frontend/src/Components/Map/Map.tsx:190 | the hour's text is decimal digits, with a leading `-` exactly for negative hours |
| `Decimal.NatToString` | demo/frontend/src/Components/Map/Map.tsx:190 | a non-negative number's text is non-empty decimal digits without a leading zero |
| `Decimal.ParseIntToString` | demo/frontend/src/Components/Map/Map.tsx:190 | parsing the hour's text gives the hour back |
| `Layers.AddLayers` | demo/frontend/src/Components/Map/Map.tsx:72-74 | without the `place_town` anchor nothing is added; with it the engine then holds its own layers and every registry style id; its own layers keep their visibility; each newly added id has the visibility of its first registry entry |
| `Layers.RegistryHeldAfterLoad` | demo/frontend/src/Components/Map/Map.tsx:72-74 | when every entry's id is its style id and the anchor exists, the engine holds every id `toggleLayer` will touch (Map.tsx:194) |
| `Layers.Toggled` | demo/frontend/src/Components/Map/Map.tsx:194-200 | a toggle keeps the set of layers and the visibility of every layer outside the registry; a registered layer the engine holds is shown exactly when its id is the toggled id |
| `Layers.ToggleShowsOnlyTarget` | demo/frontend/src/Components/Map/Map.tsx:194-200 | when the engine holds every registry layer, the shown registry ids after a toggle are exactly the toggled id if it is registered, and none if it is not |
| `Layers.ToggleShowsOnePosition` | demo/frontend/src/Components/Map/Map.tsx:194-200 | with distinct registry ids and a registered id, exactly one registry position is shown |
| `Layers.LastToggleWins` | demo/frontend/src/Components/Map/Map.tsx:193-202 | toggling `a` and then `b` gives the visibility of toggling `b` alone |
| `Overlay.ArcFilter` | demo/frontend/src/Components/Map/Map.tsx:152-154 | the result is the features with `scalerank` below 4, in input order, each as often as in the input, and no others; it is no longer than the input |
| `Overlay.ArcFilterIdempotent` | demo/frontend/src/Components/Map/Map.tsx:152-154 | filtering the filtered features changes nothing |
| `Overlay.PointRadius` | demo/frontend/src/Components/Map/Map.tsx:136 | the radius is at least 8 exactly for the features the arc layer keeps (`scalerank` below 4) |
| `Overlay.ArcPointsAreLarge` | demo/frontend/src/Components/Map/Map.tsx:136 | every arc destination has a point radius of at least 8 |

## Left out

- Map construction, the navigation control and the `load` event registration (Map.tsx:42-55) are rendering-engine plumbing. `OnLoad` models only what the load handler does to the style.
- `addLayer` inserts each layer before `place_town`. The model records which layers exist and their visibility, not their draw order.
- The deck.gl overlay's rendering, picking, highlighting, colours and fixed arc origin (Map.tsx:126-166) are not modelled. The `alert` click handler (Map.tsx:141-146) and `render()` (Map.tsx:204-219) are UI. Only the point radius and the `scalerank` filter are kept.
- The commented-out vector-tile layer (Map.tsx:89-124) is dead code.
- The unused `parisSights` url and `limit` (Map.tsx:76-78) are not modelled. Fetching the airports dataset is network I/O.
- `dateConverter` is an uninterpreted function. The source calls it with an undefined end date and then discards the result (Map.tsx:185-188). The model assumes that call returns.
- The layer configuration and `MAP_STYLE` are inputs. A registry entry is its id, its style layer's id and its declared visibility; the rest of a style layer (type, source, paint) is not modelled.
- React's asynchronous, batched `setState` is modelled as one atomic step per handler. The model compares states by value. React's `PureComponent` compares the `range` object by reference, so a new range object with the same dates re-renders in React but not in the model. That refresh would write the same url anyway.
- `Filter.ApplyFilter`: requires that the value fit the key, and accepts only the three state keys. The source's `changeFilter` takes `any` and would also store a mistyped value or add a new key. The filter controls pass only the three keys with values of their own types.
- `MapComponent.MapController.ChangeFilter`: has the same restriction as `Filter.ApplyFilter`.
- `Decimal.IntToString`: models only integral hours. JavaScript's rendering of fractions, `NaN` and magnitudes from 10^21 upward (exponent form) is not modelled.
- `Uri.EncodeUri`: strings are sequences of Unicode scalar values. A lone UTF-16 surrogate, for which `encodeURI` throws a URIError, cannot occur in the model.
- `MapComponent.MapController.Refresh`: `componentDidUpdate` before the trips source exists throws a TypeError, which React turns into an unmount. The model returns `false` and changes nothing.
- Asynchronous style reloading, tile fetching and the engine's own error reporting belong to the engine and are not modelled.
- A feature without a `scalerank` is not modelled: the rank is an integer.
