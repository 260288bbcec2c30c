/**
 * The map component as a controller over the rendering engine's state:
 * the filter state it keeps, the url of each source of the engine's style,
 * and the `visibility` layout property of each layer of that style.
 */
module MapComponent {
  import opened Wrappers
  import opened Filter
  import opened Layers
  import Uri

  /** The id of the tile source whose url follows the filter. */
  const TripsSource := "trips_source"

  /**
   * The sources after `componentDidUpdate`: the trips source, when the
   * style has one, points at the query of the current state.
   */
  function Refreshed(sources: map<string, string>, s: FilterState, conv: Date -> string): (r: map<string, string>)
    ensures r.Keys == sources.Keys
    ensures forall k :: k in sources && k != TripsSource ==> r[k] == sources[k]
    ensures TripsSource in sources ==> r[TripsSource] == TripsUrl(s, conv)
  {
    if TripsSource in sources then sources[TripsSource := TripsUrl(s, conv)] else sources
  }

  /**
   * The url a refresh writes is the endpoint path followed by a query from
   * which `decodeURI` recovers the state's query.
   */
  lemma RefreshedSources(sources: map<string, string>, s: FilterState, conv: Date -> string)
    requires TripsSource in sources
    ensures var url := Refreshed(sources, s, conv)[TripsSource];
      |url| > |TripsPath| && url[..|TripsPath|] == TripsPath
      && Uri.DecodeUri(url[|TripsPath|..]) == Some(Query(s, conv))
  {
    QueryParamsDecode(s, conv);
  }

  /** Refreshing twice is refreshing once. */
  lemma RefreshedIdempotent(sources: map<string, string>, s: FilterState, conv: Date -> string)
    ensures Refreshed(Refreshed(sources, s, conv), s, conv) == Refreshed(sources, s, conv)
  {
  }

  /** Changing only the shown layer does not change what a refresh writes. */
  lemma RefreshIgnoresVisibleLayer(sources: map<string, string>, s: FilterState, conv: Date -> string, layer: string)
    ensures Refreshed(sources, s.(visibleLayer := layer), conv) == Refreshed(sources, s, conv)
  {
    QueryIgnoresVisibleLayer(s, conv, layer);
  }

  class MapController {
    /** The layer registry, in order. */
    const layers: seq<LayerConfig>
    /** The date converter, seen only through its results. */
    const conv: Date -> string

    /** The component state. */
    var state: FilterState
    /** The url of each source of the engine's style, by source id. */
    var sources: map<string, string>
    /** The `visibility` layout property of each layer of the engine's style, by layer id. */
    var visibility: map<string, Visibility>
    /** Whether the engine has finished loading the style. */
    var loaded: bool

    /** The trips source, when present, serves the query of the current state. */
    ghost predicate Synced()
      reads this
    {
      TripsSource in sources ==> sources[TripsSource] == TripsUrl(state, conv)
    }

    /** The initial state; the engine holds no style yet. */
    constructor (layers: seq<LayerConfig>, conv: Date -> string)
      ensures this.layers == layers && this.conv == conv
      ensures state == InitialState
      ensures sources == map[] && visibility == map[] && !loaded
      ensures Synced()
    {
      this.layers := layers;
      this.conv := conv;
      state := InitialState;
      sources := map[];
      visibility := map[];
      loaded := false;
    }

    /**
     * `mapOnLoad`: the engine has loaded the base style, given by its
     * sources and layers. The handler adds the trips source with the
     * current query and then every registry layer, before the anchor layer.
     * The engine refuses a second source with the same id by throwing,
     * which ends the handler.
     */
    method OnLoad(baseSources: map<string, string>, baseLayers: map<string, Visibility>) returns (ok: bool)
      modifies this
      ensures ok == (TripsSource !in baseSources)
      ensures loaded && state == old(state)
      ensures ok ==> sources == baseSources[TripsSource := TripsUrl(state, conv)]
                     && visibility == AddLayers(baseLayers, layers)
                     && Synced()
      ensures !ok ==> sources == baseSources && visibility == baseLayers
    {
      sources, visibility, loaded := baseSources, baseLayers, true;
      var url := TripsPath + QueryParams(state, conv);
      if TripsSource in sources {
        return false;
      }
      sources := sources[TripsSource := url];
      var i := 0;
      while i < |layers|
        invariant 0 <= i <= |layers|
        invariant AddLayers(visibility, layers[i..]) == AddLayers(baseLayers, layers)
        invariant loaded && state == old(state) && sources == baseSources[TripsSource := url]
        invariant Anchor in visibility <==> Anchor in baseLayers
      {
        var l := layers[i];
        assert layers[i..][0] == l && layers[i..][1..] == layers[i + 1..];
        if l.styleId !in visibility && Anchor in visibility {
          visibility := visibility[l.styleId := l.visibility];
        }
        i := i + 1;
      }
      ok := true;
    }

    /**
     * `componentDidUpdate`: take the style, point its trips source at the
     * current query and apply it again. Without a trips source the
     * assignment throws and the style stays as it was.
     */
    method Refresh() returns (ok: bool)
      modifies this
      ensures ok == (TripsSource in old(sources))
      ensures sources == Refreshed(old(sources), state, conv)
      ensures state == old(state) && visibility == old(visibility) && loaded == old(loaded)
      ensures Synced()
    {
      var style := sources;
      if TripsSource !in style {
        return false;
      }
      style := style[TripsSource := TripsPath + QueryParams(state, conv)];
      sources := style;
      ok := true;
    }

    /**
     * `changeFilter(key, value)`: when both are defined, merge the value
     * into the state; a state that changed is then re-rendered and the
     * style refreshed.
     */
    method ChangeFilter(key: Option<Field>, value: Option<Value>)
      requires key.Some? && value.Some? ==> Fits(key.value, value.value)
      modifies this
      ensures state == ApplyFilter(old(state), key, value)
      ensures sources == if state != old(state) then Refreshed(old(sources), state, conv) else old(sources)
      ensures visibility == old(visibility) && loaded == old(loaded)
      ensures old(Synced()) ==> Synced()
    {
      var previous := state;
      if key.Some? && value.Some? {
        state := ApplyFilter(state, key, value);
      }
      if state != previous {
        var _ := Refresh();
      }
    }

    /**
     * `toggleLayer(layerId)`: show the registry layer with that id, hide
     * every other registry layer, and record the id as the shown layer. The
     * engine ignores ids it does not hold. A change of the shown layer
     * re-renders the component, which refreshes the style with the same
     * query. Before the style has loaded, the first visibility change
     * throws, so nothing happens unless the registry is empty.
     */
    method ToggleLayer(layerId: string) returns (ok: bool)
      modifies this
      ensures ok == (old(loaded) || layers == [])
      ensures loaded == old(loaded)
      ensures !ok ==> state == old(state) && visibility == old(visibility) && sources == old(sources)
      ensures ok ==> visibility == Toggled(old(visibility), Ids(layers), layerId)
      ensures ok ==> state == old(state).(visibleLayer := layerId)
      ensures ok ==> sources == if state != old(state) then Refreshed(old(sources), state, conv) else old(sources)
      ensures old(Synced()) ==> Synced() && sources == old(sources)
    {
      if !loaded && layers != [] {
        return false;
      }
      var ids := Ids(layers);
      var i := 0;
      while i < |layers|
        invariant 0 <= i <= |layers|
        invariant visibility == Toggled(old(visibility), ids[..i], layerId)
        invariant state == old(state) && sources == old(sources) && loaded == old(loaded)
      {
        var id := layers[i].id;
        ToggledExtend(old(visibility), ids, i, layerId);
        if id in visibility {
          if layerId == id {
            visibility := visibility[id := Visible];
          } else {
            visibility := visibility[id := Hidden];
          }
        }
        i := i + 1;
      }
      assert ids[..|layers|] == ids;
      var previous := state;
      state := state.(visibleLayer := layerId);
      if state != previous {
        RefreshIgnoresVisibleLayer(sources, previous, conv, layerId);
        var _ := Refresh();
      }
      ok := true;
    }
  }
}
