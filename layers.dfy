/**
 * The static layer registry and what the component does to the engine's
 * per-layer `visibility` layout property: registering the layers once the
 * style has loaded, and showing one layer while hiding the others.
 */
module Layers {

  /** The two values the component writes: `"visible"` and `"none"`. */
  datatype Visibility = Visible | Hidden

  /**
   * One registry entry: `id`, the key the filter controls toggle and the
   * id `toggleLayer` addresses; `styleId`, the id of the entry's style
   * layer, under which the engine registers it; and the visibility that
   * style layer declares.
   */
  datatype LayerConfig = LayerConfig(id: string, styleId: string, visibility: Visibility)

  /** The base-style layer every registry layer is inserted before. */
  const Anchor := "place_town"

  function Ids(layers: seq<LayerConfig>): (ids: seq<string>)
    ensures |ids| == |layers|
    ensures forall i :: 0 <= i < |layers| ==> ids[i] == layers[i].id
  {
    seq(|layers|, i requires 0 <= i < |layers| => layers[i].id)
  }

  predicate Distinct(ids: seq<string>)
  {
    forall i, j :: 0 <= i < j < |ids| ==> ids[i] != ids[j]
  }

  // ---------------------------------------------------------------- addLayer

  /**
   * The layers the engine holds after each registry entry's style layer
   * has been added before the anchor, in order. The engine refuses, and
   * leaves the style as it was, a layer whose id it already holds and
   * every layer when the style has no anchor layer.
   */
  function AddLayers(vis: map<string, Visibility>, layers: seq<LayerConfig>): (r: map<string, Visibility>)
    ensures Anchor !in vis ==> r == vis
    ensures Anchor in vis ==> r.Keys == vis.Keys + set i | 0 <= i < |layers| :: layers[i].styleId
    ensures forall k :: k in vis ==> r[k] == vis[k]
    ensures forall i :: 0 <= i < |layers| && Anchor in vis && layers[i].styleId !in vis
                        && (forall j :: 0 <= j < i ==> layers[j].styleId != layers[i].styleId)
              ==> r[layers[i].styleId] == layers[i].visibility
    decreases |layers|
  {
    if layers == [] then vis
    else
      var l := layers[0];
      AddLayers(if l.styleId in vis || Anchor !in vis then vis else vis[l.styleId := l.visibility], layers[1..])
  }

  /**
   * When the style has the anchor and every entry's style layer carries
   * the entry's own id, registration leaves every id that `toggleLayer`
   * addresses held by the engine.
   */
  lemma RegistryHeldAfterLoad(vis: map<string, Visibility>, layers: seq<LayerConfig>)
    requires Anchor in vis
    requires forall i :: 0 <= i < |layers| ==> layers[i].id == layers[i].styleId
    ensures forall i :: 0 <= i < |Ids(layers)| ==> Ids(layers)[i] in AddLayers(vis, layers)
  {
    var r := AddLayers(vis, layers);
    forall i | 0 <= i < |layers| ensures layers[i].styleId in r {
      assert layers[i].styleId in set j | 0 <= j < |layers| :: layers[j].styleId;
    }
  }

  // ---------------------------------------------------------------- toggleLayer

  /** The value `toggleLayer(layerId)` writes for a registered id. */
  function ToggleValue(id: string, layerId: string): Visibility
  {
    if id == layerId then Visible else Hidden
  }

  /**
   * The visibility of every layer after `toggleLayer(layerId)`: each layer
   * the engine holds whose id is in the registry shows exactly when its id
   * is `layerId`; the engine's other layers keep their visibility.
   */
  function Toggled(vis: map<string, Visibility>, ids: seq<string>, layerId: string): (r: map<string, Visibility>)
    ensures r.Keys == vis.Keys
    ensures forall k :: k in vis && k !in ids ==> r[k] == vis[k]
    ensures forall k :: k in vis && k in ids ==> (r[k] == Visible <==> k == layerId)
  {
    map k | k in vis :: if k in ids then ToggleValue(k, layerId) else vis[k]
  }

  /** The registry ids the engine shows. */
  function ShownIds(vis: map<string, Visibility>, ids: seq<string>): set<string>
  {
    set i | 0 <= i < |ids| && ids[i] in vis && vis[ids[i]] == Visible :: ids[i]
  }

  /** Extending the handled prefix of the registry by one id writes that id alone. */
  lemma ToggledExtend(vis: map<string, Visibility>, ids: seq<string>, i: nat, layerId: string)
    requires i < |ids|
    ensures var before := Toggled(vis, ids[..i], layerId);
      Toggled(vis, ids[..i + 1], layerId)
        == if ids[i] in vis then before[ids[i] := ToggleValue(ids[i], layerId)] else before
  {
    assert ids[..i + 1] == ids[..i] + [ids[i]];
  }

  /**
   * Once every registry layer is in the engine, `toggleLayer(layerId)`
   * leaves `layerId` as the only shown registry layer when it is in the
   * registry, and no registry layer shown when it is not.
   */
  lemma ToggleShowsOnlyTarget(vis: map<string, Visibility>, ids: seq<string>, layerId: string)
    requires forall i :: 0 <= i < |ids| ==> ids[i] in vis
    ensures ShownIds(Toggled(vis, ids, layerId), ids) == if layerId in ids then {layerId} else {}
  {
    var r := Toggled(vis, ids, layerId);
    var shown := ShownIds(r, ids);
    forall k | k in shown ensures k == layerId {
      var i :| 0 <= i < |ids| && ids[i] == k && k in r && r[k] == Visible;
    }
    if layerId in ids {
      var i :| 0 <= i < |ids| && ids[i] == layerId;
      assert r[ids[i]] == Visible;
      assert layerId in shown;
    }
  }

  /** With distinct registry ids, exactly one registry position is shown after toggling a registered id. */
  lemma ToggleShowsOnePosition(vis: map<string, Visibility>, ids: seq<string>, layerId: string)
    requires forall i :: 0 <= i < |ids| ==> ids[i] in vis
    requires Distinct(ids) && layerId in ids
    ensures var r := Toggled(vis, ids, layerId);
      |set i | 0 <= i < |ids| && r[ids[i]] == Visible| == 1
  {
    var r := Toggled(vis, ids, layerId);
    var j :| 0 <= j < |ids| && ids[j] == layerId;
    var positions := set i | 0 <= i < |ids| && r[ids[i]] == Visible;
    forall i | i in positions ensures i == j {
      assert ids[i] == layerId;
    }
    assert j in positions;
    assert positions == {j};
  }

  /** Only the last toggle matters. */
  lemma LastToggleWins(vis: map<string, Visibility>, ids: seq<string>, a: string, b: string)
    ensures Toggled(Toggled(vis, ids, a), ids, b) == Toggled(vis, ids, b)
  {
  }
}
