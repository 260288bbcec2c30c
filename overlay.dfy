/**
 * The two per-feature computations of the airports overlay: the point
 * radius of the point layer and the `scalerank` filter that selects the
 * arc layer's destinations.
 */
module Overlay {

  /** An airport of the dataset, reduced to the one property both computations read. */
  datatype Feature = Feature(scalerank: int)

  /** Only features ranked below this reach the arc layer. */
  const ArcRankLimit := 4

  /**
   * `getPointRadius`: eleven less the rank, so the features the arc layer
   * keeps are exactly those drawn with a radius of at least eight.
   */
  function PointRadius(f: Feature): (r: int)
    ensures KeepsArc(f) <==> r >= 8
  {
    11 - f.scalerank
  }

  /** The arc layer keeps a feature exactly when its rank is below four. */
  predicate KeepsArc(f: Feature)
  {
    f.scalerank < ArcRankLimit
  }

  /** `sub` is `s` with some elements left out, the rest in their order. */
  ghost predicate IsSubsequence<T>(sub: seq<T>, s: seq<T>)
    decreases |s|
  {
    sub == [] || (s != [] && if sub[0] == s[0] then IsSubsequence(sub[1..], s[1..]) else IsSubsequence(sub, s[1..]))
  }

  /**
   * The arc layer's `dataTransform`: the features ranked below four, in
   * their original order, each as often as in the input and no others.
   */
  function ArcFilter(features: seq<Feature>): (r: seq<Feature>)
    ensures |r| <= |features|
    ensures forall i :: 0 <= i < |r| ==> KeepsArc(r[i])
    ensures forall f :: multiset(r)[f] == if KeepsArc(f) then multiset(features)[f] else 0
    ensures IsSubsequence(r, features)
  {
    if features == [] then []
    else
      assert features == [features[0]] + features[1..];
      if KeepsArc(features[0]) then [features[0]] + ArcFilter(features[1..])
      else ArcFilter(features[1..])
  }

  /** Every arc destination is drawn with a radius of at least eight. */
  lemma ArcPointsAreLarge(features: seq<Feature>)
    ensures forall f :: f in ArcFilter(features) ==> PointRadius(f) >= 8
  {
    var r := ArcFilter(features);
    forall f | f in r ensures PointRadius(f) >= 8 {
      var i :| 0 <= i < |r| && r[i] == f;
    }
  }

  /** Filtering twice changes nothing. */
  lemma {:induction false} ArcFilterIdempotent(features: seq<Feature>)
    ensures ArcFilter(ArcFilter(features)) == ArcFilter(features)
  {
    if features != [] {
      ArcFilterIdempotent(features[1..]);
      if KeepsArc(features[0]) {
        var r := ArcFilter(features[1..]);
        assert ([features[0]] + r)[1..] == r;
      }
    }
  }
}
