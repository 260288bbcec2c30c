/**
 * The filter state of the map component and the two pure computations on
 * it: the guarded shallow merge behind `changeFilter` and the query that
 * `getQueryParams` builds for the trips tile source.
 */
module Filter {
  import opened Wrappers
  import Uri
  import Decimal

  /** A JavaScript `Date` as the component constructs it: year, month counted from 0, day. */
  datatype Date = Date(year: int, month: int, day: int)

  /** The selected date range; `to` may be left undefined. */
  datatype DateRange = DateRange(from: Date, to: Option<Date>)

  /** The component state. Nothing bounds `hour`. */
  datatype FilterState = FilterState(visibleLayer: string, range: DateRange, hour: int)

  /** The state the constructor installs: the trips layer, 1 January to 4 May 2017, 9 o'clock. */
  const InitialState := FilterState("trips", DateRange(Date(2017, 0, 1), Some(Date(2017, 4, 4))), 9)

  // ---------------------------------------------------------------- changeFilter

  /** The state keys the filter controls pass to `changeFilter`. */
  datatype Field = VisibleLayerField | RangeField | HourField

  /** A value for one of those keys. */
  datatype Value = LayerValue(layer: string) | RangeValue(range: DateRange) | HourValue(hour: int)

  predicate Fits(f: Field, v: Value)
  {
    match f
    case VisibleLayerField => v.LayerValue?
    case RangeField => v.RangeValue?
    case HourField => v.HourValue?
  }

  /** The value the state holds under a key. */
  function Get(s: FilterState, f: Field): (v: Value)
    ensures Fits(f, v)
  {
    match f
    case VisibleLayerField => LayerValue(s.visibleLayer)
    case RangeField => RangeValue(s.range)
    case HourField => HourValue(s.hour)
  }

  /**
   * `changeFilter(key, value)`: when both are defined, the state with that
   * key set to the value and every other key kept; otherwise the state as
   * it was.
   */
  function ApplyFilter(s: FilterState, key: Option<Field>, value: Option<Value>): (r: FilterState)
    requires key.Some? && value.Some? ==> Fits(key.value, value.value)
    ensures key.None? || value.None? ==> r == s
    ensures key.Some? && value.Some? ==>
      Get(r, key.value) == value.value && forall f :: f != key.value ==> Get(r, f) == Get(s, f)
  {
    if key.None? || value.None? then s
    else match value.value
      case LayerValue(l) => s.(visibleLayer := l)
      case RangeValue(rg) => s.(range := rg)
      case HourValue(h) => s.(hour := h)
  }

  /** A state is determined by what it holds under the three keys. */
  lemma StateByFields(s: FilterState, t: FilterState)
    requires forall f :: Get(s, f) == Get(t, f)
    ensures s == t
  {
    assert Get(s, VisibleLayerField) == Get(t, VisibleLayerField);
    assert Get(s, RangeField) == Get(t, RangeField);
    assert Get(s, HourField) == Get(t, HourField);
  }

  /** Applying the same defined update twice is the same as applying it once. */
  lemma ApplyFilterIdempotent(s: FilterState, key: Option<Field>, value: Option<Value>)
    requires key.Some? && value.Some? ==> Fits(key.value, value.value)
    ensures ApplyFilter(ApplyFilter(s, key, value), key, value) == ApplyFilter(s, key, value)
  {
    var once := ApplyFilter(s, key, value);
    var twice := ApplyFilter(once, key, value);
    if key.Some? && value.Some? {
      forall f ensures Get(twice, f) == Get(once, f) {
        if f != key.value {
          assert Get(twice, f) == Get(once, f);
        }
      }
      StateByFields(twice, once);
    }
  }

  /** Updates of two different keys commute. */
  lemma ApplyFilterCommutes(s: FilterState, k1: Field, v1: Value, k2: Field, v2: Value)
    requires Fits(k1, v1) && Fits(k2, v2) && k1 != k2
    ensures ApplyFilter(ApplyFilter(s, Some(k1), Some(v1)), Some(k2), Some(v2))
         == ApplyFilter(ApplyFilter(s, Some(k2), Some(v2)), Some(k1), Some(v1))
  {
    var a := ApplyFilter(ApplyFilter(s, Some(k1), Some(v1)), Some(k2), Some(v2));
    var b := ApplyFilter(ApplyFilter(s, Some(k2), Some(v2)), Some(k1), Some(v1));
    forall f ensures Get(a, f) == Get(b, f) {
    }
    StateByFields(a, b);
  }

  // ---------------------------------------------------------------- getQueryParams

  /** The year written after every date, whatever the date's own year. */
  const YearSuffix := ".2017"

  /** The `date_from` value: the converted start date and the fixed year. */
  function DateFrom(s: FilterState, conv: Date -> string): (r: string)
    ensures |r| >= 5 && r[|r| - 5..] == ".2017" && r[..|r| - 5] == conv(s.range.from)
  {
    conv(s.range.from) + YearSuffix
  }

  /** The `date_to` value: the converted end date, or the `date_from` value when there is none. */
  function DateTo(s: FilterState, conv: Date -> string): (r: string)
    ensures |r| >= 5 && r[|r| - 5..] == ".2017"
    ensures s.range.to.None? ==> r == DateFrom(s, conv)
    ensures s.range.to.Some? ==> r[..|r| - 5] == conv(s.range.to.value)
  {
    match s.range.to
    case None => DateFrom(s, conv)
    case Some(t) => conv(t) + YearSuffix
  }

  /** The query before URI encoding. */
  function Query(s: FilterState, conv: Date -> string): (r: string)
    ensures var head := "date_from=" + DateFrom(s, conv); |r| > |head| && r[..|head|] == head
    ensures var tail := "&hour=" + Decimal.IntToString(s.hour); |r| > |tail| && r[|r| - |tail|..] == tail
  {
    var head := "date_from=" + DateFrom(s, conv);
    var middle := "&date_to=" + DateTo(s, conv);
    var tail := "&hour=" + Decimal.IntToString(s.hour);
    assert (head + middle + tail)[..|head|] == head;
    assert (head + middle + tail)[|head + middle|..] == tail;
    assert head + middle + tail == "date_from=" + DateFrom(s, conv) + "&date_to=" + DateTo(s, conv) + "&hour=" + Decimal.IntToString(s.hour);
    "date_from=" + DateFrom(s, conv) + "&date_to=" + DateTo(s, conv) + "&hour=" + Decimal.IntToString(s.hour)
  }

  /** `getQueryParams()`: the query passed through `encodeURI`; it holds only URI characters. */
  function QueryParams(s: FilterState, conv: Date -> string): (r: string)
    ensures |r| >= |Query(s, conv)|
    ensures forall i :: 0 <= i < |r| ==> Uri.IsUriChar(r[i])
  {
    Uri.EncodeUri(Query(s, conv))
  }

  /** The path of the trips tile endpoint, up to its query. */
  const TripsPath := "/tiles/get_trips?"

  /** The URL of the trips tile source for a state: the endpoint path, then the encoded query. */
  function TripsUrl(s: FilterState, conv: Date -> string): (r: string)
    ensures |r| > |TripsPath| && r[..|TripsPath|] == TripsPath
    ensures r[|TripsPath|..] == QueryParams(s, conv)
  {
    TripsPath + QueryParams(s, conv)
  }

  // ---------------------------------------------------------------- properties of the query

  predicate AllUnescaped(s: string)
  {
    forall i :: 0 <= i < |s| ==> Uri.IsUnescaped(s[i])
  }

  /** A key made of unescaped characters passes through `encodeURI` unchanged in front of its value. */
  lemma EncodeAfterLiteral(key: string, v: string)
    requires AllUnescaped(key)
    ensures Uri.EncodeUri(key + v) == key + Uri.EncodeUri(v)
  {
    Uri.EncodeUriAppend(key, v);
    Uri.EncodeUriUnescaped(key);
  }

  lemma ConcatSixAssoc(a: string, b: string, c: string, d: string, e: string, f: string)
    ensures a + b + c + d + e + f == (a + b) + (c + d) + (e + f)
  {
  }

  lemma EncodeThree(a: string, b: string, c: string)
    ensures Uri.EncodeUri(a + b + c) == Uri.EncodeUri(a) + Uri.EncodeUri(b) + Uri.EncodeUri(c)
  {
    Uri.EncodeUriAppend(a + b, c);
    Uri.EncodeUriAppend(a, b);
  }

  /** Encoding three key/value pairs whose keys need no escaping encodes only the values. */
  lemma EncodePairs(k1: string, v1: string, k2: string, v2: string, k3: string, v3: string)
    requires AllUnescaped(k1) && AllUnescaped(k2) && AllUnescaped(k3)
    ensures Uri.EncodeUri(k1 + v1 + k2 + v2 + k3 + v3)
         == k1 + Uri.EncodeUri(v1) + k2 + Uri.EncodeUri(v2) + k3 + Uri.EncodeUri(v3)
  {
    var e1, e2, e3 := Uri.EncodeUri(v1), Uri.EncodeUri(v2), Uri.EncodeUri(v3);
    ConcatSixAssoc(k1, v1, k2, v2, k3, v3);
    ConcatSixAssoc(k1, e1, k2, e2, k3, e3);
    EncodeThree(k1 + v1, k2 + v2, k3 + v3);
    EncodeAfterLiteral(k1, v1);
    EncodeAfterLiteral(k2, v2);
    EncodeAfterLiteral(k3, v3);
  }

  /**
   * The encoded query keeps its separators: it is the three encoded values
   * between the literal keys, and the hour stays as its decimal text.
   */
  lemma QueryParamsShape(s: FilterState, conv: Date -> string)
    ensures QueryParams(s, conv)
         == "date_from=" + Uri.EncodeUri(DateFrom(s, conv))
          + "&date_to=" + Uri.EncodeUri(DateTo(s, conv))
          + "&hour=" + Decimal.IntToString(s.hour)
  {
    var h := Decimal.IntToString(s.hour);
    assert AllUnescaped("date_from=") && AllUnescaped("&date_to=") && AllUnescaped("&hour=");
    EncodePairs("date_from=", DateFrom(s, conv), "&date_to=", DateTo(s, conv), "&hour=", h);
    Uri.EncodeUriUnescaped(h);
  }

  /** Each date value is the encoded converted date followed by the literal `.2017`. */
  lemma EncodedDateSuffix(d: string)
    ensures Uri.EncodeUri(d + YearSuffix) == Uri.EncodeUri(d) + ".2017"
  {
    Uri.EncodeUriAppend(d, YearSuffix);
    Uri.EncodeUriUnescaped(YearSuffix);
  }

  /** Without an end date the query repeats the start date as `date_to`. */
  lemma OpenRangeRepeatsFrom(s: FilterState, conv: Date -> string)
    requires s.range.to.None?
    ensures var d := Uri.EncodeUri(conv(s.range.from)) + ".2017";
      QueryParams(s, conv) == "date_from=" + d + "&date_to=" + d + "&hour=" + Decimal.IntToString(s.hour)
  {
    QueryParamsShape(s, conv);
    EncodedDateSuffix(conv(s.range.from));
  }

  /** With an end date the query carries both converted dates, each with the year `.2017`. */
  lemma ClosedRangeQuery(s: FilterState, conv: Date -> string)
    requires s.range.to.Some?
    ensures QueryParams(s, conv)
         == "date_from=" + Uri.EncodeUri(conv(s.range.from)) + ".2017"
          + "&date_to=" + Uri.EncodeUri(conv(s.range.to.value)) + ".2017"
          + "&hour=" + Decimal.IntToString(s.hour)
  {
    var ef, et := Uri.EncodeUri(conv(s.range.from)), Uri.EncodeUri(conv(s.range.to.value));
    QueryParamsShape(s, conv);
    EncodedDateSuffix(conv(s.range.from));
    EncodedDateSuffix(conv(s.range.to.value));
    Regroup("date_from=", ef, ".2017", "&date_to=", et, ".2017", "&hour=", Decimal.IntToString(s.hour));
  }

  lemma Regroup(k1: string, x: string, s1: string, k2: string, y: string, s2: string, k3: string, h: string)
    ensures k1 + (x + s1) + k2 + (y + s2) + k3 + h == k1 + x + s1 + k2 + y + s2 + k3 + h
  {
  }

  /** Two end points the converter renders differently give different encoded values. */
  lemma DistinctDatesStayDistinct(s: FilterState, conv: Date -> string)
    requires s.range.to.Some? && conv(s.range.from) != conv(s.range.to.value)
    ensures Uri.EncodeUri(DateFrom(s, conv)) != Uri.EncodeUri(DateTo(s, conv))
  {
    var f, t := DateFrom(s, conv), DateTo(s, conv);
    assert f[..|f| - 5] == conv(s.range.from);
    assert t[..|t| - 5] == conv(s.range.to.value);
    if Uri.EncodeUri(f) == Uri.EncodeUri(t) {
      Uri.EncodeUriInjective(f, t);
    }
  }

  /** `decodeURI` recovers the query exactly from its encoded form. */
  lemma QueryParamsDecode(s: FilterState, conv: Date -> string)
    ensures Uri.DecodeUri(QueryParams(s, conv)) == Some(Query(s, conv))
  {
    Uri.DecodeEncodeUri(Query(s, conv));
  }

  /** The query does not depend on which layer is shown. */
  lemma QueryIgnoresVisibleLayer(s: FilterState, conv: Date -> string, layer: string)
    ensures QueryParams(s.(visibleLayer := layer), conv) == QueryParams(s, conv)
  {
  }

  /** The query of a state with an end date whose converted dates need no escaping. */
  lemma PlainDatesQuery(s: FilterState, conv: Date -> string, from: string, to: string)
    requires s.range.to.Some? && conv(s.range.from) == from && conv(s.range.to.value) == to
    requires AllUnescaped(from) && AllUnescaped(to)
    ensures QueryParams(s, conv)
         == "date_from=" + from + ".2017" + "&date_to=" + to + ".2017" + "&hour=" + Decimal.IntToString(s.hour)
  {
    ClosedRangeQuery(s, conv);
    Uri.EncodeUriUnescaped(from);
    Uri.EncodeUriUnescaped(to);
  }

  lemma InitialQueryText()
    ensures "date_from=" + "1.1" + ".2017" + "&date_to=" + "4.5" + ".2017" + "&hour=" + Decimal.IntToString(9)
         == "date_from=1.1.2017&date_to=4.5.2017&hour=9"
  {
    assert Decimal.IntToString(9) == "9";
  }

  /**
   * The initial state with a converter that writes day and month as
   * `1.1` and `4.5` gives `date_from=1.1.2017&date_to=4.5.2017&hour=9`.
   */
  lemma InitialQuery(conv: Date -> string)
    requires conv(Date(2017, 0, 1)) == "1.1" && conv(Date(2017, 4, 4)) == "4.5"
    ensures QueryParams(InitialState, conv) == "date_from=1.1.2017&date_to=4.5.2017&hour=9"
  {
    assert AllUnescaped("1.1") && AllUnescaped("4.5");
    PlainDatesQuery(InitialState, conv, "1.1", "4.5");
    InitialQueryText();
  }
}
