/**
 * src/index.js: the OpenLayers front end. Known step counts go to a
 * clustered source, unknown ones to a separate source; circles are coloured
 * by step count and styles are cached per step count and per cluster total.
 */
module OlFrontEnd {
  import opened Wrappers
  import opened JsText
  import opened Overpass
  import opened StairsJson
  import FetchData

  /** `circleColor(steps)`: blue for an unknown count, then by thresholds 100 and 50. */
  function CircleColor(steps: StepValue): (color: string)
    ensures color == "#55f" <==> steps.Undefined?
    ensures color == "#55f" || color == "tomato" || color == "#ffa500" || color == "#fff"
  {
    if steps.Undefined? then "#55f"
    else if Exceeds(steps, 100) then "tomato"
    else if Exceeds(steps, 50) then "#ffa500"
    else "#fff"
  }

  /** For a known number of steps: tomato above 100, orange above 50 up to 100, white up to 50. */
  lemma CircleColorThresholds(n: int)
    ensures CircleColor(Number(n)) == "tomato" <==> n > 100
    ensures CircleColor(Number(n)) == "#ffa500" <==> 50 < n <= 100
    ensures CircleColor(Number(n)) == "#fff" <==> n <= 50
    ensures CircleColor(Undefined) == "#55f"
  {
  }

  /** The parts of an OpenLayers style that the code sets. */
  datatype Style = Style(radius: int, fill: string, text: string, textColor: string)

  /** The style `circleStyle` builds for a step count. */
  function CircleStyleFor(steps: StepValue): (style: Style)
    ensures style.radius == 15 && style.fill == CircleColor(steps)
    ensures steps.Undefined? || steps.Null? ==> style.text == "?"
    ensures steps.Number? ==> style.text == IntToString(steps.value)
    ensures style.textColor == "#fff" <==> steps.Undefined?
  {
    Style(15, CircleColor(steps), if steps.Undefined? || steps.Null? then "?" else Display(steps),
          if steps.Undefined? then "#fff" else "#000")
  }

  /** The style `clusterStyle` builds for a cluster total. */
  function ClusterStyleFor(total: int): (style: Style)
    ensures style.radius == 15 && style.fill != "#55f" && style.textColor == "#000"
    ensures style.fill == CircleColor(Number(total)) && style.text == IntToString(total)
  {
    Style(15, CircleColor(Number(total)), IntToString(total), "#000")
  }

  /** Different totals are drawn with different texts, so caching cluster
      styles by the total's string never serves one total another's style. */
  lemma ClusterStylesDistinct(a: int, b: int)
    requires a != b
    ensures ClusterStyleFor(a) != ClusterStyleFor(b)
  {
    if IntToString(a) == IntToString(b) {
      IntToStringInjective(a, b);
    }
  }

  /** The key `circleStyleCache[steps]` uses: the step count converted to a string. */
  function CircleKey(steps: StepValue): string {
    Display(steps)
  }

  /** Object keys are strings, so an unknown count and the text "undefined"
      share one cache slot although their styles differ: whichever comes
      first decides what both get. This is a property of the cache key alone:
      `circleStyle` only styles the unknown-count layer, whose counts are all
      undefined, so the program as wired never meets the text. */
  lemma CircleKeyCollision()
    ensures CircleKey(Undefined) == CircleKey(Text("undefined"))
    ensures CircleStyleFor(Undefined) != CircleStyleFor(Text("undefined"))
  {
    assert CircleStyleFor(Undefined).fill == "#55f";
  }

  /** The `reduce` over a cluster's members: the sum of the step counts that
      are numbers, anything else counting as 0. */
  function ClusterTotal(members: seq<StepValue>): (total: int)
    ensures (forall i :: 0 <= i < |members| ==> !members[i].Number?) ==> total == 0
    ensures (forall i :: 0 <= i < |members| && members[i].Number? ==> members[i].value >= 0) ==> total >= 0
    ensures |members| == 1 ==> total == if members[0].Number? then members[0].value else 0
  {
    if members == [] then 0
    else
      var last := members[|members| - 1];
      ClusterTotal(members[..|members| - 1]) + (if last.Number? then last.value else 0)
  }

  /** The members that are numbers. */
  function NumbersOnly(members: seq<StepValue>): seq<StepValue> {
    if members == [] then []
    else (if members[0].Number? then [members[0]] else []) + NumbersOnly(members[1..])
  }

  /** The total of two groups of members is the sum of their totals. */
  lemma {:induction false} ClusterTotalAppend(a: seq<StepValue>, b: seq<StepValue>)
    ensures ClusterTotal(a + b) == ClusterTotal(a) + ClusterTotal(b)
    decreases |b|
  {
    if b == [] {
      assert a + b == a;
    } else {
      var b' := b[..|b| - 1];
      ClusterTotalAppend(a, b');
      assert (a + b)[..|a + b| - 1] == a + b';
    }
  }

  /** Members whose step count is not a number do not change the total. */
  lemma {:induction false} ClusterTotalOfNumbers(members: seq<StepValue>)
    ensures ClusterTotal(members) == ClusterTotal(NumbersOnly(members))
    ensures forall v :: v in NumbersOnly(members) <==> v in members && v.Number?
  {
    if members != [] {
      var head := if members[0].Number? then [members[0]] else [];
      ClusterTotalOfNumbers(members[1..]);
      ClusterTotalAppend([members[0]], members[1..]);
      ClusterTotalAppend(head, NumbersOnly(members[1..]));
      assert [members[0]] + members[1..] == members;
      assert ClusterTotal([members[0]]) == ClusterTotal(head) by {
        assert [members[0]][..0] == [];
        if head == [] {
          assert ClusterTotal([]) == 0;
        }
      }
    }
  }

  /** The two style caches of `loadStairs`, filled in place. */
  class StyleCaches {
    var circleCache: map<string, Style>
    var clusterCache: map<string, Style>

    /** Every cluster entry holds the style of the total whose key it is. */
    ghost predicate Valid()
      reads this
    {
      forall total :: IntToString(total) in clusterCache ==> clusterCache[IntToString(total)] == ClusterStyleFor(total)
    }

    constructor ()
      ensures Valid() && circleCache == map[] && clusterCache == map[]
    {
      circleCache := map[];
      clusterCache := map[];
    }

    /** `circleStyle(feature)`: the cached style for the step count's key,
        built and stored on the first call with that key. */
    method CircleStyle(steps: StepValue) returns (style: Style)
      requires Valid()
      modifies this
      ensures Valid() && clusterCache == old(clusterCache)
      ensures CircleKey(steps) in old(circleCache) ==>
                style == old(circleCache)[CircleKey(steps)] && circleCache == old(circleCache)
      ensures CircleKey(steps) !in old(circleCache) ==>
                style == CircleStyleFor(steps) && circleCache == old(circleCache)[CircleKey(steps) := style]
    {
      var key := CircleKey(steps);
      if key !in circleCache {
        circleCache := circleCache[key := CircleStyleFor(steps)];
      }
      style := circleCache[key];
    }

    /** `clusterStyle(feature)`: no style for a cluster whose total is 0 (or
        that is hidden); otherwise the style of the total, cached per total,
        so the same total always gets the same style. */
    method ClusterStyle(members: seq<StepValue>, hiddenByUnknownFilter: bool) returns (style: Option<Style>)
      requires Valid()
      modifies this
      ensures Valid() && circleCache == old(circleCache)
      ensures style.None? <==> ClusterTotal(members) == 0 || hiddenByUnknownFilter
      ensures style.Some? ==> style.value == ClusterStyleFor(ClusterTotal(members))
      ensures style.None? || IntToString(ClusterTotal(members)) in old(clusterCache) ==> clusterCache == old(clusterCache)
      ensures style.Some? && IntToString(ClusterTotal(members)) !in old(clusterCache) ==>
                clusterCache == old(clusterCache)[IntToString(ClusterTotal(members)) := style.value]
    {
      var total := ClusterTotal(members);
      if total == 0 || hiddenByUnknownFilter {
        return None;
      }
      var key := IntToString(total);
      if key !in clusterCache {
        forall t | IntToString(t) == key
          ensures t == total
        {
          IntToStringInjective(t, total);
        }
        clusterCache := clusterCache[key := ClusterStyleFor(total)];
      }
      style := Some(clusterCache[key]);
    }
  }

  /** What a marker keeps of its feature. */
  datatype Marker = Marker(id: int, title: string, lonlat: Position, stepCount: StepValue)

  /** The marker title: the name when it is a non-empty string, else
      "Trapp med N trinn" with "ukjent antal" for a null or undefined count. */
  function Title(f: MapFeature): (title: string)
    ensures |title| > 0
    ensures (f.name.None? || f.name.value == "") ==> "Trapp med " <= title
    ensures (f.name.None? || f.name.value == "") && (f.stepCount.Undefined? || f.stepCount.Null?) ==>
              title == "Trapp med ukjent antal trinn"
    ensures (f.name.None? || f.name.value == "") && !(f.stepCount.Undefined? || f.stepCount.Null?) ==>
              title == "Trapp med " + Display(f.stepCount) + " trinn"
    ensures f.name.Some? && f.name.value != "" ==> title == f.name.value
  {
    if f.name.Some? && f.name.value != "" then f.name.value
    else "Trapp med " + (if f.stepCount.Undefined? || f.stepCount.Null? then "ukjent antal" else Display(f.stepCount)) + " trinn"
  }

  /** `createMarker(feature, source)`: the marker at the first position of the
      geometry, kept as `[lon, lat]`; throws when there is no first position. */
  function CreateMarker(f: MapFeature): (m: Option<Marker>)
    ensures m.Some? <==> f.coordinates != []
    ensures m.Some? ==> m.value.lonlat == f.coordinates[0] && m.value.id == f.id
                        && m.value.stepCount == f.stepCount && m.value.title == Title(f)
  {
    if f.coordinates == [] then None
    else Some(Marker(f.id, Title(f), Position(f.coordinates[0].e0, f.coordinates[0].e1), f.stepCount))
  }

  /** The number of features until the first one without coordinates. */
  function Placeable(features: seq<MapFeature>): (n: nat)
    ensures n <= |features|
    ensures forall i :: 0 <= i < n ==> features[i].coordinates != []
    ensures n < |features| ==> features[n].coordinates == []
  {
    if features == [] || features[0].coordinates == [] then 0
    else 1 + Placeable(features[1..])
  }

  /** The markers of the features with (`unknown`) or without an undefined
      step count, in order. A feature without a first position has no marker;
      `loadStairs` never gets past one (see `LoadStairs`). */
  function MarkersWhere(features: seq<MapFeature>, unknown: bool): (ms: seq<Marker>)
    ensures |ms| <= |features|
    ensures forall m :: m in ms ==> m.stepCount.Undefined? == unknown
  {
    if features == [] then []
    else
      var init := MarkersWhere(features[..|features| - 1], unknown);
      var f := features[|features| - 1];
      if f.stepCount.Undefined? == unknown && CreateMarker(f).Some? then init + [CreateMarker(f).value] else init
  }

  /** Selecting from two runs of features selects from each in turn, so the
      markers keep the order of their features. */
  lemma {:induction false} MarkersWhereAppend(a: seq<MapFeature>, b: seq<MapFeature>, unknown: bool)
    ensures MarkersWhere(a + b, unknown) == MarkersWhere(a, unknown) + MarkersWhere(b, unknown)
    decreases |b|
  {
    if b == [] {
      assert a + b == a;
    } else {
      var b' := b[..|b| - 1];
      var last := b[|b| - 1];
      assert b == b' + [last] && a + b == (a + b') + [last];
      var x, y, z := MarkersWhere(a, unknown), MarkersWhere(b', unknown), MarkersWhere([last], unknown);
      calc {
        MarkersWhere(a + b, unknown);
        { MarkersWhereSnoc(a + b', last, unknown); }
        MarkersWhere(a + b', unknown) + z;
        { MarkersWhereAppend(a, b', unknown); }
        (x + y) + z;
        x + (y + z);
        { MarkersWhereSnoc(b', last, unknown); }
        x + MarkersWhere(b, unknown);
      }
    }
  }

  /** One more feature adds its own marker, if any, at the end. */
  lemma MarkersWhereSnoc(features: seq<MapFeature>, f: MapFeature, unknown: bool)
    ensures MarkersWhere(features + [f], unknown) == MarkersWhere(features, unknown) + MarkersWhere([f], unknown)
  {
    assert (features + [f])[..|features|] == features && [f][..0] == [];
  }

  /** The markers are exactly those of the features on the chosen side. */
  lemma {:induction false} MarkersWhereMembers(features: seq<MapFeature>, unknown: bool)
    ensures forall m :: m in MarkersWhere(features, unknown) <==>
              exists f :: f in features && f.stepCount.Undefined? == unknown && CreateMarker(f) == Some(m)
  {
    if features != [] {
      var init := features[..|features| - 1];
      var last := features[|features| - 1];
      MarkersWhereMembers(init, unknown);
      assert features == init + [last];
      forall m | m in MarkersWhere(features, unknown)
        ensures exists f :: f in features && f.stepCount.Undefined? == unknown && CreateMarker(f) == Some(m)
      {
        if m in MarkersWhere(init, unknown) {
          var f :| f in init && f.stepCount.Undefined? == unknown && CreateMarker(f) == Some(m);
          assert f in features;
        } else {
          assert CreateMarker(last) == Some(m);
        }
      }
      forall f | f in features && f.stepCount.Undefined? == unknown && CreateMarker(f).Some?
        ensures CreateMarker(f).value in MarkersWhere(features, unknown)
      {
        if f in init {
          assert CreateMarker(f).value in MarkersWhere(init, unknown);
        }
      }
    }
  }

  /** The number of features whose step count is undefined. */
  function CountUnknown(features: seq<MapFeature>): (n: nat)
    ensures n <= |features|
    ensures (forall i :: 0 <= i < |features| ==> !features[i].stepCount.Undefined?) ==> n == 0
  {
    if features == [] then 0
    else CountUnknown(features[..|features| - 1]) + (if features[|features| - 1].stepCount.Undefined? then 1 else 0)
  }

  /** One marker is made per feature, on exactly one side, and the unknown
      count is the number made for the unknown side. */
  lemma {:induction false} PartitionSizes(features: seq<MapFeature>)
    requires forall i :: 0 <= i < |features| ==> features[i].coordinates != []
    ensures |MarkersWhere(features, true)| + |MarkersWhere(features, false)| == |features|
    ensures |MarkersWhere(features, true)| == CountUnknown(features)
  {
    if features != [] {
      PartitionSizes(features[..|features| - 1]);
    }
  }

  /** `source.addFeature(marker)` on an OpenLayers vector source: a feature
      whose id is already in the source's id index is not added. The index
      is keyed by the id's string form, and distinct integers have distinct
      strings (`IntToStringInjective`), so this compares the ids. */
  function AddFeature(source: seq<Marker>, marker: Marker): (added: seq<Marker>)
    ensures exists x :: x in added && x.id == marker.id
    ensures added == source || added == source + [marker]
    ensures added == source <==> exists x :: x in source && x.id == marker.id
  {
    if exists x :: x in source && x.id == marker.id then source
    else
      assert (source + [marker])[|source|] == marker;
      source + [marker]
  }

  /** A marker whose id the source does not hold is appended. */
  lemma AddNewId(source: seq<Marker>, marker: Marker)
    requires !exists x :: x in source && x.id == marker.id
    ensures AddFeature(source, marker) == source + [marker]
  {
  }

  /** A new vector source after `addFeature` of each marker in turn. */
  function SourceOf(markers: seq<Marker>): seq<Marker> {
    if markers == [] then []
    else AddFeature(SourceOf(markers[..|markers| - 1]), markers[|markers| - 1])
  }

  predicate DistinctIds(markers: seq<Marker>) {
    forall i, j :: 0 <= i < j < |markers| ==> markers[i].id != markers[j].id
  }

  predicate DistinctFeatureIds(features: seq<MapFeature>) {
    forall i, j :: 0 <= i < j < |features| ==> features[i].id != features[j].id
  }

  /** A source never holds two markers with one id, nor more markers than were added. */
  lemma {:induction false} SourceIdsDistinct(markers: seq<Marker>)
    ensures DistinctIds(SourceOf(markers)) && |SourceOf(markers)| <= |markers|
  {
    if markers != [] {
      SourceIdsDistinct(markers[..|markers| - 1]);
    }
  }

  /** Every id added is in the source. */
  lemma {:induction false} SourceCoversIds(markers: seq<Marker>)
    ensures forall m :: m in markers ==> exists x :: x in SourceOf(markers) && x.id == m.id
  {
    if markers != [] {
      var init := markers[..|markers| - 1];
      var last := markers[|markers| - 1];
      SourceCoversIds(init);
      assert markers == init + [last];
      var before := SourceOf(init);
      assert forall x :: x in before ==> x in SourceOf(markers);
      if !exists x :: x in before && x.id == last.id {
        assert last in SourceOf(markers);
      }
    }
  }

  /** `x` is in `markers`, and no marker before it has its id. */
  predicate FirstWithId(markers: seq<Marker>, x: Marker) {
    exists i :: 0 <= i < |markers| && markers[i] == x && forall j :: 0 <= j < i ==> markers[j].id != x.id
  }

  /** What the source holds is, for its id, the first marker added with that id. */
  lemma {:induction false} SourceHoldsFirstPerId(markers: seq<Marker>)
    ensures forall x :: x in SourceOf(markers) ==> FirstWithId(markers, x)
  {
    if markers != [] {
      var init := markers[..|markers| - 1];
      var last := markers[|markers| - 1];
      var before := SourceOf(init);
      SourceHoldsFirstPerId(init);
      assert markers == init + [last];
      forall x | x in SourceOf(markers)
        ensures FirstWithId(markers, x)
      {
        if x in before {
          FirstStaysFirst(init, last, x);
        } else {
          assert x == last && !exists y :: y in before && y.id == last.id;
          SourceCoversIds(init);
          NewIdIsFirst(init, last);
        }
      }
    }
  }

  /** The first marker with its id stays the first once another marker is added after it. */
  lemma FirstStaysFirst(init: seq<Marker>, last: Marker, x: Marker)
    requires FirstWithId(init, x)
    ensures FirstWithId(init + [last], x)
  {
    var i :| 0 <= i < |init| && init[i] == x && forall j :: 0 <= j < i ==> init[j].id != x.id;
    assert (init + [last])[i] == x;
  }

  /** A marker whose id no earlier marker has is the first with that id. */
  lemma NewIdIsFirst(init: seq<Marker>, last: Marker)
    requires forall m :: m in init ==> exists x :: x in SourceOf(init) && x.id == m.id
    requires !exists y :: y in SourceOf(init) && y.id == last.id
    ensures FirstWithId(init + [last], last)
  {
    var markers := init + [last];
    forall j | 0 <= j < |init|
      ensures markers[j].id != last.id
    {
      assert markers[j] == init[j] && init[j] in init;
    }
    assert markers[|init|] == last;
  }

  /** A source holds one marker per id: for each id added, the first marker
      added with it, and nothing else. */
  lemma SourceKeepsFirstPerId(markers: seq<Marker>)
    ensures DistinctIds(SourceOf(markers)) && |SourceOf(markers)| <= |markers|
    ensures forall m :: m in markers ==> exists x :: x in SourceOf(markers) && x.id == m.id
    ensures forall x :: x in SourceOf(markers) ==> FirstWithId(markers, x)
  {
    SourceIdsDistinct(markers);
    SourceCoversIds(markers);
    SourceHoldsFirstPerId(markers);
  }

  /** Markers with distinct ids all land in the source, in order. */
  lemma {:induction false} SourceOfDistinct(markers: seq<Marker>)
    requires DistinctIds(markers)
    ensures SourceOf(markers) == markers
  {
    if markers != [] {
      var init := markers[..|markers| - 1];
      var last := markers[|markers| - 1];
      DistinctLast(markers);
      assert markers == init + [last];
      calc {
        SourceOf(markers);
        { AddedLast(init, last); }
        AddFeature(SourceOf(init), last);
        { SourceOfDistinct(init); }
        AddFeature(init, last);
        { AddNewId(init, last); }
        markers;
      }
    }
  }

  /** Without its last marker a list of distinct ids stays distinct, and the
      last id is none of the others. */
  lemma DistinctLast(markers: seq<Marker>)
    requires markers != [] && DistinctIds(markers)
    ensures DistinctIds(markers[..|markers| - 1])
    ensures !exists x :: x in markers[..|markers| - 1] && x.id == markers[|markers| - 1].id
  {
    var init := markers[..|markers| - 1];
    forall x | x in init
      ensures x.id != markers[|markers| - 1].id
    {
      var k :| 0 <= k < |init| && init[k] == x;
      assert markers[k] == x;
    }
  }


  /** Features with distinct ids give markers with distinct ids. */
  lemma {:induction false} MarkersWhereDistinct(features: seq<MapFeature>, unknown: bool)
    requires DistinctFeatureIds(features)
    ensures DistinctIds(MarkersWhere(features, unknown))
  {
    if features != [] {
      var init := features[..|features| - 1];
      var last := features[|features| - 1];
      assert DistinctFeatureIds(init) by {
        forall i, j | 0 <= i < j < |init| ensures init[i].id != init[j].id {
          assert init[i] == features[i] && init[j] == features[j];
        }
      }
      MarkersWhereDistinct(init, unknown);
      MarkersWhereMembers(init, unknown);
      var ms := MarkersWhere(init, unknown);
      forall k | 0 <= k < |ms|
        ensures ms[k].id != last.id
      {
        var f :| f in init && f.stepCount.Undefined? == unknown && CreateMarker(f) == Some(ms[k]);
        var i :| 0 <= i < |init| && init[i] == f;
        assert features[i] == f;
      }
      if last.stepCount.Undefined? == unknown && CreateMarker(last).Some? {
        DistinctSnoc(ms, CreateMarker(last).value);
      }
    }
  }

  /** A marker whose id is new keeps the ids distinct. */
  lemma DistinctSnoc(ms: seq<Marker>, m: Marker)
    requires DistinctIds(ms)
    requires forall k :: 0 <= k < |ms| ==> ms[k].id != m.id
    ensures DistinctIds(ms + [m])
  {
    forall i, j | 0 <= i < j < |ms + [m]| ensures (ms + [m])[i].id != (ms + [m])[j].id {
      if j == |ms| { assert (ms + [m])[j] == m && (ms + [m])[i] == ms[i]; }
    }
  }

  /** The unknown source holds at most as many markers as the label counts,
      and exactly as many when the features' ids are distinct; two features
      sharing an id are counted twice but placed once. */
  lemma UnknownSourceSize(features: seq<MapFeature>)
    requires forall i :: 0 <= i < |features| ==> features[i].coordinates != []
    ensures |SourceOf(MarkersWhere(features, true))| <= CountUnknown(features)
    ensures DistinctFeatureIds(features) ==> |SourceOf(MarkersWhere(features, true))| == CountUnknown(features)
  {
    PartitionSizes(features);
    SourceKeepsFirstPerId(MarkersWhere(features, true));
    if DistinctFeatureIds(features) {
      MarkersWhereDistinct(features, true);
      SourceOfDistinct(MarkersWhere(features, true));
    }
  }

  /** The `forEach` of `loadStairs`: counts unknown step counts and adds each
      feature's marker to the unknown or the known source. A feature without
      coordinates throws in `createMarker` and ends the loop there, after the
      count was raised for it if its step count is undefined. */
  method LoadStairs(features: seq<MapFeature>)
    returns (known: seq<Marker>, unknown: seq<Marker>, stairsWithUnknownCount: nat, placed: nat)
    ensures placed == Placeable(features)
    ensures known == SourceOf(MarkersWhere(features[..placed], false))
    ensures unknown == SourceOf(MarkersWhere(features[..placed], true))
    ensures stairsWithUnknownCount ==
              CountUnknown(features[..placed])
              + (if placed < |features| && features[placed].stepCount.Undefined? then 1 else 0)
  {
    known, unknown, stairsWithUnknownCount := [], [], 0;
    var i := 0;
    while i < |features|
      invariant i <= Placeable(features)
      invariant known == SourceOf(MarkersWhere(features[..i], false))
      invariant unknown == SourceOf(MarkersWhere(features[..i], true))
      invariant stairsWithUnknownCount == CountUnknown(features[..i])
    {
      var feature := features[i];
      var marker := CreateMarker(feature);
      if feature.stepCount.Undefined? {
        stairsWithUnknownCount := stairsWithUnknownCount + 1;
      }
      if marker.None? {
        LoadStop(features, i);
        return known, unknown, stairsWithUnknownCount, i;
      }
      LoadTurn(features, i);
      if feature.stepCount.Undefined? {
        unknown := AddFeature(unknown, marker.value);
      } else {
        known := AddFeature(known, marker.value);
      }
      i := i + 1;
    }
    assert features[..i] == features;
    placed := i;
  }

  /** A feature without a first position, reached in turn, is where placing stops. */
  lemma LoadStop(features: seq<MapFeature>, i: nat)
    requires i < |features| && i <= Placeable(features) && features[i].coordinates == []
    ensures Placeable(features) == i
  {
  }

  /** One turn of the `forEach` over a feature with a first position: the
      next feature is reached, the count and the two sources move on. */
  lemma LoadTurn(features: seq<MapFeature>, i: nat)
    requires i < |features| && i <= Placeable(features) && features[i].coordinates != []
    ensures i + 1 <= Placeable(features)
    ensures CountUnknown(features[..i + 1]) == CountUnknown(features[..i]) + (if features[i].stepCount.Undefined? then 1 else 0)
    ensures SourceOf(MarkersWhere(features[..i + 1], true)) ==
              if features[i].stepCount.Undefined?
              then AddFeature(SourceOf(MarkersWhere(features[..i], true)), CreateMarker(features[i]).value)
              else SourceOf(MarkersWhere(features[..i], true))
    ensures SourceOf(MarkersWhere(features[..i + 1], false)) ==
              if !features[i].stepCount.Undefined?
              then AddFeature(SourceOf(MarkersWhere(features[..i], false)), CreateMarker(features[i]).value)
              else SourceOf(MarkersWhere(features[..i], false))
  {
    assert CountUnknown(features[..i + 1]) == CountUnknown(features[..i]) + (if features[i].stepCount.Undefined? then 1 else 0) by {
      assert features[..i + 1][..i] == features[..i];
    }
    LoadStep(features, i, true);
    LoadStep(features, i, false);
  }

  /** One turn of the `forEach` for one side: the feature's marker goes to
      that side's source exactly when the feature belongs to that side. */
  lemma LoadStep(features: seq<MapFeature>, i: nat, unknown: bool)
    requires i < |features| && features[i].coordinates != []
    ensures SourceOf(MarkersWhere(features[..i + 1], unknown)) ==
              if features[i].stepCount.Undefined? == unknown
              then AddFeature(SourceOf(MarkersWhere(features[..i], unknown)), CreateMarker(features[i]).value)
              else SourceOf(MarkersWhere(features[..i], unknown))
  {
    var prefix := features[..i + 1];
    assert prefix[..i] == features[..i] && prefix[i] == features[i];
    if features[i].stepCount.Undefined? == unknown {
      AddedLast(MarkersWhere(features[..i], unknown), CreateMarker(features[i]).value);
    }
  }

  /** Adding one more marker to a source built from `markers`. */
  lemma AddedLast(markers: seq<Marker>, marker: Marker)
    ensures SourceOf(markers + [marker]) == AddFeature(SourceOf(markers), marker)
  {
    assert (markers + [marker])[..|markers|] == markers;
  }

  /** For a feature written by fetchData.js the marker sits at the first node
      of the way, longitude first. */
  lemma MarkerAtFirstNode(way: Way, index: map<int, Node>)
    requires FetchData.ToFeature(way, index).Ok? && way.nodes != []
    ensures var m := CreateMarker(FromStairFeature(FetchData.ToFeature(way, index).value));
            m.Some? && m.value.lonlat == Position(index[way.nodes[0]].lon, index[way.nodes[0]].lat)
  {
    assert FetchData.IsFeatureOf(FetchData.ToFeature(way, index).value, way, index);
  }
}
