/**
 * build.js: the older pipeline. One request and no retry; any failure is
 * caught and logged, so nothing is written and nothing is thrown. Its
 * normaliser resolves coordinates exactly as fetchData.js does but copies
 * every tag into `properties`, with `id` forced to the first node id.
 */
module Build {
  import opened Wrappers
  import opened JsText
  import opened Overpass
  import FetchData

  /** A property value as serialised: the text of a tag, or the number stored under `id`. */
  datatype PropertyValue = Text(text: string) | Number(value: int)

  type Properties = map<string, PropertyValue>

  /** `{...element.tags, id: element.nodes[0]}` as JSON keeps it: every tag
      (none when the way has no tags), then `id` set to the first node id,
      which replaces a tag named `id`; with no nodes `id` is `undefined`,
      so the key is dropped when serialised. */
  function SpreadProperties(nodes: seq<int>, tags: Option<map<string, string>>): (p: Properties)
    ensures nodes != [] ==> "id" in p && p["id"] == Number(nodes[0])
    ensures nodes == [] ==> "id" !in p
    ensures forall k :: k != "id" ==> (k in p <==> tags.Some? && k in tags.value)
    ensures forall k :: k != "id" && k in p ==> tags.Some? && k in tags.value && p[k] == Text(tags.value[k])
  {
    var spread: Properties := if tags.None? then map[] else map k | k in tags.value :: Text(tags.value[k]);
    if nodes == [] then spread - {"id"} else spread["id" := Number(nodes[0])]
  }

  /** One way as a Feature with the way's id, the resolved `[lon, lat]`
      positions and the spread tags; fails with the first unknown node id. */
  function ToFeature(way: Way, index: map<int, Node>): (r: Result<Feature<Properties>, int>)
    ensures r.Ok? <==> AllResolved(way.nodes, index)
    ensures r.Ok? ==> && r.value.id == way.id
                      && ResolveCoordinates(way.nodes, index) == Ok(r.value.geometry.coordinates)
                      && r.value.properties == SpreadProperties(way.nodes, way.tags)
    ensures r.Err? ==> r.error in way.nodes && r.error !in index
  {
    match ResolveCoordinates(way.nodes, index)
    case Err(id) => Err(id)
    case Ok(coordinates) => Ok(Feature(way.id, LineString(coordinates), SpreadProperties(way.nodes, way.tags)))
  }

  /** `ways.map(...)` with the conversion above (`MapWays`). */
  function ToFeatures(ways: seq<Way>, index: map<int, Node>): Result<seq<Feature<Properties>>, int> {
    MapWays(ways, way => ToFeature(way, index))
  }

  /** The mapping succeeds exactly when every way's node ids resolve, and
      then holds each way's feature at the way's position. */
  lemma ToFeaturesPointwise(ways: seq<Way>, index: map<int, Node>)
    ensures ToFeatures(ways, index).Ok? <==> forall i :: 0 <= i < |ways| ==> AllResolved(ways[i].nodes, index)
    ensures ToFeatures(ways, index).Ok? ==>
              && |ToFeatures(ways, index).value| == |ways|
              && forall i :: 0 <= i < |ways| ==> ToFeature(ways[i], index) == Ok(ToFeatures(ways, index).value[i])
  {
    MapWaysPointwise(ways, way => ToFeature(way, index));
  }

  /** A failed mapping names an id that one of the ways references and the
      dictionary lacks, every earlier way having resolved. */
  lemma ToFeaturesError(ways: seq<Way>, index: map<int, Node>)
    requires ToFeatures(ways, index).Err?
    ensures exists i :: 0 <= i < |ways| && ToFeatures(ways, index).error in ways[i].nodes
                        && ToFeatures(ways, index).error !in index
                        && forall j :: 0 <= j < i ==> AllResolved(ways[j].nodes, index)
  {
    MapWaysFirstError(ways, way => ToFeature(way, index));
  }

  function Normalize(elements: seq<Element>): (r: Result<FeatureCollection<Properties>, int>)
    ensures r.Ok? ==> |r.value.features| == |Ways(elements)|
    ensures r.Err? ==> exists way :: way in Ways(elements) && r.error in way.nodes && r.error !in NodeIndex(elements)
  {
    match ToFeatures(Ways(elements), NodeIndex(elements))
    case Ok(features) => Ok(FeatureCollection(features))
    case Err(id) =>
      ToFeaturesError(Ways(elements), NodeIndex(elements));
      Err(id)
  }

  /** The collection a run writes for one response, or `None` when the run
      failed: a failed status (even 429 or 5xx, which are not retried), a
      network failure, a malformed body or an unknown node id. */
  function Written(response: FetchData.Response): Option<FeatureCollection<Properties>> {
    if response.NetworkFailure? || !FetchData.IsOk(response.status) || response.body.None? then None
    else
      match Normalize(response.body.value)
      case Ok(collection) => Some(collection)
      case Err(_) => None
  }

  /** `fetchData()` of build.js: one request, the dictionary built in place,
      the features mapped, then the write; `previous` and `artifact` are the
      file before and after. Errors are swallowed: the file is left as it was. */
  method Run(response: FetchData.Response, previous: Option<FeatureCollection<Properties>>)
    returns (artifact: Option<FeatureCollection<Properties>>)
    ensures artifact == if Written(response).Some? then Written(response) else previous
  {
    if response.NetworkFailure? || !FetchData.IsOk(response.status) || response.body.None? {
      return previous;
    }
    var elements := response.body.value;
    var index := CollectNodes(elements);
    var features := ToFeatures(Ways(elements), index);
    if features.Err? {
      return previous;
    }
    artifact := Some(FeatureCollection(features.value));
  }

  /** On a 429 or 5xx response fetchData.js sleeps and retries, while build.js
      gives up at once and leaves the file as it was. */
  lemma RetryableFailureNotRetried(upstream: nat -> FetchData.Response)
    requires FetchData.RetryableFailure(upstream(0))
    ensures Written(upstream(0)) == None
    ensures FetchData.FetchFrom(upstream, 0).delays != []
  {
  }

  /** The fetchData.js properties of a way carry the same information as the
      build.js ones, narrowed to `id`, `name` and a numeric `step_count`. */
  predicate PropertiesCorrespond(p: FetchData.StairProperties, q: Properties) {
    && p.id == (if "id" in q && q["id"].Number? then Some(q["id"].value) else None)
    && p.name == (if "name" in q && q["name"].Text? then Some(q["name"].text) else None)
    && (p.stepCount.Some? <==> "step_count" in q && q["step_count"].Text? && q["step_count"].text != "")
    && (p.stepCount.Some? ==> p.stepCount.value == ToNumber(q["step_count"].text))
  }

  /** For a way with tags the two normalisers succeed together and agree on
      the feature id and geometry; only the property rule differs. */
  lemma FeatureCorrespondence(way: Way, index: map<int, Node>)
    requires way.tags.Some?
    ensures FetchData.ToFeature(way, index).Ok? <==> ToFeature(way, index).Ok?
    ensures ToFeature(way, index).Ok? ==>
              var f := FetchData.ToFeature(way, index).value;
              var g := ToFeature(way, index).value;
              && f.id == g.id
              && f.geometry == g.geometry
              && PropertiesCorrespond(f.properties, g.properties)
  {
    if ToFeature(way, index).Ok? {
      var f := FetchData.ToFeature(way, index).value;
      var g := ToFeature(way, index).value;
      assert FetchData.IsFeatureOf(f, way, index);
      var c := g.geometry.coordinates;
      assert |c| == |f.geometry.coordinates|;
      assert forall k :: 0 <= k < |c| ==> c[k] == f.geometry.coordinates[k];
      assert f.geometry.coordinates == c;
    }
  }

  /** The newer normaliser succeeds only where the older one does; when every
      way has tags they succeed on the same responses and yield features in
      the same order with the same ids and geometries, differing only in
      properties as `PropertiesCorrespond` says. */
  lemma NormalizersAgree(elements: seq<Element>)
    ensures FetchData.Normalize(elements).Ok? ==> Normalize(elements).Ok?
    ensures (forall w :: w in Ways(elements) ==> w.tags.Some?) ==>
              (FetchData.Normalize(elements).Ok? <==> Normalize(elements).Ok?)
    ensures FetchData.Normalize(elements).Ok? ==>
              var fs := FetchData.Normalize(elements).value.features;
              var gs := Normalize(elements).value.features;
              && |fs| == |gs|
              && forall i :: 0 <= i < |fs| ==>
                   && fs[i].id == gs[i].id
                   && fs[i].geometry == gs[i].geometry
                   && PropertiesCorrespond(fs[i].properties, gs[i].properties)
  {
    var ways := Ways(elements);
    var index := NodeIndex(elements);
    ToFeaturesPointwise(ways, index);
    FetchData.ToFeaturesPointwise(ways, index);
    forall i | 0 <= i < |ways| && ways[i].tags.Some?
      ensures FetchData.ToFeature(ways[i], index).Ok? <==> ToFeature(ways[i], index).Ok?
    {
      FeatureCorrespondence(ways[i], index);
    }
    if FetchData.Normalize(elements).Ok? {
      var fs := FetchData.Normalize(elements).value.features;
      var gs := Normalize(elements).value.features;
      forall i | 0 <= i < |fs|
        ensures fs[i].id == gs[i].id && fs[i].geometry == gs[i].geometry
        ensures PropertiesCorrespond(fs[i].properties, gs[i].properties)
      {
        FeatureCorrespondence(ways[i], index);
      }
    }
    if forall w :: w in ways ==> w.tags.Some? {
      forall i | 0 <= i < |ways|
        ensures ways[i].tags.Some?
      {
        assert ways[i] in ways;
      }
    }
  }
}
