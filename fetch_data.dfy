/**
 * fetchData.js: query the Overpass API with retry and backoff, turn the
 * response into a GeoJSON FeatureCollection with a fixed property schema,
 * and write it only once everything before has succeeded.
 */
module FetchData {
  import opened Wrappers
  import opened JsText
  import opened Overpass

  /** `MAX_RETRIES`. */
  const MaxRetries: nat := 3

  /** What one POST to the Overpass endpoint gives: an HTTP status with the
      parsed `elements` of the body (`None` when the body is not the expected
      JSON), or a network failure that makes `fetch` reject. */
  datatype Response = Http(status: int, body: Option<seq<Element>>) | NetworkFailure

  /** What a run can throw. */
  datatype FetchError =
    | HttpError(status: int)   // "HTTP error! Status: ..."
    | NetworkError             // `fetch` rejected
    | MalformedBody            // `response.json()` or `data.elements` failed
    | UnknownNode(nodeId: int) // `nodes[nodeId].lon` of an id missing from the dictionary
    | MissingTags(wayId: int)  // `element.tags.name` on a way without tags

  /** `response.ok`. */
  predicate IsOk(status: int) {
    200 <= status <= 299
  }

  /** A failed status is worth retrying: rate limited (429) or a server error (500 and above). */
  predicate IsRetryable(status: int) {
    status == 429 || status >= 500
  }

  /** A response the retry policy answers with another attempt when the budget allows. */
  predicate RetryableFailure(response: Response) {
    response.Http? && !IsOk(response.status) && IsRetryable(response.status)
  }

  function Pow2(n: nat): nat {
    if n == 0 then 1 else 2 * Pow2(n - 1)
  }

  /** Seconds slept before retry number `retry` (counting from 1): `2 + 2^retry`. */
  function Backoff(retry: nat): nat {
    2 + Pow2(retry)
  }

  /** What the attempts of one run produced: the elements or the error, and the
      delays slept between attempts, in order. */
  datatype Trace = Trace(result: Result<seq<Element>, FetchError>, delays: seq<nat>)

  /** The result of an attempt that is not followed by another one. */
  function Settle(response: Response): (r: Result<seq<Element>, FetchError>)
    ensures r.Ok? <==> response.Http? && IsOk(response.status) && response.body.Some?
    ensures r.Ok? ==> r.value == response.body.value
    ensures response.Http? && !IsOk(response.status) ==> r == Err(HttpError(response.status))
  {
    match response
    case NetworkFailure => Err(NetworkError)
    case Http(status, body) =>
      if !IsOk(status) then Err(HttpError(status))
      else if body.None? then Err(MalformedBody)
      else Ok(body.value)
  }

  /** `fetchData(retryNumber)` as the source writes it, by recursion on the
      retry counter; `upstream(i)` is the response to attempt `i`. */
  function FetchFrom(upstream: nat -> Response, retryNumber: nat): (t: Trace)
    ensures retryNumber + |t.delays| <= if retryNumber < MaxRetries then MaxRetries else retryNumber
    ensures t.delays == [] ==> t.result == Settle(upstream(retryNumber))
    decreases MaxRetries - retryNumber
  {
    var response := upstream(retryNumber);
    if RetryableFailure(response) && retryNumber < MaxRetries then
      var retry := retryNumber + 1;
      var rest := FetchFrom(upstream, retry);
      Trace(rest.result, [Backoff(retry)] + rest.delays)
    else
      Trace(Settle(response), [])
  }

  /** The attempts as a loop with a counter; each sleep is recorded as a delay. */
  method FetchWithRetry(upstream: nat -> Response) returns (result: Result<seq<Element>, FetchError>, delays: seq<nat>)
    ensures Trace(result, delays) == FetchFrom(upstream, 0)
  {
    var retryNumber: nat := 0;
    delays := [];
    var response := upstream(retryNumber);
    while RetryableFailure(response) && retryNumber < MaxRetries
      invariant retryNumber <= MaxRetries && response == upstream(retryNumber)
      invariant FetchFrom(upstream, 0) == Trace(FetchFrom(upstream, retryNumber).result, delays + FetchFrom(upstream, retryNumber).delays)
      decreases MaxRetries - retryNumber
    {
      RetryTaken(upstream, retryNumber, delays);
      var retry := retryNumber + 1;
      delays := delays + [Backoff(retry)];  // the sleep before the retry
      retryNumber := retry;
      response := upstream(retryNumber);
    }
    // success, a network failure, a status that is not retried, or no retry left
    RetryNotTaken(upstream, retryNumber, delays);
    result := Settle(response);
  }

  /** A retry moves its sleep from the remaining attempts to the delays slept so far. */
  lemma RetryTaken(upstream: nat -> Response, r: nat, delays: seq<nat>)
    requires r < MaxRetries && RetryableFailure(upstream(r))
    requires FetchFrom(upstream, 0) == Trace(FetchFrom(upstream, r).result, delays + FetchFrom(upstream, r).delays)
    ensures FetchFrom(upstream, 0) == Trace(FetchFrom(upstream, r + 1).result, (delays + [Backoff(r + 1)]) + FetchFrom(upstream, r + 1).delays)
  {
    var rest := FetchFrom(upstream, r + 1);
    assert FetchFrom(upstream, r) == Trace(rest.result, [Backoff(r + 1)] + rest.delays);
    assert delays + ([Backoff(r + 1)] + rest.delays) == (delays + [Backoff(r + 1)]) + rest.delays;
  }

  /** Without a retry the run ends with the attempt's own result. */
  lemma RetryNotTaken(upstream: nat -> Response, r: nat, delays: seq<nat>)
    requires !(RetryableFailure(upstream(r)) && r < MaxRetries)
    requires FetchFrom(upstream, 0) == Trace(FetchFrom(upstream, r).result, delays + FetchFrom(upstream, r).delays)
    ensures FetchFrom(upstream, 0) == Trace(Settle(upstream(r)), delays)
  {
    assert FetchFrom(upstream, r) == Trace(Settle(upstream(r)), []);
    assert delays + [] == delays;
  }

  /** From retry counter `r` on: every delay is the backoff of its retry and
      follows a retryable failure, at most `MaxRetries` attempts are retried,
      and the result is that of the last attempt, which was not retried
      because it was not a retryable failure or the budget was spent. */
  lemma RetrySchedule(upstream: nat -> Response, r: nat)
    requires r <= MaxRetries
    ensures var t := FetchFrom(upstream, r);
            && r + |t.delays| <= MaxRetries
            && (forall i :: 0 <= i < |t.delays| ==>
                  t.delays[i] == Backoff(r + i + 1) && RetryableFailure(upstream(r + i)))
            && (r + |t.delays| < MaxRetries ==> !RetryableFailure(upstream(r + |t.delays|)))
            && t.result == Settle(upstream(r + |t.delays|))
  {
    RetryDelays(upstream, r);
    RetryStops(upstream, r);
  }

  /** Each delay from retry counter `r` on is the next backoff, after a 429/5xx response. */
  lemma {:induction false} RetryDelays(upstream: nat -> Response, r: nat)
    ensures forall i {:trigger FetchFrom(upstream, r).delays[i]} :: 0 <= i < |FetchFrom(upstream, r).delays| ==>
              FetchFrom(upstream, r).delays[i] == Backoff(r + i + 1) && RetryableFailure(upstream(r + i))
    decreases MaxRetries - r
  {
    if RetryableFailure(upstream(r)) && r < MaxRetries {
      var rest := FetchFrom(upstream, r + 1).delays;
      RetryDelays(upstream, r + 1);
      assert FetchFrom(upstream, r).delays == [Backoff(r + 1)] + rest;
      DelaysStep(upstream, r, FetchFrom(upstream, r).delays, rest);
    } else {
      assert FetchFrom(upstream, r).delays == [];
    }
  }

  /** A retry's backoff followed by the later ones are the backoffs from `r` on. */
  lemma DelaysStep(upstream: nat -> Response, r: nat, delays: seq<nat>, rest: seq<nat>)
    requires delays == [Backoff(r + 1)] + rest && RetryableFailure(upstream(r))
    requires forall i {:trigger rest[i]} :: 0 <= i < |rest| ==> rest[i] == Backoff(r + 1 + i + 1) && RetryableFailure(upstream(r + 1 + i))
    ensures forall i {:trigger delays[i]} :: 0 <= i < |delays| ==> delays[i] == Backoff(r + i + 1) && RetryableFailure(upstream(r + i))
  {
    forall i | 0 <= i < |delays|
      ensures delays[i] == Backoff(r + i + 1) && RetryableFailure(upstream(r + i))
    {
      if i == 0 {
        assert delays[0] == Backoff(r + 1) && r + 0 == r;
      } else {
        var j := i - 1;
        assert rest[j] == Backoff(r + 1 + j + 1) && RetryableFailure(upstream(r + 1 + j));
        assert r + 1 + j == r + i && delays[i] == rest[j];
      }
    }
  }

  /** The run stops retrying at a response that is not 429/5xx, or when the budget is spent. */
  lemma {:induction false} RetryStops(upstream: nat -> Response, r: nat)
    ensures var t := FetchFrom(upstream, r);
            r + |t.delays| < MaxRetries ==> !RetryableFailure(upstream(r + |t.delays|))
    decreases MaxRetries - r
  {
    if RetryableFailure(upstream(r)) && r < MaxRetries {
      RetryStops(upstream, r + 1);
      assert |FetchFrom(upstream, r).delays| == 1 + |FetchFrom(upstream, r + 1).delays|;
    }
  }

  /** A run retries at all exactly when its first response is 429 or at least 500. */
  lemma RetriesIffRetryable(upstream: nat -> Response)
    ensures FetchFrom(upstream, 0).delays != [] <==> RetryableFailure(upstream(0))
  {
  }

  /** An upstream that always answers 429 or 5xx is tried four times: three
      retries after 4, 6 and 10 seconds, then the last status is thrown. */
  lemma {:induction false} AlwaysUnavailable(upstream: nat -> Response)
    requires forall i :: RetryableFailure(upstream(i))
    ensures FetchFrom(upstream, 0) == Trace(Err(HttpError(upstream(3).status)), [4, 6, 10])
  {
    assert RetryableFailure(upstream(0)) && RetryableFailure(upstream(1));
    assert RetryableFailure(upstream(2)) && RetryableFailure(upstream(3));
    assert FetchFrom(upstream, 3) == Trace(Err(HttpError(upstream(3).status)), []);
    assert FetchFrom(upstream, 2).delays == [10];
    assert FetchFrom(upstream, 1).delays == [6, 10];
  }

  /** A failed status other than 429 and 5xx (say 400) is thrown at once, with no retry. */
  lemma NotRetryableFailsAtOnce(upstream: nat -> Response)
    requires upstream(0).Http? && !IsOk(upstream(0).status) && !IsRetryable(upstream(0).status)
    ensures FetchFrom(upstream, 0) == Trace(Err(HttpError(upstream(0).status)), [])
  {
  }

  function Sum(s: seq<nat>): nat {
    if s == [] then 0 else s[0] + Sum(s[1..])
  }

  /** The backoff of all retries of a run adds up to at most 20 seconds. */
  lemma TotalBackoffAtMost20(upstream: nat -> Response)
    ensures Sum(FetchFrom(upstream, 0).delays) <= 20
  {
    ScheduleIsPrefix(upstream);
    SumOfSchedulePrefix(FetchFrom(upstream, 0).delays);
  }

  /** The sleeps of a run are the first ones of 4, 6 and 10 seconds. */
  lemma ScheduleIsPrefix(upstream: nat -> Response)
    ensures var d := FetchFrom(upstream, 0).delays; |d| <= 3 && d == [4, 6, 10][..|d|]
  {
    RetrySchedule(upstream, 0);
    BackoffsFromFirst(FetchFrom(upstream, 0).delays);
  }

  /** At most three consecutive backoffs from the first retry are the first ones of 4, 6 and 10. */
  lemma BackoffsFromFirst(d: seq<nat>)
    requires |d| <= 3 && forall i :: 0 <= i < |d| ==> d[i] == Backoff(i + 1)
    ensures d == [4, 6, 10][..|d|]
  {
    assert Pow2(1) == 2 && Pow2(2) == 4 && Pow2(3) == 8;
    var full: seq<nat> := [4, 6, 10];
    forall i | 0 <= i < |d|
      ensures d[i] == full[i]
    {
      assert d[i] == Backoff(i + 1);
    }
  }

  /** Any first part of 4, 6 and 10 adds up to at most 20. */
  lemma SumOfSchedulePrefix(d: seq<nat>)
    requires |d| <= 3 && d == [4, 6, 10][..|d|]
    ensures Sum(d) <= 20
  {
    if |d| == 1 {
      assert d[1..] == [];
      assert Sum(d) == 4;
    } else if |d| == 2 {
      assert d[1..][1..] == [];
      assert Sum(d[1..]) == 6;
      assert Sum(d) == 10;
    } else if |d| == 3 {
      assert d[1..][1..][1..] == [];
      assert Sum(d[1..][1..]) == 10;
      assert Sum(d[1..]) == 16;
      assert Sum(d) == 20;
    }
  }

  /** The fixed property schema: `{id, name, step_count}`, an absent value standing for `undefined`. */
  datatype StairProperties = StairProperties(id: Option<int>, name: Option<string>, stepCount: Option<JsNumber>)

  /** `f` is the Feature the source builds from `way`: the way's id, the
      `[lon, lat]` of each referenced node in order, `properties.id` the first
      node id, `name` copied from the tags, and `step_count` the number of a
      non-empty tag, absent otherwise. */
  predicate IsFeatureOf(f: Feature<StairProperties>, way: Way, index: map<int, Node>)
    requires way.tags.Some?
  {
    var tags := way.tags.value;
    && f.id == way.id
    && |f.geometry.coordinates| == |way.nodes|
    && (forall k :: 0 <= k < |way.nodes| ==>
          way.nodes[k] in index && f.geometry.coordinates[k] == LonLat(index[way.nodes[k]]))
    && f.properties.id == (if way.nodes == [] then None else Some(way.nodes[0]))
    && f.properties.name == (if "name" in tags then Some(tags["name"]) else None)
    && (f.properties.stepCount.Some? <==> "step_count" in tags && tags["step_count"] != "")
    && (f.properties.stepCount.Some? ==> f.properties.stepCount.value == ToNumber(tags["step_count"]))
  }

  /** One way as a Feature. Fails on the first node id that is not in the
      dictionary, and on a way without tags. */
  function ToFeature(way: Way, index: map<int, Node>): (r: Result<Feature<StairProperties>, FetchError>)
    ensures r.Ok? <==> AllResolved(way.nodes, index) && way.tags.Some?
    ensures r.Ok? ==> way.tags.Some? && IsFeatureOf(r.value, way, index)
    ensures r.Err? ==>
              || (r.error.UnknownNode? && r.error.nodeId in way.nodes && r.error.nodeId !in index)
              || (r.error == MissingTags(way.id) && AllResolved(way.nodes, index))
  {
    match ResolveCoordinates(way.nodes, index)
    case Err(id) => Err(UnknownNode(id))
    case Ok(coordinates) =>
      if way.tags.None? then Err(MissingTags(way.id))
      else
        var tags := way.tags.value;
        var properties := StairProperties(
          if way.nodes == [] then None else Some(way.nodes[0]),
          if "name" in tags then Some(tags["name"]) else None,
          if "step_count" in tags && tags["step_count"] != "" then Some(ToNumber(tags["step_count"])) else None);
        Ok(Feature(way.id, LineString(coordinates), properties))
  }

  /** `ways.map(...)` with the conversion above (`MapWays`). */
  function ToFeatures(ways: seq<Way>, index: map<int, Node>): Result<seq<Feature<StairProperties>>, FetchError> {
    MapWays(ways, way => ToFeature(way, index))
  }

  /** `MapWaysPointwise` for this conversion. */
  lemma ToFeaturesPointwise(ways: seq<Way>, index: map<int, Node>)
    ensures ToFeatures(ways, index).Ok? <==> forall i :: 0 <= i < |ways| ==> ToFeature(ways[i], index).Ok?
    ensures ToFeatures(ways, index).Ok? ==>
              && |ToFeatures(ways, index).value| == |ways|
              && forall i :: 0 <= i < |ways| ==> ToFeature(ways[i], index) == Ok(ToFeatures(ways, index).value[i])
  {
    MapWaysPointwise(ways, way => ToFeature(way, index));
  }

  /** The whole normaliser: dictionary of the node elements, then the ways mapped to features. */
  function Normalize(elements: seq<Element>): (r: Result<FeatureCollection<StairProperties>, FetchError>)
    ensures r.Ok? ==> |r.value.features| == |Ways(elements)|
    ensures r.Err? ==> exists way :: way in Ways(elements) && ToFeature(way, NodeIndex(elements)) == Err(r.error)
  {
    match ToFeatures(Ways(elements), NodeIndex(elements))
    case Ok(features) => Ok(FeatureCollection(features))
    case Err(e) =>
      MapWaysFirstError(Ways(elements), way => ToFeature(way, NodeIndex(elements)));
      Err(e)
  }

  /** Exactly one feature per way element, in response order, with the way's
      id, and `coordinates[k]` the `[lon, lat]` of a node element of the
      response whose id is `nodes[k]` (the last one with that id). */
  lemma NormalizeShape(elements: seq<Element>)
    requires Normalize(elements).Ok?
    ensures var features := Normalize(elements).value.features;
            var ways := Ways(elements);
            && |features| == |ways|
            && forall i :: 0 <= i < |ways| ==>
                 && features[i].id == ways[i].id
                 && WayElement(ways[i]) in elements
                 && |features[i].geometry.coordinates| == |ways[i].nodes|
                 && forall k :: 0 <= k < |ways[i].nodes| ==>
                      && ways[i].nodes[k] in NodeIndex(elements)
                      && var node := NodeIndex(elements)[ways[i].nodes[k]];
                         && NodeElement(node) in elements && node.id == ways[i].nodes[k]
                         && features[i].geometry.coordinates[k] == Position(node.lon, node.lat)
  {
    NodeIndexKeys(elements);
    WaysMembers(elements);
    var index := NodeIndex(elements);
    var features := Normalize(elements).value.features;
    var ways := Ways(elements);
    ToFeaturesPointwise(ways, index);
    forall i | 0 <= i < |ways|
      ensures WayElement(ways[i]) in elements
      ensures IsFeatureOf(features[i], ways[i], index)
    {
      assert ways[i] in ways;
      assert ToFeature(ways[i], index) == Ok(features[i]);
    }
  }

  /** A response without ways gives the empty collection. */
  lemma NormalizeWithoutWays(elements: seq<Element>)
    requires forall e :: e in elements ==> !e.WayElement?
    ensures Normalize(elements) == Ok(FeatureCollection([]))
  {
    WaysMembers(elements);
    assert ToFeatures([], NodeIndex(elements)) == Ok([]);
  }

  /** A way that references an id no node element has makes the whole run fail. */
  lemma UnknownNodeAborts(elements: seq<Element>, way: Way, k: nat)
    requires WayElement(way) in elements && k < |way.nodes|
    requires forall e :: e in elements && e.NodeElement? ==> e.node.id != way.nodes[k]
    ensures Normalize(elements).Err?
  {
    NodeIndexKeys(elements);
    WaysMembers(elements);
    var ways := Ways(elements);
    var i :| 0 <= i < |ways| && ways[i] == way;
    ToFeaturesPointwise(ways, NodeIndex(elements));
    assert !ToFeature(ways[i], NodeIndex(elements)).Ok?;
  }

  /** `Number("42")` is 42. */
  lemma NumberOf42()
    ensures ToNumber("42") == Finite(42)
  {
    assert NatToString(4) == "4";
    assert NatToString(42) == "42";
    ToNumberOfNatToString(42);
  }

  /** The elements of the two scenarios below: two nodes and one way with the given tags. */
  function ScenarioElements(tags: map<string, string>): seq<Element> {
    [NodeElement(Node(1, 60.0, 10.0)), NodeElement(Node(2, 60.1, 10.1)), WayElement(Way(100, [1, 2], Some(tags)))]
  }

  /** With any tags, the scenario's one way becomes the one feature with
      `[lon, lat]` positions, `properties.id` the first node id 1, the name
      tag if any and the number of a non-empty `step_count` tag. */
  lemma ScenarioFeature(tags: map<string, string>)
    ensures Normalize(ScenarioElements(tags))
            == Ok(FeatureCollection([
                 Feature(100, LineString([Position(10.0, 60.0), Position(10.1, 60.1)]),
                         StairProperties(
                           Some(1),
                           if "name" in tags then Some(tags["name"]) else None,
                           if "step_count" in tags && tags["step_count"] != "" then Some(ToNumber(tags["step_count"])) else None))]))
  {
    var elements := ScenarioElements(tags);
    var way := Way(100, [1, 2], Some(tags));
    assert elements[..2][..1] == elements[..1] && elements[..1][..0] == [];
    assert NodeIndex(elements[..1]) == map[1 := Node(1, 60.0, 10.0)];
    var index := map[1 := Node(1, 60.0, 10.0), 2 := Node(2, 60.1, 10.1)];
    assert NodeIndex(elements) == NodeIndex(elements[..2]) == index;
    assert elements[1..][1..][1..] == [];
    assert Ways(elements) == [way];
    assert way.nodes[0] == 1 && way.nodes[1] == 2;
    assert AllResolved(way.nodes, index);
    ToFeaturesPointwise([way], index);
    var features := Normalize(elements).value.features;
    var f := features[0];
    assert ToFeature(way, index) == Ok(f);
    assert IsFeatureOf(f, way, index);
    var coordinates := f.geometry.coordinates;
    assert coordinates[0] == Position(10.0, 60.0) && coordinates[1] == Position(10.1, 60.1);
    assert coordinates == [Position(10.0, 60.0), Position(10.1, 60.1)];
    assert features == [f];
  }

  /** Two nodes and one way with a name and `step_count` "42" give one feature
      with `[lon, lat]` positions, `properties.id` the first node id and
      `step_count` 42. */
  lemma ScenarioNamedWay()
    ensures Normalize(ScenarioElements(map["name" := "Test Stairs", "step_count" := "42"]))
            == Ok(FeatureCollection([
                 Feature(100, LineString([Position(10.0, 60.0), Position(10.1, 60.1)]),
                         StairProperties(Some(1), Some("Test Stairs"), Some(Finite(42))))]))
  {
    var tags := map["name" := "Test Stairs", "step_count" := "42"];
    ScenarioFeature(tags);
    NumberOf42();
    assert "name" in tags && tags["name"] == "Test Stairs";
    assert "step_count" in tags && tags["step_count"] == "42";
  }

  /** The same way without a `step_count` tag has no `step_count` property at all. */
  lemma ScenarioWithoutStepCount()
    ensures Normalize(ScenarioElements(map["name" := "Test Stairs"]))
            == Ok(FeatureCollection([
                 Feature(100, LineString([Position(10.0, 60.0), Position(10.1, 60.1)]),
                         StairProperties(Some(1), Some("Test Stairs"), None))]))
  {
    var tags := map["name" := "Test Stairs"];
    ScenarioFeature(tags);
    assert "name" in tags && tags["name"] == "Test Stairs" && "step_count" !in tags;
  }

  /** A whole run: the collection to write (or the error thrown) and the delays slept. */
  function Pipeline(upstream: nat -> Response): (Result<FeatureCollection<StairProperties>, FetchError>, seq<nat>) {
    var t := FetchFrom(upstream, 0);
    (if t.result.Err? then Err(t.result.error) else Normalize(t.result.value), t.delays)
  }

  /** `fetchData()`: fetch with retries, normalise, then write. `previous` is the
      content of `public/stairs.geojson` before the run and `artifact` after it:
      the file is replaced by the collection exactly when the run succeeds. */
  method Run(upstream: nat -> Response, previous: Option<FeatureCollection<StairProperties>>)
    returns (outcome: Result<FeatureCollection<StairProperties>, FetchError>, delays: seq<nat>,
             artifact: Option<FeatureCollection<StairProperties>>)
    ensures (outcome, delays) == Pipeline(upstream)
    ensures artifact == if outcome.Ok? then Some(outcome.value) else previous
  {
    var fetched;
    fetched, delays := FetchWithRetry(upstream);
    if fetched.Err? {
      return Err(fetched.error), delays, previous;
    }
    var elements := fetched.value;
    var index := CollectNodes(elements);
    var features := ToFeatures(Ways(elements), index);
    if features.Err? {
      return Err(features.error), delays, previous;
    }
    outcome := Ok(FeatureCollection(features.value));
    artifact := Some(outcome.value);
  }

  /** Against an upstream that is always unavailable the run throws after
      sleeping 4, 6 and 10 seconds, so nothing is written. */
  lemma UnavailableUpstreamWritesNothing(upstream: nat -> Response)
    requires forall i :: RetryableFailure(upstream(i))
    ensures Pipeline(upstream) == (Err(HttpError(upstream(3).status)), [4, 6, 10])
  {
    AlwaysUnavailable(upstream);
  }
}
