/**
 * The raw Overpass response (nodes and ways) and the GeoJSON shapes both
 * normalisers produce, with the two steps they share: the node-id dictionary
 * and the resolution of a way's node ids into `[lon, lat]` positions.
 */
module Overpass {
  import opened Wrappers

  /** A point of the response. Latitude and longitude are only ever copied. */
  datatype Node = Node(id: int, lat: real, lon: real)

  /** An ordered path of node ids. `tags` is `None` when the element has no `tags` object. */
  datatype Way = Way(id: int, nodes: seq<int>, tags: Option<map<string, string>>)

  /** An element of `data.elements`, told apart by its `type` field: a node, a
      way, or an element of any other type (`kind`, neither "node" nor "way",
      which the normalisers skip). */
  datatype Element =
    | NodeElement(node: Node)
    | WayElement(way: Way)
    | OtherElement(kind: string, id: int)

  /** A two-element JSON array `[e0, e1]` of coordinates. */
  datatype Position = Position(e0: real, e1: real)

  /** A GeoJSON LineString geometry (section 3.1.4 of RFC 7946). */
  datatype LineString = LineString(coordinates: seq<Position>)

  /** A GeoJSON Feature (section 3.2 of RFC 7946): `{id, type: "Feature", geometry, properties}`. */
  datatype Feature<P> = Feature(id: int, geometry: LineString, properties: P)

  /** A GeoJSON FeatureCollection (section 3.3 of RFC 7946): `{type: "FeatureCollection", features}`. */
  datatype FeatureCollection<P> = FeatureCollection(features: seq<Feature<P>>)

  /** The position of a node, longitude first (section 3.1.1 of RFC 7946). */
  function LonLat(n: Node): (p: Position)
    ensures p.e0 == n.lon && p.e1 == n.lat
  {
    Position(n.lon, n.lat)
  }

  /** The elements whose type is "way", in response order. */
  function Ways(elements: seq<Element>): (ways: seq<Way>)
    ensures |ways| <= |elements|
  {
    if elements == [] then []
    else
      var rest := Ways(elements[1..]);
      if elements[0].WayElement? then [elements[0].way] + rest else rest
  }

  /** `Ways` keeps exactly the way elements. */
  lemma {:induction false} WaysMembers(elements: seq<Element>)
    ensures forall w :: w in Ways(elements) <==> WayElement(w) in elements
    ensures (forall e :: e in elements ==> !e.WayElement?) ==> Ways(elements) == []
  {
    if elements != [] {
      WaysMembers(elements[1..]);
      assert elements == [elements[0]] + elements[1..];
    }
  }

  /** `Ways` keeps the response order: filtering a concatenation concatenates the filtered parts. */
  lemma {:induction false} WaysAppend(a: seq<Element>, b: seq<Element>)
    ensures Ways(a + b) == Ways(a) + Ways(b)
  {
    if a != [] {
      WaysAppend(a[1..], b);
      assert (a + b)[1..] == a[1..] + b;
    } else {
      assert a + b == b;
    }
  }

  /** The node dictionary `reduce` builds: each node element stored under its id,
      in response order, so that a later node with the same id replaces an earlier one. */
  function NodeIndex(elements: seq<Element>): (index: map<int, Node>)
    ensures forall id :: id in index ==> index[id].id == id
  {
    if elements == [] then map[]
    else
      var index := NodeIndex(elements[..|elements| - 1]);
      var last := elements[|elements| - 1];
      if last.NodeElement? then index[last.node.id := last.node] else index
  }

  /** Builds the node dictionary in place, one element at a time (the `reduce` over `acc`). */
  method CollectNodes(elements: seq<Element>) returns (index: map<int, Node>)
    ensures index == NodeIndex(elements)
  {
    index := map[];
    for i := 0 to |elements|
      invariant index == NodeIndex(elements[..i])
    {
      assert elements[..i + 1][..i] == elements[..i];
      var e := elements[i];
      if e.NodeElement? {
        index := index[e.node.id := e.node];
      }
    }
    assert elements[..|elements|] == elements;
  }

  /** The dictionary's keys are exactly the ids of the node elements; ways and
      other elements never enter it. */
  lemma {:induction false} NodeIndexKeys(elements: seq<Element>)
    ensures NodeIndex(elements).Keys == set e | e in elements && e.NodeElement? :: e.node.id
    ensures forall id :: id in NodeIndex(elements) ==>
              NodeIndex(elements)[id].id == id && NodeElement(NodeIndex(elements)[id]) in elements
  {
    if elements != [] {
      var init := elements[..|elements| - 1];
      NodeIndexKeys(init);
      assert elements == init + [elements[|elements| - 1]];
    }
  }

  /** The node stored under an id is the last node element with that id. */
  lemma {:induction false} NodeIndexLastWins(elements: seq<Element>, i: nat)
    requires i < |elements| && elements[i].NodeElement?
    requires forall j :: i < j < |elements| && elements[j].NodeElement? ==>
               elements[j].node.id != elements[i].node.id
    ensures elements[i].node.id in NodeIndex(elements)
    ensures NodeIndex(elements)[elements[i].node.id] == elements[i].node
  {
    var init := elements[..|elements| - 1];
    if i < |elements| - 1 {
      NodeIndexLastWins(init, i);
    }
  }

  /** All ids of `nodeIds` are keys of the dictionary. */
  predicate AllResolved(nodeIds: seq<int>, index: map<int, Node>) {
    forall k :: 0 <= k < |nodeIds| ==> nodeIds[k] in index
  }

  /** `nodeIds.map(id => [nodes[id].lon, nodes[id].lat])`: the positions of the
      referenced nodes in order, or the first id that is not in the dictionary
      (reading `.lon` of `undefined` throws). */
  function ResolveCoordinates(nodeIds: seq<int>, index: map<int, Node>): (r: Result<seq<Position>, int>)
    ensures r.Ok? <==> AllResolved(nodeIds, index)
    ensures r.Ok? ==> |r.value| == |nodeIds|
                      && forall k :: 0 <= k < |nodeIds| ==> r.value[k] == LonLat(index[nodeIds[k]])
    ensures r.Err? ==> exists k :: 0 <= k < |nodeIds| && nodeIds[k] == r.error && r.error !in index
                                   && AllResolved(nodeIds[..k], index)
  {
    if nodeIds == [] then Ok([])
    else if nodeIds[0] !in index then
      assert AllResolved(nodeIds[..0], index);
      Err(nodeIds[0])
    else
      match ResolveCoordinates(nodeIds[1..], index)
      case Ok(rest) =>
        assert forall k :: 1 <= k < |nodeIds| ==> nodeIds[k] == nodeIds[1..][k - 1];
        Ok([LonLat(index[nodeIds[0]])] + rest)
      case Err(id) =>
        assert forall k :: 0 <= k < |nodeIds| - 1 ==> nodeIds[1..][..k] == nodeIds[1..k + 1];
        assert forall k :: 1 <= k < |nodeIds| ==> nodeIds[..k] == [nodeIds[0]] + nodeIds[1..k];
        Err(id)
  }

  /** `ways.map(convert)` with a `convert` that may throw: one feature per way,
      in order, or what the first failing way throws. Both normalisers map
      their ways this way, each with its own `convert`. */
  function MapWays<P, E>(ways: seq<Way>, convert: Way -> Result<Feature<P>, E>): (r: Result<seq<Feature<P>>, E>)
    ensures r.Ok? ==> |r.value| == |ways|
  {
    if ways == [] then Ok([])
    else
      var head := convert(ways[0]);
      if head.Err? then Err(head.error)
      else
        var tail := MapWays(ways[1..], convert);
        if tail.Err? then Err(tail.error)
        else Ok([head.value] + tail.value)
  }

  /** The mapping succeeds exactly when every way converts, and then holds
      each way's feature at the way's position. */
  lemma {:induction false} MapWaysPointwise<P, E>(ways: seq<Way>, convert: Way -> Result<Feature<P>, E>)
    ensures MapWays(ways, convert).Ok? <==> forall i :: 0 <= i < |ways| ==> convert(ways[i]).Ok?
    ensures MapWays(ways, convert).Ok? ==>
              forall i :: 0 <= i < |ways| ==> convert(ways[i]) == Ok(MapWays(ways, convert).value[i])
  {
    if ways != [] {
      var rest := ways[1..];
      MapWaysPointwise(rest, convert);
      var head := convert(ways[0]);
      if head.Ok? && MapWays(rest, convert).Ok? {
        var features := MapWays(ways, convert).value;
        assert features == [head.value] + MapWays(rest, convert).value;
        forall i | 0 <= i < |ways|
          ensures convert(ways[i]) == Ok(features[i])
        {
          if i > 0 {
            assert ways[i] == rest[i - 1];
          }
        }
      } else if head.Ok? {
        var j :| 0 <= j < |rest| && !convert(rest[j]).Ok?;
        assert ways[j + 1] == rest[j];
      }
    }
  }

  /** A failed mapping fails with what a way throws all of whose predecessors
      converted: the first way that fails. */
  lemma {:induction false} MapWaysFirstError<P, E>(ways: seq<Way>, convert: Way -> Result<Feature<P>, E>)
    requires MapWays(ways, convert).Err?
    ensures exists i :: 0 <= i < |ways| && convert(ways[i]) == Err(MapWays(ways, convert).error)
                        && forall j :: 0 <= j < i ==> convert(ways[j]).Ok?
  {
    var error := MapWays(ways, convert).error;
    if convert(ways[0]).Err? {
      assert convert(ways[0]) == Err(error);
    } else {
      var rest := ways[1..];
      MapWaysFirstError(rest, convert);
      var i :| 0 <= i < |rest| && convert(rest[i]) == Err(MapWays(rest, convert).error)
               && forall j :: 0 <= j < i ==> convert(rest[j]).Ok?;
      forall j | 0 <= j < i + 1
        ensures convert(ways[j]).Ok?
      {
        if j > 0 {
          assert ways[j] == rest[j - 1];
        }
      }
      assert ways[i + 1] == rest[i];
    }
  }
}
