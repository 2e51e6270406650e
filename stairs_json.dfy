/**
 * `public/stairs.geojson` as the map front ends read it back: a feature's id,
 * coordinates, name and `step_count`, where `step_count` is whatever JSON
 * value the writer left (absent, `null`, a number or, from build.js, text),
 * and the JavaScript conversions the front ends apply to it.
 */
module StairsJson {
  import opened Wrappers
  import opened JsText
  import opened Overpass
  import FetchData
  import Build

  /** `feature.properties.step_count` after `response.json()`. */
  datatype StepValue = Undefined | Null | Number(value: int) | Text(text: string)

  /** A feature as a front end reads it. */
  datatype MapFeature = MapFeature(id: int, coordinates: seq<Position>, name: Option<string>, stepCount: StepValue)

  /** The number JavaScript compares when `v > bound` is evaluated. */
  function NumericValue(v: StepValue): JsNumber {
    match v
    case Undefined => NaN
    case Null => Finite(0)
    case Number(n) => Finite(n)
    case Text(s) => ToNumber(s)
  }

  /** JavaScript `v > bound` (false whenever `v` converts to NaN). */
  predicate Exceeds(v: StepValue, bound: int) {
    NumericValue(v).Finite? && NumericValue(v).value > bound
  }

  /** `String(v)`, which is also `${v}` and the key of `v` in an object. */
  function Display(v: StepValue): string {
    match v
    case Undefined => "undefined"
    case Null => "null"
    case Number(n) => IntToString(n)
    case Text(s) => s
  }

  /** A count printed and read back by `Number` compares as the count itself. */
  lemma DisplayReadsBack(v: StepValue)
    requires v.Number? && v.value >= 0
    ensures NumericValue(Text(Display(v))) == NumericValue(v)
  {
    ToNumberOfNatToString(v.value);
  }

  /** A comparison with a larger bound implies the one with a smaller bound. */
  lemma ExceedsMonotone(v: StepValue, low: int, high: int)
    requires low <= high && Exceeds(v, high)
    ensures Exceeds(v, low)
  {
  }

  /** A fetchData.js feature after `JSON.stringify` and `JSON.parse`: an
      undefined `step_count` key is omitted, NaN is written as `null`. */
  function FromStairFeature(f: Feature<FetchData.StairProperties>): (m: MapFeature)
    ensures m.id == f.id && m.coordinates == f.geometry.coordinates && m.name == f.properties.name
    ensures m.stepCount.Undefined? <==> f.properties.stepCount.None?
    ensures m.stepCount.Null? <==> f.properties.stepCount == Some(NaN)
    ensures !m.stepCount.Text?
    ensures f.properties.stepCount.Some? && f.properties.stepCount.value.Finite? ==>
              m.stepCount == Number(f.properties.stepCount.value.value)
  {
    var stepCount :=
      match f.properties.stepCount
      case None => Undefined
      case Some(NaN) => Null
      case Some(Finite(n)) => Number(n);
    MapFeature(f.id, f.geometry.coordinates, f.properties.name, stepCount)
  }

  /** A build.js feature read back: every tag is text, so `step_count` is text. */
  function FromBuildFeature(f: Feature<Build.Properties>): (m: MapFeature)
    ensures m.id == f.id && m.coordinates == f.geometry.coordinates
    ensures m.stepCount.Undefined? <==> "step_count" !in f.properties
    ensures "step_count" in f.properties && f.properties["step_count"].Text? ==>
              m.stepCount == Text(f.properties["step_count"].text)
  {
    var p := f.properties;
    var name := if "name" in p && p["name"].Text? then Some(p["name"].text) else None;
    var stepCount :=
      if "step_count" !in p then Undefined
      else match p["step_count"]
        case Text(s) => Text(s)
        case Number(n) => Number(n);
    MapFeature(f.id, f.geometry.coordinates, name, stepCount)
  }

  /** Read back from fetchData.js output, a way's `step_count` is absent
      exactly when its tag is absent or empty, and a non-empty tag of decimal
      digits amid white space (leading zeros allowed) arrives as its number. */
  lemma StepCountOfNormalizedWay(way: Way, index: map<int, Node>, digits: nat)
    requires FetchData.ToFeature(way, index).Ok?
    ensures var m := FromStairFeature(FetchData.ToFeature(way, index).value);
            var tags := way.tags.value;
            && (m.stepCount.Undefined? <==> "step_count" !in tags || tags["step_count"] == "")
            && ("step_count" in tags && tags["step_count"] == NatToString(digits) ==> m.stepCount == Number(digits))
            && ("step_count" in tags && tags["step_count"] != "" && IsDigits(Trim(tags["step_count"])) ==>
                  m.stepCount == Number(DigitsValue(Trim(tags["step_count"]))))
  {
    var f := FetchData.ToFeature(way, index).value;
    assert FetchData.IsFeatureOf(f, way, index);
    ToNumberOfNatToString(digits);
    if "step_count" in way.tags.value {
      ToNumberValue(way.tags.value["step_count"]);
    }
  }
}
