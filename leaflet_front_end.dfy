/**
 * public/index.js: the older Leaflet front end. Each feature becomes a
 * div-icon marker whose CSS class grades the step count, and the way's line
 * is drawn in a colour named by the same grade.
 */
module LeafletFrontEnd {
  import opened Wrappers
  import opened JsText
  import opened Overpass
  import opened StairsJson
  import FetchData
  import OlFrontEnd

  /** `getIconClass(stepCount)`: JavaScript `>` against 100, then 50. */
  function IconClass(stepCount: StepValue): (grade: string)
    ensures grade == "extreme" || grade == "many" || grade == "few"
    ensures stepCount.Undefined? || stepCount.Null? ==> grade == "few"
  {
    if Exceeds(stepCount, 100) then "extreme"
    else if Exceeds(stepCount, 50) then "many"
    else "few"
  }

  /** The grade follows the numeric value of the step count: above 100,
      above 50 up to 100, and everything else, including an absent count,
      `null` and text that is not a number. */
  lemma IconClassThresholds(stepCount: StepValue)
    ensures IconClass(stepCount) == "extreme" <==> Exceeds(stepCount, 100)
    ensures IconClass(stepCount) == "many" <==> Exceeds(stepCount, 50) && !Exceeds(stepCount, 100)
    ensures IconClass(stepCount) == "few" <==> !Exceeds(stepCount, 50)
    ensures stepCount.Number? ==> (IconClass(stepCount) == "extreme" <==> stepCount.value > 100)
    ensures IconClass(Undefined) == "few" && IconClass(Null) == "few"
  {
    if Exceeds(stepCount, 100) {
      ExceedsMonotone(stepCount, 50, 100);
    }
  }

  /** The marker title: the name when it is a non-empty string, else
      "Trapp med N trinn" with the count as JavaScript prints it. */
  function Title(f: MapFeature): (title: string)
    ensures |title| > 0
    ensures (f.name.None? || f.name.value == "") ==> "Trapp med " <= title
    ensures (f.name.None? || f.name.value == "") ==> title == "Trapp med " + Display(f.stepCount) + " trinn"
    ensures f.name.Some? && f.name.value != "" ==> title == f.name.value
  {
    if f.name.Some? && f.name.value != "" then f.name.value
    else "Trapp med " + Display(f.stepCount) + " trinn"
  }

  /** What a Leaflet marker keeps: its position as `[lat, lon]`, the icon's
      CSS classes, the text inside the icon and the popup title. */
  datatype Marker = Marker(latLng: Position, className: string, iconText: string, title: string)

  /** `createMarker(feature)`: the marker at the first position of the line,
      with the GeoJSON `[lon, lat]` order swapped to Leaflet's `[lat, lon]`;
      throws when the line has no first position. */
  function CreateMarker(f: MapFeature): (m: Option<Marker>)
    ensures m.Some? <==> f.coordinates != []
    ensures m.Some? ==> m.value.latLng.e0 == f.coordinates[0].e1 && m.value.latLng.e1 == f.coordinates[0].e0
    ensures m.Some? ==> m.value.className == "div-icon " + IconClass(f.stepCount)
                        && m.value.iconText == Display(f.stepCount) && m.value.title == Title(f)
  {
    if f.coordinates == [] then None
    else
      var first := f.coordinates[0];
      Some(Marker(Position(first.e1, first.e0), "div-icon " + IconClass(f.stepCount), Display(f.stepCount), Title(f)))
  }

  /** The `style` option of the GeoJSON layer: the line's colour. */
  datatype LineStyle = LineStyle(color: string)

  function LayerStyle(f: MapFeature): (style: LineStyle)
    ensures style.color == "extreme" || style.color == "many" || style.color == "few"
    ensures f.stepCount.Undefined? || f.stepCount.Null? ==> style.color == "few"
  {
    LineStyle(IconClass(f.stepCount))
  }

  /** A way's line is coloured with the grade its marker's class carries. */
  lemma LineMatchesMarker(f: MapFeature)
    requires f.coordinates != []
    ensures CreateMarker(f).value.className == "div-icon " + LayerStyle(f).color
  {
  }

  /** For a feature written by fetchData.js the marker sits at the first node
      of the way, latitude first. */
  lemma MarkerAtFirstNode(way: Way, index: map<int, Node>)
    requires FetchData.ToFeature(way, index).Ok? && way.nodes != []
    ensures var m := CreateMarker(FromStairFeature(FetchData.ToFeature(way, index).value));
            m.Some? && m.value.latLng == Position(index[way.nodes[0]].lat, index[way.nodes[0]].lon)
  {
    assert FetchData.IsFeatureOf(FetchData.ToFeature(way, index).value, way, index);
  }

  /** The two front ends put the same stair at the same place: OpenLayers
      keeps `[lon, lat]`, Leaflet gets the same pair swapped. */
  lemma SamePlace(f: MapFeature)
    requires f.coordinates != []
    ensures var ol := OlFrontEnd.CreateMarker(f).value;
            var leaflet := CreateMarker(f).value;
            ol.lonlat.e0 == leaflet.latLng.e1 && ol.lonlat.e1 == leaflet.latLng.e0
  {
  }

  /** The colour OpenLayers gives each Leaflet grade. */
  function GradeColor(grade: string): string {
    if grade == "extreme" then "tomato" else if grade == "many" then "#ffa500" else "#fff"
  }

  /** Apart from an absent count, which OpenLayers draws blue and Leaflet
      grades "few", the two front ends grade every step count alike. */
  lemma GradesAgree(stepCount: StepValue)
    ensures stepCount != Undefined ==> OlFrontEnd.CircleColor(stepCount) == GradeColor(IconClass(stepCount))
    ensures OlFrontEnd.CircleColor(Undefined) == "#55f" && IconClass(Undefined) == "few"
  {
    assert !Exceeds(Undefined, 50);
    if stepCount != Undefined {
      var color := OlFrontEnd.CircleColor(stepCount);
      var grade := IconClass(stepCount);
      if Exceeds(stepCount, 100) {
        assert color == "tomato" && grade == "extreme";
      } else if Exceeds(stepCount, 50) {
        assert color == "#ffa500" && grade == "many";
      } else {
        assert color == "#fff" && grade == "few";
      }
    }
  }

  /** The titles differ only where the count is absent or `null`: OpenLayers
      writes "ukjent antal", Leaflet prints "undefined" or "null". */
  lemma TitlesAgree(f: MapFeature)
    ensures OlFrontEnd.Title(f) == Title(f) <==>
              (f.name.Some? && f.name.value != "") || !(f.stepCount.Undefined? || f.stepCount.Null?)
  {
    if !(f.name.Some? && f.name.value != "") && (f.stepCount.Undefined? || f.stepCount.Null?) {
      var ol := OlFrontEnd.Title(f);
      var leaflet := Title(f);
      assert ol[10] == 'u' && leaflet[10] == Display(f.stepCount)[0];
      if f.stepCount.Undefined? {
        assert ol[11] == 'k' && leaflet[11] == 'n';
      }
    }
  }
}
