/** The view selection of `create_plot` (map_view_app/src/app.py and its twin in
    map_view_app/src/older_version.py): the regions of the chosen MSA, the zoom
    level, the points inside the bounding box and the map centre. The bounding
    box of the selected regions' geometry is an input; it is missing when no
    region is selected, for the envelope of an empty geometry has no bounds
    (every one of them is NaN). */
module ViewSelection {
  import opened Wrappers

  /** A row of the geometry table: index `name`, its MSA and its score. */
  datatype Region = Region(name: string, msa: string, geoscore: real)

  /** A row of the location table, with its colour (missing for an unknown stage). */
  datatype Point = Point(name: string, stage: string, lat: real, lon: real, colour: Option<string>)

  /** The envelope bounds, in the order geopandas gives them. */
  datatype Bounds = Bounds(minLon: real, minLat: real, maxLon: real, maxLat: real)

  datatype Centre = Centre(lat: real, lon: real)

  /** What the figure is drawn from: the choropleth's regions, its centre (NaN,
      here `None`, when there are no bounds) and zoom, and the scatter's markers. */
  datatype Figure = Figure(regions: seq<Region>, centre: Option<Centre>, zoom: int, markers: seq<Point>)

  /** The dropdown value for which no figure is drawn. */
  const Sentinel: string := "-- Select MSA --"

  /** `a` is `b` with some elements left out and the rest in their order. */
  ghost predicate IsSubsequence<T>(a: seq<T>, b: seq<T>)
    decreases |b|
  {
    a == [] || (b != [] && ((a[0] == b[0] && IsSubsequence(a[1..], b[1..])) || IsSubsequence(a, b[1..])))
  }

  /** Boolean-mask selection, `frame[mask]`: the rows for which `keep` holds,
      each as many times as it occurs. */
  function Select<T(==,!new)>(s: seq<T>, keep: T -> bool): (r: seq<T>)
    ensures |r| <= |s|
    ensures IsSubsequence(r, s)
    ensures forall x :: x in r ==> keep(x)
    ensures forall i :: 0 <= i < |s| && keep(s[i]) ==> s[i] in r
    ensures forall x :: multiset(r)[x] == if keep(x) then multiset(s)[x] else 0
    decreases |s|
  {
    if s == [] then []
    else
      var rest := Select(s[1..], keep);
      assert s == [s[0]] + s[1..];
      if keep(s[0]) then [s[0]] + rest else rest
  }

  /** `g[g['msa'] == msa]`; a dropdown without a value (`None`) equals no MSA. */
  function SelectRegions(regions: seq<Region>, msa: Option<string>): (r: seq<Region>)
    ensures IsSubsequence(r, regions)
    ensures forall g :: g in r ==> msa == Some(g.msa)
    ensures forall i :: 0 <= i < |regions| && msa == Some(regions[i].msa) ==> regions[i] in r
    ensures forall g :: multiset(r)[g] == if msa == Some(g.msa) then multiset(regions)[g] else 0
    ensures msa.None? ==> r == []
  {
    Select(regions, (g: Region) => msa == Some(g.msa))
  }

  /** The larger of the latitude and the longitude range. */
  function Span(b: Bounds): (s: real)
    ensures s >= b.maxLat - b.minLat && s >= b.maxLon - b.minLon
    ensures s == b.maxLat - b.minLat || s == b.maxLon - b.minLon
  {
    var latRange := b.maxLat - b.minLat;
    var lonRange := b.maxLon - b.minLon;
    if lonRange > latRange then lonRange else latRange
  }

  /** The two-level zoom heuristic. */
  function Zoom(span: real): (z: int)
    ensures z == 8 || z == 9
    ensures z == 8 <==> span > 0.5
  {
    if span > 0.5 then 8 else 9
  }

  /** A wider span never zooms in further. */
  lemma ZoomMonotone(s1: real, s2: real)
    requires s1 <= s2
    ensures Zoom(s2) <= Zoom(s1)
  {
  }

  /** The region is zoomed out exactly when one of its ranges exceeds half a degree. */
  lemma ZoomOfBounds(b: Bounds)
    ensures Zoom(Span(b)) == 8 <==> b.maxLat - b.minLat > 0.5 || b.maxLon - b.minLon > 0.5
  {
  }

  /** The strict open-rectangle test of the location filter. */
  predicate Inside(b: Bounds, p: Point)
  {
    p.lon > b.minLon && p.lat > b.minLat && p.lon < b.maxLon && p.lat < b.maxLat
  }

  /** The locations strictly inside the bounds, in their order. */
  function FilterPoints(b: Bounds, points: seq<Point>): (r: seq<Point>)
    ensures |r| <= |points|
    ensures IsSubsequence(r, points)
    ensures forall p :: p in r ==> b.minLon < p.lon < b.maxLon && b.minLat < p.lat < b.maxLat
    ensures forall i :: 0 <= i < |points| && Inside(b, points[i]) ==> points[i] in r
    ensures forall p :: multiset(r)[p] == if Inside(b, p) then multiset(points)[p] else 0
  {
    Select(points, (p: Point) => Inside(b, p))
  }

  /** A point on any edge of the box is dropped. */
  lemma BoundaryPointsDropped(b: Bounds, points: seq<Point>)
    ensures forall p :: p in FilterPoints(b, points) ==>
      p.lat != b.minLat && p.lat != b.maxLat && p.lon != b.minLon && p.lon != b.maxLon
  {
  }

  /** The per-axis midpoint of the bounds. */
  function CentreOf(b: Bounds): (c: Centre)
    ensures c.lat - b.minLat == b.maxLat - c.lat
    ensures c.lon - b.minLon == b.maxLon - c.lon
    ensures b.minLat <= b.maxLat ==> b.minLat <= c.lat <= b.maxLat
    ensures b.minLon <= b.maxLon ==> b.minLon <= c.lon <= b.maxLon
  {
    Centre((b.minLat + b.maxLat) / 2.0, (b.minLon + b.maxLon) / 2.0)
  }

  /** `create_plot`: no figure for the sentinel value; otherwise the chosen MSA's
      regions and a view from `envelope`, the bounding box of those regions. A
      box centres the map on its midpoint, zooms by its span and keeps the
      locations strictly inside it. Without a box (NaN bounds) every comparison
      is false: zoom 9, no location kept, no centre. */
  function CreatePlot(regions: seq<Region>, msa: Option<string>, envelope: Option<Bounds>, points: seq<Point>): (fig: Option<Figure>)
    ensures fig.None? <==> msa == Some(Sentinel)
    ensures fig.Some? ==> IsSubsequence(fig.value.regions, regions)
    ensures fig.Some? ==> forall g ::
      multiset(fig.value.regions)[g] == (if msa == Some(g.msa) then multiset(regions)[g] else 0)
    ensures fig.Some? ==> (fig.value.zoom == 8 || fig.value.zoom == 9)
    ensures fig.Some? ==> (fig.value.zoom == 8 <==>
      (envelope.Some? && (envelope.value.maxLat - envelope.value.minLat > 0.5 || envelope.value.maxLon - envelope.value.minLon > 0.5)))
    ensures fig.Some? ==> (fig.value.centre.Some? <==> envelope.Some?)
    ensures fig.Some? && envelope.Some? ==> var b, c := envelope.value, fig.value.centre.value;
      c.lat - b.minLat == b.maxLat - c.lat && c.lon - b.minLon == b.maxLon - c.lon
    ensures fig.Some? ==> IsSubsequence(fig.value.markers, points)
    ensures fig.Some? ==> forall p ::
      multiset(fig.value.markers)[p] == (if envelope.Some? && Inside(envelope.value, p) then multiset(points)[p] else 0)
  {
    if msa == Some(Sentinel) then None
    else
      var selected := SelectRegions(regions, msa);
      match envelope
      case None =>
        Some(Figure(selected, None, 9, []))
      case Some(b) =>
        Some(Figure(selected, Some(CentreOf(b)), Zoom(Span(b)), FilterPoints(b, points)))
  }

  /** A selection of one MSA whose envelope spans exactly half a degree of longitude
      and 0.4 of latitude: zoom 9, one of two sites kept. */
  lemma NewYorkScenario()
    ensures var b := Bounds(-74.2, 40.5, -73.7, 40.9);
            var inside := Point("Lead:A", "Lead", 40.7, -73.9, None);
            var outside := Point("Lead:B", "Lead", 40.7, -75.0, None);
            var regions := [Region("1", "NYC", 1.0), Region("2", "Other", 2.0), Region("3", "NYC", 3.0)];
            var fig := CreatePlot(regions, Some("NYC"), Some(b), [inside, outside]);
            && Span(b) == 0.5
            && fig.Some? && fig.value.zoom == 9
            && fig.value.markers == [inside]
            && fig.value.regions == [regions[0], regions[2]]
            && fig.value.centre == Some(Centre(40.7, -73.95))
  {
    NewYorkMarkers();
    NewYorkRegions();
  }

  lemma NewYorkMarkers()
    ensures var inside := Point("Lead:A", "Lead", 40.7, -73.9, None);
            var outside := Point("Lead:B", "Lead", 40.7, -75.0, None);
            FilterPoints(Bounds(-74.2, 40.5, -73.7, 40.9), [inside, outside]) == [inside]
  {
    var b := Bounds(-74.2, 40.5, -73.7, 40.9);
    var inside := Point("Lead:A", "Lead", 40.7, -73.9, None);
    var outside := Point("Lead:B", "Lead", 40.7, -75.0, None);
    var markers := FilterPoints(b, [inside, outside]);
    assert Inside(b, inside) && !Inside(b, outside);
    assert multiset(markers)[inside] == 1 && multiset(markers)[outside] == 0;
  }

  lemma NewYorkRegions()
    ensures var regions := [Region("1", "NYC", 1.0), Region("2", "Other", 2.0), Region("3", "NYC", 3.0)];
            SelectRegions(regions, Some("NYC")) == [regions[0], regions[2]]
  {
  }
}
