/** The module-level state of the two dashboard scripts (map_view_app/src/app.py
    and map_view_app/src/older_version.py): the stage-to-colour tables, the colour
    column written into the location table, and the MSA dropdown options. */
module Dashboard {
  import opened Wrappers
  import opened StringOrder
  import opened ViewSelection

  /** The seven funnel stages the tables know. */
  const Stages: set<string> := {"Engaged", "Enrolled", "Matched", "Activated", "Lead", "Contact", "Churned"}

  /** `cmap` of app.py. */
  const AppColours: map<string, string> := map[
    "Engaged" := "rgb(253, 171, 61)",
    "Enrolled" := "rgb(255, 100, 46)",
    "Matched" := "rgb(156, 211, 38)",
    "Activated" := "rgb(3, 127, 76)",
    "Lead" := "rgb(196, 196, 196)",
    "Contact" := "rgb(255, 203, 0)",
    "Churned" := "rgb(223, 47, 74)"]

  /** `cmap` of older_version.py. */
  const OlderColours: map<string, string> := map[
    "Engaged" := "rgb(255, 255, 0)",
    "Enrolled" := "rgb(0, 255, 0)",
    "Matched" := "rgb(0, 127, 0)",
    "Activated" := "rgb(0, 127, 127)",
    "Lead" := "rgb(192, 192, 192)",
    "Contact" := "rgb(255, 75, 0)",
    "Churned" := "rgb(255, 0, 0)"]

  /** What `Series.map(cmap)` gives for one stage: its colour, or missing (NaN). */
  function StageColour(cmap: map<string, string>, stage: string): (colour: Option<string>)
    ensures colour.Some? <==> stage in cmap
    ensures colour.Some? ==> colour.value == cmap[stage]
  {
    if stage in cmap then Some(cmap[stage]) else None
  }

  lemma AppColourTable()
    ensures AppColours.Keys == Stages
    ensures StageColour(AppColours, "Engaged") == Some("rgb(253, 171, 61)")
    ensures StageColour(AppColours, "Enrolled") == Some("rgb(255, 100, 46)")
    ensures StageColour(AppColours, "Matched") == Some("rgb(156, 211, 38)")
    ensures StageColour(AppColours, "Activated") == Some("rgb(3, 127, 76)")
    ensures StageColour(AppColours, "Lead") == Some("rgb(196, 196, 196)")
    ensures StageColour(AppColours, "Contact") == Some("rgb(255, 203, 0)")
    ensures StageColour(AppColours, "Churned") == Some("rgb(223, 47, 74)")
    ensures forall s :: s !in Stages ==> StageColour(AppColours, s) == None
  {
  }

  lemma OlderColourTable()
    ensures OlderColours.Keys == Stages
    ensures StageColour(OlderColours, "Engaged") == Some("rgb(255, 255, 0)")
    ensures StageColour(OlderColours, "Enrolled") == Some("rgb(0, 255, 0)")
    ensures StageColour(OlderColours, "Matched") == Some("rgb(0, 127, 0)")
    ensures StageColour(OlderColours, "Activated") == Some("rgb(0, 127, 127)")
    ensures StageColour(OlderColours, "Lead") == Some("rgb(192, 192, 192)")
    ensures StageColour(OlderColours, "Contact") == Some("rgb(255, 75, 0)")
    ensures StageColour(OlderColours, "Churned") == Some("rgb(255, 0, 0)")
    ensures forall s :: s !in Stages ==> StageColour(OlderColours, s) == None
  {
  }

  /** The two versions colour the same stages, and no stage the same way. */
  lemma TablesRecolourEveryStage()
    ensures AppColours.Keys == OlderColours.Keys
    ensures forall s :: s in AppColours ==> AppColours[s] != OlderColours[s]
  {
  }

  /** `stages.map(cmap)`: the colour column, element by element. */
  function ColourColumn(stages: seq<string>, cmap: map<string, string>): (r: seq<Option<string>>)
    ensures |r| == |stages|
    ensures forall i :: 0 <= i < |stages| ==> (r[i].Some? <==> stages[i] in cmap)
    ensures forall i :: 0 <= i < |stages| && stages[i] in cmap ==> r[i] == Some(cmap[stages[i]])
  {
    if stages == [] then [] else [StageColour(cmap, stages[0])] + ColourColumn(stages[1..], cmap)
  }

  /** Both versions leave the colour missing at the same rows. */
  lemma {:induction false} SameMissingColours(stages: seq<string>)
    ensures forall i :: 0 <= i < |stages| ==>
      (ColourColumn(stages, AppColours)[i].None? <==> ColourColumn(stages, OlderColours)[i].None?)
  {
    TablesRecolourEveryStage();
  }

  /** The location table the scripts hold at module level; the colour column is
      absent until it is assigned. */
  class LocationFrame {
    var name: seq<string>
    var stage: seq<string>
    var lat: seq<real>
    var lon: seq<real>
    var colour: Option<seq<Option<string>>>

    ghost predicate Valid()
      reads this
    {
      && |stage| == |name| && |lat| == |name| && |lon| == |name|
      && (colour.Some? ==> |colour.value| == |name|)
    }

    constructor (name: seq<string>, stage: seq<string>, lat: seq<real>, lon: seq<real>)
      requires |stage| == |name| && |lat| == |name| && |lon| == |name|
      ensures Valid()
      ensures this.name == name && this.stage == stage && this.lat == lat && this.lon == lon
      ensures colour.None?
    {
      this.name := name;
      this.stage := stage;
      this.lat := lat;
      this.lon := lon;
      colour := None;
    }

    /** `frame['colour'] = frame['stage'].map(cmap)`. */
    method AssignColour(cmap: map<string, string>)
      requires Valid()
      modifies this
      ensures Valid()
      ensures colour == Some(ColourColumn(old(stage), cmap))
      ensures name == old(name) && stage == old(stage) && lat == old(lat) && lon == old(lon)
    {
      colour := Some(ColourColumn(stage, cmap));
    }

    /** The rows of the frame, as the view selection reads them. */
    function Rows(): (rows: seq<Point>)
      reads this
      requires Valid() && colour.Some?
      ensures |rows| == |name|
      ensures forall i :: 0 <= i < |rows| ==>
        rows[i] == Point(name[i], stage[i], lat[i], lon[i], colour.value[i])
    {
      var name, stage, lat, lon, colour := name, stage, lat, lon, colour.value;
      seq(|name|, i requires 0 <= i < |name| => Point(name[i], stage[i], lat[i], lon[i], colour[i]))
    }

    /** Once the colour column is assigned from `cmap`, every marker the view
        draws from the frame's rows carries its stage's colour from `cmap`. */
    lemma MarkersCarryStageColour(cmap: map<string, string>, regions: seq<Region>, msa: Option<string>, envelope: Option<Bounds>)
      requires Valid() && colour == Some(ColourColumn(stage, cmap))
      ensures var fig := CreatePlot(regions, msa, envelope, Rows());
        fig.Some? ==> forall p :: p in fig.value.markers ==> p.colour == StageColour(cmap, p.stage)
    {
      var rows := Rows();
      var fig := CreatePlot(regions, msa, envelope, rows);
      if fig.Some? {
        forall p | p in fig.value.markers
          ensures p.colour == StageColour(cmap, p.stage)
        {
          assert multiset(fig.value.markers)[p] > 0;
          assert p in multiset(rows);
          var i :| 0 <= i < |rows| && rows[i] == p;
          assert p.colour == ColourColumn(stage, cmap)[i];
        }
      }
    }
  }

  /** A strictly sorted list with one more element inserted, unless present. */
  function Insert(sorted: seq<string>, x: string): (r: seq<string>)
    ensures StrictlySorted(sorted) ==> StrictlySorted(r)
    ensures forall y :: y in r <==> y in sorted || y == x
    ensures |r| <= |sorted| + 1
    decreases |sorted|
  {
    if sorted == [] then [x]
    else if x == sorted[0] then sorted
    else if Less(x, sorted[0]) then
      InsertFrontSorted(sorted, x);
      [x] + sorted
    else
      LessTotal(x, sorted[0]);
      var rest := Insert(sorted[1..], x);
      InsertAfterHeadSorted(sorted, x, rest);
      [sorted[0]] + rest
  }

  lemma InsertFrontSorted(sorted: seq<string>, x: string)
    requires sorted != [] && Less(x, sorted[0])
    ensures StrictlySorted(sorted) ==> StrictlySorted([x] + sorted)
  {
    if StrictlySorted(sorted) {
      forall j | 1 <= j < |sorted|
        ensures Less(x, sorted[j])
      {
        LessTransitive(x, sorted[0], sorted[j]);
      }
    }
  }

  lemma InsertAfterHeadSorted(sorted: seq<string>, x: string, rest: seq<string>)
    requires sorted != [] && Less(sorted[0], x)
    requires StrictlySorted(sorted[1..]) ==> StrictlySorted(rest)
    requires forall y :: y in rest <==> y in sorted[1..] || y == x
    ensures StrictlySorted(sorted) ==> StrictlySorted([sorted[0]] + rest)
  {
    if StrictlySorted(sorted) {
      var r := [sorted[0]] + rest;
      forall i, j | 0 <= i < j < |r|
        ensures Less(r[i], r[j])
      {
        if i == 0 {
          assert r[j] in rest;
          if r[j] != x {
            var k :| 0 <= k < |sorted[1..]| && sorted[1..][k] == r[j];
            assert sorted[k + 1] == r[j];
          }
        } else {
          assert r[i] == rest[i - 1] && r[j] == rest[j - 1];
        }
      }
    }
  }

  /** `sorted(list(column.unique()))`. */
  function SortedUnique(xs: seq<string>): (r: seq<string>)
    ensures StrictlySorted(r)
    ensures forall y :: y in r <==> y in xs
    ensures |r| <= |xs|
  {
    if xs == [] then []
    else
      var r := Insert(SortedUnique(xs[..|xs| - 1]), xs[|xs| - 1]);
      assert xs == xs[..|xs| - 1] + [xs[|xs| - 1]];
      r
  }

  /** The MSA column of the geometry table. */
  function MsaColumn(regions: seq<Region>): (r: seq<string>)
    ensures |r| == |regions|
    ensures forall i :: 0 <= i < |regions| ==> r[i] == regions[i].msa
  {
    seq(|regions|, i requires 0 <= i < |regions| => regions[i].msa)
  }

  /** Some region belongs to MSA `m`. */
  ghost predicate HasMsa(regions: seq<Region>, m: string)
  {
    exists i :: 0 <= i < |regions| && regions[i].msa == m
  }

  /** The dropdown options: every MSA present, once each, in ascending order. */
  function MsaOptions(regions: seq<Region>): (options: seq<string>)
    ensures StrictlySorted(options)
    ensures forall m :: m in options <==> HasMsa(regions, m)
    ensures |options| <= |regions|
  {
    var column := MsaColumn(regions);
    assert forall m :: m in column <==> HasMsa(regions, m);
    SortedUnique(column)
  }

  /** No MSA is offered twice. */
  lemma OptionsAreDistinct(regions: seq<Region>)
    ensures forall i, j :: 0 <= i < j < |MsaOptions(regions)| ==> MsaOptions(regions)[i] != MsaOptions(regions)[j]
  {
    StrictlySortedHasNoDuplicates(MsaOptions(regions));
  }

  /** The options depend only on which MSAs occur, not on the order or number of
      the regions. */
  lemma OptionsIgnoreRegionOrder(a: seq<Region>, b: seq<Region>)
    requires forall m :: HasMsa(a, m) <==> HasMsa(b, m)
    ensures MsaOptions(a) == MsaOptions(b)
  {
    StrictlySortedUnique(MsaOptions(a), MsaOptions(b));
  }
}
