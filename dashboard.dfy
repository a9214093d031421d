/** The dashboard script's state. The load-time tables are computed once,
    in the order the script computes them, on a count frame that several
    names share; the map state is then set up, and afterwards only the
    slider handler changes anything: the selected day, the map frame and the
    map title. */
module Dashboard {
  import opened Wrappers
  import opened Tables
  import opened Calendar
  import opened Geometry
  import opened TimeSeries
  import opened DayFrames

  /** The CSV frame as a mutable object. `count = source` and `countCopy =
      source` name this one object, so a column added through one name is
      seen through the others. The columns read from the CSV are never
      reassigned by the script; only the `day` column is added later. */
  class CountFrame {
    const dates: seq<Date>
    const countries: seq<string>
    const counts: Table
    /** The `day` column, once assigned. */
    var day: Option<seq<int>>

    constructor (s: Store)
      ensures dates == s.dates && countries == s.countries && counts == s.counts && day == None
    {
      dates, countries, counts := s.dates, s.countries, s.counts;
      day := None;
    }

    /** The column labels, left to right. */
    function Columns(): (r: seq<string>)
      reads this
    {
      ColumnLabels(countries) + (if day.Some? then ["day"] else [])
    }

    /** The day column, when present, covers every row. */
    predicate DayFits()
      reads this
    {
      day.Some? ==> |day.value| >= |counts|
    }

    /** The numeric columns row by row (`drop(columns = 'date')`,
        `select_dtypes(include = [np.number])`): the counts, followed by
        `day` once it exists. */
    function NumericRows(): (r: Table)
      reads this
      requires DayFits()
    {
      if day.None? then counts else WithColumn(counts, day.value)
    }

    /** `frame['day'] = numbers['day']`: assignment aligns on the row index,
        so row i gets numbers[i] and the surplus entries are ignored. */
    method AssignDay(numbers: seq<int>)
      requires |numbers| >= |counts|
      modifies this`day
      ensures day == Some(numbers[..|counts|])
    {
      day := Some(numbers[..|counts|]);
    }
  }

  /** The tables the script derives from the CSV at load time. */
  datatype Series = Series(change: seq<seq<Option<int>>>, growthKeys: seq<string>,
                           scaleFactor: real, rescaled: seq<seq<real>>,
                           numbers: seq<int>, rescaledDay: seq<int>,
                           big: seq<BigRow>, bigColumns: seq<string>,
                           dfSumColumns: seq<string>, dfSum: Table)

  /** Lines 41-75: the change table, the labels of the transposed view, the
      scale factor and the rescaled counts, all taken while the frame has no
      `day` column yet. */
  method DeriveSeries(count: CountFrame) returns (change: seq<seq<Option<int>>>, growthKeys: seq<string>,
                                                  scaleFactor: real, rescaled: seq<seq<real>>)
    requires count.day == None && NonEmpty(count.counts) && Varies(count.counts)
    ensures change == Change(count.counts)
    ensures growthKeys == ColumnLabels(count.countries)
    ensures scaleFactor == ScaleFactor(count.counts) && scaleFactor > 0.0
    ensures rescaled == Rescale(count.counts, scaleFactor)
  {
    var rows := count.NumericRows();
    ScaleFactorPositive(rows);
    var factor := ScaleFactor(rows);
    change, growthKeys, scaleFactor, rescaled := Change(rows), count.Columns(), factor, Rescale(rows, factor);
  }

  /** Lines 77-84: the `day` column 0..N-1 is given to the count frame and
      to the rescaled table, the two are merged on it, and the merged
      columns are renamed. */
  method JoinOnDay(count: CountFrame, rescaled: seq<seq<real>>)
    returns (numbers: seq<int>, rescaledDay: seq<int>, big: seq<BigRow>, bigColumns: seq<string>)
    requires count.day == None && |count.dates| == |count.counts| == |rescaled|
    modifies count`day
    ensures count.day == Some(Range(|count.counts|))
    ensures numbers == Range(|count.counts| + 1) && rescaledDay == Range(|count.counts|)
    ensures |big| == |count.counts| &&
      forall d :: 0 <= d < |count.counts| ==> big[d] == BigRow(count.dates[d], count.counts[d], d, Some(rescaled[d]))
    ensures bigColumns == RenameColumns(MergeColumns(ColumnLabels(count.countries) + ["day"], count.countries + ["day"], "day"))
  {
    var n := |count.counts|;
    // `rescaled` was cut from the frame before `day` existed: every column but `date`.
    var rescaledColumns := count.Columns()[1..] + ["day"];
    assert rescaledColumns == count.countries + ["day"];
    numbers := Range(n + 1);
    count.AssignDay(numbers);
    assert numbers[..n] == Range(n);
    rescaledDay := numbers[..|rescaled|];
    assert count.Columns() == ColumnLabels(count.countries) + ["day"];
    big, bigColumns := MergeOnDay(count.dates, count.counts, count.day.value, rescaled, rescaledDay),
                       RenameColumns(MergeColumns(count.Columns(), rescaledColumns, "day"));
    MergeOnDayAligned(count.dates, count.counts, rescaled);
  }

  /** Lines 161-165: the running sums of every numeric column of
      `countCopy`, which by then carries `day`; the summed `day` column is
      then replaced by 0..N-1. */
  method Cumulate(countCopy: CountFrame, numbers: seq<int>) returns (dfSumColumns: seq<string>, dfSum: Table)
    requires Rectangular(countCopy.counts) && HasWidth(countCopy.counts, |countCopy.countries|)
    requires countCopy.day == Some(Range(|countCopy.counts|)) && numbers == Range(|countCopy.counts| + 1)
    ensures dfSumColumns == countCopy.countries + ["day"]
    ensures |dfSum| == |countCopy.counts| &&
      forall d :: 0 <= d < |countCopy.counts| ==> dfSum[d] == CumSum(countCopy.counts)[d] + [d]
  {
    assert countCopy.Columns() == ["date"] + (countCopy.countries + ["day"]);
    dfSumColumns := countCopy.Columns()[1..];
    dfSum := ReplaceLastColumn(CumSum(countCopy.NumericRows()), numbers);
    forall d | 0 <= d < |countCopy.counts|
      ensures dfSum[d] == CumSum(countCopy.counts)[d] + [d]
    {
      DfSumLayout(countCopy.counts, d);
    }
  }

  /** The shared frame once the load is done: the CSV's columns, with the
      `day` column 0..N-1 added in place. */
  predicate FrameAfterLoad(csv: Store, source: CountFrame)
    reads source
  {
    source.dates == csv.dates && source.countries == csv.countries &&
    source.counts == csv.counts && source.day == Some(Range(|csv.counts|))
  }

  /** The load-time tables of a CSV, each as the script derives it. */
  predicate SeriesOf(csv: Store, s: Series)
  {
    var n := |csv.counts|;
    csv.Valid() && NonEmpty(csv.counts) &&
    s.change == Change(csv.counts) &&
    s.growthKeys == ColumnLabels(csv.countries) &&
    s.scaleFactor == ScaleFactor(csv.counts) && s.scaleFactor > 0.0 &&
    s.rescaled == Rescale(csv.counts, s.scaleFactor) &&
    s.numbers == Range(n + 1) && s.rescaledDay == Range(n) &&
    |s.big| == n &&
    (forall d :: 0 <= d < n ==> s.big[d] == BigRow(csv.dates[d], csv.counts[d], d, Some(s.rescaled[d]))) &&
    s.bigColumns == RenameColumns(MergeColumns(ColumnLabels(csv.countries) + ["day"], csv.countries + ["day"], "day")) &&
    s.dfSumColumns == csv.countries + ["day"] &&
    |s.dfSum| == n &&
    (forall d :: 0 <= d < n ==> s.dfSum[d] == CumSum(csv.counts)[d] + [d])
  }

  /** Lines 37-84 and 161-165: the CSV is read into `source`; `count` and
      later `countCopy` are other names for it, so the `day` column given to
      `count` shows up in `source` and in the running sums, while the
      labels of `growth` were taken before it existed. */
  method LoadSeries(csv: Store) returns (source: CountFrame, s: Series)
    requires csv.Valid() && NonEmpty(csv.counts) && Varies(csv.counts)
    ensures fresh(source) && FrameAfterLoad(csv, source)
    ensures source.Columns() == ColumnLabels(csv.countries) + ["day"]
    ensures SeriesOf(csv, s)
  {
    source := new CountFrame(csv);
    var count := source;
    var change, growthKeys, scaleFactor, rescaled := DeriveSeries(count);
    var numbers, rescaledDay, big, bigColumns := JoinOnDay(count, rescaled);
    var countCopy := source;
    var dfSumColumns, dfSum := Cumulate(countCopy, numbers);
    s := Series(change, growthKeys, scaleFactor, rescaled, numbers, rescaledDay,
                big, bigColumns, dfSumColumns, dfSum);
  }

  const InitialTitle := "Worldwide death count per day"
  const TitlePrefix := "Death count on date: "

  /** The first and last slider positions: `min(x)` and `max(x)` over the
      day labels 0..N-1 of `growth`. */
  lemma SliderBounds(n: nat)
    requires n > 0
    ensures MinOf(Range(n)) == 0 && MaxOf(Range(n)) == n - 1
  {
    var x := Range(n);
    assert x[0] == 0 && x[n - 1] == n - 1;
  }

  /** The map and its slider. */
  class Dashboard {
    /** The count table `get_data` reads through `growth`. */
    var data: Store
    /** The centroid table. */
    var pointsfile: seq<PointRow>
    var scaleFactorMap: real
    var datelist: seq<string>
    var sliderStart: int
    var sliderEnd: int

    /** `slider.value`. */
    var currentDay: int
    /** `geopoints.geojson`: the map's point frame. */
    var frame: seq<DayRow>
    /** `map.title.text`. */
    var title: string
    /** The day the frame was last built for. */
    ghost var shownDay: int

    /** The slider stays within the days of the table, and the map shows
        the frame of one of those days, built with the load-time factor. */
    ghost predicate Valid()
      reads this
    {
      data.Valid() && NonEmpty(data.counts) && scaleFactorMap > 0.0 &&
      NoneNamed(pointsfile, "date") &&
      sliderStart == 0 && sliderEnd == |data.counts| - 1 &&
      sliderStart <= currentDay <= sliderEnd &&
      |datelist| == 107 &&
      0 <= shownDay < |data.counts| &&
      frame == GetData(data, pointsfile, scaleFactorMap, shownDay)
    }

    /** Lines 197, 231, 243, 245-246 and 255-261: the map divides by half
        the global factor and first shows day 0 under its initial title; the
        date labels are made, and the slider runs over the day labels of
        `growth`, starting at the first. */
    constructor Load(csv: Store, scaleFactor: real, points: seq<PointRow>)
      requires csv.Valid() && NonEmpty(csv.counts) && scaleFactor > 0.0
      requires NoneNamed(points, "date")
      ensures Valid()
      ensures data == csv && pointsfile == points
      ensures scaleFactorMap == scaleFactor / 2.0
      ensures LabelsOfRange(datelist)
      ensures sliderStart == 0 && sliderEnd == |csv.counts| - 1 && currentDay == 0
      ensures frame == GetData(csv, points, scaleFactorMap, 0)
      ensures title == InitialTitle
    {
      var n := |csv.counts|;
      var factorMap := scaleFactor / 2.0;
      var labels := RangeLabels();
      var x := Range(n);
      SliderBounds(n);
      data, pointsfile, scaleFactorMap, datelist := csv, points, factorMap, labels;
      frame, shownDay, title := GetData(csv, points, factorMap, 0), 0, InitialTitle;
      sliderStart, sliderEnd, currentDay := MinOf(x), MaxOf(x), MinOf(x);
    }

    /** `update_plot`: the slider moved to day d. The date label is looked up
        first; a day past the end of `datelist` fails there, and the frame
        and title stay as they were. Otherwise the frame is rebuilt for day d
        with the factor fixed at load time and the title names the date.
        Nothing else changes. */
    method SelectDay(d: int) returns (ok: bool)
      requires Valid() && sliderStart <= d <= sliderEnd
      modifies this`currentDay, this`frame, this`title, this`shownDay
      ensures Valid() && currentDay == d
      ensures ok <==> d < |datelist|
      ensures ok ==> frame == GetData(data, pointsfile, scaleFactorMap, d) &&
                     title == TitlePrefix + datelist[d]
      ensures !ok ==> frame == old(frame) && title == old(title)
    {
      currentDay := d;
      if d < |datelist| {
        var date := datelist[d];
        frame := GetData(data, pointsfile, scaleFactorMap, d);
        title := TitlePrefix + date;
        shownDay := d;
        ok := true;
      } else {
        ok := false;
      }
    }
  }

  /** The whole script up to the first page: the load-time tables, the
      shape catalogue and its centroids (lines 49-53 and 209-213), and the
      map with its slider. The map's factor is half the one the tables were
      rescaled by, and the map only ever shows catalogue points. */
  method RunScript(csv: Store, shapes: seq<ShapeRow>, centroidOf: Shape -> Point)
    returns (source: CountFrame, s: Series, dash: Dashboard)
    requires csv.Valid() && NonEmpty(csv.counts) && Varies(csv.counts)
    requires HasNames(shapes)
    requires forall i :: 0 <= i < |shapes| ==> shapes[i].fields["NAME"] != "date"
    ensures fresh(source) && fresh(dash) && dash.Valid()
    ensures FrameAfterLoad(csv, source) && source.Columns() == ColumnLabels(csv.countries) + ["day"]
    ensures SeriesOf(csv, s)
    ensures dash.data == csv && dash.scaleFactorMap == s.scaleFactor / 2.0
    ensures LabelsOfRange(dash.datelist)
    ensures dash.sliderStart == 0 && dash.sliderEnd == |csv.counts| - 1
    ensures dash.pointsfile == AttachCentroids(Catalogue(shapes), centroidOf)
    ensures dash.currentDay == 0 && dash.title == InitialTitle
    ensures dash.frame == GetData(csv, dash.pointsfile, dash.scaleFactorMap, 0)
  {
    source, s := LoadSeries(csv);
    var points := AttachCentroids(Catalogue(shapes), centroidOf);
    PointsFromCatalogue(shapes, centroidOf, "date");
    dash := new Dashboard.Load(csv, s.scaleFactor, points);
  }

  /** Two selections of the same day show the same frame, whatever was
      selected in between: the frame depends on the day alone. */
  method SelectionIsRepeatable(dash: Dashboard, d: int, e: int)
    requires dash.Valid() && dash.sliderStart <= d <= dash.sliderEnd && dash.sliderStart <= e <= dash.sliderEnd
    requires d < |dash.datelist|
    modifies dash`currentDay, dash`frame, dash`title, dash`shownDay
    ensures dash.frame == GetData(dash.data, dash.pointsfile, dash.scaleFactorMap, d)
  {
    var ok1 := dash.SelectDay(d);
    var first := dash.frame;
    var ok2 := dash.SelectDay(e);
    var ok3 := dash.SelectDay(d);
    assert dash.frame == first;
  }
}
