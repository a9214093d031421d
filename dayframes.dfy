/** `get_data(day)`: the per-day map frame. The centroid table is left-joined
    on `NAME` with one day's column of the transposed count table, and every
    row gets that day's rate and a marker size scaled by half the global
    factor. */
module DayFrames {
  import opened Wrappers
  import opened Tables
  import opened Joins
  import opened Geometry
  import opened TimeSeries

  /** The country rows of `growth`: row c holds country c's count for every
      day. */
  function Growth(s: Store): (r: Table)
    requires s.Valid()
  {
    Transpose(s.counts, |s.countries|)
  }

  /** A row of the day frame: the centroid row, that day's count (`rates`)
      and the marker size (`scaledsize`), both missing when the name has no
      count column. */
  datatype DayRow = DayRow(name: string, geometry: Shape, x: real, y: real,
                           rates: Option<int>, scaledsize: Option<real>)

  function Names(points: seq<PointRow>): (r: seq<string>)
    ensures |r| == |points| && forall i :: 0 <= i < |points| ==> r[i] == points[i].name
  {
    seq(|points|, i requires 0 <= i < |points| => points[i].name)
  }

  /** A name other than `date` is found among the growth labels exactly when
      it is a country, one position after that country's column. */
  lemma GrowthLookup(s: Store, name: string)
    requires s.Valid() && name != "date"
    ensures Distinct(ColumnLabels(s.countries))
    ensures IndexOf(name, ColumnLabels(s.countries)).None? <==> name !in s.countries
    ensures IndexOf(name, ColumnLabels(s.countries)).Some? ==>
      var j := IndexOf(name, ColumnLabels(s.countries)).value;
      1 <= j && s.countries[j - 1] == name
  {
    var keys := ColumnLabels(s.countries);
    forall i, j | 0 <= i < j < |keys|
      ensures keys[i] != keys[j]
    {
      if i > 0 {
        assert keys[i] == s.countries[i - 1] && keys[j] == s.countries[j - 1];
      } else {
        assert keys[j] in s.countries;
      }
    }
    assert name in keys <==> name in s.countries;
  }

  /** One frame row from one join row. */
  function FrameRow(s: Store, points: seq<PointRow>, scaleFactorMap: real, day: int, p: Pair): (r: DayRow)
    requires s.Valid() && 0 <= day < |s.counts| && scaleFactorMap > 0.0
    requires p.left < |points|
    requires p.right.Some? ==> p.right.value <= |s.countries|
  {
    var pt := points[p.left];
    var rates :=
      match p.right
      case Some(j) => if j == 0 then None else Some(Growth(s)[j - 1][day])
      case None => None;
    DayRow(pt.name, pt.geometry, pt.x, pt.y, rates,
           match rates
           case Some(v) => Some(v as real / scaleFactorMap)
           case None => None)
  }

  /** `get_data(day)`: the join rows of the centroid table with the growth
      labels, each turned into a frame row. */
  function GetData(s: Store, points: seq<PointRow>, scaleFactorMap: real, day: int): (r: seq<DayRow>)
    requires s.Valid() && 0 <= day < |s.counts| && scaleFactorMap > 0.0
    requires NoneNamed(points, "date")
  {
    var pairs := LeftJoin(Names(points), ColumnLabels(s.countries));
    LeftJoinSpec(Names(points), ColumnLabels(s.countries));
    seq(|pairs|, n requires 0 <= n < |pairs| => FrameRow(s, points, scaleFactorMap, day, pairs[n]))
  }

  /** Frame row i, as the join and the transposed table make it. */
  predicate RowMatches(s: Store, points: seq<PointRow>, scaleFactorMap: real, day: int, i: nat, row: DayRow)
    requires s.Valid() && 0 <= day < |s.counts| && scaleFactorMap > 0.0 && i < |points|
  {
    row.name == points[i].name && row.geometry == points[i].geometry &&
    row.x == points[i].x && row.y == points[i].y &&
    (row.rates.None? <==> points[i].name !in s.countries) &&
    (forall c :: 0 <= c < |s.countries| && s.countries[c] == points[i].name ==>
      row.rates == Some(s.counts[day][c])) &&
    row.scaledsize == match row.rates
                      case Some(v) => Some(v as real / scaleFactorMap)
                      case None => None
  }

  /** What `get_data(day)` returns: exactly one row per centroid row, in the
      same order, with its name, shape and centroid; `rates` is the count of
      the country of that name on that day, missing when no count column has
      the name; `scaledsize` is `rates / scaleFactorMap`, missing with it. */
  lemma GetDataRows(s: Store, points: seq<PointRow>, scaleFactorMap: real, day: int)
    requires s.Valid() && 0 <= day < |s.counts| && scaleFactorMap > 0.0
    requires NoneNamed(points, "date")
    ensures var r := GetData(s, points, scaleFactorMap, day);
      |r| == |points| &&
      (forall i :: 0 <= i < |points| ==>
        r[i].name == points[i].name && r[i].geometry == points[i].geometry &&
        r[i].x == points[i].x && r[i].y == points[i].y) &&
      (forall i :: 0 <= i < |points| ==> (r[i].rates.None? <==> points[i].name !in s.countries)) &&
      (forall i, c :: 0 <= i < |points| && 0 <= c < |s.countries| && s.countries[c] == points[i].name ==>
        r[i].rates == Some(s.counts[day][c])) &&
      (forall i :: 0 <= i < |points| ==>
        r[i].scaledsize == match r[i].rates
                           case Some(v) => Some(v as real / scaleFactorMap)
                           case None => None)
  {
    var pairs := LeftJoin(Names(points), ColumnLabels(s.countries));
    var r := GetData(s, points, scaleFactorMap, day);
    FrameJoin(s, points);
    forall i | 0 <= i < |points|
      ensures RowMatches(s, points, scaleFactorMap, day, i, r[i])
    {
      assert r[i] == FrameRow(s, points, scaleFactorMap, day, pairs[i]);
      FrameRowMatches(s, points, scaleFactorMap, day, i, pairs[i]);
    }
  }

  /** A join row with the properties FrameJoin gives yields a matching frame
      row. */
  lemma FrameRowMatches(s: Store, points: seq<PointRow>, scaleFactorMap: real, day: int, i: nat, p: Pair)
    requires s.Valid() && 0 <= day < |s.counts| && scaleFactorMap > 0.0 && i < |points|
    requires p.left == i
    requires p.right.None? <==> points[i].name !in s.countries
    requires p.right.Some? ==> 1 <= p.right.value <= |s.countries|
    requires p.right.Some? ==>
      forall c :: 0 <= c < |s.countries| && s.countries[c] == points[i].name ==> p.right.value == c + 1
    ensures RowMatches(s, points, scaleFactorMap, day, i, FrameRow(s, points, scaleFactorMap, day, p))
  {
    if p.right.Some? {
      var j := p.right.value;
      GrowthAt(s, j - 1, day);
    }
  }

  /** Row c of the transposed table, column day, is country c's count on
      that day. */
  lemma GrowthAt(s: Store, c: nat, day: nat)
    requires s.Valid() && c < |s.countries| && day < |s.counts|
    ensures Growth(s)[c][day] == s.counts[day][c]
  {
    TransposeRoundTrip(s.counts, |s.countries|);
  }

  /** The join inside `get_data` keeps the centroid rows one for one, and
      each row's rate is the count of the country of that name. */
  lemma FrameJoin(s: Store, points: seq<PointRow>)
    requires s.Valid() && NoneNamed(points, "date")
    ensures var pairs := LeftJoin(Names(points), ColumnLabels(s.countries));
      |pairs| == |points| &&
      forall i :: 0 <= i < |points| ==>
        pairs[i].left == i &&
        (pairs[i].right.None? <==> points[i].name !in s.countries) &&
        (pairs[i].right.Some? ==> 1 <= pairs[i].right.value <= |s.countries|) &&
        (pairs[i].right.Some? ==>
          forall c :: 0 <= c < |s.countries| && s.countries[c] == points[i].name ==> pairs[i].right.value == c + 1)
  {
    var names := Names(points);
    var keys := ColumnLabels(s.countries);
    GrowthLookup(s, "");
    LeftJoinOneToOne(names, keys);
    forall i | 0 <= i < |points|
      ensures IndexOf(points[i].name, keys).Some? ==>
        forall c :: 0 <= c < |s.countries| && s.countries[c] == points[i].name ==>
          IndexOf(points[i].name, keys).value == c + 1
      ensures IndexOf(points[i].name, keys).None? <==> points[i].name !in s.countries
    {
      GrowthLookup(s, points[i].name);
    }
  }

  /** The marker size on the map is twice the rescaled count of the same
      country and day: the map divides by half the factor the series
      plots divide by. */
  lemma ScaledSizeIsTwiceRescaled(s: Store, points: seq<PointRow>, f: real, day: int, i: nat, c: nat)
    requires s.Valid() && f > 0.0
    requires 0 <= day < |s.counts| && NoneNamed(points, "date")
    requires i < |points| && c < |s.countries| && s.countries[c] == points[i].name
    ensures var frame := GetData(s, points, f / 2.0, day);
      |frame| == |points| && frame[i].scaledsize == Some(2.0 * Rescale(s.counts, f)[day][c])
  {
    var v := s.counts[day][c] as real;
    var frame := GetData(s, points, f / 2.0, day);
    GetDataRows(s, points, f / 2.0, day);
    assert frame[i].rates == Some(s.counts[day][c]);
    assert frame[i].scaledsize == Some(v / (f / 2.0));
    assert Rescale(s.counts, f)[day][c] == v / f;
    HalfDivisor(v, f);
  }

  lemma HalfDivisor(v: real, f: real)
    requires f > 0.0
    ensures v / (f / 2.0) == 2.0 * (v / f)
  {
  }

  /** Whatever day is selected, the frame has the same rows, names, shapes
      and centroids; only the rates and sizes change. */
  lemma SameRowsEveryDay(s: Store, points: seq<PointRow>, scaleFactorMap: real, d1: int, d2: int)
    requires s.Valid() && scaleFactorMap > 0.0 && NoneNamed(points, "date")
    requires 0 <= d1 < |s.counts| && 0 <= d2 < |s.counts|
    ensures var a, b := GetData(s, points, scaleFactorMap, d1), GetData(s, points, scaleFactorMap, d2);
      |a| == |b| &&
      forall i :: 0 <= i < |a| ==>
        a[i].name == b[i].name && a[i].geometry == b[i].geometry &&
        a[i].x == b[i].x && a[i].y == b[i].y && a[i].rates.Some? == b[i].rates.Some?
  {
    GetDataRows(s, points, scaleFactorMap, d1);
    GetDataRows(s, points, scaleFactorMap, d2);
  }

  /** A frame built from the catalogue never shows Antarctica, on any day. */
  lemma NoExcludedInFrame(s: Store, rows: seq<ShapeRow>, centroidOf: Shape -> Point,
                          scaleFactorMap: real, day: int)
    requires s.Valid() && 0 <= day < |s.counts| && scaleFactorMap > 0.0
    requires HasNames(rows) && forall i :: 0 <= i < |rows| ==> rows[i].fields["NAME"] != "date"
    ensures NoneNamed(AttachCentroids(Catalogue(rows), centroidOf), "date")
    ensures var frame := GetData(s, AttachCentroids(Catalogue(rows), centroidOf), scaleFactorMap, day);
      forall i :: 0 <= i < |frame| ==> frame[i].name != Excluded
  {
    PointsFromCatalogue(rows, centroidOf, "date");
    GetDataRows(s, AttachCentroids(Catalogue(rows), centroidOf), scaleFactorMap, day);
  }
}
