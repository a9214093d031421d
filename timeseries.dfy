/** The per-day, per-country count table and the views derived from it:
    day-over-day change, running totals, the global scale factor, the
    rescaled copy and the count/rescaled table joined on the synthetic day
    column. */
module TimeSeries {
  import opened Wrappers
  import opened Tables
  import opened Joins
  import opened Calendar

  /** The loaded CSV: a `date` column and one count column per country, one
      row per day. */
  datatype Store = Store(dates: seq<Date>, countries: seq<string>, counts: Table)
  {
    /** One date per row, one count per country in every row, and column
        names that are unique (the CSV reader renames repeated headers) and
        distinct from the `date` and `day` columns. */
    predicate Valid()
    {
      |dates| == |counts| && HasWidth(counts, |countries|) && Distinct(countries) &&
      "date" !in countries && "day" !in countries
    }
  }

  /** `date` followed by the countries: the CSV's columns, and the row
      labels of `growth = source.transpose()`, which are taken before the
      `day` column exists. */
  function ColumnLabels(countries: seq<string>): (r: seq<string>)
  {
    ["date"] + countries
  }

  // ---------------------------------------------------------------------
  // change = count.diff(axis = 0)

  /** Day-over-day difference of every count column; the first row has no
      predecessor and is missing throughout. */
  function Change(t: Table): (r: seq<seq<Option<int>>>)
    requires Rectangular(t)
    ensures |r| == |t| && forall d :: 0 <= d < |t| ==> |r[d]| == Width(t)
  {
    seq(|t|, d requires 0 <= d < |t| =>
      seq(Width(t), c requires 0 <= c < Width(t) =>
        if d == 0 then None else Some(t[d][c] - t[d - 1][c])))
  }

  /** The first n cells of s added up. */
  function SumTo(s: seq<int>, n: nat): (r: int)
    requires n <= |s|
  {
    if n == 0 then 0 else SumTo(s, n - 1) + s[n - 1]
  }

  /** The changes of column c on days 1..d, all of them present. */
  function ChangesOf(t: Table, c: nat, d: nat): (r: seq<int>)
    requires Rectangular(t) && d < |t| && c < Width(t)
    ensures |r| == d
    ensures forall k :: 0 <= k < d ==> Change(t)[k + 1][c] == Some(r[k])
  {
    seq(d, (k: int) requires 0 <= k < d => Change(t)[k + 1][c].value)
  }

  /** Adding the changes of days 1..d to the counts of day 0 gives back the
      counts of day d: the change series loses only the first row, which is
      missing rather than zero. */
  lemma {:induction false} ChangeTelescopes(t: Table, c: nat, d: nat)
    requires Rectangular(t) && d < |t| && c < Width(t)
    ensures Change(t)[0][c] == None
    ensures t[d][c] == t[0][c] + SumTo(ChangesOf(t, c, d), d)
  {
    if d > 0 {
      ChangeTelescopes(t, c, d - 1);
      var s := ChangesOf(t, c, d);
      assert s[..d - 1] == ChangesOf(t, c, d - 1);
      SumToPrefix(s, d - 1);
      assert s[d - 1] == t[d][c] - t[d - 1][c];
    }
  }

  /** SumTo only looks at the cells it adds. */
  lemma {:induction false} SumToPrefix(s: seq<int>, n: nat)
    requires n <= |s|
    decreases n
    ensures SumTo(s, n) == SumTo(s[..n], n)
  {
    if n > 0 {
      SumToPrefix(s, n - 1);
      SumToPrefix(s[..n], n - 1);
      assert s[..n][..n - 1] == s[..n - 1];
    }
  }

  // ---------------------------------------------------------------------
  // dfSum = countCopy.cumsum(axis = 0)

  /** Cell-by-cell sum of two rows of the same width. */
  function AddRows(a: seq<int>, b: seq<int>): (r: seq<int>)
    requires |a| == |b|
    ensures |r| == |a| && forall c :: 0 <= c < |r| ==> r[c] == a[c] + b[c]
  {
    seq(|a|, c requires 0 <= c < |a| => a[c] + b[c])
  }

  /** Row d of the running sum: row 0 as it is, then each row added to the
      running row before it. */
  function Running(t: Table, d: nat): (r: seq<int>)
    requires Rectangular(t) && d < |t|
    ensures |r| == Width(t)
  {
    if d == 0 then t[0] else AddRows(Running(t, d - 1), t[d])
  }

  /** The per-column running sum of a table. */
  function CumSum(t: Table): (r: Table)
    requires Rectangular(t)
    ensures |r| == |t| && HasWidth(r, Width(t))
  {
    seq(|t|, d requires 0 <= d < |t| => Running(t, d))
  }

  /** The first row of the cumulative table is the first row of counts, and
      every later cell adds that day's count to the cell above it. */
  lemma CumSumRecurrence(t: Table, d: nat, c: nat)
    requires Rectangular(t) && d < |t| && c < Width(t)
    ensures d == 0 ==> CumSum(t)[d][c] == t[0][c]
    ensures d > 0 ==> CumSum(t)[d][c] == CumSum(t)[d - 1][c] + t[d][c]
  {
  }

  /** Cell (d, c) of the cumulative table is the total of column c over days
      0..d. */
  lemma {:induction false} CumSumIsColumnTotal(t: Table, d: nat, c: nat)
    requires Rectangular(t) && d < |t| && c < Width(t)
    ensures CumSum(t)[d][c] == SumTo(Column(t, c), d + 1)
  {
    if d > 0 {
      CumSumIsColumnTotal(t, d - 1, c);
    }
  }

  /** With non-negative counts every country's running total never
      decreases from one day to any later day. */
  lemma {:induction false} CumSumMonotone(t: Table, d1: nat, d2: nat, c: nat)
    requires Rectangular(t) && d1 <= d2 < |t| && c < Width(t)
    requires forall d :: 0 <= d < |t| ==> t[d][c] >= 0
    ensures CumSum(t)[d1][c] <= CumSum(t)[d2][c]
  {
    if d1 < d2 {
      CumSumMonotone(t, d1, d2 - 1, c);
      assert CumSum(t)[d2][c] == CumSum(t)[d2 - 1][c] + t[d2][c];
    }
  }

  /** Differencing the running totals gives back the daily counts from day 1
      on: `diff` undoes `cumsum`. */
  lemma ChangeUndoesCumSum(t: Table, d: nat, c: nat)
    requires Rectangular(t) && d < |t| && c < Width(t)
    ensures Rectangular(CumSum(t)) && Width(CumSum(t)) == Width(t)
    ensures Change(CumSum(t))[d][c] == if d == 0 then None else Some(t[d][c])
  {
    var s := CumSum(t);
    assert |t| > 0;
    assert Width(s) == |s[0]| == Width(t);
    if d > 0 {
      assert s[d][c] == s[d - 1][c] + t[d][c];
    }
  }

  /** The count columns with one extra column x appended on the right. */
  function WithColumn(t: Table, x: seq<int>): (r: Table)
    requires |x| >= |t|
    ensures |r| == |t| && forall d :: 0 <= d < |t| ==> r[d] == t[d] + [x[d]]
  {
    seq(|t|, d requires 0 <= d < |t| => t[d] + [x[d]])
  }

  /** Summing a table with an extra column sums the original columns as
      before and gives the extra column its own running total. */
  lemma {:induction false} RunningWithColumn(t: Table, x: seq<int>, d: nat)
    requires Rectangular(t) && |x| >= |t| && d < |t|
    ensures Rectangular(WithColumn(t, x))
    ensures Running(WithColumn(t, x), d) == Running(t, d) + [SumTo(x, d + 1)]
  {
    var tx := WithColumn(t, x);
    assert Width(tx) == Width(t) + 1;
    if d > 0 {
      RunningWithColumn(t, x, d - 1);
      var prev := Running(tx, d - 1);
      var r := AddRows(prev, tx[d]);
      var want := Running(t, d) + [SumTo(x, d + 1)];
      assert |r| == |want|;
      forall c | 0 <= c < |r|
        ensures r[c] == want[c]
      {
        if c < Width(t) {
          assert prev[c] == Running(t, d - 1)[c];
        }
      }
    }
  }

  /** The cumulative table with its last column replaced by numbers[d] in
      row d: `dfSum['day'] = numbers['day']`. */
  function ReplaceLastColumn(t: Table, numbers: seq<int>): (r: Table)
    requires forall d :: 0 <= d < |t| ==> |t[d]| > 0
    requires |numbers| >= |t|
    ensures |r| == |t| && forall d :: 0 <= d < |t| ==> r[d] == t[d][..|t[d]| - 1] + [numbers[d]]
  {
    seq(|t|, d requires 0 <= d < |t| => t[d][..|t[d]| - 1] + [numbers[d]])
  }

  /** Adding up 0, 1, ..., d. */
  lemma {:induction false} SumToRange(n: nat, d: nat)
    requires d < n
    ensures SumTo(Range(n), d + 1) == d * (d + 1) / 2
  {
    if d > 0 {
      SumToRange(n, d - 1);
    }
  }

  /** The cumulative table the dashboard plots. The copy it starts from
      aliases the source, so it carries the `day` column 0..N-1; summing that
      column gives 0, 1, 3, 6, ..., which the reassignment of `day`
      discards: each row ends up as the running totals of the countries
      followed by the row's own day number. */
  lemma DfSumLayout(t: Table, d: nat)
    requires Rectangular(t) && d < |t|
    ensures Rectangular(WithColumn(t, Range(|t|)))
    ensures CumSum(WithColumn(t, Range(|t|)))[d][Width(t)] == d * (d + 1) / 2
    ensures ReplaceLastColumn(CumSum(WithColumn(t, Range(|t|))), Range(|t| + 1))[d] == CumSum(t)[d] + [d]
  {
    var tx := WithColumn(t, Range(|t|));
    RunningWithColumn(t, Range(|t|), d);
    SumToRange(|t|, d);
    assert CumSum(tx)[d] == CumSum(t)[d] + [d * (d + 1) / 2];
  }

  // ---------------------------------------------------------------------
  // scaleFactor = (OldMax - OldMin) / NewMax

  /** The size range marker sizes are mapped onto. */
  const NewMax: real := 100.0

  /** The global scale factor, taken over every count cell. */
  function ScaleFactor(t: Table): (r: real)
    requires NonEmpty(t)
  {
    (TableMax(t) - TableMin(t)) as real / NewMax
  }

  /** Two cells of the table differ. */
  predicate Varies(t: Table)
  {
    exists d1, c1, d2, c2 :: 0 <= d1 < |t| && 0 <= c1 < |t[d1]| && 0 <= d2 < |t| && 0 <= c2 < |t[d2]| &&
      t[d1][c1] != t[d2][c2]
  }

  /** The factor is never negative, and it is positive exactly when the
      counts are not all equal, which is when dividing by it is defined. */
  lemma ScaleFactorPositive(t: Table)
    requires NonEmpty(t)
    ensures ScaleFactor(t) >= 0.0
    ensures ScaleFactor(t) > 0.0 <==> Varies(t)
  {
    var hi, lo := TableMax(t), TableMin(t);
    TableExtremes(t);
    if Varies(t) {
      var d1, c1, d2, c2 :| 0 <= d1 < |t| && 0 <= c1 < |t[d1]| && 0 <= d2 < |t| && 0 <= c2 < |t[d2]| &&
        t[d1][c1] != t[d2][c2];
      assert lo <= t[d1][c1] <= hi && lo <= t[d2][c2] <= hi;
    }
  }

  // ---------------------------------------------------------------------
  // rescaled = count.drop(columns = 'date') / scaleFactor

  /** Every count divided by the factor. */
  function Rescale(t: Table, f: real): (r: seq<seq<real>>)
    requires f > 0.0
    ensures |r| == |t|
    ensures forall d :: 0 <= d < |t| ==> |r[d]| == |t[d]|
  {
    seq(|t|, d requires 0 <= d < |t| =>
      seq(|t[d]|, c requires 0 <= c < |t[d]| => t[d][c] as real / f))
  }

  /** Multiplying a rescaled cell by the factor gives back the count. */
  lemma RescaleUndone(t: Table, f: real, d: nat, c: nat)
    requires f > 0.0 && d < |t| && c < |t[d]|
    ensures Rescale(t, f)[d][c] * f == t[d][c] as real
  {
    var v := t[d][c] as real;
    assert Rescale(t, f)[d][c] == v / f;
  }

  /** Rescaled by the global factor, the counts span a range of exactly
      NewMax: every value lies between min/f and min/f + 100, and the largest
      count lands on the top of that range. */
  lemma RescaledSpan(t: Table)
    requires NonEmpty(t) && Varies(t)
    ensures ScaleFactor(t) > 0.0
    ensures var f := ScaleFactor(t); var low := TableMin(t) as real / f;
      TableMax(t) as real / f == low + NewMax &&
      forall d, c :: 0 <= d < |t| && 0 <= c < |t[d]| ==>
        low <= Rescale(t, f)[d][c] <= low + NewMax
  {
    ScaleFactorPositive(t);
    var f := ScaleFactor(t);
    var hi, lo := TableMax(t), TableMin(t);
    SpanOverFactor(hi as real, lo as real, f);
    forall d, c | 0 <= d < |t| && 0 <= c < |t[d]|
      ensures lo as real / f <= Rescale(t, f)[d][c] <= hi as real / f
    {
      RescaledCell(t, f, d, c);
    }
  }

  /** A rescaled cell lies between the rescaled minimum and maximum. */
  lemma RescaledCell(t: Table, f: real, d: nat, c: nat)
    requires NonEmpty(t) && f > 0.0 && d < |t| && c < |t[d]|
    ensures TableMin(t) as real / f <= Rescale(t, f)[d][c] <= TableMax(t) as real / f
  {
    var v := t[d][c] as real;
    assert Rescale(t, f)[d][c] == v / f;
    TableExtremes(t);
    DivideMonotone(TableMin(t) as real, v, f);
    DivideMonotone(v, TableMax(t) as real, f);
  }

  lemma SpanOverFactor(hi: real, lo: real, f: real)
    requires f > 0.0 && f == (hi - lo) / NewMax
    ensures hi / f == lo / f + NewMax
  {
    assert hi - lo == f * NewMax;
    assert hi / f - lo / f == (hi - lo) / f;
  }

  lemma DivideMonotone(a: real, b: real, f: real)
    requires f > 0.0 && a <= b
    ensures a / f <= b / f
  {
    assert b / f - a / f == (b - a) / f;
  }

  // ---------------------------------------------------------------------
  // big = count.merge(rescaled, how = 'left', left_on = 'day', right_on = 'day')

  /** One row of the merged table: the `date` column, the country counts
      (suffixed `_x`), the `day` key, and the rescaled counts (suffixed `_y`),
      missing when no rescaled row had that day. */
  datatype BigRow = BigRow(date: Date, counts: seq<int>, day: int, rescaled: Option<seq<real>>)

  /** The left join of the count rows with the rescaled rows on their `day`
      columns. */
  function MergeOnDay(dates: seq<Date>, counts: Table, countDay: seq<int>,
                      rescaled: seq<seq<real>>, rescaledDay: seq<int>): (r: seq<BigRow>)
    requires |dates| == |counts| == |countDay| && |rescaled| == |rescaledDay|
  {
    var pairs := LeftJoin(countDay, rescaledDay);
    LeftJoinSpec(countDay, rescaledDay);
    seq(|pairs|, n requires 0 <= n < |pairs| =>
      var p := pairs[n];
      BigRow(dates[p.left], counts[p.left], countDay[p.left],
             match p.right
             case Some(j) => Some(rescaled[j])
             case None => None))
  }

  /** With both `day` columns equal to the row index, the merge pairs every
      count row with the rescaled row of the same day: N rows in, N rows out,
      in day order, none missing its rescaled half. */
  lemma MergeOnDayAligned(dates: seq<Date>, counts: Table, rescaled: seq<seq<real>>)
    requires |dates| == |counts| == |rescaled|
    ensures var n := |counts|; var big := MergeOnDay(dates, counts, Range(n), rescaled, Range(n));
      |big| == n &&
      forall d :: 0 <= d < n ==> big[d] == BigRow(dates[d], counts[d], d, Some(rescaled[d]))
  {
    var n := |counts|;
    RangeKeys(n);
    LeftJoinOneToOne(Range(n), Range(n));
  }

  /** `big.rename(...)`: the two United States columns get short names. */
  function RenameColumn(name: string): (r: string)
  {
    if name == "United States of America_x" then "USA_x"
    else if name == "United States of America_y" then "USA_y"
    else name
  }

  /** Each name other than the key that the other side also has gets the
      suffix; every other name is kept. */
  function Suffixed(names: seq<string>, other: seq<string>, key: string, suffix: string): (r: seq<string>)
  {
    seq(|names|, k requires 0 <= k < |names| =>
      if names[k] != key && names[k] in other then names[k] + suffix else names[k])
  }

  /** The names other than key, in order. */
  function Without(names: seq<string>, key: string): (r: seq<string>)
  {
    if |names| == 0 then []
    else if names[0] == key then Without(names[1..], key)
    else [names[0]] + Without(names[1..], key)
  }

  /** The column names of `left.merge(right, left_on = key, right_on = key)`:
      the left columns, then the right columns without the shared key; a
      name both sides carry is suffixed `_x` on the left and `_y` on the
      right. */
  function MergeColumns(left: seq<string>, right: seq<string>, key: string): (r: seq<string>)
  {
    Suffixed(left, right, key, "_x") + Suffixed(Without(right, key), left, key, "_y")
  }

  /** `frame.rename(columns = ...)`, applied to every column name. */
  function RenameColumns(names: seq<string>): (r: seq<string>)
  {
    seq(|names|, k requires 0 <= k < |names| => RenameColumn(names[k]))
  }

  /** Merging `date`, the countries and `day` with the countries and `day`
      on `day` gives `date`, each country with `_x`, a single `day`, then
      each country with `_y`. */
  lemma MergeColumnsLayout(countries: seq<string>)
    requires "date" !in countries && "day" !in countries
    ensures var m := MergeColumns(["date"] + countries + ["day"], countries + ["day"], "day");
      |m| == 2 * |countries| + 2 &&
      m[0] == "date" && m[|countries| + 1] == "day" &&
      forall k :: 0 <= k < |countries| ==>
        m[k + 1] == countries[k] + "_x" && m[|countries| + 2 + k] == countries[k] + "_y"
  {
    var w := |countries|;
    var left, right := ["date"] + countries + ["day"], countries + ["day"];
    WithoutAppendKey(countries, "day");
    var xs, ys := Suffixed(left, right, "day", "_x"), Suffixed(countries, left, "day", "_y");
    assert MergeColumns(left, right, "day") == xs + ys;
    assert xs[0] == "date" by { assert "date" !in right; }
    forall k | 0 <= k < w
      ensures xs[k + 1] == countries[k] + "_x" && ys[k] == countries[k] + "_y"
    {
      assert left[k + 1] == countries[k] == right[k];
      assert countries[k] in left;
    }
  }

  /** The columns of `big`: the merged names above, with the two United
      States columns shortened by the rename. */
  lemma BigColumnsLayout(countries: seq<string>)
    requires "date" !in countries && "day" !in countries
    ensures var r := RenameColumns(MergeColumns(["date"] + countries + ["day"], countries + ["day"], "day"));
      |r| == 2 * |countries| + 2 &&
      r[0] == "date" && r[|countries| + 1] == "day" &&
      forall k :: 0 <= k < |countries| ==>
        r[k + 1] == RenameColumn(countries[k] + "_x") &&
        r[|countries| + 2 + k] == RenameColumn(countries[k] + "_y")
  {
    MergeColumnsLayout(countries);
  }

  /** Dropping the key from a list that ends in it and holds it nowhere else
      leaves the rest. */
  lemma {:induction false} WithoutAppendKey(names: seq<string>, key: string)
    requires key !in names
    ensures Without(names + [key], key) == names
  {
    if |names| == 0 {
      assert [] + [key] == [key];
    } else {
      WithoutAppendKey(names[1..], key);
      assert (names + [key])[1..] == names[1..] + [key];
      assert names == [names[0]] + names[1..];
    }
  }
}
