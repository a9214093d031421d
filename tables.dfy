/** Whole-table helpers over day-major integer tables: rows are days, columns
    are countries. */
module Tables {

  type Table = seq<seq<int>>

  /** The number of columns, read off the first row. */
  function Width(t: Table): (r: nat)
  {
    if |t| == 0 then 0 else |t[0]|
  }

  /** Every row has exactly w cells. */
  predicate HasWidth(t: Table, w: nat)
  {
    forall d :: 0 <= d < |t| ==> |t[d]| == w
  }

  predicate Rectangular(t: Table)
  {
    HasWidth(t, Width(t))
  }

  /** The integers 0, 1, ..., n - 1, as `range(0, n, 1)` yields them. */
  function Range(n: nat): (r: seq<int>)
    ensures |r| == n && forall i :: 0 <= i < n ==> r[i] == i
  {
    seq(n, i => i)
  }

  /** Column c of t, top to bottom. */
  function Column(t: Table, c: nat): (r: seq<int>)
    requires forall d :: 0 <= d < |t| ==> c < |t[d]|
    ensures |r| == |t| && forall d :: 0 <= d < |t| ==> r[d] == t[d][c]
  {
    seq(|t|, d requires 0 <= d < |t| => t[d][c])
  }

  /** The transposed view: row c of the result is column c of t. */
  function Transpose(t: Table, w: nat): (r: Table)
    requires HasWidth(t, w)
  {
    seq(w, c requires 0 <= c < w => Column(t, c))
  }

  /** Transposing twice gives back the table: the country-major view loses
      nothing of the day-major one. */
  lemma TransposeRoundTrip(t: Table, w: nat)
    requires HasWidth(t, w)
    ensures HasWidth(Transpose(t, w), |t|)
    ensures |Transpose(t, w)| == w
    ensures forall c, d :: 0 <= c < w && 0 <= d < |t| ==> Transpose(t, w)[c][d] == t[d][c]
    ensures Transpose(Transpose(t, w), |t|) == t
  {
    var u := Transpose(t, w);
    var back := Transpose(u, |t|);
    assert |back| == |t|;
    forall d | 0 <= d < |t|
      ensures back[d] == t[d]
    {
      assert |back[d]| == w == |t[d]|;
      forall c | 0 <= c < w
        ensures back[d][c] == t[d][c]
      {
        assert back[d][c] == u[c][d];
      }
    }
  }

  /** The largest element of a non-empty sequence. */
  function MaxOf(s: seq<int>): (r: int)
    requires |s| > 0
    ensures r in s
    ensures forall i :: 0 <= i < |s| ==> s[i] <= r
  {
    if |s| == 1 then s[0]
    else
      var m := MaxOf(s[1..]);
      if s[0] >= m then s[0] else m
  }

  /** The smallest element of a non-empty sequence. */
  function MinOf(s: seq<int>): (r: int)
    requires |s| > 0
    ensures r in s
    ensures forall i :: 0 <= i < |s| ==> r <= s[i]
  {
    if |s| == 1 then s[0]
    else
      var m := MinOf(s[1..]);
      if s[0] <= m then s[0] else m
  }

  /** v is one of the cells of t. */
  predicate IsCell(t: Table, v: int)
  {
    exists d, c :: 0 <= d < |t| && 0 <= c < |t[d]| && t[d][c] == v
  }

  /** A table with at least one cell. */
  predicate NonEmpty(t: Table)
  {
    Rectangular(t) && |t| > 0 && Width(t) > 0
  }

  /** The per-column maxima of t, in column order: `frame.max()`. */
  function ColumnMaxima(t: Table): (r: seq<int>)
    requires NonEmpty(t)
    ensures |r| == Width(t)
  {
    seq(Width(t), c requires 0 <= c < Width(t) => MaxOf(Column(t, c)))
  }

  /** The per-column minima of t, in column order: `frame.min()`. */
  function ColumnMinima(t: Table): (r: seq<int>)
    requires NonEmpty(t)
    ensures |r| == Width(t)
  {
    seq(Width(t), c requires 0 <= c < Width(t) => MinOf(Column(t, c)))
  }

  /** `frame.max().max()`: the maximum of the per-column maxima, which is the
      largest cell of the table. */
  function TableMax(t: Table): (r: int)
    requires NonEmpty(t)
  {
    MaxOf(ColumnMaxima(t))
  }

  /** `frame.min().min()`: the smallest cell of the table. */
  function TableMin(t: Table): (r: int)
    requires NonEmpty(t)
  {
    MinOf(ColumnMinima(t))
  }

  /** TableMax and TableMin are cells of the table, and every cell lies
      between them. */
  lemma TableExtremes(t: Table)
    requires NonEmpty(t)
    ensures IsCell(t, TableMax(t)) && IsCell(t, TableMin(t))
    ensures forall d, c :: 0 <= d < |t| && 0 <= c < |t[d]| ==> TableMin(t) <= t[d][c] <= TableMax(t)
  {
    CellBounds(t, TableMax(t), true);
    CellBounds(t, TableMin(t), false);
  }

  /** The extreme of the column extremes is a cell and bounds every cell. */
  lemma CellBounds(t: Table, r: int, upper: bool)
    requires NonEmpty(t)
    requires upper ==> r == MaxOf(ColumnMaxima(t))
    requires !upper ==> r == MinOf(ColumnMinima(t))
    ensures IsCell(t, r)
    ensures upper ==> forall d, c :: 0 <= d < |t| && 0 <= c < |t[d]| ==> t[d][c] <= r
    ensures !upper ==> forall d, c :: 0 <= d < |t| && 0 <= c < |t[d]| ==> r <= t[d][c]
  {
    var tops := if upper then ColumnMaxima(t) else ColumnMinima(t);
    var c :| 0 <= c < |tops| && tops[c] == r;
    var col := Column(t, c);
    var d :| 0 <= d < |col| && col[d] == r;
    assert t[d][c] == r;
    forall d, c | 0 <= d < |t| && 0 <= c < |t[d]|
      ensures if upper then t[d][c] <= r else r <= t[d][c]
    {
      assert |t[d]| == Width(t);
      assert Column(t, c)[d] == t[d][c];
    }
  }
}
