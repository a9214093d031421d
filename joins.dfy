/** The left join that `DataFrame.merge(..., how = 'left')` performs, stated
    over key columns. LeftJoin builds it left row by left row, pairing each
    with every right row whose key matches, or with no partner when none
    does; the lemmas prove that every row is a correct pairing, that rows
    come in left-row order, and that no pairing and no unmatched left row is
    lost. */
module Joins {
  import opened Wrappers
  import Tables

  /** No key occurs twice. */
  predicate Distinct<K(==)>(ks: seq<K>)
  {
    forall i, j :: 0 <= i < j < |ks| ==> ks[i] != ks[j]
  }

  /** The position of the first occurrence of k in ks, if any: a lookup of an
      index label. */
  function IndexOf<K(==)>(k: K, ks: seq<K>): (r: Option<nat>)
    ensures r.None? <==> k !in ks
    ensures r.Some? ==> r.value < |ks| && ks[r.value] == k
    ensures r.Some? ==> forall j :: 0 <= j < r.value ==> ks[j] != k
  {
    if |ks| == 0 then None
    else if ks[0] == k then Some(0)
    else match IndexOf(k, ks[1..])
      case None => None
      case Some(j) => Some(j + 1)
  }

  /** The positions of all right rows whose key is k, in ascending order. */
  function MatchesOf<K(==)>(k: K, keys: seq<K>): (r: seq<nat>)
  {
    if |keys| == 0 then []
    else
      var last := |keys| - 1;
      MatchesOf(k, keys[..last]) + (if keys[last] == k then [last] else [])
  }

  /** The matches are exactly the positions holding k, each listed once and
      in ascending order. */
  lemma {:induction false} MatchesOfSpec<K>(k: K, keys: seq<K>)
    ensures forall m :: 0 <= m < |MatchesOf(k, keys)| ==>
      MatchesOf(k, keys)[m] < |keys| && keys[MatchesOf(k, keys)[m]] == k
    ensures forall j :: 0 <= j < |keys| && keys[j] == k ==> j in MatchesOf(k, keys)
    ensures forall m, n :: 0 <= m < n < |MatchesOf(k, keys)| ==> MatchesOf(k, keys)[m] < MatchesOf(k, keys)[n]
  {
    if |keys| > 0 {
      var last := |keys| - 1;
      var front := keys[..last];
      MatchesOfSpec(k, front);
      var f := MatchesOf(k, front);
      var r := MatchesOf(k, keys);
      var tail := if keys[last] == k then [last] else [];
      assert r == f + tail;
      forall m | 0 <= m < |r|
        ensures r[m] < |keys| && keys[r[m]] == k
      {
        if m < |f| {
          assert r[m] == f[m] && f[m] < |front|;
          assert front[f[m]] == keys[f[m]];
        } else {
          assert tail == [last] && r[m] == last;
        }
      }
      forall j | 0 <= j < |keys| && keys[j] == k
        ensures j in r
      {
        if j < last {
          assert front[j] == keys[j];
          assert j in f;
        } else {
          assert r[|r| - 1] == last;
        }
      }
      forall m, n | 0 <= m < n < |r|
        ensures r[m] < r[n]
      {
        if n >= |f| {
          assert r[n] == last;
          if m < |f| { assert r[m] == f[m] < |front|; }
        } else {
          assert r[m] == f[m] && r[n] == f[n];
        }
      }
    }
  }

  /** One row of a join: a left position and its right partner, if any. */
  datatype Pair = Pair(left: nat, right: Option<nat>)

  /** p is a correct join row: its partner has the same key, and it has none
      only when no right row has that key. */
  predicate Joined<K(==)>(p: Pair, lkeys: seq<K>, rkeys: seq<K>)
  {
    p.left < |lkeys| &&
    match p.right
    case Some(j) => j < |rkeys| && rkeys[j] == lkeys[p.left]
    case None => lkeys[p.left] !in rkeys
  }

  /** The join rows contributed by left row i whose matches are ms. */
  function RowsFor(i: nat, ms: seq<nat>): (r: seq<Pair>)
  {
    if |ms| == 0 then [Pair(i, None)]
    else seq(|ms|, m requires 0 <= m < |ms| => Pair(i, Some(ms[m])))
  }

  /** The index pairs of `left.merge(right, how = 'left')` on the given key
      columns. */
  function LeftJoin<K(==)>(lkeys: seq<K>, rkeys: seq<K>): (r: seq<Pair>)
  {
    if |lkeys| == 0 then []
    else
      var i := |lkeys| - 1;
      LeftJoin(lkeys[..i], rkeys) + RowsFor(i, MatchesOf(lkeys[i], rkeys))
  }

  /** Every row of the join is a correct join row, and the rows come in
      left-row order. */
  lemma {:induction false} LeftJoinSpec<K>(lkeys: seq<K>, rkeys: seq<K>)
    ensures forall n :: 0 <= n < |LeftJoin(lkeys, rkeys)| ==> Joined(LeftJoin(lkeys, rkeys)[n], lkeys, rkeys)
    ensures forall m, n :: 0 <= m < n < |LeftJoin(lkeys, rkeys)| ==>
      LeftJoin(lkeys, rkeys)[m].left <= LeftJoin(lkeys, rkeys)[n].left
  {
    if |lkeys| > 0 {
      var i := |lkeys| - 1;
      var front := LeftJoin(lkeys[..i], rkeys);
      LeftJoinSpec(lkeys[..i], rkeys);
      assert forall n :: 0 <= n < |front| ==> Joined(front[n], lkeys[..i], rkeys);
      assert forall m, n :: 0 <= m < n < |front| ==> front[m].left <= front[n].left;
      JoinStep(lkeys, rkeys, front, MatchesOf(lkeys[i], rkeys));
    }
  }

  /** Appending the rows of the last left row keeps every row correct and the
      left positions in order. */
  lemma JoinStep<K>(lkeys: seq<K>, rkeys: seq<K>, front: seq<Pair>, ms: seq<nat>)
    requires |lkeys| > 0
    requires forall n :: 0 <= n < |front| ==> Joined(front[n], lkeys[..|lkeys| - 1], rkeys)
    requires forall m, n :: 0 <= m < n < |front| ==> front[m].left <= front[n].left
    requires ms == MatchesOf(lkeys[|lkeys| - 1], rkeys)
    ensures var r := front + RowsFor(|lkeys| - 1, ms);
      (forall n :: 0 <= n < |r| ==> Joined(r[n], lkeys, rkeys)) &&
      (forall m, n :: 0 <= m < n < |r| ==> r[m].left <= r[n].left)
  {
    var i := |lkeys| - 1;
    MatchesOfSpec(lkeys[i], rkeys);
    var tail := RowsFor(i, ms);
    var r := front + tail;
    assert forall n :: 0 <= n < |tail| ==> tail[n].left == i;
    forall n | 0 <= n < |front|
      ensures Joined(front[n], lkeys, rkeys)
    {
      assert lkeys[..i][front[n].left] == lkeys[front[n].left];
    }
    forall n | 0 <= n < |tail|
      ensures Joined(tail[n], lkeys, rkeys)
    {
      if ms == [] {
        assert lkeys[i] !in rkeys;
      }
    }
    forall n | 0 <= n < |r|
      ensures Joined(r[n], lkeys, rkeys)
    {
      if n < |front| { assert r[n] == front[n]; } else { assert r[n] == tail[n - |front|]; }
    }
  }

  /** With a unique right key, every key occurs at most once among the
      matches: the matches are exactly the position IndexOf finds. */
  lemma MatchesOfDistinct<K>(k: K, keys: seq<K>)
    requires Distinct(keys)
    ensures MatchesOf(k, keys) == if k in keys then [IndexOf(k, keys).value] else []
  {
    var ms := MatchesOf(k, keys);
    MatchesOfSpec(k, keys);
    if k in keys {
      var j := IndexOf(k, keys).value;
      assert j in ms;
      forall m | 0 <= m < |ms|
        ensures ms[m] == j
      {
        assert keys[ms[m]] == k == keys[j];
      }
    }
  }

  /** Every pairing of a left row with a right row of the same key is a
      row of the join. */
  lemma {:induction false} LeftJoinHasMatch<K>(lkeys: seq<K>, rkeys: seq<K>, i: nat, j: nat)
    requires i < |lkeys| && j < |rkeys| && rkeys[j] == lkeys[i]
    ensures Pair(i, Some(j)) in LeftJoin(lkeys, rkeys)
  {
    var last := |lkeys| - 1;
    var front := LeftJoin(lkeys[..last], rkeys);
    var ms := MatchesOf(lkeys[last], rkeys);
    if i == last {
      MatchesOfSpec(lkeys[last], rkeys);
      var m :| 0 <= m < |ms| && ms[m] == j;
      assert RowsFor(i, ms)[m] == Pair(i, Some(j));
    } else {
      LeftJoinHasMatch(lkeys[..last], rkeys, i, j);
    }
    assert LeftJoin(lkeys, rkeys) == front + RowsFor(last, ms);
  }

  /** A key no right row has matches nothing. */
  lemma {:induction false} MatchesOfAbsent<K>(k: K, keys: seq<K>)
    requires k !in keys
    ensures MatchesOf(k, keys) == []
  {
    if |keys| > 0 {
      var last := |keys| - 1;
      MatchesOfAbsent(k, keys[..last]);
    }
  }

  /** A left row whose key no right row has appears in the join, unpaired. */
  lemma {:induction false} LeftJoinKeepsUnmatched<K>(lkeys: seq<K>, rkeys: seq<K>, i: nat)
    requires i < |lkeys| && lkeys[i] !in rkeys
    ensures Pair(i, None) in LeftJoin(lkeys, rkeys)
  {
    var last := |lkeys| - 1;
    var front := LeftJoin(lkeys[..last], rkeys);
    var ms := MatchesOf(lkeys[last], rkeys);
    if i == last {
      MatchesOfAbsent(lkeys[last], rkeys);
      assert RowsFor(i, ms) == [Pair(i, None)];
    } else {
      LeftJoinKeepsUnmatched(lkeys[..last], rkeys, i);
    }
    assert LeftJoin(lkeys, rkeys) == front + RowsFor(last, ms);
  }

  /** No left row is lost: each is paired with every right row of its key,
      or appears unpaired when there is none. With LeftJoinSpec this
      describes the join in both directions. */
  lemma LeftJoinComplete<K>(lkeys: seq<K>, rkeys: seq<K>)
    ensures forall i, j :: 0 <= i < |lkeys| && 0 <= j < |rkeys| && rkeys[j] == lkeys[i] ==>
      Pair(i, Some(j)) in LeftJoin(lkeys, rkeys)
    ensures forall i :: 0 <= i < |lkeys| && lkeys[i] !in rkeys ==> Pair(i, None) in LeftJoin(lkeys, rkeys)
  {
    forall i, j | 0 <= i < |lkeys| && 0 <= j < |rkeys| && rkeys[j] == lkeys[i]
      ensures Pair(i, Some(j)) in LeftJoin(lkeys, rkeys)
    {
      LeftJoinHasMatch(lkeys, rkeys, i, j);
    }
    forall i | 0 <= i < |lkeys| && lkeys[i] !in rkeys
      ensures Pair(i, None) in LeftJoin(lkeys, rkeys)
    {
      LeftJoinKeepsUnmatched(lkeys, rkeys, i);
    }
  }

  /** With a unique right key the left join keeps the left rows one for one,
      in their order, each paired with the right row of the same key. */
  lemma {:induction false} LeftJoinOneToOne<K>(lkeys: seq<K>, rkeys: seq<K>)
    requires Distinct(rkeys)
    ensures |LeftJoin(lkeys, rkeys)| == |lkeys|
    ensures forall i :: 0 <= i < |lkeys| ==> LeftJoin(lkeys, rkeys)[i] == Pair(i, IndexOf(lkeys[i], rkeys))
  {
    if |lkeys| > 0 {
      var i := |lkeys| - 1;
      var front := lkeys[..i];
      LeftJoinOneToOne(front, rkeys);
      MatchesOfDistinct(lkeys[i], rkeys);
      var r, head := LeftJoin(lkeys, rkeys), LeftJoin(front, rkeys);
      assert RowsFor(i, MatchesOf(lkeys[i], rkeys)) == [Pair(i, IndexOf(lkeys[i], rkeys))];
      assert r == head + [Pair(i, IndexOf(lkeys[i], rkeys))];
      forall j | 0 <= j < i
        ensures r[j] == Pair(j, IndexOf(lkeys[j], rkeys))
      {
        assert r[j] == head[j] && front[j] == lkeys[j];
      }
    }
  }

  /** The synthetic `day` key 0..n-1 has no repeats, and day i sits at row i. */
  lemma RangeKeys(n: nat)
    ensures Distinct(Tables.Range(n))
    ensures forall i :: 0 <= i < n ==> IndexOf(i, Tables.Range(n)) == Some(i)
  {
    var ks := Tables.Range(n);
    forall i | 0 <= i < n
      ensures IndexOf(i, ks) == Some(i)
    {
      var r := IndexOf(i, ks);
      assert ks[i] == i;
      assert r.Some?;
      assert r.value <= i;
    }
  }
}
