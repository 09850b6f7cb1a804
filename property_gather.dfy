/**
 * The gather step of `load_property`: a `[len(times), len(ranks)]` zero matrix whose column
 * `rank` is filled from `positions[rank][column]`, indexing both by the rank VALUE.
 */
module PropertyGather {
  import opened Sorting
  import opened Positions

  /** numpy accepts a column of the slice's length, or a single value that it repeats. */
  predicate ColumnFits(values: seq<real>, numTimes: nat)
  {
    |values| == numTimes || |values| == 1
  }

  /** The values `m[:, c] = values` stores into a column of length `numTimes`. */
  function Broadcast(values: seq<real>, numTimes: nat): (col: seq<real>)
    requires ColumnFits(values, numTimes)
    ensures |col| == numTimes
    ensures forall t :: 0 <= t < numTimes ==> col[t] == if |values| == numTimes then values[t] else values[0]
  {
    if |values| == numTimes then values else seq(numTimes, _ => values[0])
  }

  /**
   * Every write `m[:, rank] = positions[rank][column]` succeeds: the rank is a column of the
   * matrix and an index of the table list, and the table's column fits the time axis.
   * (Ranks parsed from file names are never negative, so numpy's negative indexing never arises.)
   */
  predicate GatherInBounds(positions: seq<CellTable>, ranks: seq<int>, numTimes: nat, column: Column)
  {
    forall i :: 0 <= i < |ranks| ==>
      0 <= ranks[i] < |ranks| && ranks[i] < |positions| && ColumnFits(ColumnOf(positions[ranks[i]], column), numTimes)
  }

  /** Entry `[t, c]` of the gathered matrix: column `c` is written iff `c` is one of the ranks. */
  function Gathered(positions: seq<CellTable>, ranks: seq<int>, numTimes: nat, column: Column, t: int, c: int): real
    requires GatherInBounds(positions, ranks, numTimes, column) && 0 <= t < numTimes
  {
    if c in ranks then Broadcast(ColumnOf(positions[c], column), numTimes)[t] else 0.0
  }

  /** `m[:, c] = values`: only column `c` changes. */
  method WriteColumn(m: array2<real>, c: int, values: seq<real>)
    requires 0 <= c < m.Length1 && ColumnFits(values, m.Length0)
    modifies m
    ensures forall t, c' :: 0 <= t < m.Length0 && 0 <= c' < m.Length1 ==>
              m[t, c'] == if c' == c then Broadcast(values, m.Length0)[t] else old(m[t, c'])
  {
    var col := Broadcast(values, m.Length0);
    var t := 0;
    while t < m.Length0
      invariant 0 <= t <= m.Length0
      invariant forall s, c' :: 0 <= s < m.Length0 && 0 <= c' < m.Length1 ==>
                  m[s, c'] == if c' == c && s < t then col[s] else old(m[s, c'])
    {
      m[t, c] := col[t];
      t := t + 1;
    }
  }

  /**
   * The loop `for rank in ranks: m0[:, rank] = positions[rank][c0]; m1[:, rank] = positions[rank][c1]`
   * over two fresh zero matrices of shape `[numTimes, len(ranks)]`.
   */
  method GatherPair(positions: seq<CellTable>, ranks: seq<int>, numTimes: nat, c0: Column, c1: Column)
    returns (m0: array2<real>, m1: array2<real>)
    requires GatherInBounds(positions, ranks, numTimes, c0) && GatherInBounds(positions, ranks, numTimes, c1)
    ensures fresh(m0) && fresh(m1)
    ensures m0.Length0 == m1.Length0 == numTimes && m0.Length1 == m1.Length1 == |ranks|
    ensures forall t, c :: 0 <= t < numTimes && 0 <= c < |ranks| ==>
              m0[t, c] == Gathered(positions, ranks, numTimes, c0, t, c)
              && m1[t, c] == Gathered(positions, ranks, numTimes, c1, t, c)
  {
    m0 := new real[numTimes, |ranks|]((t, c) => 0.0);
    m1 := new real[numTimes, |ranks|]((t, c) => 0.0);
    var i := 0;
    while i < |ranks|
      invariant 0 <= i <= |ranks|
      invariant forall t, c :: 0 <= t < numTimes && 0 <= c < |ranks| ==>
                  m0[t, c] == (if c in ranks[..i] then Broadcast(ColumnOf(positions[c], c0), numTimes)[t] else 0.0)
                  && m1[t, c] == (if c in ranks[..i] then Broadcast(ColumnOf(positions[c], c1), numTimes)[t] else 0.0)
    {
      var rank := ranks[i];
      assert ranks[..i + 1] == ranks[..i] + [rank];
      WriteColumn(m0, rank, ColumnOf(positions[rank], c0));
      WriteColumn(m1, rank, ColumnOf(positions[rank], c1));
      i := i + 1;
    }
    assert ranks[..i] == ranks;
  }

  /** A numpy elementwise operation `f(m0, m1)` on two matrices of one shape. */
  method Elementwise(m0: array2<real>, m1: array2<real>, f: (real, real) -> real) returns (m: array2<real>)
    requires m0.Length0 == m1.Length0 && m0.Length1 == m1.Length1
    ensures fresh(m) && m.Length0 == m0.Length0 && m.Length1 == m0.Length1
    ensures forall t, c :: 0 <= t < m.Length0 && 0 <= c < m.Length1 ==> m[t, c] == f(m0[t, c], m1[t, c])
  {
    m := new real[m0.Length0, m0.Length1]((t, c) reads m0, m1
           requires 0 <= t < m0.Length0 && 0 <= c < m0.Length1 => f(m0[t, c], m1[t, c]));
  }

  predicate StrictlyAscending(s: seq<int>) { forall i, j :: 0 <= i < j < |s| ==> s[i] < s[j] }

  lemma {:induction false} StrictGap(s: seq<int>, i: int, j: int)
    requires StrictlyAscending(s) && 0 <= i <= j < |s|
    ensures s[j] - s[i] >= j - i
    decreases j - i
  {
    if i < j {
      StrictGap(s, i, j - 1);
    }
  }

  /**
   * Ascending, distinct ranks are all valid column indices exactly when they are
   * `0, 1, …, n - 1`: the gather silently needs dense ranks starting at 0.
   */
  lemma DenseRanks(ranks: seq<int>)
    requires Ascending(ranks) && Distinct(ranks)
    ensures (forall i :: 0 <= i < |ranks| ==> 0 <= ranks[i] < |ranks|)
            <==> (forall i :: 0 <= i < |ranks| ==> ranks[i] == i)
  {
    if forall i :: 0 <= i < |ranks| ==> 0 <= ranks[i] < |ranks| {
      forall i | 0 <= i < |ranks| ensures ranks[i] == i {
        StrictGap(ranks, 0, i);
        StrictGap(ranks, i, |ranks| - 1);
      }
    }
  }

  /**
   * For the ranks `load_pos` yields (ascending, one table per rank), the gather is in bounds
   * exactly when the ranks are `0 … n - 1` and every table's column fits the time axis.
   */
  lemma GatherInBoundsIffDense(positions: seq<CellTable>, ranks: seq<int>, numTimes: nat, column: Column)
    requires Ascending(ranks) && Distinct(ranks) && |positions| == |ranks|
    ensures GatherInBounds(positions, ranks, numTimes, column)
            <==> (forall i :: 0 <= i < |ranks| ==> ranks[i] == i)
                 && (forall i :: 0 <= i < |positions| ==> ColumnFits(ColumnOf(positions[i], column), numTimes))
  {
    DenseRanks(ranks);
    if GatherInBounds(positions, ranks, numTimes, column) {
      forall i | 0 <= i < |positions| ensures ColumnFits(ColumnOf(positions[i], column), numTimes) {
        assert ranks[i] == i;
      }
    }
  }

  /**
   * With dense ranks, the column `get_field` reads for rank position `indr` (column `indr`) is the
   * column the gather wrote for rank `ranks[indr]`: position and value coincide.
   */
  lemma GatherMatchesPaintColumn(positions: seq<CellTable>, ranks: seq<int>, numTimes: nat, column: Column, t: int, indr: int)
    requires GatherInBounds(positions, ranks, numTimes, column) && 0 <= t < numTimes && 0 <= indr < |ranks|
    requires Ascending(ranks) && Distinct(ranks)
    ensures ranks[indr] == indr
    ensures Gathered(positions, ranks, numTimes, column, t, indr)
            == Broadcast(ColumnOf(positions[ranks[indr]], column), numTimes)[t]
  {
    DenseRanks(ranks);
  }
}
