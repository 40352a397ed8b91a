/**
 * The row-by-row dynamic program of the 2D house robber (SolveDP and SolveDP2
 * in hr2d/hr2d.go). The score of pattern b after row i is the best total of a
 * stack of compatible patterns over rows 0 .. i that ends in b; SolveDP2 also
 * remembers, per row and pattern, the predecessor that produced that score and
 * walks those predecessors backwards to recover one pattern per row.
 *
 * The recurrence functions below follow the code exactly: predecessors are
 * tried in increasing index order, a candidate replaces the running score only
 * when strictly greater, and every running score starts from 0.
 */
module RowDP {
  import opened Align

  datatype Option<T> = None | Some(value: T)

  /** At least one row, all rows as long as the first, and every pattern that long too. */
  predicate Shaped(als: seq<Alignment>, table: seq<seq<int>>) {
    && |table| >= 1
    && (forall r :: 0 <= r < |table| ==> |table[r]| == |table[0]|)
    && HasLength(als, |table[0]|)
  }

  /**
   * What generate_alignments guarantees for C >= 1 and the backward walk relies
   * on: a non-empty list of 0/1 patterns whose pattern 0 is all zeros.
   */
  predicate ZeroFirst(als: seq<Alignment>) {
    && |als| >= 1
    && als[0] == Zeros(|als[0]|)
    && forall k :: 0 <= k < |als| ==> Binary(als[k])
  }

  /**
   * The running score of pattern b in the current row after predecessors
   * 0 .. n - 1 have been tried, starting from the reset value 0.
   */
  function Relax(als: seq<Alignment>, prev: seq<int>, row: seq<int>, b: nat, n: nat): int
    requires HasLength(als, |row|) && |prev| == |als| && b < |als| && n <= |als|
  {
    if n == 0 then 0
    else
      var best := Relax(als, prev, row, b, n - 1);
      var c := prev[n - 1] + DotProduct(als[b], row);
      if DotProduct(als[n - 1], als[b]) == 0 && c > best then c else best
  }

  /** The predecessor recorded for b alongside Relax: the last index that strictly improved it, else 0. */
  function Pred(als: seq<Alignment>, prev: seq<int>, row: seq<int>, b: nat, n: nat): (a: nat)
    requires HasLength(als, |row|) && |prev| == |als| && b < |als| && n <= |als|
    ensures a == 0 || a < n
  {
    if n == 0 then 0
    else if DotProduct(als[n - 1], als[b]) == 0
      && prev[n - 1] + DotProduct(als[b], row) > Relax(als, prev, row, b, n - 1)
    then n - 1
    else Pred(als, prev, row, b, n - 1)
  }

  /** One row transition: every pattern's running score after all predecessors. */
  function Step(als: seq<Alignment>, prev: seq<int>, row: seq<int>): (next: seq<int>)
    requires HasLength(als, |row|) && |prev| == |als|
    ensures |next| == |als|
  {
    seq(|als|, b requires 0 <= b < |als| => Relax(als, prev, row, b, |als|))
  }

  /** The predecessors SolveDP2 records for one row transition, one per pattern. */
  function Preds(als: seq<Alignment>, prev: seq<int>, row: seq<int>): (p: seq<int>)
    requires HasLength(als, |row|) && |prev| == |als|
    ensures |p| == |als|
  {
    seq(|als|, b requires 0 <= b < |als| => Pred(als, prev, row, b, |als|))
  }

  /** The scores of the first row: each pattern's dot product with it. */
  function Scores(als: seq<Alignment>, row: seq<int>): (s: seq<int>)
    requires HasLength(als, |row|)
    ensures |s| == |als|
  {
    seq(|als|, b requires 0 <= b < |als| => DotProduct(als[b], row))
  }

  /** The score vector dp after row i has been processed. */
  function Best(als: seq<Alignment>, table: seq<seq<int>>, i: nat): (s: seq<int>)
    requires Shaped(als, table) && i < |table|
    ensures |s| == |als|
  {
    if i == 0 then Scores(als, table[0])
    else Step(als, Best(als, table, i - 1), table[i])
  }

  /** The final scan of dp: the largest entry that beats 0 (the initial maximum), else 0. */
  function MaxOf(s: seq<int>): int {
    MaxUpTo(s, |s|)
  }

  /** The final scan's running maximum after entries 0 .. n - 1. */
  function MaxUpTo(s: seq<int>, n: nat): int
    requires n <= |s|
  {
    if n == 0 then 0
    else if s[n - 1] > MaxUpTo(s, n - 1) then s[n - 1]
    else MaxUpTo(s, n - 1)
  }

  /** The index the final scan settles on: the first entry holding MaxOf, else 0. */
  function ArgMaxOf(s: seq<int>): (a: nat)
    ensures a == 0 || a < |s|
  {
    ArgUpTo(s, |s|)
  }

  /** The final scan's running index after entries 0 .. n - 1. */
  function ArgUpTo(s: seq<int>, n: nat): (a: nat)
    requires n <= |s|
    ensures a == 0 || a < n
  {
    if n == 0 then 0
    else if s[n - 1] > MaxUpTo(s, n - 1) then n - 1
    else ArgUpTo(s, n - 1)
  }

  /** The pattern indices of the backward walk from pattern b at row i down to row 0. */
  function Reconstruct(als: seq<Alignment>, table: seq<seq<int>>, i: nat, b: nat): (path: seq<nat>)
    requires Shaped(als, table) && i < |table| && b < |als|
    ensures |path| == i + 1 && path[i] == b
    ensures forall k :: 0 <= k <= i ==> path[k] < |als|
  {
    if i == 0 then [b]
    else Reconstruct(als, table, i - 1, Pred(als, Best(als, table, i - 1), table[i], b, |als|)) + [b]
  }

  function Select(als: seq<Alignment>, path: seq<nat>): (sel: seq<Alignment>)
    requires forall k :: 0 <= k < |path| ==> path[k] < |als|
    ensures |sel| == |path|
  {
    seq(|path|, k requires 0 <= k < |path| => als[path[k]])
  }

  /** SolveDP2's table p: row i > 0 holds the predecessors of row i's transition; row 0 is never read. */
  predicate PredTable(als: seq<Alignment>, table: seq<seq<int>>, p: seq<seq<int>>)
    requires Shaped(als, table)
  {
    PredRows(als, table, p, |table|)
  }

  /** Rows 1 .. n - 1 of p hold their transitions' predecessors. */
  predicate PredRows(als: seq<Alignment>, table: seq<seq<int>>, p: seq<seq<int>>, n: nat)
    requires Shaped(als, table) && n <= |table|
  {
    |p| == |table| && forall i {:trigger p[i]} :: 1 <= i < n ==> p[i] == Preds(als, Best(als, table, i - 1), table[i])
  }

  /** Recording row i's predecessors extends the filled part of p by one row. */
  lemma PredRowsStep(als: seq<Alignment>, table: seq<seq<int>>, p: seq<seq<int>>, i: nat, x: seq<int>)
    requires Shaped(als, table) && 1 <= i < |table| && PredRows(als, table, p, i)
    requires x == Preds(als, Best(als, table, i - 1), table[i])
    ensures PredRows(als, table, p[i := x], i + 1)
  {
    var q := p[i := x];
    forall k | 1 <= k < i + 1 ensures q[k] == Preds(als, Best(als, table, k - 1), table[k]) {
      if k < i {
        assert q[k] == p[k];
      }
    }
  }

  /** The patterns the backward walk from pattern b at row i selects, row 0 first. */
  function Walk(als: seq<Alignment>, table: seq<seq<int>>, i: nat, b: nat): seq<Alignment>
    requires Shaped(als, table) && i < |table| && b < |als|
  {
    Select(als, Reconstruct(als, table, i, b))
  }

  /** What SolveDP2 reports: the walk back from the pattern the final scan settles on. */
  function Traceback(als: seq<Alignment>, table: seq<seq<int>>): seq<Alignment>
    requires Shaped(als, table) && |als| >= 1
  {
    Walk(als, table, |table| - 1, ArgMaxOf(Best(als, table, |table| - 1)))
  }

  /** Row k's pattern may sit directly below row k - 1's. */
  predicate StacksAt(sel: seq<Alignment>, k: int)
    requires 1 <= k < |sel|
  {
    |sel[k - 1]| <= |sel[k]| && DotProduct(sel[k - 1], sel[k]) == 0
  }

  /** One of the given patterns per row, each compatible with the one above it. */
  predicate Stacking(als: seq<Alignment>, sel: seq<Alignment>) {
    && (forall k :: 0 <= k < |sel| ==> sel[k] in als)
    && (forall k :: 1 <= k < |sel| ==> StacksAt(sel, k))
  }

  /** A selection covers at most the table's rows, each pattern no wider than its row. */
  predicate Fits(sel: seq<Alignment>, table: seq<seq<int>>) {
    |sel| <= |table| && forall k :: 0 <= k < |sel| ==> |sel[k]| <= |table[k]|
  }

  /** The loot of a selection: row k contributes its pattern's dot product with row k of the table. */
  function Score(sel: seq<Alignment>, table: seq<seq<int>>): int
    requires Fits(sel, table)
  {
    if |sel| == 0 then 0
    else Score(sel[..|sel| - 1], table) + DotProduct(sel[|sel| - 1], table[|sel| - 1])
  }

  /** The loot of the patterns a path of indices selects, row by row. */
  function PathScore(als: seq<Alignment>, table: seq<seq<int>>, path: seq<nat>): int
    requires Shaped(als, table) && |path| <= |table|
    requires forall k :: 0 <= k < |path| ==> path[k] < |als|
  {
    if |path| == 0 then 0
    else PathScore(als, table, path[..|path| - 1]) + DotProduct(als[path[|path| - 1]], table[|path| - 1])
  }

  // ---------------------------------------------------------------------
  // Properties of the recurrence

  /** In a strictly increasing list, entry k does not occur before position k. */
  lemma NextIsNew(list: seq<int>, k: nat)
    requires StrictlyIncreasing(list) && k < |list|
    ensures list[k] !in list[..k] && list[..k + 1] == list[..k] + [list[k]]
  {
    forall q | 0 <= q < k ensures list[q] != list[k] {
      assert list[q] < list[k];
    }
  }

  /** A pattern that does not stack on a leaves b's running score and predecessor as they were. */
  lemma RelaxSkip(als: seq<Alignment>, pairs: seq<seq<int>>, prev: seq<int>, row: seq<int>, b: nat, a: nat)
    requires HasLength(als, |row|) && PairLists(als, pairs) && |prev| == |als| && b < |als| && a < |als|
    requires b !in pairs[a]
    ensures Relax(als, prev, row, b, a + 1) == Relax(als, prev, row, b, a)
    ensures Pred(als, prev, row, b, a + 1) == Pred(als, prev, row, b, a)
  {
    assert DotProduct(als[a], als[b]) != 0;
  }

  /** Trying a compatible predecessor a: Relax and Pred take it exactly when it is strictly better. */
  lemma RelaxStep(als: seq<Alignment>, prev: seq<int>, row: seq<int>, b: nat, a: nat)
    requires HasLength(als, |row|) && |prev| == |als| && b < |als| && a < |als|
    requires DotProduct(als[a], als[b]) == 0
    ensures var c := prev[a] + DotProduct(als[b], row);
      && Relax(als, prev, row, b, a + 1) == (if c > Relax(als, prev, row, b, a) then c else Relax(als, prev, row, b, a))
      && Pred(als, prev, row, b, a + 1) == (if c > Relax(als, prev, row, b, a) then a else Pred(als, prev, row, b, a))
  {
  }

  /**
   * Relax is max(0, max of prev[a] + Dot(als[b], row) over compatible a < n),
   * and Pred is the earliest compatible a that attains it (0 when the reset value 0 stands).
   */
  lemma {:induction false} RelaxIsMax(als: seq<Alignment>, prev: seq<int>, row: seq<int>, b: nat, n: nat)
    requires HasLength(als, |row|) && |prev| == |als| && b < |als| && n <= |als|
    ensures Relax(als, prev, row, b, n) >= 0
    ensures forall a :: 0 <= a < n && DotProduct(als[a], als[b]) == 0 ==>
      prev[a] + DotProduct(als[b], row) <= Relax(als, prev, row, b, n)
    ensures var r, p := Relax(als, prev, row, b, n), Pred(als, prev, row, b, n);
      || (r == 0 && p == 0)
      || (&& r > 0 && p < n && DotProduct(als[p], als[b]) == 0
          && r == prev[p] + DotProduct(als[b], row)
          && forall a :: 0 <= a < p && DotProduct(als[a], als[b]) == 0 ==>
               prev[a] + DotProduct(als[b], row) < r)
  {
    if n > 0 {
      RelaxIsMax(als, prev, row, b, n - 1);
    }
  }

  /** The final scan returns the maximum of dp and 0, at its first occurrence. */
  lemma MaxOfIsMax(s: seq<int>)
    ensures MaxOf(s) >= 0
    ensures forall j :: 0 <= j < |s| ==> s[j] <= MaxOf(s)
    ensures var m, a := MaxOf(s), ArgMaxOf(s);
      || (m == 0 && a == 0)
      || (m > 0 && a < |s| && s[a] == m && forall j :: 0 <= j < a ==> s[j] < m)
  {
    MaxUpToIsMax(s, |s|);
  }

  lemma {:induction false} MaxUpToIsMax(s: seq<int>, n: nat)
    requires n <= |s|
    ensures MaxUpTo(s, n) >= 0
    ensures forall j :: 0 <= j < n ==> s[j] <= MaxUpTo(s, n)
    ensures var m, a := MaxUpTo(s, n), ArgUpTo(s, n);
      || (m == 0 && a == 0)
      || (m > 0 && a < n && s[a] == m && forall j :: 0 <= j < a ==> s[j] < m)
  {
    if n > 0 {
      MaxUpToIsMax(s, n - 1);
    }
  }

  /** When the first entry is non-negative, the final scan settles on an entry that holds the maximum. */
  lemma ArgMaxAttains(s: seq<int>)
    requires |s| >= 1 && s[0] >= 0
    ensures ArgMaxOf(s) < |s| && s[ArgMaxOf(s)] == MaxOf(s)
  {
    MaxOfIsMax(s);
  }

  /** On a non-negative table every score of a 0/1 pattern list stays non-negative. */
  lemma BestNonNegative(als: seq<Alignment>, table: seq<seq<int>>, i: nat)
    requires Shaped(als, table) && NonNegative(table) && i < |table|
    requires forall k :: 0 <= k < |als| ==> Binary(als[k])
    ensures NonNegativeRow(Best(als, table, i))
  {
    forall b | 0 <= b < |als| ensures Best(als, table, i)[b] >= 0 {
      if i == 0 {
        DotProductNonNegative(als[b], table[0]);
      } else {
        RelaxIsMax(als, Best(als, table, i - 1), table[i], b, |als|);
      }
    }
  }

  /** The score of the all-zero pattern 0 never drops below 0 on a non-negative table. */
  lemma ZeroPatternScoreNonNegative(als: seq<Alignment>, table: seq<seq<int>>, i: nat)
    requires Shaped(als, table) && NonNegative(table) && ZeroFirst(als) && i < |table|
    ensures Best(als, table, i)[0] >= 0
  {
    BestNonNegative(als, table, i);
  }

  /** No stacking of the patterns over rows 0 .. i that ends in pattern b scores more than Best(i)[b]. */
  lemma {:induction false} StackingBoundedByBest(als: seq<Alignment>, table: seq<seq<int>>, sel: seq<Alignment>, b: nat)
    requires Shaped(als, table) && 1 <= |sel| <= |table| && Stacking(als, sel)
    requires b < |als| && als[b] == sel[|sel| - 1] && Fits(sel, table)
    ensures Score(sel, table) <= Best(als, table, |sel| - 1)[b]
  {
    var n := |sel|;
    var t := sel[..n - 1];
    if n > 1 {
      assert Stacking(als, t) by {
        forall k | 1 <= k < |t| ensures StacksAt(t, k) {
          assert StacksAt(sel, k);
        }
      }
      assert sel[n - 2] in als;
      var a :| 0 <= a < |als| && als[a] == sel[n - 2];
      StackingBoundedByBest(als, table, t, a);
      assert StacksAt(sel, n - 1);
      RelaxIsMax(als, Best(als, table, n - 2), table[n - 1], b, |als|);
    }
  }

  lemma SelectSnoc(als: seq<Alignment>, path: seq<nat>, b: nat)
    requires forall k :: 0 <= k < |path| ==> path[k] < |als|
    requires b < |als|
    ensures Select(als, path + [b]) == Select(als, path) + [als[b]]
  {
  }

  /** Appending a pattern that stacks below the last row keeps a stacking a stacking. */
  lemma StackingSnoc(als: seq<Alignment>, sel: seq<Alignment>, x: Alignment)
    requires Stacking(als, sel) && x in als
    requires |sel| >= 1 ==> |sel[|sel| - 1]| <= |x| && DotProduct(sel[|sel| - 1], x) == 0
    ensures Stacking(als, sel + [x])
  {
    var t := sel + [x];
    forall k | 1 <= k < |t| ensures StacksAt(t, k) {
      if k < |sel| {
        assert StacksAt(sel, k);
      }
    }
  }

  lemma PathScoreSnoc(als: seq<Alignment>, table: seq<seq<int>>, path: seq<nat>, b: nat)
    requires Shaped(als, table) && |path| < |table| && b < |als|
    requires forall k :: 0 <= k < |path| ==> path[k] < |als|
    ensures PathScore(als, table, path + [b]) == PathScore(als, table, path) + DotProduct(als[b], table[|path|])
  {
    assert (path + [b])[..|path|] == path;
  }

  /** The loot of a path is the loot of the selection it makes. */
  lemma {:induction false} SelectScore(als: seq<Alignment>, table: seq<seq<int>>, path: seq<nat>)
    requires Shaped(als, table) && |path| <= |table|
    requires forall k :: 0 <= k < |path| ==> path[k] < |als|
    ensures Fits(Select(als, path), table)
    ensures Score(Select(als, path), table) == PathScore(als, table, path)
  {
    SelectFits(als, table, path);
    if |path| > 0 {
      var n := |path| - 1;
      SelectScore(als, table, path[..n]);
      assert Select(als, path)[..n] == Select(als, path[..n]);
    }
  }

  /** Every stacking of the patterns over at most the table's rows fits the table. */
  lemma StackingFits(als: seq<Alignment>, table: seq<seq<int>>, sel: seq<Alignment>)
    requires Shaped(als, table) && Stacking(als, sel) && |sel| <= |table|
    ensures Fits(sel, table)
  {
    forall k | 0 <= k < |sel| ensures |sel[k]| <= |table[k]| {
      assert sel[k] in als;
    }
  }

  /**
   * The recorded predecessor of b is compatible with it; when no candidate
   * beat the reset value 0 it is pattern 0, which is all zeros.
   */
  lemma PredStacks(als: seq<Alignment>, prev: seq<int>, row: seq<int>, b: nat)
    requires HasLength(als, |row|) && |prev| == |als| && b < |als| && ZeroFirst(als)
    ensures var p := Pred(als, prev, row, b, |als|);
      p < |als| && DotProduct(als[p], als[b]) == 0
  {
    RelaxIsMax(als, prev, row, b, |als|);
    ZeroPatternStacksWithAll(als, b);
  }

  /**
   * On a non-negative row, when the all-zero pattern's previous score is
   * non-negative, the recorded predecessor of b accounts exactly for b's new
   * score, even when that is the reset value 0.
   */
  lemma PredAttains(als: seq<Alignment>, prev: seq<int>, row: seq<int>, b: nat)
    requires HasLength(als, |row|) && |prev| == |als| && b < |als|
    requires ZeroFirst(als) && NonNegativeRow(row) && prev[0] >= 0
    ensures var p := Pred(als, prev, row, b, |als|);
      p < |als| && Relax(als, prev, row, b, |als|) == prev[p] + DotProduct(als[b], row)
  {
    RelaxIsMax(als, prev, row, b, |als|);
    if Relax(als, prev, row, b, |als|) == 0 {
      ZeroPatternStacksWithAll(als, b);
      DotProductNonNegative(als[b], row);
    }
  }

  /** On a non-negative table, b's score at row i is its recorded predecessor's score at row i - 1 plus b's gain. */
  lemma BestByPred(als: seq<Alignment>, table: seq<seq<int>>, i: nat, b: nat)
    requires Shaped(als, table) && NonNegative(table) && ZeroFirst(als)
    requires 1 <= i < |table| && b < |als|
    ensures var a := Pred(als, Best(als, table, i - 1), table[i], b, |als|);
      a < |als| && Best(als, table, i)[b] == Best(als, table, i - 1)[a] + DotProduct(als[b], table[i])
  {
    ZeroPatternScoreNonNegative(als, table, i - 1);
    PredAttains(als, Best(als, table, i - 1), table[i], b);
  }

  /** The backward walk from pattern b at row i selects a stacking of the patterns. */
  lemma {:induction false} ReconstructStacks(als: seq<Alignment>, table: seq<seq<int>>, i: nat, b: nat)
    requires Shaped(als, table) && ZeroFirst(als) && i < |table| && b < |als|
    ensures Stacking(als, Select(als, Reconstruct(als, table, i, b)))
  {
    if i == 0 {
      assert Select(als, Reconstruct(als, table, i, b)) == [als[b]];
    } else {
      var prev := Best(als, table, i - 1);
      var a := Pred(als, prev, table[i], b, |als|);
      var path' := Reconstruct(als, table, i - 1, a);
      ReconstructStacks(als, table, i - 1, a);
      SelectSnoc(als, path', b);
      PredStacks(als, prev, table[i], b);
      assert Reconstruct(als, table, i, b) == path' + [b];
      assert Select(als, path')[i - 1] == als[a];
      StackingSnoc(als, Select(als, path'), als[b]);
    }
  }

  /** Any selection of the patterns, one per row, fits the table. */
  lemma SelectFits(als: seq<Alignment>, table: seq<seq<int>>, path: seq<nat>)
    requires Shaped(als, table) && |path| <= |table|
    requires forall k :: 0 <= k < |path| ==> path[k] < |als|
    ensures Fits(Select(als, path), table)
  {
  }

  /** On a non-negative table the backward walk from pattern b at row i scores exactly Best(i)[b]. */
  lemma {:induction false} ReconstructScores(als: seq<Alignment>, table: seq<seq<int>>, i: nat, b: nat)
    requires Shaped(als, table) && NonNegative(table) && ZeroFirst(als)
    requires i < |table| && b < |als|
    ensures PathScore(als, table, Reconstruct(als, table, i, b)) == Best(als, table, i)[b]
  {
    if i > 0 {
      var a := Pred(als, Best(als, table, i - 1), table[i], b, |als|);
      ReconstructScores(als, table, i - 1, a);
      ReconstructPathScore(als, table, i, b, a);
      BestByPred(als, table, i, b);
    }
  }

  /** The walk from b at row i scores the walk from b's predecessor a at row i - 1 plus b's gain in row i. */
  lemma ReconstructPathScore(als: seq<Alignment>, table: seq<seq<int>>, i: nat, b: nat, a: nat)
    requires Shaped(als, table) && 1 <= i < |table| && b < |als|
    requires a == Pred(als, Best(als, table, i - 1), table[i], b, |als|)
    ensures a < |als|
    ensures PathScore(als, table, Reconstruct(als, table, i, b))
      == PathScore(als, table, Reconstruct(als, table, i - 1, a)) + DotProduct(als[b], table[i])
  {
    ReconstructSnoc(als, table, i, b, a);
    PathScoreSnoc(als, table, Reconstruct(als, table, i - 1, a), b);
  }

  lemma ReconstructSnoc(als: seq<Alignment>, table: seq<seq<int>>, i: nat, b: nat, a: nat)
    requires Shaped(als, table) && 1 <= i < |table| && b < |als|
    requires a == Pred(als, Best(als, table, i - 1), table[i], b, |als|)
    ensures a < |als|
    ensures Reconstruct(als, table, i, b) == Reconstruct(als, table, i - 1, a) + [b]
  {
  }

  /**
   * Optimality, upper half: no stacking of the patterns over all rows of the
   * table scores more than the value the dynamic program reports.
   */
  lemma DPUpperBound(als: seq<Alignment>, table: seq<seq<int>>, sel: seq<Alignment>)
    requires Shaped(als, table) && |sel| == |table| && Stacking(als, sel)
    ensures Fits(sel, table)
    ensures Score(sel, table) <= MaxOf(Best(als, table, |table| - 1))
  {
    var R := |table|;
    StackingFits(als, table, sel);
    assert sel[R - 1] in als;
    var b :| 0 <= b < |als| && als[b] == sel[R - 1];
    StackingBoundedByBest(als, table, sel, b);
    MaxOfIsMax(Best(als, table, R - 1));
  }

  /**
   * Optimality, lower half: on a non-negative table the backward walk from
   * the index the final scan settles on is a stacking that scores that value.
   */
  lemma DPAttained(als: seq<Alignment>, table: seq<seq<int>>)
    requires Shaped(als, table) && NonNegative(table) && ZeroFirst(als)
    ensures Stacking(als, Traceback(als, table)) && Fits(Traceback(als, table), table)
    ensures Score(Traceback(als, table), table) == MaxOf(Best(als, table, |table| - 1))
  {
    ZeroPatternScoreNonNegative(als, table, |table| - 1);
    ArgMaxAttains(Best(als, table, |table| - 1));
    TracebackAttains(als, table);
  }

  /** On a non-negative table the traceback is a stacking that scores the final entry it starts from. */
  lemma TracebackAttains(als: seq<Alignment>, table: seq<seq<int>>)
    requires Shaped(als, table) && NonNegative(table) && ZeroFirst(als)
    ensures Stacking(als, Traceback(als, table)) && Fits(Traceback(als, table), table)
    ensures Score(Traceback(als, table), table) == Best(als, table, |table| - 1)[ArgMaxOf(Best(als, table, |table| - 1))]
  {
    WalkAttains(als, table, |table| - 1, ArgMaxOf(Best(als, table, |table| - 1)));
  }

  /** On a non-negative table the backward walk from pattern b at row i is a stacking that scores Best(i)[b]. */
  lemma WalkAttains(als: seq<Alignment>, table: seq<seq<int>>, i: nat, b: nat)
    requires Shaped(als, table) && NonNegative(table) && ZeroFirst(als)
    requires i < |table| && b < |als|
    ensures Stacking(als, Walk(als, table, i, b)) && Fits(Walk(als, table, i, b), table)
    ensures Score(Walk(als, table, i, b), table) == Best(als, table, i)[b]
  {
    var path := Reconstruct(als, table, i, b);
    ReconstructStacks(als, table, i, b);
    ReconstructScores(als, table, i, b);
    SelectScore(als, table, path);
  }

  /** Column k is robbed in both row r - 1 and row r. */
  predicate BothRobbed(sel: seq<Alignment>, r: int, k: int)
    requires 1 <= r < |sel| && 0 <= k < |sel[r - 1]| && k < |sel[r]|
  {
    sel[r - 1][k] == 1 && sel[r][k] == 1
  }

  /**
   * A stacking of valid 0/1 patterns robs no two adjacent houses: none in the
   * same row next to each other, none in consecutive rows in the same column.
   */
  lemma StackingIsIndependent(als: seq<Alignment>, sel: seq<Alignment>)
    requires forall k :: 0 <= k < |als| ==> Binary(als[k]) && NoAdjacentOnes(als[k])
    requires Stacking(als, sel)
    ensures forall r, k :: 0 <= r < |sel| && 1 <= k < |sel[r]| ==> !OnesAt(sel[r], k)
    ensures forall r, k :: 1 <= r < |sel| && 0 <= k < |sel[r - 1]| && k < |sel[r]| ==>
      !BothRobbed(sel, r, k)
  {
    forall r, k | 0 <= r < |sel| && 1 <= k < |sel[r]| ensures !OnesAt(sel[r], k) {
      assert sel[r] in als;
    }
    forall r, k | 1 <= r < |sel| && 0 <= k < |sel[r - 1]| && k < |sel[r]|
      ensures !BothRobbed(sel, r, k)
    {
      assert sel[r] in als && sel[r - 1] in als;
      assert StacksAt(sel, r);
      ZeroDotMeansDisjoint(sel[r - 1], sel[r]);
    }
  }

  /**
   * The patterns both solvers work with: those generate_alignments emits for
   * C columns. They all have C columns, and for C >= 1 pattern 0 is all zeros.
   */
  function Patterns(C: nat): (als: seq<Alignment>)
    ensures HasLength(als, C)
    ensures forall k :: 0 <= k < |als| ==> Binary(als[k]) && NoAdjacentOnes(als[k])
    ensures C >= 1 ==> ZeroFirst(als)
  {
    EmittedWellFormed(C, C * C);
    if C >= 1 then EmittedStartsWithZeros(C, C * C); Emitted(C, C * C)
    else Emitted(C, C * C)
  }

  /**
   * The pattern list generate_alignments evidently means to build: its comment
   * counts 2^C states, while the code runs the counter only C * C times.
   */
  function CorrectedPatterns(C: nat): (als: seq<Alignment>)
    ensures HasLength(als, C) && ZeroFirst(als)
    ensures forall k :: 0 <= k < |als| ==> Binary(als[k]) && NoAdjacentOnes(als[k])
  {
    EmittedWellFormed(C, Pow2(C));
    EmittedStartsWithZeros(C, Pow2(C));
    Emitted(C, Pow2(C))
  }

  /**
   * With the corrected pattern list the dynamic program is optimal over every
   * choice of houses with no two robbed neighbours in a row or a column: no
   * such choice scores more than its answer, and on a non-negative table the
   * traceback is such a choice and scores exactly that.
   */
  lemma CorrectedDPOptimal(table: seq<seq<int>>, sel: seq<Alignment>)
    requires |table| >= 1 && forall r :: 0 <= r < |table| ==> |table[r]| == |table[0]|
    requires |sel| == |table|
    requires forall k :: 0 <= k < |sel| ==> |sel[k]| == |table[0]| && Binary(sel[k]) && NoAdjacentOnes(sel[k])
    requires forall k :: 1 <= k < |sel| ==> DotProduct(sel[k - 1], sel[k]) == 0
    ensures Shaped(CorrectedPatterns(|table[0]|), table) && Fits(sel, table)
    ensures Score(sel, table) <= MaxOf(Best(CorrectedPatterns(|table[0]|), table, |table| - 1))
    ensures NonNegative(table) ==>
      && Stacking(CorrectedPatterns(|table[0]|), Traceback(CorrectedPatterns(|table[0]|), table))
      && Fits(Traceback(CorrectedPatterns(|table[0]|), table), table)
      && Score(Traceback(CorrectedPatterns(|table[0]|), table), table)
         == MaxOf(Best(CorrectedPatterns(|table[0]|), table, |table| - 1))
  {
    var C := |table[0]|;
    var als := CorrectedPatterns(C);
    forall k | 0 <= k < |sel|
      ensures sel[k] in als
    {
      EmittedComplete(C, Pow2(C), sel[k]);
    }
    assert Stacking(als, sel);
    DPUpperBound(als, table, sel);
    if NonNegative(table) {
      DPAttained(als, table);
    }
  }

  // ---------------------------------------------------------------------
  // The solvers

  /** Maximum loot by dynamic programming over the generated patterns. */
  method SolveDP(R: nat, C: nat, table: seq<seq<int>>) returns (maximumValue: int)
    requires R >= 1 && Rectangular(table, R, C)
    ensures maximumValue == MaxOf(Best(Patterns(C), table, R - 1))
    ensures maximumValue >= 0
  {
    var alignments := GenerateAlignments(C);
    var pairs := GenerateAlignmentPairs(alignments);
    assert HasLength(alignments, C);
    maximumValue := ForwardPass(alignments, pairs, table);
  }

  /** The body of SolveDP once the patterns and their pair lists exist. */
  method ForwardPass(alignments: seq<Alignment>, pairs: seq<seq<int>>, table: seq<seq<int>>)
    returns (maximumValue: int)
    requires Shaped(alignments, table) && PairLists(alignments, pairs)
    ensures maximumValue == MaxOf(Best(alignments, table, |table| - 1))
    ensures maximumValue >= 0
  {
    var N := |alignments|;

    // dc collects Step's scores for the row being relaxed; dp holds Best of the row before it
    var dc := new int[N];
    var dp := new int[N];

    ScoreRow(alignments, table[0], dp);
    assert dp[..] == Best(alignments, table, 0);

    var rowScores := new int[N];

    // one Step per row after the first
    for i := 1 to |table|
      invariant dp[..] == Best(alignments, table, i - 1)
    {
      ProcessRow(alignments, pairs, table[i], dp, rowScores, dc);
    }

    maximumValue := MaxEntry(dp);
  }

  /** The first-row loop: dp[j] becomes pattern j's dot product with the row. */
  method ScoreRow(als: seq<Alignment>, row: seq<int>, scores: array<int>)
    requires HasLength(als, |row|) && scores.Length == |als|
    modifies scores
    ensures scores[..] == Scores(als, row)
  {
    for j := 0 to |als|
      invariant forall k :: 0 <= k < j ==> scores[k] == DotProduct(als[k], row)
    {
      scores[j] := Dot(als[j], row);
    }
  }

  /** The final scan of SolveDP: the largest entry of dp, or 0 when none is positive. */
  method MaxEntry(dp: array<int>) returns (maximumValue: int)
    ensures maximumValue == MaxOf(dp[..])
    ensures maximumValue >= 0 && forall j :: 0 <= j < dp.Length ==> dp[j] <= maximumValue
    ensures maximumValue == 0 || exists j :: 0 <= j < dp.Length && dp[j] == maximumValue
  {
    maximumValue := 0;
    for j := 0 to dp.Length
      invariant maximumValue == MaxUpTo(dp[..], j)
    {
      if dp[j] > maximumValue {
        maximumValue := dp[j];
      }
    }
    MaxOfIsMax(dp[..]);
  }

  /**
   * One iteration of the row loop: score the row, reset dc, relax every
   * compatible pair and copy dc back into dp, which then holds the next scores.
   */
  method ProcessRow(
    als: seq<Alignment>, pairs: seq<seq<int>>, row: seq<int>,
    dp: array<int>, rowScores: array<int>, dc: array<int>)
    requires HasLength(als, |row|) && PairLists(als, pairs)
    requires dp.Length == rowScores.Length == dc.Length == |als|
    requires dc != dp && dc != rowScores && dp != rowScores
    modifies dp, rowScores, dc
    ensures dp[..] == Step(als, old(dp[..]), row)
  {
    var N := |als|;
    for j := 0 to N
      modifies rowScores, dc
      invariant forall k :: 0 <= k < j ==> rowScores[k] == DotProduct(als[k], row) && dc[k] == 0
    {
      rowScores[j] := Dot(als[j], row);
      dc[j] := 0;
    }

    ghost var prev := dp[..];
    assert prev == old(dp[..]);
    RelaxRows(als, pairs, prev, row, dp, rowScores, dc);

    // dp takes over the new row's scores, so dp[..] becomes Step(prev, row)
    for j := 0 to N
      modifies dp
      invariant forall k :: 0 <= k < j ==> dp[k] == dc[k]
    {
      dp[j] := dc[j];
    }
    assert dp[..] == Step(als, prev, row);
  }

  /**
   * The relaxation loop of one row: for every a in increasing order and every
   * b in pairs[a], raise dc[b] to dp[a] + rowScores[b] when that is strictly greater.
   */
  method RelaxRows(
    als: seq<Alignment>, pairs: seq<seq<int>>, ghost prev: seq<int>, ghost row: seq<int>,
    dp: array<int>, rowScores: array<int>, dc: array<int>)
    requires HasLength(als, |row|) && PairLists(als, pairs) && |prev| == |als|
    requires dp.Length == rowScores.Length == dc.Length == |als|
    requires dc != dp && dc != rowScores
    requires dp[..] == prev
    requires forall b :: 0 <= b < |als| ==> rowScores[b] == DotProduct(als[b], row) && dc[b] == 0
    modifies dc
    ensures forall b :: 0 <= b < |als| ==> dc[b] == Relax(als, prev, row, b, |als|)
  {
    var N := |als|;
    for a := 0 to N
      invariant forall b :: 0 <= b < N ==> dc[b] == Relax(als, prev, row, b, a)
    {
      RelaxFrom(als, pairs[a], prev, row, a, dp, rowScores, dc);
      forall b | 0 <= b < N ensures dc[b] == Relax(als, prev, row, b, a + 1) {
        if b !in pairs[a] {
          RelaxSkip(als, pairs, prev, row, b, a);
        }
      }
    }
  }

  /**
   * The inner relaxation loop for one predecessor a: for each b in its
   * increasing pair list, in order, raise dc[b] to dp[a] + rowScores[b] when
   * that is strictly greater. Entries for other patterns are left alone.
   */
  method RelaxFrom(
    als: seq<Alignment>, list: seq<int>, ghost prev: seq<int>, ghost row: seq<int>, a: nat,
    dp: array<int>, rowScores: array<int>, dc: array<int>)
    requires HasLength(als, |row|) && |prev| == |als| && a < |als|
    requires forall m :: 0 <= m < |list| ==> 0 <= list[m] < |als| && DotProduct(als[a], als[list[m]]) == 0
    requires StrictlyIncreasing(list)
    requires dp.Length == rowScores.Length == dc.Length == |als|
    requires dc != dp && dc != rowScores
    requires dp[..] == prev
    requires forall b :: 0 <= b < |als| ==> rowScores[b] == DotProduct(als[b], row) && dc[b] == Relax(als, prev, row, b, a)
    modifies dc
    ensures forall b :: 0 <= b < |als| && b in list ==> dc[b] == Relax(als, prev, row, b, a + 1)
    ensures forall b :: 0 <= b < |als| && b !in list ==> dc[b] == old(dc[b])
  {
    for k := 0 to |list|
      invariant forall b :: 0 <= b < |als| && b in list[..k] ==> dc[b] == Relax(als, prev, row, b, a + 1)
      invariant forall b :: 0 <= b < |als| && b !in list[..k] ==> dc[b] == old(dc[b])
    {
      var b := list[k];
      NextIsNew(list, k);
      RelaxStep(als, prev, row, b, a);
      var c := dp[a] + rowScores[b];
      if c > dc[b] {
        dc[b] := c;
      }
    }
    assert list[..|list|] == list;
  }

  /** Maximum loot and one optimal pattern per row, by dynamic programming with predecessors. */
  method SolveDP2(R: nat, C: nat, table: seq<seq<int>>) returns (c: int, final: seq<Alignment>, err: Option<string>)
    requires R >= 1 && C >= 1 && Rectangular(table, R, C)
    ensures c == MaxOf(Best(Patterns(C), table, R - 1))
    ensures final == Traceback(Patterns(C), table)
    ensures err == None
    ensures NonNegative(table) ==> Stacking(Patterns(C), final) && Fits(final, table) && Score(final, table) == c
  {
    var alignments := GenerateAlignments(C);
    var pairs := GenerateAlignmentPairs(alignments);
    assert HasLength(alignments, C);
    c, final := TracebackPass(alignments, pairs, table);
    err := None;
    if NonNegative(table) {
      DPAttained(alignments, table);
    }
  }

  /** The body of SolveDP2 once the patterns and their pair lists exist. */
  method TracebackPass(alignments: seq<Alignment>, pairs: seq<seq<int>>, table: seq<seq<int>>)
    returns (c: int, final: seq<Alignment>)
    requires Shaped(alignments, table) && PairLists(alignments, pairs) && |alignments| >= 1
    ensures c == MaxOf(Best(alignments, table, |table| - 1))
    ensures final == Traceback(alignments, table)
  {
    var dp, p := ForwardPassTracked(alignments, pairs, table);
    var a;
    c, a := BestEntry(dp);
    final := WalkFrom(alignments, table, p, a);
  }

  /** The backward walk over the recorded table p yields the model's walk from pattern a. */
  method WalkFrom(als: seq<Alignment>, table: seq<seq<int>>, p: seq<seq<int>>, a: int) returns (final: seq<Alignment>)
    requires Shaped(als, table) && PredTable(als, table, p) && 0 <= a < |als|
    ensures final == Walk(als, table, |table| - 1, a)
  {
    ghost var path := Reconstruct(als, table, |table| - 1, a);
    ReconstructWalkable(als, table, p, a);
    final := WalkBack(als, p, a, path);
  }

  /** The forward pass of SolveDP2: the row loop of SolveDP that also fills the predecessor table p. */
  method ForwardPassTracked(alignments: seq<Alignment>, pairs: seq<seq<int>>, table: seq<seq<int>>)
    returns (dp: array<int>, p: seq<seq<int>>)
    requires Shaped(alignments, table) && PairLists(alignments, pairs)
    ensures dp[..] == Best(alignments, table, |table| - 1)
    ensures PredTable(alignments, table, p)
  {
    var N := |alignments|;
    p := seq(|table|, _ => []);

    var dc := new int[N];
    dp := new int[N];

    ScoreRow(alignments, table[0], dp);
    assert dp[..] == Best(alignments, table, 0);

    var rowScores := new int[N];

    for i := 1 to |table|
      invariant dp[..] == Best(alignments, table, i - 1)
      invariant PredRows(alignments, table, p, i)
    {
      var pi := new int[N](_ => 0);
      ProcessRowTracked(alignments, pairs, table[i], dp, rowScores, dc, pi);
      PredRowsStep(alignments, table, p, i, pi[..]);
      p := p[i := pi[..]];
    }
  }

  /** One iteration of SolveDP2's row loop: ProcessRow that also records, in pi, each pattern's predecessor. */
  method ProcessRowTracked(
    als: seq<Alignment>, pairs: seq<seq<int>>, row: seq<int>,
    dp: array<int>, rowScores: array<int>, dc: array<int>, pi: array<int>)
    requires HasLength(als, |row|) && PairLists(als, pairs)
    requires dp.Length == rowScores.Length == dc.Length == pi.Length == |als|
    requires dc != dp && dc != rowScores && dp != rowScores
    requires pi != dp && pi != rowScores && pi != dc
    requires forall b :: 0 <= b < |als| ==> pi[b] == 0
    modifies dp, rowScores, dc, pi
    ensures dp[..] == Step(als, old(dp[..]), row)
    ensures pi[..] == Preds(als, old(dp[..]), row)
  {
    var N := |als|;
    for j := 0 to N
      modifies rowScores, dc
      invariant forall k :: 0 <= k < j ==> rowScores[k] == DotProduct(als[k], row) && dc[k] == 0
    {
      rowScores[j] := Dot(als[j], row);
      dc[j] := 0;
    }

    ghost var prev := dp[..];
    assert prev == old(dp[..]);
    RelaxRowsTracked(als, pairs, prev, row, dp, rowScores, dc, pi);

    for j := 0 to N
      modifies dp
      invariant forall k :: 0 <= k < j ==> dp[k] == dc[k]
    {
      dp[j] := dc[j];
    }
    assert dp[..] == Step(als, prev, row);
    assert pi[..] == Preds(als, prev, row);
  }

  /** The relaxation loop of SolveDP2: RelaxRows that also sets pi[b] := a whenever dc[b] improves. */
  method RelaxRowsTracked(
    als: seq<Alignment>, pairs: seq<seq<int>>, ghost prev: seq<int>, ghost row: seq<int>,
    dp: array<int>, rowScores: array<int>, dc: array<int>, pi: array<int>)
    requires HasLength(als, |row|) && PairLists(als, pairs) && |prev| == |als|
    requires dp.Length == rowScores.Length == dc.Length == pi.Length == |als|
    requires dc != dp && dc != rowScores && pi != dp && pi != rowScores && pi != dc
    requires dp[..] == prev
    requires forall b :: 0 <= b < |als| ==> rowScores[b] == DotProduct(als[b], row) && dc[b] == 0 && pi[b] == 0
    modifies dc, pi
    ensures forall b :: 0 <= b < |als| ==>
      dc[b] == Relax(als, prev, row, b, |als|) && pi[b] == Pred(als, prev, row, b, |als|)
  {
    var N := |als|;
    for a := 0 to N
      invariant forall b :: 0 <= b < N ==>
        dc[b] == Relax(als, prev, row, b, a) && pi[b] == Pred(als, prev, row, b, a)
    {
      RelaxFromTracked(als, pairs[a], prev, row, a, dp, rowScores, dc, pi);
      forall b | 0 <= b < N
        ensures dc[b] == Relax(als, prev, row, b, a + 1) && pi[b] == Pred(als, prev, row, b, a + 1)
      {
        if b !in pairs[a] {
          RelaxSkip(als, pairs, prev, row, b, a);
        }
      }
    }
  }

  /** The inner relaxation loop of SolveDP2 for one predecessor a. */
  method RelaxFromTracked(
    als: seq<Alignment>, list: seq<int>, ghost prev: seq<int>, ghost row: seq<int>, a: nat,
    dp: array<int>, rowScores: array<int>, dc: array<int>, pi: array<int>)
    requires HasLength(als, |row|) && |prev| == |als| && a < |als|
    requires forall m :: 0 <= m < |list| ==> 0 <= list[m] < |als| && DotProduct(als[a], als[list[m]]) == 0
    requires StrictlyIncreasing(list)
    requires dp.Length == rowScores.Length == dc.Length == pi.Length == |als|
    requires dc != dp && dc != rowScores && pi != dp && pi != rowScores && pi != dc
    requires dp[..] == prev
    requires forall b :: 0 <= b < |als| ==>
      rowScores[b] == DotProduct(als[b], row) && dc[b] == Relax(als, prev, row, b, a) && pi[b] == Pred(als, prev, row, b, a)
    modifies dc, pi
    ensures forall b :: 0 <= b < |als| && b in list ==>
      dc[b] == Relax(als, prev, row, b, a + 1) && pi[b] == Pred(als, prev, row, b, a + 1)
    ensures forall b :: 0 <= b < |als| && b !in list ==> dc[b] == old(dc[b]) && pi[b] == old(pi[b])
  {
    for k := 0 to |list|
      invariant forall b :: 0 <= b < |als| && b in list[..k] ==>
        dc[b] == Relax(als, prev, row, b, a + 1) && pi[b] == Pred(als, prev, row, b, a + 1)
      invariant forall b :: 0 <= b < |als| && b !in list[..k] ==> dc[b] == old(dc[b]) && pi[b] == old(pi[b])
    {
      var b := list[k];
      NextIsNew(list, k);
      RelaxStep(als, prev, row, b, a);
      var c := dp[a] + rowScores[b];
      if c > dc[b] {
        dc[b] := c;
        pi[b] := a;
      }
    }
    assert list[..|list|] == list;
  }

  /** SolveDP2's final scan: the best score and the first pattern holding it, or 0 and 0 when none is positive. */
  method BestEntry(dp: array<int>) returns (c: int, a: int)
    ensures c == MaxOf(dp[..]) && a == ArgMaxOf(dp[..])
  {
    a, c := 0, 0;
    for j := 0 to dp.Length
      invariant c == MaxUpTo(dp[..], j) && a == ArgUpTo(dp[..], j)
    {
      if dp[j] > c {
        c := dp[j];
        a := j;
      }
    }
  }

  /** Each entry of a path of pattern indices is the entry p records for its successor. */
  predicate Linked(p: seq<seq<int>>, path: seq<nat>) {
    && |path| <= |p|
    && forall k :: 1 <= k < |path| ==> path[k] < |p[k]| && path[k - 1] == p[k][path[k]]
  }

  /** The backward walk of the model is linked by the table SolveDP2 fills. */
  lemma {:induction false} ReconstructLinked(als: seq<Alignment>, table: seq<seq<int>>, p: seq<seq<int>>, i: nat, b: nat)
    requires Shaped(als, table) && PredTable(als, table, p) && i < |table| && b < |als|
    ensures Linked(p, Reconstruct(als, table, i, b))
  {
    if i > 0 {
      var a := Pred(als, Best(als, table, i - 1), table[i], b, |als|);
      var path' := Reconstruct(als, table, i - 1, a);
      ReconstructLinked(als, table, p, i - 1, a);
      PredTableAt(als, table, p, i, b);
      var path := path' + [b];
      assert Reconstruct(als, table, i, b) == path;
      forall k | 1 <= k < |path| ensures path[k] < |p[k]| && path[k - 1] == p[k][path[k]] {
        if k < i {
          assert path[k - 1] == path'[k - 1] && path[k] == path'[k];
        }
      }
    }
  }

  /** What WalkBack needs of the path it follows: it ends in a, stays within als and is linked by p. */
  predicate Walkable(als: seq<Alignment>, p: seq<seq<int>>, a: int, path: seq<nat>) {
    && |path| == |p| >= 1 && path[|path| - 1] == a && Linked(p, path)
    && forall k :: 0 <= k < |path| ==> path[k] < |als|
  }

  lemma ReconstructWalkable(als: seq<Alignment>, table: seq<seq<int>>, p: seq<seq<int>>, a: nat)
    requires Shaped(als, table) && PredTable(als, table, p) && a < |als|
    ensures Walkable(als, p, a, Reconstruct(als, table, |table| - 1, a))
  {
    ReconstructLinked(als, table, p, |table| - 1, a);
  }

  /** Row k of p holds, at y, the predecessor Pred records for pattern y at row k. */
  lemma PredTableAt(als: seq<Alignment>, table: seq<seq<int>>, p: seq<seq<int>>, k: nat, y: nat)
    requires Shaped(als, table) && PredTable(als, table, p) && 1 <= k < |table| && y < |als|
    ensures y < |p[k]| && p[k][y] == Pred(als, Best(als, table, k - 1), table[k], y, |als|)
  {
    assert p[k] == Preds(als, Best(als, table, k - 1), table[k]);
  }

  /** SolveDP2's backward walk: follow the recorded predecessors from pattern a in the last row up to row 0. */
  method WalkBack(als: seq<Alignment>, p: seq<seq<int>>, a: int, ghost path: seq<nat>) returns (final: seq<Alignment>)
    requires Walkable(als, p, a, path)
    ensures final == Select(als, path)
  {
    var R := |p|;
    var rows := new Alignment[R](_ => []);
    var b := a;
    var i := R - 1;
    while i > 0
      invariant 0 <= i < R && b == path[i]
      invariant forall k :: i < k < R ==> rows[k] == als[path[k]]
    {
      rows[i] := als[b];
      b := p[i][b];
      i := i - 1;
    }
    rows[0] := als[b];
    final := rows[..];
  }
}
