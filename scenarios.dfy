/**
 * The tables of hr2d/hr2d_test.go, worked through the model: the dynamic
 * programme (SolveDP, SolveDP2) and the flow sweep (SolveFlow) on the 2 x 2
 * and 3 x 3 examples, and a table on which the two solvers disagree.
 */
module Scenarios {
  import opened Align
  import opened RowDP
  import Flow

  /** A two-column dot product written out. */
  lemma DotTwo(a: seq<int>, v: seq<int>)
    requires |a| == 2 <= |v|
    ensures DotProduct(a, v) == v[0] * a[0] + v[1] * a[1]
  {
    assert DotUpTo(a, v, 1) == v[0] * a[0];
  }

  /** With two columns the counter runs through all four states and keeps three. */
  lemma TwoColumnPatterns()
    ensures Patterns(2) == [[0, 0], [1, 0], [0, 1]]
  {
    assert Counter(0, 2) == [0, 0] && Counter(1, 2) == [1, 0];
    assert Counter(2, 2) == [0, 1] && Counter(3, 2) == [1, 1];
    assert Emitted(2, 2) == [[0, 0], [1, 0]];
    assert Emitted(2, 3) == [[0, 0], [1, 0], [0, 1]];
    assert OnesAt([1, 1], 1);
  }

  /** The first row of the 2 x 2 table scored under each two-column pattern. */
  lemma TwoByTwoFirstRow()
    ensures Scores([[0, 0], [1, 0], [0, 1]], [5, 0]) == [0, 5, 0]
  {
    var als: seq<Alignment> := [[0, 0], [1, 0], [0, 1]];
    DotTwo(als[0], [5, 0]);
    DotTwo(als[1], [5, 0]);
    DotTwo(als[2], [5, 0]);
  }

  /** The second row: each pattern's best total with a compatible pattern above it. */
  lemma TwoByTwoSecondRow()
    ensures Step([[0, 0], [1, 0], [0, 1]], [0, 5, 0], [10, 4]) == [5, 10, 9]
    ensures Pred([[0, 0], [1, 0], [0, 1]], [0, 5, 0], [10, 4], 1, 3) == 0
  {
    var als: seq<Alignment> := [[0, 0], [1, 0], [0, 1]];
    var prev, row := [0, 5, 0], [10, 4];
    forall a, b | 0 <= a < 3 && 0 <= b < 3
      ensures DotProduct(als[a], row) == row[0] * als[a][0] + row[1] * als[a][1]
      ensures DotProduct(als[a], als[b]) == als[b][0] * als[a][0] + als[b][1] * als[a][1]
    {
      DotTwo(als[a], row);
      DotTwo(als[a], als[b]);
    }
    assert Relax(als, prev, row, 0, 3) == 5;
    assert Relax(als, prev, row, 1, 3) == 10;
    assert Relax(als, prev, row, 2, 3) == 9;
  }

  /** Test2DP and Test2Align: the 2 x 2 table scores 10. */
  lemma TwoByTwoDP()
    ensures Shaped(Patterns(2), [[5, 0], [10, 4]])
    ensures Best(Patterns(2), [[5, 0], [10, 4]], 1) == [5, 10, 9]
    ensures MaxOf(Best(Patterns(2), [[5, 0], [10, 4]], 1)) == 10
  {
    TwoColumnPatterns();
    TwoByTwoFirstRow();
    TwoByTwoSecondRow();
    var als: seq<Alignment> := [[0, 0], [1, 0], [0, 1]];
    var t := [[5, 0], [10, 4]];
    assert Best(als, t, 0) == [0, 5, 0];
  }

  /** Test2Align: SolveDP2 reports the empty pattern above the pattern robbing house (1, 0). */
  lemma TwoByTwoTraceback()
    ensures Traceback(Patterns(2), [[5, 0], [10, 4]]) == [[0, 0], [1, 0]]
  {
    TwoColumnPatterns();
    TwoByTwoDP();
    var als: seq<Alignment> := [[0, 0], [1, 0], [0, 1]];
    var t := [[5, 0], [10, 4]];
    TwoByTwoFirstRow();
    TwoByTwoSecondRow();
    assert Best(als, t, 0) == [0, 5, 0];
    assert ArgMaxOf([5, 10, 9]) == 1;
    assert Traceback(als, t) == Walk(als, t, 1, 1);
    assert Reconstruct(als, t, 1, 1) == [0, 1];
    assert Select(als, [0, 1]) == [[0, 0], [1, 0]];
  }

  /** A three-column dot product written out. */
  lemma DotThree(a: seq<int>, v: seq<int>)
    requires |a| == 3 <= |v|
    ensures DotProduct(a, v) == v[0] * a[0] + v[1] * a[1] + v[2] * a[2]
  {
    assert DotUpTo(a, v, 1) == v[0] * a[0];
    assert DotUpTo(a, v, 2) == v[0] * a[0] + v[1] * a[1];
  }

  /** The six patterns the three-column generator emits, the empty one twice. */
  const Three: seq<Alignment> := [[0, 0, 0], [1, 0, 0], [0, 1, 0], [0, 0, 1], [1, 0, 1], [0, 0, 0]]

  lemma ThreeColumnPatterns()
    ensures Patterns(3) == Three
  {
    ThreeColumnsRepeatZeros();
  }

  /** The dot products of the six three-column patterns with each other. */
  const ThreeDots: seq<seq<int>> := [[0, 0, 0, 0, 0, 0], [0, 1, 0, 0, 1, 0], [0, 0, 1, 0, 0, 0], [0, 0, 0, 1, 1, 0], [0, 1, 0, 1, 2, 0], [0, 0, 0, 0, 0, 0]]

  /** Which of the six three-column patterns may sit on top of pattern b: a zero entry of ThreeDots. */
  lemma ThreeColumnColumn(b: nat)
    requires b < 6
    ensures forall a :: 0 <= a < 6 ==> DotProduct(Three[a], Three[b]) == ThreeDots[a][b]
  {
    forall a | 0 <= a < 6 ensures DotProduct(Three[a], Three[b]) == ThreeDots[a][b] {
      DotThree(Three[a], Three[b]);
    }
  }

  /** A row scored under each of the six three-column patterns. */
  lemma ScoresThree(row: seq<int>)
    requires |row| == 3
    ensures forall a :: 0 <= a < 6 ==> DotProduct(Three[a], row) == row[0] * Three[a][0] + row[1] * Three[a][1] + row[2] * Three[a][2]
  {
    forall a | 0 <= a < 6
      ensures DotProduct(Three[a], row) == row[0] * Three[a][0] + row[1] * Three[a][1] + row[2] * Three[a][2]
    {
      DotThree(Three[a], row);
    }
  }

  /** The outer rows of the 3 x 3 table scored under each pattern. */
  lemma ThreeByThreeOuterRow()
    ensures Scores(Three, [10, 20, 10]) == [0, 10, 20, 10, 20, 0]
  {
    ScoresThree([10, 20, 10]);
  }

  /** The middle row: each pattern's best total with a compatible pattern above it. */
  lemma ThreeByThreeSecondRow()
    ensures Step(Three, [0, 10, 20, 10, 20, 0], [20, 30, 20]) == [20, 40, 50, 40, 60, 20]
  {
    var s, next := Step(Three, [0, 10, 20, 10, 20, 0], [20, 30, 20]), [20, 40, 50, 40, 60, 20];
    forall b | 0 <= b < 6 ensures s[b] == next[b] {
      ThreeByThreeSecondRowAt(b);
    }
  }

  lemma ThreeByThreeSecondRowAt(b: nat)
    requires b < 6
    ensures Relax(Three, [0, 10, 20, 10, 20, 0], [20, 30, 20], b, 6) == [20, 40, 50, 40, 60, 20][b]
  {
    var prev, row := [0, 10, 20, 10, 20, 0], [20, 30, 20];
    ThreeColumnColumn(b);
    DotThree(Three[b], row);
    if b == 0 {
      assert Relax(Three, prev, row, b, 1) == 0;
      assert Relax(Three, prev, row, b, 2) == 10;
      assert Relax(Three, prev, row, b, 3) == 20;
      assert Relax(Three, prev, row, b, 4) == 20;
      assert Relax(Three, prev, row, b, 5) == 20;
      assert Relax(Three, prev, row, b, 6) == 20;
    } else if b == 1 {
      assert Relax(Three, prev, row, b, 1) == 20;
      assert Relax(Three, prev, row, b, 2) == 20;
      assert Relax(Three, prev, row, b, 3) == 40;
      assert Relax(Three, prev, row, b, 4) == 40;
      assert Relax(Three, prev, row, b, 5) == 40;
      assert Relax(Three, prev, row, b, 6) == 40;
    } else if b == 2 {
      assert Relax(Three, prev, row, b, 1) == 30;
      assert Relax(Three, prev, row, b, 2) == 40;
      assert Relax(Three, prev, row, b, 3) == 40;
      assert Relax(Three, prev, row, b, 4) == 40;
      assert Relax(Three, prev, row, b, 5) == 50;
      assert Relax(Three, prev, row, b, 6) == 50;
    } else if b == 3 {
      assert Relax(Three, prev, row, b, 1) == 20;
      assert Relax(Three, prev, row, b, 2) == 30;
      assert Relax(Three, prev, row, b, 3) == 40;
      assert Relax(Three, prev, row, b, 4) == 40;
      assert Relax(Three, prev, row, b, 5) == 40;
      assert Relax(Three, prev, row, b, 6) == 40;
    } else if b == 4 {
      assert Relax(Three, prev, row, b, 1) == 40;
      assert Relax(Three, prev, row, b, 2) == 40;
      assert Relax(Three, prev, row, b, 3) == 60;
      assert Relax(Three, prev, row, b, 4) == 60;
      assert Relax(Three, prev, row, b, 5) == 60;
      assert Relax(Three, prev, row, b, 6) == 60;
    } else {
      assert Relax(Three, prev, row, b, 1) == 0;
      assert Relax(Three, prev, row, b, 2) == 10;
      assert Relax(Three, prev, row, b, 3) == 20;
      assert Relax(Three, prev, row, b, 4) == 20;
      assert Relax(Three, prev, row, b, 5) == 20;
      assert Relax(Three, prev, row, b, 6) == 20;
    }
  }

  /** The last row, on top of the middle row's totals. */
  lemma ThreeByThreeThirdRow()
    ensures Step(Three, [20, 40, 50, 40, 60, 20], [10, 20, 10]) == [60, 60, 80, 60, 70, 60]
  {
    var s, next := Step(Three, [20, 40, 50, 40, 60, 20], [10, 20, 10]), [60, 60, 80, 60, 70, 60];
    forall b | 0 <= b < 6 ensures s[b] == next[b] {
      ThreeByThreeThirdRowAt(b);
    }
  }

  lemma ThreeByThreeThirdRowAt(b: nat)
    requires b < 6
    ensures Relax(Three, [20, 40, 50, 40, 60, 20], [10, 20, 10], b, 6) == [60, 60, 80, 60, 70, 60][b]
  {
    var prev, row := [20, 40, 50, 40, 60, 20], [10, 20, 10];
    ThreeColumnColumn(b);
    DotThree(Three[b], row);
    if b == 0 {
      assert Relax(Three, prev, row, b, 1) == 20;
      assert Relax(Three, prev, row, b, 2) == 40;
      assert Relax(Three, prev, row, b, 3) == 50;
      assert Relax(Three, prev, row, b, 4) == 50;
      assert Relax(Three, prev, row, b, 5) == 60;
      assert Relax(Three, prev, row, b, 6) == 60;
    } else if b == 1 {
      assert Relax(Three, prev, row, b, 1) == 30;
      assert Relax(Three, prev, row, b, 2) == 30;
      assert Relax(Three, prev, row, b, 3) == 60;
      assert Relax(Three, prev, row, b, 4) == 60;
      assert Relax(Three, prev, row, b, 5) == 60;
      assert Relax(Three, prev, row, b, 6) == 60;
    } else if b == 2 {
      assert Relax(Three, prev, row, b, 1) == 40;
      assert Relax(Three, prev, row, b, 2) == 60;
      assert Relax(Three, prev, row, b, 3) == 60;
      assert Relax(Three, prev, row, b, 4) == 60;
      assert Relax(Three, prev, row, b, 5) == 80;
      assert Relax(Three, prev, row, b, 6) == 80;
    } else if b == 3 {
      assert Relax(Three, prev, row, b, 1) == 30;
      assert Relax(Three, prev, row, b, 2) == 50;
      assert Relax(Three, prev, row, b, 3) == 60;
      assert Relax(Three, prev, row, b, 4) == 60;
      assert Relax(Three, prev, row, b, 5) == 60;
      assert Relax(Three, prev, row, b, 6) == 60;
    } else if b == 4 {
      assert Relax(Three, prev, row, b, 1) == 40;
      assert Relax(Three, prev, row, b, 2) == 40;
      assert Relax(Three, prev, row, b, 3) == 70;
      assert Relax(Three, prev, row, b, 4) == 70;
      assert Relax(Three, prev, row, b, 5) == 70;
      assert Relax(Three, prev, row, b, 6) == 70;
    } else {
      assert Relax(Three, prev, row, b, 1) == 20;
      assert Relax(Three, prev, row, b, 2) == 40;
      assert Relax(Three, prev, row, b, 3) == 50;
      assert Relax(Three, prev, row, b, 4) == 50;
      assert Relax(Three, prev, row, b, 5) == 60;
      assert Relax(Three, prev, row, b, 6) == 60;
    }
  }

  /** The three rows of the 3 x 3 table through the recurrence. */
  lemma ThreeByThreeBest()
    ensures Shaped(Three, [[10, 20, 10], [20, 30, 20], [10, 20, 10]])
    ensures Best(Three, [[10, 20, 10], [20, 30, 20], [10, 20, 10]], 2) == [60, 60, 80, 60, 70, 60]
  {
    var t := [[10, 20, 10], [20, 30, 20], [10, 20, 10]];
    assert HasLength(Three, 3);
    assert Shaped(Three, t);
    ThreeByThreeOuterRow();
    assert Best(Three, t, 0) == [0, 10, 20, 10, 20, 0];
    ThreeByThreeSecondRow();
    assert Best(Three, t, 1) == [20, 40, 50, 40, 60, 20];
    ThreeByThreeThirdRow();
  }

  /** Test3DP and Test3Align: the 3 x 3 table of the header comment scores 80. */
  lemma ThreeByThreeDP()
    ensures Shaped(Patterns(3), [[10, 20, 10], [20, 30, 20], [10, 20, 10]])
    ensures MaxOf(Best(Patterns(3), [[10, 20, 10], [20, 30, 20], [10, 20, 10]], 2)) == 80
  {
    ThreeColumnPatterns();
    ThreeByThreeBest();
    ThreeByThreeLastScan();
  }

  /** The final scan over the last row's totals. */
  lemma ThreeByThreeLastScan()
    ensures MaxOf([60, 60, 80, 60, 70, 60]) == 80
  {
    var s := [60, 60, 80, 60, 70, 60];
    assert MaxUpTo(s, 1) == 60;
    assert MaxUpTo(s, 2) == 60;
    assert MaxUpTo(s, 3) == 80;
    assert MaxUpTo(s, 4) == 80;
    assert MaxUpTo(s, 5) == 80;
  }

  // ---------------------------------------------------------------------
  // SolveFlow on the same tables

  /** One more push of the sweep es, from the grid its first k pushes leave. */
  lemma Then(g: seq<seq<int>>, es: seq<Flow.Edge>, k: nat, h: seq<seq<int>>, fl: int, h': seq<seq<int>>, fl': int)
    requires k < |es| && Flow.After(g, es[..k]) == h && Flow.TotalPushed(g, es[..k]) == fl
    requires |Flow.Push(h, es[k])| == |h'| && forall r :: 0 <= r < |h'| ==> Flow.Push(h, es[k])[r] == h'[r]
    requires fl' == fl + Flow.Pushed(h, es[k])
    ensures Flow.After(g, es[..k + 1]) == h' && Flow.TotalPushed(g, es[..k + 1]) == fl'
  {
    assert Flow.Push(h, es[k]) == h';
    assert es[..k + 1] == es[..k] + [es[k]];
    Flow.Snoc(g, es[..k], es[k]);
  }

  /** The pushes SolveFlow makes on a 2 x 2 table, in order. */
  const TwoByTwoPushes: seq<Flow.Edge> := [Flow.Edge(0, 0, 0, 1), Flow.Edge(0, 0, 1, 0), Flow.Edge(1, 1, 0, 1), Flow.Edge(1, 1, 1, 0)]

  /** Row 0 of the 2 x 2 sweep: its cells from column 0 on, two apart. */
  lemma TwoByTwoRow0()
    ensures Flow.RowFrom(2, 2, 0, 0) == [Flow.Edge(0, 0, 0, 1), Flow.Edge(0, 0, 1, 0)]
  {
    assert Flow.RowFrom(2, 2, 0, 2) == [];
    assert Flow.CellEdges(2, 2, 0, 0) == [Flow.Edge(0, 0, 0, 1), Flow.Edge(0, 0, 1, 0)];
  }

  /** Row 1 of the 2 x 2 sweep: its cells from column 1 on, two apart. */
  lemma TwoByTwoRow1()
    ensures Flow.RowFrom(2, 2, 1, 1) == [Flow.Edge(1, 1, 0, 1), Flow.Edge(1, 1, 1, 0)]
  {
    assert Flow.RowFrom(2, 2, 1, 3) == [];
    assert Flow.CellEdges(2, 2, 1, 1) == [Flow.Edge(1, 1, 0, 1), Flow.Edge(1, 1, 1, 0)];
  }

  /** The 2 x 2 sweep row by row. */
  lemma TwoByTwoSweep()
    ensures Flow.Sweep(2, 2) == TwoByTwoPushes
  {
    TwoByTwoRow0();
    assert Flow.SweepRows(2, 2, 1) == [Flow.Edge(0, 0, 0, 1), Flow.Edge(0, 0, 1, 0)];
    TwoByTwoRow1();
    assert Flow.SweepRows(2, 2, 2) == Flow.SweepRows(2, 2, 1) + Flow.RowFrom(2, 2, 1, 1);
  }

  /** The first 1 pushes of the 2 x 2 sweep. */
  lemma TwoByTwoSteps1(g: seq<seq<int>>)
    requires g == [[5, 0], [10, 4]]
    ensures Flow.After(g, TwoByTwoPushes[..1]) == [[5, 0], [10, 4]]
    ensures Flow.TotalPushed(g, TwoByTwoPushes[..1]) == 0
  {
    assert TwoByTwoPushes[..0] == [];
    Then(g, TwoByTwoPushes, 0, [[5, 0], [10, 4]], 0, [[5, 0], [10, 4]], 0);
  }

  /** The first 2 pushes of the 2 x 2 sweep. */
  lemma TwoByTwoSteps2(g: seq<seq<int>>)
    requires g == [[5, 0], [10, 4]]
    ensures Flow.After(g, TwoByTwoPushes[..2]) == [[0, 0], [5, 4]]
    ensures Flow.TotalPushed(g, TwoByTwoPushes[..2]) == 5
  {
    TwoByTwoSteps1(g);
    Then(g, TwoByTwoPushes, 1, [[5, 0], [10, 4]], 0, [[0, 0], [5, 4]], 5);
  }

  /** The first 3 pushes of the 2 x 2 sweep. */
  lemma TwoByTwoSteps3(g: seq<seq<int>>)
    requires g == [[5, 0], [10, 4]]
    ensures Flow.After(g, TwoByTwoPushes[..3]) == [[0, 0], [5, 4]]
    ensures Flow.TotalPushed(g, TwoByTwoPushes[..3]) == 5
  {
    TwoByTwoSteps2(g);
    Then(g, TwoByTwoPushes, 2, [[0, 0], [5, 4]], 5, [[0, 0], [5, 4]], 5);
  }

  /** The first 4 pushes of the 2 x 2 sweep. */
  lemma TwoByTwoSteps4(g: seq<seq<int>>)
    requires g == [[5, 0], [10, 4]]
    ensures Flow.After(g, TwoByTwoPushes[..4]) == [[0, 0], [1, 0]]
    ensures Flow.TotalPushed(g, TwoByTwoPushes[..4]) == 9
  {
    TwoByTwoSteps3(g);
    Then(g, TwoByTwoPushes, 3, [[0, 0], [5, 4]], 5, [[0, 0], [1, 0]], 9);
  }

  /** Test2Flow: the sweep pushes 9 out of 19, so SolveFlow answers 10. */
  lemma TwoByTwoFlow()
    ensures Flow.GridSum([[5, 0], [10, 4]]) == 19
    ensures Flow.After([[5, 0], [10, 4]], Flow.Sweep(2, 2)) == [[0, 0], [1, 0]]
    ensures Flow.TotalPushed([[5, 0], [10, 4]], Flow.Sweep(2, 2)) == 9
    ensures Flow.GridSum([[5, 0], [10, 4]]) - Flow.TotalPushed([[5, 0], [10, 4]], Flow.Sweep(2, 2)) == 10
  {
    TwoByTwoSweep();
    TwoByTwoSteps4([[5, 0], [10, 4]]);
    assert TwoByTwoPushes[..4] == TwoByTwoPushes;
    TwoByTwoTotal();
  }

  /** The houses of the 2 x 2 table hold 19 in all. */
  lemma TwoByTwoTotal()
    ensures Flow.GridSum([[5, 0], [10, 4]]) == 19
  {
    var g := [[5, 0], [10, 4]];
    assert Flow.RowSum(g[0], 2) == 5;
    assert Flow.SumRows(g, 1) == 5;
    assert Flow.RowSum(g[1], 2) == 14;
    assert Flow.SumRows(g, 2) == 19;
  }

  /** The pushes SolveFlow makes on a 3 x 3 table, in order. */
  const ThreeByThreePushes: seq<Flow.Edge> := [Flow.Edge(0, 0, 0, 1), Flow.Edge(0, 0, 1, 0), Flow.Edge(0, 2, 0, 1), Flow.Edge(0, 2, 1, 2), Flow.Edge(1, 1, 0, 1), Flow.Edge(1, 1, 1, 0), Flow.Edge(1, 1, 1, 2), Flow.Edge(1, 1, 2, 1), Flow.Edge(2, 0, 1, 0), Flow.Edge(2, 0, 2, 1), Flow.Edge(2, 2, 1, 2), Flow.Edge(2, 2, 2, 1)]

  /** Row 0 of the 3 x 3 sweep: its cells from column 0 on, two apart. */
  lemma ThreeByThreeRow0()
    ensures Flow.RowFrom(3, 3, 0, 0) == [Flow.Edge(0, 0, 0, 1), Flow.Edge(0, 0, 1, 0), Flow.Edge(0, 2, 0, 1), Flow.Edge(0, 2, 1, 2)]
  {
    assert Flow.RowFrom(3, 3, 0, 4) == [];
    assert Flow.CellEdges(3, 3, 0, 2) == [Flow.Edge(0, 2, 0, 1), Flow.Edge(0, 2, 1, 2)];
    assert Flow.RowFrom(3, 3, 0, 2) == [Flow.Edge(0, 2, 0, 1), Flow.Edge(0, 2, 1, 2)];
    assert Flow.CellEdges(3, 3, 0, 0) == [Flow.Edge(0, 0, 0, 1), Flow.Edge(0, 0, 1, 0)];
  }

  /** Row 1 of the 3 x 3 sweep: its cells from column 1 on, two apart. */
  lemma ThreeByThreeRow1()
    ensures Flow.RowFrom(3, 3, 1, 1) == [Flow.Edge(1, 1, 0, 1), Flow.Edge(1, 1, 1, 0), Flow.Edge(1, 1, 1, 2), Flow.Edge(1, 1, 2, 1)]
  {
    assert Flow.RowFrom(3, 3, 1, 3) == [];
    assert Flow.CellEdges(3, 3, 1, 1) == [Flow.Edge(1, 1, 0, 1), Flow.Edge(1, 1, 1, 0), Flow.Edge(1, 1, 1, 2), Flow.Edge(1, 1, 2, 1)];
  }

  /** Row 2 of the 3 x 3 sweep: its cells from column 0 on, two apart. */
  lemma ThreeByThreeRow2()
    ensures Flow.RowFrom(3, 3, 2, 0) == [Flow.Edge(2, 0, 1, 0), Flow.Edge(2, 0, 2, 1), Flow.Edge(2, 2, 1, 2), Flow.Edge(2, 2, 2, 1)]
  {
    assert Flow.RowFrom(3, 3, 2, 4) == [];
    assert Flow.CellEdges(3, 3, 2, 2) == [Flow.Edge(2, 2, 1, 2), Flow.Edge(2, 2, 2, 1)];
    assert Flow.RowFrom(3, 3, 2, 2) == [Flow.Edge(2, 2, 1, 2), Flow.Edge(2, 2, 2, 1)];
    assert Flow.CellEdges(3, 3, 2, 0) == [Flow.Edge(2, 0, 1, 0), Flow.Edge(2, 0, 2, 1)];
  }

  /** The 3 x 3 sweep row by row. */
  lemma ThreeByThreeSweep()
    ensures Flow.Sweep(3, 3) == ThreeByThreePushes
  {
    ThreeByThreeRow0();
    assert Flow.SweepRows(3, 3, 1) == [Flow.Edge(0, 0, 0, 1), Flow.Edge(0, 0, 1, 0), Flow.Edge(0, 2, 0, 1), Flow.Edge(0, 2, 1, 2)];
    ThreeByThreeRow1();
    assert Flow.SweepRows(3, 3, 2) == Flow.SweepRows(3, 3, 1) + Flow.RowFrom(3, 3, 1, 1);
    assert Flow.SweepRows(3, 3, 2) == [Flow.Edge(0, 0, 0, 1), Flow.Edge(0, 0, 1, 0), Flow.Edge(0, 2, 0, 1), Flow.Edge(0, 2, 1, 2), Flow.Edge(1, 1, 0, 1), Flow.Edge(1, 1, 1, 0), Flow.Edge(1, 1, 1, 2), Flow.Edge(1, 1, 2, 1)];
    ThreeByThreeRow2();
    assert Flow.SweepRows(3, 3, 3) == Flow.SweepRows(3, 3, 2) + Flow.RowFrom(3, 3, 2, 0);
  }

  /** The first 1 pushes of the 3 x 3 sweep. */
  lemma ThreeByThreeSteps1(g: seq<seq<int>>)
    requires g == [[10, 20, 10], [20, 30, 20], [10, 20, 10]]
    ensures Flow.After(g, ThreeByThreePushes[..1]) == [[0, 10, 10], [20, 30, 20], [10, 20, 10]]
    ensures Flow.TotalPushed(g, ThreeByThreePushes[..1]) == 10
  {
    assert ThreeByThreePushes[..0] == [];
    Then(g, ThreeByThreePushes, 0, [[10, 20, 10], [20, 30, 20], [10, 20, 10]], 0, [[0, 10, 10], [20, 30, 20], [10, 20, 10]], 10);
  }

  /** The first 2 pushes of the 3 x 3 sweep. */
  lemma ThreeByThreeSteps2(g: seq<seq<int>>)
    requires g == [[10, 20, 10], [20, 30, 20], [10, 20, 10]]
    ensures Flow.After(g, ThreeByThreePushes[..2]) == [[0, 10, 10], [20, 30, 20], [10, 20, 10]]
    ensures Flow.TotalPushed(g, ThreeByThreePushes[..2]) == 10
  {
    ThreeByThreeSteps1(g);
    Then(g, ThreeByThreePushes, 1, [[0, 10, 10], [20, 30, 20], [10, 20, 10]], 10, [[0, 10, 10], [20, 30, 20], [10, 20, 10]], 10);
  }

  /** The first 3 pushes of the 3 x 3 sweep. */
  lemma ThreeByThreeSteps3(g: seq<seq<int>>)
    requires g == [[10, 20, 10], [20, 30, 20], [10, 20, 10]]
    ensures Flow.After(g, ThreeByThreePushes[..3]) == [[0, 0, 0], [20, 30, 20], [10, 20, 10]]
    ensures Flow.TotalPushed(g, ThreeByThreePushes[..3]) == 20
  {
    ThreeByThreeSteps2(g);
    Then(g, ThreeByThreePushes, 2, [[0, 10, 10], [20, 30, 20], [10, 20, 10]], 10, [[0, 0, 0], [20, 30, 20], [10, 20, 10]], 20);
  }

  /** The first 4 pushes of the 3 x 3 sweep. */
  lemma ThreeByThreeSteps4(g: seq<seq<int>>)
    requires g == [[10, 20, 10], [20, 30, 20], [10, 20, 10]]
    ensures Flow.After(g, ThreeByThreePushes[..4]) == [[0, 0, 0], [20, 30, 20], [10, 20, 10]]
    ensures Flow.TotalPushed(g, ThreeByThreePushes[..4]) == 20
  {
    ThreeByThreeSteps3(g);
    Then(g, ThreeByThreePushes, 3, [[0, 0, 0], [20, 30, 20], [10, 20, 10]], 20, [[0, 0, 0], [20, 30, 20], [10, 20, 10]], 20);
  }

  /** The first 5 pushes of the 3 x 3 sweep. */
  lemma ThreeByThreeSteps5(g: seq<seq<int>>)
    requires g == [[10, 20, 10], [20, 30, 20], [10, 20, 10]]
    ensures Flow.After(g, ThreeByThreePushes[..5]) == [[0, 0, 0], [20, 30, 20], [10, 20, 10]]
    ensures Flow.TotalPushed(g, ThreeByThreePushes[..5]) == 20
  {
    ThreeByThreeSteps4(g);
    Then(g, ThreeByThreePushes, 4, [[0, 0, 0], [20, 30, 20], [10, 20, 10]], 20, [[0, 0, 0], [20, 30, 20], [10, 20, 10]], 20);
  }

  /** The first 6 pushes of the 3 x 3 sweep. */
  lemma ThreeByThreeSteps6(g: seq<seq<int>>)
    requires g == [[10, 20, 10], [20, 30, 20], [10, 20, 10]]
    ensures Flow.After(g, ThreeByThreePushes[..6]) == [[0, 0, 0], [0, 10, 20], [10, 20, 10]]
    ensures Flow.TotalPushed(g, ThreeByThreePushes[..6]) == 40
  {
    ThreeByThreeSteps5(g);
    Then(g, ThreeByThreePushes, 5, [[0, 0, 0], [20, 30, 20], [10, 20, 10]], 20, [[0, 0, 0], [0, 10, 20], [10, 20, 10]], 40);
  }

  /** The first 7 pushes of the 3 x 3 sweep. */
  lemma ThreeByThreeSteps7(g: seq<seq<int>>)
    requires g == [[10, 20, 10], [20, 30, 20], [10, 20, 10]]
    ensures Flow.After(g, ThreeByThreePushes[..7]) == [[0, 0, 0], [0, 0, 10], [10, 20, 10]]
    ensures Flow.TotalPushed(g, ThreeByThreePushes[..7]) == 50
  {
    ThreeByThreeSteps6(g);
    Then(g, ThreeByThreePushes, 6, [[0, 0, 0], [0, 10, 20], [10, 20, 10]], 40, [[0, 0, 0], [0, 0, 10], [10, 20, 10]], 50);
  }

  /** The first 8 pushes of the 3 x 3 sweep. */
  lemma ThreeByThreeSteps8(g: seq<seq<int>>)
    requires g == [[10, 20, 10], [20, 30, 20], [10, 20, 10]]
    ensures Flow.After(g, ThreeByThreePushes[..8]) == [[0, 0, 0], [0, 0, 10], [10, 20, 10]]
    ensures Flow.TotalPushed(g, ThreeByThreePushes[..8]) == 50
  {
    ThreeByThreeSteps7(g);
    Then(g, ThreeByThreePushes, 7, [[0, 0, 0], [0, 0, 10], [10, 20, 10]], 50, [[0, 0, 0], [0, 0, 10], [10, 20, 10]], 50);
  }

  /** The first 9 pushes of the 3 x 3 sweep. */
  lemma ThreeByThreeSteps9(g: seq<seq<int>>)
    requires g == [[10, 20, 10], [20, 30, 20], [10, 20, 10]]
    ensures Flow.After(g, ThreeByThreePushes[..9]) == [[0, 0, 0], [0, 0, 10], [10, 20, 10]]
    ensures Flow.TotalPushed(g, ThreeByThreePushes[..9]) == 50
  {
    ThreeByThreeSteps8(g);
    Then(g, ThreeByThreePushes, 8, [[0, 0, 0], [0, 0, 10], [10, 20, 10]], 50, [[0, 0, 0], [0, 0, 10], [10, 20, 10]], 50);
  }

  /** The first 10 pushes of the 3 x 3 sweep. */
  lemma ThreeByThreeSteps10(g: seq<seq<int>>)
    requires g == [[10, 20, 10], [20, 30, 20], [10, 20, 10]]
    ensures Flow.After(g, ThreeByThreePushes[..10]) == [[0, 0, 0], [0, 0, 10], [0, 10, 10]]
    ensures Flow.TotalPushed(g, ThreeByThreePushes[..10]) == 60
  {
    ThreeByThreeSteps9(g);
    Then(g, ThreeByThreePushes, 9, [[0, 0, 0], [0, 0, 10], [10, 20, 10]], 50, [[0, 0, 0], [0, 0, 10], [0, 10, 10]], 60);
  }

  /** The first 11 pushes of the 3 x 3 sweep. */
  lemma ThreeByThreeSteps11(g: seq<seq<int>>)
    requires g == [[10, 20, 10], [20, 30, 20], [10, 20, 10]]
    ensures Flow.After(g, ThreeByThreePushes[..11]) == [[0, 0, 0], [0, 0, 0], [0, 10, 0]]
    ensures Flow.TotalPushed(g, ThreeByThreePushes[..11]) == 70
  {
    ThreeByThreeSteps10(g);
    Then(g, ThreeByThreePushes, 10, [[0, 0, 0], [0, 0, 10], [0, 10, 10]], 60, [[0, 0, 0], [0, 0, 0], [0, 10, 0]], 70);
  }

  /** The first 12 pushes of the 3 x 3 sweep. */
  lemma ThreeByThreeSteps12(g: seq<seq<int>>)
    requires g == [[10, 20, 10], [20, 30, 20], [10, 20, 10]]
    ensures Flow.After(g, ThreeByThreePushes[..12]) == [[0, 0, 0], [0, 0, 0], [0, 10, 0]]
    ensures Flow.TotalPushed(g, ThreeByThreePushes[..12]) == 70
  {
    ThreeByThreeSteps11(g);
    Then(g, ThreeByThreePushes, 11, [[0, 0, 0], [0, 0, 0], [0, 10, 0]], 70, [[0, 0, 0], [0, 0, 0], [0, 10, 0]], 70);
  }

  /** Test3Flow: the sweep pushes 70 out of 150, so SolveFlow answers 80. */
  lemma ThreeByThreeFlow()
    ensures Flow.GridSum([[10, 20, 10], [20, 30, 20], [10, 20, 10]]) == 150
    ensures Flow.After([[10, 20, 10], [20, 30, 20], [10, 20, 10]], Flow.Sweep(3, 3)) == [[0, 0, 0], [0, 0, 0], [0, 10, 0]]
    ensures Flow.TotalPushed([[10, 20, 10], [20, 30, 20], [10, 20, 10]], Flow.Sweep(3, 3)) == 70
    ensures Flow.GridSum([[10, 20, 10], [20, 30, 20], [10, 20, 10]]) - Flow.TotalPushed([[10, 20, 10], [20, 30, 20], [10, 20, 10]], Flow.Sweep(3, 3)) == 80
  {
    ThreeByThreeSweep();
    ThreeByThreeSteps12([[10, 20, 10], [20, 30, 20], [10, 20, 10]]);
    assert ThreeByThreePushes[..12] == ThreeByThreePushes;
    ThreeByThreeTotal();
  }

  /** The houses of the 3 x 3 table hold 150 in all. */
  lemma ThreeByThreeTotal()
    ensures Flow.GridSum([[10, 20, 10], [20, 30, 20], [10, 20, 10]]) == 150
  {
    var g := [[10, 20, 10], [20, 30, 20], [10, 20, 10]];
    assert Flow.RowSum(g[0], 3) == 40;
    assert Flow.SumRows(g, 1) == 40;
    assert Flow.RowSum(g[1], 3) == 70;
    assert Flow.SumRows(g, 2) == 110;
    assert Flow.RowSum(g[2], 3) == 40;
    assert Flow.SumRows(g, 3) == 150;
  }

  /** The pushes SolveFlow makes on a 2 x 4 table, in order. */
  const UnevenPushes: seq<Flow.Edge> := [Flow.Edge(0, 0, 0, 1), Flow.Edge(0, 0, 1, 0), Flow.Edge(0, 2, 0, 1), Flow.Edge(0, 2, 0, 3), Flow.Edge(0, 2, 1, 2), Flow.Edge(1, 1, 0, 1), Flow.Edge(1, 1, 1, 0), Flow.Edge(1, 1, 1, 2), Flow.Edge(1, 3, 0, 3), Flow.Edge(1, 3, 1, 2)]

  /** Row 0 of the 2 x 4 sweep: its cells from column 0 on, two apart. */
  lemma UnevenRow0()
    ensures Flow.RowFrom(2, 4, 0, 0) == [Flow.Edge(0, 0, 0, 1), Flow.Edge(0, 0, 1, 0), Flow.Edge(0, 2, 0, 1), Flow.Edge(0, 2, 0, 3), Flow.Edge(0, 2, 1, 2)]
  {
    assert Flow.RowFrom(2, 4, 0, 4) == [];
    assert Flow.CellEdges(2, 4, 0, 2) == [Flow.Edge(0, 2, 0, 1), Flow.Edge(0, 2, 0, 3), Flow.Edge(0, 2, 1, 2)];
    assert Flow.RowFrom(2, 4, 0, 2) == [Flow.Edge(0, 2, 0, 1), Flow.Edge(0, 2, 0, 3), Flow.Edge(0, 2, 1, 2)];
    assert Flow.CellEdges(2, 4, 0, 0) == [Flow.Edge(0, 0, 0, 1), Flow.Edge(0, 0, 1, 0)];
  }

  /** Row 1 of the 2 x 4 sweep: its cells from column 1 on, two apart. */
  lemma UnevenRow1()
    ensures Flow.RowFrom(2, 4, 1, 1) == [Flow.Edge(1, 1, 0, 1), Flow.Edge(1, 1, 1, 0), Flow.Edge(1, 1, 1, 2), Flow.Edge(1, 3, 0, 3), Flow.Edge(1, 3, 1, 2)]
  {
    assert Flow.RowFrom(2, 4, 1, 5) == [];
    assert Flow.CellEdges(2, 4, 1, 3) == [Flow.Edge(1, 3, 0, 3), Flow.Edge(1, 3, 1, 2)];
    assert Flow.RowFrom(2, 4, 1, 3) == [Flow.Edge(1, 3, 0, 3), Flow.Edge(1, 3, 1, 2)];
    assert Flow.CellEdges(2, 4, 1, 1) == [Flow.Edge(1, 1, 0, 1), Flow.Edge(1, 1, 1, 0), Flow.Edge(1, 1, 1, 2)];
  }

  /** The 2 x 4 sweep row by row. */
  lemma UnevenSweep()
    ensures Flow.Sweep(2, 4) == UnevenPushes
  {
    UnevenRow0();
    assert Flow.SweepRows(2, 4, 1) == [Flow.Edge(0, 0, 0, 1), Flow.Edge(0, 0, 1, 0), Flow.Edge(0, 2, 0, 1), Flow.Edge(0, 2, 0, 3), Flow.Edge(0, 2, 1, 2)];
    UnevenRow1();
    assert Flow.SweepRows(2, 4, 2) == Flow.SweepRows(2, 4, 1) + Flow.RowFrom(2, 4, 1, 1);
  }

  /** The first 1 pushes of the 2 x 4 sweep. */
  lemma UnevenSteps1(g: seq<seq<int>>)
    requires g == [[0, 1, 1, 1], [0, 1, 0, 0]]
    ensures Flow.After(g, UnevenPushes[..1]) == [[0, 1, 1, 1], [0, 1, 0, 0]]
    ensures Flow.TotalPushed(g, UnevenPushes[..1]) == 0
  {
    assert UnevenPushes[..0] == [];
    Then(g, UnevenPushes, 0, [[0, 1, 1, 1], [0, 1, 0, 0]], 0, [[0, 1, 1, 1], [0, 1, 0, 0]], 0);
  }

  /** The first 2 pushes of the 2 x 4 sweep. */
  lemma UnevenSteps2(g: seq<seq<int>>)
    requires g == [[0, 1, 1, 1], [0, 1, 0, 0]]
    ensures Flow.After(g, UnevenPushes[..2]) == [[0, 1, 1, 1], [0, 1, 0, 0]]
    ensures Flow.TotalPushed(g, UnevenPushes[..2]) == 0
  {
    UnevenSteps1(g);
    Then(g, UnevenPushes, 1, [[0, 1, 1, 1], [0, 1, 0, 0]], 0, [[0, 1, 1, 1], [0, 1, 0, 0]], 0);
  }

  /** The first 3 pushes of the 2 x 4 sweep. */
  lemma UnevenSteps3(g: seq<seq<int>>)
    requires g == [[0, 1, 1, 1], [0, 1, 0, 0]]
    ensures Flow.After(g, UnevenPushes[..3]) == [[0, 0, 0, 1], [0, 1, 0, 0]]
    ensures Flow.TotalPushed(g, UnevenPushes[..3]) == 1
  {
    UnevenSteps2(g);
    Then(g, UnevenPushes, 2, [[0, 1, 1, 1], [0, 1, 0, 0]], 0, [[0, 0, 0, 1], [0, 1, 0, 0]], 1);
  }

  /** The first 4 pushes of the 2 x 4 sweep. */
  lemma UnevenSteps4(g: seq<seq<int>>)
    requires g == [[0, 1, 1, 1], [0, 1, 0, 0]]
    ensures Flow.After(g, UnevenPushes[..4]) == [[0, 0, 0, 1], [0, 1, 0, 0]]
    ensures Flow.TotalPushed(g, UnevenPushes[..4]) == 1
  {
    UnevenSteps3(g);
    Then(g, UnevenPushes, 3, [[0, 0, 0, 1], [0, 1, 0, 0]], 1, [[0, 0, 0, 1], [0, 1, 0, 0]], 1);
  }

  /** The first 5 pushes of the 2 x 4 sweep. */
  lemma UnevenSteps5(g: seq<seq<int>>)
    requires g == [[0, 1, 1, 1], [0, 1, 0, 0]]
    ensures Flow.After(g, UnevenPushes[..5]) == [[0, 0, 0, 1], [0, 1, 0, 0]]
    ensures Flow.TotalPushed(g, UnevenPushes[..5]) == 1
  {
    UnevenSteps4(g);
    Then(g, UnevenPushes, 4, [[0, 0, 0, 1], [0, 1, 0, 0]], 1, [[0, 0, 0, 1], [0, 1, 0, 0]], 1);
  }

  /** The first 6 pushes of the 2 x 4 sweep. */
  lemma UnevenSteps6(g: seq<seq<int>>)
    requires g == [[0, 1, 1, 1], [0, 1, 0, 0]]
    ensures Flow.After(g, UnevenPushes[..6]) == [[0, 0, 0, 1], [0, 1, 0, 0]]
    ensures Flow.TotalPushed(g, UnevenPushes[..6]) == 1
  {
    UnevenSteps5(g);
    Then(g, UnevenPushes, 5, [[0, 0, 0, 1], [0, 1, 0, 0]], 1, [[0, 0, 0, 1], [0, 1, 0, 0]], 1);
  }

  /** The first 7 pushes of the 2 x 4 sweep. */
  lemma UnevenSteps7(g: seq<seq<int>>)
    requires g == [[0, 1, 1, 1], [0, 1, 0, 0]]
    ensures Flow.After(g, UnevenPushes[..7]) == [[0, 0, 0, 1], [0, 1, 0, 0]]
    ensures Flow.TotalPushed(g, UnevenPushes[..7]) == 1
  {
    UnevenSteps6(g);
    Then(g, UnevenPushes, 6, [[0, 0, 0, 1], [0, 1, 0, 0]], 1, [[0, 0, 0, 1], [0, 1, 0, 0]], 1);
  }

  /** The first 8 pushes of the 2 x 4 sweep. */
  lemma UnevenSteps8(g: seq<seq<int>>)
    requires g == [[0, 1, 1, 1], [0, 1, 0, 0]]
    ensures Flow.After(g, UnevenPushes[..8]) == [[0, 0, 0, 1], [0, 1, 0, 0]]
    ensures Flow.TotalPushed(g, UnevenPushes[..8]) == 1
  {
    UnevenSteps7(g);
    Then(g, UnevenPushes, 7, [[0, 0, 0, 1], [0, 1, 0, 0]], 1, [[0, 0, 0, 1], [0, 1, 0, 0]], 1);
  }

  /** The first 9 pushes of the 2 x 4 sweep. */
  lemma UnevenSteps9(g: seq<seq<int>>)
    requires g == [[0, 1, 1, 1], [0, 1, 0, 0]]
    ensures Flow.After(g, UnevenPushes[..9]) == [[0, 0, 0, 1], [0, 1, 0, 0]]
    ensures Flow.TotalPushed(g, UnevenPushes[..9]) == 1
  {
    UnevenSteps8(g);
    Then(g, UnevenPushes, 8, [[0, 0, 0, 1], [0, 1, 0, 0]], 1, [[0, 0, 0, 1], [0, 1, 0, 0]], 1);
  }

  /** The first 10 pushes of the 2 x 4 sweep. */
  lemma UnevenSteps10(g: seq<seq<int>>)
    requires g == [[0, 1, 1, 1], [0, 1, 0, 0]]
    ensures Flow.After(g, UnevenPushes[..10]) == [[0, 0, 0, 1], [0, 1, 0, 0]]
    ensures Flow.TotalPushed(g, UnevenPushes[..10]) == 1
  {
    UnevenSteps9(g);
    Then(g, UnevenPushes, 9, [[0, 0, 0, 1], [0, 1, 0, 0]], 1, [[0, 0, 0, 1], [0, 1, 0, 0]], 1);
  }

  /** On the 2 x 4 table below the sweep pushes only 1 out of 4, so SolveFlow answers 3. */
  lemma UnevenFlow()
    ensures Flow.GridSum([[0, 1, 1, 1], [0, 1, 0, 0]]) == 4
    ensures Flow.After([[0, 1, 1, 1], [0, 1, 0, 0]], Flow.Sweep(2, 4)) == [[0, 0, 0, 1], [0, 1, 0, 0]]
    ensures Flow.TotalPushed([[0, 1, 1, 1], [0, 1, 0, 0]], Flow.Sweep(2, 4)) == 1
    ensures Flow.GridSum([[0, 1, 1, 1], [0, 1, 0, 0]]) - Flow.TotalPushed([[0, 1, 1, 1], [0, 1, 0, 0]], Flow.Sweep(2, 4)) == 3
  {
    UnevenSweep();
    UnevenSteps10([[0, 1, 1, 1], [0, 1, 0, 0]]);
    assert UnevenPushes[..10] == UnevenPushes;
    UnevenTotal();
  }

  /** The houses of the 2 x 4 table hold 4 in all. */
  lemma UnevenTotal()
    ensures Flow.GridSum([[0, 1, 1, 1], [0, 1, 0, 0]]) == 4
  {
    var g := [[0, 1, 1, 1], [0, 1, 0, 0]];
    assert Flow.RowSum(g[0], 4) == 3;
    assert Flow.SumRows(g, 1) == 3;
    assert Flow.RowSum(g[1], 4) == 1;
    assert Flow.SumRows(g, 2) == 4;
  }

  /**
   * On the 2 x 4 table [[0, 1, 1, 1], [0, 1, 0, 0]] no choice of non-adjacent
   * houses is worth more than 2: two rows of valid patterns that stack score at most 2.
   */
  lemma UnevenSelectionsScoreAtMostTwo(sel: seq<Alignment>)
    requires |sel| == 2 && |sel[0]| == 4 && |sel[1]| == 4
    requires Binary(sel[0]) && Binary(sel[1]) && NoAdjacentOnes(sel[0]) && DotProduct(sel[0], sel[1]) == 0
    ensures Fits(sel, [[0, 1, 1, 1], [0, 1, 0, 0]])
    ensures Score(sel, [[0, 1, 1, 1], [0, 1, 0, 0]]) <= 2
  {
    var t := [[0, 1, 1, 1], [0, 1, 0, 0]];
    var a, b := sel[0], sel[1];
    FlagsDisjoint(a, b);
    assert DotProduct(a, t[0]) == a[1] + a[2] + a[3] by {
      DotFour(a, t[0]);
      assert t[0] == [0, 1, 1, 1];
    }
    assert DotProduct(b, t[1]) == b[1] by {
      DotFour(b, t[1]);
      assert t[1] == [0, 1, 0, 0];
    }
    assert !OnesAt(a, 2) && !OnesAt(a, 3);
    assert a[1] + a[2] + a[3] + b[1] <= 2 by {
      assert a[1] == 0 || a[1] == 1;
      assert a[2] == 0 || a[2] == 1;
      assert a[3] == 0 || a[3] == 1;
      assert b[1] == 0 || b[1] == 1;
    }
    assert sel[..1][..0] == [];
    assert Score(sel[..1], t) == DotProduct(a, t[0]);
    assert Score(sel, t) == Score(sel[..1], t) + DotProduct(b, t[1]);
  }

  /** Two four-column flag rows with dot product 0 do not both set column 1. */
  lemma FlagsDisjoint(a: seq<int>, b: seq<int>)
    requires |a| == 4 && |b| == 4 && Binary(a) && Binary(b) && DotProduct(a, b) == 0
    ensures a[1] == 0 || b[1] == 0
  {
    DotFour(a, b);
    FlagProduct(a[0], b[0]);
    FlagProduct(a[1], b[1]);
    FlagProduct(a[2], b[2]);
    FlagProduct(a[3], b[3]);
  }

  /** The product of two flags is 1 exactly when both are set. */
  lemma FlagProduct(x: int, y: int)
    requires (x == 0 || x == 1) && (y == 0 || y == 1)
    ensures x * y == (if x == 1 && y == 1 then 1 else 0)
  {
    if x == 0 {
      assert x * y == 0;
    } else {
      assert x * y == y;
    }
  }

  /** A four-column dot product written out. */
  lemma DotFour(a: seq<int>, v: seq<int>)
    requires |a| == 4 <= |v|
    ensures DotProduct(a, v) == v[0] * a[0] + v[1] * a[1] + v[2] * a[2] + v[3] * a[3]
  {
    assert DotUpTo(a, v, 1) == v[0] * a[0];
    assert DotUpTo(a, v, 2) == v[0] * a[0] + v[1] * a[1];
    assert DotUpTo(a, v, 3) == v[0] * a[0] + v[1] * a[1] + v[2] * a[2];
  }

  /**
   * On [[0, 1, 1, 1], [0, 1, 0, 0]] SolveDP and SolveDP2 answer exactly 2:
   * no more, since their answer is the score of the stacking SolveDP2 reports,
   * and no less, since robbing houses 1 and 3 of the first row is a stacking.
   */
  lemma UnevenDP()
    ensures Shaped(Patterns(4), [[0, 1, 1, 1], [0, 1, 0, 0]])
    ensures MaxOf(Best(Patterns(4), [[0, 1, 1, 1], [0, 1, 0, 0]], 1)) == 2
  {
    UnevenAnswer(4, [[0, 1, 1, 1], [0, 1, 0, 0]]);
  }

  /** UnevenDP with the column count and the table passed in, so that Patterns(C) is not unfolded. */
  lemma UnevenAnswer(C: nat, t: seq<seq<int>>)
    requires C == 4 && t == [[0, 1, 1, 1], [0, 1, 0, 0]]
    ensures Shaped(Patterns(C), t) && MaxOf(Best(Patterns(C), t, 1)) == 2
  {
    var als := Patterns(C);
    UnevenBest(als, t);
    var top: Alignment, bottom: Alignment := [0, 1, 0, 1], Zeros(4);
    AlternatingIsValid(top);
    PatternsComplete(C, top);
    PatternsComplete(C, bottom);
    UnevenWitness(als, t, top, bottom);
  }

  /** Robbing houses 1 and 3 of four is allowed. */
  lemma AlternatingIsValid(s: seq<int>)
    requires s == [0, 1, 0, 1]
    ensures Binary(s) && NoAdjacentOnes(s)
  {
    assert !OnesAt(s, 1) && !OnesAt(s, 2) && !OnesAt(s, 3);
  }

  /** For 2 to 4 columns the list the solvers use holds every valid pattern. */
  lemma PatternsComplete(C: nat, s: seq<int>)
    requires 2 <= C <= 4 && |s| == C && Binary(s) && NoAdjacentOnes(s)
    ensures s in Patterns(C)
  {
    SquareBoundCompleteFrom2To4(C, s);
  }

  /** The stacking [[0, 1, 0, 1], [0, 0, 0, 0]] scores 2, so the answer is at least 2. */
  lemma UnevenWitness(als: seq<Alignment>, t: seq<seq<int>>, top: Alignment, bottom: Alignment)
    requires HasLength(als, 4) && top in als && bottom in als
    requires top == [0, 1, 0, 1] && bottom == [0, 0, 0, 0]
    requires t == [[0, 1, 1, 1], [0, 1, 0, 0]]
    ensures Shaped(als, t) && MaxOf(Best(als, t, 1)) >= 2
  {
    var sel := [top, bottom];
    assert DotProduct(top, bottom) == 0 by {
      DotFour(top, bottom);
    }
    assert StacksAt(sel, 1);
    assert Stacking(als, sel);
    DPUpperBound(als, t, sel);
    assert DotProduct(top, t[0]) == 2 by {
      DotFour(top, t[0]);
    }
    assert DotProduct(bottom, t[1]) == 0 by {
      DotFour(bottom, t[1]);
    }
    assert sel[..1][..0] == [];
    assert Score(sel[..1], t) == 2;
    assert Score(sel, t) == Score(sel[..1], t) + DotProduct(bottom, t[1]);
  }

  /** The same bound for any list of valid four-column patterns starting with the all-zero one. */
  lemma UnevenBest(als: seq<Alignment>, t: seq<seq<int>>)
    requires HasLength(als, 4) && ZeroFirst(als)
    requires forall k :: 0 <= k < |als| ==> Binary(als[k]) && NoAdjacentOnes(als[k])
    requires t == [[0, 1, 1, 1], [0, 1, 0, 0]]
    ensures Shaped(als, t) && MaxOf(Best(als, t, 1)) <= 2
  {
    assert NonNegative(t) by {
      assert NonNegativeRow(t[0]) && NonNegativeRow(t[1]);
    }
    DPAttained(als, t);
    UnevenTraceback(als, Traceback(als, t));
  }

  /** A two-row stacking of valid four-column patterns on the 2 x 4 table scores at most 2. */
  lemma UnevenTraceback(als: seq<Alignment>, sel: seq<Alignment>)
    requires HasLength(als, 4) && forall k :: 0 <= k < |als| ==> Binary(als[k]) && NoAdjacentOnes(als[k])
    requires |sel| == 2 && Stacking(als, sel)
    ensures Fits(sel, [[0, 1, 1, 1], [0, 1, 0, 0]])
    ensures Score(sel, [[0, 1, 1, 1], [0, 1, 0, 0]]) <= 2
  {
    assert sel[0] in als && sel[1] in als;
    assert StacksAt(sel, 1);
    UnevenSelectionsScoreAtMostTwo(sel);
  }

  /**
   * The two solvers disagree: on [[0, 1, 1, 1], [0, 1, 0, 0]] SolveFlow answers
   * 3, which no choice of non-adjacent houses reaches, while SolveDP and
   * SolveDP2 answer 2.
   */
  lemma FlowDisagreesWithDP()
    ensures Flow.GridSum([[0, 1, 1, 1], [0, 1, 0, 0]]) - Flow.TotalPushed([[0, 1, 1, 1], [0, 1, 0, 0]], Flow.Sweep(2, 4)) == 3
    ensures Shaped(Patterns(4), [[0, 1, 1, 1], [0, 1, 0, 0]])
    ensures MaxOf(Best(Patterns(4), [[0, 1, 1, 1], [0, 1, 0, 0]], 1)) == 2
  {
    UnevenFlow();
    UnevenDP();
  }

  /**
   * The flow bounds need a non-negative table: on [[-1, 2]] the one push,
   * from (0, 0) to (0, 1), returns -1 and changes nothing, so SolveFlow
   * answers 2, more than the total 1.
   */
  lemma NegativeTableBreaksFlowBounds()
    ensures Flow.Sweep(1, 2) == [Flow.Edge(0, 0, 0, 1)]
    ensures Flow.GridSum([[-1, 2]]) == 1
    ensures Flow.After([[-1, 2]], Flow.Sweep(1, 2)) == [[-1, 2]]
    ensures Flow.GridSum([[-1, 2]]) - Flow.TotalPushed([[-1, 2]], Flow.Sweep(1, 2)) == 2
  {
    var e := Flow.Edge(0, 0, 0, 1);
    assert Flow.CellEdges(1, 2, 0, 0) == [e];
    assert Flow.RowFrom(1, 2, 0, 2) == [];
    assert Flow.RowFrom(1, 2, 0, 0) == [e];
    assert Flow.SweepRows(1, 2, 1) == [e];
    assert [e][..0] == [];
    assert Flow.Pushed([[-1, 2]], e) == -1;
    assert Flow.RowSum([-1, 2], 2) == 1;
  }

  // ---------------------------------------------------------------------
  // The C * C loop bound

  /**
   * generate_alignments runs its counter C * C times, not 2^C: with one column
   * it stops before emitting [1], so both dynamic programs answer 0 on the 1 x 1
   * table [[5]], although robbing its one house is allowed and yields 5, which
   * is what SolveFlow answers.
   */
  lemma OneByOneMissesHouse()
    ensures Shaped(Patterns(1), [[5]])
    ensures MaxOf(Best(Patterns(1), [[5]], 0)) == 0
    ensures Binary([1]) && NoAdjacentOnes([1]) && Fits([[1]], [[5]]) && Score([[1]], [[5]]) == 5
    ensures Flow.GridSum([[5]]) - Flow.TotalPushed([[5]], Flow.Sweep(1, 1)) == 5
  {
    OneColumnOmitsSelection();
    var als: seq<Alignment> := [[0]];
    assert Patterns(1) == als;
    assert Best(als, [[5]], 0) == [0];
    assert MaxUpTo([0], 1) == 0;
    assert [[1]][..0] == [];
    assert Flow.RowFrom(1, 1, 0, 2) == [];
    assert Flow.CellEdges(1, 1, 0, 0) == [];
    assert Flow.Sweep(1, 1) == [];
    assert Flow.RowSum([5], 1) == 5;
  }

  /** With the counter run through all 2^1 states the pattern [1] is there and the answer is 5. */
  lemma OneByOneCorrected()
    ensures Shaped(CorrectedPatterns(1), [[5]])
    ensures MaxOf(Best(CorrectedPatterns(1), [[5]], 0)) == 5
  {
    assert Counter(0, 1) == [0];
    assert Counter(1, 1) == [1];
    assert Pow2(1) == 2;
    var als: seq<Alignment> := [[0], [1]];
    assert Emitted(1, 1) == [[0]];
    assert CorrectedPatterns(1) == als;
    assert DotProduct([1], [5]) == 5;
    assert Best(als, [[5]], 0) == [0, 5];
    assert MaxUpTo([0, 5], 1) == 0;
  }
}
