/**
 * The greedy "flow" solver of the 2D house robber (SolveFlow and update_path
 * in hr2d/hr2d.go). The cells with i + j even are swept row by row; each one
 * pushes, towards each in-bounds neighbour in the order up, left, right, down,
 * the smaller of the two current values, which both cells then lose. The
 * answer is the original total minus everything pushed.
 *
 * The sweep is specified as a list of edges (Sweep) and its effect as a left
 * fold over that list (After for the table, TotalPushed for the pushed amount).
 */
module Flow {
  import opened Align

  /** One call update_path(table, i, j, x, y): a push from cell (i, j) to cell (x, y). */
  datatype Edge = Edge(i: int, j: int, x: int, y: int)

  predicate SameShape(a: seq<seq<int>>, b: seq<seq<int>>) {
    |a| == |b| && forall r :: 0 <= r < |a| ==> |a[r]| == |b[r]|
  }

  /** Both cells of the edge lie inside the grid. */
  predicate OnGrid(g: seq<seq<int>>, e: Edge) {
    0 <= e.i < |g| && 0 <= e.j < |g[e.i]| && 0 <= e.x < |g| && 0 <= e.y < |g[e.x]|
  }

  predicate AllOnGrid(g: seq<seq<int>>, es: seq<Edge>) {
    forall k :: 0 <= k < |es| ==> OnGrid(g, es[k])
  }

  /** The two cells of the edge are different. */
  predicate Proper(e: Edge) {
    e.i != e.x || e.j != e.y
  }

  /** The current contents of the table. */
  ghost function Contents(t: array2<int>): (g: seq<seq<int>>)
    reads t
    ensures Rectangular(g, t.Length0, t.Length1)
    ensures forall r, c :: 0 <= r < t.Length0 && 0 <= c < t.Length1 ==> g[r][c] == t[r, c]
  {
    seq(t.Length0, r requires 0 <= r < t.Length0 reads t =>
      seq(t.Length1, c requires 0 <= c < t.Length1 reads t => t[r, c]))
  }

  // ---------------------------------------------------------------------
  // update_path

  /** The blocking flow of a path through values u and v: u, unless v is smaller. */
  function Blocking(u: int, v: int): (f: int)
    ensures f <= u && f <= v && (f == u || f == v)
  {
    if v < u then v else u
  }

  /** What update_path returns for the edge on grid g (an edge off the grid pushes nothing). */
  function Pushed(g: seq<seq<int>>, e: Edge): int {
    if OnGrid(g, e) then Blocking(g[e.i][e.j], g[e.x][e.y]) else 0
  }

  /** Cell (i, j) of g lowered by f. */
  function Lower(g: seq<seq<int>>, i: nat, j: nat, f: int): (r: seq<seq<int>>)
    requires i < |g| && j < |g[i]|
    ensures SameShape(r, g)
  {
    g[i := g[i][j := g[i][j] - f]]
  }

  /**
   * The grid after update_path on the edge: both cells lose the blocking flow
   * when it is positive (an edge off the grid changes nothing).
   */
  function Push(g: seq<seq<int>>, e: Edge): (r: seq<seq<int>>)
    ensures SameShape(r, g)
  {
    var f := Pushed(g, e);
    if OnGrid(g, e) && f > 0 then Lower(Lower(g, e.i, e.j, f), e.x, e.y, f) else g
  }

  /** Two grids of the same shape with the same entries are equal. */
  lemma GridEqual(a: seq<seq<int>>, b: seq<seq<int>>)
    requires SameShape(a, b)
    requires forall r, c :: 0 <= r < |a| && 0 <= c < |a[r]| ==> a[r][c] == b[r][c]
    ensures a == b
  {
    forall r | 0 <= r < |a| ensures a[r] == b[r] {
      assert forall c :: 0 <= c < |a[r]| ==> a[r][c] == b[r][c];
    }
  }

  /** Computes f = min(table[i][j], table[x][y]) and, when f > 0, subtracts it from both cells. */
  method UpdatePath(table: array2<int>, i: nat, j: nat, x: nat, y: nat) returns (f: int)
    requires i < table.Length0 && j < table.Length1 && x < table.Length0 && y < table.Length1
    modifies table
    ensures f == Blocking(old(table[i, j]), old(table[x, y]))
    ensures f == Pushed(old(Contents(table)), Edge(i, j, x, y))
    ensures Contents(table) == Push(old(Contents(table)), Edge(i, j, x, y))
  {
    ghost var g := Contents(table);
    var u := table[i, j];
    var v := table[x, y];

    f := u;
    if v < u {
      f := v;
    }

    if f > 0 {
      table[i, j] := table[i, j] - f;
      table[x, y] := table[x, y] - f;
    }
    ghost var r := Push(g, Edge(i, j, x, y));
    GridEqual(Contents(table), r);
  }

  /** Only the two cells of the edge change, each by exactly the pushed amount when it is positive. */
  lemma PushCells(g: seq<seq<int>>, e: Edge, r: nat, c: nat)
    requires OnGrid(g, e) && Proper(e) && r < |g| && c < |g[r]|
    ensures var f := Pushed(g, e);
      Push(g, e)[r][c] == if f > 0 && ((r == e.i && c == e.j) || (r == e.x && c == e.y)) then g[r][c] - f else g[r][c]
  {
  }

  /**
   * On a non-negative grid update_path pushes a non-negative amount, leaves
   * every cell non-negative and empties at least one of its two cells.
   */
  lemma PushNonNegative(g: seq<seq<int>>, e: Edge)
    requires OnGrid(g, e) && Proper(e) && NonNegative(g)
    ensures Pushed(g, e) >= 0
    ensures NonNegative(Push(g, e))
    ensures Push(g, e)[e.i][e.j] == 0 || Push(g, e)[e.x][e.y] == 0
  {
    var h := Push(g, e);
    forall r, c | 0 <= r < |h| && 0 <= c < |h[r]| ensures h[r][c] >= 0 {
      PushCells(g, e, r, c);
    }
    PushCells(g, e, e.i, e.j);
    PushCells(g, e, e.x, e.y);
  }

  // ---------------------------------------------------------------------
  // Sums

  /** The sum of the first m entries of a row. */
  function RowSum(row: seq<int>, m: nat): int
    requires m <= |row|
  {
    if m == 0 then 0 else RowSum(row, m - 1) + row[m - 1]
  }

  /** The sum of the first n rows. */
  function SumRows(g: seq<seq<int>>, n: nat): int
    requires n <= |g|
  {
    if n == 0 then 0 else SumRows(g, n - 1) + RowSum(g[n - 1], |g[n - 1]|)
  }

  /** GridSum: the sum of every cell of the grid. */
  function GridSum(g: seq<seq<int>>): int {
    SumRows(g, |g|)
  }

  lemma {:induction false} RowSumNonNegative(row: seq<int>, m: nat)
    requires m <= |row| && forall c :: 0 <= c < |row| ==> row[c] >= 0
    ensures RowSum(row, m) >= 0
  {
    if m > 0 {
      RowSumNonNegative(row, m - 1);
    }
  }

  lemma {:induction false} SumRowsNonNegative(g: seq<seq<int>>, n: nat)
    requires n <= |g| && NonNegative(g)
    ensures SumRows(g, n) >= 0
  {
    if n > 0 {
      SumRowsNonNegative(g, n - 1);
      RowSumNonNegative(g[n - 1], |g[n - 1]|);
    }
  }

  /** Lowering entry c of a row by f lowers every prefix sum that covers c by f. */
  lemma {:induction false} RowSumLower(row: seq<int>, c: nat, f: int, m: nat)
    requires c < |row| && m <= |row|
    ensures RowSum(row[c := row[c] - f], m) == RowSum(row, m) - (if c < m then f else 0)
  {
    if m > 0 {
      RowSumLower(row, c, f, m - 1);
    }
  }

  /** Replacing row i changes every prefix sum that covers it by the change of that row's sum. */
  lemma {:induction false} SumRowsReplace(g: seq<seq<int>>, i: nat, row: seq<int>, n: nat)
    requires i < |g| && n <= |g|
    ensures SumRows(g[i := row], n)
      == SumRows(g, n) + (if i < n then RowSum(row, |row|) - RowSum(g[i], |g[i]|) else 0)
  {
    if n > 0 {
      SumRowsReplace(g, i, row, n - 1);
    }
  }

  /** Lowering one cell by f lowers the total by f. */
  lemma LowerSum(g: seq<seq<int>>, i: nat, j: nat, f: int)
    requires i < |g| && j < |g[i]|
    ensures GridSum(Lower(g, i, j, f)) == GridSum(g) - f
  {
    RowSumLower(g[i], j, f, |g[i]|);
    SumRowsReplace(g, i, g[i][j := g[i][j] - f], |g|);
  }

  /** update_path removes twice the amount it reports when that amount is positive, and nothing otherwise. */
  lemma PushSum(g: seq<seq<int>>, e: Edge)
    ensures GridSum(Push(g, e)) == GridSum(g) - (if Pushed(g, e) > 0 then 2 * Pushed(g, e) else 0)
  {
    var f := Pushed(g, e);
    if OnGrid(g, e) && f > 0 {
      LowerSum(g, e.i, e.j, f);
      LowerSum(Lower(g, e.i, e.j, f), e.x, e.y, f);
    }
  }

  // ---------------------------------------------------------------------
  // A sequence of pushes

  /** The grid after the pushes of es, in order. */
  function After(g: seq<seq<int>>, es: seq<Edge>): (r: seq<seq<int>>)
    ensures SameShape(r, g)
  {
    if |es| == 0 then g
    else Push(After(g, es[..|es| - 1]), es[|es| - 1])
  }

  /** The sum of what update_path returns over the pushes of es, in order. */
  function TotalPushed(g: seq<seq<int>>, es: seq<Edge>): int {
    if |es| == 0 then 0
    else TotalPushed(g, es[..|es| - 1]) + Pushed(After(g, es[..|es| - 1]), es[|es| - 1])
  }

  /** One more push extends After and TotalPushed by that push. */
  lemma Snoc(g: seq<seq<int>>, es: seq<Edge>, e: Edge)
    ensures After(g, es + [e]) == Push(After(g, es), e)
    ensures TotalPushed(g, es + [e]) == TotalPushed(g, es) + Pushed(After(g, es), e)
  {
    assert (es + [e])[..|es|] == es;
  }

  /** A guarded push extends After and TotalPushed by that push exactly when its guard holds. */
  lemma SnocMaybe(g: seq<seq<int>>, es: seq<Edge>, guard: bool, e: Edge)
    ensures After(g, es + Maybe(guard, e)) == if guard then Push(After(g, es), e) else After(g, es)
    ensures TotalPushed(g, es + Maybe(guard, e)) == if guard then TotalPushed(g, es) + Pushed(After(g, es), e) else TotalPushed(g, es)
  {
    if guard {
      Snoc(g, es, e);
    } else {
      assert es + Maybe(guard, e) == es;
    }
  }

  /** Pushing es then ds is pushing ds on the grid es leaves. */
  lemma {:induction false} Append(g: seq<seq<int>>, es: seq<Edge>, ds: seq<Edge>)
    ensures After(g, es + ds) == After(After(g, es), ds)
    ensures TotalPushed(g, es + ds) == TotalPushed(g, es) + TotalPushed(After(g, es), ds)
  {
    if |ds| == 0 {
      assert es + ds == es;
    } else {
      var d := ds[|ds| - 1];
      var ds' := ds[..|ds| - 1];
      Append(g, es, ds');
      assert es + ds == (es + ds') + [d];
      Snoc(g, es + ds', d);
      Snoc(After(g, es), ds', d);
    }
  }

  /**
   * On a non-negative grid, pushes along proper edges keep every cell
   * non-negative, push a non-negative total, and remove exactly twice that
   * total from the grid's sum.
   */
  lemma {:induction false} AfterConserves(g: seq<seq<int>>, es: seq<Edge>)
    requires NonNegative(g)
    requires forall k :: 0 <= k < |es| ==> Proper(es[k])
    ensures NonNegative(After(g, es)) && TotalPushed(g, es) >= 0
    ensures GridSum(After(g, es)) == GridSum(g) - 2 * TotalPushed(g, es)
  {
    if |es| > 0 {
      var es' := es[..|es| - 1];
      var e := es[|es| - 1];
      assert forall k :: 0 <= k < |es'| ==> Proper(es'[k]) by {
        forall k | 0 <= k < |es'| ensures Proper(es'[k]) {
          assert es'[k] == es[k];
        }
      }
      AfterConserves(g, es');
      var h := After(g, es');
      if OnGrid(h, e) {
        PushNonNegative(h, e);
      }
      PushSum(h, e);
    }
  }

  // ---------------------------------------------------------------------
  // The sweep of SolveFlow

  /** The pushes from cell (i, j): to its up, left, right and down neighbours that exist, in that order. */
  function CellEdges(R: nat, C: nat, i: nat, j: nat): seq<Edge> {
    Maybe(i > 0, Edge(i, j, i - 1, j))
    + Maybe(j > 0, Edge(i, j, i, j - 1))
    + Maybe(j + 1 < C, Edge(i, j, i, j + 1))
    + Maybe(i + 1 < R, Edge(i, j, i + 1, j))
  }

  /** The push e when the guard holds, and none otherwise. */
  function Maybe(guard: bool, e: Edge): seq<Edge> {
    if guard then [e] else []
  }

  /** The pushes from cells (i, j), (i, j + 2), ... of row i, up to the last column. */
  function RowFrom(R: nat, C: nat, i: nat, j: nat): seq<Edge>
    decreases C - j
  {
    if j >= C then [] else CellEdges(R, C, i, j) + RowFrom(R, C, i, j + 2)
  }

  /** The pushes of rows 0 .. n - 1; row i starts at column i % 2. */
  function SweepRows(R: nat, C: nat, n: nat): seq<Edge> {
    if n == 0 then [] else SweepRows(R, C, n - 1) + RowFrom(R, C, n - 1, (n - 1) % 2)
  }

  /** Every push SolveFlow makes, in order. */
  function Sweep(R: nat, C: nat): seq<Edge> {
    SweepRows(R, C, R)
  }

  /** Row i's sweep starts at the first column j with i + j even, and reaches every later such column. */
  lemma Parity(i: nat, j: nat)
    ensures (i + i % 2) % 2 == 0
    ensures (i + j) % 2 == 0 ==> i % 2 <= j && (j - i % 2) % 2 == 0
  {
  }

  /** Cell (x, y) is a horizontal or vertical neighbour of cell (i, j). */
  predicate Adjacent(e: Edge) {
    || (e.x + 1 == e.i && e.y == e.j) || (e.x == e.i + 1 && e.y == e.j)
    || (e.x == e.i && e.y + 1 == e.j) || (e.x == e.i && e.y == e.j + 1)
  }

  /** The edge starts at a cell with i + j even, inside an R x C grid, and ends at a neighbour inside it. */
  predicate SweepEdge(R: nat, C: nat, e: Edge) {
    0 <= e.i < R && 0 <= e.j < C && 0 <= e.x < R && 0 <= e.y < C && (e.i + e.j) % 2 == 0 && Adjacent(e)
  }

  lemma CellEdgesShape(R: nat, C: nat, i: nat, j: nat)
    requires i < R && j < C && (i + j) % 2 == 0
    ensures forall k :: 0 <= k < |CellEdges(R, C, i, j)| ==> SweepEdge(R, C, CellEdges(R, C, i, j)[k])
  {
  }

  lemma {:induction false} RowFromShape(R: nat, C: nat, i: nat, j: nat)
    requires i < R && (i + j) % 2 == 0
    ensures forall k :: 0 <= k < |RowFrom(R, C, i, j)| ==> SweepEdge(R, C, RowFrom(R, C, i, j)[k])
    decreases C - j
  {
    if j < C {
      CellEdgesShape(R, C, i, j);
      RowFromShape(R, C, i, j + 2);
    }
  }

  lemma {:induction false} SweepRowsShape(R: nat, C: nat, n: nat)
    requires n <= R
    ensures forall k :: 0 <= k < |SweepRows(R, C, n)| ==> SweepEdge(R, C, SweepRows(R, C, n)[k])
  {
    if n > 0 {
      SweepRowsShape(R, C, n - 1);
      Parity(n - 1, 0);
      RowFromShape(R, C, n - 1, (n - 1) % 2);
    }
  }

  /** Every push of the sweep goes from a cell with i + j even to an in-bounds neighbour. */
  lemma SweepShape(R: nat, C: nat)
    ensures forall k :: 0 <= k < |Sweep(R, C)| ==> SweepEdge(R, C, Sweep(R, C)[k])
  {
    SweepRowsShape(R, C, R);
  }

  lemma {:induction false} RowFromContains(R: nat, C: nat, j: nat, e: Edge)
    requires SweepEdge(R, C, e) && j <= e.j && (e.j - j) % 2 == 0
    ensures e in RowFrom(R, C, e.i, j)
    decreases C - j
  {
    if e.j == j {
      assert e in CellEdges(R, C, e.i, j);
    } else {
      RowFromContains(R, C, j + 2, e);
    }
  }

  /** A sweep edge is pushed by the pass over its own row. */
  lemma RowContains(R: nat, C: nat, e: Edge)
    requires SweepEdge(R, C, e)
    ensures e in RowFrom(R, C, e.i, e.i % 2)
  {
    Parity(e.i, e.j);
    RowFromContains(R, C, e.i % 2, e);
  }

  lemma {:induction false} SweepRowsContains(R: nat, C: nat, n: nat, e: Edge)
    requires SweepEdge(R, C, e) && e.i < n
    ensures e in SweepRows(R, C, n)
  {
    if e.i == n - 1 {
      RowContains(R, C, e);
    } else {
      SweepRowsContains(R, C, n - 1, e);
    }
    SweepRowsGrow(R, C, n, e);
  }

  /** The first n rows push every edge the first n - 1 rows push, and every edge row n - 1 pushes. */
  lemma SweepRowsGrow(R: nat, C: nat, n: nat, e: Edge)
    requires 0 < n && (e in SweepRows(R, C, n - 1) || e in RowFrom(R, C, n - 1, (n - 1) % 2))
    ensures e in SweepRows(R, C, n)
  {
  }

  /**
   * Every cell (i, j) with i + j even pushes to each of its in-bounds
   * neighbours: with SweepShape, the sweep covers exactly the checkerboard's edges.
   */
  lemma SweepComplete(R: nat, C: nat, e: Edge)
    requires SweepEdge(R, C, e)
    ensures e in Sweep(R, C)
  {
    SweepRowsContains(R, C, R, e);
  }

  // ---------------------------------------------------------------------
  // SolveFlow

  lemma SweepOnGrid(g: seq<seq<int>>, R: nat, C: nat, es: seq<Edge>)
    requires Rectangular(g, R, C) && forall k :: 0 <= k < |es| ==> SweepEdge(R, C, es[k])
    ensures AllOnGrid(g, es)
  {
  }

  /** Total value minus the flow of the greedy sweep; the table is left as the sweep leaves it. */
  method SolveFlow(R: nat, C: nat, table: array2<int>) returns (maximumValue: int)
    requires table.Length0 == R && table.Length1 == C
    modifies table
    ensures AllOnGrid(old(Contents(table)), Sweep(R, C))
    ensures Contents(table) == After(old(Contents(table)), Sweep(R, C))
    ensures maximumValue == GridSum(old(Contents(table))) - TotalPushed(old(Contents(table)), Sweep(R, C))
  {
    ghost var g := Contents(table);
    var totalValue := SumTable(R, C, table);

    var maxFlow := 0;
    for i := 0 to R
      invariant Contents(table) == After(g, SweepRows(R, C, i)) && maxFlow == TotalPushed(g, SweepRows(R, C, i))
    {
      ghost var done := SweepRows(R, C, i);
      var pushed := SweepRow(R, C, table, i);
      Append(g, done, RowFrom(R, C, i, i % 2));
      maxFlow := maxFlow + pushed;
    }
    SweepShape(R, C);
    SweepOnGrid(g, R, C, Sweep(R, C));

    maximumValue := totalValue - maxFlow;
  }

  /** One pass of SolveFlow's outer loop: the pushes from the cells of row i with i + j even. */
  method SweepRow(R: nat, C: nat, table: array2<int>, i: nat) returns (pushed: int)
    requires table.Length0 == R && table.Length1 == C && i < R
    modifies table
    ensures Contents(table) == After(old(Contents(table)), RowFrom(R, C, i, i % 2))
    ensures pushed == TotalPushed(old(Contents(table)), RowFrom(R, C, i, i % 2))
  {
    ghost var g := Contents(table);
    pushed := 0;
    var j: nat := i % 2;
    while j < C
      invariant After(Contents(table), RowFrom(R, C, i, j)) == After(g, RowFrom(R, C, i, i % 2))
      invariant pushed + TotalPushed(Contents(table), RowFrom(R, C, i, j)) == TotalPushed(g, RowFrom(R, C, i, i % 2))
      decreases C - j
    {
      ghost var h := Contents(table);
      var f := PushFromCell(R, C, table, i, j);
      Append(h, CellEdges(R, C, i, j), RowFrom(R, C, i, j + 2));
      pushed := pushed + f;
      j := j + 2;
    }
  }

  /** The first loop of SolveFlow: it returns GridSum of the table. */
  method SumTable(R: nat, C: nat, table: array2<int>) returns (totalValue: int)
    requires table.Length0 == R && table.Length1 == C
    ensures totalValue == GridSum(Contents(table))
  {
    ghost var g := Contents(table);
    totalValue := 0;
    for i := 0 to R
      invariant totalValue == SumRows(g, i)
    {
      for j := 0 to C
        invariant totalValue == SumRows(g, i) + RowSum(g[i], j)
      {
        totalValue := totalValue + table[i, j];
      }
    }
  }

  /** The body of SolveFlow's inner loop: update_path from cell (i, j) to each existing neighbour. */
  method PushFromCell(R: nat, C: nat, table: array2<int>, i: nat, j: nat) returns (pushed: int)
    requires table.Length0 == R && table.Length1 == C && i < R && j < C
    modifies table
    ensures Contents(table) == After(old(Contents(table)), CellEdges(R, C, i, j))
    ensures pushed == TotalPushed(old(Contents(table)), CellEdges(R, C, i, j))
  {
    ghost var g := Contents(table);
    assert Contents(table) == After(g, []);
    var f := PushIf(table, i > 0, Edge(i, j, i - 1, j), g, []);
    pushed := f;
    assert [] + Maybe(i > 0, Edge(i, j, i - 1, j)) == Maybe(i > 0, Edge(i, j, i - 1, j));
    ghost var done := Maybe(i > 0, Edge(i, j, i - 1, j));
    f := PushIf(table, j > 0, Edge(i, j, i, j - 1), g, done);
    pushed := pushed + f;
    done := done + Maybe(j > 0, Edge(i, j, i, j - 1));
    f := PushIf(table, j + 1 < C, Edge(i, j, i, j + 1), g, done);
    pushed := pushed + f;
    done := done + Maybe(j + 1 < C, Edge(i, j, i, j + 1));
    f := PushIf(table, i + 1 < R, Edge(i, j, i + 1, j), g, done);
    pushed := pushed + f;
  }

  /**
   * One guarded call of update_path in SolveFlow's inner loop: the push e
   * when the guard holds, given that the table so far is g after done.
   */
  method PushIf(table: array2<int>, guard: bool, e: Edge, ghost g: seq<seq<int>>, ghost done: seq<Edge>) returns (f: int)
    requires guard ==> 0 <= e.i < table.Length0 && 0 <= e.j < table.Length1 && 0 <= e.x < table.Length0 && 0 <= e.y < table.Length1
    requires Contents(table) == After(g, done)
    modifies table
    ensures Contents(table) == After(g, done + Maybe(guard, e))
    ensures TotalPushed(g, done) + f == TotalPushed(g, done + Maybe(guard, e))
  {
    SnocMaybe(g, done, guard, e);
    f := 0;
    if guard {
      f := UpdatePath(table, e.i, e.j, e.x, e.y);
    }
  }

  /**
   * On a non-negative table the sweep leaves every cell non-negative, removes
   * twice its flow from the total, and SolveFlow's answer lies between 0 and
   * the total value.
   */
  lemma FlowBounds(g: seq<seq<int>>, R: nat, C: nat)
    requires Rectangular(g, R, C) && NonNegative(g)
    ensures AllOnGrid(g, Sweep(R, C))
    ensures NonNegative(After(g, Sweep(R, C)))
    ensures GridSum(After(g, Sweep(R, C))) == GridSum(g) - 2 * TotalPushed(g, Sweep(R, C))
    ensures 0 <= GridSum(g) - TotalPushed(g, Sweep(R, C)) <= GridSum(g)
  {
    var es := Sweep(R, C);
    SweepShape(R, C);
    SweepOnGrid(g, R, C, es);
    assert forall k :: 0 <= k < |es| ==> Proper(es[k]) by {
      forall k | 0 <= k < |es| ensures Proper(es[k]) {
        assert SweepEdge(R, C, es[k]);
      }
    }
    AfterConserves(g, es);
    SumRowsNonNegative(After(g, es), |g|);
  }
}
