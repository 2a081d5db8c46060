/** The expansion rules: around every centre, either the single neighbouring cells
    (`single_step`) or whole rays to the border (`full`) are coloured, diagonally (star),
    orthogonally (plus) or along three of the four diagonals.

    The random draws are inputs: the raw count `draw` of `rand_between`, the sampled
    `centres`, and for the three-diagonal rule the index of the omitted direction. A centre
    is an `(x, y)` pair with `x` ranging over columns, and `fill_cell(x, y)` uses `x` as the
    row, as the generators do. */
module Expansion {
  import opened Seqs
  import opened Grids

  /** A point `(x, y)` or a direction `(dx, dy)`. */
  type Point = (int, int)

  const Diagonals: seq<Point> := [(1, 1), (1, -1), (-1, 1), (-1, -1)]
  const Orthogonals: seq<Point> := [(1, 0), (-1, 0), (0, 1), (0, -1)]

  function Min(a: int, b: int): int {
    if a <= b then a else b
  }

  function Max(a: int, b: int): int {
    if a >= b then a else b
  }

  /** A direction of one of the rays: each coordinate moves by at most one. */
  predicate Unit(d: Point) {
    -1 <= d.0 <= 1 && -1 <= d.1 <= 1 && d != (0, 0)
  }

  /** One step from `p` along `d`. */
  function Move(p: Point, d: Point): Point {
    (p.0 + d.0, p.1 + d.1)
  }

  /** `m` steps from `p` along `d`. */
  function Step(p: Point, d: Point, m: int): Point {
    (p.0 + m * d.0, p.1 + m * d.1)
  }

  /** The ray loops' test `0 <= x < cols and 0 <= y < rows`. */
  predicate OnBoard(p: Point, rows: int, cols: int) {
    0 <= p.0 < cols && 0 <= p.1 < rows
  }

  /** The centres as `random.sample` draws them from the interior points
      `(x, y)`, `1 <= x <= cols - 2`, `1 <= y <= rows - 2`: distinct, and one step from any
      of them in any direction stays on the board. */
  predicate Interior(centres: seq<Point>, rows: int, cols: int) {
    && Distinct(centres)
    && forall k :: 0 <= k < |centres| ==> 1 <= centres[k].0 <= cols - 2 && 1 <= centres[k].1 <= rows - 2
  }

  /** A blank grid with the centres painted, `fill_cell(x, y, colors[0])` for each. */
  ghost predicate Marked(g: Grid, rows: nat, cols: nat, centres: seq<Point>, color: Color) {
    && Valid(g) && g.rows == rows && g.cols == cols
    && forall i, j :: InBounds(g, i, j) ==> g.cells[i][j] == if (i, j) in centres then color else Black
  }

  /** Every `(row, col)` pair of `ps` lies on a `rows` by `cols` grid. */
  predicate OnGrid(ps: seq<Point>, rows: int, cols: int) {
    forall k :: 0 <= k < |ps| ==> 0 <= ps[k].0 < rows && 0 <= ps[k].1 < cols
  }

  /** The input grids: the centres painted on a blank grid. */
  function MarkCentres(rows: nat, cols: nat, centres: seq<Point>, color: Color): (g: Grid)
    requires OnGrid(centres, rows, cols)
    ensures Marked(g, rows, cols, centres, color)
  {
    var blank := New(rows, cols, Black);
    assert Inside(blank, centres);
    Paint(blank, centres, color)
  }

  /** The output grids: the coloured cells painted on a blank grid, then the centres on
      top of them. */
  function Stroked(rows: nat, cols: nat, cells: seq<Point>, centres: seq<Point>, stroke: Color, centre: Color)
    : (g: Grid)
    requires OnGrid(cells, rows, cols) && OnGrid(centres, rows, cols)
    ensures Valid(g) && g.rows == rows && g.cols == cols
    ensures forall i, j :: InBounds(g, i, j) ==>
              g.cells[i][j] == if (i, j) in centres then centre else if (i, j) in cells then stroke else Black
  {
    var blank := New(rows, cols, Black);
    assert Inside(blank, cells);
    var strokes := Paint(blank, cells, stroke);
    assert Inside(strokes, centres);
    Paint(strokes, centres, centre)
  }

  // ---------------- single step ----------------

  /** `q` is one step from `c` along one of `dirs`. */
  predicate NextTo(q: Point, c: Point, dirs: seq<Point>) {
    exists d :: d in dirs && q == Move(c, d)
  }

  /** `q` is one step from some centre along one of `dirs`. */
  predicate Near(q: Point, centres: seq<Point>, dirs: seq<Point>) {
    exists k :: 0 <= k < |centres| && NextTo(q, centres[k], dirs)
  }

  /** The neighbours of one centre, direction by direction. */
  function Around(c: Point, dirs: seq<Point>): (r: seq<Point>)
    ensures forall q :: q in r <==> NextTo(q, c, dirs)
  {
    if |dirs| == 0 then []
    else
      assert forall d :: d in dirs <==> d == dirs[0] || d in dirs[1..];
      [Move(c, dirs[0])] + Around(c, dirs[1..])
  }

  /** The neighbours the single-step generators colour, centre by centre. */
  function Neighbours(centres: seq<Point>, dirs: seq<Point>): (r: seq<Point>)
    ensures forall q :: q in r <==> Near(q, centres, dirs)
  {
    if |centres| == 0 then []
    else
      var n := |centres| - 1;
      NearLast(centres, dirs);
      Neighbours(centres[..n], dirs) + Around(centres[n], dirs)
  }

  /** Near some centre is near one before the last, or near the last. */
  lemma NearLast(centres: seq<Point>, dirs: seq<Point>)
    requires |centres| > 0
    ensures forall q :: Near(q, centres, dirs) <==>
              Near(q, centres[..|centres| - 1], dirs) || NextTo(q, centres[|centres| - 1], dirs)
  {
    var n := |centres| - 1;
    forall q ensures Near(q, centres, dirs) <==> Near(q, centres[..n], dirs) || NextTo(q, centres[n], dirs) {
      if Near(q, centres[..n], dirs) {
        var k :| 0 <= k < n && NextTo(q, centres[..n][k], dirs);
        assert centres[..n][k] == centres[k];
      }
      if Near(q, centres, dirs) {
        var k :| 0 <= k < |centres| && NextTo(q, centres[k], dirs);
        if k < n {
          assert centres[..n][k] == centres[k];
        }
      }
    }
  }

  /** The body shared by both single-step generators. */
  function SingleStep(rows: nat, cols: nat, colors: seq<Color>, centres: seq<Point>, dirs: seq<Point>)
    : (r: Generated)
    requires |colors| >= 2
    requires Interior(centres, rows, cols)
    requires forall k :: 0 <= k < |centres| ==> centres[k].0 + 1 < rows && centres[k].1 + 1 < cols
    requires forall d :: d in dirs ==> Unit(d)
    ensures r.Triple? && r.nObjects == |centres|
    ensures Marked(r.input, rows, cols, centres, colors[0])
    ensures Valid(r.output) && r.output.rows == rows && r.output.cols == cols
    ensures forall i, j :: InBounds(r.output, i, j) ==>
              r.output.cells[i][j] == if (i, j) in centres then colors[0]
                                      else if Near((i, j), centres, dirs) then colors[1]
                                      else Black
  {
    NeighboursOnGrid(rows, cols, centres, dirs);
    Triple(MarkCentres(rows, cols, centres, colors[0]),
           Stroked(rows, cols, Neighbours(centres, dirs), centres, colors[1], colors[0]),
           |centres|)
  }

  /** The single steps from centres whose `x + 1` and `y + 1` are within the grid land
      inside it. */
  lemma NeighboursOnGrid(rows: nat, cols: nat, centres: seq<Point>, dirs: seq<Point>)
    requires forall k :: 0 <= k < |centres| ==> 1 <= centres[k].0 && centres[k].0 + 1 < rows
    requires forall k :: 0 <= k < |centres| ==> 1 <= centres[k].1 && centres[k].1 + 1 < cols
    requires forall d :: d in dirs ==> Unit(d)
    ensures OnGrid(Neighbours(centres, dirs), rows, cols)
  {
    var steps := Neighbours(centres, dirs);
    forall k | 0 <= k < |steps|
      ensures 0 <= steps[k].0 < rows && 0 <= steps[k].1 < cols
    {
      assert Near(steps[k], centres, dirs);
      var c :| 0 <= c < |centres| && NextTo(steps[k], centres[c], dirs);
      var d :| d in dirs && steps[k] == Move(centres[c], d);
      assert Unit(d);
    }
  }

  /** `generate_star_expansion_single_step`: the four diagonal neighbours of each centre
      become `colors[1]`, except where they are centres themselves. The requirement on
      `x + 1` and `y + 1` is the grid bound `fill_cell` needs, since `x` is used as the row;
      on a square grid it follows from the sampling. */
  function StarSingleStep(rows: nat, cols: nat, colors: seq<Color>, draw: int, centres: seq<Point>)
    : (r: Generated)
    requires |colors| >= 2
    requires Interior(centres, rows, cols) && |centres| == Min(draw, (cols - 2) * (rows - 2))
    requires forall k :: 0 <= k < |centres| ==> centres[k].0 + 1 < rows && centres[k].1 + 1 < cols
    ensures r.Triple? && r.nObjects == Min(draw, (cols - 2) * (rows - 2))
    ensures Marked(r.input, rows, cols, centres, colors[0])
    ensures Valid(r.output) && r.output.rows == rows && r.output.cols == cols
    ensures forall i, j :: InBounds(r.output, i, j) ==>
              r.output.cells[i][j] == if (i, j) in centres then colors[0]
                                      else if Near((i, j), centres, Diagonals) then colors[1]
                                      else Black
  {
    SingleStep(rows, cols, colors, centres, Diagonals)
  }

  /** `generate_plus_expansion_single_step`: the four orthogonal neighbours of each centre
      become `colors[1]`, except where they are centres themselves. */
  function PlusSingleStep(rows: nat, cols: nat, colors: seq<Color>, draw: int, centres: seq<Point>)
    : (r: Generated)
    requires |colors| >= 2
    requires Interior(centres, rows, cols) && |centres| == Min(draw, (cols - 2) * (rows - 2))
    requires forall k :: 0 <= k < |centres| ==> centres[k].0 + 1 < rows && centres[k].1 + 1 < cols
    ensures r.Triple? && r.nObjects == Min(draw, (cols - 2) * (rows - 2))
    ensures Marked(r.input, rows, cols, centres, colors[0])
    ensures Valid(r.output) && r.output.rows == rows && r.output.cols == cols
    ensures forall i, j :: InBounds(r.output, i, j) ==>
              r.output.cells[i][j] == if (i, j) in centres then colors[0]
                                      else if Near((i, j), centres, Orthogonals) then colors[1]
                                      else Black
  {
    SingleStep(rows, cols, colors, centres, Orthogonals)
  }

  // ---------------- full rays ----------------

  /** The cells the ray loop visits from `p` along `d`: `p` and its successors while they
      are on the board. */
  function Ray(p: Point, d: Point, rows: int, cols: int): (r: seq<Point>)
    requires Unit(d)
    ensures forall k :: 0 <= k < |r| ==> OnBoard(r[k], rows, cols)
    decreases (if d.0 > 0 then cols - p.0 else if d.0 < 0 then p.0 + 1 else 0)
            + (if d.1 > 0 then rows - p.1 else if d.1 < 0 then p.1 + 1 else 0)
  {
    if OnBoard(p, rows, cols) then [p] + Ray(Move(p, d), d, rows, cols) else []
  }

  /** Between two points on the board, a unit step from the first stays on the board. */
  lemma Convex(p: Point, d: Point, m: int, rows: int, cols: int)
    requires Unit(d) && m >= 1
    requires OnBoard(p, rows, cols) && OnBoard(Step(p, d, m), rows, cols)
    ensures OnBoard(Move(p, d), rows, cols)
  {
    if d.0 == 1 { assert m * d.0 == m; }
    if d.0 == -1 { assert m * d.0 == -m; }
    if d.1 == 1 { assert m * d.1 == m; }
    if d.1 == -1 { assert m * d.1 == -m; }
  }

  lemma StepShift(p: Point, d: Point, m: int)
    ensures Step(Move(p, d), d, m) == Step(p, d, m + 1)
  {
    assert (m + 1) * d.0 == m * d.0 + d.0;
    assert (m + 1) * d.1 == m * d.1 + d.1;
  }

  /** A ray from a point on the board holds exactly the points on the board a whole number
      of steps away: the loop stops at the first point off the board, and there is no
      point on the board beyond it. */
  lemma {:induction false} RayCells(p: Point, d: Point, rows: int, cols: int, q: Point)
    requires Unit(d) && OnBoard(p, rows, cols)
    ensures q in Ray(p, d, rows, cols) <==> OnBoard(q, rows, cols) && exists m :: m >= 0 && q == Step(p, d, m)
    decreases (if d.0 > 0 then cols - p.0 else if d.0 < 0 then p.0 + 1 else 0)
            + (if d.1 > 0 then rows - p.1 else if d.1 < 0 then p.1 + 1 else 0)
  {
    var next := Move(p, d);
    var rest := Ray(next, d, rows, cols);
    assert Ray(p, d, rows, cols) == [p] + rest;
    if q == p {
      assert q == Step(p, d, 0);
    } else if OnBoard(next, rows, cols) {
      RayCells(next, d, rows, cols, q);
      if q in rest {
        var m :| m >= 0 && q == Step(next, d, m);
        StepShift(p, d, m);
      }
      if OnBoard(q, rows, cols) && exists m :: m >= 0 && q == Step(p, d, m) {
        var m :| m >= 0 && q == Step(p, d, m);
        assert m != 0;
        StepShift(p, d, m - 1);
      }
    } else {
      assert rest == [];
      if OnBoard(q, rows, cols) && exists m :: m >= 0 && q == Step(p, d, m) {
        var m :| m >= 0 && q == Step(p, d, m);
        assert m != 0;
        Convex(p, d, m, rows, cols);
      }
    }
  }

  /** `q` lies on a ray from centre `c` along one of `ds`. */
  ghost predicate OnRayOf(q: Point, c: Point, ds: seq<Point>, rows: int, cols: int) {
    OnBoard(q, rows, cols) && exists d, m :: d in ds && m >= 1 && q == Step(c, d, m)
  }

  /** The rays from one centre, direction by direction. */
  function RaysFrom(c: Point, ds: seq<Point>, rows: int, cols: int): (r: seq<Point>)
    requires forall d :: d in ds ==> Unit(d) && OnBoard(Move(c, d), rows, cols)
    ensures forall q :: q in r <==> OnRayOf(q, c, ds, rows, cols)
  {
    if |ds| == 0 then []
    else
      var d := ds[0];
      var ray := Ray(Move(c, d), d, rows, cols);
      var rest := RaysFrom(c, ds[1..], rows, cols);
      forall q
        ensures q in ray + rest <==> OnRayOf(q, c, ds, rows, cols)
      {
        RayCells(Move(c, d), d, rows, cols, q);
        if q in ray {
          var m :| m >= 0 && q == Step(Move(c, d), d, m);
          StepShift(c, d, m);
          assert OnRayOf(q, c, ds, rows, cols);
        }
        if q in rest {
          var e, m :| e in ds[1..] && m >= 1 && q == Step(c, e, m);
          assert e in ds;
        }
        if OnRayOf(q, c, ds, rows, cols) {
          var e, m :| e in ds && m >= 1 && q == Step(c, e, m);
          if e == d {
            StepShift(c, d, m - 1);
            assert q in ray;
          } else {
            assert e in ds[1..];
            assert OnRayOf(q, c, ds[1..], rows, cols);
          }
        }
      }
      ray + rest
  }

  /** `q` lies on a ray from the `k`-th centre along one of its directions `dirsOf[k]`. */
  ghost predicate Reached(q: Point, centres: seq<Point>, dirsOf: seq<seq<Point>>, rows: int, cols: int)
    requires |dirsOf| == |centres|
  {
    exists k :: 0 <= k < |centres| && OnRayOf(q, centres[k], dirsOf[k], rows, cols)
  }

  /** Directions that are unit steps, one step of which leaves each centre on the board. */
  predicate Directions(centres: seq<Point>, dirsOf: seq<seq<Point>>, rows: int, cols: int) {
    && |dirsOf| == |centres|
    && forall k, d :: 0 <= k < |centres| && d in dirsOf[k] ==>
         Unit(d) && OnBoard(Move(centres[k], d), rows, cols)
  }

  /** All the cells the ray loops of the full generators colour, centre by centre. */
  function Rays(centres: seq<Point>, dirsOf: seq<seq<Point>>, rows: int, cols: int): (r: seq<Point>)
    requires Directions(centres, dirsOf, rows, cols)
    ensures forall q :: q in r <==> Reached(q, centres, dirsOf, rows, cols)
  {
    if |centres| == 0 then []
    else
      var n := |centres| - 1;
      var before := Rays(centres[..n], dirsOf[..n], rows, cols);
      var here := RaysFrom(centres[n], dirsOf[n], rows, cols);
      forall q
        ensures q in before + here <==> Reached(q, centres, dirsOf, rows, cols)
      {
        if q in before {
          var k :| 0 <= k < n && OnRayOf(q, centres[..n][k], dirsOf[..n][k], rows, cols);
          assert OnRayOf(q, centres[k], dirsOf[k], rows, cols);
        }
        if Reached(q, centres, dirsOf, rows, cols) {
          var k :| 0 <= k < |centres| && OnRayOf(q, centres[k], dirsOf[k], rows, cols);
          if k < n {
            assert centres[..n][k] == centres[k] && dirsOf[..n][k] == dirsOf[k];
            assert Reached(q, centres[..n], dirsOf[..n], rows, cols);
          }
        }
      }
      before + here
  }

  /** The output of a full generator: the centres in `colors[0]`, every other cell on one
      of their rays in `colors[1]`, the rest black. */
  ghost predicate Expanded(g: Grid, rows: nat, cols: nat, colors: seq<Color>, centres: seq<Point>, dirsOf: seq<seq<Point>>)
    requires |colors| >= 2 && |dirsOf| == |centres|
  {
    && Valid(g) && g.rows == rows && g.cols == cols
    && forall i, j :: InBounds(g, i, j) ==>
         g.cells[i][j] == if (i, j) in centres then colors[0]
                          else if Reached((i, j), centres, dirsOf, rows, cols) then colors[1]
                          else Black
  }

  /** The body shared by the full generators; the grid is square, as `fill_cell(x, y)`
      with `x < cols` as the row needs on every ray. */
  function Full(rows: nat, cols: nat, colors: seq<Color>, n: int, centres: seq<Point>, dirsOf: seq<seq<Point>>)
    : (r: Generated)
    requires rows == cols && |colors| >= 2
    requires Interior(centres, rows, cols) && |centres| == n
    requires Directions(centres, dirsOf, rows, cols)
    ensures r.Pair? <==> n == 0
    ensures r.Pair? ==> r.input == New(rows, cols, Black) && r.output == New(rows, cols, Black)
    ensures r.Triple? ==> r.nObjects == n
    ensures r.Triple? ==> Marked(r.input, rows, cols, centres, colors[0])
    ensures r.Triple? ==> Expanded(r.output, rows, cols, colors, centres, dirsOf)
  {
    var blank := New(rows, cols, Black);
    if n == 0 then Pair(blank, blank)
    else
      RaysOnGrid(centres, dirsOf, rows);
      Triple(MarkCentres(rows, cols, centres, colors[0]),
             Stroked(rows, cols, Rays(centres, dirsOf, rows, cols), centres, colors[1], colors[0]),
             n)
  }

  /** Every cell of a ray lies on the (square) board. */
  lemma RaysOnGrid(centres: seq<Point>, dirsOf: seq<seq<Point>>, size: nat)
    requires Directions(centres, dirsOf, size, size)
    ensures OnGrid(Rays(centres, dirsOf, size, size), size, size)
  {
    var strokes := Rays(centres, dirsOf, size, size);
    forall k | 0 <= k < |strokes|
      ensures 0 <= strokes[k].0 < size && 0 <= strokes[k].1 < size
    {
      assert Reached(strokes[k], centres, dirsOf, size, size);
    }
  }

  /** Every centre with every diagonal direction: one step stays on the board. */
  lemma AllDirections(centres: seq<Point>, ds: seq<Point>, rows: int, cols: int)
    requires Interior(centres, rows, cols)
    requires forall d :: d in ds ==> Unit(d)
    ensures Directions(centres, seq(|centres|, _ => ds), rows, cols)
  {
  }

  /** `generate_star_expansion_full`: the rays along all four diagonals from every centre.
      With no centre to draw the generator returns only the two blank grids. */
  function StarFull(size: nat, colors: seq<Color>, draw: int, centres: seq<Point>): (r: Generated)
    requires |colors| >= 2
    requires Interior(centres, size, size) && |centres| == Min(draw, Max(0, (size - 2) * (size - 2)))
    ensures r.Pair? <==> centres == []
    ensures r.Pair? ==> r.input == New(size, size, Black) && r.output == New(size, size, Black)
    ensures r.Triple? ==> r.nObjects == |centres|
    ensures r.Triple? ==> Marked(r.input, size, size, centres, colors[0])
    ensures r.Triple? ==> Expanded(r.output, size, size, colors, centres, seq(|centres|, _ => Diagonals))
  {
    AllDirections(centres, Diagonals, size, size);
    Full(size, size, colors, |centres|, centres, seq(|centres|, _ => Diagonals))
  }

  /** `generate_plus_expansion_full`: the rays along all four axis directions from every
      centre. */
  function PlusFull(size: nat, colors: seq<Color>, draw: int, centres: seq<Point>): (r: Generated)
    requires |colors| >= 2
    requires Interior(centres, size, size) && |centres| == Min(draw, Max(0, (size - 2) * (size - 2)))
    ensures r.Pair? <==> centres == []
    ensures r.Pair? ==> r.input == New(size, size, Black) && r.output == New(size, size, Black)
    ensures r.Triple? ==> r.nObjects == |centres|
    ensures r.Triple? ==> Marked(r.input, size, size, centres, colors[0])
    ensures r.Triple? ==> Expanded(r.output, size, size, colors, centres, seq(|centres|, _ => Orthogonals))
  {
    AllDirections(centres, Orthogonals, size, size);
    Full(size, size, colors, |centres|, centres, seq(|centres|, _ => Orthogonals))
  }

  /** `dirs.remove(skip_dir)` on the list of diagonals: the three other diagonals. */
  function Kept(skip: nat): (r: seq<Point>)
    requires skip < 4
    ensures |r| == 3
    ensures Diagonals[skip] !in r
    ensures forall d :: d in r <==> d in Diagonals && d != Diagonals[skip]
  {
    Diagonals[..skip] + Diagonals[skip + 1..]
  }

  /** `generate_3diagonal_expansion_full`: the rays along three diagonals from every
      centre, omitting the diagonal `skips[k]` (the draw of `random.choice`) for the
      `k`-th centre. */
  function ThreeDiagonalFull(size: nat, colors: seq<Color>, draw: int, centres: seq<Point>, skips: seq<nat>)
    : (r: Generated)
    requires |colors| >= 2
    requires Interior(centres, size, size) && |centres| == Min(draw, Max(0, (size - 2) * (size - 2)))
    requires |skips| == |centres| && forall k :: 0 <= k < |skips| ==> skips[k] < 4
    ensures r.Pair? <==> centres == []
    ensures r.Pair? ==> r.input == New(size, size, Black) && r.output == New(size, size, Black)
    ensures r.Triple? ==> r.nObjects == |centres|
    ensures r.Triple? ==> Marked(r.input, size, size, centres, colors[0])
    ensures r.Triple? ==> Expanded(r.output, size, size, colors, centres,
                                   seq(|centres|, k requires 0 <= k < |centres| => Kept(skips[k])))
  {
    var dirsOf := seq(|centres|, k requires 0 <= k < |centres| => Kept(skips[k]));
    KeptDirections(centres, skips, dirsOf, size);
    Full(size, size, colors, |centres|, centres, dirsOf)
  }

  /** Each kept diagonal is a unit step, and one step from a centre stays on the board. */
  lemma KeptDirections(centres: seq<Point>, skips: seq<nat>, dirsOf: seq<seq<Point>>, size: nat)
    requires Interior(centres, size, size)
    requires |skips| == |centres| && forall k :: 0 <= k < |skips| ==> skips[k] < 4
    requires |dirsOf| == |centres| && forall k :: 0 <= k < |centres| ==> dirsOf[k] == Kept(skips[k])
    ensures Directions(centres, dirsOf, size, size)
  {
    forall k | 0 <= k < |centres|
      ensures forall d :: d in dirsOf[k] ==> Unit(d) && OnBoard(Move(centres[k], d), size, size)
    {
      KeptSteps(centres[k], skips[k], size);
    }
  }

  /** Every diagonal kept for one centre is a unit step that stays on the board. */
  lemma KeptSteps(c: Point, skip: nat, size: nat)
    requires 1 <= c.0 <= size - 2 && 1 <= c.1 <= size - 2 && skip < 4
    ensures forall d :: d in Kept(skip) ==> Unit(d) && OnBoard(Move(c, d), size, size)
  {
    forall d | d in Kept(skip) ensures Unit(d) && OnBoard(Move(c, d), size, size) {
      DiagonalStep(c, d, size);
    }
  }

  /** One diagonal step from an interior point stays on the board. */
  lemma DiagonalStep(c: Point, d: Point, size: nat)
    requires 1 <= c.0 <= size - 2 && 1 <= c.1 <= size - 2
    requires d in Diagonals
    ensures Unit(d) && OnBoard(Move(c, d), size, size)
  {
    assert d == Diagonals[0] || d == Diagonals[1] || d == Diagonals[2] || d == Diagonals[3];
  }
}
