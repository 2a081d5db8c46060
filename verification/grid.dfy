/** The grid of coloured cells every rule generator draws on: `rows` lists of `cols` colour
    names, `"black"` by default. The transforms build a new grid instead of mutating the
    receiver; a mutating call `g.op()` becomes `g := Op(g)`. */
module Grids {
  import opened Seqs


  type Color = string

  /** The default colour of a new grid. */
  const Black: Color := "black"

  datatype Grid = Grid(rows: nat, cols: nat, cells: seq<seq<Color>>)

  /** What a rule generator returns: `(grid_input, grid_output, params)`, of whose
      parameters only `n_objects` depends on the draws, or the bare pair
      `(grid_input, grid_output)` some generators return when there is nothing to draw. */
  datatype Generated =
    | Triple(input: Grid, output: Grid, nObjects: int)
    | Pair(input: Grid, output: Grid)

  /** `cells` holds `rows` rows of `cols` cells each. */
  predicate Valid(g: Grid) {
    |g.cells| == g.rows && forall r :: 0 <= r < |g.cells| ==> |g.cells[r]| == g.cols
  }

  predicate InBounds(g: Grid, r: int, c: int) {
    0 <= r < g.rows && 0 <= c < g.cols
  }

  /** `Grid(rows, cols, default_color)` */
  function New(rows: nat, cols: nat, fill: Color): (g: Grid)
    ensures Valid(g) && g.rows == rows && g.cols == cols
    ensures forall r, c :: InBounds(g, r, c) ==> g.cells[r][c] == fill
  {
    Grid(rows, cols, seq(rows, _ => seq(cols, _ => fill)))
  }

  /** A Python list index: a negative one counts from the end. */
  function Index(i: int, n: nat): (r: int)
    requires 0 <= i + n && i < n
    ensures 0 <= r < n
    ensures r == i || r == i + n
  {
    if i < 0 then i + n else i
  }

  /** `get(row, col)`; an index outside the lists raises IndexError, which no caller
      provokes. */
  function Get(g: Grid, row: int, col: int): (r: Color)
    requires Valid(g)
    requires 0 <= row + g.rows && row < g.rows && 0 <= col + g.cols && col < g.cols
    ensures forall i, j :: InBounds(g, i, j) && (i == row || i == row + g.rows) && (j == col || j == col + g.cols)
              ==> r == g.cells[i][j]
  {
    g.cells[Index(row, g.rows)][Index(col, g.cols)]
  }

  /** `set(row, col, color)`, which `fill_cell` also is: the addressed cell reads back
      `color` and no other cell changes. */
  function Set(g: Grid, row: int, col: int, color: Color): (r: Grid)
    requires Valid(g)
    requires 0 <= row + g.rows && row < g.rows && 0 <= col + g.cols && col < g.cols
    ensures Valid(r) && r.rows == g.rows && r.cols == g.cols
    ensures Get(r, row, col) == color
    ensures forall i, j :: InBounds(g, i, j) && (i, j) != (Index(row, g.rows), Index(col, g.cols)) ==>
              r.cells[i][j] == g.cells[i][j]
  {
    var i := Index(row, g.rows);
    var j := Index(col, g.cols);
    g.(cells := g.cells[i := g.cells[i][j := color]])
  }

  /** `get` after `set`: the address just set reads back the new colour; every address of
      another cell reads what it read before. */
  lemma GetAfterSet(g: Grid, row: int, col: int, color: Color, row2: int, col2: int)
    requires Valid(g)
    requires 0 <= row + g.rows && row < g.rows && 0 <= col + g.cols && col < g.cols
    requires 0 <= row2 + g.rows && row2 < g.rows && 0 <= col2 + g.cols && col2 < g.cols
    ensures var same := Index(row, g.rows) == Index(row2, g.rows) && Index(col, g.cols) == Index(col2, g.cols);
            Get(Set(g, row, col, color), row2, col2) == if same then color else Get(g, row2, col2)
  {
  }

  /** Two grids of one shape with the same cells are equal. */
  lemma SameCells(a: Grid, b: Grid)
    requires Valid(a) && Valid(b) && a.rows == b.rows && a.cols == b.cols
    requires forall r, c :: InBounds(a, r, c) ==> a.cells[r][c] == b.cells[r][c]
    ensures a == b
  {
    forall r | 0 <= r < a.rows
      ensures a.cells[r] == b.cells[r]
    {
      assert forall c :: 0 <= c < a.cols ==> a.cells[r][c] == b.cells[r][c];
    }
  }

  /** `fill_rect(xmin, xmax, ymin, ymax, color)`: exactly the cells inside the grid with a
      row in `ymin..ymax` and a column in `xmin..xmax`, both inclusive, become `color`;
      coordinates outside the grid are passed over. */
  method FillRect(g: Grid, xmin: int, xmax: int, ymin: int, ymax: int, color: Color) returns (r: Grid)
    requires Valid(g)
    ensures Valid(r) && r.rows == g.rows && r.cols == g.cols
    ensures forall i, j :: InBounds(g, i, j) ==>
              r.cells[i][j] == if ymin <= i <= ymax && xmin <= j <= xmax then color else g.cells[i][j]
  {
    var cells := g.cells;
    var y := ymin;
    while y <= ymax
      invariant ymin <= y
      invariant |cells| == g.rows && forall i :: 0 <= i < g.rows ==> |cells[i]| == g.cols
      invariant forall i, j :: InBounds(g, i, j) ==>
                  cells[i][j] == if ymin <= i < y && i <= ymax && xmin <= j <= xmax then color else g.cells[i][j]
      decreases ymax + 1 - y
    {
      var x := xmin;
      while x <= xmax
        invariant xmin <= x
        invariant |cells| == g.rows && forall i :: 0 <= i < g.rows ==> |cells[i]| == g.cols
        invariant forall i, j :: InBounds(g, i, j) ==>
                    cells[i][j] == if (ymin <= i < y && i <= ymax && xmin <= j <= xmax) || (i == y && xmin <= j < x && j <= xmax)
                                   then color else g.cells[i][j]
        decreases xmax + 1 - x
      {
        if 0 <= y < g.rows && 0 <= x < g.cols {
          cells := cells[y := cells[y][x := color]];
        }
        x := x + 1;
      }
      y := y + 1;
    }
    r := Grid(g.rows, g.cols, cells);
  }

  /** `fill_all(color)`: every cell becomes `color`. */
  method FillAll(g: Grid, color: Color) returns (r: Grid)
    requires Valid(g)
    ensures Valid(r) && r.rows == g.rows && r.cols == g.cols
    ensures forall i, j :: InBounds(r, i, j) ==> r.cells[i][j] == color
  {
    var cells := g.cells;
    for y := 0 to g.rows
      invariant |cells| == g.rows && forall i :: 0 <= i < g.rows ==> |cells[i]| == g.cols
      invariant forall i, j :: InBounds(g, i, j) && i < y ==> cells[i][j] == color
    {
      for x := 0 to g.cols
        invariant |cells| == g.rows && forall i :: 0 <= i < g.rows ==> |cells[i]| == g.cols
        invariant forall i, j :: InBounds(g, i, j) && (i < y || (i == y && j < x)) ==> cells[i][j] == color
      {
        cells := cells[y := cells[y][x := color]];
      }
    }
    r := Grid(g.rows, g.cols, cells);
  }

  /** `copy()`: a new grid with a copy of every row, equal to the original. */
  method Copy(g: Grid) returns (r: Grid)
    requires Valid(g)
    ensures Valid(r) && r == g
  {
    var rows: seq<seq<Color>> := [];
    for y := 0 to g.rows
      invariant rows == g.cells[..y]
    {
      rows := rows + [g.cells[y]];
    }
    assert g.cells[..g.rows] == g.cells;
    r := Grid(g.rows, g.cols, rows);
  }

  // ---------------- transforms ----------------

  /** `rotate_left_90`: a quarter turn counterclockwise; the dimensions swap and the cell
      at row `r`, column `c` moves to row `cols - 1 - c`, column `r`. */
  function RotateLeft(g: Grid): (r: Grid)
    requires Valid(g)
    ensures Valid(r) && r.rows == g.cols && r.cols == g.rows
    ensures forall i, j :: InBounds(g, i, j) ==> r.cells[g.cols - 1 - j][i] == g.cells[i][j]
  {
    Grid(g.cols, g.rows,
         seq(g.cols, i requires 0 <= i < g.cols =>
           seq(g.rows, j requires 0 <= j < g.rows => g.cells[j][g.cols - 1 - i])))
  }

  /** `mirror_x`: top and bottom change places. */
  function MirrorX(g: Grid): (r: Grid)
    requires Valid(g)
    ensures Valid(r) && r.rows == g.rows && r.cols == g.cols
    ensures forall i, j :: InBounds(g, i, j) ==> r.cells[g.rows - 1 - i][j] == g.cells[i][j]
  {
    Grid(g.rows, g.cols, seq(g.rows, i requires 0 <= i < g.rows => g.cells[g.rows - 1 - i]))
  }

  /** `mirror_y`: left and right change places. */
  function MirrorY(g: Grid): (r: Grid)
    requires Valid(g)
    ensures Valid(r) && r.rows == g.rows && r.cols == g.cols
    ensures forall i, j :: InBounds(g, i, j) ==> r.cells[i][g.cols - 1 - j] == g.cells[i][j]
  {
    Grid(g.rows, g.cols,
         seq(g.rows, i requires 0 <= i < g.rows =>
           seq(g.cols, j requires 0 <= j < g.cols => g.cells[i][g.cols - 1 - j])))
  }

  /** Four left turns are the identity. */
  lemma RotateFour(g: Grid)
    requires Valid(g)
    ensures RotateLeft(RotateLeft(RotateLeft(RotateLeft(g)))) == g
  {
    var g2 := RotateLeft(RotateLeft(g));
    RotateTwice(g);
    RotateTwice(g2);
    MirrorsCommute(g);
    var m := MirrorX(g);
    MirrorYTwice(MirrorX(m));
    MirrorXTwice(g);
  }

  /** Two left turns are `mirror_x` followed by `mirror_y`. */
  lemma RotateTwice(g: Grid)
    requires Valid(g)
    ensures RotateLeft(RotateLeft(g)) == MirrorY(MirrorX(g))
  {
    var a := RotateLeft(RotateLeft(g));
    var b := MirrorY(MirrorX(g));
    forall i, j | InBounds(g, i, j)
      ensures a.cells[i][j] == b.cells[i][j]
    {
      var r1 := RotateLeft(g);
      RotateCell(r1, i, j);
      RotateCell(g, j, g.rows - 1 - i);
      MirrorYCell(MirrorX(g), i, j);
      MirrorXCell(g, i, g.cols - 1 - j);
    }
    SameCells(a, b);
  }

  /** Where a cell of a quarter turn comes from. */
  lemma RotateCell(g: Grid, i: int, j: int)
    requires Valid(g) && 0 <= i < g.cols && 0 <= j < g.rows
    ensures RotateLeft(g).cells[i][j] == g.cells[j][g.cols - 1 - i]
  {
  }

  /** Where a cell of `mirror_x` comes from. */
  lemma MirrorXCell(g: Grid, i: int, j: int)
    requires Valid(g) && InBounds(g, i, j)
    ensures MirrorX(g).cells[i][j] == g.cells[g.rows - 1 - i][j]
  {
  }

  /** Where a cell of `mirror_y` comes from. */
  lemma MirrorYCell(g: Grid, i: int, j: int)
    requires Valid(g) && InBounds(g, i, j)
    ensures MirrorY(g).cells[i][j] == g.cells[i][g.cols - 1 - j]
  {
  }

  /** `mirror_x` undoes itself. */
  lemma MirrorXTwice(g: Grid)
    requires Valid(g)
    ensures MirrorX(MirrorX(g)) == g
  {
    var a := MirrorX(MirrorX(g));
    forall i, j | InBounds(g, i, j)
      ensures a.cells[i][j] == g.cells[i][j]
    {
      assert a.cells[i][j] == MirrorX(g).cells[g.rows - 1 - i][j];
    }
    SameCells(a, g);
  }

  /** `mirror_y` undoes itself. */
  lemma MirrorYTwice(g: Grid)
    requires Valid(g)
    ensures MirrorY(MirrorY(g)) == g
  {
    var a := MirrorY(MirrorY(g));
    forall i, j | InBounds(g, i, j)
      ensures a.cells[i][j] == g.cells[i][j]
    {
      assert a.cells[i][j] == MirrorY(g).cells[i][g.cols - 1 - j];
    }
    SameCells(a, g);
  }

  /** The two mirrors commute. */
  lemma MirrorsCommute(g: Grid)
    requires Valid(g)
    ensures MirrorY(MirrorX(g)) == MirrorX(MirrorY(g))
  {
    var a := MirrorY(MirrorX(g));
    var b := MirrorX(MirrorY(g));
    forall i, j | InBounds(g, i, j)
      ensures a.cells[i][j] == b.cells[i][j]
    {
      MirrorYCell(MirrorX(g), i, j);
      MirrorXCell(g, i, g.cols - 1 - j);
      MirrorXCell(MirrorY(g), i, j);
      MirrorYCell(g, g.rows - 1 - i, j);
    }
    SameCells(a, b);
  }

  // ---------------- painting lists of cells ----------------

  /** Every `(row, col)` pair of `ps` lies inside `g`. */
  predicate Inside(g: Grid, ps: seq<(int, int)>) {
    forall k :: 0 <= k < |ps| ==> InBounds(g, ps[k].0, ps[k].1)
  }

  /** `fill_cell` on each cell of `ps` in turn with one colour: the listed cells become
      `color`, the others keep theirs. */
  function Paint(g: Grid, ps: seq<(int, int)>, color: Color): (r: Grid)
    requires Valid(g) && Inside(g, ps)
    ensures Valid(r) && r.rows == g.rows && r.cols == g.cols
    ensures forall i, j :: InBounds(g, i, j) ==> r.cells[i][j] == if (i, j) in ps then color else g.cells[i][j]
  {
    if |ps| == 0 then g
    else
      var before := Paint(g, ps[..|ps| - 1], color);
      var p := ps[|ps| - 1];
      assert forall q :: q in ps <==> q in ps[..|ps| - 1] || q == p;
      Set(before, p.0, p.1, color)
  }

  /** `fill_cell` on each cell of `ps` in turn, the `k`-th with `colors[k]`: a cell listed
      once gets its own colour, an unlisted one keeps its colour. */
  function PaintEach(g: Grid, ps: seq<(int, int)>, colors: seq<Color>): (r: Grid)
    requires Valid(g) && Inside(g, ps) && |colors| == |ps|
    ensures Valid(r) && r.rows == g.rows && r.cols == g.cols
    ensures forall i, j :: InBounds(g, i, j) && (i, j) !in ps ==> r.cells[i][j] == g.cells[i][j]
    ensures forall k :: 0 <= k < |ps| && ps[k] !in ps[k + 1..] ==> r.cells[ps[k].0][ps[k].1] == colors[k]
  {
    if |ps| == 0 then g
    else
      var n := |ps| - 1;
      var before := PaintEach(g, ps[..n], colors[..n]);
      var r := Set(before, ps[n].0, ps[n].1, colors[n]);
      PaintEachLast(g, ps, colors, ps[..n], colors[..n], before, r);
      r
  }

  /** The last `fill_cell` of `PaintEach` keeps what the earlier ones did, except at its
      own cell. */
  lemma PaintEachLast(g: Grid, ps: seq<(int, int)>, colors: seq<Color>,
                      front: seq<(int, int)>, frontColors: seq<Color>, before: Grid, r: Grid)
    requires Valid(g) && Inside(g, ps) && |colors| == |ps| && |ps| > 0
    requires Valid(before) && before.rows == g.rows && before.cols == g.cols
    requires front == ps[..|ps| - 1] && frontColors == colors[..|ps| - 1]
    requires forall i, j :: InBounds(g, i, j) && (i, j) !in front ==> before.cells[i][j] == g.cells[i][j]
    requires forall k :: 0 <= k < |front| && front[k] !in front[k + 1..] ==>
               before.cells[front[k].0][front[k].1] == frontColors[k]
    requires r == Set(before, ps[|ps| - 1].0, ps[|ps| - 1].1, colors[|ps| - 1])
    ensures forall i, j :: InBounds(g, i, j) && (i, j) !in ps ==> r.cells[i][j] == g.cells[i][j]
    ensures forall k :: 0 <= k < |ps| && ps[k] !in ps[k + 1..] ==> r.cells[ps[k].0][ps[k].1] == colors[k]
  {
    var n := |ps| - 1;
    assert forall q :: q in ps <==> q in ps[..n] || q == ps[n];
    forall k | 0 <= k < |ps| && ps[k] !in ps[k + 1..]
      ensures r.cells[ps[k].0][ps[k].1] == colors[k]
    {
      if k < n {
        assert ps[k + 1..] == ps[..n][k + 1..] + [ps[n]];
        assert ps[..n][k] == ps[k] && colors[..n][k] == colors[k];
        assert r.cells[ps[k].0][ps[k].1] == before.cells[ps[k].0][ps[k].1];
      }
    }
  }
}
