/** The counting rules: blocks in two colours, one group strictly larger than the other,
    all recoloured to the majority colour (or to the minority colour).

    The draws are inputs: `draw1` and `draw2` are the values `random.randint` would return
    inside the two `rand_between` calls, `pick1` and `pick2` the indices
    `random.sample(colors, 2)` picks, and `positions` the sampled cells. */
module Arithmetic {
  import opened Seqs
  import opened Grids
  import opened Recolor

  /** `rand_between(a, b)`: a draw in `[a, b]` when the range has more than one value,
      otherwise `a` itself. */
  function RandBetween(a: int, b: int, draw: int): (r: int)
    requires a < b ==> a <= draw <= b
    ensures a <= r && (r == a || r <= b)
    ensures b <= a ==> r == a
  {
    if a < b then draw else a
  }

  /** The draws are legal for the two `rand_between` calls of the block counts. */
  predicate Drawn(lo: int, hi: int, draw1: int, draw2: int) {
    && (lo < hi ==> lo <= draw1 <= hi)
    && var n1 := RandBetween(lo, hi, draw1);
       n1 > 1 && lo - 1 < n1 - 1 ==> lo - 1 <= draw2 <= n1 - 1
  }

  /** The block counts `(n1, n2)`: `n1` from the configured range and, when it exceeds
      one, `n2` from `lo - 1` up to one less than `n1`; otherwise `n2` is one. With the
      lower bound at least two the first group is strictly the larger. */
  function Counts(lo: int, hi: int, draw1: int, draw2: int): (n: (int, int))
    requires Drawn(lo, hi, draw1, draw2)
    ensures lo <= n.0
    ensures n.0 > 1 ==> lo - 1 <= n.1 <= n.0 - 1
    ensures n.0 <= 1 ==> n.1 == 1
    ensures lo >= 2 ==> 1 <= n.1 < n.0
  {
    var n1 := RandBetween(lo, hi, draw1);
    (n1, if n1 > 1 then RandBetween(lo - 1, n1 - 1, draw2) else 1)
  }

  /** The shared shape of both rules: the positions in `positions[:n1]` in `c1`, the rest
      in `c2` in the input; every position in `target` in the output. */
  function Recolour(rows: nat, cols: nat, positions: seq<Point>, n1: int,
                    c1: Color, c2: Color, target: Color): (r: Generated)
    requires Distinct(positions) && Fits(positions, rows, cols)
    ensures r.Triple? && r.nObjects == |positions|
    ensures Valid(r.input) && Valid(r.output)
    ensures r.input.rows == r.output.rows == rows && r.input.cols == r.output.cols == cols
    ensures forall k :: 0 <= k < |positions| ==>
              r.input.cells[positions[k].0][positions[k].1] == (if k < SliceEnd(n1, |positions|) then c1 else c2)
              && r.output.cells[positions[k].0][positions[k].1] == target
    ensures forall i, j :: InBounds(r.input, i, j) && (i, j) !in positions ==>
              r.input.cells[i][j] == Black && r.output.cells[i][j] == Black
  {
    var n := SliceEnd(n1, |positions|);
    Triple(TwoColours(rows, cols, positions, n, c1, c2),
           TwoColours(rows, cols, positions, |positions|, target, target),
           |positions|)
  }

  /** `generate_majority_recolor`: `n1` blocks in `color1` and `n2` in `color2`, all in
      `color1` in the output. */
  function Majority(rows: nat, cols: nat, colors: seq<Color>, lo: int, hi: int,
                    draw1: int, draw2: int, pick1: nat, pick2: nat, positions: seq<Point>): (r: Generated)
    requires Drawn(lo, hi, draw1, draw2)
    requires pick1 < |colors| && pick2 < |colors| && pick1 != pick2
    requires Scattered(positions, rows, cols) && Fits(positions, rows, cols)
    requires |positions| == Counts(lo, hi, draw1, draw2).0 + Counts(lo, hi, draw1, draw2).1
    ensures var (n1, n2) := Counts(lo, hi, draw1, draw2);
            && r.Triple? && r.nObjects == n1 + n2
            && Valid(r.input) && Valid(r.output)
            && r.input.rows == r.output.rows == rows && r.input.cols == r.output.cols == cols
            && (forall k :: 0 <= k < |positions| ==>
                  r.input.cells[positions[k].0][positions[k].1] == (if k < n1 then colors[pick1] else colors[pick2])
                  && r.output.cells[positions[k].0][positions[k].1] == colors[pick1])
            && (forall i, j :: InBounds(r.input, i, j) && (i, j) !in positions ==>
                  r.input.cells[i][j] == Black && r.output.cells[i][j] == Black)
  {
    var (n1, _) := Counts(lo, hi, draw1, draw2);
    Recolour(rows, cols, positions, n1, colors[pick1], colors[pick2], colors[pick1])
  }

  /** `generate_minority_recolor`: the same input, all blocks in `color2` in the output. */
  function Minority(rows: nat, cols: nat, colors: seq<Color>, lo: int, hi: int,
                    draw1: int, draw2: int, pick1: nat, pick2: nat, positions: seq<Point>): (r: Generated)
    requires Drawn(lo, hi, draw1, draw2)
    requires pick1 < |colors| && pick2 < |colors| && pick1 != pick2
    requires Scattered(positions, rows, cols) && Fits(positions, rows, cols)
    requires |positions| == Counts(lo, hi, draw1, draw2).0 + Counts(lo, hi, draw1, draw2).1
    ensures var (n1, n2) := Counts(lo, hi, draw1, draw2);
            && r.Triple? && r.nObjects == n1 + n2
            && Valid(r.input) && Valid(r.output)
            && r.input.rows == r.output.rows == rows && r.input.cols == r.output.cols == cols
            && (forall k :: 0 <= k < |positions| ==>
                  r.input.cells[positions[k].0][positions[k].1] == (if k < n1 then colors[pick1] else colors[pick2])
                  && r.output.cells[positions[k].0][positions[k].1] == colors[pick2])
            && (forall i, j :: InBounds(r.input, i, j) && (i, j) !in positions ==>
                  r.input.cells[i][j] == Black && r.output.cells[i][j] == Black)
  {
    var (n1, _) := Counts(lo, hi, draw1, draw2);
    Recolour(rows, cols, positions, n1, colors[pick1], colors[pick2], colors[pick2])
  }

  /** The output recolours every block of the input to `c` and leaves the background. */
  ghost predicate RecolouredTo(input: Grid, output: Grid, c: Color)
    requires Valid(input) && Valid(output) && input.rows == output.rows && input.cols == output.cols
  {
    forall i, j :: InBounds(input, i, j) ==>
      output.cells[i][j] == if input.cells[i][j] == Black then Black else c
  }

  /** With two non-black colours and a lower bound of at least two, the majority rule's
      input has strictly more blocks in `color1` than in `color2`, and the output is the
      input with every block recoloured to `color1`. */
  lemma MajorityWins(rows: nat, cols: nat, colors: seq<Color>, lo: int, hi: int,
                     draw1: int, draw2: int, pick1: nat, pick2: nat, positions: seq<Point>)
    requires 2 <= lo && Drawn(lo, hi, draw1, draw2)
    requires pick1 < |colors| && pick2 < |colors| && pick1 != pick2
    requires colors[pick1] != Black && colors[pick2] != Black
    requires Scattered(positions, rows, cols) && Fits(positions, rows, cols)
    requires |positions| == Counts(lo, hi, draw1, draw2).0 + Counts(lo, hi, draw1, draw2).1
    ensures var (n1, n2) := Counts(lo, hi, draw1, draw2);
            n1 <= |positions| && |positions[..n1]| > |positions[n1..]| >= 1
    ensures var r := Majority(rows, cols, colors, lo, hi, draw1, draw2, pick1, pick2, positions);
            RecolouredTo(r.input, r.output, colors[pick1])
  {
    var (n1, _) := Counts(lo, hi, draw1, draw2);
    RecolourAll(rows, cols, positions, n1, colors[pick1], colors[pick2], colors[pick1]);
  }

  /** The minority rule's output is its input with every block recoloured to `color2`,
      the colour of the smaller group. */
  lemma MinorityWins(rows: nat, cols: nat, colors: seq<Color>, lo: int, hi: int,
                     draw1: int, draw2: int, pick1: nat, pick2: nat, positions: seq<Point>)
    requires 2 <= lo && Drawn(lo, hi, draw1, draw2)
    requires pick1 < |colors| && pick2 < |colors| && pick1 != pick2
    requires colors[pick1] != Black && colors[pick2] != Black
    requires Scattered(positions, rows, cols) && Fits(positions, rows, cols)
    requires |positions| == Counts(lo, hi, draw1, draw2).0 + Counts(lo, hi, draw1, draw2).1
    ensures var r := Minority(rows, cols, colors, lo, hi, draw1, draw2, pick1, pick2, positions);
            RecolouredTo(r.input, r.output, colors[pick2])
  {
    var (n1, _) := Counts(lo, hi, draw1, draw2);
    RecolourAll(rows, cols, positions, n1, colors[pick1], colors[pick2], colors[pick2]);
  }

  /** With both input colours non-black, the shared shape recolours every block to
      `target`. */
  lemma RecolourAll(rows: nat, cols: nat, positions: seq<Point>, n1: int, c1: Color, c2: Color, target: Color)
    requires Distinct(positions) && Fits(positions, rows, cols)
    requires c1 != Black && c2 != Black
    ensures var r := Recolour(rows, cols, positions, n1, c1, c2, target);
            RecolouredTo(r.input, r.output, target)
  {
    var r := Recolour(rows, cols, positions, n1, c1, c2, target);
    forall i, j | InBounds(r.input, i, j) && (i, j) in positions
      ensures r.output.cells[i][j] == if r.input.cells[i][j] == Black then Black else target
    {
      var k :| 0 <= k < |positions| && positions[k] == (i, j);
    }
  }
}
