/** Gravity towards row 0: `apply_gravity`, which lets every non-black cell of a column fall
    to the lowest free row while keeping the column's order, and `generate_dots_gravity`,
    which scatters single dots and lets them fall. */
module Gravity {
  import opened Seqs
  import opened Grids

  /** The colours of column `c`, from row 0 up. */
  function Column(g: Grid, c: int): (s: seq<Color>)
    requires Valid(g) && 0 <= c < g.cols
    ensures |s| == g.rows
    ensures forall r :: 0 <= r < g.rows ==> s[r] == g.cells[r][c]
  {
    seq(g.rows, r requires 0 <= r < g.rows => g.cells[r][c])
  }

  /** The non-black colours of `s`, in order: the list `apply_gravity` gathers per column. */
  function Coloured(s: seq<Color>): (r: seq<Color>)
    ensures |r| <= |s|
    ensures Black !in r
    ensures forall x :: x in r ==> x in s
  {
    if |s| == 0 then []
    else (if s[0] != Black then [s[0]] else []) + Coloured(s[1..])
  }

  function Blacks(n: nat): (r: seq<Color>)
    ensures |r| == n && forall i :: 0 <= i < n ==> r[i] == Black
  {
    seq(n, _ => Black)
  }

  /** Nothing sits above a black cell: once black, black up to the top. */
  predicate Settled(s: seq<Color>) {
    forall i, j :: 0 <= i < j < |s| && s[i] == Black ==> s[j] == Black
  }

  /** `apply_gravity`: in every column the non-black colours keep their order and fill rows
      `0 .. k - 1`, the rest of the column is black. */
  function ApplyGravity(g: Grid): (r: Grid)
    requires Valid(g)
    ensures Valid(r) && r.rows == g.rows && r.cols == g.cols
    ensures forall c :: 0 <= c < g.cols ==>
              Coloured(Column(r, c)) == Coloured(Column(g, c)) && Settled(Column(r, c))
  {
    var r := Grid(g.rows, g.cols,
                  seq(g.rows, i requires 0 <= i < g.rows =>
                    seq(g.cols, c requires 0 <= c < g.cols => Fallen(Column(g, c), i))));
    forall c | 0 <= c < g.cols
      ensures Coloured(Column(r, c)) == Coloured(Column(g, c)) && Settled(Column(r, c))
    {
      var cs := Coloured(Column(g, c));
      assert Column(r, c) == cs + Blacks(g.rows - |cs|);
      ColouredPacked(cs, g.rows - |cs|);
    }
    r
  }

  /** Row `i` of a column after the fall: the `i`-th non-black colour, or black. */
  function Fallen(column: seq<Color>, i: nat): Color {
    var cs := Coloured(column);
    if i < |cs| then cs[i] else Black
  }

  /** Black cells after the colours add no colour. */
  lemma {:induction false} ColouredPacked(cs: seq<Color>, n: nat)
    requires Black !in cs
    ensures Coloured(cs + Blacks(n)) == cs
    ensures Settled(cs + Blacks(n))
  {
    if |cs| == 0 {
      ColouredBlacks(n);
      assert cs + Blacks(n) == Blacks(n);
    } else {
      assert (cs + Blacks(n))[1..] == cs[1..] + Blacks(n);
      ColouredPacked(cs[1..], n);
    }
  }

  lemma {:induction false} ColouredBlacks(n: nat)
    ensures Coloured(Blacks(n)) == []
  {
    if n > 0 {
      assert Blacks(n)[1..] == Blacks(n - 1);
      ColouredBlacks(n - 1);
    }
  }

  /** A settled column is its colours followed by black: the two properties of
      `ApplyGravity` determine each column of its result. */
  lemma {:induction false} SettledForm(s: seq<Color>)
    requires Settled(s)
    ensures s == Coloured(s) + Blacks(|s| - |Coloured(s)|)
  {
    if |s| > 0 {
      assert Settled(s[1..]);
      SettledForm(s[1..]);
      if s[0] == Black {
        assert s == Blacks(|s|);
        ColouredBlacks(|s|);
      }
    }
  }

  /** Letting the cells fall a second time changes nothing. */
  lemma GravityIdempotent(g: Grid)
    requires Valid(g)
    ensures ApplyGravity(ApplyGravity(g)) == ApplyGravity(g)
  {
    var once := ApplyGravity(g);
    var twice := ApplyGravity(once);
    forall c | 0 <= c < g.cols
      ensures Column(twice, c) == Column(once, c)
    {
      SettledForm(Column(twice, c));
      SettledForm(Column(once, c));
    }
    forall i, c | InBounds(g, i, c)
      ensures twice.cells[i][c] == once.cells[i][c]
    {
      assert Column(twice, c)[i] == Column(once, c)[i];
    }
    SameCells(twice, once);
  }

  /** `positions` as `random.sample` draws them from all cells `(r, c)`: distinct cells of a
      `rows` by `cols` grid. */
  predicate Sampled(positions: seq<(int, int)>, rows: nat, cols: nat) {
    && Distinct(positions)
    && forall k :: 0 <= k < |positions| ==> 0 <= positions[k].0 < rows && 0 <= positions[k].1 < cols
  }

  /** `generate_dots_gravity`: the `k`-th sampled cell gets `picks[k]`, one of `colors`,
      and the expected output is the input after the fall. `n` is the length of
      `positions`. */
  function DotsGravity(rows: nat, cols: nat, colors: seq<Color>, positions: seq<(int, int)>, picks: seq<Color>)
    : (r: Generated)
    requires Sampled(positions, rows, cols)
    requires |picks| == |positions| && forall k :: 0 <= k < |picks| ==> picks[k] in colors
    ensures r.Triple? && r.nObjects == |positions|
    ensures Valid(r.input) && r.input.rows == rows && r.input.cols == cols
    ensures forall k :: 0 <= k < |positions| ==> r.input.cells[positions[k].0][positions[k].1] == picks[k]
    ensures forall i, j :: InBounds(r.input, i, j) && (i, j) !in positions ==> r.input.cells[i][j] == Black
    ensures r.output == ApplyGravity(r.input)
  {
    var blank := New(rows, cols, Black);
    assert Inside(blank, positions);
    assert forall k :: 0 <= k < |positions| ==> positions[k] !in positions[k + 1..];
    var input := PaintEach(blank, positions, picks);
    Triple(input, ApplyGravity(input), |positions|)
  }
}
