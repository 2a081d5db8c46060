/** The recolouring rules: inversion (two colours change places), odd colour (every
    block takes the colour of the one odd block) and cross/plus (3 by 3 stamps keep their
    cells and change colour by shape).

    The draws are inputs: block counts, the indices `random.sample(colors, 2)` picks, the
    sampled positions, the odd block's index, the shuffled stamp candidates and the shape
    chosen for each. A position is an `(x, y)` pair with `x` ranging over columns, and
    `fill_cell(x, y)` uses `x` as the row, as the generators do. */
module Recolor {
  import opened Seqs
  import opened Grids

  type Point = (int, int)

  /** Positions as `random.sample` draws them from `[(x, y) for x in range(cols) for y in
      range(rows)]`: distinct, with `x` below `cols` and `y` below `rows`. */
  predicate Scattered(ps: seq<Point>, rows: nat, cols: nat) {
    && Distinct(ps)
    && forall k :: 0 <= k < |ps| ==> 0 <= ps[k].0 < cols && 0 <= ps[k].1 < rows
  }

  /** The grid bound `fill_cell(x, y)` needs: `x` below `rows`, `y` below `cols`. On a
      square grid it follows from `Scattered`. */
  predicate Fits(ps: seq<Point>, rows: nat, cols: nat) {
    forall k :: 0 <= k < |ps| ==> 0 <= ps[k].0 < rows && 0 <= ps[k].1 < cols
  }

  /** A distinct list in two parts: a position is in at most one of them. */
  lemma SplitApart(ps: seq<Point>, n: nat, q: Point)
    requires Distinct(ps) && n <= |ps|
    ensures !(q in ps[..n] && q in ps[n..])
  {
    if q in ps[..n] {
      var i :| 0 <= i < n && ps[..n][i] == q;
      assert forall j :: 0 <= j < |ps| - n ==> ps[n..][j] == ps[n + j];
    }
  }

  /** A blank grid with the first `n` positions in `c1` and the rest in `c2`: the input of
      the inversion, majority and minority rules. */
  function TwoColours(rows: nat, cols: nat, ps: seq<Point>, n: nat, c1: Color, c2: Color): (g: Grid)
    requires Distinct(ps) && Fits(ps, rows, cols) && n <= |ps|
    ensures Valid(g) && g.rows == rows && g.cols == cols
    ensures forall k :: 0 <= k < |ps| ==> g.cells[ps[k].0][ps[k].1] == if k < n then c1 else c2
    ensures forall i, j :: InBounds(g, i, j) && (i, j) !in ps ==> g.cells[i][j] == Black
  {
    var blank := New(rows, cols, Black);
    PartsInside(blank, ps, n, c1);
    var g := Paint(Paint(blank, ps[..n], c1), ps[n..], c2);
    TwoColoursPositions(blank, ps, n, c1, c2);
    TwoColoursRest(blank, ps, n, c1, c2);
    g
  }

  /** Both parts of a list of positions inside a grid are inside it, also once the first
      part is painted. */
  lemma PartsInside(g: Grid, ps: seq<Point>, n: nat, c1: Color)
    requires Valid(g) && Inside(g, ps) && n <= |ps|
    ensures Inside(g, ps[..n]) && Inside(Paint(g, ps[..n], c1), ps[n..])
  {
    assert forall k :: 0 <= k < n ==> ps[..n][k] == ps[k];
    assert forall k :: 0 <= k < |ps| - n ==> ps[n..][k] == ps[n + k];
  }

  /** Painting the two parts of a distinct list gives each position its part's colour. */
  lemma TwoColoursPositions(g: Grid, ps: seq<Point>, n: nat, c1: Color, c2: Color)
    requires Valid(g) && Distinct(ps) && n <= |ps|
    requires Inside(g, ps[..n]) && Inside(Paint(g, ps[..n], c1), ps[n..])
    ensures var r := Paint(Paint(g, ps[..n], c1), ps[n..], c2);
            forall k :: 0 <= k < |ps| ==> r.cells[ps[k].0][ps[k].1] == if k < n then c1 else c2
  {
    forall k | 0 <= k < |ps|
      ensures Paint(Paint(g, ps[..n], c1), ps[n..], c2).cells[ps[k].0][ps[k].1] == if k < n then c1 else c2
    {
      TwoColoursCell(g, ps, n, c1, c2, k);
    }
  }

  /** The colour one position gets from painting the two parts. */
  lemma TwoColoursCell(g: Grid, ps: seq<Point>, n: nat, c1: Color, c2: Color, k: nat)
    requires Valid(g) && Distinct(ps) && n <= |ps| && k < |ps|
    requires Inside(g, ps[..n]) && Inside(Paint(g, ps[..n], c1), ps[n..])
    ensures Paint(Paint(g, ps[..n], c1), ps[n..], c2).cells[ps[k].0][ps[k].1] == if k < n then c1 else c2
  {
    PartOf(ps, n, k);
    var q := ps[k];
    var first := Paint(g, ps[..n], c1);
    if k < n {
      assert q == ps[..n][k];
      assert InBounds(g, q.0, q.1);
      assert first.cells[q.0][q.1] == c1;
    } else {
      assert q == ps[n..][k - n];
      assert InBounds(first, q.0, q.1);
    }
  }

  /** Painting the two parts leaves every unlisted cell as it was. */
  lemma TwoColoursRest(g: Grid, ps: seq<Point>, n: nat, c1: Color, c2: Color)
    requires Valid(g) && n <= |ps|
    requires Inside(g, ps[..n]) && Inside(Paint(g, ps[..n], c1), ps[n..])
    ensures var r := Paint(Paint(g, ps[..n], c1), ps[n..], c2);
            forall i, j :: InBounds(g, i, j) && (i, j) !in ps ==> r.cells[i][j] == g.cells[i][j]
  {
    assert forall q :: q in ps[..n] || q in ps[n..] ==> q in ps;
  }

  /** Which part of a distinct list split at `n` holds the `k`-th position. */
  lemma PartOf(ps: seq<Point>, n: nat, k: nat)
    requires Distinct(ps) && n <= |ps| && k < |ps|
    ensures k < n ==> ps[k] in ps[..n] && ps[k] !in ps[n..]
    ensures n <= k ==> ps[k] in ps[n..]
  {
    SplitApart(ps, n, ps[k]);
    if k < n {
      assert ps[k] == ps[..n][k];
    } else {
      assert ps[k] == ps[n..][k - n];
    }
  }

  /** `generate_inversion_recolor`: the positions in `all_positions[:n1]` in `color1` and
      the rest in `color2` in the input, the two colours exchanged in the output. A negative
      `n1` counts from the end, as Python's slice does. `pick1` and `pick2` are the indices
      `random.sample(colors, 2)` chooses. */
  function Inversion(rows: nat, cols: nat, colors: seq<Color>, n1: int, n2: int,
                     pick1: nat, pick2: nat, positions: seq<Point>): (r: Generated)
    requires pick1 < |colors| && pick2 < |colors| && pick1 != pick2
    requires Scattered(positions, rows, cols) && Fits(positions, rows, cols)
    requires |positions| == n1 + n2
    ensures r.Triple? && r.nObjects == n1 + n2
    ensures Valid(r.input) && Valid(r.output)
    ensures r.input.rows == r.output.rows == rows && r.input.cols == r.output.cols == cols
    ensures forall k :: 0 <= k < |positions| ==>
              var first := k < SliceEnd(n1, |positions|);
              r.input.cells[positions[k].0][positions[k].1] == (if first then colors[pick1] else colors[pick2])
              && r.output.cells[positions[k].0][positions[k].1] == (if first then colors[pick2] else colors[pick1])
    ensures forall i, j :: InBounds(r.input, i, j) && (i, j) !in positions ==>
              r.input.cells[i][j] == Black && r.output.cells[i][j] == Black
    ensures Distinct(colors) ==> colors[pick1] != colors[pick2]
  {
    var c1, c2 := colors[pick1], colors[pick2];
    var n := SliceEnd(n1, |positions|);
    Triple(TwoColours(rows, cols, positions, n, c1, c2), TwoColours(rows, cols, positions, n, c2, c1), n1 + n2)
  }

  /** Exchanging two colours, black staying black. */
  function Swap(x: Color, c1: Color, c2: Color): Color {
    if x == c1 then c2 else if x == c2 then c1 else x
  }

  /** The inversion's output is its input with the two colours exchanged, cell by cell,
      when neither colour is black. */
  lemma InversionSwaps(rows: nat, cols: nat, colors: seq<Color>, n1: int, n2: int,
                       pick1: nat, pick2: nat, positions: seq<Point>)
    requires pick1 < |colors| && pick2 < |colors| && pick1 != pick2
    requires Scattered(positions, rows, cols) && Fits(positions, rows, cols)
    requires |positions| == n1 + n2
    requires colors[pick1] != colors[pick2] && colors[pick1] != Black && colors[pick2] != Black
    ensures var r := Inversion(rows, cols, colors, n1, n2, pick1, pick2, positions);
            forall i, j :: InBounds(r.input, i, j) ==>
              r.output.cells[i][j] == Swap(r.input.cells[i][j], colors[pick1], colors[pick2])
  {
    SwappedColours(rows, cols, positions, SliceEnd(n1, |positions|), colors[pick1], colors[pick2]);
  }

  /** Painting the two parts with the colours exchanged exchanges the colours cell by
      cell. */
  lemma SwappedColours(rows: nat, cols: nat, ps: seq<Point>, n: nat, c1: Color, c2: Color)
    requires Distinct(ps) && Fits(ps, rows, cols) && n <= |ps|
    requires c1 != c2 && c1 != Black && c2 != Black
    ensures var a := TwoColours(rows, cols, ps, n, c1, c2);
            var b := TwoColours(rows, cols, ps, n, c2, c1);
            forall i, j :: InBounds(a, i, j) ==> b.cells[i][j] == Swap(a.cells[i][j], c1, c2)
  {
    var a := TwoColours(rows, cols, ps, n, c1, c2);
    var b := TwoColours(rows, cols, ps, n, c2, c1);
    forall i, j | InBounds(a, i, j) && (i, j) in ps
      ensures b.cells[i][j] == Swap(a.cells[i][j], c1, c2)
    {
      var k :| 0 <= k < |ps| && ps[k] == (i, j);
    }
  }

  /** `generate_odd_color_recolor`: at least two positions, all in the majority colour in
      the input but the one at `oddIndex` (the draw of `random.choice`), and all in the odd
      colour in the output. `draw` is the drawn block count. */
  function OddColour(rows: nat, cols: nat, colors: seq<Color>, draw: int, pickMajority: nat, pickOdd: nat,
                     positions: seq<Point>, oddIndex: nat): (r: Generated)
    requires pickMajority < |colors| && pickOdd < |colors| && pickMajority != pickOdd
    requires Scattered(positions, rows, cols) && Fits(positions, rows, cols)
    requires |positions| == if draw >= 2 then draw else 2
    requires oddIndex < |positions|
    ensures r.Triple? && r.nObjects == |positions| && r.nObjects >= 2
    ensures Valid(r.input) && Valid(r.output)
    ensures r.input.rows == r.output.rows == rows && r.input.cols == r.output.cols == cols
    ensures forall k :: 0 <= k < |positions| ==>
              r.input.cells[positions[k].0][positions[k].1] == (if k == oddIndex then colors[pickOdd] else colors[pickMajority])
              && r.output.cells[positions[k].0][positions[k].1] == colors[pickOdd]
    ensures forall i, j :: InBounds(r.input, i, j) && (i, j) !in positions ==>
              r.input.cells[i][j] == Black && r.output.cells[i][j] == Black
  {
    Triple(OddInput(rows, cols, positions, oddIndex, colors[pickMajority], colors[pickOdd]),
           TwoColours(rows, cols, positions, |positions|, colors[pickOdd], colors[pickOdd]),
           |positions|)
  }

  /** A blank grid with every position in `majority` but the one at `oddIndex`, which is
      in `odd`. */
  function OddInput(rows: nat, cols: nat, ps: seq<Point>, oddIndex: nat, majority: Color, odd: Color): (g: Grid)
    requires Distinct(ps) && Fits(ps, rows, cols) && oddIndex < |ps|
    ensures Valid(g) && g.rows == rows && g.cols == cols
    ensures forall k :: 0 <= k < |ps| ==> g.cells[ps[k].0][ps[k].1] == if k == oddIndex then odd else majority
    ensures forall i, j :: InBounds(g, i, j) && (i, j) !in ps ==> g.cells[i][j] == Black
  {
    var blank := New(rows, cols, Black);
    assert Inside(blank, ps);
    var p := ps[oddIndex];
    var all := Paint(blank, ps, majority);
    var g := Set(all, p.0, p.1, odd);
    forall k | 0 <= k < |ps|
      ensures g.cells[ps[k].0][ps[k].1] == if k == oddIndex then odd else majority
    {
      assert ps[k] in ps;
      if k != oddIndex {
        assert ps[k] != p;
      }
    }
    g
  }

  /** In the odd-colour input exactly one cell has the odd colour, when the two colours
      differ and the odd one is not black. */
  lemma OddOneOut(rows: nat, cols: nat, colors: seq<Color>, draw: int, pickMajority: nat, pickOdd: nat,
                  positions: seq<Point>, oddIndex: nat)
    requires pickMajority < |colors| && pickOdd < |colors| && pickMajority != pickOdd
    requires Scattered(positions, rows, cols) && Fits(positions, rows, cols)
    requires |positions| == if draw >= 2 then draw else 2
    requires oddIndex < |positions|
    requires colors[pickOdd] != colors[pickMajority] && colors[pickOdd] != Black
    ensures var r := OddColour(rows, cols, colors, draw, pickMajority, pickOdd, positions, oddIndex);
            forall i, j :: InBounds(r.input, i, j) ==>
              (r.input.cells[i][j] == colors[pickOdd] <==> (i, j) == positions[oddIndex])
  {
    OddCell(rows, cols, positions, oddIndex, colors[pickMajority], colors[pickOdd]);
  }

  /** The odd position is the only cell of `OddInput` in the odd colour. */
  lemma OddCell(rows: nat, cols: nat, ps: seq<Point>, oddIndex: nat, majority: Color, odd: Color)
    requires Distinct(ps) && Fits(ps, rows, cols) && oddIndex < |ps|
    requires odd != majority && odd != Black
    ensures var g := OddInput(rows, cols, ps, oddIndex, majority, odd);
            forall i, j :: InBounds(g, i, j) ==> (g.cells[i][j] == odd <==> (i, j) == ps[oddIndex])
  {
    var g := OddInput(rows, cols, ps, oddIndex, majority, odd);
    forall i, j | InBounds(g, i, j) && (i, j) in ps
      ensures g.cells[i][j] == odd <==> (i, j) == ps[oddIndex]
    {
      var k :| 0 <= k < |ps| && ps[k] == (i, j);
    }
  }

  // ---------------- cross / plus stamps ----------------

  datatype Shape = Cross | Plus

  /** `OFFSETS`: the cells of a 3 by 3 stamp relative to its top-left corner. */
  function Offsets(shape: Shape): seq<Point> {
    match shape
    case Plus => [(0, 1), (1, 0), (1, 1), (1, 2), (2, 1)]
    case Cross => [(0, 0), (0, 2), (1, 1), (2, 0), (2, 2)]
  }

  /** Each shape has five distinct cells inside its 3 by 3 square, and the two shapes
      share only the middle cell. */
  lemma OffsetsShape()
    ensures forall s: Shape :: |Offsets(s)| == 5 && Distinct(Offsets(s))
    ensures forall s: Shape, o :: o in Offsets(s) ==> 0 <= o.0 <= 2 && 0 <= o.1 <= 2
    ensures forall o :: o in Offsets(Cross) && o in Offsets(Plus) <==> o == (1, 1)
  {
  }

  datatype Stamp = Stamp(shape: Shape, cells: seq<Point>)

  /** The stamp of `shape` with its top-left corner at `top`, as `(row, col)` cells. */
  function StampAt(top: Point, shape: Shape): (s: Stamp)
    ensures s.shape == shape && |s.cells| == 5
    ensures forall k :: 0 <= k < 5 ==> s.cells[k] == (top.0 + Offsets(shape)[k].0, top.1 + Offsets(shape)[k].1)
  {
    var offs := Offsets(shape);
    Stamp(shape, seq(|offs|, k requires 0 <= k < |offs| => (top.0 + offs[k].0, top.1 + offs[k].1)))
  }

  /** Some cell of `s` is taken by a stamp already placed. */
  ghost predicate Clashes(s: Stamp, placed: seq<Stamp>) {
    exists a, q :: 0 <= a < |placed| && q in s.cells && q in placed[a].cells
  }

  /** No cell belongs to two placed stamps. */
  ghost predicate Disjoint(placed: seq<Stamp>) {
    forall a, b, q :: 0 <= a < b < |placed| && q in placed[a].cells ==> q !in placed[b].cells
  }

  /** The cells of all placed stamps: the `used` set. */
  ghost function Covered(placed: seq<Stamp>): set<Point> {
    set a, q | 0 <= a < |placed| && q in placed[a].cells :: q
  }

  /** Top-left corners as `candidates` lists them: rows below `rows - 2`, columns below
      `cols - 2`, so a whole stamp fits. */
  predicate Corners(cands: seq<Point>, rows: nat, cols: nat) {
    forall i :: 0 <= i < |cands| ==> 0 <= cands[i].0 < rows - 2 && 0 <= cands[i].1 < cols - 2
  }

  /** The greedy loop of `generate_cross_plus_recolor`: each candidate corner in turn with
      its drawn shape, skipped when it clashes with a placed stamp, the loop ending once
      `k` stamps are placed. A stamp placed is inside the grid and disjoint from the
      others; when fewer than `k` were placed every candidate was placed or clashed. */
  method PlaceStamps(rows: nat, cols: nat, cands: seq<Point>, shapes: seq<Shape>, k: int)
    returns (placed: seq<Stamp>)
    requires |shapes| == |cands| && Corners(cands, rows, cols)
    ensures Within(placed, rows, cols)
    ensures Disjoint(placed)
    ensures k >= 1 ==> |placed| <= k
    ensures forall a :: 0 <= a < |placed| ==> placed[a] in Offered(cands, shapes)
    ensures k < 1 || |placed| < k ==> Considered(cands, shapes, |cands|, placed)
    ensures placed == Greedy(cands, shapes, k)
  {
    var used: set<Point> := {};
    placed := [];
    var i := 0;
    var full := false;
    while i < |cands| && !full
      invariant 0 <= i <= |cands|
      invariant Tracked(placed, used, rows, cols)
      invariant full ==> k >= 1 && |placed| == k
      invariant !full ==> k >= 1 ==> |placed| < k
      invariant forall a :: 0 <= a < |placed| ==> placed[a] in Offered(cands, shapes)
      invariant !full ==> Considered(cands, shapes, i, placed)
      invariant GreedyFrom(cands, shapes, k, i, placed) == Greedy(cands, shapes, k)
    {
      var next, nextUsed := Consider(rows, cols, cands, shapes, i, placed, used);
      if |next| > |placed| {
        full := |next| == k;
      }
      placed, used := next, nextUsed;
      i := i + 1;
    }
  }

  /** The stamps the greedy loop places from the `i`-th candidate on, `placed` being those
      placed before it: the reference definition of the loop. */
  ghost function GreedyFrom(cands: seq<Point>, shapes: seq<Shape>, k: int, i: nat, placed: seq<Stamp>): seq<Stamp>
    requires i <= |cands| == |shapes|
    decreases |cands| - i
  {
    if i == |cands| || (k >= 1 && |placed| >= k) then placed
    else
      var s := StampAt(cands[i], shapes[i]);
      GreedyFrom(cands, shapes, k, i + 1, if Clashes(s, placed) then placed else placed + [s])
  }

  /** The stamps the greedy loop places. */
  ghost function Greedy(cands: seq<Point>, shapes: seq<Shape>, k: int): seq<Stamp>
    requires |cands| == |shapes|
  {
    GreedyFrom(cands, shapes, k, 0, [])
  }

  /** The greedy loop only ever appends. */
  lemma {:induction false} GreedyExtends(cands: seq<Point>, shapes: seq<Shape>, k: int, i: nat, placed: seq<Stamp>)
    requires i <= |cands| == |shapes|
    ensures placed <= GreedyFrom(cands, shapes, k, i, placed)
    decreases |cands| - i
  {
    if i < |cands| && !(k >= 1 && |placed| >= k) {
      var s := StampAt(cands[i], shapes[i]);
      var next := if Clashes(s, placed) then placed else placed + [s];
      GreedyExtends(cands, shapes, k, i + 1, next);
    }
  }

  /** The first candidate is always placed when at least one stamp is wanted, whatever
      the later candidates offer. */
  lemma GreedyTakesFirst(cands: seq<Point>, shapes: seq<Shape>, k: int)
    requires 0 < |cands| == |shapes| && k >= 1
    ensures var g := Greedy(cands, shapes, k);
            |g| > 0 && g[0] == StampAt(cands[0], shapes[0])
  {
    var s := StampAt(cands[0], shapes[0]);
    assert !Clashes(s, []);
    assert Greedy(cands, shapes, k) == GreedyFrom(cands, shapes, k, 1, [] + [s]);
    assert [] + [s] == [s];
    GreedyExtends(cands, shapes, k, 1, [s]);
    assert [s] <= Greedy(cands, shapes, k);
  }

  /** One turn of the greedy loop: the `i`-th candidate's stamp is placed unless it clashes
      with a placed stamp. */
  method Consider(rows: nat, cols: nat, cands: seq<Point>, shapes: seq<Shape>, i: nat,
                  placed: seq<Stamp>, used: set<Point>)
    returns (next: seq<Stamp>, nextUsed: set<Point>)
    requires |shapes| == |cands| && Corners(cands, rows, cols) && i < |cands|
    requires Tracked(placed, used, rows, cols)
    requires forall a :: 0 <= a < |placed| ==> placed[a] in Offered(cands, shapes)
    requires Considered(cands, shapes, i, placed)
    ensures Tracked(next, nextUsed, rows, cols)
    ensures next == placed || next == placed + [StampAt(cands[i], shapes[i])]
    ensures next == placed <==> Clashes(StampAt(cands[i], shapes[i]), placed)
    ensures forall a :: 0 <= a < |next| ==> next[a] in Offered(cands, shapes)
    ensures Considered(cands, shapes, i + 1, next)
  {
    var s := StampAt(cands[i], shapes[i]);
    assert s == Offered(cands, shapes)[i];
    if exists q :: q in s.cells && q in used {
      var q :| q in s.cells && q in used;
      assert Clashes(s, placed);
      ConsideredNext(cands, shapes, i, placed, placed);
      next, nextUsed := placed, used;
    } else {
      StampInBounds(cands[i], shapes[i], rows, cols);
      PlaceOne(placed, s, used, rows, cols);
      ConsideredNext(cands, shapes, i, placed, placed + [s]);
      next, nextUsed := placed + [s], used + set q | q in s.cells;
      assert next != placed by { assert |next| == |placed| + 1; }
    }
  }

  /** Every cell of a placed stamp is inside the grid. */
  ghost predicate Within(placed: seq<Stamp>, rows: nat, cols: nat) {
    forall a, q :: 0 <= a < |placed| && q in placed[a].cells ==> 0 <= q.0 < rows && 0 <= q.1 < cols
  }

  /** The loop's state: `used` holds the cells of the placed stamps, which lie inside the
      grid and do not overlap. */
  ghost predicate Tracked(placed: seq<Stamp>, used: set<Point>, rows: nat, cols: nat) {
    used == Covered(placed) && Within(placed, rows, cols) && Disjoint(placed)
  }

  /** The stamp each candidate corner offers with its drawn shape. */
  function Offered(cands: seq<Point>, shapes: seq<Shape>): (r: seq<Stamp>)
    requires |shapes| == |cands|
    ensures |r| == |cands| && forall i :: 0 <= i < |cands| ==> r[i] == StampAt(cands[i], shapes[i])
  {
    seq(|cands|, i requires 0 <= i < |cands| => StampAt(cands[i], shapes[i]))
  }

  /** Each of the first `i` candidates was placed or clashed with a placed stamp. */
  ghost predicate Considered(cands: seq<Point>, shapes: seq<Shape>, i: nat, placed: seq<Stamp>)
    requires i <= |cands| == |shapes|
  {
    forall j :: 0 <= j < i ==> StampAt(cands[j], shapes[j]) in placed || Clashes(StampAt(cands[j], shapes[j]), placed)
  }

  /** Considering one more candidate: it is placed now or clashes, and placing it keeps the
      earlier ones placed or clashing. */
  lemma ConsideredNext(cands: seq<Point>, shapes: seq<Shape>, i: nat, placed: seq<Stamp>, after: seq<Stamp>)
    requires i < |cands| == |shapes|
    requires Considered(cands, shapes, i, placed)
    requires placed <= after
    requires StampAt(cands[i], shapes[i]) in after || Clashes(StampAt(cands[i], shapes[i]), after)
    ensures Considered(cands, shapes, i + 1, after)
  {
    forall j | 0 <= j < i
      ensures StampAt(cands[j], shapes[j]) in after || Clashes(StampAt(cands[j], shapes[j]), after)
    {
      var t := StampAt(cands[j], shapes[j]);
      if t in placed {
        var a :| 0 <= a < |placed| && placed[a] == t;
        assert after[a] == t;
      } else {
        var a, q :| 0 <= a < |placed| && q in t.cells && q in placed[a].cells;
        assert after[a] == placed[a];
      }
    }
  }

  /** A stamp at a candidate corner lies inside the grid. */
  lemma StampInBounds(top: Point, shape: Shape, rows: nat, cols: nat)
    requires 0 <= top.0 < rows - 2 && 0 <= top.1 < cols - 2
    ensures forall q :: q in StampAt(top, shape).cells ==> 0 <= q.0 < rows && 0 <= q.1 < cols
  {
    var s := StampAt(top, shape);
    forall q | q in s.cells
      ensures 0 <= q.0 < rows && 0 <= q.1 < cols
    {
      var k :| 0 <= k < 5 && s.cells[k] == q;
      assert Offsets(shape)[k] in Offsets(shape);
      OffsetsShape();
    }
  }

  /** Adding a stamp inside the grid that clashes with nothing keeps the state, and a
      stamp that clashed still clashes. */
  lemma PlaceOne(placed: seq<Stamp>, s: Stamp, used: set<Point>, rows: nat, cols: nat)
    requires Tracked(placed, used, rows, cols)
    requires forall q :: q in s.cells ==> 0 <= q.0 < rows && 0 <= q.1 < cols
    requires !exists q :: q in s.cells && q in used
    ensures Tracked(placed + [s], used + (set q | q in s.cells), rows, cols)
    ensures forall t :: Clashes(t, placed) ==> Clashes(t, placed + [s])
  {
    var after := placed + [s];
    forall a, b, q | 0 <= a < b < |after| && q in after[a].cells
      ensures q !in after[b].cells
    {
      if b == |placed| {
        assert q in Covered(placed);
      }
    }
    forall a, q | 0 <= a < |after| && q in after[a].cells
      ensures 0 <= q.0 < rows && 0 <= q.1 < cols
    {
      if a < |placed| {
        assert after[a] == placed[a];
      }
    }
    forall q
      ensures q in Covered(after) <==> q in used || q in s.cells
    {
      if q in Covered(after) {
        var a :| 0 <= a < |after| && q in after[a].cells;
        if a < |placed| {
          assert after[a] == placed[a];
        }
      }
      if q in used {
        var a :| 0 <= a < |placed| && q in placed[a].cells;
        assert after[a] == placed[a];
      }
      if q in s.cells {
        assert after[|placed|] == s;
      }
    }
    forall t | Clashes(t, placed)
      ensures Clashes(t, after)
    {
      var a, q :| 0 <= a < |placed| && q in t.cells && q in placed[a].cells;
      assert after[a] == placed[a];
    }
  }

  /** The cells of the stamps of one shape, stamp by stamp. */
  function CellsOf(placed: seq<Stamp>, shape: Shape): (r: seq<Point>)
    ensures forall q :: q in r <==> exists a :: 0 <= a < |placed| && placed[a].shape == shape && q in placed[a].cells
  {
    if |placed| == 0 then []
    else
      var n := |placed| - 1;
      var before := CellsOf(placed[..n], shape);
      assert forall a :: 0 <= a < n ==> placed[..n][a] == placed[a];
      before + (if placed[n].shape == shape then placed[n].cells else [])
  }

  /** `generate_cross_plus_recolor` with `k` the drawn stamp count: the placed stamps'
      cells are `colors[0]` in the input; in the output cross cells are `colors[1]` and plus
      cells `colors[2]`; everything else is black. The stamps are disjoint, so painting the
      crosses before the pluses gives the same grid as painting stamp by stamp. */
  method CrossPlus(rows: nat, cols: nat, colors: seq<Color>, k: int, cands: seq<Point>, shapes: seq<Shape>)
    returns (r: Generated, placed: seq<Stamp>)
    requires |colors| >= 3
    requires |shapes| == |cands| && Corners(cands, rows, cols)
    ensures Within(placed, rows, cols)
    ensures Disjoint(placed)
    ensures k >= 1 ==> |placed| <= k
    ensures forall a :: 0 <= a < |placed| ==> placed[a] in Offered(cands, shapes)
    ensures k < 1 || |placed| < k ==> Considered(cands, shapes, |cands|, placed)
    ensures placed == Greedy(cands, shapes, k)
    ensures r.Triple? && r.nObjects == |placed|
    ensures Valid(r.input) && Valid(r.output)
    ensures r.input.rows == r.output.rows == rows && r.input.cols == r.output.cols == cols
    ensures forall i, j :: InBounds(r.input, i, j) ==>
              && r.input.cells[i][j] == (if (i, j) in Covered(placed) then colors[0] else Black)
              && r.output.cells[i][j] == (if (i, j) in CellsOf(placed, Cross) then colors[1]
                                          else if (i, j) in CellsOf(placed, Plus) then colors[2]
                                          else Black)
  {
    placed := PlaceStamps(rows, cols, cands, shapes, k);
    r := Triple(StampsIn(rows, cols, placed, colors[0]), StampsOut(rows, cols, placed, colors[1], colors[2]), |placed|);
  }

  /** The input of the stamp rule: every covered cell in `color`. */
  function StampsIn(rows: nat, cols: nat, placed: seq<Stamp>, color: Color): (g: Grid)
    requires Within(placed, rows, cols)
    ensures Valid(g) && g.rows == rows && g.cols == cols
    ensures forall i, j :: InBounds(g, i, j) ==> g.cells[i][j] == if (i, j) in Covered(placed) then color else Black
  {
    var blank := New(rows, cols, Black);
    StampsInside(blank, placed);
    ShapesCover(placed);
    Paint(blank, CellsOf(placed, Cross) + CellsOf(placed, Plus), color)
  }

  /** The output of the stamp rule: cross cells in `crossColor`, plus cells in
      `plusColor`. */
  function StampsOut(rows: nat, cols: nat, placed: seq<Stamp>, crossColor: Color, plusColor: Color): (g: Grid)
    requires Within(placed, rows, cols) && Disjoint(placed)
    ensures Valid(g) && g.rows == rows && g.cols == cols
    ensures forall i, j :: InBounds(g, i, j) ==>
              g.cells[i][j] == if (i, j) in CellsOf(placed, Cross) then crossColor
                               else if (i, j) in CellsOf(placed, Plus) then plusColor
                               else Black
  {
    var blank := New(rows, cols, Black);
    StampsInside(blank, placed);
    ShapesApart(placed);
    Paint(Paint(blank, CellsOf(placed, Cross), crossColor), CellsOf(placed, Plus), plusColor)
  }

  /** The cells of the crosses and of the pluses are together the covered cells. */
  lemma ShapesCover(placed: seq<Stamp>)
    ensures forall q :: q in CellsOf(placed, Cross) + CellsOf(placed, Plus) <==> q in Covered(placed)
  {
    forall q | q in Covered(placed)
      ensures q in CellsOf(placed, Cross) + CellsOf(placed, Plus)
    {
      var a :| 0 <= a < |placed| && q in placed[a].cells;
      assert q in CellsOf(placed, placed[a].shape);
    }
  }

  /** Disjoint stamps: no cell is both in a cross and in a plus. */
  lemma ShapesApart(placed: seq<Stamp>)
    requires Disjoint(placed)
    ensures forall q :: q in CellsOf(placed, Cross) ==> q !in CellsOf(placed, Plus)
  {
    forall q | q in CellsOf(placed, Cross)
      ensures q !in CellsOf(placed, Plus)
    {
      var a :| 0 <= a < |placed| && placed[a].shape == Cross && q in placed[a].cells;
    }
  }

  /** The cells of placed stamps lie inside the grid. */
  lemma StampsInside(g: Grid, placed: seq<Stamp>)
    requires Within(placed, g.rows, g.cols)
    ensures Inside(g, CellsOf(placed, Cross)) && Inside(g, CellsOf(placed, Plus))
    ensures Inside(g, CellsOf(placed, Cross) + CellsOf(placed, Plus))
  {
    ShapeInside(g, placed, Cross);
    ShapeInside(g, placed, Plus);
    var cs := CellsOf(placed, Cross);
    var ps := CellsOf(placed, Plus);
    var all: seq<Point> := cs + ps;
    forall k | 0 <= k < |all|
      ensures InBounds(g, all[k].0, all[k].1)
    {
      if k >= |cs| {
        assert all[k] == ps[k - |cs|];
      }
    }
  }

  lemma ShapeInside(g: Grid, placed: seq<Stamp>, shape: Shape)
    requires Within(placed, g.rows, g.cols)
    ensures Inside(g, CellsOf(placed, shape))
  {
    var cs := CellsOf(placed, shape);
    forall k | 0 <= k < |cs|
      ensures InBounds(g, cs[k].0, cs[k].1)
    {
      assert cs[k] in cs;
    }
  }
}
