/**
 * The forest grid of `ForestFire`: a `height x width` array of cells whose
 * public coordinates put (x = 0, y = 0) at the bottom-left corner, so that
 * public row y is stored at row `height - 1 - y`.
 */
module Grid {
  import opened Wrappers
  import opened Factors
  import opened ForestCell

  datatype Forest = Forest(width: nat, height: nat, cells: seq<seq<Cell>>)

  /** The storage has `height` rows of `width` cells. */
  predicate WellFormed(f: Forest) {
    |f.cells| == f.height && forall r :: 0 <= r < |f.cells| ==> |f.cells[r]| == f.width
  }

  /** The complement of the grid library's `out_of_bounds`. */
  predicate InBounds(f: Forest, x: int, y: int) {
    0 <= x < f.width && 0 <= y < f.height
  }

  /** The storage row of public row y. */
  function Row(f: Forest, y: int): int {
    f.height - 1 - y
  }

  /** The storage row exists exactly for the public rows of the grid. */
  lemma RowInRange(f: Forest, y: int)
    ensures 0 <= Row(f, y) < f.height <==> 0 <= y < f.height
  {
  }

  /** `get_cell(x, y)`. */
  function GetCell(f: Forest, x: int, y: int): Cell
    requires WellFormed(f) && InBounds(f, x, y)
  {
    f.cells[Row(f, y)][x]
  }

  /** `set_cell(x, y, c)`: a write that a later `get_cell` of the same coordinate reads back and that no other coordinate observes. */
  function SetCell(f: Forest, x: int, y: int, c: Cell): (g: Forest)
    requires WellFormed(f) && InBounds(f, x, y)
    ensures WellFormed(g) && g.width == f.width && g.height == f.height
    ensures GetCell(g, x, y) == c
    ensures forall x', y' :: InBounds(f, x', y') && (x', y') != (x, y) ==> GetCell(g, x', y') == GetCell(f, x', y')
  {
    var r := Row(f, y);
    f.(cells := f.cells[r := f.cells[r][x := c]])
  }

  /** Two well-formed grids of one shape that agree at every coordinate are the same grid. */
  lemma Extensionality(f: Forest, g: Forest)
    requires WellFormed(f) && WellFormed(g)
    requires f.width == g.width && f.height == g.height
    requires forall x, y :: InBounds(f, x, y) ==> GetCell(f, x, y) == GetCell(g, x, y)
    ensures f == g
  {
    forall r | 0 <= r < f.height
      ensures f.cells[r] == g.cells[r]
    {
      forall c | 0 <= c < f.width
        ensures f.cells[r][c] == g.cells[r][c]
      {
        assert GetCell(f, c, f.height - 1 - r) == GetCell(g, c, f.height - 1 - r);
      }
    }
  }

  // ---------------------------------------------------------------------------
  // Neighbours

  /** The neighbour at offset o of (x, y) exists: the grid does not wrap around. */
  predicate InGrid(f: Forest, x: int, y: int, o: Offset) {
    InBounds(f, x + o.0, y + o.1)
  }

  /** The neighbour at offset o of (x, y), or None when the offset leaves the grid. */
  function Neighbour(f: Forest, x: int, y: int, o: Offset): (n: Option<Cell>)
    requires WellFormed(f)
    ensures n.None? <==> !InGrid(f, x, y, o)
    ensures n.Some? ==> n.value == f.cells[f.height - 1 - (y + o.1)][x + o.0]
  {
    if InGrid(f, x, y, o) then Some(GetCell(f, x + o.0, y + o.1)) else None
  }

  /** What one neighbour adds to a sum: its term, or nothing when it lies off the grid. */
  function Contribution(f: Forest, x: int, y: int, o: Offset, term: (Offset, Cell) -> real): real
    requires WellFormed(f)
  {
    match Neighbour(f, x, y, o)
    case None => 0.0
    case Some(n) => term(o, n)
  }

  /**
   * The loop shared by every rule: visit the offsets in order and add the
   * term of each neighbour that is inside the grid.
   */
  function SumOver(f: Forest, x: int, y: int, offs: seq<Offset>, term: (Offset, Cell) -> real): real
    requires WellFormed(f)
    decreases |offs|
  {
    if offs == [] then 0.0
    else Contribution(f, x, y, offs[0], term) + SumOver(f, x, y, offs[1..], term)
  }

  /** The neighbour at `lit` lies in the grid, and every other in-grid neighbour is unburnt. */
  predicate OnlyNeighbourLit(f: Forest, x: int, y: int, lit: Offset)
    requires WellFormed(f)
  {
    InGrid(f, x, y, lit) &&
    forall o :: o in Moore && o != lit && InGrid(f, x, y, o) ==> GetCell(f, x + o.0, y + o.1).state == 0.0
  }

  /** Every neighbour of (x, y) inside the grid has a non-negative state. */
  predicate NeighboursNonNegative(f: Forest, x: int, y: int)
    requires WellFormed(f)
  {
    forall o :: o in Moore && InGrid(f, x, y, o) ==> GetCell(f, x + o.0, y + o.1).state >= 0.0
  }

  /** The offsets of `offs` whose neighbour is inside the grid, in order. */
  function InGridOffsets(f: Forest, x: int, y: int, offs: seq<Offset>): (r: seq<Offset>)
    ensures forall o :: o in r <==> o in offs && InGrid(f, x, y, o)
    ensures |r| <= |offs|
  {
    if offs == [] then []
    else (if InGrid(f, x, y, offs[0]) then [offs[0]] else []) + InGridOffsets(f, x, y, offs[1..])
  }

  /** Neighbours outside the grid contribute nothing: the sum equals the sum over the in-grid offsets alone. */
  lemma {:induction false} SumOverIgnoresOffGrid(f: Forest, x: int, y: int, offs: seq<Offset>, term: (Offset, Cell) -> real)
    requires WellFormed(f)
    ensures SumOver(f, x, y, offs, term) == SumOver(f, x, y, InGridOffsets(f, x, y, offs), term)
  {
    if offs != [] {
      SumOverIgnoresOffGrid(f, x, y, offs[1..], term);
      var rest := InGridOffsets(f, x, y, offs[1..]);
      if InGrid(f, x, y, offs[0]) {
        assert InGridOffsets(f, x, y, offs) == [offs[0]] + rest;
        assert ([offs[0]] + rest)[1..] == rest;
      } else {
        assert InGridOffsets(f, x, y, offs) == rest;
      }
    }
  }

  /** A sum of non-negative contributions is non-negative. */
  lemma {:induction false} SumOverNonNegative(f: Forest, x: int, y: int, offs: seq<Offset>, term: (Offset, Cell) -> real)
    requires WellFormed(f)
    requires forall i :: 0 <= i < |offs| ==> Contribution(f, x, y, offs[i], term) >= 0.0
    ensures SumOver(f, x, y, offs, term) >= 0.0
  {
    if offs != [] {
      SumOverNonNegative(f, x, y, offs[1..], term);
    }
  }

  /** Sums are monotone: if every contribution of `lo` is at most k times that of `hi`, so is the sum. */
  lemma {:induction false} SumOverScaledBound(f: Forest, x: int, y: int, offs: seq<Offset>,
                                              lo: (Offset, Cell) -> real, hi: (Offset, Cell) -> real, k: real)
    requires WellFormed(f)
    requires forall i :: 0 <= i < |offs| ==> Contribution(f, x, y, offs[i], lo) <= k * Contribution(f, x, y, offs[i], hi)
    ensures SumOver(f, x, y, offs, lo) <= k * SumOver(f, x, y, offs, hi)
  {
    if offs != [] {
      SumOverScaledBound(f, x, y, offs[1..], lo, hi, k);
    }
  }

  /** A sum whose contributions all vanish except the one at index k equals that contribution. */
  lemma {:induction false} SumOverSingle(f: Forest, x: int, y: int, offs: seq<Offset>, term: (Offset, Cell) -> real, k: int)
    requires WellFormed(f)
    requires 0 <= k < |offs|
    requires forall i :: 0 <= i < |offs| && i != k ==> Contribution(f, x, y, offs[i], term) == 0.0
    ensures SumOver(f, x, y, offs, term) == Contribution(f, x, y, offs[k], term)
  {
    if k == 0 {
      SumOverZero(f, x, y, offs[1..], term);
    } else {
      SumOverSingle(f, x, y, offs[1..], term, k - 1);
    }
  }

  /** A sum whose contributions all vanish is zero. */
  lemma {:induction false} SumOverZero(f: Forest, x: int, y: int, offs: seq<Offset>, term: (Offset, Cell) -> real)
    requires WellFormed(f)
    requires forall i :: 0 <= i < |offs| ==> Contribution(f, x, y, offs[i], term) == 0.0
    ensures SumOver(f, x, y, offs, term) == 0.0
  {
    if offs != [] {
      SumOverZero(f, x, y, offs[1..], term);
    }
  }

  /**
   * The sum reads nothing but its terms: two grids (or two terms) that give
   * every offset the same contribution give the same sum.
   */
  lemma {:induction false} SumOverCongruent(f: Forest, g: Forest, x: int, y: int, offs: seq<Offset>,
                                            s: (Offset, Cell) -> real, t: (Offset, Cell) -> real)
    requires WellFormed(f) && WellFormed(g)
    requires forall i :: 0 <= i < |offs| ==> Contribution(f, x, y, offs[i], s) == Contribution(g, x, y, offs[i], t)
    ensures SumOver(f, x, y, offs, s) == SumOver(g, x, y, offs, t)
  {
    if offs != [] {
      SumOverCongruent(f, g, x, y, offs[1..], s, t);
    }
  }

  // ---------------------------------------------------------------------------
  // The height-factor cache

  /**
   * A slope function as the caller hands it over: the number of positional
   * parameters it declares and what it computes from
   * (height difference, a, b, alpha).
   */
  datatype SlopeFunction = SlopeFunction(arity: nat, phi: (real, int, int, real) -> real)

  /** Some Moore neighbour of (x, y) lies inside the grid. */
  predicate HasNeighbour(f: Forest, x: int, y: int) {
    exists i :: 0 <= i < |Moore| && InGrid(f, x, y, Moore[i])
  }

  /** The cached factor for one direction: phi(own height - neighbour height, a, b, alpha). */
  function SlopeFactor(f: Forest, x: int, y: int, o: Offset, s: SlopeFunction, alpha: real): real
    requires WellFormed(f) && InBounds(f, x, y) && InGrid(f, x, y, o)
  {
    s.phi(GetCell(f, x, y).height - GetCell(f, x + o.0, y + o.1).height, o.0, o.1, alpha)
  }

  /** Write the factor of every in-grid offset of `offs` into m. */
  function RefreshFactors(f: Forest, x: int, y: int, s: SlopeFunction, alpha: real, m: Matrix3, offs: seq<Offset>): (r: Matrix3)
    requires WellFormed(f) && InBounds(f, x, y)
    requires forall i :: 0 <= i < |offs| ==> IsOffset(offs[i])
    requires forall i, j :: 0 <= i < j < |offs| ==> offs[i] != offs[j]
    ensures forall o :: IsOffset(o) && (o !in offs || !InGrid(f, x, y, o)) ==> Get(r, o) == Get(m, o)
    ensures forall o :: o in offs && InGrid(f, x, y, o) ==> Get(r, o) == SlopeFactor(f, x, y, o, s, alpha)
    decreases |offs|
  {
    if offs == [] then m
    else
      var o := offs[0];
      var m' := if InGrid(f, x, y, o) then Set(m, o, SlopeFactor(f, x, y, o, s, alpha)) else m;
      assert forall i :: 0 <= i < |offs[1..]| ==> offs[1..][i] != o;
      RefreshFactors(f, x, y, s, alpha, m', offs[1..])
  }

  /**
   * `update_height_factor(phi)` on the cell at (x, y): every in-grid Moore
   * neighbour's entry becomes phi(own height - neighbour height, a, b, alpha).
   * The call passes four arguments, so a slope function that declares a
   * different number raises a TypeError at the first neighbour.
   */
  function UpdateHeightFactor(f: Forest, x: int, y: int, s: SlopeFunction, alpha: real): (r: Result<Cell>)
    requires WellFormed(f) && InBounds(f, x, y)
    ensures r.Failure? <==> s.arity != 4 && HasNeighbour(f, x, y)
    ensures r.Success? ==> r.value.(heightFactors := GetCell(f, x, y).heightFactors) == GetCell(f, x, y)
    ensures r.Success? ==> forall o :: IsOffset(o) && o != Centre && InGrid(f, x, y, o) ==>
              HeightFactor(r.value, o) == SlopeFactor(f, x, y, o, s, alpha)
    ensures r.Success? ==> forall o :: IsOffset(o) && (o == Centre || !InGrid(f, x, y, o)) ==>
              HeightFactor(r.value, o) == HeightFactor(GetCell(f, x, y), o)
  {
    MooreOffsetsWellFormed();
    if s.arity != 4 && HasNeighbour(f, x, y) then Failure(TypeError)
    else
      var c := GetCell(f, x, y);
      Success(c.(heightFactors := RefreshFactors(f, x, y, s, alpha, c.heightFactors, Moore)))
  }

  /** A grid of one cell is the only grid in which some cell has no neighbour. */
  lemma HasNeighbourUnlessSingleCell(f: Forest, x: int, y: int)
    requires InBounds(f, x, y)
    ensures HasNeighbour(f, x, y) <==> f.width * f.height > 1
  {
    if f.width > 1 {
      if x + 1 < f.width { assert InGrid(f, x, y, Moore[1]); } else { assert InGrid(f, x, y, Moore[3]); }
    } else if f.height > 1 {
      if y + 1 < f.height { assert InGrid(f, x, y, Moore[0]); } else { assert InGrid(f, x, y, Moore[2]); }
    } else {
      assert f.width * f.height == 1;
    }
  }

  /** The cell at storage position (r, c) with its cache refreshed (or unchanged when the refresh fails). */
  function RefreshedAt(f: Forest, r: int, c: int, s: SlopeFunction, alpha: real): Cell
    requires WellFormed(f) && 0 <= r < f.height && 0 <= c < f.width
  {
    var y := f.height - 1 - r;
    match UpdateHeightFactor(f, c, y, s, alpha)
    case Success(cell) => cell
    case Failure(_) => GetCell(f, c, y)
  }

  /**
   * The rule constructors' loop `for cell in grid: cell.update_height_factor(phi)`.
   * Heights are static, so each cell's refresh reads the original grid.
   */
  function InitHeightFactors(f: Forest, s: SlopeFunction, alpha: real): (r: Result<Forest>)
    requires WellFormed(f)
    ensures r.Failure? <==> s.arity != 4 && f.width * f.height > 1
    ensures r.Success? ==> WellFormed(r.value) && r.value.width == f.width && r.value.height == f.height
    ensures r.Success? ==> forall x, y :: InBounds(f, x, y) ==>
              UpdateHeightFactor(f, x, y, s, alpha) == Success(GetCell(r.value, x, y))
  {
    if s.arity != 4 && f.width * f.height > 1 then
      HasNeighbourUnlessSingleCell(f, 0, 0);
      Failure(TypeError)
    else
      var g := Forest(f.width, f.height,
                      seq(f.height, r requires 0 <= r < f.height =>
                        seq(f.width, c requires 0 <= c < f.width => RefreshedAt(f, r, c, s, alpha))));
      assert forall x, y :: InBounds(f, x, y) ==> UpdateHeightFactor(f, x, y, s, alpha).Success? by {
        forall x, y | InBounds(f, x, y)
          ensures UpdateHeightFactor(f, x, y, s, alpha).Success?
        {
          HasNeighbourUnlessSingleCell(f, x, y);
        }
      }
      Success(g)
  }

  // ---------------------------------------------------------------------------
  // Ignition, rain and the maximum rate of spread

  /** The cell at (x, y) lies in the closed disc of the given centre and radius. */
  predicate InCircle(x: int, y: int, x0: real, y0: real, radius: real) {
    (x as real - x0) * (x as real - x0) + (y as real - y0) * (y as real - y0) <= radius * radius
  }

  /** `draw_circle((x0, y0), radius)`: ignite every cell of the closed disc. */
  function DrawCircle(f: Forest, x0: real, y0: real, radius: real): (g: Forest)
    requires WellFormed(f)
    ensures WellFormed(g) && g.width == f.width && g.height == f.height
    ensures forall x, y :: InBounds(f, x, y) ==>
              GetCell(g, x, y).state == (if InCircle(x, y, x0, y0, radius) then 1.0 else GetCell(f, x, y).state)
    ensures forall x, y :: InBounds(f, x, y) ==>
              GetCell(g, x, y).(state := GetCell(f, x, y).state) == GetCell(f, x, y)
  {
    Forest(f.width, f.height,
           seq(f.height, r requires 0 <= r < f.height =>
             seq(f.width, c requires 0 <= c < f.width =>
               var cell := f.cells[r][c];
               if InCircle(c, f.height - 1 - r, x0, y0, radius) then cell.(state := 1.0) else cell)))
  }

  /** A rain matrix covers the grid when it has a value for every storage position. */
  predicate CoversGrid(f: Forest, rain: seq<seq<real>>) {
    |rain| >= f.height && forall r :: 0 <= r < f.height ==> |rain[r]| >= f.width
  }

  /** `load_rain(day)` once the file is read: cell (x, y) takes `rain[height - 1 - y][x]`. */
  function LoadRain(f: Forest, rain: seq<seq<real>>): (g: Forest)
    requires WellFormed(f) && CoversGrid(f, rain)
    ensures WellFormed(g) && g.width == f.width && g.height == f.height
    ensures forall x, y :: InBounds(f, x, y) ==>
              GetCell(g, x, y) == GetCell(f, x, y).(rain := rain[Row(f, y)][x])
  {
    Forest(f.width, f.height,
           seq(f.height, r requires 0 <= r < f.height =>
             seq(f.width, c requires 0 <= c < f.width => f.cells[r][c].(rain := rain[r][c]))))
  }

  /** m is `get_max_ros()`: the largest of 0.0 and every cell's rate of spread. */
  ghost predicate IsMaxRos(f: Forest, m: real)
    requires WellFormed(f)
  {
    && m >= 0.0
    && (forall x, y :: InBounds(f, x, y) ==> GetCell(f, x, y).rateOfSpread <= m)
    && (m == 0.0 || exists x, y :: InBounds(f, x, y) && GetCell(f, x, y).rateOfSpread == m)
  }

  /** `get_max_ros()`: fold `max` over every cell, starting from 0.0. */
  method GetMaxRos(f: Forest) returns (m: real)
    requires WellFormed(f)
    ensures m >= 0.0
    ensures forall x, y :: InBounds(f, x, y) ==> GetCell(f, x, y).rateOfSpread <= m
    ensures m == 0.0 || exists x, y :: InBounds(f, x, y) && GetCell(f, x, y).rateOfSpread == m
  {
    m := 0.0;
    var r := 0;
    while r < f.height
      invariant 0 <= r <= f.height
      invariant m >= 0.0
      invariant forall i, j :: 0 <= i < r && 0 <= j < f.width ==> f.cells[i][j].rateOfSpread <= m
      invariant m == 0.0 || exists i, j :: 0 <= i < r && 0 <= j < f.width && f.cells[i][j].rateOfSpread == m
    {
      var c := 0;
      while c < f.width
        invariant 0 <= c <= f.width
        invariant m >= 0.0
        invariant forall i, j :: 0 <= i < r && 0 <= j < f.width ==> f.cells[i][j].rateOfSpread <= m
        invariant forall j :: 0 <= j < c ==> f.cells[r][j].rateOfSpread <= m
        invariant m == 0.0 || (exists i, j :: 0 <= i < r && 0 <= j < f.width && f.cells[i][j].rateOfSpread == m)
                            || (exists j :: 0 <= j < c && f.cells[r][j].rateOfSpread == m)
      {
        if f.cells[r][c].rateOfSpread > m {
          m := f.cells[r][c].rateOfSpread;
        }
        c := c + 1;
      }
      r := r + 1;
    }
    forall x, y | InBounds(f, x, y)
      ensures GetCell(f, x, y).rateOfSpread <= m
    {
      assert GetCell(f, x, y) == f.cells[f.height - 1 - y][x];
    }
    if m != 0.0 {
      var i, j :| 0 <= i < f.height && 0 <= j < f.width && f.cells[i][j].rateOfSpread == m;
      assert GetCell(f, j, f.height - 1 - i) == f.cells[i][j];
    }
  }

  /** The maximum rate of spread depends only on the rates: a grid of the same shape and rates has the same maximum. */
  lemma SameRatesSameMaxRos(f: Forest, g: Forest, m: real)
    requires WellFormed(f) && WellFormed(g) && g.width == f.width && g.height == f.height
    requires forall x, y :: InBounds(g, x, y) ==> GetCell(g, x, y).rateOfSpread == GetCell(f, x, y).rateOfSpread
    requires IsMaxRos(f, m)
    ensures IsMaxRos(g, m)
  {
    if m != 0.0 {
      var x, y :| InBounds(f, x, y) && GetCell(f, x, y).rateOfSpread == m;
      assert InBounds(g, x, y);
    }
  }

  /** With non-negative rates, a burnable cell (rate not 0) makes the maximum rate positive, so dividing by it is safe. */
  lemma MaxRosPositive(f: Forest, m: real, x: int, y: int)
    requires WellFormed(f) && IsMaxRos(f, m) && InBounds(f, x, y)
    requires GetCell(f, x, y).rateOfSpread >= 0.0 && GetCell(f, x, y).rateOfSpread != 0.0
    ensures m > 0.0 && GetCell(f, x, y).rateOfSpread <= m
  {
  }
}
