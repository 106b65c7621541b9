/**
 * `ExtendedRule`: the automaton of Hernández Encinas et al. (2007). A cell
 * with a burning cell among its gate offsets takes
 * g(ros / maxRos * state + adjacent term + diagonal term), where g rounds
 * down to 0 or up to 1 at the threshold 1.
 */
module ExtendedRule {
  import opened Wrappers
  import opened Factors
  import opened ForestCell
  import opened Grid
  import opened Numerics
  import SlopeFunctions

  /** The rule's wind factors: all 1.0, read at `[1 - b][a + 1]`. */
  const WindFactors: Matrix3 := Uniform(1.0)

  /**
   * The offsets the burning-neighbour gate visits. The rule adds its two
   * offset arrays, and adding numpy arrays adds them element by element, so
   * the gate visits the four sums adjacent[i] + diagonal[i].
   */
  function GateOffsets(): (r: seq<Offset>)
    ensures |r| == 4
    ensures forall i :: 0 <= i < 4 ==> r[i] == (Adjacent[i].0 + Diagonal[i].0, Adjacent[i].1 + Diagonal[i].1)
  {
    seq(4, i requires 0 <= i < 4 => (Adjacent[i].0 + Diagonal[i].0, Adjacent[i].1 + Diagonal[i].1))
  }

  /** The gate visits four knight moves, none of which is a neighbour. */
  lemma GateIsKnightMoves()
    ensures GateOffsets() == [(-1, 2), (2, 1), (1, -2), (-2, -1)]
    ensures forall i :: 0 <= i < 4 ==> GateOffsets()[i] !in Moore
  {
    var g := GateOffsets();
    assert g[0] == (-1, 2) && g[1] == (2, 1) && g[2] == (1, -2) && g[3] == (-2, -1);
  }

  /** The cell at offset o of (x, y) is inside the grid and burns fully. */
  predicate Burns(f: Forest, x: int, y: int, o: Offset)
    requires WellFormed(f)
  {
    InGrid(f, x, y, o) && GetCell(f, x + o.0, y + o.1).state == 1.0
  }

  /** The gate loop: some in-grid cell at one of the offsets burns fully. */
  function AnyBurning(f: Forest, x: int, y: int, offs: seq<Offset>): (b: bool)
    requires WellFormed(f)
    ensures b <==> exists i :: 0 <= i < |offs| && Burns(f, x, y, offs[i])
    decreases |offs|
  {
    if offs == [] then false
    else
      var rest := AnyBurning(f, x, y, offs[1..]);
      assert forall i :: 1 <= i < |offs| ==> offs[i] == offs[1..][i - 1];
      Burns(f, x, y, offs[0]) || rest
  }

  /** `g`: the discretisation, 1 from the threshold 1 up and 0 below it. */
  function G(value: real): (r: real)
    ensures r == 0.0 || r == 1.0
    ensures r == 1.0 <==> value >= 1.0
  {
    if value < 1.0 then 0.0 else 1.0
  }

  /** `h`: the rule's own copy of the slope function h; it is the same function. */
  function H(value: real): (r: real)
    ensures r == SlopeFunctions.H(value)
  {
    if value <= -50.0 || value >= 50.0 then 0.0
    else if value < 0.0 then 2.0 - (value / 20.71 + 1.0) * (value / 20.71 + 1.0)
    else -(value / 50.0) + 1.0
  }

  /** The term handed to either sum: a neighbour's share at a real offset and nothing elsewhere. */
  function Term(c: Cell): (Offset, Cell) -> real {
    (o: Offset, n: Cell) => if IsOffset(o) then Share(c, o, n) else 0.0
  }

  /**
   * A neighbour's share of either sum: wind factor times the cell's height
   * factor towards it times its rate of spread and state. Every wind factor
   * of this rule is 1, so the share does not depend on the direction beyond
   * the height factor.
   */
  function Share(c: Cell, o: Offset, n: Cell): (r: real)
    requires IsOffset(o)
    ensures r == HeightFactor(c, o) * n.rateOfSpread * n.state
  {
    Get(WindFactors, o) * HeightFactor(c, o) * n.rateOfSpread * n.state
  }

  /** `calculate_adj_term`: the adjacent neighbours' terms over max_ros. */
  function AdjTerm(maxRos: real, f: Forest, x: int, y: int): real
    requires WellFormed(f) && InBounds(f, x, y) && maxRos != 0.0
  {
    SumOver(f, x, y, Adjacent, Term(GetCell(f, x, y))) / maxRos
  }

  /** `calculate_diag_term`: the diagonal neighbours' terms times pi / (4 max_ros^2). */
  function DiagTerm(pi: real, maxRos: real, f: Forest, x: int, y: int): real
    requires WellFormed(f) && InBounds(f, x, y) && maxRos != 0.0
  {
    SumOver(f, x, y, Diagonal, Term(GetCell(f, x, y))) * DiagonalScale(pi, maxRos)
  }

  /**
   * With a single lit neighbour, adjacent at Adjacent[k], the adjacent term
   * is that neighbour's share over max_ros.
   */
  lemma OneNeighbourAdjTerm(maxRos: real, f: Forest, x: int, y: int, k: int)
    requires WellFormed(f) && InBounds(f, x, y) && maxRos != 0.0 && 0 <= k < 4
    requires OnlyNeighbourLit(f, x, y, Adjacent[k])
    ensures AdjTerm(maxRos, f, x, y) == Share(GetCell(f, x, y), Adjacent[k], GetCell(f, x + Adjacent[k].0, y + Adjacent[k].1)) / maxRos
  {
    OneNeighbourSum(f, x, y, Adjacent, k);
  }

  /**
   * With a single lit neighbour, diagonal at Diagonal[k], the diagonal term
   * is that neighbour's share, with its rate of spread not squared, times
   * pi / (4 max_ros ** 2).
   */
  lemma OneNeighbourDiagTerm(pi: real, maxRos: real, f: Forest, x: int, y: int, k: int)
    requires WellFormed(f) && InBounds(f, x, y) && maxRos != 0.0 && 0 <= k < 4
    requires OnlyNeighbourLit(f, x, y, Diagonal[k])
    ensures DiagTerm(pi, maxRos, f, x, y) ==
              Share(GetCell(f, x, y), Diagonal[k], GetCell(f, x + Diagonal[k].0, y + Diagonal[k].1)) * DiagonalScale(pi, maxRos)
  {
    OneNeighbourSum(f, x, y, Diagonal, k);
  }

  /** With a single lit neighbour among `offs`, the sum over `offs` is that neighbour's share. */
  lemma OneNeighbourSum(f: Forest, x: int, y: int, offs: seq<Offset>, k: int)
    requires WellFormed(f) && InBounds(f, x, y) && (offs == Adjacent || offs == Diagonal) && 0 <= k < 4
    requires OnlyNeighbourLit(f, x, y, offs[k])
    ensures SumOver(f, x, y, offs, Term(GetCell(f, x, y))) == Share(GetCell(f, x, y), offs[k], GetCell(f, x + offs[k].0, y + offs[k].1))
  {
    var term := Term(GetCell(f, x, y));
    forall i | 0 <= i < 4 && i != k
      ensures Contribution(f, x, y, offs[i], term) == 0.0
    {
      UnlitShareVanishes(f, x, y, GetCell(f, x, y), offs[k], offs[i]);
    }
    SumOverSingle(f, x, y, offs, term, k);
  }

  /** An unburnt neighbour other than the lit one adds nothing to either sum. */
  lemma UnlitShareVanishes(f: Forest, x: int, y: int, c: Cell, lit: Offset, o: Offset)
    requires WellFormed(f) && OnlyNeighbourLit(f, x, y, lit)
    requires (o in Adjacent || o in Diagonal) && o != lit
    ensures Contribution(f, x, y, o, Term(c)) == 0.0
  {
    assert o in Moore;
  }

  /** The value handed to g. */
  function Raw(pi: real, maxRos: real, f: Forest, x: int, y: int): real
    requires WellFormed(f) && InBounds(f, x, y) && maxRos != 0.0
  {
    var c := GetCell(f, x, y);
    var next := c.rateOfSpread / maxRos * c.state + AdjTerm(maxRos, f, x, y);
    if c.state < 1.0 then next + DiagTerm(pi, maxRos, f, x, y) else next
  }

  /** The rule returns the state untouched: burnt out, non-flammable, or no burning cell at the gate offsets. */
  predicate Idle(gate: seq<Offset>, f: Forest, x: int, y: int)
    requires WellFormed(f) && InBounds(f, x, y)
  {
    var c := GetCell(f, x, y);
    c.state == 1.0 || c.rateOfSpread == 0.0 || !AnyBurning(f, x, y, gate)
  }

  /**
   * `apply` with the gate visiting `gate`. Python raises ZeroDivisionError
   * when max_ros is 0 and the cell gets past the gate.
   */
  function ApplyWithGate(gate: seq<Offset>, pi: real, maxRos: real, f: Forest, x: int, y: int): (r: Result<real>)
    requires WellFormed(f) && InBounds(f, x, y)
    ensures Idle(gate, f, x, y) ==> r == Success(GetCell(f, x, y).state)
    ensures !Idle(gate, f, x, y) ==> (r.Failure? <==> maxRos == 0.0)
    ensures r.Failure? ==> r.error == ZeroDivisionError
    ensures !Idle(gate, f, x, y) && r.Success? ==> (r.value == 0.0 || r.value == 1.0)
    ensures !Idle(gate, f, x, y) && r.Success? ==> (r.value == 1.0 <==> Raw(pi, maxRos, f, x, y) >= 1.0)
  {
    if Idle(gate, f, x, y) then Success(GetCell(f, x, y).state)
    else if maxRos == 0.0 then Failure(ZeroDivisionError)
    else Success(G(Raw(pi, maxRos, f, x, y)))
  }

  /** `apply` as written: the gate visits the knight moves. */
  function ApplyAsWritten(pi: real, maxRos: real, f: Forest, x: int, y: int): (r: Result<real>)
    requires WellFormed(f) && InBounds(f, x, y)
    ensures !AnyBurning(f, x, y, GateOffsets()) ==> r == Success(GetCell(f, x, y).state)
  {
    ApplyWithGate(GateOffsets(), pi, maxRos, f, x, y)
  }

  /** `apply` as evidently intended: the gate visits the eight neighbours. */
  function Apply(pi: real, maxRos: real, f: Forest, x: int, y: int): (r: Result<real>)
    requires WellFormed(f) && InBounds(f, x, y)
    ensures !AnyBurning(f, x, y, Moore) ==> r == Success(GetCell(f, x, y).state)
    ensures !Idle(Moore, f, x, y) && maxRos != 0.0 ==> r.Success? && (r.value == 0.0 || r.value == 1.0)
  {
    ApplyWithGate(Moore, pi, maxRos, f, x, y)
  }

  /** In a 3x3 grid no knight move from the centre stays on the grid, so the centre never leaves its state as written. */
  lemma KnightGateClosedAtCentre(pi: real, maxRos: real, f: Forest)
    requires WellFormed(f) && f.width == 3 && f.height == 3
    ensures ApplyAsWritten(pi, maxRos, f, 1, 1) == Success(GetCell(f, 1, 1).state)
  {
    var g := GateOffsets();
    GateIsKnightMoves();
    forall i | 0 <= i < 4
      ensures !InGrid(f, 1, 1, g[i])
    {
    }
  }

  /** The 3x3 grid of fresh cells whose northern neighbour of the centre burns. */
  function NorthBurning(): (f: Forest)
    ensures WellFormed(f) && f.width == 3 && f.height == 3
  {
    Forest(3, 3, seq(3, r requires 0 <= r < 3 => seq(3, c requires 0 <= c < 3 =>
      if r == 0 && c == 1 then NewCell().(state := 1.0) else NewCell())))
  }

  /**
   * On `NorthBurning` with max_ros 1 the centre cell stays at 0 as written,
   * while under the neighbour gate the burning adjacent cell ignites it.
   */
  lemma KnightGateMissesBurningNeighbour(pi: real)
    ensures ApplyAsWritten(pi, 1.0, NorthBurning(), 1, 1) == Success(0.0)
    ensures Apply(pi, 1.0, NorthBurning(), 1, 1) == Success(1.0)
  {
    KnightGateClosedAtCentre(pi, 1.0, NorthBurning());
    NorthBurningCells();
    NeighbourGateOpen();
    NorthBurningRaw(pi);
  }

  /** The neighbour gate of the centre of `NorthBurning` sees the burning northern cell. */
  lemma NeighbourGateOpen()
    ensures AnyBurning(NorthBurning(), 1, 1, Moore)
  {
    NorthBurningCells();
    assert InGrid(NorthBurning(), 1, 1, Moore[0]);
  }

  /** At the centre of `NorthBurning` with max_ros 1, the value handed to g is exactly 1. */
  lemma NorthBurningRaw(pi: real)
    ensures Raw(pi, 1.0, NorthBurning(), 1, 1) == 1.0
  {
    NorthBurningCentre();
    NorthBurningTerms(pi);
    var c := GetCell(NorthBurning(), 1, 1);
    assert c.state == 0.0;
  }

  /** Around the centre of `NorthBurning` with max_ros 1 the adjacent term is 1 and the diagonal term 0. */
  lemma NorthBurningTerms(pi: real)
    ensures AdjTerm(1.0, NorthBurning(), 1, 1) == 1.0
    ensures DiagTerm(pi, 1.0, NorthBurning(), 1, 1) == 0.0
  {
    NorthBurningCentre();
    NorthBurningSums();
  }

  /** The centre of `NorthBurning` is a fresh cell. */
  lemma NorthBurningCentre()
    ensures GetCell(NorthBurning(), 1, 1) == NewCell()
  {
    NorthBurningCells();
  }

  /** The cells of `NorthBurning`: every cell is fresh except the burning one at (1, 2). */
  lemma NorthBurningCells()
    ensures GetCell(NorthBurning(), 1, 2) == NewCell().(state := 1.0)
    ensures forall x, y :: InBounds(NorthBurning(), x, y) && (x, y) != (1, 2) ==> GetCell(NorthBurning(), x, y) == NewCell()
  {
  }

  /** Around the centre of `NorthBurning` the adjacent terms add up to 1 and the diagonal terms to 0. */
  lemma NorthBurningSums()
    ensures SumOver(NorthBurning(), 1, 1, Adjacent, Term(NewCell())) == 1.0
    ensures SumOver(NorthBurning(), 1, 1, Diagonal, Term(NewCell())) == 0.0
  {
    forall o | o in Moore
      ensures Contribution(NorthBurning(), 1, 1, o, Term(NewCell())) == if o == (0, 1) then 1.0 else 0.0
    {
      NorthBurningTerm(o);
    }
    OnlyNorthContributes(NorthBurning(), Term(NewCell()));
  }

  /** Sums over a grid in which only the northern neighbour of (1, 1) contributes, and it contributes 1. */
  lemma OnlyNorthContributes(f: Forest, t: (Offset, Cell) -> real)
    requires WellFormed(f)
    requires forall o :: o in Moore ==> Contribution(f, 1, 1, o, t) == if o == (0, 1) then 1.0 else 0.0
    ensures SumOver(f, 1, 1, Adjacent, t) == 1.0
    ensures SumOver(f, 1, 1, Diagonal, t) == 0.0
  {
    forall i | 0 <= i < 4
      ensures Contribution(f, 1, 1, Adjacent[i], t) == if i == 0 then 1.0 else 0.0
      ensures Contribution(f, 1, 1, Diagonal[i], t) == 0.0
    {
      assert Adjacent[i] in Moore && Diagonal[i] in Moore;
    }
    SumOverSingle(f, 1, 1, Adjacent, t, 0);
    SumOverZero(f, 1, 1, Diagonal, t);
  }

  /** A neighbour of the centre of `NorthBurning` contributes 1 if it is the burning one and 0 otherwise. */
  lemma NorthBurningTerm(o: Offset)
    requires IsOffset(o)
    ensures Contribution(NorthBurning(), 1, 1, o, Term(NewCell())) == if o == (0, 1) then 1.0 else 0.0
  {
    var f := NorthBurning();
    assert InGrid(f, 1, 1, o);
    var n := GetCell(f, 1 + o.0, 1 + o.1);
    NorthBurningNeighbour(o);
    assert HeightFactor(NewCell(), o) == 1.0;
  }

  /** The neighbour at offset o of the centre of `NorthBurning` has rate of spread 1 and burns only in the north. */
  lemma NorthBurningNeighbour(o: Offset)
    requires IsOffset(o)
    ensures GetCell(NorthBurning(), 1 + o.0, 1 + o.1).rateOfSpread == 1.0
    ensures GetCell(NorthBurning(), 1 + o.0, 1 + o.1).state == if o == (0, 1) then 1.0 else 0.0
  {
    NorthBurningCells();
  }

  /** With max_ros the grid maximum and a non-negative own rate of spread, a cell past the gate never meets a zero max_ros. */
  lemma NoDivisionByZero(pi: real, m: real, f: Forest, x: int, y: int, gate: seq<Offset>)
    requires WellFormed(f) && InBounds(f, x, y) && IsMaxRos(f, m)
    requires GetCell(f, x, y).rateOfSpread >= 0.0
    ensures ApplyWithGate(gate, pi, m, f, x, y).Success?
  {
    if !Idle(gate, f, x, y) {
      MaxRosPositive(f, m, x, y);
    }
  }

  /** `h` handed to `update_height_factor`, which calls it with four arguments; it declares one. */
  function HAsWritten(): (s: SlopeFunction)
    ensures s.arity == 1
  {
    SlopeFunction(1, (v: real, a: int, b: int, alpha: real) => H(v))
  }

  /** `h` wrapped to accept the four arguments the cache passes. */
  function HCorrected(): (s: SlopeFunction)
    ensures s.arity == 4
  {
    SlopeFunction(4, (v: real, a: int, b: int, alpha: real) => H(v))
  }

  /** The rule's constructor as written fails with a TypeError on every grid with more than one cell. */
  lemma ConstructorFailsAsWritten(f: Forest, alpha: real)
    requires WellFormed(f) && f.width * f.height > 1
    ensures InitHeightFactors(f, HAsWritten(), alpha) == Failure(TypeError)
  {
  }

  /** With `h` accepting four arguments the constructor succeeds and every in-grid factor is h of the height difference. */
  lemma ConstructorCorrected(f: Forest, alpha: real)
    requires WellFormed(f)
    ensures InitHeightFactors(f, HCorrected(), alpha).Success?
    ensures forall x, y, o :: InBounds(f, x, y) && IsOffset(o) && o != Centre && InGrid(f, x, y, o) ==>
              HeightFactor(GetCell(InitHeightFactors(f, HCorrected(), alpha).value, x, y), o) ==
              SlopeFunctions.H(GetCell(f, x, y).height - GetCell(f, x + o.0, y + o.1).height)
  {
    var r := InitHeightFactors(f, HCorrected(), alpha);
    forall x, y, o | InBounds(f, x, y) && IsOffset(o) && o != Centre && InGrid(f, x, y, o)
      ensures HeightFactor(GetCell(r.value, x, y), o) == SlopeFunctions.H(GetCell(f, x, y).height - GetCell(f, x + o.0, y + o.1).height)
    {
      assert UpdateHeightFactor(f, x, y, HCorrected(), alpha) == Success(GetCell(r.value, x, y));
    }
  }
}
