/**
 * `BaseRule`: the cellular automaton of Karafyllidis and Thanailakis (1997).
 * A cell that is neither fully burnt nor non-flammable adds the factor-weighted
 * states of its adjacent neighbours and, while not yet burnt, 0.83 times those
 * of its diagonal neighbours, capped at 1.
 */
module BaseRule {
  import opened Factors
  import opened ForestCell
  import opened Grid
  import opened Numerics

  /** The rule's wind and height factor matrices, both read at `[1 - b][a + 1]`. */
  datatype Weights = Weights(wind: Matrix3, height: Matrix3)

  /** The factors the rule is built with: every entry 1.0. */
  const Default: Weights := Weights(Uniform(1.0), Uniform(1.0))

  /** A neighbour's share of either sum: wind factor times height factor times its state. */
  function Term(w: Weights): (Offset, Cell) -> real {
    (o: Offset, n: Cell) => if IsOffset(o) then Get(w.wind, o) * Get(w.height, o) * n.state else 0.0
  }

  /** `calculate_adj_term`: the weighted states of the in-grid adjacent neighbours. */
  function AdjTerm(w: Weights, f: Forest, x: int, y: int): real
    requires WellFormed(f)
  {
    SumOver(f, x, y, Adjacent, Term(w))
  }

  /** `calculate_diag_term`: 0.83 times the weighted states of the in-grid diagonal neighbours. */
  function DiagTerm(w: Weights, f: Forest, x: int, y: int): real
    requires WellFormed(f)
  {
    SumOver(f, x, y, Diagonal, Term(w)) * 0.83
  }

  /** `apply`: the next state of the cell at (x, y), read from the snapshot f. */
  function Apply(w: Weights, f: Forest, x: int, y: int): (r: real)
    requires WellFormed(f) && InBounds(f, x, y)
    ensures Terminal(GetCell(f, x, y)) ==> r == GetCell(f, x, y).state
    ensures !Terminal(GetCell(f, x, y)) ==> r <= 1.0
    ensures !Terminal(GetCell(f, x, y)) && GetCell(f, x, y).state < 1.0 ==>
              r == Min(1.0, GetCell(f, x, y).state + AdjTerm(w, f, x, y) + DiagTerm(w, f, x, y))
    ensures !Terminal(GetCell(f, x, y)) && GetCell(f, x, y).state > 1.0 && AdjTerm(w, f, x, y) >= 0.0 ==> r == 1.0
  {
    var c := GetCell(f, x, y);
    if Terminal(c) then c.state
    else
      var next := c.state + AdjTerm(w, f, x, y);
      var next := if c.state < 1.0 then next + DiagTerm(w, f, x, y) else next;
      Min(1.0, next)
  }

  /** Every entry of both matrices is non-negative. */
  predicate NonNegativeWeights(w: Weights) {
    NonNegative(w.wind) && NonNegative(w.height)
  }

  /** With non-negative factors, a neighbour with a non-negative state (or none) contributes a non-negative amount. */
  lemma TermNonNegative(w: Weights, f: Forest, x: int, y: int, o: Offset)
    requires WellFormed(f) && NonNegativeWeights(w)
    requires InGrid(f, x, y, o) ==> GetCell(f, x + o.0, y + o.1).state >= 0.0
    ensures Contribution(f, x, y, o, Term(w)) >= 0.0
  {
    if InGrid(f, x, y, o) && IsOffset(o) {
      var a := Get(w.wind, o);
      var b := Get(w.height, o);
      var s := GetCell(f, x + o.0, y + o.1).state;
      assert a >= 0.0 && b >= 0.0;
      assert a * b >= 0.0;
      assert a * b * s >= 0.0;
    }
  }

  /** With non-negative factors and neighbour states both sums are non-negative. */
  lemma SumsNonNegative(w: Weights, f: Forest, x: int, y: int)
    requires WellFormed(f) && NonNegativeWeights(w) && NeighboursNonNegative(f, x, y)
    ensures AdjTerm(w, f, x, y) >= 0.0 && DiagTerm(w, f, x, y) >= 0.0
  {
    forall i | 0 <= i < |Adjacent|
      ensures Contribution(f, x, y, Adjacent[i], Term(w)) >= 0.0
    {
      assert Adjacent[i] in Moore;
      TermNonNegative(w, f, x, y, Adjacent[i]);
    }
    forall i | 0 <= i < |Diagonal|
      ensures Contribution(f, x, y, Diagonal[i], Term(w)) >= 0.0
    {
      assert Diagonal[i] in Moore;
      TermNonNegative(w, f, x, y, Diagonal[i]);
    }
    SumOverNonNegative(f, x, y, Adjacent, Term(w));
    SumOverNonNegative(f, x, y, Diagonal, Term(w));
  }

  /**
   * The rule never lowers a state in [0, 1] when the factors and the
   * neighbour states are non-negative, and the result stays in [state, 1].
   */
  lemma ApplyNeverLowers(w: Weights, f: Forest, x: int, y: int)
    requires WellFormed(f) && InBounds(f, x, y)
    requires NonNegativeWeights(w) && NeighboursNonNegative(f, x, y)
    requires GetCell(f, x, y).state <= 1.0
    ensures GetCell(f, x, y).state <= Apply(w, f, x, y) <= 1.0
  {
    SumsNonNegative(w, f, x, y);
  }

  /** Under the default factors a neighbour's term is its state. */
  lemma DefaultTermIsState(f: Forest, x: int, y: int, o: Offset)
    requires WellFormed(f) && IsOffset(o)
    ensures Contribution(f, x, y, o, Term(Default)) == if InGrid(f, x, y, o) then GetCell(f, x + o.0, y + o.1).state else 0.0
  {
  }

  /** Every in-grid neighbour other than the one at `lit` is unburnt, and the one at `lit` burns fully. */
  predicate OnlyNeighbourBurning(f: Forest, x: int, y: int, lit: Offset)
    requires WellFormed(f)
  {
    OnlyNeighbourLit(f, x, y, lit) && GetCell(f, x + lit.0, y + lit.1).state == 1.0
  }

  /** With the default factors, an unburnt flammable cell whose only burning neighbour is adjacent ignites fully. */
  lemma OneBurningAdjacentIgnites(f: Forest, x: int, y: int, k: int)
    requires WellFormed(f) && InBounds(f, x, y) && 0 <= k < 4
    requires GetCell(f, x, y).state == 0.0 && GetCell(f, x, y).rateOfSpread != 0.0
    requires OnlyNeighbourBurning(f, x, y, Adjacent[k])
    ensures Apply(Default, f, x, y) == 1.0
  {
    forall i | 0 <= i < 4
      ensures Contribution(f, x, y, Adjacent[i], Term(Default)) == if i == k then 1.0 else 0.0
    {
      LitContribution(f, x, y, Adjacent[k], Adjacent[i]);
    }
    forall i | 0 <= i < 4
      ensures Contribution(f, x, y, Diagonal[i], Term(Default)) == 0.0
    {
      LitContribution(f, x, y, Adjacent[k], Diagonal[i]);
    }
    SumOverSingle(f, x, y, Adjacent, Term(Default), k);
    SumOverZero(f, x, y, Diagonal, Term(Default));
  }

  /** With the default factors, an unburnt flammable cell whose only burning neighbour is diagonal reaches 0.83. */
  lemma OneBurningDiagonalGivesScale(f: Forest, x: int, y: int, k: int)
    requires WellFormed(f) && InBounds(f, x, y) && 0 <= k < 4
    requires GetCell(f, x, y).state == 0.0 && GetCell(f, x, y).rateOfSpread != 0.0
    requires OnlyNeighbourBurning(f, x, y, Diagonal[k])
    ensures Apply(Default, f, x, y) == 0.83
  {
    forall i | 0 <= i < 4
      ensures Contribution(f, x, y, Adjacent[i], Term(Default)) == 0.0
    {
      LitContribution(f, x, y, Diagonal[k], Adjacent[i]);
    }
    forall i | 0 <= i < 4
      ensures Contribution(f, x, y, Diagonal[i], Term(Default)) == if i == k then 1.0 else 0.0
    {
      LitContribution(f, x, y, Diagonal[k], Diagonal[i]);
    }
    SumOverZero(f, x, y, Adjacent, Term(Default));
    SumOverSingle(f, x, y, Diagonal, Term(Default), k);
    assert AdjTerm(Default, f, x, y) == 0.0 && DiagTerm(Default, f, x, y) == 0.83;
  }

  /** With one burning neighbour at `lit`, a neighbour's default term is 1 if it is that one and 0 otherwise. */
  lemma LitContribution(f: Forest, x: int, y: int, lit: Offset, o: Offset)
    requires WellFormed(f) && OnlyNeighbourBurning(f, x, y, lit)
    requires o in Adjacent || o in Diagonal
    ensures Contribution(f, x, y, o, Term(Default)) == if o == lit then 1.0 else 0.0
  {
    assert o in Moore;
    DefaultTermIsState(f, x, y, o);
  }

  /** The cell and its in-grid neighbours carry the same state and rate of spread in f and g. */
  predicate SameLocalStates(f: Forest, g: Forest, x: int, y: int)
    requires WellFormed(f) && WellFormed(g)
  {
    f.width == g.width && f.height == g.height && InBounds(f, x, y) &&
    GetCell(f, x, y).state == GetCell(g, x, y).state &&
    GetCell(f, x, y).rateOfSpread == GetCell(g, x, y).rateOfSpread &&
    forall o :: o in Moore && InGrid(f, x, y, o) ==> GetCell(f, x + o.0, y + o.1).state == GetCell(g, x + o.0, y + o.1).state
  }

  /**
   * The rule reads nothing but the cell's state and rate of spread and its
   * neighbours' states: two snapshots that agree on those give the same result.
   * Writing `next_state` (or any other field) elsewhere cannot change it.
   */
  lemma ApplyReadsOnlyLocalStates(w: Weights, f: Forest, g: Forest, x: int, y: int)
    requires WellFormed(f) && WellFormed(g) && SameLocalStates(f, g, x, y)
    ensures Apply(w, f, x, y) == Apply(w, g, x, y)
  {
    forall i | 0 <= i < 4
      ensures Contribution(f, x, y, Adjacent[i], Term(w)) == Contribution(g, x, y, Adjacent[i], Term(w))
    {
      SameContribution(w, f, g, x, y, Adjacent[i]);
    }
    forall i | 0 <= i < 4
      ensures Contribution(f, x, y, Diagonal[i], Term(w)) == Contribution(g, x, y, Diagonal[i], Term(w))
    {
      SameContribution(w, f, g, x, y, Diagonal[i]);
    }
    SumOverCongruent(f, g, x, y, Adjacent, Term(w), Term(w));
    SumOverCongruent(f, g, x, y, Diagonal, Term(w), Term(w));
  }

  lemma SameContribution(w: Weights, f: Forest, g: Forest, x: int, y: int, o: Offset)
    requires WellFormed(f) && WellFormed(g) && SameLocalStates(f, g, x, y) && o in Moore
    ensures Contribution(f, x, y, o, Term(w)) == Contribution(g, x, y, o, Term(w))
  {
    assert InGrid(f, x, y, o) == InGrid(g, x, y, o);
  }
}
