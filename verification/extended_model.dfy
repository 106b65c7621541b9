/**
 * `ExtendedModel`: the older automaton the first agent class used. An
 * unburnt cell adds its in-grid adjacent neighbours' states, weighted by a
 * wind term and a height term, and pi / 4 times the diagonal neighbours'
 * weighted states; the result is capped at 1.
 */
module ExtendedModel {
  import opened Factors
  import opened ForestCell
  import opened Grid
  import opened Numerics
  import BaseRule
  import ExtendedRule

  /**
   * This class reads its 3x3 matrices at `[a + 1][1 - b]`, the transpose of
   * the `[1 - b][a + 1]` position the rules use.
   */
  function Entry(m: Matrix3, o: Offset): real
    requires IsOffset(o)
  {
    m[o.0 + 1][1 - o.1]
  }

  /** The two matrices the class holds; the constructor sets every entry of both to 1. */
  datatype Matrices = Matrices(wind: Matrix3, height: Matrix3)

  const Defaults: Matrices := Matrices(Uniform(1.0), Uniform(1.0))

  /** Entries of a uniform matrix are its value, whichever order reads them. */
  lemma EntryOfUniform(v: real, o: Offset)
    requires IsOffset(o)
    ensures Entry(Uniform(v), o) == v
  {
  }

  /** A neighbour's share of either sum: the wind term times the height term times the neighbour's state. */
  function Term(wind: Matrix3, height: Matrix3): (Offset, Cell) -> real {
    (o: Offset, n: Cell) => if IsOffset(o) then Entry(wind, o) * Entry(height, o) * n.state else 0.0
  }

  /**
   * `apply` with the wind term read from `wind` and the height term from
   * `height`: a cell at state 1 keeps it; any other cell adds the adjacent
   * sum and pi / 4 times the diagonal sum to its state, capped at 1.
   */
  function ApplyWith(pi: real, wind: Matrix3, height: Matrix3, f: Forest, x: int, y: int): (r: real)
    requires WellFormed(f) && InBounds(f, x, y)
    ensures r <= 1.0
    ensures GetCell(f, x, y).state == 1.0 ==> r == 1.0
  {
    var t := Term(wind, height);
    Next(pi, GetCell(f, x, y).state, SumOver(f, x, y, Adjacent, t), SumOver(f, x, y, Diagonal, t))
  }

  /** The update of a cell at `state` from its adjacent sum and its diagonal sum. */
  function Next(pi: real, state: real, adj: real, diag: real): (r: real)
    ensures r <= 1.0
    ensures state == 1.0 ==> r == 1.0
  {
    if state != 1.0 then Min(1.0, state + adj + pi / 4.0 * diag) else Min(1.0, state)
  }

  /** `apply` as written: `get_height_term` reads the wind matrix, so the height term is the wind term again. */
  function ApplyAsWritten(pi: real, m: Matrices, f: Forest, x: int, y: int): (r: real)
    requires WellFormed(f) && InBounds(f, x, y)
    ensures r <= 1.0
    ensures GetCell(f, x, y).state == 1.0 ==> r == 1.0
  {
    ApplyWith(pi, m.wind, m.wind, f, x, y)
  }

  /** `apply` as evidently intended: the height term comes from the height matrix. */
  function Apply(pi: real, m: Matrices, f: Forest, x: int, y: int): (r: real)
    requires WellFormed(f) && InBounds(f, x, y)
    ensures r <= 1.0
    ensures GetCell(f, x, y).state == 1.0 ==> r == 1.0
    ensures m.height == m.wind ==> r == ApplyAsWritten(pi, m, f, x, y)
  {
    ApplyWith(pi, m.wind, m.height, f, x, y)
  }

  /**
   * With non-negative matrices, pi and neighbour states, a cell in [0, 1]
   * never loses state: the result lies in [state, 1].
   */
  lemma ApplyNeverLowers(pi: real, m: Matrices, f: Forest, x: int, y: int)
    requires WellFormed(f) && InBounds(f, x, y)
    requires NonNegative(m.wind) && NonNegative(m.height) && pi >= 0.0
    requires NeighboursNonNegative(f, x, y) && GetCell(f, x, y).state <= 1.0
    ensures GetCell(f, x, y).state <= Apply(pi, m, f, x, y) <= 1.0
  {
    var t := Term(m.wind, m.height);
    forall i | 0 <= i < 4
      ensures Contribution(f, x, y, Adjacent[i], t) >= 0.0
    {
      TermNonNegative(m, f, x, y, Adjacent[i]);
    }
    forall i | 0 <= i < 4
      ensures Contribution(f, x, y, Diagonal[i], t) >= 0.0
    {
      TermNonNegative(m, f, x, y, Diagonal[i]);
    }
    SumOverNonNegative(f, x, y, Adjacent, t);
    SumOverNonNegative(f, x, y, Diagonal, t);
    NextNeverLowers(pi, GetCell(f, x, y).state, SumOver(f, x, y, Adjacent, t), SumOver(f, x, y, Diagonal, t));
  }

  lemma NextNeverLowers(pi: real, state: real, adj: real, diag: real)
    requires pi >= 0.0 && adj >= 0.0 && diag >= 0.0 && state <= 1.0
    ensures state <= Next(pi, state, adj, diag) <= 1.0
  {
    assert pi / 4.0 * diag >= 0.0;
  }

  lemma TermNonNegative(m: Matrices, f: Forest, x: int, y: int, o: Offset)
    requires WellFormed(f) && NonNegative(m.wind) && NonNegative(m.height)
    requires NeighboursNonNegative(f, x, y) && (o in Adjacent || o in Diagonal)
    ensures Contribution(f, x, y, o, Term(m.wind, m.height)) >= 0.0
  {
    if InGrid(f, x, y, o) {
      assert o in Moore;
      var n := GetCell(f, x + o.0, y + o.1);
      var w := Entry(m.wind, o);
      var h := Entry(m.height, o);
      assert w >= 0.0 && h >= 0.0 && n.state >= 0.0;
      assert w * h >= 0.0;
    }
  }

  /** Under the default matrices a neighbour's term is its state. */
  lemma DefaultTermIsState(f: Forest, x: int, y: int, o: Offset)
    requires WellFormed(f) && IsOffset(o)
    ensures Contribution(f, x, y, o, Term(Defaults.wind, Defaults.height)) ==
            if InGrid(f, x, y, o) then GetCell(f, x + o.0, y + o.1).state else 0.0
  {
    EntryOfUniform(1.0, o);
  }

  /** Under the default matrices an unburnt cell whose only burning neighbour is adjacent ignites fully. */
  lemma OneBurningAdjacentIgnites(pi: real, f: Forest, x: int, y: int, k: int)
    requires WellFormed(f) && InBounds(f, x, y) && 0 <= k < 4 && pi >= 0.0
    requires GetCell(f, x, y).state == 0.0
    requires BaseRule.OnlyNeighbourBurning(f, x, y, Adjacent[k])
    ensures Apply(pi, Defaults, f, x, y) == 1.0
  {
    OneBurningSums(f, x, y, Adjacent[k]);
    SumOverSingle(f, x, y, Adjacent, Term(Defaults.wind, Defaults.height), k);
    assert Apply(pi, Defaults, f, x, y) == Next(pi, 0.0, 1.0, 0.0);
  }

  /**
   * Under the default matrices an unburnt cell whose only burning neighbour
   * is diagonal reaches pi / 4 (capped at 1): the diagonal sum is scaled by
   * pi / 4 and nothing else.
   */
  lemma OneBurningDiagonalGivesQuarterPi(pi: real, f: Forest, x: int, y: int, k: int)
    requires WellFormed(f) && InBounds(f, x, y) && 0 <= k < 4
    requires GetCell(f, x, y).state == 0.0
    requires BaseRule.OnlyNeighbourBurning(f, x, y, Diagonal[k])
    ensures Apply(pi, Defaults, f, x, y) == Min(1.0, pi / 4.0)
  {
    OneBurningSums(f, x, y, Diagonal[k]);
    SumOverSingle(f, x, y, Diagonal, Term(Defaults.wind, Defaults.height), k);
    assert Apply(pi, Defaults, f, x, y) == Next(pi, 0.0, 0.0, 1.0);
  }

  /** With one burning neighbour at `lit`, every neighbour's default term is 1 at `lit` and 0 elsewhere. */
  lemma OneBurningSums(f: Forest, x: int, y: int, lit: Offset)
    requires WellFormed(f) && BaseRule.OnlyNeighbourBurning(f, x, y, lit) && (lit in Adjacent || lit in Diagonal)
    ensures forall i :: 0 <= i < 4 ==> Contribution(f, x, y, Adjacent[i], Term(Defaults.wind, Defaults.height)) == if Adjacent[i] == lit then 1.0 else 0.0
    ensures forall i :: 0 <= i < 4 ==> Contribution(f, x, y, Diagonal[i], Term(Defaults.wind, Defaults.height)) == if Diagonal[i] == lit then 1.0 else 0.0
    ensures lit in Adjacent ==> SumOver(f, x, y, Diagonal, Term(Defaults.wind, Defaults.height)) == 0.0
    ensures lit in Diagonal ==> SumOver(f, x, y, Adjacent, Term(Defaults.wind, Defaults.height)) == 0.0
  {
    var t := Term(Defaults.wind, Defaults.height);
    forall i | 0 <= i < 4
      ensures Contribution(f, x, y, Adjacent[i], t) == if Adjacent[i] == lit then 1.0 else 0.0
      ensures Contribution(f, x, y, Diagonal[i], t) == if Diagonal[i] == lit then 1.0 else 0.0
    {
      LitContribution(f, x, y, lit, Adjacent[i]);
      LitContribution(f, x, y, lit, Diagonal[i]);
    }
    if lit in Adjacent {
      SumOverZero(f, x, y, Diagonal, t);
    } else {
      SumOverZero(f, x, y, Adjacent, t);
    }
  }

  /** With one burning neighbour at `lit`, a neighbour contributes 1 under the default matrices if it is that one and 0 otherwise. */
  lemma LitContribution(f: Forest, x: int, y: int, lit: Offset, o: Offset)
    requires WellFormed(f) && BaseRule.OnlyNeighbourBurning(f, x, y, lit)
    requires o in Adjacent || o in Diagonal
    ensures Contribution(f, x, y, o, Term(Defaults.wind, Defaults.height)) == if o == lit then 1.0 else 0.0
  {
    assert o in Moore;
    DefaultTermIsState(f, x, y, o);
  }

  /**
   * The rule reads the cell's state and its in-grid neighbours' states at
   * (x + a, y + b) and nothing else: two snapshots that agree on those give
   * the same result.
   */
  lemma ApplyReadsOnlyLocalStates(pi: real, m: Matrices, f: Forest, g: Forest, x: int, y: int)
    requires WellFormed(f) && WellFormed(g) && BaseRule.SameLocalStates(f, g, x, y)
    ensures Apply(pi, m, f, x, y) == Apply(pi, m, g, x, y)
  {
    var t := Term(m.wind, m.height);
    forall i | 0 <= i < 4
      ensures Contribution(f, x, y, Adjacent[i], t) == Contribution(g, x, y, Adjacent[i], t)
    {
      SameContribution(m, f, g, x, y, Adjacent[i]);
    }
    forall i | 0 <= i < 4
      ensures Contribution(f, x, y, Diagonal[i], t) == Contribution(g, x, y, Diagonal[i], t)
    {
      SameContribution(m, f, g, x, y, Diagonal[i]);
    }
    SumOverCongruent(f, g, x, y, Adjacent, t, t);
    SumOverCongruent(f, g, x, y, Diagonal, t, t);
    SameSumsSameResult(pi, m.wind, m.height, f, g, x, y);
  }

  /** The result depends on the grid only through the cell's state and the two sums. */
  lemma SameSumsSameResult(pi: real, wind: Matrix3, height: Matrix3, f: Forest, g: Forest, x: int, y: int)
    requires WellFormed(f) && WellFormed(g) && InBounds(f, x, y) && InBounds(g, x, y)
    requires GetCell(f, x, y).state == GetCell(g, x, y).state
    requires SumOver(f, x, y, Adjacent, Term(wind, height)) == SumOver(g, x, y, Adjacent, Term(wind, height))
    requires SumOver(f, x, y, Diagonal, Term(wind, height)) == SumOver(g, x, y, Diagonal, Term(wind, height))
    ensures ApplyWith(pi, wind, height, f, x, y) == ApplyWith(pi, wind, height, g, x, y)
  {
    var t := Term(wind, height);
    assert ApplyWith(pi, wind, height, f, x, y) ==
           Next(pi, GetCell(f, x, y).state, SumOver(f, x, y, Adjacent, t), SumOver(f, x, y, Diagonal, t));
  }

  lemma SameContribution(m: Matrices, f: Forest, g: Forest, x: int, y: int, o: Offset)
    requires WellFormed(f) && WellFormed(g) && BaseRule.SameLocalStates(f, g, x, y) && o in Moore
    ensures Contribution(f, x, y, o, Term(m.wind, m.height)) == Contribution(g, x, y, o, Term(m.wind, m.height))
  {
    assert InGrid(f, x, y, o) == InGrid(g, x, y, o);
  }

  /** As written, the height matrix never affects the result: any two height matrices give the same next state. */
  lemma AsWrittenIgnoresHeight(pi: real, wind: Matrix3, h1: Matrix3, h2: Matrix3, f: Forest, x: int, y: int)
    requires WellFormed(f) && InBounds(f, x, y)
    ensures ApplyAsWritten(pi, Matrices(wind, h1), f, x, y) == ApplyAsWritten(pi, Matrices(wind, h2), f, x, y)
  {
  }

  /**
   * A height matrix of zeros (no spread across any slope) next to a burning
   * northern neighbour: as written the centre cell still ignites, while
   * reading the height matrix keeps it unburnt.
   */
  lemma AsWrittenIgnoresBarrier(pi: real)
    ensures ApplyAsWritten(pi, Matrices(Uniform(1.0), Uniform(0.0)), ExtendedRule.NorthBurning(), 1, 1) == 1.0
    ensures Apply(pi, Matrices(Uniform(1.0), Uniform(0.0)), ExtendedRule.NorthBurning(), 1, 1) == 0.0
  {
    var f := ExtendedRule.NorthBurning();
    ExtendedRule.NorthBurningCentre();
    BarrierSums();
    assert ApplyAsWritten(pi, Matrices(Uniform(1.0), Uniform(0.0)), f, 1, 1) == Next(pi, 0.0, 1.0, 0.0);
    assert Apply(pi, Matrices(Uniform(1.0), Uniform(0.0)), f, 1, 1) == Next(pi, 0.0, 0.0, 0.0);
  }

  /** Around the centre of `NorthBurning`, ones give the adjacent sum 1 and the diagonal sum 0; a zero height matrix gives 0 for both. */
  lemma BarrierSums()
    ensures SumOver(ExtendedRule.NorthBurning(), 1, 1, Adjacent, Term(Uniform(1.0), Uniform(1.0))) == 1.0
    ensures SumOver(ExtendedRule.NorthBurning(), 1, 1, Diagonal, Term(Uniform(1.0), Uniform(1.0))) == 0.0
    ensures SumOver(ExtendedRule.NorthBurning(), 1, 1, Adjacent, Term(Uniform(1.0), Uniform(0.0))) == 0.0
    ensures SumOver(ExtendedRule.NorthBurning(), 1, 1, Diagonal, Term(Uniform(1.0), Uniform(0.0))) == 0.0
  {
    OpenSums();
    ShutSums();
  }

  lemma OpenSums()
    ensures SumOver(ExtendedRule.NorthBurning(), 1, 1, Adjacent, Term(Uniform(1.0), Uniform(1.0))) == 1.0
    ensures SumOver(ExtendedRule.NorthBurning(), 1, 1, Diagonal, Term(Uniform(1.0), Uniform(1.0))) == 0.0
  {
    var f := ExtendedRule.NorthBurning();
    var open := Term(Uniform(1.0), Uniform(1.0));
    forall o | o in Moore
      ensures Contribution(f, 1, 1, o, open) == if o == (0, 1) then 1.0 else 0.0
    {
      BarrierTerm(o);
    }
    ExtendedRule.OnlyNorthContributes(f, open);
  }

  lemma ShutSums()
    ensures SumOver(ExtendedRule.NorthBurning(), 1, 1, Adjacent, Term(Uniform(1.0), Uniform(0.0))) == 0.0
    ensures SumOver(ExtendedRule.NorthBurning(), 1, 1, Diagonal, Term(Uniform(1.0), Uniform(0.0))) == 0.0
  {
    var f := ExtendedRule.NorthBurning();
    var shut := Term(Uniform(1.0), Uniform(0.0));
    forall i | 0 <= i < 4
      ensures Contribution(f, 1, 1, Adjacent[i], shut) == 0.0 && Contribution(f, 1, 1, Diagonal[i], shut) == 0.0
    {
      BarrierTerm(Adjacent[i]);
      BarrierTerm(Diagonal[i]);
    }
    SumOverZero(f, 1, 1, Adjacent, shut);
    SumOverZero(f, 1, 1, Diagonal, shut);
  }

  /** One neighbour of the centre of `NorthBurning`: it contributes its state under ones, and nothing under a zero height matrix. */
  lemma BarrierTerm(o: Offset)
    requires IsOffset(o)
    ensures Contribution(ExtendedRule.NorthBurning(), 1, 1, o, Term(Uniform(1.0), Uniform(1.0))) == if o == (0, 1) then 1.0 else 0.0
    ensures Contribution(ExtendedRule.NorthBurning(), 1, 1, o, Term(Uniform(1.0), Uniform(0.0))) == 0.0
  {
    ExtendedRule.NorthBurningNeighbour(o);
    EntryOfUniform(1.0, o);
    EntryOfUniform(0.0, o);
  }
}
