/**
 * `compute_metric`: compare the simulated burn footprint of the 250 x 250
 * scoring window with the ground-truth mask and return (f1, precision, recall).
 */
module Metric {
  import opened Wrappers
  import opened ForestCell
  import opened Grid

  /** The side of the scoring window. */
  const Side: nat := 250

  datatype Outcome = TruePositive | FalseNegative | FalsePositive | TrueNegative

  /** A cell counts as burned in the truth when its mask value is non-zero, and in the simulation when its state is exactly 1. */
  function Classify(c: Cell): (o: Outcome)
    ensures o.TruePositive? <==> c.isBurned != 0.0 && c.state == 1.0
    ensures o.FalseNegative? <==> c.isBurned != 0.0 && c.state != 1.0
    ensures o.FalsePositive? <==> c.isBurned == 0.0 && c.state == 1.0
    ensures o.TrueNegative? <==> c.isBurned == 0.0 && c.state != 1.0
  {
    if c.isBurned != 0.0 && c.state == 1.0 then TruePositive
    else if c.isBurned != 0.0 && c.state != 1.0 then FalseNegative
    else if c.isBurned == 0.0 && c.state == 1.0 then FalsePositive
    else TrueNegative
  }

  datatype Confusion = Confusion(tp: nat, fn: nat, fp: nat, tn: nat)

  function Total(t: Confusion): nat {
    t.tp + t.fn + t.fp + t.tn
  }

  function Add(t: Confusion, o: Outcome): Confusion {
    match o
    case TruePositive => t.(tp := t.tp + 1)
    case FalseNegative => t.(fn := t.fn + 1)
    case FalsePositive => t.(fp := t.fp + 1)
    case TrueNegative => t.(tn := t.tn + 1)
  }

  /** The coordinates the scoring loop visits, i outer and j inner, as (x, y) = (i, j). */
  function ScoredCoordinates(): (s: seq<(int, int)>)
    ensures |s| == Side * Side
    ensures forall k :: 0 <= k < |s| ==> 0 <= s[k].0 < Side && 0 <= s[k].1 < Side
  {
    seq(Side * Side, k requires 0 <= k < Side * Side => (k / Side, k % Side))
  }

  predicate Covers(f: Forest) {
    WellFormed(f) && f.width >= Side && f.height >= Side
  }

  /** The counts over the given coordinates. */
  function Tally(f: Forest, coords: seq<(int, int)>): Confusion
    requires WellFormed(f)
    requires forall k :: 0 <= k < |coords| ==> InBounds(f, coords[k].0, coords[k].1)
    decreases |coords|
  {
    if coords == [] then Confusion(0, 0, 0, 0)
    else Add(Tally(f, coords[..|coords| - 1]), Classify(GetCell(f, coords[|coords| - 1].0, coords[|coords| - 1].1)))
  }

  /** Every visited cell lands in exactly one of the four counts, so the counts sum to the number of cells visited. */
  lemma {:induction false} TallyIsPartition(f: Forest, coords: seq<(int, int)>)
    requires WellFormed(f)
    requires forall k :: 0 <= k < |coords| ==> InBounds(f, coords[k].0, coords[k].1)
    ensures Total(Tally(f, coords)) == |coords|
  {
    if coords != [] {
      TallyIsPartition(f, coords[..|coords| - 1]);
    }
  }

  /** The four counts of the scoring window sum to 250 * 250 = 62500. */
  lemma ScoringWindowIsPartition(f: Forest)
    requires Covers(f)
    ensures Total(WindowTally(f)) == 62500
  {
    TallyIsPartition(f, ScoredCoordinates());
  }

  datatype Scores = Scores(f1: real, precision: real, recall: real)

  /**
   * `compute_metric()`: precision tp/(tp+fp), recall tp/(tp+fn) and their
   * harmonic mean 2/(1/precision + 1/recall). Each division raises when its
   * divisor is zero, which happens exactly when no cell is a true positive.
   */
  function ComputeMetric(f: Forest): (r: Result<Scores>)
    requires Covers(f)
    ensures r.Failure? <==> WindowTally(f).tp == 0
    ensures r.Success? ==> ScoresAgree(WindowTally(f), r.value)
  {
    var t := WindowTally(f);
    ScoresOf(t)
  }

  /**
   * The scores are those of the counts: precision tp/(tp+fp) and recall
   * tp/(tp+fn), both in (0, 1], and f1 their harmonic mean 2tp/(2tp+fp+fn),
   * each stated without division.
   */
  predicate ScoresAgree(t: Confusion, s: Scores) {
    && 0.0 < s.precision <= 1.0
    && 0.0 < s.recall <= 1.0
    && s.precision * (t.tp + t.fp) as real == t.tp as real
    && s.recall * (t.tp + t.fn) as real == t.tp as real
    && s.f1 * (2 * t.tp + t.fp + t.fn) as real == (2 * t.tp) as real
  }

  /** The counts of the 250 x 250 scoring window. */
  function WindowTally(f: Forest): Confusion
    requires Covers(f)
  {
    Tally(f, ScoredCoordinates())
  }

  /** The score arithmetic of `compute_metric` on given counts. */
  function ScoresOf(t: Confusion): (r: Result<Scores>)
    ensures r.Failure? <==> t.tp == 0
    ensures r.Success? ==> ScoresAgree(t, r.value)
  {
    if t.tp + t.fp == 0 || t.tp + t.fn == 0 then Failure(ZeroDivisionError)
    else
      var tp, fp, fn := t.tp as real, t.fp as real, t.fn as real;
      var precision := tp / (tp + fp);
      var recall := tp / (tp + fn);
      if precision == 0.0 || recall == 0.0 then Failure(ZeroDivisionError)
      else
        assert tp > 0.0;
        Ratio(tp, fp);
        Ratio(tp, fn);
        HarmonicMean(tp, fp, fn);
        Success(Scores(2.0 / (1.0 / precision + 1.0 / recall), precision, recall))
  }

  /** tp/(tp+e) is a ratio in (0, 1]. */
  lemma Ratio(tp: real, e: real)
    requires tp > 0.0 && e >= 0.0
    ensures 0.0 < tp / (tp + e) <= 1.0
    ensures (tp / (tp + e)) * (tp + e) == tp
  {
  }

  /** The harmonic mean of tp/(tp+fp) and tp/(tp+fn) is 2tp/(2tp+fp+fn). */
  lemma HarmonicMean(tp: real, fp: real, fn: real)
    requires tp > 0.0 && fp >= 0.0 && fn >= 0.0
    ensures 1.0 / (tp / (tp + fp)) + 1.0 / (tp / (tp + fn)) > 0.0
    ensures (2.0 / (1.0 / (tp / (tp + fp)) + 1.0 / (tp / (tp + fn)))) * (2.0 * tp + fp + fn) == 2.0 * tp
  {
    var a, b := tp + fp, tp + fn;
    Reciprocal(tp, a);
    Reciprocal(tp, b);
    assert a / tp + b / tp == (a + b) / tp;
    Reciprocal(a + b, tp);
    assert 2.0 / ((a + b) / tp) == 2.0 * (tp / (a + b));
    assert (tp / (a + b)) * (a + b) == tp;
  }

  lemma Reciprocal(u: real, v: real)
    requires u > 0.0 && v > 0.0
    ensures u / v > 0.0
    ensures 1.0 / (u / v) == v / u
  {
    var w := u / v;
    assert w * v == u;
    assert (v / u) * w == (v / u) * (u / v);
  }
}
