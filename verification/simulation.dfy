/**
 * The simultaneous activation of the cells, sequentially: a step phase that
 * visits every cell in agent order and records its next state, then an
 * advance phase that publishes every recorded state.
 */
module Simulation {
  import opened Wrappers
  import opened Factors
  import opened ForestCell
  import opened Grid
  import BaseRule
  import ExtendedRule
  import OurRule

  /** The propagation rule the model was built with, with the inputs each needs. */
  datatype Rule =
    | Base(w: BaseRule.Weights)
    | Extended(pi: real, maxRos: real)
    | Ours(e: OurRule.Env, gusts: (int, int) -> bool)
    | OursAsWritten(e: OurRule.Env)

  /** The weather table covers the current day whenever the rule reads it. */
  predicate Ready(rule: Rule) {
    rule.Ours? ==> OurRule.Covers(rule.e)
  }

  /** What a rule writes into a cell during the step phase. */
  datatype Update =
    | SetNext(next: real)
    | SetAll(next: real, windComponent: real, rainDeficit: real)

  /** The rule evaluated at (x, y) against the grid f. */
  function Compute(rule: Rule, f: Forest, x: int, y: int): (r: Result<Update>)
    requires WellFormed(f) && InBounds(f, x, y) && Ready(rule)
    ensures rule.Base? ==> r == Success(SetNext(BaseRule.Apply(rule.w, f, x, y)))
  {
    match rule
    case Base(w) => Success(SetNext(BaseRule.Apply(w, f, x, y)))
    case Extended(pi, m) =>
      (match ExtendedRule.Apply(pi, m, f, x, y)
       case Success(v) => Success(SetNext(v))
       case Failure(err) => Failure(err))
    case Ours(e, gusts) =>
      (match OurRule.Apply(e, gusts(x, y), f, x, y)
       case Success(s) => Success(SetAll(s.next, s.windComponent, s.rainDeficit))
       case Failure(err) => Failure(err))
    case OursAsWritten(e) =>
      (match OurRule.ApplyAsWritten(e, f, x, y)
       case Success(s) => Success(SetAll(s.next, s.windComponent, s.rainDeficit))
       case Failure(err) => Failure(err))
  }

  /** `ForestCell.step` storing an update: the next state is recorded and the state itself is untouched. */
  function Write(c: Cell, u: Update): (d: Cell)
    ensures d.nextState == Some(u.next) && d.state == c.state
    ensures u.SetNext? ==> d == Step(c, u.next)
    ensures d.(nextState := c.nextState, windComponent := c.windComponent, rainDeficit := c.rainDeficit) == c
  {
    match u
    case SetNext(n) => Step(c, n)
    case SetAll(n, wc, rd) => Step(c, n).(windComponent := wc, rainDeficit := rd)
  }

  /** Every key names a cell of the grid. */
  predicate KeysInBounds(f: Forest, keys: seq<(int, int)>) {
    forall k :: 0 <= k < |keys| ==> InBounds(f, keys[k].0, keys[k].1)
  }

  /** Two cells agree on everything but the three fields the step phase writes. */
  predicate SameExceptStepFields(c: Cell, d: Cell) {
    c.(nextState := d.nextState, windComponent := d.windComponent, rainDeficit := d.rainDeficit) == d
  }

  /**
   * g is f after a step phase over `keys`: the same shape, every cell changed
   * at most in its step fields, and the cells not listed not changed at all.
   */
  ghost predicate WroteOnly(f: Forest, g: Forest, keys: seq<(int, int)>)
    requires WellFormed(f)
  {
    && WellFormed(g) && g.width == f.width && g.height == f.height
    && (forall x, y :: InBounds(f, x, y) ==> SameExceptStepFields(GetCell(f, x, y), GetCell(g, x, y)))
    && (forall x, y :: InBounds(f, x, y) && (x, y) !in keys ==> GetCell(g, x, y) == GetCell(f, x, y))
  }

  /** Every listed cell has a recorded next state. */
  predicate Recorded(f: Forest, keys: seq<(int, int)>)
    requires WellFormed(f) && KeysInBounds(f, keys)
  {
    forall k :: 0 <= k < |keys| ==> GetCell(f, keys[k].0, keys[k].1).nextState.Some?
  }

  /**
   * Every listed cell of g is its cell in f with what the rule computes for
   * it on the snapshot f0 written in, and every such rule call succeeds.
   */
  predicate WrittenFrom(rule: Rule, f0: Forest, f: Forest, g: Forest, keys: seq<(int, int)>)
    requires WellFormed(f0) && WellFormed(f) && WellFormed(g) && Ready(rule)
    requires f0.width == g.width && f0.height == g.height && f.width == g.width && f.height == g.height
    requires KeysInBounds(g, keys)
  {
    forall k :: 0 <= k < |keys| ==>
      Compute(rule, f0, keys[k].0, keys[k].1).Success? &&
      GetCell(g, keys[k].0, keys[k].1) == Write(GetCell(f, keys[k].0, keys[k].1), Compute(rule, f0, keys[k].0, keys[k].1).value)
  }

  /** Writing the same update twice is writing it once. */
  lemma WriteTwice(c: Cell, u: Update)
    ensures Write(Write(c, u), u) == Write(c, u)
  {
  }

  /** One turn that writes the step fields of the first cell, followed by a phase over the rest, is a phase over all the cells. */
  lemma TurnThenRest(f: Forest, c: Cell, h: Forest, keys: seq<(int, int)>)
    requires WellFormed(f) && KeysInBounds(f, keys) && keys != []
    requires SameExceptStepFields(GetCell(f, keys[0].0, keys[0].1), c) && c.nextState.Some?
    requires WroteOnly(SetCell(f, keys[0].0, keys[0].1, c), h, keys[1..])
    ensures WroteOnly(f, h, keys)
    ensures KeysInBounds(h, keys[1..]) && Recorded(h, keys[1..]) ==> Recorded(h, keys)
  {
    var x, y := keys[0].0, keys[0].1;
    var g := SetCell(f, x, y, c);
    forall x', y' | InBounds(f, x', y')
      ensures SameExceptStepFields(GetCell(f, x', y'), GetCell(h, x', y'))
    {
      if (x', y') != (x, y) {
        assert GetCell(g, x', y') == GetCell(f, x', y');
      }
    }
    forall x', y' | InBounds(f, x', y') && (x', y') !in keys
      ensures GetCell(h, x', y') == GetCell(f, x', y')
    {
      assert (x', y') != keys[0];
      assert (x', y') !in keys[1..];
    }
    if KeysInBounds(h, keys[1..]) && Recorded(h, keys[1..]) {
      forall k | 0 <= k < |keys|
        ensures GetCell(h, keys[k].0, keys[k].1).nextState.Some?
      {
        if k > 0 {
          assert keys[k] == keys[1..][k - 1];
        } else if (x, y) !in keys[1..] {
          assert GetCell(h, x, y) == GetCell(g, x, y);
        } else {
          var j :| 0 <= j < |keys[1..]| && keys[1..][j] == (x, y);
        }
      }
    }
  }

  /** The listed cells of a list of cells that is in bounds are in bounds, and so is the rest of the list. */
  lemma KeysTail(f: Forest, keys: seq<(int, int)>)
    requires KeysInBounds(f, keys) && keys != []
    ensures InBounds(f, keys[0].0, keys[0].1) && KeysInBounds(f, keys[1..])
  {
    assert forall k :: 1 <= k < |keys| ==> keys[k] == keys[1..][k - 1];
  }

  /**
   * The step phase as the scheduler runs it: the cells in `keys` take their
   * turn one after the other, and each reads the grid as the earlier turns
   * left it. The first failing rule call aborts the phase.
   */
  function StepPhase(rule: Rule, f: Forest, keys: seq<(int, int)>): (r: Result<Forest>)
    requires WellFormed(f) && KeysInBounds(f, keys) && Ready(rule)
    ensures r.Success? ==> WroteOnly(f, r.value, keys) && KeysInBounds(r.value, keys) && Recorded(r.value, keys)
    decreases |keys|
  {
    if keys == [] then Success(f)
    else
      KeysTail(f, keys);
      var x, y := keys[0].0, keys[0].1;
      match Compute(rule, f, x, y)
      case Failure(err) => Failure(err)
      case Success(u) =>
        var c := Write(GetCell(f, x, y), u);
        var r := StepPhase(rule, SetCell(f, x, y, c), keys[1..]);
        match r
        case Failure(_) => r
        case Success(h) =>
          TurnThenRest(f, c, h, keys);
          r
  }

  /** Every listed cell is terminal: burned out, or unable to burn. */
  ghost predicate AllTerminal(f: Forest, keys: seq<(int, int)>)
    requires WellFormed(f) && KeysInBounds(f, keys)
  {
    forall k :: 0 <= k < |keys| ==> Terminal(GetCell(f, keys[k].0, keys[k].1))
  }

  /**
   * The step phase with the rule call as written succeeds exactly when every
   * listed cell is terminal, and then every listed cell records its own
   * state as its next state; otherwise it fails with a TypeError.
   */
  lemma {:induction false} AsWrittenPhase(e: OurRule.Env, f: Forest, keys: seq<(int, int)>)
    requires WellFormed(f) && KeysInBounds(f, keys)
    ensures StepPhase(OursAsWritten(e), f, keys).Success? <==> AllTerminal(f, keys)
    ensures StepPhase(OursAsWritten(e), f, keys).Failure? ==> StepPhase(OursAsWritten(e), f, keys).error == TypeError
    ensures StepPhase(OursAsWritten(e), f, keys).Success? ==> forall k :: 0 <= k < |keys| ==>
              GetCell(StepPhase(OursAsWritten(e), f, keys).value, keys[k].0, keys[k].1).nextState ==
              Some(GetCell(f, keys[k].0, keys[k].1).state)
    decreases |keys|
  {
    if keys != [] {
      KeysTail(f, keys);
      var x, y := keys[0].0, keys[0].1;
      var c := GetCell(f, x, y);
      if Terminal(c) {
        var u := Compute(OursAsWritten(e), f, x, y).value;
        var g := SetCell(f, x, y, Write(c, u));
        assert u.next == c.state;
        assert KeysInBounds(g, keys[1..]);
        AsWrittenPhase(e, g, keys[1..]);
        SameTerminality(f, g, x, y, keys);
        if StepPhase(OursAsWritten(e), f, keys).Success? {
          var h := StepPhase(OursAsWritten(e), f, keys).value;
          assert StepPhase(OursAsWritten(e), g, keys[1..]) == Success(h);
          RecordsOwnStates(f, g, h, keys, u);
        }
      } else {
        assert !AllTerminal(f, keys);
      }
    }
  }

  /** Writing an update into the first listed cell keeps every listed cell as terminal as it was, and keeps its state. */
  /**
   * After a first turn that recorded the cell's own state, and a rest of the
   * phase that recorded each later cell's state, every listed cell records
   * its state from before the phase.
   */
  lemma RecordsOwnStates(f: Forest, g: Forest, h: Forest, keys: seq<(int, int)>, u: Update)
    requires WellFormed(f) && KeysInBounds(f, keys) && keys != []
    requires g == SetCell(f, keys[0].0, keys[0].1, Write(GetCell(f, keys[0].0, keys[0].1), u))
    requires u.next == GetCell(f, keys[0].0, keys[0].1).state
    requires KeysInBounds(g, keys[1..]) && WroteOnly(g, h, keys[1..])
    requires var rest := keys[1..]; forall k :: 0 <= k < |rest| ==> GetCell(h, rest[k].0, rest[k].1).nextState == Some(GetCell(g, rest[k].0, rest[k].1).state)
    requires forall k :: 0 <= k < |keys| ==> GetCell(g, keys[k].0, keys[k].1).state == GetCell(f, keys[k].0, keys[k].1).state
    ensures forall k :: 0 <= k < |keys| ==> GetCell(h, keys[k].0, keys[k].1).nextState == Some(GetCell(f, keys[k].0, keys[k].1).state)
  {
    forall k | 0 <= k < |keys|
      ensures GetCell(h, keys[k].0, keys[k].1).nextState == Some(GetCell(f, keys[k].0, keys[k].1).state)
    {
      if keys[k] in keys[1..] {
        var j :| 0 <= j < |keys[1..]| && keys[1..][j] == keys[k];
      }
    }
  }

  lemma SameTerminality(f: Forest, g: Forest, x: int, y: int, keys: seq<(int, int)>)
    requires WellFormed(f) && KeysInBounds(f, keys) && keys != [] && keys[0] == (x, y)
    requires exists u :: g == SetCell(f, x, y, Write(GetCell(f, x, y), u))
    ensures KeysInBounds(g, keys[1..])
    ensures AllTerminal(f, keys) <==> Terminal(GetCell(f, x, y)) && AllTerminal(g, keys[1..])
    ensures forall k :: 0 <= k < |keys| ==> GetCell(g, keys[k].0, keys[k].1).state == GetCell(f, keys[k].0, keys[k].1).state
  {
    var u :| g == SetCell(f, x, y, Write(GetCell(f, x, y), u));
    forall k | 0 <= k < |keys|
      ensures GetCell(g, keys[k].0, keys[k].1).state == GetCell(f, keys[k].0, keys[k].1).state
      ensures Terminal(GetCell(g, keys[k].0, keys[k].1)) == Terminal(GetCell(f, keys[k].0, keys[k].1))
    {
    }
    forall k | 0 <= k < |keys[1..]|
      ensures keys[1..][k] == keys[k + 1]
    {
    }
  }

  /** One frozen turn, followed by a frozen phase over the rest, writes every listed cell's result on the snapshot. */
  lemma FrozenTurnThenRest(rule: Rule, f0: Forest, f: Forest, u: Update, h: Forest, keys: seq<(int, int)>)
    requires WellFormed(f0) && WellFormed(f) && f0.width == f.width && f0.height == f.height
    requires KeysInBounds(f, keys) && keys != [] && Ready(rule)
    requires Compute(rule, f0, keys[0].0, keys[0].1) == Success(u)
    requires WroteOnly(SetCell(f, keys[0].0, keys[0].1, Write(GetCell(f, keys[0].0, keys[0].1), u)), h, keys[1..])
    requires KeysInBounds(h, keys[1..])
    requires WrittenFrom(rule, f0, SetCell(f, keys[0].0, keys[0].1, Write(GetCell(f, keys[0].0, keys[0].1), u)), h, keys[1..])
    ensures WroteOnly(f, h, keys) && KeysInBounds(h, keys) && WrittenFrom(rule, f0, f, h, keys)
  {
    var x, y := keys[0].0, keys[0].1;
    var c := Write(GetCell(f, x, y), u);
    var g := SetCell(f, x, y, c);
    TurnThenRest(f, c, h, keys);
    FrozenHead(rule, f0, f, u, h, keys);
    forall k | 0 < k < |keys|
      ensures Compute(rule, f0, keys[k].0, keys[k].1).Success?
      ensures GetCell(h, keys[k].0, keys[k].1) == Write(GetCell(f, keys[k].0, keys[k].1), Compute(rule, f0, keys[k].0, keys[k].1).value)
    {
      assert keys[k] == keys[1..][k - 1];
      if keys[k] == (x, y) {
        WriteTwice(GetCell(f, x, y), u);
      } else {
        assert GetCell(g, keys[k].0, keys[k].1) == GetCell(f, keys[k].0, keys[k].1);
      }
    }
  }

  /** The first listed cell keeps the result of its frozen turn, whether or not it is listed again. */
  lemma FrozenHead(rule: Rule, f0: Forest, f: Forest, u: Update, h: Forest, keys: seq<(int, int)>)
    requires WellFormed(f0) && WellFormed(f) && f0.width == f.width && f0.height == f.height
    requires KeysInBounds(f, keys) && keys != [] && Ready(rule)
    requires Compute(rule, f0, keys[0].0, keys[0].1) == Success(u)
    requires WroteOnly(SetCell(f, keys[0].0, keys[0].1, Write(GetCell(f, keys[0].0, keys[0].1), u)), h, keys[1..])
    requires KeysInBounds(h, keys[1..])
    requires WrittenFrom(rule, f0, SetCell(f, keys[0].0, keys[0].1, Write(GetCell(f, keys[0].0, keys[0].1), u)), h, keys[1..])
    ensures GetCell(h, keys[0].0, keys[0].1) == Write(GetCell(f, keys[0].0, keys[0].1), u)
  {
    var x, y := keys[0].0, keys[0].1;
    if keys[0] in keys[1..] {
      var j :| 0 <= j < |keys[1..]| && keys[1..][j] == keys[0];
      WriteTwice(GetCell(f, x, y), u);
    }
  }

  /** A failing rule call at a listed cell, or after the first, is a failing rule call at a listed cell. */
  lemma FrozenFailureShifts(rule: Rule, f0: Forest, keys: seq<(int, int)>)
    requires WellFormed(f0) && KeysInBounds(f0, keys) && keys != [] && Ready(rule)
    requires Compute(rule, f0, keys[0].0, keys[0].1).Failure? ||
             exists k :: 0 <= k < |keys[1..]| && Compute(rule, f0, keys[1..][k].0, keys[1..][k].1).Failure?
    ensures exists k :: 0 <= k < |keys| && Compute(rule, f0, keys[k].0, keys[k].1).Failure?
  {
    if !Compute(rule, f0, keys[0].0, keys[0].1).Failure? {
      var k :| 0 <= k < |keys[1..]| && Compute(rule, f0, keys[1..][k].0, keys[1..][k].1).Failure?;
      assert keys[k + 1] == keys[1..][k];
    }
  }

  /**
   * The step phase as a simultaneous update means it: every rule call reads
   * the frozen snapshot `f0`, and the results are written into f.
   */
  function StepFrozen(rule: Rule, f0: Forest, f: Forest, keys: seq<(int, int)>): (r: Result<Forest>)
    requires WellFormed(f0) && WellFormed(f) && f0.width == f.width && f0.height == f.height
    requires KeysInBounds(f, keys) && Ready(rule)
    ensures r.Success? ==> WroteOnly(f, r.value, keys) && KeysInBounds(r.value, keys) && WrittenFrom(rule, f0, f, r.value, keys)
    ensures r.Failure? ==> exists k :: 0 <= k < |keys| && Compute(rule, f0, keys[k].0, keys[k].1).Failure?
    decreases |keys|
  {
    if keys == [] then Success(f)
    else
      KeysTail(f, keys);
      var x, y := keys[0].0, keys[0].1;
      match Compute(rule, f0, x, y)
      case Failure(err) =>
        FrozenFailureShifts(rule, f0, keys);
        Failure(err)
      case Success(u) =>
        var r := StepFrozen(rule, f0, SetCell(f, x, y, Write(GetCell(f, x, y), u)), keys[1..]);
        match r
        case Failure(_) =>
          FrozenFailureShifts(rule, f0, keys);
          r
        case Success(h) =>
          FrozenTurnThenRest(rule, f0, f, u, h, keys);
          r
  }

  /** Every cell agrees in f and g on its state and its rate of spread. */
  ghost predicate SameStatesAndRates(f: Forest, g: Forest)
    requires WellFormed(f) && WellFormed(g)
  {
    f.width == g.width && f.height == g.height &&
    forall x, y :: InBounds(f, x, y) ==>
      GetCell(f, x, y).state == GetCell(g, x, y).state && GetCell(f, x, y).rateOfSpread == GetCell(g, x, y).rateOfSpread
  }

  /**
   * For the base rule the order of the turns does not matter: it reads only
   * states and rates of spread, which the step phase never writes, so the
   * sequential step phase equals the simultaneous one on the snapshot.
   */
  lemma {:induction false} BaseStepIsSimultaneous(w: BaseRule.Weights, f0: Forest, g: Forest, keys: seq<(int, int)>)
    requires WellFormed(f0) && WellFormed(g) && SameStatesAndRates(g, f0) && KeysInBounds(g, keys)
    ensures StepPhase(Base(w), g, keys) == StepFrozen(Base(w), f0, g, keys)
    decreases |keys|
  {
    if keys != [] {
      var (x, y) := keys[0];
      SameNeighbourhood(f0, g, x, y);
      BaseRule.ApplyReadsOnlyLocalStates(w, g, f0, x, y);
      var g' := SetCell(g, x, y, Write(GetCell(g, x, y), SetNext(BaseRule.Apply(w, g, x, y))));
      assert SameStatesAndRates(g', f0) by {
        forall x', y' | InBounds(g', x', y')
          ensures GetCell(g', x', y').state == GetCell(f0, x', y').state
          ensures GetCell(g', x', y').rateOfSpread == GetCell(f0, x', y').rateOfSpread
        {
          if (x', y') != (x, y) {
            assert GetCell(g', x', y') == GetCell(g, x', y');
          }
        }
      }
      assert KeysInBounds(g', keys[1..]);
      BaseStepIsSimultaneous(w, f0, g', keys[1..]);
    }
  }

  /** Grids that agree on every state and rate agree on every neighbourhood. */
  lemma SameNeighbourhood(f0: Forest, g: Forest, x: int, y: int)
    requires WellFormed(f0) && WellFormed(g) && SameStatesAndRates(g, f0) && InBounds(g, x, y)
    ensures BaseRule.SameLocalStates(g, f0, x, y)
  {
    forall o | o in Moore && InGrid(g, x, y, o)
      ensures GetCell(g, x + o.0, y + o.1).state == GetCell(f0, x + o.0, y + o.1).state
    {
    }
  }

  /** Every cell has a recorded next state. */
  ghost predicate AllStepped(f: Forest)
    requires WellFormed(f)
  {
    forall x, y :: InBounds(f, x, y) ==> GetCell(f, x, y).nextState.Some?
  }

  /** The advance phase: the cells in `keys` publish their next state, one after the other. */
  function AdvancePhase(f: Forest, keys: seq<(int, int)>): (r: Forest)
    requires WellFormed(f) && KeysInBounds(f, keys) && Recorded(f, keys)
    ensures Advanced(f, r, keys)
    decreases |keys|
  {
    if keys == [] then f
    else
      KeysTail(f, keys);
      var x, y := keys[0].0, keys[0].1;
      var g := SetCell(f, x, y, Advance(GetCell(f, x, y)));
      RecordedTail(f, g, keys);
      var r := AdvancePhase(g, keys[1..]);
      AdvanceThenRest(f, r, keys);
      r
  }

  /**
   * r is f with every listed cell advanced, once or many times alike, and
   * every other cell as it was.
   */
  ghost predicate Advanced(f: Forest, r: Forest, keys: seq<(int, int)>)
    requires WellFormed(f)
  {
    && WellFormed(r) && r.width == f.width && r.height == f.height
    && (forall x, y :: InBounds(f, x, y) && (x, y) in keys ==>
          GetCell(f, x, y).nextState.Some? && GetCell(r, x, y) == Advance(GetCell(f, x, y)))
    && (forall x, y :: InBounds(f, x, y) && (x, y) !in keys ==> GetCell(r, x, y) == GetCell(f, x, y))
  }

  /** Advancing the first listed cell keeps the records of the rest. */
  lemma RecordedTail(f: Forest, g: Forest, keys: seq<(int, int)>)
    requires WellFormed(f) && KeysInBounds(f, keys) && Recorded(f, keys) && keys != []
    requires g == SetCell(f, keys[0].0, keys[0].1, Advance(GetCell(f, keys[0].0, keys[0].1)))
    ensures KeysInBounds(g, keys[1..]) && Recorded(g, keys[1..])
  {
    forall k | 0 <= k < |keys[1..]|
      ensures InBounds(g, keys[1..][k].0, keys[1..][k].1)
      ensures GetCell(g, keys[1..][k].0, keys[1..][k].1).nextState.Some?
    {
      assert keys[1..][k] == keys[k + 1];
    }
  }

  /** Advancing the first listed cell, then the rest, advances every listed cell. */
  lemma AdvanceThenRest(f: Forest, r: Forest, keys: seq<(int, int)>)
    requires WellFormed(f) && KeysInBounds(f, keys) && Recorded(f, keys) && keys != []
    requires Advanced(SetCell(f, keys[0].0, keys[0].1, Advance(GetCell(f, keys[0].0, keys[0].1))), r, keys[1..])
    ensures Advanced(f, r, keys)
  {
    var x, y := keys[0].0, keys[0].1;
    var g := SetCell(f, x, y, Advance(GetCell(f, x, y)));
    forall x', y' | InBounds(f, x', y') && (x', y') in keys
      ensures GetCell(f, x', y').nextState.Some? && GetCell(r, x', y') == Advance(GetCell(f, x', y'))
    {
      var k :| 0 <= k < |keys| && keys[k] == (x', y');
      if (x', y') != (x, y) {
        assert (x', y') in keys[1..] by {
          assert keys[k] == keys[1..][k - 1];
        }
        assert GetCell(g, x', y') == GetCell(f, x', y');
      }
    }
    forall x', y' | InBounds(f, x', y') && (x', y') !in keys
      ensures GetCell(r, x', y') == GetCell(f, x', y')
    {
      assert (x', y') != keys[0];
      assert (x', y') !in keys[1..];
    }
  }

  /**
   * The order in which the cells were added to the schedule: `coord_iter`
   * runs x in the outer loop and y in the inner one. Every cell of the
   * width by height grid appears exactly once.
   */
  function AgentOrder(width: nat, height: nat): (keys: seq<(int, int)>)
    ensures |keys| == width * height
    ensures forall k :: 0 <= k < |keys| ==> 0 <= keys[k].0 < width && 0 <= keys[k].1 < height
    ensures forall x, y :: 0 <= x < width && 0 <= y < height ==> (x, y) in keys
    ensures forall i, j :: 0 <= i < j < |keys| ==> keys[i] != keys[j]
  {
    ColumnsCover(width, height);
    Columns(width, height)
  }

  /** The columns 0 .. width - 1, one after the other. */
  function Columns(width: nat, height: nat): seq<(int, int)> {
    if width == 0 then [] else Columns(width - 1, height) + Column(width - 1, height)
  }

  /** The cells of column x, bottom to top. */
  function Column(x: int, height: nat): (c: seq<(int, int)>)
    ensures |c| == height && forall y :: 0 <= y < height ==> c[y] == (x, y)
  {
    seq(height, y requires 0 <= y < height => (x, y))
  }

  /** The columns hold every cell of the grid once, and nothing else. */
  lemma {:induction false} ColumnsCover(width: nat, height: nat)
    ensures |Columns(width, height)| == width * height
    ensures forall k :: 0 <= k < |Columns(width, height)| ==>
              0 <= Columns(width, height)[k].0 < width && 0 <= Columns(width, height)[k].1 < height
    ensures forall x, y :: 0 <= x < width && 0 <= y < height ==> (x, y) in Columns(width, height)
    ensures forall i, j :: 0 <= i < j < |Columns(width, height)| ==> Columns(width, height)[i] != Columns(width, height)[j]
  {
    if width > 0 {
      var prefix := Columns(width - 1, height);
      var column := Column(width - 1, height);
      ColumnsCover(width - 1, height);
      ColumnStart(width, height);
      assert forall y :: 0 <= y < height ==> (width - 1, y) == column[y];
    }
  }

  /** The cell (x, y) is the (x * height + y)-th agent. */
  lemma AgentOrderPosition(width: nat, height: nat, x: int, y: int)
    requires 0 <= x < width && 0 <= y < height
    ensures 0 <= x * height + y < width * height
    ensures AgentOrder(width, height)[x * height + y] == (x, y)
  {
    ColumnsPosition(width, height, x, y);
  }

  lemma {:induction false} ColumnsPosition(width: nat, height: nat, x: int, y: int)
    requires 0 <= x < width && 0 <= y < height
    ensures x * height + y < width * height
    ensures x * height + y < |Columns(width, height)|
    ensures Columns(width, height)[x * height + y] == (x, y)
  {
    var prefix := Columns(width - 1, height);
    ColumnsLength(width - 1, height);
    ColumnStart(width, height);
    if x < width - 1 {
      ColumnsPosition(width - 1, height, x, y);
    } else {
      SameProduct(x, width - 1, height);
    }
  }

  lemma {:induction false} ColumnsLength(width: nat, height: nat)
    ensures |Columns(width, height)| == width * height
  {
    if width > 0 {
      ColumnsLength(width - 1, height);
      ColumnStart(width, height);
    }
  }

  /** The last column starts after the (width - 1) * height cells of the others. */
  lemma ColumnStart(width: nat, height: nat)
    requires width > 0
    ensures width * height == (width - 1) * height + height
  {
  }

  lemma SameProduct(a: int, b: int, n: int)
    requires a == b
    ensures a * n == b * n
  {
  }

  /** Every cell of the grid is a key. */
  lemma AgentOrderCovers(f: Forest)
    requires WellFormed(f)
    ensures KeysInBounds(f, AgentOrder(f.width, f.height))
    ensures forall x, y :: InBounds(f, x, y) ==> (x, y) in AgentOrder(f.width, f.height)
  {
    var keys := AgentOrder(f.width, f.height);
  }

  /**
   * `SimultaneousActivation.step` (and the phase order of the concurrent
   * scheduler's `step`): every cell steps in agent order, then every cell
   * advances. A failing rule call aborts the step.
   */
  function ScheduleStep(rule: Rule, f: Forest): (r: Result<Forest>)
    requires WellFormed(f) && Ready(rule)
    ensures r.Success? <==> StepPhase(rule, f, AgentOrder(f.width, f.height)).Success?
    ensures r.Success? ==> WellFormed(r.value) && r.value.width == f.width && r.value.height == f.height
    ensures r.Success? ==> forall x, y :: InBounds(f, x, y) ==>
              GetCell(r.value, x, y).nextState == Some(GetCell(r.value, x, y).state)
    ensures r.Success? ==> forall x, y :: InBounds(f, x, y) ==>
              SameExceptStepFields(GetCell(f, x, y), GetCell(r.value, x, y).(state := GetCell(f, x, y).state))
  {
    AgentOrderCovers(f);
    var keys := AgentOrder(f.width, f.height);
    match StepPhase(rule, f, keys)
    case Failure(err) => Failure(err)
    case Success(g) => Success(AdvancePhase(g, keys))
  }

  /** Each cell of the scheduler's step publishes the next state its turn of the step phase recorded. */
  lemma ScheduleStepPublishes(rule: Rule, f: Forest, x: int, y: int)
    requires WellFormed(f) && Ready(rule) && InBounds(f, x, y)
    requires ScheduleStep(rule, f).Success?
    ensures KeysInBounds(f, AgentOrder(f.width, f.height))
    ensures StepPhase(rule, f, AgentOrder(f.width, f.height)).Success?
    ensures GetCell(StepPhase(rule, f, AgentOrder(f.width, f.height)).value, x, y).nextState.Some?
    ensures GetCell(ScheduleStep(rule, f).value, x, y) == Advance(GetCell(StepPhase(rule, f, AgentOrder(f.width, f.height)).value, x, y))
  {
    AgentOrderCovers(f);
  }

  /**
   * The scheduler's step with the rule call as written fails with a
   * TypeError exactly when some cell is neither burned out nor unable to
   * burn; otherwise every cell keeps its state.
   */
  lemma AsWrittenScheduleStep(e: OurRule.Env, f: Forest)
    requires WellFormed(f)
    ensures ScheduleStep(OursAsWritten(e), f).Failure? <==>
              exists x, y :: InBounds(f, x, y) && !Terminal(GetCell(f, x, y))
    ensures ScheduleStep(OursAsWritten(e), f).Failure? ==> ScheduleStep(OursAsWritten(e), f).error == TypeError
    ensures ScheduleStep(OursAsWritten(e), f).Success? ==> forall x, y :: InBounds(f, x, y) ==>
              GetCell(ScheduleStep(OursAsWritten(e), f).value, x, y).state == GetCell(f, x, y).state
  {
    AgentOrderCovers(f);
    var keys := AgentOrder(f.width, f.height);
    AsWrittenPhase(e, f, keys);
    AllTerminalOnGrid(f, keys);
    if ScheduleStep(OursAsWritten(e), f).Success? {
      AsWrittenKeepsStates(e, f);
    }
  }
  /**
   * The step as written on a grid f judged by another grid f0 with the same
   * shape, states and terminal cells, such as f0 before a rain load.
   */
  lemma AsWrittenScheduleStepOn(e: OurRule.Env, f0: Forest, f: Forest)
    requires WellFormed(f0) && WellFormed(f) && f.width == f0.width && f.height == f0.height
    requires forall x, y :: InBounds(f0, x, y) ==>
               GetCell(f, x, y).state == GetCell(f0, x, y).state && Terminal(GetCell(f, x, y)) == Terminal(GetCell(f0, x, y))
    ensures var r := ScheduleStep(OursAsWritten(e), f);
              && (r.Failure? <==> exists x, y :: InBounds(f0, x, y) && !Terminal(GetCell(f0, x, y)))
              && (r.Failure? ==> r.error == TypeError)
              && (r.Success? ==> forall x, y :: InBounds(f0, x, y) ==> GetCell(r.value, x, y).state == GetCell(f0, x, y).state)
  {
    AsWrittenScheduleStep(e, f);
    SameNonTerminal(f0, f);
  }

  /** Two grids of the same shape and terminal cells have a non-terminal cell together or not at all. */
  lemma SameNonTerminal(f0: Forest, f: Forest)
    requires WellFormed(f0) && WellFormed(f) && f.width == f0.width && f.height == f0.height
    requires forall x, y :: InBounds(f0, x, y) ==> Terminal(GetCell(f, x, y)) == Terminal(GetCell(f0, x, y))
    ensures (exists x, y :: InBounds(f0, x, y) && !Terminal(GetCell(f0, x, y))) <==>
            (exists x, y :: InBounds(f, x, y) && !Terminal(GetCell(f, x, y)))
  {
    if exists x, y :: InBounds(f0, x, y) && !Terminal(GetCell(f0, x, y)) {
      var x, y :| InBounds(f0, x, y) && !Terminal(GetCell(f0, x, y));
      assert InBounds(f, x, y) && !Terminal(GetCell(f, x, y));
    }
    if exists x, y :: InBounds(f, x, y) && !Terminal(GetCell(f, x, y)) {
      var x, y :| InBounds(f, x, y) && !Terminal(GetCell(f, x, y));
      assert InBounds(f0, x, y);
    }
  }


  /** Over keys that cover the grid, every listed cell is terminal exactly when every cell is. */
  lemma AllTerminalOnGrid(f: Forest, keys: seq<(int, int)>)
    requires WellFormed(f) && KeysInBounds(f, keys)
    requires forall x, y :: InBounds(f, x, y) ==> (x, y) in keys
    ensures AllTerminal(f, keys) <==> forall x, y :: InBounds(f, x, y) ==> Terminal(GetCell(f, x, y))
  {
    if AllTerminal(f, keys) {
      forall x, y | InBounds(f, x, y)
        ensures Terminal(GetCell(f, x, y))
      {
        var k :| 0 <= k < |keys| && keys[k] == (x, y);
      }
    }
  }

  /** A successful scheduler's step with the rule call as written publishes every cell's own state. */
  lemma AsWrittenKeepsStates(e: OurRule.Env, f: Forest)
    requires WellFormed(f) && ScheduleStep(OursAsWritten(e), f).Success?
    ensures forall x, y :: InBounds(f, x, y) ==>
              GetCell(ScheduleStep(OursAsWritten(e), f).value, x, y).state == GetCell(f, x, y).state
  {
    AgentOrderCovers(f);
    var keys := AgentOrder(f.width, f.height);
    AsWrittenPhase(e, f, keys);
    forall x, y | InBounds(f, x, y)
      ensures GetCell(ScheduleStep(OursAsWritten(e), f).value, x, y).state == GetCell(f, x, y).state
    {
      ScheduleStepPublishes(OursAsWritten(e), f, x, y);
      var k :| 0 <= k < |keys| && keys[k] == (x, y);
    }
  }

  /**
   * d is the cell c after it stored the update u and published it: its
   * state and recorded next state are u's next state, it holds the wind
   * component and rain deficit u writes (its own when u writes none), and
   * nothing else about it changed.
   */
  predicate Published(c: Cell, u: Update, d: Cell) {
    && d == Advance(Write(c, u))
    && d.state == u.next && d.nextState == Some(u.next)
    && SameExceptStepFields(c, d.(state := c.state))
    && (u.SetAll? ==> d.windComponent == u.windComponent && d.rainDeficit == u.rainDeficit)
    && (u.SetNext? ==> d.windComponent == c.windComponent && d.rainDeficit == c.rainDeficit)
  }

  /**
   * One step of simultaneous activation in which every cell's rule call
   * reads the grid as it was before the step, then every cell publishes its
   * result. This is the step the split of `ForestCell` into a `step` that
   * only records `next_state` and an `advance` that publishes it exists to
   * provide.
   */
  function SimultaneousStep(rule: Rule, f: Forest): (r: Result<Forest>)
    requires WellFormed(f) && Ready(rule)
    ensures r.Success? <==> forall x, y :: InBounds(f, x, y) ==> Compute(rule, f, x, y).Success?
    ensures r.Success? ==> WellFormed(r.value) && r.value.width == f.width && r.value.height == f.height
    ensures r.Success? ==> forall x, y :: InBounds(f, x, y) ==>
              Published(GetCell(f, x, y), Compute(rule, f, x, y).value, GetCell(r.value, x, y))
  {
    AgentOrderCovers(f);
    var keys := AgentOrder(f.width, f.height);
    match StepFrozen(rule, f, f, keys)
    case Failure(err) =>
      FrozenFailure(rule, f, keys);
      Failure(err)
    case Success(g) =>
      forall x, y | InBounds(f, x, y)
        ensures Compute(rule, f, x, y).Success?
        ensures Published(GetCell(f, x, y), Compute(rule, f, x, y).value, GetCell(AdvancePhase(g, keys), x, y))
      {
        FrozenPublished(rule, f, g, keys, x, y);
      }
      Success(AdvancePhase(g, keys))
  }
  /** The simultaneous step changes no cell's rate of spread. */
  lemma SimultaneousKeepsRates(rule: Rule, f: Forest)
    requires WellFormed(f) && Ready(rule) && SimultaneousStep(rule, f).Success?
    ensures forall x, y :: InBounds(f, x, y) ==> GetCell(SimultaneousStep(rule, f).value, x, y).rateOfSpread == GetCell(f, x, y).rateOfSpread
  {
    forall x, y | InBounds(f, x, y)
      ensures GetCell(SimultaneousStep(rule, f).value, x, y).rateOfSpread == GetCell(f, x, y).rateOfSpread
    {
      assert Published(GetCell(f, x, y), Compute(rule, f, x, y).value, GetCell(SimultaneousStep(rule, f).value, x, y));
    }
  }


  /** A failed simultaneous step phase over a list of cells has a cell of the grid whose rule call fails. */
  lemma FrozenFailure(rule: Rule, f: Forest, keys: seq<(int, int)>)
    requires WellFormed(f) && KeysInBounds(f, keys) && Ready(rule)
    requires StepFrozen(rule, f, f, keys).Failure?
    ensures exists x, y :: InBounds(f, x, y) && Compute(rule, f, x, y).Failure?
  {
    var k :| 0 <= k < |keys| && Compute(rule, f, keys[k].0, keys[k].1).Failure?;
    assert InBounds(f, keys[k].0, keys[k].1);
  }

  /** After the simultaneous step phase, advancing a listed cell publishes its rule's result on the snapshot. */
  lemma FrozenPublished(rule: Rule, f: Forest, g: Forest, keys: seq<(int, int)>, x: int, y: int)
    requires WellFormed(f) && KeysInBounds(f, keys) && Ready(rule) && InBounds(f, x, y) && (x, y) in keys
    requires StepFrozen(rule, f, f, keys) == Success(g)
    ensures Compute(rule, f, x, y).Success?
    ensures GetCell(AdvancePhase(g, keys), x, y) == Advance(Write(GetCell(f, x, y), Compute(rule, f, x, y).value))
  {
    var k :| 0 <= k < |keys| && keys[k] == (x, y);
    assert GetCell(g, x, y) == Write(GetCell(f, x, y), Compute(rule, f, x, y).value);
  }

  /**
   * For the base rule the sequential schedule step is the simultaneous one:
   * it never fails, and every cell's new state is the rule applied to the
   * grid as it was before the step.
   */
  lemma BaseScheduleStep(w: BaseRule.Weights, f: Forest)
    requires WellFormed(f)
    ensures ScheduleStep(Base(w), f) == SimultaneousStep(Base(w), f)
    ensures ScheduleStep(Base(w), f).Success?
    ensures forall x, y :: InBounds(f, x, y) ==>
              GetCell(ScheduleStep(Base(w), f).value, x, y).state == BaseRule.Apply(w, f, x, y)
  {
    AgentOrderCovers(f);
    var keys := AgentOrder(f.width, f.height);
    BaseStepIsSimultaneous(w, f, f, keys);
    assert forall k :: 0 <= k < |keys| ==> Compute(Base(w), f, keys[k].0, keys[k].1).Success?;
    var g := StepFrozen(Base(w), f, f, keys).value;
    assert ScheduleStep(Base(w), f) == Success(AdvancePhase(g, keys));
    forall x, y | InBounds(f, x, y)
      ensures GetCell(AdvancePhase(g, keys), x, y).state == BaseRule.Apply(w, f, x, y)
    {
      FrozenPublished(Base(w), f, g, keys, x, y);
    }
  }
}
