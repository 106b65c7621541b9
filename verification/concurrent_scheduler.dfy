/**
 * `ConcurrentSimultaneousActivation`, in its sequential meaning: the agent
 * keys are cut into chunks, every chunk is stepped, and only then is every
 * chunk advanced; the step and time counters then grow by one.
 */
module ConcurrentScheduler {
  import opened Wrappers
  import opened Grid
  import ForestCell
  import opened Numerics
  import opened Simulation

  /** The scheduler's fixed worker count, which `step` hands to `chunks` as `n`. */
  const Workers: nat := 4

  /** The elements of the chunks, in order. */
  function Flatten<T>(cs: seq<seq<T>>): seq<T> {
    if cs == [] then [] else cs[0] + Flatten(cs[1..])
  }

  /** The number of chunks of n elements, the last possibly shorter, that `len` elements make. */
  function CeilDiv(len: nat, n: nat): (q: nat)
    requires n > 0
    ensures q > 0 <==> len > 0
    decreases len
  {
    if len == 0 then 0 else if len <= n then 1 else 1 + CeilDiv(len - n, n)
  }

  /** CeilDiv is ceil(len / n): the least q with len <= q n. */
  lemma {:induction false} CeilDivIsCeiling(len: nat, n: nat)
    requires n > 0
    ensures len <= CeilDiv(len, n) * n
    ensures len > 0 ==> (CeilDiv(len, n) - 1) * n < len
    decreases len
  {
    if len > n {
      CeilDivIsCeiling(len - n, n);
      var q := CeilDiv(len - n, n);
      assert (1 + q) * n == q * n + n;
      assert (1 + q - 1) * n == (q - 1) * n + n;
    }
  }

  /**
   * `chunks(lst, n)` for n > 0: the slices `lst[i:i + n]` for i = 0, n, 2n,
   * ... below `len(lst)`.
   */
  function Chunks<T>(lst: seq<T>, n: nat): (cs: seq<seq<T>>)
    requires n > 0
    ensures Flatten(cs) == lst
    ensures forall i :: 0 <= i < |cs| ==> 0 < |cs[i]| <= n
    ensures forall i :: 0 <= i < |cs| - 1 ==> |cs[i]| == n
    ensures |cs| == CeilDiv(|lst|, n)
  {
    SlicesCover(lst, n);
    Slices(lst, n)
  }

  /** The slices `lst[i:i + n]`, first to last. */
  function Slices<T>(lst: seq<T>, n: nat): seq<seq<T>>
    requires n > 0
    decreases |lst|
  {
    if |lst| == 0 then []
    else if |lst| <= n then [lst]
    else [lst[..n]] + Slices(lst[n..], n)
  }

  /** The slices flatten back to the list, each holds at most n elements, all but the last exactly n, and they number ceil(|lst| / n). */
  lemma {:induction false} SlicesCover<T>(lst: seq<T>, n: nat)
    requires n > 0
    ensures Flatten(Slices(lst, n)) == lst
    ensures forall i :: 0 <= i < |Slices(lst, n)| ==> 0 < |Slices(lst, n)[i]| <= n
    ensures forall i :: 0 <= i < |Slices(lst, n)| - 1 ==> |Slices(lst, n)[i]| == n
    ensures |Slices(lst, n)| == CeilDiv(|lst|, n)
    decreases |lst|
  {
    if |lst| == 0 {
    } else if |lst| <= n {
      FlattenCons(lst, []);
    } else {
      var rest := Slices(lst[n..], n);
      SlicesCover(lst[n..], n);
      FlattenCons(lst[..n], rest);
      assert forall i :: 1 <= i < 1 + |rest| ==> ([lst[..n]] + rest)[i] == rest[i - 1];
    }
  }

  lemma FlattenCons<T>(c: seq<T>, rest: seq<seq<T>>)
    ensures Flatten([c] + rest) == c + Flatten(rest)
  {
    assert ([c] + rest)[1..] == rest;
  }

  /** The i-th chunk is the slice `lst[i * n : i * n + n]`, clipped at the end of the list. */
  lemma ChunkIsSlice<T>(lst: seq<T>, n: nat, i: nat)
    requires n > 0 && i < |Chunks(lst, n)|
    ensures i * n < |lst|
    ensures Chunks(lst, n)[i] == lst[i * n .. MinInt(i * n + n, |lst|)]
  {
    TimesIsProduct(i, n);
    SliceAt(lst, n, i);
  }

  /** i n, by repeated addition. */
  function Times(i: nat, n: nat): nat {
    if i == 0 then 0 else Times(i - 1, n) + n
  }

  lemma {:induction false} TimesIsProduct(i: nat, n: nat)
    ensures Times(i, n) == i * n
  {
    if i > 0 {
      TimesIsProduct(i - 1, n);
      assert i * n == (i - 1) * n + n;
    }
  }

  /** The i-th slice starts at the i-fold sum of n and is clipped at the end of the list. */
  lemma {:induction false} SliceAt<T>(lst: seq<T>, n: nat, i: nat)
    requires n > 0 && i < |Slices(lst, n)|
    ensures Times(i, n) < |lst|
    ensures Slices(lst, n)[i] == lst[Times(i, n) .. MinInt(Times(i, n) + n, |lst|)]
    decreases |lst|
  {
    if i > 0 {
      assert |lst| > n;
      assert Slices(lst, n)[i] == Slices(lst[n..], n)[i - 1];
      SliceAt(lst[n..], n, i - 1);
      var m := Times(i - 1, n);
      ShiftedSlice(lst, n, Slices(lst, n)[i], m, m + n);
    }
  }

  /** A slice of lst[n..] starting at m is the slice of lst starting at m + n. */
  lemma ShiftedSlice<T>(lst: seq<T>, n: nat, c: seq<T>, m: nat, start: nat)
    requires n <= |lst| && start == m + n
    requires m < |lst[n..]|
    requires c == lst[n..][m .. MinInt(m + n, |lst[n..]|)]
    ensures start < |lst|
    ensures c == lst[start .. MinInt(start + n, |lst|)]
  {
    var hi := MinInt(m + n, |lst[n..]|);
    assert lst[n..][m .. hi] == lst[m + n .. hi + n];
  }

  /**
   * `chunks(lst, n)` for any integer n: a step of 0 makes `range` raise
   * ValueError, and a negative step gives an empty range, so no chunk.
   */
  function ChunksOf<T>(lst: seq<T>, n: int): (r: Result<seq<seq<T>>>)
    ensures r.Failure? <==> n == 0
    ensures r.Failure? ==> r.error == ValueError
    ensures n < 0 ==> r == Success([])
    ensures n > 0 ==> r.Success? && Flatten(r.value) == lst
  {
    if n == 0 then Failure(ValueError)
    else if n < 0 then Success([])
    else Success(Chunks(lst, n))
  }

  /** What the scheduler asks a worker to do with one agent. */
  datatype Event<K> = StepAgent(key: K) | AdvanceAgent(key: K)

  /** One event per key of every chunk, chunk after chunk. */
  function ChunkEvents<K>(cs: seq<seq<K>>, stepping: bool): (es: seq<Event<K>>)
    ensures es == KeyEvents(Flatten(cs), stepping)
  {
    if cs == [] then []
    else
      var rest := ChunkEvents(cs[1..], stepping);
      KeyEventsAppend(cs[0], Flatten(cs[1..]), stepping);
      KeyEvents(cs[0], stepping) + rest
  }

  /** The event of each key, in order. */
  function KeyEvents<K>(keys: seq<K>, stepping: bool): (es: seq<Event<K>>)
    ensures |es| == |keys|
    ensures forall i :: 0 <= i < |keys| ==> es[i] == if stepping then StepAgent(keys[i]) else AdvanceAgent(keys[i])
  {
    seq(|keys|, i requires 0 <= i < |keys| => if stepping then StepAgent(keys[i]) else AdvanceAgent(keys[i]))
  }

  lemma KeyEventsAppend<K>(a: seq<K>, b: seq<K>, stepping: bool)
    ensures KeyEvents(a + b, stepping) == KeyEvents(a, stepping) + KeyEvents(b, stepping)
  {
  }

  /** The order of the events of one `step`: every chunk stepped, then every chunk advanced. */
  function StepTrace<K>(keys: seq<K>): seq<Event<K>> {
    var cs := Chunks(keys, Workers);
    ChunkEvents(cs, true) + ChunkEvents(cs, false)
  }

  /**
   * With distinct keys, every agent is stepped exactly once and advanced
   * exactly once, and every step comes before every advance.
   */
  lemma StepTraceOrder<K>(keys: seq<K>)
    requires forall i, j :: 0 <= i < j < |keys| ==> keys[i] != keys[j]
    ensures |StepTrace(keys)| == 2 * |keys|
    ensures forall i, j :: (0 <= i < |StepTrace(keys)| && 0 <= j < |StepTrace(keys)| &&
              StepTrace(keys)[i].StepAgent? && StepTrace(keys)[j].AdvanceAgent?) ==> i < j
    ensures forall k :: k in keys ==> OccursOnce(StepTrace(keys), StepAgent(k))
    ensures forall k :: k in keys ==> OccursOnce(StepTrace(keys), AdvanceAgent(k))
    ensures forall e :: e in StepTrace(keys) ==> e.key in keys
  {
    TraceIsKeyEvents(keys);
    PhasesInOrder(keys, StepTrace(keys));
  }

  lemma PhasesInOrder<K>(keys: seq<K>, t: seq<Event<K>>)
    requires forall i, j :: 0 <= i < j < |keys| ==> keys[i] != keys[j]
    requires t == KeyEvents(keys, true) + KeyEvents(keys, false)
    ensures |t| == 2 * |keys|
    ensures forall i, j :: (0 <= i < |t| && 0 <= j < |t| && t[i].StepAgent? && t[j].AdvanceAgent?) ==> i < j
    ensures forall k :: k in keys ==> OccursOnce(t, StepAgent(k)) && OccursOnce(t, AdvanceAgent(k))
    ensures forall e :: e in t ==> e.key in keys
  {
    TraceLayout(keys, t);
    forall k | k in keys
      ensures OccursOnce(t, StepAgent(k)) && OccursOnce(t, AdvanceAgent(k))
    {
      var i :| 0 <= i < |keys| && keys[i] == k;
      StepOnce(keys, t, i);
      AdvanceOnce(keys, t, i);
    }
  }

  /** The trace holds the step events of the keys at 0 .. n - 1 and their advance events at n .. 2n - 1. */
  ghost predicate Laid<K>(keys: seq<K>, t: seq<Event<K>>) {
    && |t| == 2 * |keys|
    && (forall i :: 0 <= i < |keys| ==> t[i] == StepAgent(keys[i]))
    && (forall i :: |keys| <= i < |t| ==> t[i] == AdvanceAgent(keys[i - |keys|]))
  }

  lemma TraceLayout<K>(keys: seq<K>, t: seq<Event<K>>)
    requires t == KeyEvents(keys, true) + KeyEvents(keys, false)
    ensures Laid(keys, t)
  {
  }

  lemma StepOnce<K>(keys: seq<K>, t: seq<Event<K>>, i: int)
    requires forall i, j :: 0 <= i < j < |keys| ==> keys[i] != keys[j]
    requires Laid(keys, t) && 0 <= i < |keys|
    ensures OccursOnce(t, StepAgent(keys[i]))
  {
    assert t[i] == StepAgent(keys[i]);
    forall j | 0 <= j < |t| && t[j] == StepAgent(keys[i])
      ensures j == i
    {
      assert j < |keys| && keys[j] == keys[i];
    }
  }

  lemma AdvanceOnce<K>(keys: seq<K>, t: seq<Event<K>>, i: int)
    requires forall i, j :: 0 <= i < j < |keys| ==> keys[i] != keys[j]
    requires Laid(keys, t) && 0 <= i < |keys|
    ensures OccursOnce(t, AdvanceAgent(keys[i]))
  {
    var n := |keys|;
    assert t[n + i] == AdvanceAgent(keys[i]);
    forall j | 0 <= j < |t| && t[j] == AdvanceAgent(keys[i])
      ensures j == n + i
    {
      assert j >= n && keys[j - n] == keys[i];
    }
  }

  /** The trace is the step event of every key in order, then the advance event of every key in order. */
  lemma TraceIsKeyEvents<K>(keys: seq<K>)
    ensures StepTrace(keys) == KeyEvents(keys, true) + KeyEvents(keys, false)
  {
  }

  /** e stands at exactly one position of s. */
  predicate OccursOnce<T(==)>(s: seq<T>, e: T) {
    exists i :: 0 <= i < |s| && s[i] == e && forall j :: 0 <= j < |s| && s[j] == e ==> j == i
  }

  /**
   * Stepping chunk after chunk, each chunk's agents in order, is the step
   * phase over the concatenated keys.
   */
  function StepChunks(rule: Rule, f: Forest, cs: seq<seq<(int, int)>>): (r: Result<Forest>)
    requires WellFormed(f) && KeysInBounds(f, Flatten(cs)) && Ready(rule)
    ensures r == StepPhase(rule, f, Flatten(cs))
    decreases |cs|
  {
    if cs == [] then Success(f)
    else
      StepPhaseAppend(rule, f, cs[0], Flatten(cs[1..]));
      match StepPhase(rule, f, cs[0])
      case Failure(err) => Failure(err)
      case Success(g) =>
        SameKeys(f, g, Flatten(cs[1..]));
        StepChunks(rule, g, cs[1..])
  }

  /** The step phase over a + b is the step phase over a, then over b from where a left the grid. */
  lemma {:induction false} StepPhaseAppend(rule: Rule, f: Forest, a: seq<(int, int)>, b: seq<(int, int)>)
    requires WellFormed(f) && KeysInBounds(f, a + b) && Ready(rule)
    ensures KeysInBounds(f, a) && KeysInBounds(f, b)
    ensures StepPhase(rule, f, a).Failure? ==> StepPhase(rule, f, a + b) == StepPhase(rule, f, a)
    ensures StepPhase(rule, f, a).Success? ==>
              StepPhase(rule, f, a + b) == StepPhase(rule, StepPhase(rule, f, a).value, b)
    decreases |a|
  {
    KeysSplit(f, a, b);
    if a != [] {
      var (x, y) := a[0];
      assert (a + b)[0] == (x, y) && (a + b)[1..] == a[1..] + b;
      match Compute(rule, f, x, y)
      case Failure(_) =>
      case Success(u) =>
        var g := SetCell(f, x, y, Write(GetCell(f, x, y), u));
        SameKeys(f, g, a[1..] + b);
        SameKeys(f, g, a[1..]);
        assert StepPhase(rule, f, a) == StepPhase(rule, g, a[1..]);
        assert StepPhase(rule, f, a + b) == StepPhase(rule, g, a[1..] + b);
        StepPhaseAppend(rule, g, a[1..], b);
    } else {
      assert a + b == b;
    }
  }

  /** Keys in bounds for a + b are in bounds for a, for b, and for a without its head followed by b. */
  lemma KeysSplit(f: Forest, a: seq<(int, int)>, b: seq<(int, int)>)
    requires KeysInBounds(f, a + b)
    ensures KeysInBounds(f, a) && KeysInBounds(f, b)
    ensures a != [] ==> KeysInBounds(f, a[1..] + b) && KeysInBounds(f, a[1..])
  {
    assert forall k :: 0 <= k < |a| ==> a[k] == (a + b)[k];
    assert forall k :: 0 <= k < |b| ==> b[k] == (a + b)[|a| + k];
    if a != [] {
      assert forall k :: 0 <= k < |a[1..] + b| ==> (a[1..] + b)[k] == (a + b)[k + 1];
    }
  }

  /** Keys in bounds of one grid are in bounds of any grid of the same size. */
  lemma SameKeys(f: Forest, g: Forest, keys: seq<(int, int)>)
    requires KeysInBounds(f, keys) && f.width == g.width && f.height == g.height
    ensures KeysInBounds(g, keys)
  {
  }

  /**
   * The k-th turn of a step phase: it runs on the grid the first k turns
   * left, and records there what the rule computes for the k-th cell. A
   * failure of an earlier turn is the failure of the longer phase.
   */
  lemma StepPhaseTurn(rule: Rule, f: Forest, keys: seq<(int, int)>, k: nat)
    requires WellFormed(f) && KeysInBounds(f, keys) && Ready(rule) && k < |keys|
    ensures KeysInBounds(f, keys[..k]) && KeysInBounds(f, keys[..k + 1]) && InBounds(f, keys[k].0, keys[k].1)
    ensures StepPhase(rule, f, keys[..k]).Failure? ==> StepPhase(rule, f, keys[..k + 1]) == StepPhase(rule, f, keys[..k])
    ensures StepPhase(rule, f, keys[..k]).Success? ==> Turn(rule, StepPhase(rule, f, keys[..k]).value, keys[k], StepPhase(rule, f, keys[..k + 1]))
  {
    assert keys[..k + 1] == keys[..k] + [keys[k]];
    assert KeysInBounds(f, keys[..k] + [keys[k]]);
    StepPhaseAppend(rule, f, keys[..k], [keys[k]]);
  }

  /** r is the outcome of the turn of `key` on the grid g: the rule's failure, or g with the rule's result written into the cell. */
  predicate Turn(rule: Rule, g: Forest, key: (int, int), r: Result<Forest>)
    requires WellFormed(g) && Ready(rule)
  {
    && InBounds(g, key.0, key.1)
    && (Compute(rule, g, key.0, key.1).Failure? ==> r == Failure(Compute(rule, g, key.0, key.1).error))
    && (Compute(rule, g, key.0, key.1).Success? ==>
          r == Success(SetCell(g, key.0, key.1, Write(GetCell(g, key.0, key.1), Compute(rule, g, key.0, key.1).value))))
  }

  /** Distinct keys: the k-th key is neither among the earlier keys nor among the later ones. */
  lemma KeyNotRepeated(keys: seq<(int, int)>, k: nat)
    requires forall i, j :: 0 <= i < j < |keys| ==> keys[i] != keys[j]
    requires k < |keys|
    ensures keys[k] !in keys[..k] && keys[k] !in keys[k + 1..]
  {
  }

  /**
   * Over distinct keys, each cell records what the rule computes for it on
   * the grid the earlier turns left, and it reads its own cell as it was
   * before the phase: no later turn overwrites it.
   */
  lemma StepPhaseRecords(rule: Rule, f: Forest, keys: seq<(int, int)>, k: nat)
    requires WellFormed(f) && KeysInBounds(f, keys) && Ready(rule) && k < |keys|
    requires forall i, j :: 0 <= i < j < |keys| ==> keys[i] != keys[j]
    requires StepPhase(rule, f, keys).Success?
    ensures KeysInBounds(f, keys[..k]) && StepPhase(rule, f, keys[..k]).Success?
    ensures InBounds(StepPhase(rule, f, keys[..k]).value, keys[k].0, keys[k].1)
    ensures GetCell(StepPhase(rule, f, keys[..k]).value, keys[k].0, keys[k].1) == GetCell(f, keys[k].0, keys[k].1)
    ensures Compute(rule, StepPhase(rule, f, keys[..k]).value, keys[k].0, keys[k].1).Success?
    ensures GetCell(StepPhase(rule, f, keys).value, keys[k].0, keys[k].1) ==
              Write(GetCell(f, keys[k].0, keys[k].1), Compute(rule, StepPhase(rule, f, keys[..k]).value, keys[k].0, keys[k].1).value)
  {
    var (x, y) := keys[k];
    StepPhaseTurn(rule, f, keys, k);
    KeyNotRepeated(keys, k);
    PrefixThenRest(rule, f, keys, k);
    var g := StepPhase(rule, f, keys[..k]).value;
    var g' := StepPhase(rule, f, keys[..k + 1]).value;
    assert GetCell(g, x, y) == GetCell(f, x, y);
    assert GetCell(StepPhase(rule, f, keys).value, x, y) == GetCell(g', x, y);
  }

  /** A successful phase runs its first k + 1 turns successfully, and the rest of the phase continues from there. */
  lemma PrefixThenRest(rule: Rule, f: Forest, keys: seq<(int, int)>, k: nat)
    requires WellFormed(f) && KeysInBounds(f, keys) && Ready(rule) && k < |keys|
    ensures KeysInBounds(f, keys[..k + 1]) && KeysInBounds(f, keys[k + 1..])
    ensures StepPhase(rule, f, keys[..k + 1]).Failure? ==> StepPhase(rule, f, keys) == StepPhase(rule, f, keys[..k + 1])
    ensures StepPhase(rule, f, keys[..k + 1]).Success? ==>
              StepPhase(rule, f, keys) == StepPhase(rule, StepPhase(rule, f, keys[..k + 1]).value, keys[k + 1..])
  {
    assert keys == keys[..k + 1] + keys[k + 1..];
    StepPhaseAppend(rule, f, keys[..k + 1], keys[k + 1..]);
  }

  /**
   * A step phase fails exactly when some turn's rule call fails on the grid
   * the earlier turns left, and it reports the error of that call.
   */
  lemma StepPhaseFails(rule: Rule, f: Forest, keys: seq<(int, int)>)
    requires WellFormed(f) && KeysInBounds(f, keys) && Ready(rule)
    ensures StepPhase(rule, f, keys).Failure? <==> FailsAtSomeTurn(rule, f, keys)
    ensures StepPhase(rule, f, keys).Failure? ==>
              exists k :: FailsAtTurn(rule, f, keys, k) &&
                StepPhase(rule, f, keys).error == Compute(rule, StepPhase(rule, f, keys[..k]).value, keys[k].0, keys[k].1).error
  {
    assert keys[..|keys|] == keys;
    if StepPhase(rule, f, keys).Failure? {
      var k := FirstFailure(rule, f, keys, |keys|);
      StepPhaseTurn(rule, f, keys, k);
    }
    if FailsAtSomeTurn(rule, f, keys) {
      var k :| FailsAtTurn(rule, f, keys, k);
      StepPhaseTurn(rule, f, keys, k);
      PrefixThenRest(rule, f, keys, k);
    }
  }

  /** The k-th turn is the first whose rule call fails. */
  ghost predicate FailsAtTurn(rule: Rule, f: Forest, keys: seq<(int, int)>, k: int)
    requires WellFormed(f) && KeysInBounds(f, keys) && Ready(rule)
  {
    && 0 <= k < |keys|
    && KeysInBounds(f, keys[..k])
    && StepPhase(rule, f, keys[..k]).Success?
    && InBounds(StepPhase(rule, f, keys[..k]).value, keys[k].0, keys[k].1)
    && Compute(rule, StepPhase(rule, f, keys[..k]).value, keys[k].0, keys[k].1).Failure?
  }

  /** Some turn's rule call fails. */
  ghost predicate FailsAtSomeTurn(rule: Rule, f: Forest, keys: seq<(int, int)>)
    requires WellFormed(f) && KeysInBounds(f, keys) && Ready(rule)
  {
    exists k :: FailsAtTurn(rule, f, keys, k)
  }

  /** A failed phase over the first n keys has a first failing turn k, and the phase up to it fails as it does. */
  lemma {:induction false} FirstFailure(rule: Rule, f: Forest, keys: seq<(int, int)>, n: nat) returns (k: nat)
    requires WellFormed(f) && KeysInBounds(f, keys) && Ready(rule) && n <= |keys|
    requires KeysInBounds(f, keys[..n]) && StepPhase(rule, f, keys[..n]).Failure?
    ensures FirstFailureAt(rule, f, keys, n, k)
    decreases n
  {
    EmptyPhaseSucceeds(rule, f, keys);
    var j: nat := n - 1;
    PrefixInBounds(f, keys, j);
    if StepPhase(rule, f, keys[..j]).Failure? {
      k := FirstFailure(rule, f, keys, j);
      FailureCarries(rule, f, keys, j, n, k);
    } else {
      k := j;
      FailsHere(rule, f, keys, j, n);
    }
  }

  /** Turn k is the first whose rule call fails, and the phase over the first n keys ends with that failure. */
  ghost predicate FirstFailureAt(rule: Rule, f: Forest, keys: seq<(int, int)>, n: nat, k: nat)
    requires WellFormed(f) && KeysInBounds(f, keys) && Ready(rule) && n <= |keys| && KeysInBounds(f, keys[..n])
  {
    && k < n
    && FailsAtTurn(rule, f, keys, k)
    && KeysInBounds(f, keys[..k + 1])
    && StepPhase(rule, f, keys[..k + 1]) == StepPhase(rule, f, keys[..n])
  }

  /** The keys before turn j, and those up to and including it, lie in the grid. */
  lemma PrefixInBounds(f: Forest, keys: seq<(int, int)>, j: nat)
    requires KeysInBounds(f, keys) && j < |keys|
    ensures KeysInBounds(f, keys[..j]) && KeysInBounds(f, keys[..j + 1])
  {
  }

  /** Once the phase over the first j keys has failed, turn j does not run, so the first failure stays the same. */
  lemma FailureCarries(rule: Rule, f: Forest, keys: seq<(int, int)>, j: nat, n: nat, k: nat)
    requires WellFormed(f) && KeysInBounds(f, keys) && Ready(rule) && n == j + 1 && n <= |keys|
    requires KeysInBounds(f, keys[..j]) && KeysInBounds(f, keys[..n]) && StepPhase(rule, f, keys[..j]).Failure?
    requires FirstFailureAt(rule, f, keys, j, k)
    ensures FirstFailureAt(rule, f, keys, n, k)
  {
    FailedPhaseStops(rule, f, keys, j, n);
  }

  /** A failed phase stays failed, with the same error, when one more turn is due. */
  lemma FailedPhaseStops(rule: Rule, f: Forest, keys: seq<(int, int)>, j: nat, n: nat)
    requires WellFormed(f) && KeysInBounds(f, keys) && Ready(rule) && n == j + 1 && n <= |keys|
    requires KeysInBounds(f, keys[..j]) && KeysInBounds(f, keys[..n]) && StepPhase(rule, f, keys[..j]).Failure?
    ensures StepPhase(rule, f, keys[..n]) == StepPhase(rule, f, keys[..j])
  {
    StepPhaseTurn(rule, f, keys, j);
  }

  /** A turn that a successful prefix reaches and after which the phase has failed is the first failing turn. */
  lemma FailsHere(rule: Rule, f: Forest, keys: seq<(int, int)>, j: nat, n: nat)
    requires WellFormed(f) && KeysInBounds(f, keys) && Ready(rule) && n == j + 1 && n <= |keys|
    requires KeysInBounds(f, keys[..j]) && StepPhase(rule, f, keys[..j]).Success?
    requires KeysInBounds(f, keys[..n]) && StepPhase(rule, f, keys[..n]).Failure?
    ensures FirstFailureAt(rule, f, keys, n, j)
  {
    StepPhaseTurn(rule, f, keys, j);
  }

  /** The phase over no keys leaves the grid as it was. */
  lemma EmptyPhaseSucceeds(rule: Rule, f: Forest, keys: seq<(int, int)>)
    requires WellFormed(f) && Ready(rule)
    ensures KeysInBounds(f, keys[..0]) && StepPhase(rule, f, keys[..0]) == Success(f)
  {
    assert keys[..0] == [];
  }

  /**
   * In the scheduler's step the cell (x, y) takes the (x * height + y)-th
   * turn: its rule call reads the grid as the earlier turns of the same
   * step left it, and its new state is what that call computes.
   */
  lemma ScheduleStepReadsEarlierTurns(rule: Rule, f: Forest, x: int, y: int)
    requires WellFormed(f) && Ready(rule) && InBounds(f, x, y)
    requires ScheduleStep(rule, f).Success?
    ensures var keys, k := AgentOrder(f.width, f.height), x * f.height + y;
              0 <= k < |keys| && keys[k] == (x, y) &&
              ReadsEarlierTurns(rule, f, keys[..k], x, y, GetCell(ScheduleStep(rule, f).value, x, y).state)
  {
    AgentOrderPosition(f.width, f.height, x, y);
    ScheduledTurn(rule, f, AgentOrder(f.width, f.height), x * f.height + y, x, y);
  }

  /** The k-th turn of the scheduler's step phase is the one whose result the k-th cell publishes. */
  lemma ScheduledTurn(rule: Rule, f: Forest, keys: seq<(int, int)>, k: nat, x: int, y: int)
    requires WellFormed(f) && Ready(rule) && keys == AgentOrder(f.width, f.height) && k < |keys| && keys[k] == (x, y)
    requires ScheduleStep(rule, f).Success? && InBounds(f, x, y)
    ensures ReadsEarlierTurns(rule, f, keys[..k], x, y, GetCell(ScheduleStep(rule, f).value, x, y).state)
  {
    AgentOrderCovers(f);
    StepPhaseRecords(rule, f, keys, k);
    ScheduleStepPublishes(rule, f, keys[k].0, keys[k].1);
  }

  /** After the turns of `earlier`, the rule's call at (x, y) succeeds and computes `next`. */
  ghost predicate ReadsEarlierTurns(rule: Rule, f: Forest, earlier: seq<(int, int)>, x: int, y: int, next: real)
    requires WellFormed(f) && Ready(rule) && InBounds(f, x, y)
  {
    && KeysInBounds(f, earlier)
    && StepPhase(rule, f, earlier).Success?
    && InBounds(StepPhase(rule, f, earlier).value, x, y)
    && Compute(rule, StepPhase(rule, f, earlier).value, x, y).Success?
    && Compute(rule, StepPhase(rule, f, earlier).value, x, y).value.next == next
  }

  /** Advancing chunk after chunk is the advance phase over the concatenated keys. */
  function AdvanceChunks(f: Forest, cs: seq<seq<(int, int)>>): (r: Forest)
    requires WellFormed(f) && KeysInBounds(f, Flatten(cs))
    requires Recorded(f, Flatten(cs))
    ensures r == AdvancePhase(f, Flatten(cs))
    decreases |cs|
  {
    if cs == [] then f
    else
      AdvancePhaseAppend(f, cs[0], Flatten(cs[1..]));
      AdvanceChunks(AdvancePhase(f, cs[0]), cs[1..])
  }

  /** The advance phase over a + b is the advance phase over a, then over b. */
  lemma {:induction false} AdvancePhaseAppend(f: Forest, a: seq<(int, int)>, b: seq<(int, int)>)
    requires WellFormed(f) && KeysInBounds(f, a + b)
    requires Recorded(f, a + b)
    ensures KeysInBounds(f, a) && KeysInBounds(f, b)
    ensures Recorded(f, a) && Recorded(AdvancePhase(f, a), b)
    ensures AdvancePhase(f, a + b) == AdvancePhase(AdvancePhase(f, a), b)
    decreases |a|
  {
    KeysSplit(f, a, b);
    RecordedSplit(f, a, b);
    RecordsKept(f, AdvancePhase(f, a), b);
    if a != [] {
      var (x, y) := a[0];
      var g := SetCell(f, x, y, ForestCell.Advance(GetCell(f, x, y)));
      assert (a + b)[0] == (x, y) && (a + b)[1..] == a[1..] + b;
      SameKeys(f, g, a[1..] + b);
      SameKeys(f, g, a[1..]);
      RecordsKept(f, g, a[1..] + b);
      RecordsKept(f, g, a[1..]);
      assert AdvancePhase(f, a) == AdvancePhase(g, a[1..]);
      assert AdvancePhase(f, a + b) == AdvancePhase(g, a[1..] + b);
      AdvancePhaseAppend(g, a[1..], b);
    } else {
      assert a + b == b;
    }
  }

  lemma RecordedSplit(f: Forest, a: seq<(int, int)>, b: seq<(int, int)>)
    requires WellFormed(f) && KeysInBounds(f, a + b) && Recorded(f, a + b)
    ensures KeysInBounds(f, a) && KeysInBounds(f, b) && Recorded(f, a) && Recorded(f, b)
    ensures a != [] ==> KeysInBounds(f, a[1..] + b) && KeysInBounds(f, a[1..])
    ensures a != [] ==> Recorded(f, a[1..] + b) && Recorded(f, a[1..])
  {
    RecordedShifted(f, a, a + b, 0);
    RecordedShifted(f, b, a + b, |a|);
    if a != [] {
      RecordedShifted(f, a[1..] + b, a + b, 1);
      RecordedShifted(f, a[1..], a + b, 1);
    }
  }

  /** A list of keys found in d from position `shift` on is recorded when d is. */
  lemma RecordedShifted(f: Forest, c: seq<(int, int)>, d: seq<(int, int)>, shift: nat)
    requires WellFormed(f) && KeysInBounds(f, d) && Recorded(f, d)
    requires shift + |c| <= |d| && c == d[shift .. shift + |c|]
    ensures KeysInBounds(f, c) && Recorded(f, c)
  {
    assert forall k :: 0 <= k < |c| ==> c[k] == d[shift + k];
  }

  /** A grid whose every cell keeps its next state from f keeps f's records. */
  lemma RecordsKept(f: Forest, g: Forest, keys: seq<(int, int)>)
    requires WellFormed(f) && WellFormed(g) && f.width == g.width && f.height == g.height
    requires KeysInBounds(f, keys) && Recorded(f, keys)
    requires forall x, y :: InBounds(f, x, y) && GetCell(f, x, y).nextState.Some? ==> GetCell(g, x, y).nextState.Some?
    ensures KeysInBounds(g, keys) && Recorded(g, keys)
  {
  }

  /** The scheduler's state: the grid its agents live on and its two counters. */
  datatype Schedule = Schedule(forest: Forest, steps: nat, time: nat)

  /**
   * `step` of the concurrent scheduler, sequentially, with the agent keys cut
   * into the chunks `cs`: whatever the cut, it is the schedule step of the
   * simultaneous activation, and the counters grow by one.
   */
  function StepWith(rule: Rule, s: Schedule, cs: seq<seq<(int, int)>>): (r: Result<Schedule>)
    requires WellFormed(s.forest) && Ready(rule)
    requires Flatten(cs) == AgentOrder(s.forest.width, s.forest.height)
    ensures r.Success? <==> ScheduleStep(rule, s.forest).Success?
    ensures r.Success? ==> r.value.forest == ScheduleStep(rule, s.forest).value
    ensures r.Success? ==> r.value.steps == s.steps + 1 && r.value.time == s.time + 1
  {
    AgentOrderCovers(s.forest);
    match StepChunks(rule, s.forest, cs)
    case Failure(err) => Failure(err)
    case Success(g) => Success(Schedule(AdvanceChunks(g, cs), s.steps + 1, s.time + 1))
  }

  /** `step` as written: the keys are cut into chunks of `Workers` keys each. */
  function StepAsWritten(rule: Rule, s: Schedule): (r: Result<Schedule>)
    requires WellFormed(s.forest) && Ready(rule)
    ensures r.Success? <==> ScheduleStep(rule, s.forest).Success?
    ensures r.Success? ==> r.value.forest == ScheduleStep(rule, s.forest).value
    ensures r.Success? ==> r.value.steps == s.steps + 1 && r.value.time == s.time + 1
  {
    StepWith(rule, s, Chunks(AgentOrder(s.forest.width, s.forest.height), Workers))
  }

  /** `step` with one chunk per worker. */
  function Step(rule: Rule, s: Schedule): (r: Result<Schedule>)
    requires WellFormed(s.forest) && Ready(rule)
    ensures r.Success? <==> ScheduleStep(rule, s.forest).Success?
    ensures r.Success? ==> r.value.forest == ScheduleStep(rule, s.forest).value
    ensures r.Success? ==> r.value.steps == s.steps + 1 && r.value.time == s.time + 1
  {
    StepWith(rule, s, WorkerChunks(AgentOrder(s.forest.width, s.forest.height), Workers))
  }

  /**
   * As written, `chunks` takes the worker count as the chunk SIZE: any list
   * longer than Workers * Workers keys is cut into more chunks than there
   * are workers, each of at most Workers keys.
   */
  lemma AsWrittenChunksOutnumberWorkers<T>(lst: seq<T>)
    requires |lst| > Workers * Workers
    ensures |Chunks(lst, Workers)| > Workers
  {
    CeilDivIsCeiling(|lst|, Workers);
  }

  /** On the 250 by 250 grid the scheduler submits 15625 tasks of 4 agents. */
  lemma AsWrittenTaskCount(f: Forest)
    requires WellFormed(f) && f.width == 250 && f.height == 250
    ensures |Chunks(AgentOrder(f.width, f.height), Workers)| == 15625
  {
    var q := CeilDiv(62500, Workers);
    CeilDivIsCeiling(62500, Workers);
    assert q == 15625;
  }

  /**
   * The cut the worker count evidently means: at most `workers` chunks, of
   * ceil(len / workers) keys each except the last.
   */
  function WorkerChunks<T>(lst: seq<T>, workers: nat): (cs: seq<seq<T>>)
    requires workers > 0
    ensures Flatten(cs) == lst
    ensures |cs| <= workers
    ensures forall i :: 0 <= i < |cs| ==> 0 < |cs[i]|
    ensures |lst| > 0 ==> forall i :: 0 <= i < |cs| ==> |cs[i]| <= CeilDiv(|lst|, workers)
  {
    if |lst| == 0 then []
    else
      var cs := Chunks(lst, CeilDiv(|lst|, workers));
      ChunkCountBound(|lst|, workers);
      cs
  }

  /** Chunks of ceil(len / workers) elements number at most `workers`. */
  lemma ChunkCountBound(len: nat, workers: nat)
    requires len > 0 && workers > 0
    ensures CeilDiv(len, CeilDiv(len, workers)) <= workers
  {
    var size := CeilDiv(len, workers);
    var q := CeilDiv(len, size);
    CeilDivIsCeiling(len, workers);
    CeilDivIsCeiling(len, size);
    assert (q - 1) * size < len <= size * workers;
    FewerMultiples(q - 1, workers, size);
  }

  /** a s < b s with s > 0 means a < b. */
  lemma FewerMultiples(a: int, b: int, s: nat)
    requires s > 0 && a * s < b * s
    ensures a < b
  {
  }
}
