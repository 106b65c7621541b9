/**
 * Neighbour offsets and the 3x3 factor matrices indexed by them.
 *
 * An offset (a, b) is relative to a cell in the bottom-left coordinate
 * system: a grows to the east, b grows to the north. Every 3x3 factor
 * matrix of the simulator is read and written at row 1 - b, column a + 1.
 */
module Factors {

  type Offset = (int, int)

  /** The nine offsets of the Moore neighbourhood including the centre. */
  predicate IsOffset(o: Offset) {
    -1 <= o.0 <= 1 && -1 <= o.1 <= 1
  }

  /** The adjacent offsets in the order the rules visit them: N, E, S, W. */
  const Adjacent: seq<Offset> := [(0, 1), (1, 0), (0, -1), (-1, 0)]

  /** The diagonal offsets in the order the rules visit them: NW, NE, SE, SW. */
  const Diagonal: seq<Offset> := [(-1, 1), (1, 1), (1, -1), (-1, -1)]

  /** The eight neighbours of a cell. */
  const Moore: seq<Offset> := Adjacent + Diagonal

  const Centre: Offset := (0, 0)

  type Matrix3 = m: seq<seq<real>> | |m| == 3 && forall i :: 0 <= i < 3 ==> |m[i]| == 3
    witness [[0.0, 0.0, 0.0], [0.0, 0.0, 0.0], [0.0, 0.0, 0.0]]

  /** The storage position `[1 - b][a + 1]` of offset (a, b). */
  function Index(o: Offset): (ij: (int, int))
    requires IsOffset(o)
    ensures 0 <= ij.0 < 3 && 0 <= ij.1 < 3
  {
    (1 - o.1, o.0 + 1)
  }

  /** The offset stored at row i, column j. */
  function OffsetAt(i: int, j: int): (o: Offset)
    requires 0 <= i < 3 && 0 <= j < 3
    ensures IsOffset(o)
  {
    (j - 1, 1 - i)
  }

  /** The index map is a bijection from the nine offsets onto the nine matrix entries. */
  lemma IndexIsBijection()
    ensures forall o, p :: IsOffset(o) && IsOffset(p) && Index(o) == Index(p) ==> o == p
    ensures forall i, j :: 0 <= i < 3 && 0 <= j < 3 ==> Index(OffsetAt(i, j)) == (i, j)
    ensures forall o :: IsOffset(o) ==> OffsetAt(Index(o).0, Index(o).1) == o
  {
  }

  /** Every neighbour offset the rules visit is a Moore offset other than the centre. */
  lemma MooreOffsetsWellFormed()
    ensures forall i :: 0 <= i < |Moore| ==> IsOffset(Moore[i]) && Moore[i] != Centre
    ensures forall i, j :: 0 <= i < j < |Moore| ==> Moore[i] != Moore[j]
    ensures forall o :: IsOffset(o) && o != Centre ==> o in Moore
  {
  }

  function Get(m: Matrix3, o: Offset): real
    requires IsOffset(o)
  {
    m[1 - o.1][o.0 + 1]
  }

  /** The matrix with the entry for `o` replaced by `v`. */
  function Set(m: Matrix3, o: Offset, v: real): (m': Matrix3)
    requires IsOffset(o)
    ensures Get(m', o) == v
    ensures forall p :: IsOffset(p) && p != o ==> Get(m', p) == Get(m, p)
  {
    m[1 - o.1 := m[1 - o.1][o.0 + 1 := v]]
  }

  /** The matrix whose nine entries all equal `v`. */
  function Uniform(v: real): (m: Matrix3)
    ensures forall o :: IsOffset(o) ==> Get(m, o) == v
  {
    [[v, v, v], [v, v, v], [v, v, v]]
  }

  /** Every entry is non-negative. */
  predicate NonNegative(m: Matrix3) {
    forall i, j :: 0 <= i < 3 && 0 <= j < 3 ==> m[i][j] >= 0.0
  }
}
