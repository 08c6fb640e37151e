/**
 * The index layout of Matrix4: sixteen floats stored column by column, so
 * the entry in row r and column c (both from 0) sits at index c * 4 + r.
 * Entries are opaque floats; only their placement is modelled.
 */
module Matrix4 {
  import opened Floats

  datatype Matrix4 = Matrix4(m: seq<F32>)

  predicate Valid(a: Matrix4)
  {
    |a.m| == 16
  }

  /** The storage index `col * 4 + row` (written as a table, so that it stays linear for the solver). */
  function Index(row: nat, col: nat): (i: nat)
    requires row < 4 && col < 4
    ensures i == col * 4 + row
    ensures i < 16 && i % 4 == row && i / 4 == col
  {
    if col == 0 then row else if col == 1 then 4 + row else if col == 2 then 8 + row else 12 + row
  }

  /** The position `row * 4 + col` of an entry in the row-by-row argument list of the element constructor. */
  function RowMajor4(row: nat, col: nat): (k: nat)
    requires row < 4 && col < 4
    ensures k == row * 4 + col && k < 16
  {
    if row == 0 then col else if row == 1 then 4 + col else if row == 2 then 8 + col else 12 + col
  }

  /** The position `row * 3 + col` of an entry in the row-by-row argument list of the Matrix3 constructor. */
  function RowMajor3(row: nat, col: nat): (k: nat)
    requires row < 3 && col < 3
    ensures k == row * 3 + col && k < 9 && k / 3 == row && k % 3 == col
  {
    if row == 0 then col else if row == 1 then 3 + col else 6 + col
  }

  /** `get(m, row, col)`. */
  function Get(a: Matrix4, row: nat, col: nat): F32
    requires Valid(a) && row < 4 && col < 4
  {
    a.m[Index(row, col)]
  }

  /**
   * Every storage slot is read by exactly one `get`, so two matrices that
   * agree on every entry are the same matrix.
   */
  lemma {:induction false} GetDeterminesMatrix(a: Matrix4, b: Matrix4)
    requires Valid(a) && Valid(b)
    requires forall row, col | 0 <= row < 4 && 0 <= col < 4 :: Get(a, row, col) == Get(b, row, col)
    ensures a == b
  {
    forall k | 0 <= k < 16
      ensures a.m[k] == b.m[k]
    {
      assert Index(k % 4, k / 4) == k;
      assert Get(a, k % 4, k / 4) == Get(b, k % 4, k / 4);
    }
  }

  /** The default constructor: all sixteen entries zero. */
  function Zero(): (r: Matrix4)
    ensures Valid(r)
    ensures forall row, col | 0 <= row < 4 && 0 <= col < 4 :: Get(r, row, col) == ZERO
  {
    Matrix4(seq(16, i => ZERO))
  }

  /**
   * The element constructor. Its sixteen arguments m11, m12, …, m44 are
   * given here in that order, row by row as they are written; they are
   * stored column by column.
   */
  function FromRows(e: seq<F32>): (r: Matrix4)
    requires |e| == 16
    ensures Valid(r)
    ensures forall row, col | 0 <= row < 4 && 0 <= col < 4 :: Get(r, row, col) == e[RowMajor4(row, col)]
  {
    Matrix4(seq(16, i requires 0 <= i < 16 => e[RowMajor4(i % 4, i / 4)]))
  }

  /** The storage order of the element constructor, argument by argument. */
  lemma FromRowsStorage(e: seq<F32>)
    requires |e| == 16
    ensures FromRows(e).m == [e[0], e[4], e[8], e[12], e[1], e[5], e[9], e[13],
                              e[2], e[6], e[10], e[14], e[3], e[7], e[11], e[15]]
  {
  }

  /** `set(m, row, col, v)`: the updated matrix. */
  function Set(a: Matrix4, row: nat, col: nat, v: F32): (r: Matrix4)
    requires Valid(a) && row < 4 && col < 4
    ensures Valid(r)
    ensures Get(r, row, col) == v
    ensures forall i, j | 0 <= i < 4 && 0 <= j < 4 && (i, j) != (row, col) :: Get(r, i, j) == Get(a, i, j)
  {
    Matrix4(a.m[Index(row, col) := v])
  }

  /** `transposed`: the storage, read back in order, is passed to the element constructor. */
  function Transposed(a: Matrix4): (r: Matrix4)
    requires Valid(a)
    ensures Valid(r)
    ensures forall row, col | 0 <= row < 4 && 0 <= col < 4 :: Get(r, row, col) == Get(a, col, row)
  {
    FromRows(a.m)
  }

  /** Transposing twice gives the matrix back. */
  lemma TransposedTwice(a: Matrix4)
    requires Valid(a)
    ensures Transposed(Transposed(a)) == a
  {
    var t := Transposed(Transposed(a));
    forall i | 0 <= i < 16
      ensures t.m[i] == a.m[i]
    {
      assert Index(i % 4, i / 4) == i;
      assert Get(t, i % 4, i / 4) == Get(a, i % 4, i / 4);
    }
  }

  /** `mat3`: the upper-left 3 x 3 block, as the nine Matrix3 constructor arguments m11 … m33 row by row. */
  function Mat3(a: Matrix4): (r: seq<F32>)
    requires Valid(a)
    ensures |r| == 9
    ensures forall row, col | 0 <= row < 3 && 0 <= col < 3 :: r[RowMajor3(row, col)] == Get(a, row, col)
  {
    seq(9, k requires 0 <= k < 9 => Get(a, k / 3, k % 3))
  }

  function Identity4(): (r: Matrix4)
    ensures Valid(r)
    ensures forall row, col | 0 <= row < 4 && 0 <= col < 4 :: Get(r, row, col) == if row == col then ONE else ZERO
  {
    FromRows([ONE, ZERO, ZERO, ZERO,
              ZERO, ONE, ZERO, ZERO,
              ZERO, ZERO, ONE, ZERO,
              ZERO, ZERO, ZERO, ONE])
  }

  /** `make_hand_shift4`: the identity with the z axis negated. */
  function HandShift4(): (r: Matrix4)
    ensures Valid(r)
    ensures forall row, col | 0 <= row < 4 && 0 <= col < 4 ::
      Get(r, row, col) == if row != col then ZERO else if row == 2 then NEG_ONE else ONE
  {
    FromRows([ONE, ZERO, ZERO, ZERO,
              ZERO, ONE, ZERO, ZERO,
              ZERO, ZERO, NEG_ONE, ZERO,
              ZERO, ZERO, ZERO, ONE])
  }

  /** `make_translation4`: the identity with the vector in the last column. */
  function Translation4(x: F32, y: F32, z: F32): (r: Matrix4)
    ensures Valid(r)
    ensures Get(r, 0, 3) == x && Get(r, 1, 3) == y && Get(r, 2, 3) == z && Get(r, 3, 3) == ONE
    ensures forall row, col | 0 <= row < 4 && 0 <= col < 3 :: Get(r, row, col) == if row == col then ONE else ZERO
  {
    FromRows([ONE, ZERO, ZERO, x,
              ZERO, ONE, ZERO, y,
              ZERO, ZERO, ONE, z,
              ZERO, ZERO, ZERO, ONE])
  }

  /** `make_scale4`: the vector on the diagonal, then 1. */
  function Scale4(x: F32, y: F32, z: F32): (r: Matrix4)
    ensures Valid(r)
    ensures Get(r, 0, 0) == x && Get(r, 1, 1) == y && Get(r, 2, 2) == z && Get(r, 3, 3) == ONE
    ensures forall row, col | 0 <= row < 4 && 0 <= col < 4 && row != col :: Get(r, row, col) == ZERO
  {
    FromRows([x, ZERO, ZERO, ZERO,
              ZERO, y, ZERO, ZERO,
              ZERO, ZERO, z, ZERO,
              ZERO, ZERO, ZERO, ONE])
  }

  /** `operator==`: the sixteen entries compared pairwise in storage order. */
  predicate Equal(a: Matrix4, b: Matrix4)
    requires Valid(a) && Valid(b)
  {
    forall i | 0 <= i < 16 :: FloatEq(a.m[i], b.m[i])
  }

  /** `operator!=` is the negation of `==`. */
  predicate NotEqual(a: Matrix4, b: Matrix4)
    requires Valid(a) && Valid(b)
  {
    !Equal(a, b)
  }

  /** Equality is entry by entry: it holds iff every (row, column) entry compares equal. */
  lemma EqualIsEntrywise(a: Matrix4, b: Matrix4)
    requires Valid(a) && Valid(b)
    ensures Equal(a, b) <==> forall row, col | 0 <= row < 4 && 0 <= col < 4 :: FloatEq(Get(a, row, col), Get(b, row, col))
    ensures NotEqual(a, b) <==> exists row, col | 0 <= row < 4 && 0 <= col < 4 :: !FloatEq(Get(a, row, col), Get(b, row, col))
  {
    if forall row, col | 0 <= row < 4 && 0 <= col < 4 :: FloatEq(Get(a, row, col), Get(b, row, col)) {
      forall i | 0 <= i < 16
        ensures FloatEq(a.m[i], b.m[i])
      {
        assert Index(i % 4, i / 4) == i;
        assert FloatEq(Get(a, i % 4, i / 4), Get(b, i % 4, i / 4));
      }
    }
  }

  /** A matrix equals itself exactly when none of its entries is NaN. */
  lemma EqualReflexive(a: Matrix4)
    requires Valid(a)
    ensures Equal(a, a) <==> forall i | 0 <= i < 16 :: !IsNaN(a.m[i])
  {
    forall i | 0 <= i < 16
      ensures FloatEq(a.m[i], a.m[i]) <==> !IsNaN(a.m[i])
    {
      FloatEqProperties(a.m[i], a.m[i]);
    }
  }
}
