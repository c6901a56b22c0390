/** Fixed-size 3-vectors and 3x3 matrices: integer ones for the point-group
    operations in the lattice basis acting on grid addresses, real ones for
    the same operations in the Cartesian basis. */
module Linalg {

  /** An integer grid address (a point of the reciprocal-space mesh). */
  datatype IVec3 = IVec3(x: int, y: int, z: int)

  /** A point-group operation in the lattice basis, row by row. */
  datatype IMat3 = IMat3(r0: IVec3, r1: IVec3, r2: IVec3)

  function Dot(u: IVec3, v: IVec3): int
  {
    u.x * v.x + u.y * v.y + u.z * v.z
  }

  /** The rotated address `R . v`. */
  function Apply(m: IMat3, v: IVec3): (r: IVec3)
    ensures r.x == Dot(m.r0, v) && r.y == Dot(m.r1, v) && r.z == Dot(m.r2, v)
  {
    IVec3(Dot(m.r0, v), Dot(m.r1, v), Dot(m.r2, v))
  }

  /** A Cartesian 3x3 matrix stored row by row: entry `[a, b]` sits at
      position `3 * a + b`. */
  type Mat3 = s: seq<real> | |s| == 9 witness [0.0, 0.0, 0.0, 0.0, 0.0, 0.0, 0.0, 0.0, 0.0]

  const Zero: Mat3 := [0.0, 0.0, 0.0, 0.0, 0.0, 0.0, 0.0, 0.0, 0.0]
  const Identity: Mat3 := [1.0, 0.0, 0.0, 0.0, 1.0, 0.0, 0.0, 0.0, 1.0]

  function Add(m: Mat3, n: Mat3): Mat3
  {
    seq(9, p requires 0 <= p < 9 => m[p] + n[p])
  }

  function Scale(c: real, m: Mat3): Mat3
  {
    seq(9, p requires 0 <= p < 9 => c * m[p])
  }

  /** The entry in row `a`, column `b` (numpy's `m[a, b]`). */
  function Entry(m: Mat3, a: nat, b: nat): real
    requires a < 3 && b < 3
  {
    m[3 * a + b]
  }

  /** Matrix addition and scaling act entry by entry. */
  lemma EntryLinear(c: real, m: Mat3, n: Mat3, a: nat, b: nat)
    requires a < 3 && b < 3
    ensures Entry(Add(m, n), a, b) == Entry(m, a, b) + Entry(n, a, b)
    ensures Entry(Scale(c, m), a, b) == c * Entry(m, a, b)
  {
  }

  lemma EntryAddScaled(m: Mat3, c: real, n: Mat3, a: nat, b: nat)
    requires a < 3 && b < 3
    ensures Entry(Add(m, Scale(c, n)), a, b) == Entry(m, a, b) + c * Entry(n, a, b)
  {
    EntryLinear(c, m, Scale(c, n), a, b);
    EntryLinear(c, n, n, a, b);
  }

  /** Scaling distributes over addition. */
  lemma ScaleAdd(c: real, m: Mat3, n: Mat3)
    ensures Scale(c, Add(m, n)) == Add(Scale(c, m), Scale(c, n))
  {
    forall p | 0 <= p < 9
      ensures Scale(c, Add(m, n))[p] == Add(Scale(c, m), Scale(c, n))[p]
    {
      assert c * (m[p] + n[p]) == c * m[p] + c * n[p];
    }
  }

  lemma EntryZeroIdentity(a: nat, b: nat)
    requires a < 3 && b < 3
    ensures Entry(Zero, a, b) == 0.0
    ensures Entry(Identity, a, b) == if a == b then 1.0 else 0.0
  {
  }
}
