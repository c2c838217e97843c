/** The simulator's global constants, as exact reals and integers. */
module Params {

  /** Cells per side of the square background grid. */
  const NGrid: int := 128
  /** Cell width `dx = 1 / n_grid` and its inverse. */
  const Dx: real := 1.0 / 128.0
  const InvDx: real := 128.0
  /** Time step. */
  const Dt: real := 0.001
  const Gravity: real := 3.8
  /** Width, in cells, of the boundary margin on each side of the grid. */
  const Bound: int := 3
  /** Friction coefficient of the floor. */
  const Coeff: real := 0.5
  /** The small guard added to divisors in the grid update. */
  const Eps: real := 0.0000000001

  /** Conversion of a real to an integer by truncation toward zero, as
      `ti.cast(_, ti.i32)` and Python's `int()` do. */
  function Trunc(r: real): (n: int)
    ensures r >= 0.0 ==> n == r.Floor
    ensures r >= 0.0 ==> n as real <= r < n as real + 1.0
    ensures r < 0.0 ==> n as real - 1.0 < r <= n as real
  {
    if r >= 0.0 then r.Floor else -((-r).Floor)
  }

  /** Mass a particle deposits on the grid: 4 for fluid (type 0), 1 otherwise. */
  function ParticleMass(ptype: int): (m: real)
    ensures m > 0.0
    ensures ptype == 0 <==> m == 4.0
    ensures ptype != 0 <==> m == 1.0
  {
    if ptype == 0 then 4.0 else 1.0
  }
}
