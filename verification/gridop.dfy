/** The grid update `grid_op`: momentum to velocity, gravity, and the wall
    and floor rules, node by node. */
module GridOp {
  import opened Linalg
  import opened Params
  import opened Stencil
  import opened Grid

  /** The non-negative reals: the range of the vector norm `ti.norm`, which
      the model takes as a parameter rather than computing a square root. */
  type NonNeg = r: real | r >= 0.0 witness 0.0

  /** The floor's outward normal used by the friction code. */
  const FloorNormal: Vec2 := Vec2(0.0, 1.0)

  /** `v_out = v_in / (m + 1e-10)` followed by `v_out[1] -= dt * gravity`. */
  function Resolved(vin: Vec2, m: real): Vec2
    requires m + Eps != 0.0
  {
    var out := Scale(1.0 / (m + Eps), vin);
    Vec2(out.x, out.y - Dt * Gravity)
  }

  /** The friction block: the Coulomb friction rule against the floor
      normal, for a non-negative coefficient. */
  function Friction(v: Vec2, norm: Vec2 -> NonNeg): Vec2 {
    var lsq := FloorNormal.x * FloorNormal.x + FloorNormal.y * FloorNormal.y;
    if lsq > 0.5 then
      if Coeff < 0.0 then Zero
      else
        var lin := Dot(v, FloorNormal);
        if lin < 0.0 then
          var vit := Add(v, Scale(-lin, FloorNormal));
          var lit := norm(vit) + Eps;
          if lit + Coeff * lin <= 0.0 then Zero
          else Scale(1.0 + Coeff * lin / lit, vit)
        else v
    else v
  }

  /** Left wall: cells `i < bound` stop a leftward velocity. */
  function LeftWall(v: Vec2, i: int): Vec2 {
    if i < Bound && v.x < 0.0 then Zero else v
  }

  /** Right wall: cells `i > n_grid - bound` stop a rightward velocity. */
  function RightWall(v: Vec2, i: int): Vec2 {
    if i > NGrid - Bound && v.x > 0.0 then Zero else v
  }

  /** Floor: cells `j < bound` stop a downward velocity, then run the
      friction code on the velocity they have just zeroed. */
  function Floor(v: Vec2, j: int, norm: Vec2 -> NonNeg): Vec2 {
    if j < Bound && v.y < 0.0 then Friction(Zero, norm) else v
  }

  /** Ceiling: cells `j > n_grid - bound` stop an upward velocity. */
  function Ceiling(v: Vec2, j: int): Vec2 {
    if j > NGrid - Bound && v.y > 0.0 then Zero else v
  }

  /** The four wall tests in source order, each reading the velocity the
      previous one left. */
  function Boundary(v: Vec2, i: int, j: int, norm: Vec2 -> NonNeg): Vec2 {
    Ceiling(Floor(RightWall(LeftWall(v, i), i), j, norm), j)
  }

  /** One node of `grid_op`. */
  function NodeUpdate(vin: Vec2, m: real, i: int, j: int, norm: Vec2 -> NonNeg): Vec2
    requires m + Eps != 0.0
  {
    Boundary(Resolved(vin, m), i, j, norm)
  }

  /** Does `v` point into a wall at cell (i, j)? Strict comparisons: a
      velocity parallel to a wall is not into it. */
  predicate IntoWall(v: Vec2, i: int, j: int) {
    || (i < Bound && v.x < 0.0)
    || (i > NGrid - Bound && v.x > 0.0)
    || (j < Bound && v.y < 0.0)
    || (j > NGrid - Bound && v.y > 0.0)
  }

  /** The friction code leaves alone any velocity that does not point into
      the floor: its rescale needs `lin < 0`. */
  lemma FrictionInert(v: Vec2, norm: Vec2 -> NonNeg)
    requires v.y >= 0.0
    ensures Friction(v, norm) == v
  {
    assert Dot(v, FloorNormal) == v.y;
  }

  /** In the floor branch the friction code always sees a zero velocity, so
      its tangential rescale can never run: the branch yields zero. */
  lemma FloorZeroes(v: Vec2, j: int, norm: Vec2 -> NonNeg)
    requires j < Bound && v.y < 0.0
    ensures Floor(v, j, norm) == Zero
  {
    FrictionInert(Zero, norm);
  }

  /** The wall rules amount to: zero if the velocity points into any wall
      at that cell, unchanged otherwise. */
  lemma BoundaryReference(v: Vec2, i: int, j: int, norm: Vec2 -> NonNeg)
    ensures Boundary(v, i, j, norm) == if IntoWall(v, i, j) then Zero else v
  {
    FrictionInert(Zero, norm);
  }

  /** Applying the wall rules to their own output changes nothing. */
  lemma BoundaryIdempotent(v: Vec2, i: int, j: int, norm: Vec2 -> NonNeg)
    ensures Boundary(Boundary(v, i, j, norm), i, j, norm) == Boundary(v, i, j, norm)
  {
    BoundaryReference(v, i, j, norm);
    BoundaryReference(Boundary(v, i, j, norm), i, j, norm);
  }

  /** Away from the walls a node only converts momentum to velocity and
      subtracts `dt * gravity` from the vertical component. */
  lemma InteriorNode(vin: Vec2, m: real, i: int, j: int, norm: Vec2 -> NonNeg)
    requires m + Eps != 0.0
    requires Bound <= i <= NGrid - Bound && Bound <= j <= NGrid - Bound
    ensures NodeUpdate(vin, m, i, j, norm) == Vec2(vin.x / (m + Eps), vin.y / (m + Eps) - Dt * Gravity)
  {
    BoundaryReference(Resolved(vin, m), i, j, norm);
  }

  /** The whole kernel: every node of the grid updated independently. */
  function Update(g: Field, norm: Vec2 -> NonNeg): (out: seq<seq<Vec2>>)
    requires Shaped(g)
    requires forall r, s :: 0 <= r < NGrid && 0 <= s < NGrid ==> g[r][s].mass + Eps != 0.0
    ensures |out| == NGrid && forall r :: 0 <= r < NGrid ==> |out[r]| == NGrid
    ensures forall r, s :: 0 <= r < NGrid && 0 <= s < NGrid ==>
      out[r][s] == if IntoWall(Resolved(g[r][s].mom, g[r][s].mass), r, s) then Zero else Resolved(g[r][s].mom, g[r][s].mass)
  {
    var out := seq(NGrid, r requires 0 <= r < NGrid =>
      seq(NGrid, s requires 0 <= s < NGrid => NodeUpdate(g[r][s].mom, g[r][s].mass, r, s, norm)));
    assert forall r, s :: 0 <= r < NGrid && 0 <= s < NGrid ==>
      out[r][s] == if IntoWall(Resolved(g[r][s].mom, g[r][s].mass), r, s) then Zero else Resolved(g[r][s].mom, g[r][s].mass) by {
      forall r, s | 0 <= r < NGrid && 0 <= s < NGrid
        ensures out[r][s] == if IntoWall(Resolved(g[r][s].mom, g[r][s].mass), r, s) then Zero else Resolved(g[r][s].mom, g[r][s].mass)
      {
        BoundaryReference(Resolved(g[r][s].mom, g[r][s].mass), r, s, norm);
      }
    }
    out
  }
}
