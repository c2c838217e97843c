/** Grid-to-particle transfer (`g2p`): every particle gathers a velocity and
    an APIC affine matrix from the updated grid velocities over its 3x3
    stencil, then moves by one explicit Euler step. */
module G2P {
  import opened Linalg
  import opened Params
  import opened Stencil
  import opened Particles

  /** The updated grid velocities `grid_v_out`, rows indexed by the first
      cell coordinate. */
  type VelField = seq<seq<Vec2>>

  /** `g_v = grid_v_out[base + (i, j)]`. */
  function VelAt(gv: VelField, k: Kernel, i: int, j: int): Vec2
    requires Shaped(gv) && StencilInGrid(k) && 0 <= i < 3 && 0 <= j < 3
  {
    gv[k.base.i + i][k.base.j + j]
  }

  /** What the gather accumulates: `new_v` and `new_C`. */
  datatype Gathered = Gathered(v: Vec2, C: Mat2)

  const NoGather: Gathered := Gathered(Zero, ZeroMat)

  function GatherPlus(a: Gathered, b: Gathered): Gathered {
    Gathered(Add(a.v, b.v), MatAdd(a.C, b.C))
  }

  /** The contribution of stencil node (i, j): `weight * g_v` to the velocity
      and `4 * weight * g_v.outer_product(dpos) * inv_dx` to the affine
      matrix, with `dpos = (i, j) - fx` in cell units. */
  function NodeGather(gv: VelField, k: Kernel, i: int, j: int): Gathered
    requires Shaped(gv) && StencilInGrid(k) && 0 <= i < 3 && 0 <= j < 3
  {
    var g := VelAt(gv, k, i, j);
    var w := WeightAt(k, i, j);
    Gathered(Scale(w, g), MatScale(InvDx, MatScale(4.0 * w, Outer(g, DposAt(k, i, j)))))
  }

  /** The inner loop `for j in range(3)` of stencil row i, from j on. */
  function RowGather(gv: VelField, k: Kernel, i: int, j: int): Gathered
    requires Shaped(gv) && StencilInGrid(k) && 0 <= i < 3 && 0 <= j <= 3
    decreases 3 - j
  {
    if j == 3 then NoGather else GatherPlus(NodeGather(gv, k, i, j), RowGather(gv, k, i, j + 1))
  }

  /** The outer loop `for i in range(3)`, from row i on. */
  function StencilGather(gv: VelField, k: Kernel, i: int): Gathered
    requires Shaped(gv) && StencilInGrid(k) && 0 <= i <= 3
    decreases 3 - i
  {
    if i == 3 then NoGather else GatherPlus(RowGather(gv, k, i, 0), StencilGather(gv, k, i + 1))
  }

  /** One particle's update: the gathered velocity and affine matrix, and
      the position advanced by `dt` times the new velocity. The material is
      carried over. */
  function Gather(gv: VelField, p: Particle): (q: Particle)
    requires Shaped(gv) && StencilInGrid(KernelOf(p.x))
    ensures q.x == Add(p.x, Scale(Dt, q.v))
    ensures q.ptype == p.ptype
  {
    var s := StencilGather(gv, KernelOf(p.x), 0);
    Particle(Add(p.x, Scale(Dt, s.v)), s.v, s.C, p.ptype)
  }

  /** The whole kernel: every particle gathers independently from the same
      grid, so the result is the per-particle update in order. */
  function GatherAll(gv: VelField, ps: seq<Particle>): (qs: seq<Particle>)
    requires Shaped(gv)
    requires forall n :: 0 <= n < |ps| ==> StencilInGrid(KernelOf(ps[n].x))
    ensures |qs| == |ps|
    ensures forall n :: 0 <= n < |ps| ==> qs[n] == Gather(gv, ps[n])
    ensures forall n :: 0 <= n < |ps| ==> qs[n].x == Add(ps[n].x, Scale(Dt, qs[n].v)) && qs[n].ptype == ps[n].ptype
  {
    seq(|ps|, n requires 0 <= n < |ps| => Gather(gv, ps[n]))
  }

  /** All nine stencil nodes carry the same velocity `u`. */
  predicate UniformStencil(gv: VelField, k: Kernel, u: Vec2)
    requires Shaped(gv) && StencilInGrid(k)
  {
    forall i, j :: 0 <= i < 3 && 0 <= j < 3 ==> VelAt(gv, k, i, j) == u
  }

  /** A uniform grid velocity is gathered back exactly: the particle takes
      velocity `u`, no affine motion, and moves by `dt * u`. */
  lemma UniformGather(gv: VelField, p: Particle, u: Vec2)
    requires Shaped(gv) && StencilInGrid(KernelOf(p.x)) && UniformStencil(gv, KernelOf(p.x), u)
    ensures Gather(gv, p) == Particle(Add(p.x, Scale(Dt, u)), u, ZeroMat, p.ptype)
  {
    UniformStencilGather(gv, KernelOf(p.x), u);
  }

  /** The stencil gather of a uniform velocity, for any valid stencil. */
  lemma UniformStencilGather(gv: VelField, k: Kernel, u: Vec2)
    requires Shaped(gv) && StencilInGrid(k) && ValidKernel(k) && UniformStencil(gv, k, u)
    ensures StencilGather(gv, k, 0) == Gathered(u, ZeroMat)
  {
    StencilGatherSplit(gv, k, 0, u);
    StencilMoments(k);
    assert Scale(1.0, u) == u;
    assert Outer(u, Zero) == ZeroMat;
  }

  /** Under a uniform velocity the gather of rows i..2 is `u` weighted by
      the rows' total weight, and the outer product of `u` with their first
      moment. */
  lemma {:induction false} StencilGatherSplit(gv: VelField, k: Kernel, i: int, u: Vec2)
    requires Shaped(gv) && StencilInGrid(k) && UniformStencil(gv, k, u) && 0 <= i <= 3
    ensures StencilGather(gv, k, i) == Gathered(Scale(WeightSum(k, i), u), MatScale(4.0 * InvDx, Outer(u, MomentSum(k, i))))
    decreases 3 - i
  {
    if i == 3 {
      NoGatherSplit(u);
    } else {
      RowGatherSplit(gv, k, i, 0, u);
      StencilGatherSplit(gv, k, i + 1, u);
      GatherStep(RowWeight(k, i, 0), WeightSum(k, i + 1), u, RowMoment(k, i, 0), MomentSum(k, i + 1));
    }
  }

  /** The same split for the nodes (i, j..2) of one row. */
  lemma {:induction false} RowGatherSplit(gv: VelField, k: Kernel, i: int, j: int, u: Vec2)
    requires Shaped(gv) && StencilInGrid(k) && UniformStencil(gv, k, u) && 0 <= i < 3 && 0 <= j <= 3
    ensures RowGather(gv, k, i, j) == Gathered(Scale(RowWeight(k, i, j), u), MatScale(4.0 * InvDx, Outer(u, RowMoment(k, i, j))))
    decreases 3 - j
  {
    if j == 3 {
      NoGatherSplit(u);
    } else {
      RowGatherSplit(gv, k, i, j + 1, u);
      assert VelAt(gv, k, i, j) == u;
      NodeGatherSplit(WeightAt(k, i, j), u, DposAt(k, i, j));
      GatherStep(WeightAt(k, i, j), RowWeight(k, i, j + 1), u, NodeMoment(k, i, j), RowMoment(k, i, j + 1));
    }
  }

  /** The empty gather in split form. */
  lemma NoGatherSplit(u: Vec2)
    ensures NoGather == Gathered(Scale(0.0, u), MatScale(4.0 * InvDx, Outer(u, Zero)))
  {
  }

  /** One node's contribution in split form: the weight moves from the
      scalar factor into the offset. */
  lemma NodeGatherSplit(w: real, u: Vec2, d: Vec2)
    ensures MatScale(InvDx, MatScale(4.0 * w, Outer(u, d))) == MatScale(4.0 * InvDx, Outer(u, Scale(w, d)))
  {
    var l, r := MatScale(InvDx, MatScale(4.0 * w, Outer(u, d))), MatScale(4.0 * InvDx, Outer(u, Scale(w, d)));
    assert l.a == r.a;
    assert l.b == r.b;
    assert l.c == r.c;
    assert l.d == r.d;
  }

  /** Adding two split gathers adds their weights and their moments. */
  lemma GatherStep(w: real, w': real, u: Vec2, m: Vec2, m': Vec2)
    ensures GatherPlus(Gathered(Scale(w, u), MatScale(4.0 * InvDx, Outer(u, m))),
                       Gathered(Scale(w', u), MatScale(4.0 * InvDx, Outer(u, m'))))
         == Gathered(Scale(w + w', u), MatScale(4.0 * InvDx, Outer(u, Add(m, m'))))
  {
    ScaleSumOfScalars(w, w', u);
    var l, r := MatAdd(MatScale(4.0 * InvDx, Outer(u, m)), MatScale(4.0 * InvDx, Outer(u, m'))),
                MatScale(4.0 * InvDx, Outer(u, Add(m, m')));
    assert l.a == r.a;
    assert l.b == r.b;
    assert l.c == r.c;
    assert l.d == r.d;
  }

  /** The affine velocity field `v(y) = u + A (y - o)` at the point y. */
  function AffineAt(u: Vec2, A: Mat2, o: Vec2, y: Vec2): Vec2 {
    Add(u, Apply(A, Sub(y, o)))
  }

  /** Position of grid node `c`: `c * dx`. */
  function NodePos(c: Cell): Vec2 {
    Vec2(c.i as real * Dx, c.j as real * Dx)
  }

  /** Every node of the stencil carries the affine field at its position. */
  predicate AffineGrid(gv: VelField, k: Kernel, u: Vec2, A: Mat2, o: Vec2)
    requires Shaped(gv) && StencilInGrid(k)
  {
    forall i, j :: 0 <= i < 3 && 0 <= j < 3 ==> VelAt(gv, k, i, j) == AffineAt(u, A, o, NodePos(NodeCell(k, i, j)))
  }

  /** APIC reproduces affine motion: when the grid velocity around a
      particle is an affine field, the particle gathers the field's value
      at its own position as velocity and the field's gradient as its
      affine matrix `C`. */
  lemma AffineGather(gv: VelField, p: Particle, u: Vec2, A: Mat2, o: Vec2)
    requires Shaped(gv) && StencilInGrid(KernelOf(p.x)) && AffineGrid(gv, KernelOf(p.x), u, A, o)
    ensures Gather(gv, p).v == AffineAt(u, A, o, p.x)
    ensures Gather(gv, p).C == A
    ensures Gather(gv, p).x == Add(p.x, Scale(Dt, AffineAt(u, A, o, p.x)))
  {
    var k := KernelOf(p.x);
    var v := AffineAt(u, A, o, p.x);
    forall i, j | 0 <= i < 3 && 0 <= j < 3
      ensures VelAt(gv, k, i, j) == Add(v, Apply(A, Scale(Dx, DposAt(k, i, j))))
    {
      NodeShift(k, i, j, p.x, u, A, o);
    }
    KernelSecondMoment(p.x);
    AffineStencilGather(gv, k, v, A);
  }

  /** Seen from the particle, the field at node (i, j) is the field at the
      particle plus `A` applied to the node's offset `dpos * dx`. */
  lemma NodeShift(k: Kernel, i: int, j: int, q: Vec2, u: Vec2, A: Mat2, o: Vec2)
    requires k.fx.x == q.x * InvDx - k.base.i as real && k.fx.y == q.y * InvDx - k.base.j as real
    ensures AffineAt(u, A, o, NodePos(NodeCell(k, i, j))) == Add(AffineAt(u, A, o, q), Apply(A, Scale(Dx, DposAt(k, i, j))))
  {
    var s := Scale(Dx, DposAt(k, i, j));
    ShiftAxis(k.base.i, i, k.fx.x, q.x);
    ShiftAxis(k.base.j, j, k.fx.y, q.y);
    assert Sub(NodePos(NodeCell(k, i, j)), o) == Add(Sub(q, o), s);
    ApplyAdd(A, Sub(q, o), s);
  }

  /** One axis of `NodeShift`: `(base + i) * dx == q + dx * (i - fx)`. */
  lemma ShiftAxis(b: int, i: int, f: real, q: real)
    requires f == q * InvDx - b as real
    ensures (b + i) as real * Dx == q + Dx * (i as real - f)
  {
  }

  /** The nine nodes carry `u + A (dpos * dx)`. */
  predicate AffineStencil(gv: VelField, k: Kernel, u: Vec2, A: Mat2)
    requires Shaped(gv) && StencilInGrid(k)
  {
    forall i, j :: 0 <= i < 3 && 0 <= j < 3 ==> VelAt(gv, k, i, j) == Add(u, Apply(A, Scale(Dx, DposAt(k, i, j))))
  }

  /** For any stencil whose weights have unit sum, zero first moment and
      second moment 1/4 on both axes, the gather of an affine field returns
      `u` and `A`. */
  lemma AffineStencilGather(gv: VelField, k: Kernel, u: Vec2, A: Mat2)
    requires Shaped(gv) && StencilInGrid(k) && ValidKernel(k) && AffineStencil(gv, k, u, A)
    requires Second3(k.wx, k.fx.x) == 0.25 && Second3(k.wy, k.fx.y) == 0.25
    ensures StencilGather(gv, k, 0) == Gathered(u, A)
  {
    StencilGatherAffine(gv, k, 0, u, A);
    StencilMoments(k);
    StencilSecond(k);
    AffineUnit(u, A);
  }

  /** The gather of an affine field in split form: the weights `w`, the
      first moment `m` and the second moment `S` of the nodes gathered. */
  function AffineForm(w: real, m: Vec2, S: Mat2, u: Vec2, A: Mat2): Gathered {
    Gathered(Add(Scale(w, u), Apply(A, Scale(Dx, m))), MatAdd(MatScale(4.0 * InvDx, Outer(u, m)), MatScale(4.0, MatMul(A, S))))
  }

  /** With unit weight, zero first moment and second moment I/4 the split
      form is exactly `(u, A)`. */
  lemma AffineUnit(u: Vec2, A: Mat2)
    ensures AffineForm(1.0, Zero, Mat2(0.25, 0.0, 0.0, 0.25), u, A) == Gathered(u, A)
  {
    assert Scale(1.0, u) == u;
    assert Outer(u, Zero) == ZeroMat;
  }

  /** Rows i..2 of an affine stencil gather in split form. */
  lemma {:induction false} StencilGatherAffine(gv: VelField, k: Kernel, i: int, u: Vec2, A: Mat2)
    requires Shaped(gv) && StencilInGrid(k) && AffineStencil(gv, k, u, A) && 0 <= i <= 3
    ensures StencilGather(gv, k, i) == AffineForm(WeightSum(k, i), MomentSum(k, i), SecondSum(k, i), u, A)
    decreases 3 - i
  {
    if i == 3 {
      NoGatherAffine(u, A);
    } else {
      RowGatherAffine(gv, k, i, 0, u, A);
      StencilGatherAffine(gv, k, i + 1, u, A);
      AffineStep(RowWeight(k, i, 0), WeightSum(k, i + 1), RowMoment(k, i, 0), MomentSum(k, i + 1),
                 RowSecond(k, i, 0), SecondSum(k, i + 1), u, A);
    }
  }

  /** Nodes (i, j..2) of one row of an affine stencil gather in split form. */
  lemma {:induction false} RowGatherAffine(gv: VelField, k: Kernel, i: int, j: int, u: Vec2, A: Mat2)
    requires Shaped(gv) && StencilInGrid(k) && AffineStencil(gv, k, u, A) && 0 <= i < 3 && 0 <= j <= 3
    ensures RowGather(gv, k, i, j) == AffineForm(RowWeight(k, i, j), RowMoment(k, i, j), RowSecond(k, i, j), u, A)
    decreases 3 - j
  {
    if j == 3 {
      NoGatherAffine(u, A);
    } else {
      RowGatherAffine(gv, k, i, j + 1, u, A);
      RowAffineStep(gv, k, i, j, u, A);
    }
  }

  /** The split form extends from nodes (i, j+1..2) to nodes (i, j..2). */
  lemma RowAffineStep(gv: VelField, k: Kernel, i: int, j: int, u: Vec2, A: Mat2)
    requires Shaped(gv) && StencilInGrid(k) && AffineStencil(gv, k, u, A) && 0 <= i < 3 && 0 <= j < 3
    requires RowGather(gv, k, i, j + 1) == AffineForm(RowWeight(k, i, j + 1), RowMoment(k, i, j + 1), RowSecond(k, i, j + 1), u, A)
    ensures RowGather(gv, k, i, j) == AffineForm(RowWeight(k, i, j), RowMoment(k, i, j), RowSecond(k, i, j), u, A)
  {
    var w, w' := WeightAt(k, i, j), RowWeight(k, i, j + 1);
    var m, m' := NodeMoment(k, i, j), RowMoment(k, i, j + 1);
    var S, S' := NodeSecond(k, i, j), RowSecond(k, i, j + 1);
    assert RowGather(gv, k, i, j) == GatherPlus(NodeGather(gv, k, i, j), RowGather(gv, k, i, j + 1));
    assert RowWeight(k, i, j) == w + w';
    assert RowMoment(k, i, j) == Add(m, m');
    assert RowSecond(k, i, j) == MatAdd(S, S');
    NodeAffine(gv, k, i, j, u, A);
    AffineStep(w, w', m, m', S, S', u, A);
  }

  /** The empty gather in split form. */
  lemma NoGatherAffine(u: Vec2, A: Mat2)
    ensures NoGather == AffineForm(0.0, Zero, ZeroMat, u, A)
  {
  }

  /** Node (i, j) of an affine stencil in split form. */
  lemma NodeAffine(gv: VelField, k: Kernel, i: int, j: int, u: Vec2, A: Mat2)
    requires Shaped(gv) && StencilInGrid(k) && AffineStencil(gv, k, u, A) && 0 <= i < 3 && 0 <= j < 3
    ensures NodeGather(gv, k, i, j) == AffineForm(WeightAt(k, i, j), NodeMoment(k, i, j), NodeSecond(k, i, j), u, A)
  {
    assert VelAt(gv, k, i, j) == Add(u, Apply(A, Scale(Dx, DposAt(k, i, j))));
    NodeGatherAffine(WeightAt(k, i, j), u, A, DposAt(k, i, j));
  }

  /** One node's contribution in split form. */
  lemma NodeGatherAffine(w: real, u: Vec2, A: Mat2, d: Vec2)
    ensures var g := Add(u, Apply(A, Scale(Dx, d)));
      Gathered(Scale(w, g), MatScale(InvDx, MatScale(4.0 * w, Outer(g, d))))
      == AffineForm(w, Scale(w, d), MatScale(w, Outer(d, d)), u, A)
  {
    NodeVelAffine(w, u, A, d);
    NodeMatAffine(w, u, A, d);
  }

  /** The velocity half of `NodeGatherAffine`. */
  lemma NodeVelAffine(w: real, u: Vec2, A: Mat2, d: Vec2)
    ensures Scale(w, Add(u, Apply(A, Scale(Dx, d)))) == Add(Scale(w, u), Apply(A, Scale(Dx, Scale(w, d))))
  {
    ScaleAdd(w, u, Apply(A, Scale(Dx, d)));
    ScaleThroughApply(w, A, Dx, d);
  }

  /** The affine-matrix half of `NodeGatherAffine`: the outer product of
      the node velocity with the offset splits into the part of `u` and `A`
      times the outer square of the offset, and the factors `inv_dx` and
      `dx` cancel. */
  lemma NodeMatAffine(w: real, u: Vec2, A: Mat2, d: Vec2)
    ensures var g := Add(u, Apply(A, Scale(Dx, d)));
      MatScale(InvDx, MatScale(4.0 * w, Outer(g, d)))
      == MatAdd(MatScale(4.0 * InvDx, Outer(u, Scale(w, d))), MatScale(4.0, MatMul(A, MatScale(w, Outer(d, d)))))
  {
    var s := Scale(Dx, d);
    var P, Q := Outer(u, d), MatMul(A, Outer(d, d));
    OuterAddLeft(u, Apply(A, s), d);
    OuterApply(A, s, d);
    OuterScale(Dx, d, d);
    MatMulScale(A, Dx, Outer(d, d));
    assert Outer(Add(u, Apply(A, s)), d) == MatAdd(P, MatScale(Dx, Q));
    MatScaleScale(InvDx, 4.0 * w, MatAdd(P, MatScale(Dx, Q)));
    MatScaleAdd(InvDx * (4.0 * w), P, MatScale(Dx, Q));
    MatScaleScale(InvDx * (4.0 * w), Dx, Q);
    OuterScale(w, u, d);
    MatScaleScale(4.0 * InvDx, w, P);
    MatMulScale(A, w, Outer(d, d));
    MatScaleScale(4.0, w, Q);
    ScaleFactors(w);
  }

  /** The scalar factors of `NodeMatAffine`. */
  lemma ScaleFactors(w: real)
    ensures InvDx * (4.0 * w) == (4.0 * InvDx) * w
    ensures (InvDx * (4.0 * w)) * Dx == 4.0 * w
  {
  }

  /** Adding two split gathers adds their weights and both moments. */
  lemma AffineStep(w: real, w': real, m: Vec2, m': Vec2, S: Mat2, S': Mat2, u: Vec2, A: Mat2)
    ensures GatherPlus(AffineForm(w, m, S, u, A), AffineForm(w', m', S', u, A))
         == AffineForm(w + w', Add(m, m'), MatAdd(S, S'), u, A)
  {
    ScaleSumOfScalars(w, w', u);
    ScaleAdd(Dx, m, m');
    ApplyAdd(A, Scale(Dx, m), Scale(Dx, m'));
    OuterAdd(u, m, m');
    MatMulAdd(A, S, S');
    var l, r := GatherPlus(AffineForm(w, m, S, u, A), AffineForm(w', m', S', u, A)),
                AffineForm(w + w', Add(m, m'), MatAdd(S, S'), u, A);
    assert l.v == r.v;
    assert l.C == r.C;
  }
}
