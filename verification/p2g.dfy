/** Particle-to-grid transfer (`p2g`): every particle scatters its mass and
    its APIC momentum `mass * v + affine @ dpos` over the 3x3 stencil. The
    stress part of `affine` comes from the constitutive model and is taken
    as an input. */
module P2G {
  import opened Linalg
  import opened Params
  import opened Stencil
  import opened Grid
  import opened Particles

  /** `affine = stress + mass * C`. */
  function Affine(p: Particle, stress: Mat2): Mat2 {
    MatAdd(stress, MatScale(ParticleMass(p.ptype), p.C))
  }

  /** What stencil node (i, j) receives from a particle of mass `mass` and
      velocity `v`: `weight * (mass * v + affine @ dpos)` momentum and
      `weight * mass` mass, with `dpos = (offset - fx) * dx`. */
  function NodeShare(k: Kernel, i: int, j: int, mass: real, v: Vec2, aff: Mat2): Node
    requires 0 <= i < 3 && 0 <= j < 3
  {
    NodeScale(WeightAt(k, i, j), Node(Add(Scale(mass, v), Apply(aff, Scale(Dx, DposAt(k, i, j)))), mass))
  }

  /** Sum of the shares of nodes (i, j..2). */
  function RowShare(k: Kernel, i: int, j: int, mass: real, v: Vec2, aff: Mat2): Node
    requires 0 <= i < 3 && 0 <= j <= 3
    decreases 3 - j
  {
    if j == 3 then ZeroNode else NodePlus(NodeShare(k, i, j, mass, v, aff), RowShare(k, i, j + 1, mass, v, aff))
  }

  /** Sum of the shares of stencil rows i..2. */
  function StencilShare(k: Kernel, i: int, mass: real, v: Vec2, aff: Mat2): Node
    requires 0 <= i <= 3
    decreases 3 - i
  {
    if i == 3 then ZeroNode else NodePlus(RowShare(k, i, 0, mass, v, aff), StencilShare(k, i + 1, mass, v, aff))
  }

  /** The momentum and mass a particle carries. */
  function Carried(mass: real, v: Vec2): Node {
    Node(Scale(mass, v), mass)
  }

  /** Node `c` of a shaped field. */
  function At(g: Field, c: Cell): Node
    requires Shaped(g) && 0 <= c.i < NGrid && 0 <= c.j < NGrid
  {
    g[c.i][c.j]
  }

  /** The inner loop `for j in range(3)` of stencil row i, from j on: nodes
      (i, j..2) each gain their share and every other node keeps its value. */
  function ScatterRow(g: Field, k: Kernel, i: int, j: int, mass: real, v: Vec2, aff: Mat2): (h: Field)
    requires Shaped(g) && StencilInGrid(k) && 0 <= i < 3 && 0 <= j <= 3
    ensures Shaped(h)
    ensures forall j' :: j <= j' < 3 ==> At(h, NodeCell(k, i, j')) == NodePlus(At(g, NodeCell(k, i, j')), NodeShare(k, i, j', mass, v, aff))
    ensures forall r, s :: 0 <= r < NGrid && 0 <= s < NGrid && (r != k.base.i + i || s < k.base.j + j || s >= k.base.j + 3) ==> h[r][s] == g[r][s]
    ensures GridTotal(h) == NodePlus(GridTotal(g), RowShare(k, i, j, mass, v, aff))
    decreases 3 - j
  {
    if j == 3 then
      PlusZero(GridTotal(g));
      g
    else
      var c := NodeCell(k, i, j);
      var d := NodeShare(k, i, j, mass, v, aff);
      var g' := Deposit(g, c, d);
      var h := ScatterRow(g', k, i, j + 1, mass, v, aff);
      DepositTotal(g, c, d);
      PlusAssoc(GridTotal(g), d, RowShare(k, i, j + 1, mass, v, aff));
      RowStep(g, g', h, k, i, j, mass, v, aff);
      h
  }

  /** The node-by-node step of `ScatterRow`: the deposit on node (i, j)
      followed by those on nodes (i, j+1..2). */
  lemma RowStep(g: Field, g': Field, h: Field, k: Kernel, i: int, j: int, mass: real, v: Vec2, aff: Mat2)
    requires Shaped(g) && Shaped(g') && Shaped(h) && StencilInGrid(k) && 0 <= i < 3 && 0 <= j < 3
    requires g' == Deposit(g, NodeCell(k, i, j), NodeShare(k, i, j, mass, v, aff))
    requires forall j' :: j + 1 <= j' < 3 ==> At(h, NodeCell(k, i, j')) == NodePlus(At(g', NodeCell(k, i, j')), NodeShare(k, i, j', mass, v, aff))
    requires forall r, s :: 0 <= r < NGrid && 0 <= s < NGrid && (r != k.base.i + i || s < k.base.j + j + 1 || s >= k.base.j + 3) ==> h[r][s] == g'[r][s]
    ensures forall j' :: j <= j' < 3 ==> At(h, NodeCell(k, i, j')) == NodePlus(At(g, NodeCell(k, i, j')), NodeShare(k, i, j', mass, v, aff))
    ensures forall r, s :: 0 <= r < NGrid && 0 <= s < NGrid && (r != k.base.i + i || s < k.base.j + j || s >= k.base.j + 3) ==> h[r][s] == g[r][s]
  {
    var c := NodeCell(k, i, j);
    assert h[c.i][c.j] == g'[c.i][c.j];
    forall j' | j + 1 <= j' < 3 ensures At(g', NodeCell(k, i, j')) == At(g, NodeCell(k, i, j')) {
      assert NodeCell(k, i, j') != c;
    }
  }

  /** The outer loop `for i in range(3)`, from row i on: the nodes of
      stencil rows i..2 each gain their share and every other node keeps its
      value. */
  function ScatterRows(g: Field, k: Kernel, i: int, mass: real, v: Vec2, aff: Mat2): (h: Field)
    requires Shaped(g) && StencilInGrid(k) && 0 <= i <= 3
    ensures Shaped(h)
    ensures forall i', j' :: i <= i' < 3 && 0 <= j' < 3 ==>
      At(h, NodeCell(k, i', j')) == NodePlus(At(g, NodeCell(k, i', j')), NodeShare(k, i', j', mass, v, aff))
    ensures forall r, s :: 0 <= r < NGrid && 0 <= s < NGrid && (r < k.base.i + i || r >= k.base.i + 3 || s < k.base.j || s >= k.base.j + 3) ==> h[r][s] == g[r][s]
    ensures GridTotal(h) == NodePlus(GridTotal(g), StencilShare(k, i, mass, v, aff))
    decreases 3 - i
  {
    if i == 3 then
      PlusZero(GridTotal(g));
      g
    else
      var g' := ScatterRow(g, k, i, 0, mass, v, aff);
      var h := ScatterRows(g', k, i + 1, mass, v, aff);
      PlusAssoc(GridTotal(g), RowShare(k, i, 0, mass, v, aff), StencilShare(k, i + 1, mass, v, aff));
      RowsStep(g, g', h, k, i, mass, v, aff);
      h
  }

  /** The node-by-node step of `ScatterRows`: row i's deposits followed by
      those of rows i+1..2. */
  lemma RowsStep(g: Field, g': Field, h: Field, k: Kernel, i: int, mass: real, v: Vec2, aff: Mat2)
    requires Shaped(g) && Shaped(g') && Shaped(h) && StencilInGrid(k) && 0 <= i < 3
    requires forall j' :: 0 <= j' < 3 ==> At(g', NodeCell(k, i, j')) == NodePlus(At(g, NodeCell(k, i, j')), NodeShare(k, i, j', mass, v, aff))
    requires forall r, s :: 0 <= r < NGrid && 0 <= s < NGrid && (r != k.base.i + i || s < k.base.j || s >= k.base.j + 3) ==> g'[r][s] == g[r][s]
    requires forall i', j' :: i + 1 <= i' < 3 && 0 <= j' < 3 ==>
      At(h, NodeCell(k, i', j')) == NodePlus(At(g', NodeCell(k, i', j')), NodeShare(k, i', j', mass, v, aff))
    requires forall r, s :: 0 <= r < NGrid && 0 <= s < NGrid && (r < k.base.i + i + 1 || r >= k.base.i + 3 || s < k.base.j || s >= k.base.j + 3) ==> h[r][s] == g'[r][s]
    ensures forall i', j' :: i <= i' < 3 && 0 <= j' < 3 ==>
      At(h, NodeCell(k, i', j')) == NodePlus(At(g, NodeCell(k, i', j')), NodeShare(k, i', j', mass, v, aff))
    ensures forall r, s :: 0 <= r < NGrid && 0 <= s < NGrid && (r < k.base.i + i || r >= k.base.i + 3 || s < k.base.j || s >= k.base.j + 3) ==> h[r][s] == g[r][s]
  {
    forall i', j' | i <= i' < 3 && 0 <= j' < 3
      ensures At(h, NodeCell(k, i', j')) == NodePlus(At(g, NodeCell(k, i', j')), NodeShare(k, i', j', mass, v, aff))
    {
      var c := NodeCell(k, i', j');
      if i' == i {
        assert h[c.i][c.j] == g'[c.i][c.j];
      } else {
        assert g'[c.i][c.j] == g[c.i][c.j];
      }
    }
  }

  /** What node `c` receives from particle `p` in `p2g`: its share when `c`
      lies in the particle's stencil, nothing otherwise. */
  function Received(p: Particle, stress: Mat2, c: Cell): Node {
    ReceivedFrom(KernelOf(p.x), ParticleMass(p.ptype), p.v, Affine(p, stress), c)
  }

  /** What node `c` receives from the stencil `k` of a particle of mass
      `mass`, velocity `v` and affine matrix `aff`. */
  function ReceivedFrom(k: Kernel, mass: real, v: Vec2, aff: Mat2, c: Cell): Node {
    if Covers(k, c) then NodeShare(k, c.i - k.base.i, c.j - k.base.j, mass, v, aff) else ZeroNode
  }

  /** Node `c` lies in the 3x3 stencil `k`. */
  predicate Covers(k: Kernel, c: Cell) {
    0 <= c.i - k.base.i < 3 && 0 <= c.j - k.base.j < 3
  }

  /** One particle's scatter: every node gains exactly what it receives from
      the particle, so the grid gains exactly the particle's mass and
      momentum, whatever the stress. */
  function ScatterParticle(g: Field, p: Particle, stress: Mat2): (h: Field)
    requires Shaped(g) && StencilInGrid(KernelOf(p.x))
    ensures Shaped(h)
    ensures forall r, s :: 0 <= r < NGrid && 0 <= s < NGrid ==> h[r][s] == NodePlus(g[r][s], Received(p, stress, Cell(r, s)))
    ensures GridTotal(h) == NodePlus(GridTotal(g), Carried(ParticleMass(p.ptype), p.v))
  {
    var k := KernelOf(p.x);
    ShareConserved(k, ParticleMass(p.ptype), p.v, Affine(p, stress));
    var h := ScatterRows(g, k, 0, ParticleMass(p.ptype), p.v, Affine(p, stress));
    StencilCells(g, h, k, ParticleMass(p.ptype), p.v, Affine(p, stress));
    h
  }

  /** The node-by-node form of the stencil's deposits: every node gains
      what it receives from the stencil. */
  lemma StencilCells(g: Field, h: Field, k: Kernel, mass: real, v: Vec2, aff: Mat2)
    requires Shaped(g) && StencilInGrid(k)
    requires Shaped(h)
    requires forall i', j' :: 0 <= i' < 3 && 0 <= j' < 3 ==>
      At(h, NodeCell(k, i', j')) == NodePlus(At(g, NodeCell(k, i', j')), NodeShare(k, i', j', mass, v, aff))
    requires forall r, s :: 0 <= r < NGrid && 0 <= s < NGrid && (r < k.base.i || r >= k.base.i + 3 || s < k.base.j || s >= k.base.j + 3) ==> h[r][s] == g[r][s]
    ensures forall r, s :: 0 <= r < NGrid && 0 <= s < NGrid ==> h[r][s] == NodePlus(g[r][s], ReceivedFrom(k, mass, v, aff, Cell(r, s)))
  {
    forall r, s | 0 <= r < NGrid && 0 <= s < NGrid
      ensures h[r][s] == NodePlus(g[r][s], ReceivedFrom(k, mass, v, aff, Cell(r, s)))
    {
      StencilCell(g, h, k, mass, v, aff, r, s);
    }
  }

  /** Node (r, s) after the stencil's deposits. */
  lemma StencilCell(g: Field, h: Field, k: Kernel, mass: real, v: Vec2, aff: Mat2, r: int, s: int)
    requires Shaped(g) && StencilInGrid(k) && 0 <= r < NGrid && 0 <= s < NGrid
    requires Shaped(h)
    requires forall i', j' :: 0 <= i' < 3 && 0 <= j' < 3 ==>
      At(h, NodeCell(k, i', j')) == NodePlus(At(g, NodeCell(k, i', j')), NodeShare(k, i', j', mass, v, aff))
    requires forall r, s :: 0 <= r < NGrid && 0 <= s < NGrid && (r < k.base.i || r >= k.base.i + 3 || s < k.base.j || s >= k.base.j + 3) ==> h[r][s] == g[r][s]
    ensures h[r][s] == NodePlus(g[r][s], ReceivedFrom(k, mass, v, aff, Cell(r, s)))
  {
    var i, j := r - k.base.i, s - k.base.j;
    if Covers(k, Cell(r, s)) {
      var c := NodeCell(k, i, j);
      assert c == Cell(r, s);
      var d := NodeShare(k, i, j, mass, v, aff);
      assert At(h, c) == NodePlus(At(g, c), d);
      assert ReceivedFrom(k, mass, v, aff, c) == d;
    } else {
      assert h[r][s] == g[r][s];
      PlusZero(g[r][s]);
    }
  }

  /** Every particle's stencil lies inside the grid. */
  predicate AllInGrid(ps: seq<Particle>) {
    forall n :: 0 <= n < |ps| ==> StencilInGrid(KernelOf(ps[n].x))
  }

  /** Sum of the mass and momentum carried by the particles. */
  function ParticlesTotal(ps: seq<Particle>): Node
    decreases |ps|
  {
    if |ps| == 0 then ZeroNode else NodePlus(Carried(ParticleMass(ps[0].ptype), ps[0].v), ParticlesTotal(ps[1..]))
  }

  /** What node `c` receives from all the particles, in order. */
  function ReceivedAll(ps: seq<Particle>, stresses: seq<Mat2>, c: Cell): Node
    requires |stresses| == |ps|
    decreases |ps|
  {
    if |ps| == 0 then ZeroNode else NodePlus(Received(ps[0], stresses[0], c), ReceivedAll(ps[1..], stresses[1..], c))
  }

  /** The whole kernel, particles in order (the parallel loop taken
      sequentially): every node gains exactly what the particles deposit on
      it, so a node outside every stencil keeps its value, and the grid
      gains exactly the particles' total mass and momentum. */
  function Scatter(g: Field, ps: seq<Particle>, stresses: seq<Mat2>): (h: Field)
    requires Shaped(g) && AllInGrid(ps) && |stresses| == |ps|
    ensures Shaped(h)
    ensures forall r, s :: 0 <= r < NGrid && 0 <= s < NGrid ==> h[r][s] == NodePlus(g[r][s], ReceivedAll(ps, stresses, Cell(r, s)))
    ensures GridTotal(h) == NodePlus(GridTotal(g), ParticlesTotal(ps))
    decreases |ps|
  {
    if |ps| == 0 then
      PlusZero(GridTotal(g));
      assert forall r, s :: 0 <= r < NGrid && 0 <= s < NGrid ==> NodePlus(g[r][s], ZeroNode) == g[r][s];
      g
    else
      var g' := ScatterParticle(g, ps[0], stresses[0]);
      var h := Scatter(g', ps[1..], stresses[1..]);
      PlusAssoc(GridTotal(g), Carried(ParticleMass(ps[0].ptype), ps[0].v), ParticlesTotal(ps[1..]));
      ScatterCells(g, g', h, ps, stresses);
      h
  }

  /** The node-by-node step of `Scatter`: the first particle's deposit
      followed by the rest's. */
  lemma ScatterCells(g: Field, g': Field, h: Field, ps: seq<Particle>, stresses: seq<Mat2>)
    requires Shaped(g) && Shaped(g') && Shaped(h) && |ps| > 0 && |stresses| == |ps|
    requires forall r, s :: 0 <= r < NGrid && 0 <= s < NGrid ==> g'[r][s] == NodePlus(g[r][s], Received(ps[0], stresses[0], Cell(r, s)))
    requires forall r, s :: 0 <= r < NGrid && 0 <= s < NGrid ==> h[r][s] == NodePlus(g'[r][s], ReceivedAll(ps[1..], stresses[1..], Cell(r, s)))
    ensures forall r, s :: 0 <= r < NGrid && 0 <= s < NGrid ==> h[r][s] == NodePlus(g[r][s], ReceivedAll(ps, stresses, Cell(r, s)))
  {
  }

  /** A node that lies in no particle's stencil receives nothing from the
      scatter: it keeps its value. */
  lemma UntouchedNode(g: Field, ps: seq<Particle>, stresses: seq<Mat2>, r: int, s: int)
    requires Shaped(g) && AllInGrid(ps) && |stresses| == |ps| && 0 <= r < NGrid && 0 <= s < NGrid
    requires forall n :: 0 <= n < |ps| ==> !Covers(KernelOf(ps[n].x), Cell(r, s))
    ensures Scatter(g, ps, stresses)[r][s] == g[r][s]
  {
    ReceivedNone(ps, stresses, Cell(r, s));
    PlusZero(g[r][s]);
  }

  /** What the particles deposit on a node none of their stencils covers
      adds up to nothing. */
  lemma {:induction false} ReceivedNone(ps: seq<Particle>, stresses: seq<Mat2>, c: Cell)
    requires |stresses| == |ps|
    requires forall n :: 0 <= n < |ps| ==> !Covers(KernelOf(ps[n].x), c)
    ensures ReceivedAll(ps, stresses, c) == ZeroNode
    decreases |ps|
  {
    if |ps| > 0 {
      assert forall n :: 0 <= n < |ps[1..]| ==> ps[1..][n] == ps[n + 1];
      ReceivedNone(ps[1..], stresses[1..], c);
      assert !Covers(KernelOf(ps[0].x), c);
      PlusZero(ZeroNode);
    }
  }

  /** The shares of a valid stencil add up to exactly the particle's mass
      and momentum: the `affine @ dpos` terms cancel. */
  lemma ShareConserved(k: Kernel, mass: real, v: Vec2, aff: Mat2)
    requires ValidKernel(k)
    ensures StencilShare(k, 0, mass, v, aff) == Carried(mass, v)
  {
    StencilShareSplit(k, 0, mass, v, aff);
    StencilMoments(k);
    ApplyScaledZero(aff, Dx);
  }

  /** The shares of stencil rows i..2 split into the carried mass and
      momentum weighted by the rows' total weight, plus `affine` applied to
      their first moment. */
  lemma {:induction false} StencilShareSplit(k: Kernel, i: int, mass: real, v: Vec2, aff: Mat2)
    requires 0 <= i <= 3
    ensures StencilShare(k, i, mass, v, aff)
         == NodePlus(NodeScale(WeightSum(k, i), Carried(mass, v)), Node(Apply(aff, Scale(Dx, MomentSum(k, i))), 0.0))
    decreases 3 - i
  {
    if i == 3 {
      ApplyScaledZero(aff, Dx);
    } else {
      RowShareSplit(k, i, 0, mass, v, aff);
      StencilShareSplit(k, i + 1, mass, v, aff);
      SplitStep(RowWeight(k, i, 0), WeightSum(k, i + 1), mass, v, aff, RowMoment(k, i, 0), MomentSum(k, i + 1));
    }
  }

  /** The same split for the nodes (i, j..2) of one row. */
  lemma {:induction false} RowShareSplit(k: Kernel, i: int, j: int, mass: real, v: Vec2, aff: Mat2)
    requires 0 <= i < 3 && 0 <= j <= 3
    ensures RowShare(k, i, j, mass, v, aff)
         == NodePlus(NodeScale(RowWeight(k, i, j), Carried(mass, v)), Node(Apply(aff, Scale(Dx, RowMoment(k, i, j))), 0.0))
    decreases 3 - j
  {
    if j == 3 {
      ApplyScaledZero(aff, Dx);
    } else {
      RowShareSplit(k, i, j + 1, mass, v, aff);
      NodeShareSplit(WeightAt(k, i, j), mass, v, aff, DposAt(k, i, j));
      SplitStep(WeightAt(k, i, j), RowWeight(k, i, j + 1), mass, v, aff, NodeMoment(k, i, j), RowMoment(k, i, j + 1));
    }
  }

  /** One node's share, split the same way. */
  lemma NodeShareSplit(w: real, mass: real, v: Vec2, aff: Mat2, d: Vec2)
    ensures NodeScale(w, Node(Add(Scale(mass, v), Apply(aff, Scale(Dx, d))), mass))
         == NodePlus(NodeScale(w, Carried(mass, v)), Node(Apply(aff, Scale(Dx, Scale(w, d))), 0.0))
  {
    ScaleAdd(w, Scale(mass, v), Apply(aff, Scale(Dx, d)));
    ScaleThroughApply(w, aff, Dx, d);
  }

  /** Adding two split sums adds their weights and their moments. */
  lemma SplitStep(w: real, w': real, mass: real, v: Vec2, aff: Mat2, m: Vec2, m': Vec2)
    ensures NodePlus(NodePlus(NodeScale(w, Carried(mass, v)), Node(Apply(aff, Scale(Dx, m)), 0.0)),
                     NodePlus(NodeScale(w', Carried(mass, v)), Node(Apply(aff, Scale(Dx, m')), 0.0)))
         == NodePlus(NodeScale(w + w', Carried(mass, v)), Node(Apply(aff, Scale(Dx, Add(m, m'))), 0.0))
  {
    ScaleSumOfScalars(w, w', Scale(mass, v));
    ScaleAdd(Dx, m, m');
    ApplyAdd(aff, Scale(Dx, m), Scale(Dx, m'));
    assert w * mass + w' * mass == (w + w') * mass;
  }

  lemma PlusZero(a: Node)
    ensures NodePlus(a, ZeroNode) == a
  {
  }

  lemma PlusAssoc(a: Node, b: Node, c: Node)
    ensures NodePlus(NodePlus(a, b), c) == NodePlus(a, NodePlus(b, c))
  {
  }
}
