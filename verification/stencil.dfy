/** The quadratic B-spline stencil shared by particle-to-grid and
    grid-to-particle transfers: base cell, fractional offset and weights. */
module Stencil {
  import opened Linalg
  import opened Params

  /** Integer coordinates of a grid cell. */
  datatype Cell = Cell(i: int, j: int)

  /** The `n_grid x n_grid` shape of every per-node field, rows indexed by
      the first cell coordinate. */
  predicate Shaped<T>(g: seq<seq<T>>) {
    |g| == NGrid && forall r :: 0 <= r < |g| ==> |g[r]| == NGrid
  }

  /** Base cell of a particle coordinate `p`: `cast(p * inv_dx - 0.5)`. */
  function BaseIndex(p: real): (b: int)
    ensures p * InvDx >= 0.5 ==> b == (p * InvDx - 0.5).Floor
    ensures 0.0 <= p * InvDx < 0.5 ==> b == 0
  {
    Trunc(p * InvDx - 0.5)
  }

  /** Fractional offset `fx = p * inv_dx - base` of one coordinate; in
      [0.5, 1.5) once `p * inv_dx >= 0.5`.  Truncation (rather than floor)
      makes the offset equal `p * inv_dx` itself on [0, 0.5). */
  function Frac(p: real): (f: real)
    ensures p * InvDx >= 0.5 ==> 0.5 <= f < 1.5
    ensures 0.0 <= p * InvDx < 0.5 ==> f == p * InvDx
    ensures -0.5 < f < 1.5
  {
    p * InvDx - BaseIndex(p) as real
  }

  /** The three one-dimensional quadratic B-spline weights at offset `f`.
      They form a partition of unity with vanishing first moment about `f`,
      and are non-negative on [0.5, 1.5). */
  function Weights(f: real): (w: W3)
    ensures UnitTriple(w, f)
    ensures 0.5 <= f < 1.5 ==> w.w0 >= 0.0 && w.w1 >= 0.0 && w.w2 >= 0.0
  {
    var w := W3(0.5 * ((1.5 - f) * (1.5 - f)), 0.75 - (f - 1.0) * (f - 1.0), 0.5 * ((f - 0.5) * (f - 0.5)));
    assert 0.5 <= f < 1.5 ==> w.w0 >= 0.0 && w.w1 >= 0.0 && w.w2 >= 0.0 by {
      if 0.5 <= f < 1.5 {
        SquareNonNegative(1.5 - f);
        SquareBelowQuarter(f - 1.0);
        SquareNonNegative(f - 0.5);
      }
    }
    w
  }

  /** Three weights that sum to one and whose first moment about `f`
      vanishes. */
  predicate UnitTriple(w: W3, f: real) {
    Sum3(w) == 1.0 && Moment3(w, f) == 0.0
  }

  /** Total of three weights. */
  function Sum3(w: W3): real {
    w.At(0) + w.At(1) + w.At(2)
  }

  /** First moment of three weights, placed at 0, 1, 2, about `f`. */
  function Moment3(w: W3, f: real): real {
    Lever(w, 0, f) + Lever(w, 1, f) + Lever(w, 2, f)
  }

  /** Moment of the i-th weight, placed at i, about `f`. */
  function Lever(w: W3, i: int, f: real): real
    requires 0 <= i < 3
  {
    w.At(i) * (i as real - f)
  }

  /** The three weights of one axis. */
  datatype W3 = W3(w0: real, w1: real, w2: real) {
    /** `w[i]` for i in 0..2. */
    function At(i: int): real
      requires 0 <= i < 3
    {
      if i == 0 then w0 else if i == 1 then w1 else w2
    }
  }

  lemma SquareNonNegative(g: real)
    ensures g * g >= 0.0
  {
    if g < 0.0 {
      assert g * g == (-g) * (-g);
    }
  }

  lemma SquareBelowQuarter(g: real)
    requires -0.5 <= g < 0.5
    ensures g * g <= 0.25
  {
    if g >= 0.0 {
      assert g * g <= 0.5 * g;
    } else {
      assert g * g <= -0.5 * g;
    }
  }

  /** The stencil of one particle: base cell, fractional offset and the
      per-axis weights `w[k][0]`, `w[k][1]`. */
  datatype Kernel = Kernel(base: Cell, fx: Vec2, wx: W3, wy: W3)

  /** Both axes' weights are partitions of unity with vanishing first moment. */
  predicate ValidKernel(k: Kernel) {
    UnitTriple(k.wx, k.fx.x) && UnitTriple(k.wy, k.fx.y)
  }

  /** Lines `base = cast(x * inv_dx - 0.5)`, `fx = x * inv_dx - base` and the
      weight list, computed identically by both transfers. */
  function KernelOf(pos: Vec2): (k: Kernel)
    ensures ValidKernel(k)
    ensures pos.x * InvDx >= 0.5 ==> 0.5 <= k.fx.x < 1.5 && k.wx.w0 >= 0.0 && k.wx.w1 >= 0.0 && k.wx.w2 >= 0.0
    ensures pos.y * InvDx >= 0.5 ==> 0.5 <= k.fx.y < 1.5 && k.wy.w0 >= 0.0 && k.wy.w1 >= 0.0 && k.wy.w2 >= 0.0
    ensures pos.x * InvDx >= 0.5 ==> k.base.i == (pos.x * InvDx - 0.5).Floor
    ensures pos.y * InvDx >= 0.5 ==> k.base.j == (pos.y * InvDx - 0.5).Floor
    ensures k.fx.x == pos.x * InvDx - k.base.i as real && k.fx.y == pos.y * InvDx - k.base.j as real
  {
    var fx := Vec2(Frac(pos.x), Frac(pos.y));
    Kernel(Cell(BaseIndex(pos.x), BaseIndex(pos.y)), fx, Weights(fx.x), Weights(fx.y))
  }

  /** The grid cell of stencil node (i, j): `base + (i, j)`. */
  function NodeCell(k: Kernel, i: int, j: int): Cell {
    Cell(k.base.i + i, k.base.j + j)
  }

  /** Weight of stencil node (i, j): `w[i][0] * w[j][1]`. */
  function WeightAt(k: Kernel, i: int, j: int): real
    requires 0 <= i < 3 && 0 <= j < 3
  {
    k.wx.At(i) * k.wy.At(j)
  }

  /** Offset of stencil node (i, j) from the particle, in cell units:
      `(i, j) - fx`. */
  function DposAt(k: Kernel, i: int, j: int): Vec2 {
    Vec2(i as real - k.fx.x, j as real - k.fx.y)
  }

  /** Weighted offset of stencil node (i, j). */
  function NodeMoment(k: Kernel, i: int, j: int): Vec2
    requires 0 <= i < 3 && 0 <= j < 3
  {
    Scale(WeightAt(k, i, j), DposAt(k, i, j))
  }

  /** Sum of the weights of nodes (i, j..2) of stencil row i. */
  function RowWeight(k: Kernel, i: int, j: int): real
    requires 0 <= i < 3 && 0 <= j <= 3
    decreases 3 - j
  {
    if j == 3 then 0.0 else WeightAt(k, i, j) + RowWeight(k, i, j + 1)
  }

  /** Sum of the weights of stencil rows i..2. */
  function WeightSum(k: Kernel, i: int): real
    requires 0 <= i <= 3
    decreases 3 - i
  {
    if i == 3 then 0.0 else RowWeight(k, i, 0) + WeightSum(k, i + 1)
  }

  /** Sum of the weighted offsets of nodes (i, j..2) of stencil row i. */
  function RowMoment(k: Kernel, i: int, j: int): Vec2
    requires 0 <= i < 3 && 0 <= j <= 3
    decreases 3 - j
  {
    if j == 3 then Zero else Add(NodeMoment(k, i, j), RowMoment(k, i, j + 1))
  }

  /** Sum of the weighted offsets of stencil rows i..2. */
  function MomentSum(k: Kernel, i: int): Vec2
    requires 0 <= i <= 3
    decreases 3 - i
  {
    if i == 3 then Zero else Add(RowMoment(k, i, 0), MomentSum(k, i + 1))
  }

  /** The two-dimensional stencil inherits partition of unity and the
      vanishing first moment from the one-dimensional weights. */
  lemma StencilMoments(k: Kernel)
    requires ValidKernel(k)
    ensures WeightSum(k, 0) == 1.0
    ensures MomentSum(k, 0) == Zero
  {
    RowWeightUnit(k, 0); RowWeightUnit(k, 1); RowWeightUnit(k, 2);
    assert WeightSum(k, 2) == RowWeight(k, 2, 0);
    RowMomentUnit(k, 0); RowMomentUnit(k, 1); RowMomentUnit(k, 2);
    assert MomentSum(k, 2) == RowMoment(k, 2, 0);
  }

  /** When the second axis' weights sum to one, the weights of stencil row
      i add up to the first axis' weight `w[i][0]`. */
  lemma RowWeightUnit(k: Kernel, i: int)
    requires 0 <= i < 3 && Sum3(k.wy) == 1.0
    ensures RowWeight(k, i, 0) == k.wx.At(i)
  {
    var c, b0, b1, b2 := k.wx.At(i), k.wy.At(0), k.wy.At(1), k.wy.At(2);
    assert RowWeight(k, i, 0) == c * b0 + c * b1 + c * b2 by {
      assert RowWeight(k, i, 2) == WeightAt(k, i, 2);
    }
    assert c * b0 + c * b1 + c * b2 == c * (b0 + b1 + b2);
  }

  /** When the second axis' weights are a unit triple, the weighted offsets
      of stencil row i add up to the first axis' lever `w[i][0] * (i - fx)`
      across and nothing along the second axis. */
  lemma RowMomentUnit(k: Kernel, i: int)
    requires 0 <= i < 3 && UnitTriple(k.wy, k.fx.y)
    ensures RowMoment(k, i, 0) == Vec2(Lever(k.wx, i, k.fx.x), 0.0)
  {
    var c, b0, b1, b2 := k.wx.At(i), k.wy.At(0), k.wy.At(1), k.wy.At(2);
    var d, g := i as real - k.fx.x, k.fx.y;
    assert RowMoment(k, i, 0).x == (c * b0) * d + (c * b1) * d + (c * b2) * d by {
      assert RowMoment(k, i, 2) == NodeMoment(k, i, 2);
    }
    assert (c * b0) * d + (c * b1) * d + (c * b2) * d == (c * d) * (b0 + b1 + b2);
    assert RowMoment(k, i, 0).y == (c * b0) * (0.0 - g) + (c * b1) * (1.0 - g) + (c * b2) * (2.0 - g) by {
      assert RowMoment(k, i, 2) == NodeMoment(k, i, 2);
    }
    assert (c * b0) * (0.0 - g) + (c * b1) * (1.0 - g) + (c * b2) * (2.0 - g)
        == c * (b0 * (0.0 - g) + b1 * (1.0 - g) + b2 * (2.0 - g));
  }

  /** Second moment of three weights, placed at 0, 1, 2, about `f`. */
  function Second3(w: W3, f: real): real {
    w.At(0) * ((0.0 - f) * (0.0 - f)) + w.At(1) * ((1.0 - f) * (1.0 - f)) + w.At(2) * ((2.0 - f) * (2.0 - f))
  }

  /** The quadratic B-spline weights have second moment 1/4 about their
      offset, whatever the offset: the kernel spreads a particle over a
      quarter of a squared cell width on each axis. */
  lemma WeightsSecondMoment(f: real)
    ensures Second3(Weights(f), f) == 0.25
  {
    var g := f - 1.0;
    var a, b := 0.5 - g * g, 0.5 * g;
    assert (1.5 - f) * (0.0 - f) == -(a - b);
    assert (f - 0.5) * (2.0 - f) == a + b;
    var w := Weights(f);
    assert w.At(0) * ((0.0 - f) * (0.0 - f)) == 0.5 * ((a - b) * (a - b));
    assert w.At(2) * ((2.0 - f) * (2.0 - f)) == 0.5 * ((a + b) * (a + b));
    assert w.At(1) * ((1.0 - f) * (1.0 - f)) == (0.75 - g * g) * (g * g);
    assert 0.5 * ((a - b) * (a - b)) + 0.5 * ((a + b) * (a + b)) == a * a + b * b;
    assert a * a == 0.25 - g * g + (g * g) * (g * g);
  }

  /** Both axes of a particle's stencil have second moment 1/4. */
  lemma KernelSecondMoment(pos: Vec2)
    ensures Second3(KernelOf(pos).wx, KernelOf(pos).fx.x) == 0.25
    ensures Second3(KernelOf(pos).wy, KernelOf(pos).fx.y) == 0.25
  {
    WeightsSecondMoment(Frac(pos.x));
    WeightsSecondMoment(Frac(pos.y));
  }

  /** Weighted outer square of the offset of stencil node (i, j). */
  function NodeSecond(k: Kernel, i: int, j: int): Mat2
    requires 0 <= i < 3 && 0 <= j < 3
  {
    MatScale(WeightAt(k, i, j), Outer(DposAt(k, i, j), DposAt(k, i, j)))
  }

  /** Sum of the weighted outer squares of nodes (i, j..2) of row i. */
  function RowSecond(k: Kernel, i: int, j: int): Mat2
    requires 0 <= i < 3 && 0 <= j <= 3
    decreases 3 - j
  {
    if j == 3 then ZeroMat else MatAdd(NodeSecond(k, i, j), RowSecond(k, i, j + 1))
  }

  /** Sum of the weighted outer squares of stencil rows i..2. */
  function SecondSum(k: Kernel, i: int): Mat2
    requires 0 <= i <= 3
    decreases 3 - i
  {
    if i == 3 then ZeroMat else MatAdd(RowSecond(k, i, 0), SecondSum(k, i + 1))
  }

  /** When the second axis has unit weight, zero first moment and second
      moment 1/4, the weighted outer squares of row i add up to a diagonal
      matrix: `c * d^2` and `c / 4` for the first axis' weight `c = w[i][0]`
      and offset `d = i - fx`. */
  lemma RowSecondUnit(k: Kernel, i: int, c: real, d: real)
    requires 0 <= i < 3 && UnitTriple(k.wy, k.fx.y) && Second3(k.wy, k.fx.y) == 0.25
    requires c == k.wx.At(i) && d == i as real - k.fx.x
    ensures RowSecond(k, i, 0) == Mat2(c * (d * d), 0.0, 0.0, c * 0.25)
  {
    var b0, b1, b2 := k.wy.At(0), k.wy.At(1), k.wy.At(2);
    var e0, e1, e2 := 0.0 - k.fx.y, 1.0 - k.fx.y, 2.0 - k.fx.y;
    AxisMoments(k.wy, k.fx.y, b0, b1, b2, e0, e1, e2);
    RowSecondEntries(k, i, c, b0, b1, b2, d, e0, e1, e2);
    var r := RowSecond(k, i, 0);
    SumSame(r.a, c, d * d, b0, b1, b2);
    SumPairs(r.b, c, d, b0, b1, b2, e0, e1, e2);
    SumPairs(r.c, c, d, b0, b1, b2, e0, e1, e2);
    SumSquares(r.d, c, b0, b1, b2, e0, e1, e2);
  }

  /** The entries of row i's weighted outer squares, node by node, for the
      first axis' weight `c` and offset `d` and the second axis' weights
      `b_j` and offsets `e_j`. */
  lemma RowSecondEntries(k: Kernel, i: int, c: real, b0: real, b1: real, b2: real,
                         d: real, e0: real, e1: real, e2: real)
    requires 0 <= i < 3 && c == k.wx.At(i) && d == i as real - k.fx.x
    requires b0 == k.wy.At(0) && b1 == k.wy.At(1) && b2 == k.wy.At(2)
    requires e0 == 0.0 - k.fx.y && e1 == 1.0 - k.fx.y && e2 == 2.0 - k.fx.y
    ensures RowSecond(k, i, 0).a == (c * b0) * (d * d) + ((c * b1) * (d * d) + ((c * b2) * (d * d) + 0.0))
    ensures RowSecond(k, i, 0).b == (c * b0) * (d * e0) + ((c * b1) * (d * e1) + ((c * b2) * (d * e2) + 0.0))
    ensures RowSecond(k, i, 0).c == (c * b0) * (e0 * d) + ((c * b1) * (e1 * d) + ((c * b2) * (e2 * d) + 0.0))
    ensures RowSecond(k, i, 0).d == (c * b0) * (e0 * e0) + ((c * b1) * (e1 * e1) + ((c * b2) * (e2 * e2) + 0.0))
  {
    var n0, n1, n2 := NodeSecond(k, i, 0), NodeSecond(k, i, 1), NodeSecond(k, i, 2);
    NodeSecondAt(k, i, 0, c, b0, d, e0);
    NodeSecondAt(k, i, 1, c, b1, d, e1);
    NodeSecondAt(k, i, 2, c, b2, d, e2);
    assert RowSecond(k, i, 2) == MatAdd(n2, ZeroMat);
    assert RowSecond(k, i, 1) == MatAdd(n1, RowSecond(k, i, 2));
    assert RowSecond(k, i, 0) == MatAdd(n0, RowSecond(k, i, 1));
  }

  /** The three moments of one axis, weight by weight: `b_j = w[j]` and
      `e_j = j - f`. */
  lemma AxisMoments(w: W3, f: real, b0: real, b1: real, b2: real, e0: real, e1: real, e2: real)
    requires UnitTriple(w, f) && Second3(w, f) == 0.25
    requires b0 == w.At(0) && b1 == w.At(1) && b2 == w.At(2)
    requires e0 == 0.0 - f && e1 == 1.0 - f && e2 == 2.0 - f
    ensures b0 + b1 + b2 == 1.0
    ensures b0 * e0 + b1 * e1 + b2 * e2 == 0.0
    ensures b0 * (e0 * e0) + b1 * (e1 * e1) + b2 * (e2 * e2) == 0.25
  {
    assert Lever(w, 0, f) == b0 * e0;
    assert Lever(w, 1, f) == b1 * e1;
    assert Lever(w, 2, f) == b2 * e2;
  }

  /** An entry `c * b_j * x` summed over a row of unit total weight is
      `c * x`. */
  lemma SumSame(s: real, c: real, x: real, b0: real, b1: real, b2: real)
    requires s == (c * b0) * x + ((c * b1) * x + ((c * b2) * x + 0.0)) && b0 + b1 + b2 == 1.0
    ensures s == c * x
  {
    assert s == (c * x) * (b0 + b1 + b2);
  }

  /** A mixed entry `c * b_j * d * e_j`, in either order of the offsets,
      summed over a row of zero first moment vanishes. */
  lemma SumPairs(s: real, c: real, d: real, b0: real, b1: real, b2: real, e0: real, e1: real, e2: real)
    requires s == (c * b0) * (d * e0) + ((c * b1) * (d * e1) + ((c * b2) * (d * e2) + 0.0))
          || s == (c * b0) * (e0 * d) + ((c * b1) * (e1 * d) + ((c * b2) * (e2 * d) + 0.0))
    requires b0 * e0 + b1 * e1 + b2 * e2 == 0.0
    ensures s == 0.0
  {
    assert s == (c * d) * (b0 * e0 + b1 * e1 + b2 * e2);
  }

  /** A squared entry `c * b_j * e_j^2` summed over a row of second moment
      1/4 is `c / 4`. */
  lemma SumSquares(s: real, c: real, b0: real, b1: real, b2: real, e0: real, e1: real, e2: real)
    requires s == (c * b0) * (e0 * e0) + ((c * b1) * (e1 * e1) + ((c * b2) * (e2 * e2) + 0.0))
    requires b0 * (e0 * e0) + b1 * (e1 * e1) + b2 * (e2 * e2) == 0.25
    ensures s == c * 0.25
  {
    assert s == c * (b0 * (e0 * e0) + b1 * (e1 * e1) + b2 * (e2 * e2));
  }

  /** The entries of one node's weighted outer square, for weight factors
      `c`, `b` and offset `(d, e)`. */
  lemma NodeSecondAt(k: Kernel, i: int, j: int, c: real, b: real, d: real, e: real)
    requires 0 <= i < 3 && 0 <= j < 3
    requires c == k.wx.At(i) && b == k.wy.At(j) && d == i as real - k.fx.x && e == j as real - k.fx.y
    ensures NodeSecond(k, i, j) == Mat2((c * b) * (d * d), (c * b) * (d * e), (c * b) * (e * d), (c * b) * (e * e))
  {
    assert WeightAt(k, i, j) == c * b;
    assert DposAt(k, i, j) == Vec2(d, e);
  }

  /** The stencil's weighted outer squares of the offsets add up to a
      quarter of the identity. */
  lemma StencilSecond(k: Kernel)
    requires ValidKernel(k) && Second3(k.wx, k.fx.x) == 0.25 && Second3(k.wy, k.fx.y) == 0.25
    ensures SecondSum(k, 0) == Mat2(0.25, 0.0, 0.0, 0.25)
  {
    var a0, a1, a2 := k.wx.At(0), k.wx.At(1), k.wx.At(2);
    var d0, d1, d2 := 0.0 - k.fx.x, 1.0 - k.fx.x, 2.0 - k.fx.x;
    AxisMoments(k.wx, k.fx.x, a0, a1, a2, d0, d1, d2);
    RowSecondUnit(k, 0, a0, d0); RowSecondUnit(k, 1, a1, d1); RowSecondUnit(k, 2, a2, d2);
    var r0, r1, r2 := RowSecond(k, 0, 0), RowSecond(k, 1, 0), RowSecond(k, 2, 0);
    assert SecondSum(k, 2) == MatAdd(r2, ZeroMat);
    assert SecondSum(k, 1) == MatAdd(r1, SecondSum(k, 2));
    assert SecondSum(k, 0) == MatAdd(r0, SecondSum(k, 1));
  }

  /** The whole 3x3 stencil of a particle lies inside the grid. */
  predicate StencilInGrid(k: Kernel) {
    0 <= k.base.i && k.base.i + 2 < NGrid && 0 <= k.base.j && k.base.j + 2 < NGrid
  }

  /** Just above the origin truncation picks base cell 0 where the floor
      would pick -1, and the middle weight there is negative: at `x = 0`
      the offset is 0 and that weight is 0.75 - 1 = -0.25. */
  lemma NegativeWeightAtOrigin()
    ensures KernelOf(Zero).base == Cell(0, 0)
    ensures KernelOf(Zero).fx == Zero
    ensures KernelOf(Zero).wx.w1 == -0.25
  {
    OriginKernel();
    OriginMiddleWeight();
  }

  lemma OriginKernel()
    ensures KernelOf(Zero) == Kernel(Cell(0, 0), Zero, Weights(0.0), Weights(0.0))
  {
    OriginOffset();
  }

  lemma OriginMiddleWeight()
    ensures Weights(0.0).w1 == -0.25
  {
  }

  lemma OriginOffset()
    ensures BaseIndex(0.0) == 0 && Frac(0.0) == 0.0
  {
    assert 0.0 * InvDx == 0.0;
  }

}
