/** Two-dimensional real vectors and 2x2 real matrices: the `ti.Vector` and
    `ti.Matrix` values the simulator manipulates, over idealised reals. */
module Linalg {

  datatype Vec2 = Vec2(x: real, y: real)

  /** A 2x2 matrix stored by rows: [[a, b], [c, d]]. */
  datatype Mat2 = Mat2(a: real, b: real, c: real, d: real)

  const Zero: Vec2 := Vec2(0.0, 0.0)
  const ZeroMat: Mat2 := Mat2(0.0, 0.0, 0.0, 0.0)

  function Add(u: Vec2, v: Vec2): Vec2 {
    Vec2(u.x + v.x, u.y + v.y)
  }

  function Sub(u: Vec2, v: Vec2): Vec2 {
    Vec2(u.x - v.x, u.y - v.y)
  }

  function Scale(s: real, u: Vec2): Vec2 {
    Vec2(s * u.x, s * u.y)
  }

  function Dot(u: Vec2, v: Vec2): real {
    u.x * v.x + u.y * v.y
  }

  function MatAdd(m: Mat2, n: Mat2): Mat2 {
    Mat2(m.a + n.a, m.b + n.b, m.c + n.c, m.d + n.d)
  }

  function MatScale(s: real, m: Mat2): Mat2 {
    Mat2(s * m.a, s * m.b, s * m.c, s * m.d)
  }

  /** Matrix-vector product `m @ u`. */
  function Apply(m: Mat2, u: Vec2): Vec2 {
    Vec2(m.a * u.x + m.b * u.y, m.c * u.x + m.d * u.y)
  }

  /** Matrix product `m @ n`. */
  function MatMul(m: Mat2, n: Mat2): Mat2 {
    Mat2(m.a * n.a + m.b * n.c, m.a * n.b + m.b * n.d, m.c * n.a + m.d * n.c, m.c * n.b + m.d * n.d)
  }

  /** `u.outer_product(v)`: the matrix whose (r, s) entry is u[r] * v[s]. */
  function Outer(u: Vec2, v: Vec2): Mat2 {
    Mat2(u.x * v.x, u.x * v.y, u.y * v.x, u.y * v.y)
  }

  /** Scaling is linear in the scalar. */
  lemma ScaleSumOfScalars(a: real, b: real, u: Vec2)
    ensures Scale(a + b, u) == Add(Scale(a, u), Scale(b, u))
  {
  }

  /** Scaling distributes over vector addition. */
  lemma ScaleAdd(s: real, u: Vec2, v: Vec2)
    ensures Scale(s, Add(u, v)) == Add(Scale(s, u), Scale(s, v))
  {
  }

  /** `m @ (u + v) == m @ u + m @ v`. */
  lemma ApplyAdd(m: Mat2, u: Vec2, v: Vec2)
    ensures Apply(m, Add(u, v)) == Add(Apply(m, u), Apply(m, v))
  {
  }

  /** A scalar factor passes through a scaled matrix-vector product:
      `s * (m @ (h * u)) == m @ (h * (s * u))`. */
  lemma ScaleThroughApply(s: real, m: Mat2, h: real, u: Vec2)
    ensures Scale(s, Apply(m, Scale(h, u))) == Apply(m, Scale(h, Scale(s, u)))
  {
    var l, r := Scale(s, Apply(m, Scale(h, u))), Apply(m, Scale(h, Scale(s, u)));
    assert l.x == r.x;
    assert l.y == r.y;
  }

  /** A matrix maps a scaled zero vector to zero. */
  lemma ApplyScaledZero(m: Mat2, h: real)
    ensures Apply(m, Scale(h, Zero)) == Zero
  {
  }

  /** `m @ (n + n') == m @ n + m @ n'`. */
  lemma MatMulAdd(m: Mat2, n: Mat2, n': Mat2)
    ensures MatMul(m, MatAdd(n, n')) == MatAdd(MatMul(m, n), MatMul(m, n'))
  {
  }

  /** The outer product is linear in its second factor. */
  lemma OuterAdd(u: Vec2, v: Vec2, v': Vec2)
    ensures Outer(u, Add(v, v')) == MatAdd(Outer(u, v), Outer(u, v'))
  {
  }

  /** The outer product is linear in its first factor. */
  lemma OuterAddLeft(u: Vec2, u': Vec2, v: Vec2)
    ensures Outer(Add(u, u'), v) == MatAdd(Outer(u, v), Outer(u', v))
  {
  }

  /** `(m @ u) (x) v == m @ (u (x) v)`. */
  lemma OuterApply(m: Mat2, u: Vec2, v: Vec2)
    ensures Outer(Apply(m, u), v) == MatMul(m, Outer(u, v))
  {
    calc {
      Outer(Apply(m, u), v);
      Mat2((m.a * u.x + m.b * u.y) * v.x, (m.a * u.x + m.b * u.y) * v.y,
           (m.c * u.x + m.d * u.y) * v.x, (m.c * u.x + m.d * u.y) * v.y);
      Mat2(m.a * (u.x * v.x) + m.b * (u.y * v.x), m.a * (u.x * v.y) + m.b * (u.y * v.y),
           m.c * (u.x * v.x) + m.d * (u.y * v.x), m.c * (u.x * v.y) + m.d * (u.y * v.y));
      MatMul(m, Outer(u, v));
    }
  }

  /** A scalar on either factor of an outer product scales the product. */
  lemma OuterScale(h: real, u: Vec2, v: Vec2)
    ensures Outer(Scale(h, u), v) == MatScale(h, Outer(u, v))
    ensures Outer(u, Scale(h, v)) == MatScale(h, Outer(u, v))
  {
    var l, r, l' := Outer(Scale(h, u), v), MatScale(h, Outer(u, v)), Outer(u, Scale(h, v));
    assert l.a == r.a && l.b == r.b && l.c == r.c && l.d == r.d;
    assert l'.a == r.a && l'.b == r.b && l'.c == r.c && l'.d == r.d;
  }

  /** A scalar passes through a matrix product. */
  lemma MatMulScale(m: Mat2, h: real, n: Mat2)
    ensures MatMul(m, MatScale(h, n)) == MatScale(h, MatMul(m, n))
  {
    calc {
      MatMul(m, MatScale(h, n));
      Mat2(m.a * (h * n.a) + m.b * (h * n.c), m.a * (h * n.b) + m.b * (h * n.d),
           m.c * (h * n.a) + m.d * (h * n.c), m.c * (h * n.b) + m.d * (h * n.d));
      Mat2(h * (m.a * n.a + m.b * n.c), h * (m.a * n.b + m.b * n.d),
           h * (m.c * n.a + m.d * n.c), h * (m.c * n.b + m.d * n.d));
      MatScale(h, MatMul(m, n));
    }
  }

  /** Scaling twice scales by the product. */
  lemma MatScaleScale(h: real, h': real, m: Mat2)
    ensures MatScale(h, MatScale(h', m)) == MatScale(h * h', m)
  {
    var l, r := MatScale(h, MatScale(h', m)), MatScale(h * h', m);
    assert l.a == r.a;
    assert l.b == r.b;
    assert l.c == r.c;
    assert l.d == r.d;
  }

  /** Scaling distributes over matrix addition. */
  lemma MatScaleAdd(h: real, m: Mat2, n: Mat2)
    ensures MatScale(h, MatAdd(m, n)) == MatAdd(MatScale(h, m), MatScale(h, n))
  {
  }
}
