/** The morphology builder `Scene`: it fills rectangles with particles, lays
    out a robot from a seed matrix of actuator labels, and publishes the
    particle counts the kernels use. */
module Scenes {
  import opened Linalg
  import opened Params

  /** The builder's state: the counters, the three per-particle lists that
      grow together, and the offset added to every new position. */
  datatype Scene = Scene(nParticles: int, nSolid: int, x: seq<Vec2>, actuatorId: seq<int>, ptype: seq<int>, offset: Vec2)

  /** The exceptions `add_rect` can raise: the failed `assert` of a fluid
      rectangle with an actuator, and the division by a zero particle
      count. */
  datatype SceneError = AssertionError | ZeroDivisionError

  datatype Outcome = Ok(scene: Scene) | Fail(error: SceneError)

  /** The counts `n_particles`, `n_solid_particles` that `finalize`
      publishes to the kernels. */
  datatype Counts = Counts(nParticles: int, nSolid: int)

  /** The number of solid entries (`ptype == 1`) in a type list. */
  function SolidTypes(ts: seq<int>): nat
    decreases |ts|
  {
    if |ts| == 0 then 0 else (if ts[0] == 1 then 1 else 0) + SolidTypes(ts[1..])
  }

  /** The counters agree with the lists, and the lists have one entry per
      particle. */
  predicate Consistent(s: Scene) {
    && |s.x| == s.nParticles
    && |s.actuatorId| == s.nParticles
    && |s.ptype| == s.nParticles
    && s.nSolid == SolidTypes(s.ptype)
  }

  /** `Scene()`: no particles, zero offset. */
  function NewScene(): (s: Scene)
    ensures Consistent(s) && s.nParticles == 0 && s.nSolid == 0 && s.offset == Zero
  {
    Scene(0, 0, [], [], [], Zero)
  }

  /** `set_offset`: only the offset changes. */
  function SetOffset(s: Scene, ox: real, oy: real): (t: Scene)
    ensures t.offset == Vec2(ox, oy)
    ensures t == s.(offset := t.offset)
    ensures Consistent(s) ==> Consistent(t)
  {
    s.(offset := Vec2(ox, oy))
  }

  /** `finalize`: the published counts are the number of particles and the
      number of solid particles of a consistent scene. */
  function Finalize(s: Scene): (c: Counts)
    ensures Consistent(s) ==> c.nParticles == |s.x| && c.nSolid == SolidTypes(s.ptype)
  {
    Counts(s.nParticles, s.nSolid)
  }

  /** `int(w / dx) * 2`: Python's `int` truncates toward zero. */
  function SideCount(w: real): int {
    Trunc(w / Dx) * 2
  }

  /** The particles a `w_count x h_count` rectangle appends: `range` of a
      negative count is empty. */
  function Spawned(wc: int, hc: int): nat {
    if wc > 0 && hc > 0 then wc * hc else 0
  }

  /** `v` repeated `n` times. */
  function Repeat(v: int, n: nat): (r: seq<int>)
    ensures |r| == n && forall m :: 0 <= m < n ==> r[m] == v
  {
    seq(n, _ => v)
  }

  /** The position of particle (i, j) of a rectangle at (x, y) with spacing
      (rdx, rdy): the centre of its sub-cell, shifted by the offset. */
  function RectPos(x: real, y: real, i: int, j: int, rdx: real, rdy: real, off: Vec2): Vec2 {
    Vec2(x + (i as real + 0.5) * rdx + off.x, y + (j as real + 0.5) * rdy + off.y)
  }

  /** The rows of a matrix concatenated in order. */
  function Flatten(m: seq<seq<Vec2>>): seq<Vec2>
    decreases |m|
  {
    if |m| == 0 then [] else m[0] + Flatten(m[1..])
  }

  /** The positions of a rectangle as rows `i` of columns `j`. */
  function RectRows(x: real, y: real, rdx: real, rdy: real, off: Vec2, wc: int, hc: int): (m: seq<seq<Vec2>>)
    ensures |m| == (if wc > 0 then wc else 0)
    ensures forall i :: 0 <= i < |m| ==> |m[i]| == (if hc > 0 then hc else 0)
  {
    seq(if wc > 0 then wc else 0, i =>
      seq(if hc > 0 then hc else 0, j => RectPos(x, y, i, j, rdx, rdy, off)))
  }

  /** The positions of a rectangle, in the loop order `for i: for j`. */
  function RectBlock(x: real, y: real, rdx: real, rdy: real, off: Vec2, wc: int, hc: int): (b: seq<Vec2>)
    ensures |b| == Spawned(wc, hc)
  {
    var m := RectRows(x, y, rdx, rdy, off, wc, hc);
    FlattenLength(m, if hc > 0 then hc else 0);
    Flatten(m)
  }

  /** `add_rect`: a fluid rectangle must carry actuator -1; a side with
      `|w| < dx`, where `int(w / dx)` is 0, divides by zero; otherwise
      `w_count * h_count` particles are appended to the three lists
      together, each with the given actuator and material. A side of minus
      one cell or less gives a negative count, and the call appends
      nothing. */
  function AddRect(s: Scene, x: real, y: real, w: real, h: real, actuation: int, ptype: int): (r: Outcome)
    ensures r.Fail? <==> (ptype == 0 && actuation != -1) || SideCount(w) == 0 || SideCount(h) == 0
    ensures ptype == 0 && actuation != -1 ==> r == Fail(AssertionError)
    ensures r.Fail? && !(ptype == 0 && actuation != -1) ==> r.error == ZeroDivisionError
    ensures r.Ok? ==>
      var c := Spawned(SideCount(w), SideCount(h));
      && |r.scene.x| == |s.x| + c && r.scene.x[..|s.x|] == s.x
      && r.scene.x == s.x + RectBlock(x, y, w / SideCount(w) as real, h / SideCount(h) as real, s.offset, SideCount(w), SideCount(h))
      && r.scene.actuatorId == s.actuatorId + Repeat(actuation, c)
      && r.scene.ptype == s.ptype + Repeat(ptype, c)
      && r.scene.nParticles == s.nParticles + c
      && r.scene.nSolid == s.nSolid + (if ptype == 1 then c else 0)
      && r.scene.offset == s.offset
  {
    if ptype == 0 && actuation != -1 then Fail(AssertionError)
    else
      var wc, hc := SideCount(w), SideCount(h);
      if wc == 0 || hc == 0 then Fail(ZeroDivisionError)
      else
        var c := Spawned(wc, hc);
        var block := RectBlock(x, y, w / wc as real, h / hc as real, s.offset, wc, hc);
        assert (s.x + block)[..|s.x|] == s.x;
        Ok(Scene(s.nParticles + c, s.nSolid + (if ptype == 1 then c else 0),
                 s.x + block, s.actuatorId + Repeat(actuation, c), s.ptype + Repeat(ptype, c), s.offset))
  }

  /** Particle (i, j) of a successful `add_rect` sits at index
      `i * h_count + j` past the old particles, at the centre of sub-cell
      (i, j) of the rectangle: spacing `w / w_count` by `h / h_count`. */
  lemma RectLayout(s: Scene, x: real, y: real, w: real, h: real, actuation: int, ptype: int, i: int, j: int)
    requires !(ptype == 0 && actuation != -1)
    requires 0 <= i < SideCount(w) && 0 <= j < SideCount(h)
    ensures AddRect(s, x, y, w, h, actuation, ptype).Ok?
    ensures
      var wc, hc, t := SideCount(w), SideCount(h), AddRect(s, x, y, w, h, actuation, ptype).scene;
      && |s.x| + i * hc + j < |t.x|
      && t.x[|s.x| + i * hc + j] == RectPos(x, y, i, j, w / wc as real, h / hc as real, s.offset)
  {
    var wc, hc := SideCount(w), SideCount(h);
    var rdx, rdy := w / wc as real, h / hc as real;
    var t := AddRect(s, x, y, w, h, actuation, ptype).scene;
    var b := RectBlock(x, y, rdx, rdy, s.offset, wc, hc);
    assert t.x == s.x + b;
    BlockIndex(x, y, rdx, rdy, s.offset, wc, hc, i, j);
    assert t.x[|s.x| + i * hc + j] == b[i * hc + j];
  }

  /** Entry (i, j) of a rectangle's positions sits at index `i * hc + j`. */
  lemma BlockIndex(x: real, y: real, rdx: real, rdy: real, off: Vec2, wc: int, hc: int, i: int, j: int)
    requires 0 <= i < wc && 0 <= j < hc
    ensures i * hc + j < |RectBlock(x, y, rdx, rdy, off, wc, hc)|
    ensures RectBlock(x, y, rdx, rdy, off, wc, hc)[i * hc + j] == RectPos(x, y, i, j, rdx, rdy, off)
  {
    var m := RectRows(x, y, rdx, rdy, off, wc, hc);
    FlattenIndex(m, hc, i, j);
    assert m[i][j] == RectPos(x, y, i, j, rdx, rdy, off);
  }

  /** `add_rect` keeps the counters and the lists in step. */
  lemma AddRectConsistent(s: Scene, x: real, y: real, w: real, h: real, actuation: int, ptype: int)
    requires Consistent(s)
    ensures AddRect(s, x, y, w, h, actuation, ptype).Ok? ==> Consistent(AddRect(s, x, y, w, h, actuation, ptype).scene)
  {
    var r := AddRect(s, x, y, w, h, actuation, ptype);
    if r.Ok? {
      var c := Spawned(SideCount(w), SideCount(h));
      SolidTypesAppend(s.ptype, Repeat(ptype, c));
      SolidTypesRepeat(ptype, c);
    }
  }

  /** The labels of the cells of `row`, from column c on, that get a
      rectangle: those below `num_actuators` (so -1, a passive cell, does
      too), in column order. Exactly the labels of those cells occur. */
  function QualRow(row: seq<int>, c: nat, numAct: int): (q: seq<int>)
    requires c <= |row|
    ensures forall n :: 0 <= n < |q| ==> q[n] < numAct
    ensures forall v :: v in q <==> v < numAct && exists col :: c <= col < |row| && row[col] == v
    decreases |row| - c
  {
    if c == |row| then []
    else
      var rest := QualRow(row, c + 1, numAct);
      (if row[c] < numAct then [row[c]] else []) + rest
  }

  /** The same for the rows of `seed` from row r on, in row-major order. */
  function QualRows(seed: seq<seq<int>>, r: nat, numAct: int): (q: seq<int>)
    requires r <= |seed|
    ensures forall n :: 0 <= n < |q| ==> q[n] < numAct
    decreases |seed| - r
  {
    if r == |seed| then [] else QualRow(seed[r], 0, numAct) + QualRows(seed, r + 1, numAct)
  }

  /** Each label repeated n times, in order. */
  function Expand(vals: seq<int>, n: nat): (e: seq<int>)
    ensures |e| == |vals| * n
    decreases |vals|
  {
    if |vals| == 0 then []
    else
      var rest := Expand(vals[1..], n);
      assert |vals| * n == n + (|vals| - 1) * n;
      Repeat(vals[0], n) + rest
  }

  /** `t` is `s` after `k` solid particles were appended for each label of
      `vals` in turn, each batch with its label as actuator. */
  predicate Grown(s: Scene, t: Scene, vals: seq<int>, k: nat) {
    && |t.x| == |s.x| + |vals| * k && t.x[..|s.x|] == s.x
    && t.actuatorId == s.actuatorId + Expand(vals, k)
    && t.ptype == s.ptype + Repeat(1, |vals| * k)
    && t.nParticles == s.nParticles + |vals| * k
    && t.nSolid == s.nSolid + |vals| * k
    && t.offset == s.offset
  }

  /** The particles per `unit_size` square. */
  function UnitSpawn(unit: real): nat {
    Spawned(SideCount(unit), SideCount(unit))
  }

  /** A width of `-dx` or less gives a negative `w_count`: `add_rect` does
      not divide by zero, and the empty `range` leaves the scene as it was. */
  lemma NegativeWidth(s: Scene, x: real, y: real, w: real, h: real, actuation: int, ptype: int)
    requires !(ptype == 0 && actuation != -1) && SideCount(h) != 0
    requires w <= -Dx
    ensures SideCount(w) <= -2
    ensures AddRect(s, x, y, w, h, actuation, ptype) == Ok(s)
  {
  }

  /** The positions `add_rect` gives a `unit_size` square at (x, y). */
  function Square(x: real, y: real, unit: real, off: Vec2): (b: seq<Vec2>)
    ensures |b| == UnitSpawn(unit)
  {
    var n := SideCount(unit);
    if n == 0 then [] else RectBlock(x, y, unit / n as real, unit / n as real, off, n, n)
  }

  /** The squares of the cells of `row`, from column c on, whose label is
      below `num_actuators`: column `col` at `x + col * unit_size`. */
  function RowSquares(x: real, rowOffset: real, unit: real, row: seq<int>, c: nat, numAct: int, off: Vec2): seq<Vec2>
    requires c <= |row|
    decreases |row| - c
  {
    if c == |row| then []
    else
      (if row[c] < numAct then Square(x + c as real * unit, rowOffset, unit, off) else [])
      + RowSquares(x, rowOffset, unit, row, c + 1, numAct, off)
  }

  /** The squares of the rows of `seed` from row r on: row `row` at
      `y - row * unit_size`. */
  function SeedSquares(x: real, y: real, unit: real, seed: seq<seq<int>>, r: nat, numAct: int, off: Vec2): seq<Vec2>
    requires r <= |seed|
    decreases |seed| - r
  {
    if r == |seed| then []
    else RowSquares(x, y - r as real * unit, unit, seed[r], 0, numAct, off) + SeedSquares(x, y, unit, seed, r + 1, numAct, off)
  }

  /** The inner loop of `procedural` over the cells of one row, from column
      c on: a square of side `unit_size` for every cell below
      `num_actuators`, solid, with the cell's label as actuator. */
  function ProceduralRow(s: Scene, x: real, rowOffset: real, unit: real, row: seq<int>, c: nat, numAct: int): (r: Outcome)
    requires c <= |row|
    ensures r.Fail? <==> |QualRow(row, c, numAct)| > 0 && SideCount(unit) == 0
    ensures r.Fail? ==> r.error == ZeroDivisionError
    ensures r.Ok? ==> Grown(s, r.scene, QualRow(row, c, numAct), UnitSpawn(unit))
    ensures r.Ok? ==> r.scene.x == s.x + RowSquares(x, rowOffset, unit, row, c, numAct, s.offset)
    decreases |row| - c
  {
    if c == |row| then
      GrownNothing(s, UnitSpawn(unit));
      Ok(s)
    else if row[c] < numAct then
      match AddRect(s, x + c as real * unit, rowOffset, unit, unit, row[c], 1)
      case Fail(e) => Fail(e)
      case Ok(t) =>
        var r := ProceduralRow(t, x, rowOffset, unit, row, c + 1, numAct);
        if r.Ok? then
          RowStep(s, t, r.scene, x, rowOffset, unit, row, c, numAct);
          r
        else r
    else
      RowSkip(x, rowOffset, unit, row, c, numAct, s.offset);
      ProceduralRow(s, x, rowOffset, unit, row, c + 1, numAct)
  }

  /** The outer loop of `procedural`, from row r on: row r sits
      `r * unit_size` below y. */
  function ProceduralRows(s: Scene, x: real, y: real, unit: real, seed: seq<seq<int>>, r: nat, numAct: int): (o: Outcome)
    requires r <= |seed|
    ensures o.Fail? <==> |QualRows(seed, r, numAct)| > 0 && SideCount(unit) == 0
    ensures o.Fail? ==> o.error == ZeroDivisionError
    ensures o.Ok? ==> Grown(s, o.scene, QualRows(seed, r, numAct), UnitSpawn(unit))
    ensures o.Ok? ==> o.scene.x == s.x + SeedSquares(x, y, unit, seed, r, numAct, s.offset)
    decreases |seed| - r
  {
    if r == |seed| then
      GrownNothing(s, UnitSpawn(unit));
      Ok(s)
    else
      match ProceduralRow(s, x, y - r as real * unit, unit, seed[r], 0, numAct)
      case Fail(e) => Fail(e)
      case Ok(t) =>
        var o := ProceduralRows(t, x, y, unit, seed, r + 1, numAct);
        if o.Ok? then
          GrownTrans(s, t, o.scene, QualRow(seed[r], 0, numAct), QualRows(seed, r + 1, numAct), UnitSpawn(unit));
          Concat3(s.x, t.x, o.scene.x, RowSquares(x, y - r as real * unit, unit, seed[r], 0, numAct, s.offset), SeedSquares(x, y, unit, seed, r + 1, numAct, s.offset));
          o
        else o
  }

  /** `procedural`: one `unit_size` square per seed cell whose label is
      below `num_actuators`, in row-major order, each with
      `UnitSpawn(unit_size)` solid particles carrying the cell's label. It
      fails, with a division by zero, exactly when some cell qualifies and
      `|unit_size| < dx`, so that `int(unit_size / dx)` is 0. */
  function Procedural(s: Scene, x: real, y: real, unit: real, seed: seq<seq<int>>, numAct: int): (o: Outcome)
    ensures o.Fail? <==> |QualRows(seed, 0, numAct)| > 0 && SideCount(unit) == 0
    ensures o.Fail? ==> o.error == ZeroDivisionError
    ensures o.Ok? ==> Grown(s, o.scene, QualRows(seed, 0, numAct), UnitSpawn(unit))
    ensures o.Ok? ==> o.scene.x == s.x + SeedSquares(x, y, unit, seed, 0, numAct, s.offset)
  {
    ProceduralRows(s, x, y, unit, seed, 0, numAct)
  }

  /** `procedural` keeps the counters and the lists in step. */
  lemma ProceduralConsistent(s: Scene, x: real, y: real, unit: real, seed: seq<seq<int>>, numAct: int)
    requires Consistent(s)
    ensures Procedural(s, x, y, unit, seed, numAct).Ok? ==> Consistent(Procedural(s, x, y, unit, seed, numAct).scene)
  {
    var o := Procedural(s, x, y, unit, seed, numAct);
    if o.Ok? {
      var n := |QualRows(seed, 0, numAct)| * UnitSpawn(unit);
      SolidTypesAppend(s.ptype, Repeat(1, n));
      SolidTypesRepeat(1, n);
    }
  }

  /** A square placed by `add_rect`, then the rest of the row, is the
      growth and the squares of the row from column c on. */
  lemma RowStep(s: Scene, t: Scene, u: Scene, x: real, rowOffset: real, unit: real, row: seq<int>, c: nat, numAct: int)
    requires c < |row| && row[c] < numAct
    requires AddRect(s, x + c as real * unit, rowOffset, unit, unit, row[c], 1) == Ok(t)
    requires Grown(t, u, QualRow(row, c + 1, numAct), UnitSpawn(unit))
    requires u.x == t.x + RowSquares(x, rowOffset, unit, row, c + 1, numAct, t.offset)
    ensures Grown(s, u, QualRow(row, c, numAct), UnitSpawn(unit))
    ensures u.x == s.x + RowSquares(x, rowOffset, unit, row, c, numAct, s.offset)
  {
    GrownOne(s, t, x + c as real * unit, rowOffset, unit, row[c]);
    assert QualRow(row, c, numAct) == [row[c]] + QualRow(row, c + 1, numAct);
    GrownTrans(s, t, u, [row[c]], QualRow(row, c + 1, numAct), UnitSpawn(unit));
    var sq := Square(x + c as real * unit, rowOffset, unit, s.offset);
    assert t.x == s.x + sq;
    assert RowSquares(x, rowOffset, unit, row, c, numAct, s.offset) == sq + RowSquares(x, rowOffset, unit, row, c + 1, numAct, s.offset);
    Concat3(s.x, t.x, u.x, sq, RowSquares(x, rowOffset, unit, row, c + 1, numAct, s.offset));
  }

  /** A cell at or above `num_actuators` gets no square. */
  lemma RowSkip(x: real, rowOffset: real, unit: real, row: seq<int>, c: nat, numAct: int, off: Vec2)
    requires c < |row| && row[c] >= numAct
    ensures QualRow(row, c, numAct) == QualRow(row, c + 1, numAct)
    ensures RowSquares(x, rowOffset, unit, row, c, numAct, off) == RowSquares(x, rowOffset, unit, row, c + 1, numAct, off)
  {
    assert RowSquares(x, rowOffset, unit, row, c, numAct, off) == [] + RowSquares(x, rowOffset, unit, row, c + 1, numAct, off);
  }

  lemma Concat3(a: seq<Vec2>, b: seq<Vec2>, c: seq<Vec2>, p: seq<Vec2>, q: seq<Vec2>)
    requires b == a + p && c == b + q
    ensures c == a + (p + q)
  {
  }

  lemma GrownNothing(s: Scene, k: nat)
    ensures Grown(s, s, [], k)
  {
    assert s.actuatorId + [] == s.actuatorId;
    assert s.ptype + [] == s.ptype;
  }

  /** One successful solid `add_rect` of a `unit_size` square grows the
      scene by one batch. */
  lemma GrownOne(s: Scene, t: Scene, x: real, y: real, unit: real, v: int)
    requires AddRect(s, x, y, unit, unit, v, 1) == Ok(t)
    ensures Grown(s, t, [v], UnitSpawn(unit))
  {
    assert Expand([v], UnitSpawn(unit)) == Repeat(v, UnitSpawn(unit)) + [];
  }

  /** Growth by `a` then by `b` is growth by `a + b`. */
  lemma GrownTrans(s: Scene, t: Scene, u: Scene, a: seq<int>, b: seq<int>, k: nat)
    requires Grown(s, t, a, k) && Grown(t, u, b, k)
    ensures Grown(s, u, a + b, k)
  {
    ExpandAppend(a, b, k);
    MulAdd(|a|, |b|, k);
    RepeatAppend(1, |a| * k, |b| * k);
    assert u.x[..|s.x|] == s.x by {
      assert u.x[..|t.x|] == t.x;
      assert |s.x| <= |t.x|;
      assert u.x[..|s.x|] == u.x[..|t.x|][..|s.x|];
    }
  }

  lemma MulAdd(p: int, q: int, k: int)
    ensures (p + q) * k == p * k + q * k
  {
  }

  /** Two runs of the same label make one run. */
  lemma RepeatAppend(v: int, p: nat, q: nat)
    ensures Repeat(v, p) + Repeat(v, q) == Repeat(v, p + q)
  {
  }

  /** Expanding distributes over concatenation. */
  lemma {:induction false} ExpandAppend(a: seq<int>, b: seq<int>, k: nat)
    ensures Expand(a + b, k) == Expand(a, k) + Expand(b, k)
    decreases |a|
  {
    if |a| == 0 {
      assert a + b == b;
    } else {
      assert (a + b)[1..] == a[1..] + b;
      ExpandAppend(a[1..], b, k);
    }
  }

  /** A matrix with rows of length n flattens to `|m| * n` entries. */
  lemma {:induction false} FlattenLength(m: seq<seq<Vec2>>, n: nat)
    requires forall i :: 0 <= i < |m| ==> |m[i]| == n
    ensures |Flatten(m)| == |m| * n
    decreases |m|
  {
    if |m| > 0 {
      FlattenLength(m[1..], n);
      assert |m| * n == n + (|m| - 1) * n;
    }
  }

  /** Entry (i, j) of such a matrix sits at index `i * n + j` of its
      flattening. */
  lemma {:induction false} FlattenIndex(m: seq<seq<Vec2>>, n: nat, i: int, j: int)
    requires forall r :: 0 <= r < |m| ==> |m[r]| == n
    requires 0 <= i < |m| && 0 <= j < n
    ensures |Flatten(m)| == |m| * n && i * n + j < |m| * n
    ensures Flatten(m)[i * n + j] == m[i][j]
    decreases |m|
  {
    FlattenLength(m, n);
    MulBelow(i, |m|, n);
    if i > 0 {
      FlattenIndex(m[1..], n, i - 1, j);
      MulSucc(i, n);
    }
  }

  lemma MulSucc(i: int, n: int)
    ensures i * n == n + (i - 1) * n
  {
  }

  lemma MulBelow(i: int, m: int, n: nat)
    requires 0 <= i < m
    ensures i * n + n <= m * n
  {
    assert (m - i) * n >= n by {
      assert m - i >= 1;
    }
    assert m * n - i * n == (m - i) * n;
  }

  /** Counting solid entries distributes over concatenation. */
  lemma {:induction false} SolidTypesAppend(a: seq<int>, b: seq<int>)
    ensures SolidTypes(a + b) == SolidTypes(a) + SolidTypes(b)
    decreases |a|
  {
    if |a| > 0 {
      assert (a + b)[1..] == a[1..] + b;
      SolidTypesAppend(a[1..], b);
    } else {
      assert a + b == b;
    }
  }

  /** `n` copies of a type hold `n` solid entries if it is 1, none otherwise. */
  lemma {:induction false} SolidTypesRepeat(v: int, n: nat)
    ensures SolidTypes(Repeat(v, n)) == if v == 1 then n else 0
    decreases n
  {
    if n > 0 {
      assert Repeat(v, n)[1..] == Repeat(v, n - 1);
      SolidTypesRepeat(v, n - 1);
    }
  }
}
