/** The objective: `compute_x_avg` averages the final positions of the solid
    particles and `compute_loss` negates the x-component of that average, so
    minimising the loss pushes the robot to the right. */
module Loss {
  import opened Linalg
  import opened Particles

  predicate Solid(p: Particle) {
    p.ptype == 1
  }

  /** A division by `n_solid_particles` happens only for a solid particle. */
  predicate Divisible(ps: seq<Particle>, nSolid: int) {
    forall n :: 0 <= n < |ps| && Solid(ps[n]) ==> nSolid != 0
  }

  /** `contrib`: `1 / n_solid_particles` for a solid particle, 0 otherwise. */
  function Contrib(p: Particle, nSolid: int): real
    requires Solid(p) ==> nSolid != 0
  {
    if Solid(p) then 1.0 / nSolid as real else 0.0
  }

  /** `x_avg`: the accumulated `contrib * x` over the particles, in order
      (the parallel `atomic_add` loop taken sequentially). The particles'
      positions are those of the last step. */
  function XAvg(ps: seq<Particle>, nSolid: int): Vec2
    requires Divisible(ps, nSolid)
    decreases |ps|
  {
    if |ps| == 0 then Zero else Add(Scale(Contrib(ps[0], nSolid), ps[0].x), XAvg(ps[1..], nSolid))
  }

  /** `loss = -x_avg[0]`. */
  function LossOf(ps: seq<Particle>, nSolid: int): real
    requires Divisible(ps, nSolid)
  {
    -XAvg(ps, nSolid).x
  }

  /** Reference: the sum of the solid particles' positions. */
  function SolidSum(ps: seq<Particle>): Vec2
    decreases |ps|
  {
    if |ps| == 0 then Zero
    else if Solid(ps[0]) then Add(ps[0].x, SolidSum(ps[1..]))
    else SolidSum(ps[1..])
  }

  /** Reference: the number of solid particles. */
  function SolidCount(ps: seq<Particle>): nat
    decreases |ps|
  {
    if |ps| == 0 then 0 else (if Solid(ps[0]) then 1 else 0) + SolidCount(ps[1..])
  }

  /** The loss is minus the x-component of the solid positions' sum divided
      by `n_solid_particles`. */
  lemma LossReference(ps: seq<Particle>, nSolid: int)
    requires nSolid != 0
    ensures LossOf(ps, nSolid) == -(SolidSum(ps).x / nSolid as real)
  {
    XAvgReference(ps, nSolid);
    var r, t := nSolid as real, SolidSum(ps).x;
    assert (1.0 / r) * t == t / r;
  }

  /** `x_avg` is the solid positions' sum scaled by `1 / n_solid_particles`. */
  lemma {:induction false} XAvgReference(ps: seq<Particle>, nSolid: int)
    requires nSolid != 0
    ensures XAvg(ps, nSolid) == Scale(1.0 / nSolid as real, SolidSum(ps))
    decreases |ps|
  {
    if |ps| > 0 {
      XAvgReference(ps[1..], nSolid);
      XAvgStep(ps, nSolid);
    }
  }

  /** The reference form extends from the tail to the whole list. */
  lemma XAvgStep(ps: seq<Particle>, nSolid: int)
    requires nSolid != 0 && |ps| > 0
    requires XAvg(ps[1..], nSolid) == Scale(1.0 / nSolid as real, SolidSum(ps[1..]))
    ensures XAvg(ps, nSolid) == Scale(1.0 / nSolid as real, SolidSum(ps))
  {
    var inv := 1.0 / nSolid as real;
    if Solid(ps[0]) {
      assert Contrib(ps[0], nSolid) == inv;
      ScaleAdd(inv, ps[0].x, SolidSum(ps[1..]));
    } else {
      assert Scale(Contrib(ps[0], nSolid), ps[0].x) == Zero;
    }
  }

  /** Without solid particles the division in `contrib` is never reached,
      and the loss is zero. */
  lemma NoSolidLoss(ps: seq<Particle>, nSolid: int)
    requires forall n :: 0 <= n < |ps| ==> !Solid(ps[n])
    ensures Divisible(ps, nSolid) && LossOf(ps, nSolid) == 0.0
  {
    NoSolidXAvg(ps, nSolid);
  }

  /** Without solid particles `x_avg` stays zero. */
  lemma {:induction false} NoSolidXAvg(ps: seq<Particle>, nSolid: int)
    requires forall n :: 0 <= n < |ps| ==> !Solid(ps[n])
    ensures Divisible(ps, nSolid) && XAvg(ps, nSolid) == Zero
    decreases |ps|
  {
    if |ps| > 0 {
      assert Divisible(ps, nSolid);
      NoSolidXAvg(ps[1..], nSolid);
      FluidHead(ps, nSolid);
    }
  }

  /** A fluid particle at the head adds nothing to `x_avg`. */
  lemma FluidHead(ps: seq<Particle>, nSolid: int)
    requires |ps| > 0 && !Solid(ps[0]) && Divisible(ps, nSolid)
    ensures Divisible(ps[1..], nSolid) && XAvg(ps, nSolid) == XAvg(ps[1..], nSolid)
  {
    assert Contrib(ps[0], nSolid) == 0.0;
  }

  /** Two particle lists that agree on the materials, and on the positions
      of the solid particles, have the same loss: fluid particles do not
      count, wherever they are. */
  lemma {:induction false} FluidIgnored(ps: seq<Particle>, qs: seq<Particle>, nSolid: int)
    requires |ps| == |qs| && Divisible(ps, nSolid)
    requires forall n :: 0 <= n < |ps| ==> qs[n].ptype == ps[n].ptype
    requires forall n :: 0 <= n < |ps| && Solid(ps[n]) ==> qs[n].x == ps[n].x
    ensures Divisible(qs, nSolid) && XAvg(qs, nSolid) == XAvg(ps, nSolid)
    ensures LossOf(qs, nSolid) == LossOf(ps, nSolid)
    decreases |ps|
  {
    if |ps| > 0 {
      FluidIgnored(ps[1..], qs[1..], nSolid);
    }
  }

  /** When `n_solid_particles` is the true count and every solid particle
      ends at the same x, the loss is minus that x. */
  lemma UniformLoss(ps: seq<Particle>, c: real)
    requires SolidCount(ps) > 0
    requires forall n :: 0 <= n < |ps| && Solid(ps[n]) ==> ps[n].x.x == c
    ensures LossOf(ps, SolidCount(ps)) == -c
  {
    var n := SolidCount(ps);
    LossReference(ps, n);
    SolidSumUniform(ps, c);
    CopiesProduct(n, c);
    assert SolidSum(ps).x / n as real == c;
  }

  /** `k` copies of `c` added up, without a multiplication. */
  function Copies(k: nat, c: real): real {
    if k == 0 then 0.0 else c + Copies(k - 1, c)
  }

  /** Adding up `k` copies of `c` is multiplying `c` by `k`. */
  lemma {:induction false} CopiesProduct(k: nat, c: real)
    ensures Copies(k, c) == k as real * c
  {
    if k > 0 {
      CopiesProduct(k - 1, c);
      var j := (k - 1) as real;
      assert c + j * c == (j + 1.0) * c;
    }
  }

  /** The x-components of equal solid positions add up to one copy of x
      per solid particle. */
  lemma {:induction false} SolidSumUniform(ps: seq<Particle>, c: real)
    requires forall n :: 0 <= n < |ps| && Solid(ps[n]) ==> ps[n].x.x == c
    ensures SolidSum(ps).x == Copies(SolidCount(ps), c)
    decreases |ps|
  {
    if |ps| > 0 {
      assert forall n :: 0 <= n < |ps[1..]| && Solid(ps[1..][n]) ==> ps[1..][n].x.x == c by {
        forall n | 0 <= n < |ps[1..]| && Solid(ps[1..][n]) ensures ps[1..][n].x.x == c {
          assert ps[1..][n] == ps[n + 1];
        }
      }
      SolidSumUniform(ps[1..], c);
    }
  }
}
