/** The per-particle state the transfers read and write at one time step. */
module Particles {
  import opened Linalg

  /** Position `x[f, p]`, velocity `v[f, p]`, affine velocity field
      `C[f, p]` and the particle's material, `particle_type[p]`
      (0 fluid, 1 solid). */
  datatype Particle = Particle(x: Vec2, v: Vec2, C: Mat2, ptype: int)
}
