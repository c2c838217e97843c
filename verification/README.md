# Differentiable MPM soft-robot simulator: a verified model of its core

`diffmpm.py` simulates two-dimensional soft robots with the material point
method (MPM) and optimises their actuation by differentiating through the
simulation. Each time step runs four kernels:

- `p2g` scatters particle mass and APIC momentum onto a background grid.
- `grid_op` turns momentum into velocity, adds gravity and applies the wall
  and floor rules.
- `g2p` gathers velocities and an affine velocity matrix back onto the
  particles and moves them.
- The loss is minus the mean x-position of the solid particles at the end.

The robot's body is laid out by the `Scene` builder from a seed matrix of
actuator labels. A seed can be varied with the `mutate` pass.

This project models that core in Dafny and proves its properties.

- The transfer arithmetic is modelled over exact reals:
  - the quadratic B-spline stencil;
  - the scatter, the grid update, the gather and the loss.
- The builders are modelled over integers and sequences: `add_rect`,
  `procedural`, `set_offset`, `finalize`, `mutate` and `random_seed`.
- Randomness is an oracle:
  - in `mutate`, one `random.random()` draw and one `random.choice` index
    per cell;
  - in `random_seed`, the shuffled start cells, and per clump one
    `random.choice` index, one `random.randint` value and the shuffled
    `directions` before each spread.

Modules, one per file:

| file | module | what it holds |
|---|---|---|
| `linalg.dfy` | `Linalg` | 2-vectors, 2x2 matrices, their algebra |
| `params.dfy` | `Params` | the constants (`n_grid`, `dx`, `dt`, `gravity`, `bound`, `coeff`, …) and particle mass |
| `stencil.dfy` | `Stencil` | base cell, offset, weights, the 3x3 stencil sums |
| `grid.dfy` | `Grid` | grid nodes, deposits, grid totals |
| `particle.dfy` | `Particles` | the per-particle state |
| `p2g.dfy` | `P2G` | particle-to-grid scatter |
| `gridop.dfy` | `GridOp` | the grid update and its wall rules |
| `g2p.dfy` | `G2P` | grid-to-particle gather and Euler step |
| `loss.dfy` | `Loss` | `compute_x_avg` and `compute_loss` |
| `scene.dfy` | `Scenes` | the `Scene` builder |
| `mutate.dfy` | `Mutation` | the seed mutation pass |
| `seed.dfy` | `Seeding` | the random seed matrix and its clump fill |

## Model

| member | source | states |
|---|---|---|
| Params.ParticleMass | diffmpm.py:113-118 | A particle deposits mass 4 exactly when it is fluid (type 0) and mass 1 otherwise; the mass is always positive. |
| Params.Trunc | diffmpm.py:92-93 | The `ti.cast` to an integer truncates toward zero. For a non-negative argument this is the floor; for a negative one it is the integer within 1 above it. |
| Stencil.BaseIndex | diffmpm.py:92 | The base cell is `floor(x*inv_dx - 0.5)` once `x*inv_dx >= 0.5`. In `[0, 0.5)` truncation gives cell 0 instead of the floor's -1. |
| Stencil.Frac | diffmpm.py:93 | The offset `fx` lies in `[0.5, 1.5)` once `x*inv_dx >= 0.5`. On `[0, 0.5)` it equals `x*inv_dx` itself, and it always lies in `(-0.5, 1.5)`. |
| Stencil.Weights | diffmpm.py:94 | The three quadratic B-spline weights sum to 1 and have zero first moment about `fx`. They are non-negative on `[0.5, 1.5)`. |
| Stencil.KernelOf | diffmpm.py:92-94 | Per axis, a particle's stencil has weights summing to 1 with zero first moment. Away from the origin the offset is in `[0.5, 1.5)`, the weights are non-negative, and the base is the floor. |
| Stencil.StencilMoments | diffmpm.py:124-128 | The nine products `w[i][0]*w[j][1]` sum to 1. Their weighted offsets `(i, j) - fx` sum to the zero vector. |
| Stencil.WeightsSecondMoment | diffmpm.py:94 | The three weights have second moment 1/4 about `fx`: the sum of `w[k] * (k - fx)^2` is exactly 1/4 for every `fx`. |
| Stencil.StencilSecond | diffmpm.py:182-188 | Over the nine nodes, the weighted outer squares of the offsets `(i, j) - fx` add up to a quarter of the identity. This is why the factor `4 * inv_dx` in the affine update recovers a velocity gradient. |
| Stencil.NegativeWeightAtOrigin | diffmpm.py:92-94 | At `x = 0` truncation yields base cell 0 and offset 0, so a stencil weight is -0.25: negative. |
| Grid.EmptyGrid | diffmpm.py:67-70 | `clear_grid`: the grid the scatter starts from is `n_grid x n_grid` with every node zero. |
| Grid.Deposit | diffmpm.py:129-131 | `grid[base + offset] += share` raises that one node by exactly the share and leaves every other node unchanged. |
| Grid.DepositTotal | diffmpm.py:129-131 | One deposit raises the grid's total momentum and mass by exactly the deposited amount. |
| Grid.EmptyGridTotal | diffmpm.py:67-70 | The cleared grid holds no momentum and no mass. |
| P2G.ShareConserved | diffmpm.py:123-131 | For any `affine` matrix, a particle's nine shares add up to exactly its mass and its momentum `mass * v`: the `affine @ dpos` terms cancel. |
| P2G.StencilShareSplit | diffmpm.py:124-131 | The shares of the stencil split into the particle's mass and momentum weighted by the total weight, plus `affine` applied to the first moment of the offsets. |
| P2G.ScatterRows | diffmpm.py:124-131 | Running the stencil loops from row i on adds to each node (i'+base.i, j'+base.j) with i' >= i exactly its share, and leaves every node outside those rows of the stencil unchanged. The grid's total rises by exactly the sum of the shares, and the grid keeps its shape. |
| P2G.ScatterParticle | diffmpm.py:113-131 | One particle's scatter adds to every node exactly what that particle deposits there: its share inside the 3x3 stencil, nothing outside it. In total it adds mass 4 (fluid) or 1 (solid) and momentum `mass * v`, whatever the stress. |
| P2G.Scatter | diffmpm.py:90-131 | The whole `p2g` kernel adds to every node the sum of what each particle deposits there, in particle order. In total it adds the particles' total mass and momentum. |
| P2G.UntouchedNode | diffmpm.py:124-131 | A node that lies in no particle's 3x3 stencil keeps its value through the kernel. |
| GridOp.InteriorNode | diffmpm.py:138-141 | Away from the walls a node's velocity is `v_in / (m + 1e-10)` with `dt * gravity` subtracted from the vertical component only. |
| GridOp.BoundaryReference | diffmpm.py:142-169 | The wall code zeroes the whole velocity exactly when it points into a wall at that cell, and leaves it unchanged otherwise. The walls are: left `i < bound`, `vx < 0`; right `i > n_grid - bound`, `vx > 0`; floor `j < bound`, `vy < 0`; ceiling `j > n_grid - bound`, `vy > 0`. |
| GridOp.BoundaryIdempotent | diffmpm.py:142-169 | Applying the wall code to its own output changes nothing. |
| GridOp.FloorZeroes | diffmpm.py:148-166 | The floor branch always yields zero. The friction code after it sees the velocity already zeroed, so `lin` is 0 and the rescale at line 166 never runs. |
| GridOp.FrictionInert | diffmpm.py:151-166 | The friction code returns any velocity without a downward component unchanged. |
| GridOp.Update | diffmpm.py:137-171 | Each node of `grid_v_out` is the resolved velocity `v_in / (m + 1e-10) - (0, dt * gravity)`. It is zero if that velocity points into a wall at the node, and unchanged otherwise. |
| G2P.Gather | diffmpm.py:173-192 | A particle's new position is its old one plus `dt` times its new velocity, and its material is unchanged. |
| G2P.GatherAll | diffmpm.py:173-192 | The kernel updates every particle independently from the same grid, in order, with the Euler position step. |
| G2P.UniformGather | diffmpm.py:182-192 | If all nine stencil velocities equal `u`, the particle gets velocity `u` and affine matrix zero, and moves by `dt * u`. |
| G2P.StencilGatherSplit | diffmpm.py:182-188 | Under a uniform velocity `u`, the gathered velocity is `u` times the stencil's total weight. The gathered matrix is `4 * inv_dx` times the outer product of `u` with the first moment of the offsets. |
| G2P.AffineGather | diffmpm.py:173-192 | If the grid velocities around a particle sample an affine field `u + A (y - o)` at the node positions `(base + (i, j)) * dx`, the particle gathers that field's value at its own position as velocity and exactly `A` as its affine matrix `C`. It then moves by `dt` times that velocity. |
| G2P.AffineStencilGather | diffmpm.py:182-188 | For any stencil whose weights per axis sum to 1, with zero first moment and second moment 1/4, gathering `u + A (dpos * dx)` yields velocity `u` and matrix `A`. |
| G2P.StencilGatherAffine | diffmpm.py:182-188 | Gathering an affine field over rows i..2 equals `u` times the rows' weight plus `A` applied to `dx` times their first moment. The matrix is `4 * inv_dx` times `u` outer their first moment, plus 4 times `A` times their second moment. |
| Loss.LossReference | diffmpm.py:205-217 | The loss is minus the x-component of the solid particles' position sum divided by `n_solid_particles`. |
| Loss.XAvgReference | diffmpm.py:205-211 | `x_avg` equals the solid particles' position sum scaled by `1 / n_solid_particles`. |
| Loss.NoSolidLoss | diffmpm.py:205-217 | With no solid particle the division in `contrib` is never reached, and the loss is zero. |
| Loss.FluidIgnored | diffmpm.py:205-217 | Two particle lists with the same materials and the same solid positions give the same `x_avg` and loss, wherever their fluid particles are. |
| Loss.UniformLoss | diffmpm.py:205-217 | If `n_solid_particles` is the true count and every solid particle ends at the same x, the loss is minus that x. |
| Scenes.NewScene | diffmpm.py:251-258 | A new scene has no particles, consistent counters and a zero offset. |
| Scenes.SetOffset | diffmpm.py:287-289 | `set_offset` changes the offset and nothing else, and keeps the scene consistent. |
| Scenes.Finalize | diffmpm.py:291-294 | For a consistent scene, the published counts are the number of particles and the number of solid particles. |
| Scenes.AddRect | diffmpm.py:260-277 | `add_rect` fails with an assertion error exactly for a fluid rectangle whose actuator is not -1, and otherwise with a division by zero exactly when `int(w/dx)*2` or `int(h/dx)*2` is 0. On success it appends `w_count * h_count` particles (none for a negative count) to the three lists, each with the given actuator and type. The old entries are kept. `n_solid_particles` grows only for type 1. |
| Scenes.RectLayout | diffmpm.py:264-273 | Particle `(i, j)` of the rectangle is at index `i * h_count + j` after the old particles. It sits at `(x + (i + 0.5) * w/w_count, y + (j + 0.5) * h/h_count)` plus the offset. |
| Scenes.NegativeWidth | diffmpm.py:262-270 | A width of `-dx` or less gives a negative `w_count` (at most -2), so `add_rect` does not divide by zero and leaves the scene exactly as it was. |
| Scenes.AddRectConsistent | diffmpm.py:260-277 | `add_rect` keeps the particle counter equal to the lengths of the three lists, and the solid counter equal to the number of type-1 entries. |
| Scenes.QualRow | diffmpm.py:282-283 | The labels that get a rectangle are exactly the row's labels below `num_actuators`, -1 included. |
| Scenes.ProceduralRow | diffmpm.py:282-285 | One row of the seed appends one `unit_size` square of solid particles per cell labelled below `num_actuators`, in column order, each carrying the cell's label. Their positions are the squares' `add_rect` positions, at column offset `x + col * unit_size`. It fails exactly when such a cell exists and `abs(unit_size) < dx`, so that `int(unit_size / dx)` is 0. |
| Scenes.ProceduralRows | diffmpm.py:280-285 | The rows from r on do the same in row-major order, row `r` at `y - r * unit_size`. |
| Scenes.Procedural | diffmpm.py:279-285 | `procedural` adds exactly one square per qualifying seed cell, in row-major order. Each square has `UnitSpawn(unit_size)` solid particles carrying the cell's label. Their positions are those `add_rect` gives each square at `(x + col * unit_size, y - row * unit_size)`. The call fails, with a division by zero, exactly when a cell qualifies and `abs(unit_size) < dx`. A unit of `-dx` or less succeeds and adds no particles. |
| Scenes.ProceduralConsistent | diffmpm.py:279-285 | `procedural` keeps the counters consistent with the lists. |
| Mutation.ReadOr | diffmpm.py:355-358 | A neighbour read yields the cell's label inside the matrix and `muscles` outside it. |
| Mutation.Candidates | diffmpm.py:361 | `new_vals` holds exactly the neighbour labels that differ from the current one. |
| Mutation.CellResult | diffmpm.py:352-363 | A cell changes exactly when its draw is below the rate and some neighbour label differs from its own; a changed cell takes one of its neighbour labels. |
| Mutation.Mutate | diffmpm.py:347-365 | The pass keeps the shape. Every cell follows the cell rule, reading the parent's labels below and to the right and the child's (already mutated) labels above and to the left. A cell changes exactly when its draw is below the rate and a neighbour label differs from its own. A changed cell takes a neighbour's label. Every resulting label is a parent label or `muscles`. |
| Mutation.ValuesFromOrigin | diffmpm.py:347-365 | Each label of the child occurs in the parent or is `muscles`, even though mutated labels propagate along the row-major order. |
| Seeding.Full | diffmpm.py:303 | `np.full` gives a `rows` x `cols` matrix holding `muscles` in every cell. |
| Seeding.Range | diffmpm.py:331 | `range(bone, muscles)` lists each label of that interval once and nothing else. |
| Seeding.RemoveFirst | diffmpm.py:338 | Removing the drawn label from a list without repeats leaves one element fewer: every other label stays and the drawn one is gone. |
| Seeding.Spread | diffmpm.py:324 | The queued cells are the popped cell moved by each direction, in the shuffled order. |
| Seeding.SpreadNeighbours | diffmpm.py:315-324 | Whatever the shuffle, one spread queues all four neighbours of the filled cell and nothing else. |
| Seeding.FillClump | diffmpm.py:311-324 | A fill gives `value` to at most `clump_size` distinct cells. They lie inside the array and were unvisited. The first is the start cell, and each later one neighbours an earlier one, so the clump is 4-connected. Exactly these cells become visited and change. An unvisited in-range start is always filled when `clump_size > 0`. A fill that stops short of `clump_size` leaves no unvisited neighbour of the clump. |
| Seeding.ClumpBounds | diffmpm.py:306-309 | When `muscles > bone`, `0 <= int(0.8 * avg) <= int(0.95 * avg)`, so the `randint` range is non-empty. |
| Seeding.RandInt | diffmpm.py:340 | The drawn clump size lies between `minimum` and `maximum`. |
| Seeding.RandomSeed | diffmpm.py:302-345 | The seed fails with `ZeroDivisionError` exactly when `muscles == bone`. Otherwise each label in `[bone, muscles)` is drawn at most once. The cells holding a drawn label are exactly that label's clump, and every other cell holds `muscles`. Each clump is a connected chain of at most `int(0.95 * avg)` cells. |
| Seeding.SeedStep | diffmpm.py:333-343 | A clump of a label not drawn before keeps the invariant. Labels drawn and labels unused split `range(bone, muscles)`. Visited cells are exactly those not holding `muscles`. Each label owns exactly its clump's cells. |

## Left out

- The constitutive model (diffmpm.py:95-122) is not modelled: deformation gradient, determinant, `polar_decompose`, fluid `sqrt(J)` and the Cauchy stress. The scatter takes the stress part of `affine` as an arbitrary matrix, and conservation holds for every such matrix.
- `compute_actuation` uses `sin` and `tanh`, which have no counterpart over Dafny reals, so it is not modelled.
- Reverse-mode differentiation (`grad_replaced`, `grad_for`, `advance_grad`, the tape and the `.grad` buffers) is generated by the compiler, so it is not modelled.
- The model uses exact reals, not 32-bit floats. Rounding is not modelled, and neither is the `1e-10` guard producing an infinity for a node mass of exactly `-1e-10`: `GridOp.NodeUpdate` and `GridOp.Update` require `m + 1e-10 != 0`.
- `ti.norm` in the friction code is a parameter: any function returning a non-negative real. The square root is not modelled.
- The parallel particle loops and `atomic_add` are modelled as sequential sums in particle order.
- Every particle's stencil must lie inside the grid (`Stencil.StencilInGrid`), since Taichi defines no behaviour for out-of-range indices.
- `compute_x_avg` divides by `n_solid_particles` only for a solid particle. The model requires that count to be non-zero when a solid particle exists.
- Loss.NoSolidLoss: reads `1.0 / n_solid_particles` as evaluated per solid particle, inside the branch. Taichi captures the global `n_solid_particles` as a compile-time constant and may fold that division when it compiles the kernel. A zero count could then fail before any particle is visited. The model does not cover that compile-time evaluation.
- These are not modelled:
  - the gradient-clearing kernels and `allocate_fields`;
  - `visualize` and the GUI;
  - `main`;
  - command-line parsing;
  - the output file;
  - `set_n_actuators`, a plain global setter.
- Seeding.RandomSeed: the shuffled start cells are any sequence of cells inside the array, not necessarily a permutation of all of them. Every property stated holds for any such order.
- Seeding.RandomSeed: states nothing about `remaining_cells` except that it stays non-negative. It is decreased by `clump_size` even when a clump fills fewer cells, so it does not count the unvisited cells.
- Mutation.Mutate: `random.choice(new_vals)` is modelled as the oracle index taken modulo `len(new_vals)`. One draw and one index per cell are supplied whether or not the code consumes them.
