# Collision matrix assembly (phonopy `phono3py` core), modelled in Dafny

This project models the discrete bookkeeping and in-place assembly of
`CollisionMatrix` in `anharmonic/phonon3/collision_matrix.py`. It builds
the 5-D collision matrix of shape `(num_band0, 3, n_ir, num_band, 3)` for
one fixed grid point and one temperature. That matrix is used to solve the
linearised phonon Boltzmann equation.

- `linalg.dfy` (module `Linalg`): integer 3-vectors and 3x3 matrices for grid addresses and the point operations in the lattice basis. Real 3x3 matrices for the same operations in the Cartesian basis, stored row by row as sequences of nine reals.
- `triplet_index.dfy` (module `TripletIndex`): `np.unique` over the triplet map (`Unique`). The dictionary `gp2tpindex` that numbers its result (`BuildTripletIndex`, specified by `DenseIndexOf`). The double lookup `gp2tpindex[triplets_map_at_q[gp]]`.
- `assembly.dfy` (module `Assembly`): one iteration of the loop over irreducible points. It covers the rotated grid points, the grouping of operations by triplet representative, `sum_rots`, the accumulation into the blocks `[j, :, i, k, :]`, the division by `len(ops) / len(unique(r_gps))`, and the self-energy on the diagonal. The collision matrix is an `array5<real>` updated in place. `SumRotations` is specified against `GroupSum`, the sum of the Cartesian rotations of one group. `AddBlock`, `AddGroupRow`, `AddGroupContribution`, `AccumulateGroups`, `DivideSlab` and `AddSelfEnergy` state each new entry in terms of its old value, and `AccumulateGroups` does so through the per-entry group sum `AccumulateEntry`. `AssembleSlab` is specified against `SlabEntry`, which gives the value of every entry after the slab is assembled. `SetCollisionMatrix`, `RunPyCollisionMatrix` and `Run` are specified through `SlabEntry` too, by way of `Expected`.
- `collision_matrix.dfy` (module `CollisionMatrix`): the class `CollisionMatrixBuilder`. Its fields are the tables `set_grid_point` fills, the cached interaction, the self-energy and the matrix. Its methods are `set_grid_point`, `get_collision_matrix`, `run`, the temperature dispatch, the slab loop and the 0 K no-op.

The physics is an opaque real-valued input. `fc3_normal_squared`, `g[2]`,
the `sinh` of the third phonon's frequency, `THzToEv`, `Kb`, the
temperature and `unit_conversion` fold into one collision scalar
`weight(ti, j, k)`, carried by `Interaction`. Arithmetic is exact over
`real`.

Inputs that come from code outside this model are parameters:
- `similarity_transformation` gives `rotationsCartesian`.
- `get_grid_point_from_address` gives `gridPointFromAddress`. Every result is below the number of grid points.
- The interaction provider's triplet map and grid addresses, and `get_ir_grid_points`, are arguments of `SetGridPoint`.
- `run_interaction` gives the `computed` argument of `Run`.
- `_run_with_band_indices` gives the `selfEnergy` argument of `Run`.

Two behaviours of the code are worth stating:
- `set_grid_point(None)` clears only the grid point. The tables, the cached interaction and the matrix stay as they were.
- The code reports no shape mismatch, and it does not check that a grid point was ever set. On a builder that never had a grid point, `run` fails: lines 63 and 66 take the length of tables that were never set; the model excludes that case, because `Run` requires the tables of an earlier `set_grid_point(g)`. After `set_grid_point(None)`, the code runs on the earlier tables, and so does the model; no slab is then the fixed point's. Shape mismatches raise exceptions, and the model excludes them by preconditions.

## Model

| member | source | states |
|---|---|---|
| `TripletIndex.Unique` | anharmonic/phonon3/collision_matrix.py:90 | `np.unique`: the result is strictly increasing, holds exactly the values of its input, and is no longer than the input. It is non-empty when the input is non-empty. |
| `TripletIndex.SortedInsert` | anharmonic/phonon3/collision_matrix.py:90 | Inserting into a strictly increasing sequence keeps it strictly increasing. It adds exactly the new value, and the length grows by one exactly when the value was absent. |
| `TripletIndex.BuildTripletIndex` | anharmonic/phonon3/collision_matrix.py:89-91 | The loop fills `gp2tpindex` so that its keys are exactly the values of the triplet map. Each key maps to its position among the sorted distinct values, and the numbering preserves order. |
| `TripletIndex.DenseIndexOrdered` | anharmonic/phonon3/collision_matrix.py:89-91 | For keys `x`, `y`: `x < y` exactly when `gp2tpindex[x] < gp2tpindex[y]`. |
| `TripletIndex.DenseIndexOnto` | anharmonic/phonon3/collision_matrix.py:89-91 | Every number `0..k-1` (`k` = count of distinct values) is the index of exactly one key. With the previous rows, the numbering is a bijection onto `0..k-1`. |
| `TripletIndex.TripletLookupDefined` | anharmonic/phonon3/collision_matrix.py:119 | For every value `gp` of the triplet map, `triplets_map_at_q[gp]` is in range and is a key of `gp2tpindex`. The resulting triplet index is below `k`, so the double lookup never fails. |
| `TripletIndex.DoubleLookupOfIdempotentMap` | anharmonic/phonon3/collision_matrix.py:119 | If every representative maps to itself, the double lookup equals the single lookup `gp2tpindex[gp]`. |
| `Assembly.RotatedGridPoints` | anharmonic/phonon3/collision_matrix.py:108-111 | One rotated grid point per point operation: `get_grid_point_from_address(R . address)`. Repeats are kept. |
| `Assembly.SumRotations` | anharmonic/phonon3/collision_matrix.py:114-117 | The loop over `zip(rotations_cartesian, r_gps)` returns the group sum of `gp`: the sum of the Cartesian rotations of exactly the operations whose rotated point has representative `gp`. |
| `Assembly.SlabInput.TripletOf` | anharmonic/phonon3/collision_matrix.py:119 | For a representative `gp`, the literal `gp2tpindex[triplets_map_at_q[gp]]` is defined and below the count of distinct triplet-map values. |
| `Assembly.IdentityOnlyGroups` | anharmonic/phonon3/collision_matrix.py:107-119 | With the identity as the only Cartesian rotation, the only representative is `triplets_map_at_q[r_gps[0]]`, the representative of the single rotated point. There is exactly one group, and its `sum_rots` is `I`. |
| `Assembly.SlabInput.Divisor` | anharmonic/phonon3/collision_matrix.py:130-131 | `len(point_operations) / len(unique(r_gps))` lies between 1 and the number of operations. |
| `Assembly.SingleOperationDivisor` | anharmonic/phonon3/collision_matrix.py:130-131 | With only one operation (the identity) the divisor is exactly 1. |
| `Assembly.FloorDivisorAtLeastOne` | anharmonic/phonon3/collision_matrix.py:130-131 | Under integer (floor) division the divisor is also at least 1. |
| `Assembly.GroupsCoverOperations` | anharmonic/phonon3/collision_matrix.py:113-117 | Each operation's representative is exactly one of the distinct representatives, so its rotation joins exactly one `sum_rots`. |
| `Assembly.GroupsNonEmpty` | anharmonic/phonon3/collision_matrix.py:113 | Every representative produced by `np.unique` is the representative of at least one operation. |
| `Assembly.SumOfGroupsIsTotal` | anharmonic/phonon3/collision_matrix.py:113-117 | For distinct representatives that cover every key, the group sums add up to the sum of all rotations. |
| `Assembly.GroupSumsAddUpToTotal` | anharmonic/phonon3/collision_matrix.py:113-117 | The sums `sum_rots` over all representatives add up to the sum of all Cartesian rotations. |
| `Assembly.UniformWeightCountsEveryRotationOnce` | anharmonic/phonon3/collision_matrix.py:113-128 | If the collision scalar does not depend on the triplet, the accumulated block is that scalar times the sum of all rotations. The grouping loses and duplicates no rotation. |
| `Assembly.IdentityOnlySlab` | anharmonic/phonon3/collision_matrix.py:107-136 | With the identity as the only operation there is one group and the divisor is 1. Each block is `weight * I`, plus `imag_self_energy[j] * I` on the fixed point's diagonal blocks. |
| `Assembly.SelfEnergyOnlyOnFixedDiagonal` | anharmonic/phonon3/collision_matrix.py:133-136 | The fixed and non-fixed slabs differ by `imag_self_energy[j]` exactly on the diagonal of the blocks `[j, :, i, j, :]`, and by nothing elsewhere. The term is not divided. |
| `Assembly.AccumulateByEntry` | anharmonic/phonon3/collision_matrix.py:128 | The per-entry running sum of `collision * sum_rots[a, b]` over the first `n` groups equals entry `[a, b]` of the 3x3 block sum `sum(collision * sum_rots)`. The array methods add entry by entry, and the block-level `+=` is recovered from that. |
| `Assembly.AddBlock` | anharmonic/phonon3/collision_matrix.py:128 | `m[j, :, i, k, :] += c * sum_rots` changes that block alone. |
| `Assembly.AddGroupRow` | anharmonic/phonon3/collision_matrix.py:123-128 | The loop over `k` for one band `j` adds `weight(ti, j, k) * sum_rots` into each block `[j, :, i, k, :]`. Nothing else changes. |
| `Assembly.AddGroupContribution` | anharmonic/phonon3/collision_matrix.py:123-128 | The loop over every band pair `(j, k)` adds `weight(ti, j, k) * sum_rots` into block `[j, :, i, k, :]`. Other slabs are unchanged. |
| `Assembly.AccumulateGroups` | anharmonic/phonon3/collision_matrix.py:113-128 | After the loop over representatives, each entry `[j, a, i, k, b]` of slab `i` has grown by the per-entry sum over all groups of `weight(ti, j, k) * sum_rots[a, b]`. Other slabs are unchanged. |
| `Assembly.DivideSlab` | anharmonic/phonon3/collision_matrix.py:130-131 | Slab `i` is divided by the divisor. Every other slab is unchanged. |
| `Assembly.AddSelfEnergy` | anharmonic/phonon3/collision_matrix.py:133-136 | For `j < num_band`, `imag_self_energy[j] * I` is added into block `[j, :, i, j, :]`. Nothing else changes. |
| `Assembly.AssembleSlab` | anharmonic/phonon3/collision_matrix.py:107-136 | One iteration of the outer loop writes only slab `i`. Each entry becomes `(prior + accumulated) / divisor`, plus the undivided self-energy on the fixed point's diagonal. Every other slab is unchanged. |
| `CollisionMatrix.CollisionMatrixBuilder.constructor` | anharmonic/phonon3/collision_matrix.py:9-54 | A builder with its symmetry, no grid point, no cached interaction and no matrix. |
| `CollisionMatrix.CollisionMatrixBuilder.SetGridPoint` | anharmonic/phonon3/collision_matrix.py:74-91 | `None` changes only the grid point. A grid point `g` stores the provider's tables, rebuilds `gp2tpindex` as the dense index of the triplet map, and empties the cached interaction. |
| `CollisionMatrix.CollisionMatrixBuilder.GetCollisionMatrix` | anharmonic/phonon3/collision_matrix.py:71-72 | Returns the matrix of the last `run`, or null before any run. |
| `CollisionMatrix.CollisionMatrixBuilder.SetCollisionMatrix` | anharmonic/phonon3/collision_matrix.py:103-136 | Starting from zero, after the loop every entry of every slab has its assembled value (`Expected`). |
| `CollisionMatrix.CollisionMatrixBuilder.SetCollisionMatrix0K` | anharmonic/phonon3/collision_matrix.py:138-140 | Changes nothing. |
| `CollisionMatrix.CollisionMatrixBuilder.RunPyCollisionMatrix` | anharmonic/phonon3/collision_matrix.py:97-101 | If `temperature > 0` every entry gets its assembled value. Otherwise the matrix stays entirely zero. |
| `CollisionMatrix.CollisionMatrixBuilder.Run` | anharmonic/phonon3/collision_matrix.py:56-69 | The interaction is recomputed exactly when none is cached. The new matrix is fresh, with shape `(num_band0, 3, len(ir_grid_points), num_band, 3)`. It is entirely zero unless `temperature > 0`, when every entry has its assembled value. The tables and grid point are unchanged. |
| `CollisionMatrix.SetGridPointThenRun` | anharmonic/phonon3/collision_matrix.py:56-91 | After `set_grid_point(g)`, the next `run` calls `run_interaction`. |
| `CollisionMatrix.RunTwice` | anharmonic/phonon3/collision_matrix.py:56-69 | Two runs with the same self-energy give matrices of equal shape and equal entries. The second run does not call `run_interaction`; it uses the interaction cached by the first. |

## Left out

- The values of `np.sinh`, `THzToEv`, `Kb`, `unit_conversion`, `fc3_normal_squared` and `g` are not modelled, nor is IEEE-754 double arithmetic. They fold into the opaque real `weight(ti, j, k)`, and sums are exact over `real`.
- The triplet tuple lookup `triplets_at_q[ti]` and `frequencies[tp[2]]` (lines 120-122) are folded into `weight`. `triplets_at_q` and `weights_at_q` are not stored, so the model does not state that `ti` indexes `triplets_at_q`.
- `run_interaction` and `_run_with_band_indices` are inherited from a base class that is not part of this model. Their results are the `computed` and `selfEnergy` arguments of `Run`. `selfEnergy` stands for the self-energy as `_set_collision_matrix` reads it, which is after the call at line 94.
- `similarity_transformation`, `get_ir_grid_points`, `get_grid_point_from_address`, spglib and the symmetry queries are foreign calls. Their outputs are given inputs, with only bounds assumed.
- `CollisionMatrix.CollisionMatrixBuilder.constructor` models only the state with no grid point. Construction with a grid point runs the base-class constructor, which is not part of this model.
- The base-class setters are not modelled. `temperature` is a plain real fixed at construction, and a missing temperature is not modelled.
- The division at line 130 is modelled as true division over reals. Under Python 2 floor division only the bound (`FloorDivisorAtLeastOne`) is stated.
- An empty set of point operations (a `ZeroDivisionError` at line 130) is excluded by the class invariant, because a point group always holds the identity.
- `CollisionMatrix.CollisionMatrixBuilder.Run` requires `num_band <= num_band0` when `temperature > 0` and the fixed point is irreducible. This excludes the `IndexError` the self-energy loop would raise; the model does not describe the partly written matrix in that case.
- numpy reshaping and broadcasting and the `lang` switch are plumbing and are not modelled. The vectorised 3x3 updates are `forall` statements.
- Physical properties of the assembled matrix (symmetry, detailed balance) are not modelled. The code does not enforce them.
- Idempotence of `run` is stated only for two runs that receive the same `selfEnergy` argument (`RunTwice`). `Run` sets `imagSelfEnergy` to its argument, and the self-energy computation itself is not part of this model.
