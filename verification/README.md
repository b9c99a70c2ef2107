# comets: a Dafny model of the simulation step

This project models the core of `comets`, a small 2-D comet simulator written
in Rust and compiled to WebAssembly. A `System` owns a vector of point-mass
`Body` values: one star, comets added by the user, and dust that comets shed.
Each `tick` runs three passes over that vector:

1. **Removal.** A `while` loop drops expired dust and every body whose distance
   from the origin exceeds 2. It uses `swap_remove` and re-tests the same index.
2. **Pairwise.** A pass runs over the `n` bodies present after removal.
   - Every pair `i < j` pulls both bodies together with equal and opposite weighted gravity.
   - When the primary body (index 0) meets a comet, one random draw may shed a dust body. The dust is appended at once, with an id stamped by `add`.
   - The primary pushes every other body away by radiation pressure.
3. **Integration.** Only the first `n` bodies are stepped. On its first step a body reads its `qp` field as an initial velocity. After that the update is position Verlet.

The model is organised as the program is:

| file | module | contents |
|---|---|---|
| `vectors.dfy` | `Vectors` | plane vectors over `real` |
| `params.dfy` | `Params` | the fixed constants of a step |
| `bodies.dfy` | `Bodies` | `Body`, the `star`/`comet`/`dust` presets and the builder |
| `system.dfy` | `Systems` | `System`, `new`, `add`, `count`, `body` and the validity invariant |
| `pruning.dfy` | `Pruning` | the removal pass and its reference filter |
| `pairs.dfy` | `Pairs` | the pairwise pass, the dust emission and the visiting order |
| `momentum.dfy` | `Momentum` | Newton's third law for the pairwise pass |
| `integration.dfy` | `Integration` | the integration pass and motion without forces |
| `tick.dfy` | `Ticks` | the whole step |

Modelling choices:

- **Numbers.** `f64` becomes exact `real`. The polynomial update formulas are stated exactly.
- **Vector norms.** `norm`, `sqrt` and the divisions by `r` and `r^2` are kept abstract in a `Field` value of three functions:
  - `unit`, the direction of a separation;
  - `gravity`, the pull per unit mass;
  - `pressure`, the radiation push.
- **The escape test.** It is written `NormSq(q) > 2 * 2`, so it needs no square root.
- **Random draws.** `rng.gen() < dt / r2` becomes an injected oracle `draws(c, r2)`. It gives the outcome of draw number `c`. The comets met in the first row take draws `0, 1, 2, …` in index order.
- **The pass state.** The pass works on an immutable `System` value that it threads through. It is not a mutable object.

## Model

| member | source | states |
|---|---|---|
| `Bodies.StarPreset` | src/lib.rs:65-75 | the star preset is a fresh star of mass 1000 at rest at the origin, with id 0 |
| `Bodies.CometPreset` | src/lib.rs:77-87 | the comet preset is a fresh comet of mass 1 at rest at the origin, with id 0 |
| `Bodies.DustPreset` | src/lib.rs:89-99 | the dust preset is a fresh particle of mass 0.00001 at rest at the origin that carries the parent's id |
| `Bodies.Builder.Mass` | src/lib.rs:126-129 | the mass setter changes the mass and nothing else |
| `Bodies.Builder.Position` | src/lib.rs:131-134 | the position setter changes the position and nothing else |
| `Bodies.Builder.Velocity` | src/lib.rs:136-140 | the velocity setter writes `qp` and nothing else |
| `Bodies.ConfiguredBodyIsFresh` | src/lib.rs:124-145 | no chain of setters gives a body a lifetime, an acceleration, another kind or another id |
| `Systems.New` | src/lib.rs:149-154 | a new system is empty and valid, and the first id it hands out is 0 |
| `Systems.Add` | src/lib.rs:156-160 | `add` appends, keeps the earlier bodies, stamps the body with the current `keygen` whatever id it carried, bumps `keygen` by one, and keeps a valid system valid |
| `Systems.AddAllStampsConsecutiveIds` | src/lib.rs:156-160 | successive `add` calls hand out consecutive ids, so the ids are strictly increasing and never reused |
| `Systems.Count` | src/lib.rs:162-164 | `count` is the number of bodies truncated to 32 bits |
| `Systems.BodyAt` | src/lib.rs:166-168 | `body(i)` yields the body at `i` exactly when `i` is in range, and otherwise fails with the index and the length |
| `Systems.BodyAtAfterAdd` | src/lib.rs:156-168 | after `add`, the count grows by one, the new body sits at the last index and every earlier index still yields the same body |
| `Pruning.Survivors` | src/lib.rs:175-190 | the reference filter keeps a body exactly when it is neither an expired particle nor escaped |
| `Pruning.SwapRemove` | src/lib.rs:180 | `swap_remove` removes one occurrence of the element, moves the last element into the gap and leaves every other position alone |
| `Pruning.SwapRemoveKeepsIds` | src/lib.rs:180 | swap-removal only drops a body: every remaining body came from the input, and distinct ids stay distinct |
| `Pruning.Prune` | src/lib.rs:175-190 | the removal loop terminates, re-tests the swapped-in element, and leaves exactly the multiset of kept input bodies with distinct ids kept distinct; every body with no evicted body at or before it keeps its index, in particular a kept primary stays at index 0, and a collection in which every body is kept comes out unchanged |
| `Pruning.AllKeptSurvive` | src/lib.rs:176-189 | a collection in which every body is kept passes the reference filter unchanged; `Pruning.Prune` uses it to show that the loop leaves such a collection unchanged too |
| `Pruning.EvictionKeepsPlaces` | src/lib.rs:178-186 | an eviction at the current index never moves a body that has no evicted body at or before it |
| `Pairs.Emitters` | src/lib.rs:210-224 | the emitting indices are comets between 1 and the bound, strictly increasing, and no more than the draws taken |
| `Pairs.EmittersExactly` | src/lib.rs:210-224 | an index is an emitter exactly when it is a comet whose draw succeeds |
| `Pairs.SpawnDust` | src/lib.rs:213-223 | the dust is a fresh particle of dust mass, placed `dt` along the pair direction from the comet, with `qp` the comet's finite-difference velocity |
| `Pairs.RowCount` | src/lib.rs:194 | the row bound leaves no row without a partner and misses none, and agrees with the source's `n - 1` whenever `n > 0` |
| `Pairs.AllPairsExactlyOnce` | src/lib.rs:194-195 | the nested loops visit exactly the pairs `i < j < n`, each once, in strictly increasing lexicographic order |
| `Pairs.Interact` | src/lib.rs:196-228 | one pair adds equal and opposite weighted gravity to both bodies, takes a draw and may append dust for a comet partner of body 0, then adds the pressure |
| `Pairs.PairPass` | src/lib.rs:192-230 | the pass visits all pairs of the snapshot once, gives each snapshot body its full net acceleration with its other fields unchanged, and appends the dust of the emitters in order with consecutive fresh ids |
| `Momentum.PairCancels` | src/lib.rs:205-208 | one pair's mass-weighted pulls on its two bodies cancel |
| `Momentum.GravityConservesMomentum` | src/lib.rs:194-209 | the mass-weighted gravity the pass adds over all bodies sums to zero, so gravity conserves total momentum |
| `Integration.Step` | src/lib.rs:233-244 | a step ages the body, moves `q` into `qp` and clears `a`. On the first step the displacement is `v dt + a dt^2 / 2`. Afterwards the displacement grows by `a dt^2` |
| `Integration.DriftKeepsDisplacement` | src/lib.rs:238-244 | without acceleration, a stepped body keeps its displacement per step and moves in a straight line |
| `Integration.UniformMotionFromLaunch` | src/lib.rs:234-244 | a fresh body launched with velocity `v` and no acceleration is at `q + k v dt` after `k` steps |
| `Integration.Integrate` | src/lib.rs:232-245 | the first `n` bodies are stepped and the bodies from `n` on are untouched |
| `Ticks.Advance` | src/lib.rs:192-245 | after the pairwise and integration passes, each snapshot body is stepped with its net acceleration, and the newborn dust follows unstepped with lifetime 0 and consecutive fresh ids |
| `Ticks.Tick` | src/lib.rs:170-246 | a tick keeps exactly the kept bodies, leaves every body of the all-kept prefix (such as a kept primary) at its index and a system with nothing to evict in order, advances them, and keeps a valid system valid: ids stay distinct and below `keygen`, and no acceleration survives |
| `Ticks.LoneBodyCoasts` | src/lib.rs:194-236 | a lone survivor takes no pull, push or draw, and on its first step moves to `q + qp dt` exactly |

## Left out

- The WebAssembly glue is not modelled: the `wasm_bindgen` externs, the `logf` macro, `wee_alloc` and the `Display` impl. They are host plumbing.
- The browser front end (`www/index.js`) is not modelled. It only draws and takes mouse input.
- The read accessors `qx`, `qy`, `mass` and `kind` are not modelled. They only copy fields.
- Floating point is not modelled. Reals are exact, so rounding, `NaN` and infinities are not covered. This includes the division by zero when two bodies coincide, and `sqrt` of a non-positive mass.
- The force and pressure magnitudes are abstract. `Field` takes no position on their numeric content, only on where and with which sign they are applied.
- The emission probability `dt / r2` is not modelled. The model records which draw each comet takes and what a success does. It says nothing about how likely a success is.
- `Pairs.Emits`: the draw is keyed on the squared distance `NormSq(u)`. The source compares with `r * r`, where `r` is the floating-point norm.
- `Bodies.Body`: `id` and `lifetime` are `u64` in the source and unbounded naturals here. Overflowing them would take 2^64 calls to `add` or ticks.
- `Systems.BodyAt`: an out-of-range index panics in the source. The model returns an `IndexOutOfRange` error value instead.
- `Pruning.Prune`: the survivors are specified as a multiset, and by position only for the bodies before the first eviction. Where the swaps move bodies, their exact order is not stated.

Two behaviours are modelled as the code has them:

- **Dust ids.** `Body::dust(parent)` stores the parent's id in the `id` field (src/lib.rs:89-91), but `add` overwrites it with a fresh one (src/lib.rs:157), so no shed dust keeps its parent's id. The model follows the code (`Ticks.Advance` stamps every newborn with `keygen + t`).
- **Dust velocity on a comet's first tick.** The dust's velocity is `(q - qp) / dt`. A comet on its first tick still holds its initial velocity in `qp`, so the formula then mixes a position with a velocity. The model reproduces this (`Pairs.SpawnDust` states it for any `qp`).

## Findings

| source | as written | input that shows it | evidently intended | confidence | as-written member | corrected member |
|---|---|---|---|---|---|---|
| src/lib.rs:194 | `for i in 0..(n-1)` with `n: usize` | a tick of a system with no bodies left after removal, such as `System::new()` followed by `tick()`: `n - 1` underflows. It panics in a debug build. In a release build for wasm32 it wraps to 2^32 - 1 rows over an empty vector | no rows when `n == 0` | not executed; high | `Pairs.EmptyCollectionWrapsRowBound` | `Pairs.RowCount` |

`Pairs.EmptyCollectionWrapsRowBound` evaluates the source's wrapping bound `Pairs.RowCountAsWritten` at zero. `Pairs.RowCount` is the corrected bound that `Pairs.PairPass` uses. `Pairs.AllPairsExactlyOnce` proves that, with it, the pass visits exactly the pairs `i < j < n` for every `n`, including `0`.
