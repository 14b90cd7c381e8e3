# pytrafficflow traffic dynamics in Dafny

This project models the three traffic-dynamics components of pytrafficflow and proves properties of them.

- **IDM ring road** (`RingRoad`, `ring_road.dfy`). It covers:
  - the vehicle record and its truck override;
  - the Intelligent Driver Model acceleration law;
  - the same-lane leader search, which does not wrap around the ring;
  - the two-phase road update. The update first computes every acceleration from the pre-step list into a table keyed by id. It then clamps each speed at zero, moves the vehicle ballistically with the new speed, and wraps it around the ring once.
- **Particle corridor** (`Particle`, `particle.dfy`, with the car record `Cars.ParticleCar` in `particle_car.dfy`). It covers:
  - an open road of length `L` whose cars are kept in descending order of position;
  - insertion of a car, equal to the stable descending re-sort;
  - the greedy one-step-lookahead velocity law clamped to `[0, vmax]`;
  - a front-to-back velocity sweep in place;
  - a position pass;
  - removal of the cars beyond `L`, a clock advance and a windowed density count.
- **Velocity-density relation** (`Velocity`, `velocity.dfy`). It covers:
  - the constructor, which derives the jam density, the default critical density and the continuity exponent `K3`;
  - evaluation by a zero array overwritten by three ordered masks (free flow, congested, standstill);
  - the derivative, the flux and the flux derivative.

`Wrappers` (`wrappers.dfy`) holds the `Option` and `Result` types.

The top-level `data/synthetic/one_road.py` and `core/velocity.py` are byte-identical copies of their `pytrafficflow/` counterparts. One model serves each pair, and some rows below cite the copy.

Three consequences of the code are worth stating:

- `Road.update` moves each vehicle with its new, clamped speed. A lone default car at rest therefore moves 1.5 in a step of 1 s: the new speed 1 times 1 s, plus half the acceleration (`RingRoad.LoneCarFromRest`).
- The wrap leaves a position of exactly `length` or exactly 0 untouched. A vehicle that starts in the closed interval `[0, length]` and moves by at most `length` either way ends in `[0, length]` (`RingRoad.WrapStaysOnRing`).
- With `vmax = 100`, `dmin = 0.01`, `lcar = 0.005`, `K1 = 80`, `K2 = 1` and the default critical density, the jam density is exactly 1/3. The density 0.3333 lies just below it, so it is on the congested branch and its velocity is not zero (`Velocity.OneThirdJamDensity`).

## Model

| member | source | states |
|---|---|---|
| RingRoad.NewVehicle | pytrafficflow/data/synthetic/one_road.py:16-37 | every field keeps its passed or default value, except that a truck always gets length 15 and desired speed 25 |
| RingRoad.DesiredGap | pytrafficflow/data/synthetic/one_road.py:59-60 | the desired gap `s*` is never below the jam gap `s0` |
| RingRoad.FreeRoadAcceleration | pytrafficflow/data/synthetic/one_road.py:50-52 | the free-road law; a vehicle between rest and its desired speed accelerates by at least 0 and at most `aMax` (for `aMax >= 0`) |
| RingRoad.FreeRoadExtremes | pytrafficflow/data/synthetic/one_road.py:50-52 | the free-road law gives `aMax` from rest (positive exponent) and zero at the desired speed |
| RingRoad.FreeRoadBound | pytrafficflow/data/synthetic/one_road.py:50-52 | with `aMax > 0` and an even exponent the free-road acceleration is at most `aMax` |
| RingRoad.FollowingAcceleration | pytrafficflow/data/synthetic/one_road.py:54-66 | free-road term minus `aMax * (s*/max(s, 0.1))^2`, with the gap `s` measured to the leader's rear; never above the free-road term when `aMax >= 0`; at most `aMax` when `aMax > 0` and the exponent is even |
| RingRoad.CalcAcceleration | pytrafficflow/data/synthetic/one_road.py:43-66 | no leader: the free-road law, `aMax` from rest, zero at the desired speed; with a leader, a gap of 0.1 or less divides by the floor 0.1 and a larger one by the gap itself; a leader never raises the value above free road; at most `aMax` for an even exponent and `aMax > 0` |
| RingRoad.Filter | pytrafficflow/data/synthetic/one_road.py:84-88 | the result holds exactly the elements of the list that satisfy the condition, and is no longer than the list |
| RingRoad.NearestIndex | pytrafficflow/data/synthetic/one_road.py:94 | `min` by position: an index of minimal position, and the first such index in list order |
| RingRoad.LeaderOf | pytrafficflow/data/synthetic/one_road.py:82-94 | none exactly when no other-id, same-lane vehicle is strictly ahead; otherwise one such vehicle from the list with the smallest position among them |
| RingRoad.FrontMostHasNoLeader | data/synthetic/one_road.py:84-94 | the front-most vehicle of a lane has no leader, because the search never wraps |
| RingRoad.LeaderPositionIgnoresOrder | pytrafficflow/data/synthetic/one_road.py:84-94 | whether there is a leader, and the leader's position, depend only on which vehicles are on the road, not on their order |
| RingRoad.Road.GetLeader | pytrafficflow/data/synthetic/one_road.py:82-94 | on the road's own list: none exactly when no other-id, same-lane vehicle is strictly ahead; otherwise one of them with the smallest position |
| RingRoad.AccelerationTable | pytrafficflow/data/synthetic/one_road.py:99-102 | every visited vehicle's id is a key of the table |
| RingRoad.TableStep | pytrafficflow/data/synthetic/one_road.py:100-102 | visiting one more vehicle sets (or overwrites) its id's entry to its acceleration against the pre-step list |
| RingRoad.LastWriteWins | pytrafficflow/data/synthetic/one_road.py:99-102 | an id's entry is the acceleration of the last vehicle with that id, computed against the pre-step list |
| RingRoad.DistinctIdsOwnAcceleration | data/synthetic/one_road.py:99-102 | with distinct ids, every vehicle's entry is its own IDM acceleration against its pre-step leader |
| RingRoad.Wrap | pytrafficflow/data/synthetic/one_road.py:110-114 | above `length`, subtract it once; below zero, add it once; `[0, length]`, both ends included, is untouched |
| RingRoad.WrapStaysOnRing | data/synthetic/one_road.py:110-114 | from a position in `[0, length]`, a move of at most `length` either way ends in `[0, length]` |
| RingRoad.Advance | pytrafficflow/data/synthetic/one_road.py:105-114 | only speed and position change; the speed becomes `max(0, speed + a*dt) >= 0`; the position moves by the new speed times `dt` plus `a*dt^2/2` and is wrapped once |
| RingRoad.LoneCarFromRest | pytrafficflow/data/synthetic/one_road.py:96-114 | a lone default car at rest accelerates at 1, and after 1 s has speed 1 and position 1.5 |
| RingRoad.UpdateKeepsSpeedsNonNegative | pytrafficflow/data/synthetic/one_road.py:107 | every speed after an update is non-negative |
| RingRoad.Road.constructor | pytrafficflow/data/synthetic/one_road.py:72-76 | stores the length and lane count; the road starts empty |
| RingRoad.Road.AddVehicle | pytrafficflow/data/synthetic/one_road.py:78-80 | appends the vehicle, with no id check; nothing else changes |
| RingRoad.Road.ComputeAccelerations | pytrafficflow/data/synthetic/one_road.py:98-102 | the dictionary the first loop builds is the acceleration table of the current list, computed against that same list |
| RingRoad.Road.Update | data/synthetic/one_road.py:96-114 | the list keeps its length and order; each vehicle is advanced with the table entry for its id, and every entry is computed from the pre-step list |
| Cars.ParticleCar.constructor | core/vehicle.py:6-19 | stores position in `x`, velocity in `v` and acceleration (default 0) in `a`, with no validation |
| Particle.GreedyVelocity | pytrafficflow/models/particle.py:76-79 | the clamped law: never negative; at most `vmax` when `vmax >= 0`; meets the spacing equation `r*dt = front.x - x - dmin + front.v*dt` when no clamp is active; `vmax` or 0 when that clamp is active; when the unclamped value is not negative and `dt > 0`, the car ends the step at least `dmin` behind its front car |
| Particle.SweptVelocity | pytrafficflow/models/particle.py:88-89 | the velocity the sweep gives one car lies in `[0, vmax]` when `vmax >= 0` |
| Particle.Sweep | pytrafficflow/models/particle.py:88-89 | one velocity per car; the front car's is `vmax`; with `vmax >= 0` all lie in `[0, vmax]` |
| Particle.SweepRecurrence | pytrafficflow/models/particle.py:88-89 | each car behind the front one gets the greedy law on the old positions and the NEW velocity of the car ahead |
| Particle.Moved | pytrafficflow/models/particle.py:91-93 | one moved position per car |
| Particle.MovedForward | pytrafficflow/models/particle.py:91-93 | with a non-negative step a car with a non-negative velocity never moves backwards |
| Particle.SweepBounds | pytrafficflow/models/particle.py:88-89 | after the sweep every velocity lies in `[0, vmax]`, and the front car's is `vmax` |
| Particle.GapAfterStep | pytrafficflow/models/particle.py:76-93 | gap guarantee: if car i's unclamped value, computed with its front car's new velocity, is not negative, then after the position pass `x_i <= x_(i-1) - dmin` |
| Particle.StepKeepsOrder | pytrafficflow/models/particle.py:88-93 | the sweep and the position pass keep a descending corridor descending, so no car overtakes |
| Particle.Select | pytrafficflow/models/particle.py:96 | the filtered list is shorter by exactly the number of cleared flags |
| Particle.SelectMembers | pytrafficflow/models/particle.py:96 | an element survives the filter exactly when some position with a set flag holds it |
| Particle.SelectDescending | pytrafficflow/models/particle.py:96 | the filter keeps the relative order, so a descending list stays descending without a re-sort |
| Particle.SelectDistinct | pytrafficflow/models/particle.py:96 | the filter introduces no repetitions |
| Particle.OnRoad | pytrafficflow/models/particle.py:96 | one flag per car, set exactly when the car is at or before `L` |
| Particle.Exits | pytrafficflow/models/particle.py:96 | at most the number of cars, and zero when every car is at or before `L` |
| Particle.DroppedAreExits | pytrafficflow/models/particle.py:96 | the cars the filter drops are exactly the ones beyond `L` |
| Particle.KeptWithinRoad | pytrafficflow/models/particle.py:96 | every kept car is at or before `L` |
| Particle.ExitKeepsOrder | pytrafficflow/models/particle.py:96 | after the removal the list is still descending and repetition-free, and its positions and velocities are those of the kept cars |
| Particle.XsOf | pytrafficflow/models/particle.py:101-103 | one position per car, in list order |
| Particle.VsOf | pytrafficflow/models/particle.py:105-107 | one velocity per car, in list order |
| Particle.SelectPositions | pytrafficflow/models/particle.py:96-103 | the positions and velocities of the kept cars are the kept entries of the position and velocity lists |
| Particle.InsertionIndex | pytrafficflow/models/particle.py:49-52 | the insertion point follows every value at or above the new position, and the value after it is below |
| Particle.InsertionKeepsOrder | pytrafficflow/models/particle.py:49-52 | in a descending list everything after the insertion point is below the new position, and inserting there keeps the list descending: the stable descending sort of the appended list |
| Particle.InsertionKeepsDistinct | pytrafficflow/models/particle.py:49-51 | inserting a new object keeps the list free of repetitions |
| Particle.CountInWindow | pytrafficflow/models/particle.py:125-126 | at most the number of cars, and all of them when every car is in the window |
| Particle.CountIsCardinality | pytrafficflow/models/particle.py:126-127 | the running count is the number of cars in the closed window |
| Particle.DensityAt | pytrafficflow/models/particle.py:109-127 | density times window width equals the number of cars in the closed window `[x - w/2, x + w/2]` times the car length |
| Particle.TwoCarExample | pytrafficflow/models/particle.py:76-79 | a follower 10 km behind its front car, which drives at 20, takes `vmax = 100` |
| Particle.ParticleTrafficModel.constructor | pytrafficflow/models/particle.py:15-36 | stores the parameters with the step defaulting to 1/3600; no cars, clock at zero; the ordering invariant holds |
| Particle.ParticleTrafficModel.AddCar | pytrafficflow/models/particle.py:38-52 | exactly one fresh car is added, with the given position and velocity and zero acceleration, at the point a stable descending re-sort puts it; the old cars keep their relative order; the list stays descending |
| Particle.ParticleTrafficModel.ComputeVelocitySimple | pytrafficflow/models/particle.py:54-81 | index 0 gives `vmax`; any other car gets a value in `[0, vmax]` (when `vmax >= 0`) that meets the spacing equation when no clamp is active |
| Particle.ParticleTrafficModel.GetPositions | pytrafficflow/models/particle.py:101-103 | the cars' positions, in the current order, one per car |
| Particle.ParticleTrafficModel.GetVelocities | pytrafficflow/models/particle.py:105-107 | the cars' velocities, in the current order, one per car |
| Particle.ParticleTrafficModel.GetDensityAt | pytrafficflow/models/particle.py:109-127 | density times window width equals the number of cars in the closed window around `x` times the car length |
| Particle.ParticleTrafficModel.SweepVelocities | pytrafficflow/models/particle.py:88-89 | the velocities become the front-to-back sweep: each car sees the old positions and the new velocity of the car ahead; positions and accelerations are unchanged |
| Particle.ParticleTrafficModel.MovePositions | pytrafficflow/models/particle.py:91-93 | every position advances by its velocity times `dt`; velocities and accelerations unchanged |
| Particle.ParticleTrafficModel.Step | pytrafficflow/models/particle.py:83-99 | the kept cars are those whose moved position is at most `L`, in their old order; their positions and velocities are the sweep's; the count drops by exactly the number of exits; accelerations are untouched; the clock advances by `dt`; the ordering invariant is preserved |
| Velocity.NewVelocityFunction | pytrafficflow/core/velocity.py:17-48 | raises a division by zero exactly when `lcar + dmin = 0`, `K1 = 0`, or `K2 > 0` with a zero critical density or a zero car length (a zero float raised to a negative power); otherwise stores the parameters, with `rhoMax * (lcar + dmin) = lcar` (strictly inside (0, 1) for positive `lcar` and `dmin`), the critical density as supplied or 0.175, and `K3` solving the logarithmic continuity equation |
| Velocity.VelocityAt | pytrafficflow/core/velocity.py:64-79 | `vmax` on free flow below the jam density, the congested branch strictly between the two densities, and 0 from the jam density on, even where free flow also holds |
| Velocity.SlopeAt | pytrafficflow/core/velocity.py:96-105 | zero outside the open congested interval, the branch derivative inside |
| Velocity.Evaluate | pytrafficflow/core/velocity.py:50-79 | the three masked writes into a zero array give, elementwise and with the input's length, the pointwise velocity |
| Velocity.Derivative | core/velocity.py:81-105 | the single masked write gives, elementwise and with the input's length, the pointwise derivative |
| Velocity.Flux | pytrafficflow/core/velocity.py:107-121 | elementwise `v(rho) * rho`, with the input's length |
| Velocity.FluxDerivative | pytrafficflow/core/velocity.py:123-137 | elementwise `v(rho) + rho * v'(rho)`, with the input's length |
| Velocity.FluxAt | pytrafficflow/core/velocity.py:121 | zero from the jam density on, and the congested branch times the density strictly between the two densities |
| Velocity.FluxSlopeAt | core/velocity.py:137 | zero from the jam density on, and the product rule `v + rho * v'` on the congested branch |
| Velocity.FluxVanishes | pytrafficflow/core/velocity.py:121 | the flux is 0 at density 0 and from the jam density on |
| Velocity.FreeFlowFlux | core/velocity.py:121 | in free flow below the jam density the flux is `vmax * rho` |
| Velocity.FluxSlopeOutsideCongestion | pytrafficflow/core/velocity.py:137 | outside the open congested interval the flux derivative equals the velocity |
| Velocity.BoundaryVelocities | pytrafficflow/core/velocity.py:39-77 | for positive `lcar` and `dmin`, non-zero `K1` and a non-negative critical density that is not zero when `K2 > 0`, the construction succeeds; density 0 flows at `vmax`; and the jam density is at a standstill with zero flux |
| Velocity.OneThirdJamDensity | core/velocity.py:39-77 | `vmax = 100`, `dmin = 0.01`, `lcar = 0.005`, `K1 = 80`, `K2 = 1` and the default critical density give jam density exactly 1/3, `v(0.1) = v(0.175) = 100`, `v(1/3) = 0`, and 0.3333 on the congested branch |
| Velocity.ZeroDensityPowerRaises | pytrafficflow/core/velocity.py:48 | with `K2 = 1`, a zero car length or a zero critical density makes the construction raise |

## Left out

- `TrafficSimulation`, with its plotting, animation, `run` and the script entry point: rendering and console output.
- `initialize_traffic`: it draws initial speeds at random.
- The vehicle's display colour.
- The unused inheritance of `ParticleTrafficModel` from `ParticleCar`.
- The package `__init__.py` files: they only re-export.
- Floating-point rounding, overflow and NaN or infinity results: all quantities are mathematical reals.
- numpy broadcasting: `Velocity` evaluates one-dimensional sequences only. It does not model 0-d scalars or other shapes.
- Real-exponent powers, the logarithm and the square root (apart from the division by zero of a zero float raised to a negative power, which is modelled): these enter as function values (`pow`, `ln`, `sqrt`) about which nothing is assumed. Continuity of the velocity at the critical density and monotonicity are therefore not proved.
- Velocity.NewVelocityFunction: a zero logarithm in the denominator of `K3` is a precondition. numpy would yield an infinity or NaN there, not raise.
- RingRoad.CalcAcceleration: the exponent is a natural number (default 4). The source's float exponent 4.0 agrees with it, but non-integral exponents are not modelled. A zero desired speed is a precondition; Python would raise there. A zero `sqrt(aMax * bComfort)` when there is a leader is also a precondition, following the abstraction of the square root as a non-zero value; numpy would yield an infinity or NaN there, not raise. The source checks neither.
- RingRoad.Road.Update: vehicles are values in a list. One vehicle object entered twice in the list, which Python would update twice, is not modelled. The update requires the law's preconditions for every vehicle.
- RingRoad.LeaderPositionIgnoresOrder: order independence is stated up to the leader's position. When two candidates tie at the same position, `min` picks the first in list order, and that leader's speed and length can depend on the order.
- Particle.ParticleTrafficModel.Valid: the invariant assumes a positive step, `vmax >= 0` and `dmin >= 0`, which the constructor requires. The source checks none of them. Under these assumptions the list stays descending, which is what makes insertion equal to the stable re-sort.
- Particle.ParticleTrafficModel.ComputeVelocitySimple: Python's negative indices are not modelled. An index must be 0 or a valid positive index, and a non-zero step is required for positive ones.
- Particle.ParticleTrafficModel.GetDensityAt and Particle.DensityAt: the densities are stated multiplied by the window width, and a zero window is a precondition. Python would raise on a zero window.
- Particle.ParticleTrafficModel.AddCar: the sort itself is not modelled. Its result on an already descending list is modelled, as an insertion.
