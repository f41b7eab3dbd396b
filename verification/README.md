# aster.js planning core in Dafny

A model of the planner behind aster.js. aster.js is a browser toy in which a ship
dodges asteroids by Monte-Carlo look-ahead. Each frame the planner does four things:

1. It draws random thrust and heading sequences.
2. It replays each sequence on a private copy of the world. In that copy, the
   asteroids move in straight lines and die once they leave the arena. The ship
   is speed-capped and clamped to the walls. A point-in-circle test ends a replay
   at the first collision.
3. It retries with a bigger batch and a shorter horizon when nothing survives.
4. It picks the first input of the best surviving candidate.

The model is split into modules that follow the source:

- `Numerics` holds the shared vocabulary. It has plane vectors, squares and
  pi. It also has the `Maths` record that carries `Math.cos`, `Math.sin` and
  `Math.sqrt`. The caller supplies these three functions. `ValidSqrt` is the
  one property of the square root the model relies on. `UnitDraws` says that
  every `Math.random` draw, taken from a caller-supplied stream `rand`, lies
  in [0, 1).
- `Asteroids` models `Asteroid`: `clone`, `stateAfter` and `step`.
- `Players` models `Player`: `clone`, `stateAfter` and `step`, with the speed
  cap and the wall clamp.
- `Collision` models `alive`.
- `Simulator` models `simulate`. `Replay` is the replay loop, measured against
  `Trajectory`, the collision-free reference run. `SimulateWith` is stated
  for any world-step rule. `Simulate` instantiates it with the
  player-and-asteroids step.
- `Planner` models `search`:
  - `Turn` is one iteration of its loop.
  - `Passes` is the loop itself.
  - `SearchWith` is stated for any simulator with the right result shape.
  - `Search` runs it with `Simulate`.
- `Selection` models the selection block of `draw`. `SortByScore` is the
  stable descending sort. `Scan` is the loop with its early exit. `Choose`
  is the whole block, and `Decide` is one frame's search followed by selection.

The source mutates objects in place. The model uses immutable values instead:

- `step` returns the updated body.
- The sort returns the sorted sequence.
- `simulate` starts from the copy `Start(player, asteroids)`. Nothing it does
  can reach the caller's player or asteroids.

Some behaviours of the source are modelled as written:

- `Player.clone` resets the speed cap and radius to the constructor's 1 and 8,
  because it builds the copy through the constructor. The copy equals the
  original exactly when the original still has those values.
- `Asteroid.clone` revives a dead asteroid, since its constructor sets `alive`.
- The score is measured against the page's global 512 x 512 arena, not
  against the player's own width and height.
- `search` restarts a pass by setting the index to 0 just before the loop
  increments it, so every restarted pass skips index 0. After n doublings the
  search has run 2 * simCount - 128 - n candidates (`Planner.TotalRuns`).
- Every candidate takes fresh draws: candidate j of the whole search, counted
  across restarts, uses the `2 * HorizonOf(j)` draws from `OffsetOf(j)` on,
  and `HorizonOf(j)` is 24 minus the number of the pass it falls in.
- The cap fires on the seventh doubling (simCount 16384 > 10000). So the
  horizon never drops below 24 - 7 = 17, and the floor of 4 is never reached.
- The early exit of the selection loop compares against the constant 24, not
  against the horizon the search ended with. `Selection.ScanFindsFirstLongest`
  shows that this never changes the choice, because no result is longer than
  24 steps.
- The thrust draw `0.1 + Math.random() / 5` lies in the half-open interval
  [0.1, 0.3).
- The collision test treats the player as a point. Only the asteroid's
  radius counts.


## Model

| member | source | states |
|---|---|---|
| Asteroids.New | aster.js:2-11 | a new asteroid holds exactly the given position, velocity, radius and arena size, and starts alive |
| Asteroids.Clone | aster.js:13-16 | the copy keeps position, velocity, radius and arena size, and is alive whatever the original's flag |
| Asteroids.StateAfter | aster.js:18-38 | the position moves by velocity times dt; the result is alive exactly when the asteroid was alive and the new position lies within the arena widened by the radius on each side |
| Asteroids.Step | aster.js:40-45 | commits the stateAfter position and flag, keeps velocity, radius and arena size, and never turns a dead asteroid alive |
| Asteroids.NeverRevives | aster.js:40-45 | over any number of steps with arbitrary time deltas (these cover the live world's dt of 1 per frame; the simulator's growing steps 1, 1.25, 1.5, ... are covered by `Simulator.AsteroidsStayDead`) a dead asteroid stays dead, and one alive at the end was alive at the start; velocity and radius are kept |
| Players.New | aster.js:49-58 | a new player rests (zero velocity) a third of the way into the arena on each axis, with speed cap 1 and radius 8 |
| Players.Clone | aster.js:60-67 | the copy keeps position, velocity and arena size but takes the constructor's speed cap 1 and radius 8; it equals the original exactly when the original has those values |
| Players.CapSpeed | aster.js:74-79 | the result is within the cap; a velocity within the cap is returned unchanged; a faster one comes back with squared length exactly cap squared, parallel to and pointing with the input |
| Players.Rescale | aster.js:76-78 | dividing by the magnitude and multiplying by the cap gives squared length cap squared, parallel to the input and not reversed |
| Players.RescaledNorm | aster.js:76-78 | the algebra behind the rescale: squared norm, zero cross product and non-negative dot product of the rescaled vector |
| Players.Clamp | aster.js:82-91 | below the low bound gives the low bound, otherwise above the high bound gives the high bound, otherwise the value itself, so the result lies between the bounds when they are ordered |
| Players.StateAfter | aster.js:69-99 | the new velocity is the thrusted one when within the cap and otherwise exactly at the cap; the position stays in [r, width - r] x [r, height - r] when the arena is a diameter wide, equals the moved position when that is inside, and stops at the wall it passed |
| Players.Step | aster.js:101-107 | commits exactly the stateAfter position and velocity and keeps speed cap, radius and arena size |
| Collision.Alive | aster.js:147-156 | true exactly when every asteroid is at squared distance at least its radius squared: touching the rim is survivable, an empty field always is, and asteroid flags play no part |
| Collision.AliveSeesOnlyPositions | aster.js:147-156 | two fields that agree on player position and on each asteroid's position and radius get the same verdict |
| Simulator.PlayerStaysInArena | aster.js:330-339 | along any replay the player keeps cap, radius and arena size, moves no faster than the cap after a step, and stays inside the clamped box |
| Simulator.AsteroidsStayDead | aster.js:336-338 | along any replay the asteroid field keeps its size, velocities and radii, and an asteroid flagged alive after n steps was flagged alive after every earlier step |
| Simulator.Replay | aster.js:330-351 | the recorded worlds are the collision-free reference trajectory; every world before the last recorded one is collision-free; the replay either runs to the end or stops exactly at the first colliding world |
| Simulator.SurvivesIffAllAlive | aster.js:330-351 | a replay from the start survives exactly when every world of the reference trajectory is collision-free |
| Simulator.Score | aster.js:352 | the score is at most 0, and is 0 exactly at the centre of the arena |
| Simulator.EmptyFieldSurvives | aster.js:325-362 | on a field with no asteroids every rollout survives, whatever the player and inputs |
| Simulator.SimulateWith | aster.js:325-362 | echoes the first input; alive exactly when every reference world is collision-free; a live result records one position per input and scores minus the squared distance to the centre; a dead one scores 0 and records up to and including the first colliding step |
| Simulator.Simulate | aster.js:325-362 | the result shape: first input echoed, between one step and one per input (all of them when alive), score at most 0 and 0 when dead |
| Planner.Candidate | aster.js:294-303 | a candidate has one input per step, and with draws in [0, 1) every thrust is in [0.1, 0.3) and every heading in [0, 2 pi) |
| Planner.BatchSizeBounds | aster.js:311-316 | six doublings keep the batch at most 8192; the seventh reaches 16384, past the cap |
| Planner.PassOfRange | aster.js:291-320 | the candidates from RunsBefore(n) to the end of pass n belong to pass n, so each is drawn with that pass's horizon 24 - n |
| Planner.WindowsDisjoint | aster.js:291-303 | the draw windows of the candidates tile the random stream: an earlier candidate's 2 * HorizonOf(i) draws end at or before a later one's first draw, so no candidate repeats another's draws |
| Planner.TotalRuns | aster.js:291-320 | after n doublings the search has run 2 * BatchSize(n) - 128 - n candidates, one fewer per restarted pass |
| Planner.Appended | aster.js:305-309 | a turn that does not end a pass without survivor keeps the loop invariant with the result appended |
| Planner.Restarted | aster.js:311-320 | a pass ending with no survivor starts the next pass with the batch doubled, the flag forced past the cap and the horizon one shorter, keeping the loop invariant |
| Planner.Turn | aster.js:291-320 | one loop iteration appends exactly the simulation of the candidate drawn from the next 2 * simDuration draws, keeps the invariant and makes progress: a doubling or a step towards the end of the pass |
| Planner.Passes | aster.js:284-323 | the loop ends with batch size and horizon of some pass n <= 7, results counted by the closed form, all earlier passes dead, a survivor unless the cap fired, and result j simulated from the j-th scheduled candidate (`HorizonOf(j)` steps from draw `OffsetOf(j)`) |
| Planner.SearchWith | aster.js:284-323 | batch between 128 and 16384, horizon between 17 and 24, nothing alive before the final pass, a survivor or the cap passed, survivors lived the final horizon, result j is the simulation of the j-th scheduled candidate, and every first input lies in the drawn range |
| Planner.Search | aster.js:284-323 | for the planner's simulator on the given world and draws: batch between 128 and 16384 and equal to the doubled batch the horizon implies, horizon between 17 and 24, 2 * simCount - 128 - (24 - simDuration) results, nothing alive before the final pass, a survivor or the cap passed, and result j equal to Simulate on this player and field for the j-th scheduled candidate: `HorizonOf(j)` steps drawn from `OffsetOf(j)` on |
| Planner.Simulated | aster.js:305 | results drawn through the planner's simulator are Simulate's results on the current player and field for their scheduled candidates |
| Planner.PassCounts | aster.js:291-320 | the pass structure read off the final batch and horizon: the result count, the batch size the horizon implies, and which leading results died in earlier passes |
| Selection.Insert | aster.js:182-184 | insertion is a permutation that keeps a best-first sequence best-first |
| Selection.SortByScore | aster.js:182-184 | the sort is a permutation of the results, ordered best score first |
| Selection.InsertKeepsTies | aster.js:182-184 | insertion puts the new result ahead of all results of equal score and leaves their order alone |
| Selection.SortIsStable | aster.js:182-184 | for every score value, the results of that score appear in input order after the sort |
| Selection.MaxReach | aster.js:185-194 | the furthest step count of a surviving result bounds every result's and is attained (or 0) |
| Selection.Scan | aster.js:185-194 | the loop ends on its starting choice or on the first input of a surviving result |
| Selection.ScanFindsFirstLongest | aster.js:185-194 | with no result longer than 24 steps, the loop keeps its choice when nothing gets further and otherwise ends on the first result of the furthest reach, so the early exit never changes the answer |
| Selection.LongestExists | aster.js:185-194 | when some survivor recorded a step, a first furthest result exists |
| Selection.MaxReachPermuted | aster.js:182-194 | the furthest reach does not depend on the order of the results, so sorting does not change it |
| Selection.ScanPicksSurvivor | aster.js:182-194 | the sorted scan ends on coast or on the first input of a surviving result of the unsorted input |
| Selection.Choose | aster.js:180-194 | the action is coast or the first input of a surviving result |
| Selection.ChoosesFirstLongest | aster.js:180-194 | coast when no survivor recorded a step; otherwise the first input of the first result, in sorted order, among those that got furthest |
| Selection.ChoiceFacts | aster.js:179-194 | on results shaped as search leaves them, coast exactly when none survived, and otherwise a drawn-range first input of a survivor that ran the final horizon |
| Selection.Decide | aster.js:177-194 | one frame's decision on the given world and draws: the search's batch, horizon and result count, result j the simulation of this player and field on the j-th scheduled candidate; coast exactly when no candidate survived, otherwise the first input of the first furthest survivor in sorted order, with thrust in [0.1, 0.3) and heading in [0, 2 pi); with no asteroids on the field it never coasts |

## Left out

- Rendering is not modelled (aster.js:113-120, 158-174, 203-273). This covers
  the canvas setup, `drawPlayer`, the background and the trajectory drawing.
  It is display output with no bearing on the decision.
- The frame counter and `requestAnimationFrame` scheduling (aster.js:274-279)
  are event-loop plumbing.
- Asteroid spawning (`spawnAsteroid`, `spawnNextAsteroid`, aster.js:128-145)
  is left out. It only chooses the field the planner is given.
- The live-world update in `draw` (aster.js:196-202) is left out. It applies
  the chosen action with `Players.Step` and steps the asteroids with
  `Asteroids.Step`; those two step functions are modelled. Its filter that
  drops dead asteroids (aster.js:197-199) is not modelled.
- Floating point is not modelled. All quantities are reals, so rounding,
  NaN and infinities play no part.
- `Math.cos` and `Math.sin` are caller-supplied and unconstrained.
- `Math.sqrt` is caller-supplied. It is constrained only on positive
  arguments, where its result is positive and squares back to the argument.
- `Math.random` is a caller-supplied stream `rand` with every draw in
  [0, 1). The k-th call returns `rand(k)`, and each step takes its thrust
  draw before its heading draw.
- Simulator.Simulate: requires a non-empty input sequence. The source reads
  `inputs[0]` for the echo, and search always passes at least 17 inputs.
  The full trajectory characterisation is stated on `SimulateWith`, of which
  `Simulate` is the instance for the player-and-asteroids step.
- In-place mutation of `results` by `sort`, and of bodies by `step`, is
  modelled by returning new values. Nothing outside the planner observes the
  difference.
