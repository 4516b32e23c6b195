# NEAT car simulator: a Dafny model of the simulation engine

This project models the engine of the NEAT self-driving car simulator in `neat/main.py`.
A car drives on an 800 x 600 track image. Any pixel of colour (255, 255, 255, 255)
belongs to the border. Each car:

- checks whether its truncated centre is off the screen or on the border, and dies if so;
- moves `speed` units along its heading and checks again;
- re-fans its five radar rays (offsets -90, -45, 0, 45, 90 degrees), each marched one unit
  at a time up to length 149;
- feeds the ray distances, divided by 30 and padded to five, to its policy.

The policy picks the first index of its largest output:

- 0 turns left by 10 degrees;
- 1 turns right by 10 degrees;
- 2 keeps the course;
- anything higher accelerates by one, capped at 10.

Every car that is alive when its turn in a tick comes adds
`max(0, speed * cos(radians(360 - angle)))` of its state after `update` to its fitness. That
includes a turn in which `update` kills the car before it moves. A generation loops over ticks. It stops after a tick in which no car was alive, or once the
tick counter exceeds 30 * 40.

Modules, one per file:

- `Geometry` (`geometry.dfy`) holds:
  - the screen constants;
  - the track as a colour function;
  - Python's `int()` as truncation toward zero (`Trunc`);
  - the collision test `Impassable`;
  - the math library as a `Math` record of uninterpreted `cos`, `sin`, `radians` and a
    non-negative `hypot`.
- `Radar` (`radar.dfy`) holds:
  - the ray march as a specification (`MarchFrom`, `March`, `Ray`, `Scan`);
  - the loop that carries it out (`CastRay`);
  - the sensor vector (`SensorVector`).
- `Cars` (`car.dfy`) holds:
  - `CarState`, a snapshot of a car's fields, whose member functions are `center`,
    `get_data` and `get_reward`;
  - the specification functions of the state changes (`Advanced`, `CollisionChecked`,
    `RadarsRefreshed`, `Updated`);
  - the `Car` class, whose methods change its fields in place and are proved against
    those functions.
- `Simulation` (`simulation.dfy`) holds:
  - the argmax choice and the action (`Choose`, `Steer`);
  - one car's turn (`StepCar`);
  - a tick over the population as a specification (`TickUpTo`, `Tick`);
  - the `while True` loop as a specification (`Episode`, `Generation`);
  - the methods that run it on car objects (`TakeTurn`, `VisitCar`, `RunTick`, `Drive`,
    `RunSimulation`).

A car killed by the second collision check still has its radar refreshed
(neat/main.py:63-64).

## Model

| member | source | states |
|---|---|---|
| Geometry.TruncBounds | neat/main.py:53 | `int()` drops the fractional part toward zero: for r >= 0 the result is the floor and non-negative, for r < 0 it is the ceiling and non-positive |
| Geometry.TruncTowardZero | neat/main.py:53-54 | a centre coordinate of -0.5 becomes pixel 0, not -1 as a floor would give, so such a centre passes the bounds test |
| Radar.OffsetsStep | neat/main.py:78 | the k-th ray offset of `range(-90, 120, 45)` is -90 + 45k |
| Radar.MarchFrom | neat/main.py:79-87 | the march stops at a length in [start, 149]; every earlier length is passable; the stopping length is impassable unless it is 149 |
| Radar.MarchIsFirstStop | neat/main.py:79-87 | the march length is unique: any length whose predecessors are all passable and which is itself impassable (or is 149) is the march length |
| Radar.CastRay | neat/main.py:79-88 | the inner `while length < 150` loop returns exactly the specified reading: the pixel at the first stop (or at 149) and `int(hypot(...))` of its offset from the centre |
| Radar.Scan | neat/main.py:77-89 | a refreshed radar holds exactly five readings |
| Radar.SensorVector | neat/main.py:91-92 | with at most five readings the vector has exactly five entries; entry i is the i-th distance over 30 for i < len(radars) and 0 after that; with more readings nothing is cut off |
| Radar.BlockedCentreScan | neat/main.py:79-86 | when the centre pixel itself is off the screen or on the border, every ray stops at length 0 on that pixel |
| Radar.OpenRayFullRange | neat/main.py:80-88 | a ray with no impassable pixel in range ends at length 149, on a pixel inside the screen |
| Radar.RayTrace | neat/main.py:80-88 | every pixel traced before the stop is on the screen; a ray that did not break ran to length 149 and reports a pixel on the screen |
| Cars.CarState.SensorData | neat/main.py:91-92 | `get_data` has five entries whenever the radar has at most five readings |
| Cars.CarState.Reward | neat/main.py:99-101 | the reward is never negative; it is either 0 or speed * cos(radians(360 - angle)), and never below the latter; it is 0 when the heading's forward component is not positive and speed is not negative |
| Cars.CollisionCheckedIff | neat/main.py:67-73 | after `check_collision` the car is alive exactly when it was alive and its truncated centre is on the screen and off the border; no other field changes |
| Cars.UpdateDeadIsNoOp | neat/main.py:49-51 | `update` leaves a dead car entirely unchanged |
| Cars.UpdateBlockedBeforeMove | neat/main.py:53-56 | a car whose centre is blocked before the move only loses `alive`; its position, distance, heading, speed and radar stay as they were |
| Cars.UpdateMoves | neat/main.py:59-62 | after a passed first check the position moves by speed * cos/sin(radians(360 - angle)) and the distance grows by exactly speed; heading and speed do not change |
| Cars.UpdateAliveIff | neat/main.py:49-73 | after `update` the car is alive exactly when it was alive and passed both the check before the move and the check after it, so no car is revived |
| Cars.UpdateRefreshesRadars | neat/main.py:63-64 | once the car has moved, its radar holds the five rays at the new centre in offset order, even if the second check has just killed it |
| Cars.UpdateDistanceGrows | neat/main.py:62 | the distance never decreases while speed is not negative |
| Cars.Car.constructor | neat/main.py:27-34 | a new car sits at (630, 270) with heading 0, speed 5, alive, distance 0 and no readings |
| Cars.Car.Update | neat/main.py:49-64 | the method's new state is the specified `update` of its old state |
| Cars.Car.CheckCollision | neat/main.py:67-73 | the method's new state is the specified collision check of its old state |
| Cars.Car.CheckRadars | neat/main.py:76-89 | the clear-then-append loop leaves every field except `radars` unchanged and fills `radars` with the specified scan at the current centre |
| Simulation.Max | neat/main.py:153 | `max(output)` is an element of the output and at least every element |
| Simulation.IndexOf | neat/main.py:153 | `output.index(v)` is a position holding v, and no earlier position holds v |
| Simulation.Choose | neat/main.py:153 | the choice exists exactly when the output is non-empty; it indexes a largest output, and every earlier output is strictly smaller, so ties go to the lowest index |
| Simulation.ChooseTieBreak | neat/main.py:153 | on the output [0.5, 0.5, 0.1, 0.1] the choice is action 0 |
| Simulation.Steer | neat/main.py:154-161 | an action changes only heading and speed: choice 0 adds 10 to the heading, choice 1 subtracts 10, choice 2 changes nothing, any higher choice sets speed to min(speed + 1, MAX_SPEED) |
| Simulation.TickUpTo | neat/main.py:148-163 | the scan over the first k cars keeps the population size, leaves the cars from k on untouched, counts exactly the cars that were alive among the first k, and fails only on a car that was alive |
| Simulation.Episode | neat/main.py:141-176 | a finished loop keeps the population size; its final counter is at least the start value, and at most 1201 unless the loop started above that; a failure names a car of the population |
| Simulation.EpisodeUnfold | neat/main.py:165-176 | one pass of the loop: a failed policy ends the generation, the break test (no car alive or counter > 1200) ends it with the tick's states, and otherwise the next tick runs with the counter one higher |
| Simulation.Spawns | neat/main.py:119-124 | one freshly built car state per genome |
| Simulation.Zeros | neat/main.py:121 | every genome's fitness starts at 0 |
| Simulation.CountAliveZero | neat/main.py:148-151 | the number of live cars counted is zero exactly when every car is dead |
| Simulation.StepCarSuccessor | neat/main.py:151-163 | one live car's turn never revives it, never lowers its fitness or, at non-negative speed, its distance, and keeps a speed that was in [5, MAX_SPEED] in that range |
| Simulation.StepCarRewardsEveryTurn | neat/main.py:151-163 | a live car with a non-empty policy output always completes its turn and adds the reward of its state after `update` to its fitness, which never falls; a car blocked before the move only loses `alive` and is still rewarded for its steered heading and speed |
| Simulation.TickSuccessor | neat/main.py:148-163 | a tick changes no dead car and no dead car's fitness, and every car's state after it follows from its state before it as in `StepCarSuccessor` |
| Simulation.EpisodeSuccessor | neat/main.py:141-176 | the same holds from the start of a generation to its end |
| Simulation.EpisodeEndsAllDeadOrOverBudget | neat/main.py:165-167 | a generation that stops with the counter at most 1200 stops with every car dead |
| Simulation.AllDeadTick | neat/main.py:148-151 | a tick over cars that are all dead changes nothing and counts none alive |
| Simulation.AllDeadEndsAtOnce | neat/main.py:148-167 | a generation whose cars are all dead ends at once with its states and fitness unchanged |
| Simulation.GenerationProperties | neat/main.py:141-176 | a generation from the spawn state that ends without a policy failure stops with the counter at most 1201; every fitness is at least 0, every speed is in [5, MAX_SPEED], every distance is at least 0; a stop before the budget means every car is dead |
| Simulation.TickUpToNext | neat/main.py:150-163 | the scan of one more car: a dead car is skipped, a live car takes its turn or fails the tick |
| Simulation.TickFailurePersists | neat/main.py:153 | once a policy has failed, the rest of the tick does not change the result |
| Simulation.TakeTurn | neat/main.py:151-163 | asking the policy, applying the action to the car's fields, `update` and the reward give exactly the specified turn, failing exactly when the output is empty |
| Simulation.VisitCar | neat/main.py:149-163 | one iteration of the tick's `for` loop extends the specified scan by one car and keeps the car objects in step with it |
| Simulation.RunTick | neat/main.py:148-163 | the `for` loop over the car objects computes the specified tick, and the objects end up holding the tick's states |
| Simulation.Drive | neat/main.py:141-176 | the `while True` loop over the car objects, from any counter on, produces exactly the specified outcome of the loop |
| Simulation.CreateCars | neat/main.py:119-124 | one new, distinct car object per genome, each in the spawn state |
| Simulation.RunSimulation | neat/main.py:119-176 | the simulation loop over car objects produces exactly the specified generation |

## Left out

- Rendering and windowing are not modelled: `Car.draw`, pygame set-up, image loading and
  scaling, the font, clock, sleep, the screen updates, and the event loop with `sys.exit`.
  They are UI and I/O.
- The NEAT library is not modelled. Network creation and `activate` become a `Policy`
  function parameter, one per genome. Config and population set-up are left out.
- The generation counter stored as a function attribute is left out. It only feeds the
  on-screen label.
- Floating point is not modelled. Positions, the centre and the arguments of `hypot` are
  exact reals; the travelled distance and the radar distances are integers, as in the
  source. `cos`, `sin`, `radians` and `hypot` are uninterpreted (`hypot` is only known to
  be non-negative).
  Rounding in `+`, `*` and `/` is not captured.
- The track image is a total function from pixel coordinates to colours. `get_at` is only
  consulted inside the screen, as in the source.
- `qlearning/main.py` is not part of this model. It is a separate script driven by an
  external environment and random exploration.
- `neat/test.py` is not part of this model. It only displays images.
- The car's position is a two-element list updated in place in the source. It is a `Point`
  value field here, because the list is never shared.
- `max` of an empty policy output raises in the source. Here it ends the generation with
  `PolicyFailed` naming the car.
- The genomes' `fitness` attributes are a sequence of reals returned with the outcome. The
  car objects' final states are returned with it too, while the source discards them.
- Radar.Scan: its own contract states only the number of readings. Their contents are
  stated by `Cars.Car.CheckRadars`, `Radar.CastRay` and `Cars.UpdateRefreshesRadars`.
- Cars.CarState.SensorData: its own contract states only the length. The entries are stated
  by `Radar.SensorVector`.
