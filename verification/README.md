# A verified model of the RL path-finding arena

This project models the deterministic core of a small C++ reinforcement-learning path finder.
An agent moves through a 2D arena with axis-aligned box obstacles and a box-shaped goal. It
senses its surroundings with distance rays and learns with TD3. The model covers these parts:

- **Geometry** (`geometry.dfy`, module `Geometry`):
  - points and boxes;
  - strict containment (`check_colision`);
  - the hand-written ray-versus-box query (`get_intersect`), with its near-horizontal branch and its four edge candidates.
- **Sensors** (`sensors.dfy`, module `Sensors`): the agent, `shift`, and `launch_rays`. Each ray reads the nearest hit over all obstacles, or infinity.
- **World** (`world.dfy`, module `World`):
  - the goal queries;
  - the `State`/`Action` records;
  - the two snapshots `cur` and `backup`;
  - the constructor and its walls;
  - `reset` and `do_action`;
  - runs of steps and resets.
- **Replay** (`replay.dfy`, module `Replay`):
  - the bounded FIFO replay buffer (`push`, `size`, `sample`);
  - the gating in `TD3Agent::update`: the early return, `update_step` and `policy_delay`.
- **Training** (`training.dfy`, module `Training`): the reward and termination rule of `main` and one episode of its loop.
- **Arena** (`arena.dfy`, module `Arena`): the configured arena as a concrete fixture, with worked steps through it.

Modelling choices:

- **Floats and lengths.** `float` is modelled as `real`. Dafny's reals have no square root, so
  every length (`euclid`) is carried by its square (`SqLen`). Square root is strictly increasing,
  so every comparison and minimum the source takes over lengths is the same comparison or minimum
  over squares. A length is zero exactly when its square is.
- **Sentinels.** The `-1` "no hit" value of `get_intersect` becomes `Hit(sq) | NoHit`. The
  `INFINITY` of `launch_rays` becomes `Finite(sq) | Inf`.
- **Goal direction.** `(agent - centre) / norm` is kept symbolically, as the vector it normalises
  (`Heading`). The zero vector is the source's unguarded 0/0 case.
- **Randomness.** Sampling from the buffer is a nondeterministic choice of index. The actor's
  noisy choice of direction is a function parameter `policy` (step number, observation) → direction.

In these places the code behaves differently from what its names suggest; the model follows the code:

- **No forward-only filter.** `get_intersect` uses only |dir.y| and dir.x / dir.y. A box behind
  the ray's origin is therefore reported as well (`IntersectIgnoresOrientation`,
  `BehindOriginExample`).
- **The walls never enter the arena.** The constructor pushes the four walls onto its moved-from
  parameter after `cur` and `backup` are built, so neither snapshot holds them. `Create` is
  literal. `Walls` and `CreateWithWalls` give the intended construction (see Findings).
- **`do_action`'s state.**
  - The bare `return;` statements of this `State`-returning function, and its missing final
    return, are read as returning `st` as filled so far.
  - `obs_intersect` is never written, so it keeps the value-initialised (0, 0) pairs.
- **`reset` returns nothing.** `reset` is declared to return a `State` in `Env.hpp` but defined
  as `void`. It is modelled as the state copy alone. The episode therefore takes its starting
  observation as a parameter.
- **The obstacle list holds boxes.** `Env.hpp` declares it as `std::vector<Box>`, while `Env.cpp`
  uses `std::vector<Object>`. It is modelled as a sequence of boxes.
- **Vertical rays.** For a vertical ray (dir.x == 0), `1 / k_y` is infinite. The two side
  candidates then fail their extent test, so they are NoHit.

## Model

| member | source | states |
|---|---|---|
| Geometry.SqEuclidZero | src/environment/Env.cpp:11-13 | a `euclid` length is zero exactly when both offsets are zero |
| Geometry.MinPresent | src/environment/Env.cpp:88-116 | the running minimum from infinity is NoHit iff no candidate hit; otherwise it is one of the hits and no farther than any hit |
| Geometry.Box.Contains | src/environment/Env.cpp:64-71 | containment holds iff the point is strictly within half the width and half the height of the centre; boundary points are outside |
| Geometry.ContainsExample | src/environment/Env.cpp:64-71 | for the 10 x 10 box at the origin, (5, 0) is outside and (4.999, 0) inside |
| Geometry.Box.Intersect | src/environment/Env.cpp:72-119 | near-horizontal ray: NoHit iff \|o.y - y\| >= h/2, else the nearer vertical edge's distance; otherwise: NoHit iff no edge candidate passes its inclusive extent test, else the nearest passing candidate |
| Geometry.SquareOfNearer | src/environment/Env.cpp:77 | the smaller of two squared offsets is the square of the smaller absolute offset, so `std::min` over lengths agrees with the model's minimum over squares |
| Geometry.IntersectIgnoresOrientation | src/environment/Env.cpp:75-87 | reversing the ray's direction never changes the answer: there is no forward-only filter |
| Geometry.SideHitOnBoundary | src/environment/Env.cpp:84-101 | a passing left or right candidate is a point of the box's boundary on the ray's line, at the reported distance; it needs dir.x != 0 |
| Geometry.CapHitOnBoundary | src/environment/Env.cpp:86-113 | a passing top or bottom candidate is a point of the box's boundary on the ray's line, at the reported distance |
| Geometry.IntersectHitsBoundaryOnLine | src/environment/Env.cpp:82-117 | in the general branch every hit is the distance to a boundary point of the box on the ray's line |
| Geometry.HorizontalExample | src/environment/Env.cpp:75-80 | from (-20, 0) a horizontal ray meets the 10 x 10 box at distance 15 whether it points towards the box or away from it; from (-20, 20) it misses |
| Geometry.BehindOriginExample | src/environment/Env.cpp:82-117 | in the general branch, a ray from (-20, 0) along (-1, -0.1), pointing away from the box, still reports the box's left edge at (-5, 1.5), 227.25 away (squared) |
| Sensors.Shift | src/environment/Env.cpp:25-28 | the position moves by exactly (u, v) and the ray directions stay |
| Sensors.NearestIsUnique | src/environment/Env.cpp:37-47 | at most one reading is the nearest, so a reading is fully determined by the obstacles' answers |
| Sensors.CastRay | src/environment/Env.cpp:38-46 | a reading is Inf iff every obstacle answers no hit; otherwise it equals some obstacle's answer and is no farther than any answer |
| Sensors.LaunchRays | src/environment/Env.cpp:32-49 | one reading per ray direction, each the nearest answer from the agent's position along that ray, never negative |
| Sensors.EmptyArenaReadsInfinity | src/environment/Env.cpp:37-47 | with no obstacles every reading is infinite |
| World.GoalDirection | src/environment/Env.cpp:121-126 | the heading leads from the goal's centre to the point, and it is defined (non-zero) exactly when the point is not the centre |
| World.GoalDistance | src/environment/Env.cpp:127-132 | the squared distance from the point to the goal's centre, zero exactly at the centre |
| World.GoalQueriesAgree | src/environment/Env.cpp:121-132 | the direction leads from the goal's centre to the point, its vector has the squared length `get_dist` reports, and it is undefined exactly where that distance is zero, at the centre |
| World.Create | src/environment/Env.cpp:134-142 | `backup` equals `cur`, which holds exactly the given obstacles, goal, agent and borders with `dtime` 0 |
| World.Walls | src/environment/Env.cpp:144-167 | four walls, top, bottom, left, right, each centred on its border line at the middle of it, 1.1 times the arena's extent along that side long (so overhanging the arena's corners) and one tenth of the arena's extent across it thick |
| World.WallsCoverBorder | src/environment/Env.cpp:144-167 | for an arena of non-zero size every border point, corners included, lies strictly inside some wall |
| World.Reset | src/environment/Env.cpp:170-172 | `cur` becomes `backup`, and `backup` stays |
| World.ResetIdempotent | src/environment/Env.cpp:170-172 | two resets have the effect of one |
| World.Collides | src/environment/Env.cpp:181-186 | the collision loop finds a hit iff some obstacle contains the point |
| World.Classify | src/environment/Env.cpp:181-191 | COLLISION iff some obstacle contains the point, TERMINAL iff none does and the goal does, never TIMEOUT |
| World.DoAction | src/environment/Env.cpp:174-192 | only the agent moves, by exactly dir * len; every reading is the nearest from the new position; `obs_intersect` holds N zero points; the goal queries are taken at the new position; COLLISION iff an obstacle contains the point, TERMINAL iff none does and the goal does, TIMEOUT never; `backup` is untouched |
| World.StateShape | src/common/Types.hpp:9-15 | every state a step produces carries N readings and N intersection points, one per ray of the agent |
| World.UnnormalisedActionExample | src/common/Types.hpp:17-20 | an action's direction is not normalised: direction (2, 0) with length 1 moves the agent by 2 |
| World.RunKeepsBackup | src/environment/Env.cpp:170-192 | no sequence of steps and resets changes `backup` |
| World.ResetRestoresStart | src/environment/Env.cpp:134-172 | after any steps and resets, a reset gives back exactly the constructed environment |
| World.CreateWithWalls | src/environment/Env.cpp:134-167 | the intended constructor: both snapshots hold the given obstacles followed by the four walls |
| World.RunKeepsObjects | src/environment/Env.cpp:170-192 | steps and resets never change the obstacle list |
| World.WalledArenaBlocksBorder | src/environment/Env.cpp:144-186 | in an arena built with its walls, after any history, a step that ends on the border is a collision |
| Replay.Push | src/ml/RL.cpp:7-10 | the new transition is last; when not full every earlier one stays in order; when full exactly the oldest goes; the capacity bound is kept |
| Replay.Size | src/ml/RL.cpp:21-23 | the size is the number of stored transitions: zero exactly for the empty buffer, and within the capacity exactly when the buffer respects it |
| Replay.SizeAfterPush | src/ml/RL.cpp:7-10 | a push grows the size by one until it reaches the capacity, where it stays |
| Replay.PushAll | src/ml/RL.cpp:7-10 | pushing transitions one after another keeps the capacity and its bound, and the last one pushed ends the buffer |
| Replay.PushIsNewest | src/ml/RL.cpp:7-10 | one push leaves the newest `capacity` of the old contents plus the new transition |
| Replay.PushAllKeepsNewest | src/ml/RL.cpp:7-10 | after any sequence of pushes the buffer holds exactly the newest `capacity` transitions of everything seen, oldest first |
| Replay.Sample | src/ml/RL.cpp:12-19 | on a non-empty buffer, exactly `n` transitions, each one stored in the buffer |
| Replay.Train | src/ml/RL.cpp:80-121 | nothing happens, not even to `update_step`, iff the buffer holds fewer than `batch_size` (compared as unsigned); otherwise `update_step` goes up by one, and the actor and targets are updated iff the new count is divisible by `policy_delay` |
| Replay.NegativeBatchNeverTrains | src/ml/RL.cpp:81 | a negative batch size compares as a huge unsigned value, so it never trains |
| Replay.ActorUpdatesEveryOther | src/ml/RL.cpp:121 | after k effective updates from count s, the count is s + k and (s + k) / 2 - s / 2 of them updated the actor |
| Training.Judge | src/main.cpp:31-34 | TERMINAL pays +10 and ends the episode, COLLISION costs 10 and ends it, anything else costs 0.1 and continues |
| Training.DoneFlag | src/main.cpp:37 | the stored flag is 1.0 iff done and 0.0 iff not |
| Training.RewardDecidesDone | src/main.cpp:31-34 | the reward alone decides termination, and only reaching the goal pays a positive reward |
| Training.WanderingCost | src/main.cpp:31-42 | k steps that neither collide nor arrive add exactly -0.1 * k to the episode's reward |
| Training.Advance | src/main.cpp:24-42 | one pass of the loop body records exactly one more step, keeps the recorded history consistent, and gates the counter on the buffer's size after the push |
| Training.Episode | src/main.cpp:18-45 | at most `max_steps` steps, stopping right after the first step that ends the episode; `ep_reward` is the sum of the steps' rewards; each step is `do_action` from the previous environment with the policy's direction; transitions chain observation to observation; the buffer ends with them; `backup` is untouched |
| Arena.ReachGoalExample | config/Config.h:20-34 | in the configured arena, two steps of 39.9 (left, then down) first reach open space 1600.01 (squared) from the goal and then the goal itself, for +10 |
| Arena.LeavesArenaExample | config/Config.h:20-34 | in the configured arena as built by the source, a step to (101, 50), outside the arena, is an ordinary step |
| Arena.WalledArenaStopsExample | src/environment/Env.cpp:162-167 | with the walls in place the same step collides with the right-hand wall |
| Arena.CollisionBeforeGoalExample | src/environment/Env.cpp:181-191 | a point inside both an obstacle and the goal is a collision, with the collision penalty |
| Arena.TrainingStartsAtBatchSize | src/ml/RL.cpp:80-82 | with `main`'s batch size of 64, 63 stored transitions leave the counter alone and 64 train and advance it by one |
| Arena.ConfiguredEpisode | src/main.cpp:11-45 | with `main`'s settings, an episode takes at most 200 steps, ends early only on a step that ends it, keeps at most 100000 transitions and sums the steps' rewards |

## Left out

- Agent ray directions: `Agent::Agent` derives them with `cos`/`sin`. That needs transcendental
  functions on floats, so the directions are a fixed sequence given to the agent. Its doubling
  `phi += phi` is not modelled.
- Floating-point rounding, the `std::pow`-based square root and `INFINITY` arithmetic are not
  modelled. Reals, squared lengths and datatype sentinels stand in for them.
- The actor and critic networks, the Adam optimisers, the tensor operations, the target noise
  and the soft updates of `TD3Agent` are not modelled. They are libtorch floating-point numerics.
  Only the counter and the gating remain, and the batch `update` samples is not used.
- The random number generator of `ReplayBuffer` is not modelled; it becomes a nondeterministic
  choice of index.
- `select_action` and the exploration noise are not modelled; they become the `policy` parameter
  of `Training.Episode`.
- The outer episode loop of `main` and its console output are left out. It only repeats
  `Training.Episode`, starting from a `reset` whose return value the source never defines.
- The renderer is left out: it only draws.
- `Consts.hpp` and `Enums.hpp` are not part of this model. N is the length of the agent's ray
  sequence, and `EnvState` lists the three values the code sets, plus TIMEOUT, which it never produces.
- `Env.hpp`'s `launch_rays` signature has a second parameter, `inters`, which the definition in
  `Env.cpp` lacks. The model follows the definition.
- Replay.Push: a capacity of 0 on an empty buffer is excluded, because `pop_front` on the empty deque is undefined.
- Replay.Train: requires that `++update_step` cannot overflow an `int`. That overflow is
  undefined behaviour in the source. It also requires a non-empty buffer whenever it trains, so
  a `batch_size` of 0 or less on an empty buffer is excluded: `sample` would then build a
  `uniform_int_distribution<>(0, -1)`, which is undefined.
- Training.Episode: requires room in the counter for one increment per step, for the same
  reason. The counter's exact value is stated through `Training.Advance`, one pass at a time,
  while the episode states only its bounds.
- Geometry.IntersectHitsBoundaryOnLine: stated only for the general branch and for boxes of
  non-negative size. In the near-horizontal branch the source measures along x alone, whatever
  the ray's small slope.

## Findings

| source | as written | input that shows it | evidently intended | confidence | as-written member | corrected member |
|---|---|---|---|---|---|---|
| src/environment/Env.cpp:134-167 | the four walls are pushed onto the moved-from constructor parameter after `cur` and `backup` are built, so the arena has no walls | configured arena (0..100 square, agent at (50, 50)); action (1, 0) with length 51 takes the agent to (101, 50), and the outcome is NONE | the walls are among the obstacles of both snapshots, so that step collides with the right-hand wall | high; not executed | Arena.LeavesArenaExample | World.CreateWithWalls |
