/** The concrete arena of config/Config.h and the constants of src/main.cpp, with worked steps
    through it. The agent's ray directions are left as a parameter: they come from a constructor
    this model does not cover. */
module Arena {
  import opened Geometry
  import opened Sensors
  import opened World
  import opened Replay
  import opened Training

  /** The 100 by 100 world. */
  const Width: real := 100.0
  const Height: real := 100.0

  /** The two obstacles, the goal and the agent's starting point. */
  const Obstacles: seq<Box> := [Box(30.0, 30.0, 10.0, 10.0), Box(70.0, 70.0, 15.0, 15.0)]
  const Target: Goal := Box(10.0, 10.0, 5.0, 5.0)
  const Start: Vec := Vec(Width / 2.0, Height / 2.0)

  /** `main`'s settings: buffer capacity, steps per episode and batch size. */
  const Capacity: nat := 100000
  const MaxSteps: int := 200
  const BatchSize: int := 64

  /** The configured environment, built as the source builds it (without walls). */
  function Configured(rays: seq<Vec>): (e: Environment)
    ensures e.cur.objects == Obstacles && e.cur.agent.pos == Start && e.backup == e.cur
  {
    Create(Obstacles, Target, Agent(Start, rays), 0.0, 0.0, Width, Height)
  }

  /** The same arena built with its walls. */
  function Walled(rays: seq<Vec>): (e: Environment)
    ensures e.cur.objects == Obstacles + Walls(0.0, 0.0, Width, Height)
    ensures e.cur.agent.pos == Start && e.backup == e.cur
  {
    CreateWithWalls(Obstacles, Target, Agent(Start, rays), 0.0, 0.0, Width, Height)
  }

  /** Two steps of length 39.9, left and then down, take the agent from the centre to inside the
      goal: the first ends in open space 1600.01 (squared) from the goal's centre, the second
      ends the episode with the goal's reward. */
  lemma ReachGoalExample(rays: seq<Vec>)
    ensures var s1 := DoAction(Configured(rays), Action(Vec(-1.0, 0.0), 39.9));
            var s2 := DoAction(s1.env, Action(Vec(0.0, -1.0), 39.9));
            && s1.env.cur.agent.pos == Vec(10.1, 50.0)
            && s1.state.envType == None
            && s1.state.distanceToGoal == 1600.01
            && s2.env.cur.agent.pos == Vec(10.1, 10.1)
            && s2.state.envType == Terminal
            && Judge(s2.state.envType) == Feedback(10.0, true)
  {
    var s1 := DoAction(Configured(rays), Action(Vec(-1.0, 0.0), 39.9));
    assert s1.env.cur.agent.pos == Vec(10.1, 50.0);
    assert !Obstacles[0].Contains(Vec(10.1, 50.0)) && !Obstacles[1].Contains(Vec(10.1, 50.0));
    var s2 := DoAction(s1.env, Action(Vec(0.0, -1.0), 39.9));
    assert s2.env.cur.agent.pos == Vec(10.1, 10.1);
    assert !Obstacles[0].Contains(Vec(10.1, 10.1)) && !Obstacles[1].Contains(Vec(10.1, 10.1));
  }

  /** As built by the source, the agent walks straight through the right-hand border: a step of
      51 to the right from the centre ends at (101, 50), outside the arena, and is an ordinary
      step. */
  lemma LeavesArenaExample(rays: seq<Vec>)
    ensures var s := DoAction(Configured(rays), Action(Vec(1.0, 0.0), 51.0));
            && s.env.cur.agent.pos == Vec(101.0, 50.0)
            && !(0.0 <= s.env.cur.agent.pos.x <= Width)
            && s.state.envType == None
  {
    var s := DoAction(Configured(rays), Action(Vec(1.0, 0.0), 51.0));
    assert s.env.cur.agent.pos == Vec(101.0, 50.0);
    assert !Obstacles[0].Contains(Vec(101.0, 50.0)) && !Obstacles[1].Contains(Vec(101.0, 50.0));
  }

  /** With the walls in place the same step runs into the right-hand wall. */
  lemma WalledArenaStopsExample(rays: seq<Vec>)
    ensures DoAction(Walled(rays), Action(Vec(1.0, 0.0), 51.0)).state.envType == Collision
  {
    var p := DoAction(Walled(rays), Action(Vec(1.0, 0.0), 51.0)).env.cur.agent.pos;
    assert p == Vec(101.0, 50.0);
    assert Walled(rays).cur.objects[5] == Box(100.0, 50.0, 10.0, 110.0);
    assert Box(100.0, 50.0, 10.0, 110.0).Contains(p);
  }

  /** Obstacles win over the goal: with a goal placed over the first obstacle, stepping onto
      their common centre is a collision, not a success, and costs the collision penalty. */
  lemma CollisionBeforeGoalExample(rays: seq<Vec>)
    ensures var e := Create(Obstacles, Box(30.0, 30.0, 5.0, 5.0), Agent(Start, rays),
                            0.0, 0.0, Width, Height);
            var s := DoAction(e, Action(Vec(-1.0, -1.0), 20.0));
            && s.env.cur.goal.Contains(s.env.cur.agent.pos)
            && s.state.envType == Collision
            && Judge(s.state.envType) == Feedback(-10.0, true)
  {
    var e := Create(Obstacles, Box(30.0, 30.0, 5.0, 5.0), Agent(Start, rays),
                    0.0, 0.0, Width, Height);
    var p := Vec(30.0, 30.0);
    assert Shift(Agent(Start, rays), -1.0 * 20.0, -1.0 * 20.0).pos == p;
    assert Obstacles[0].Contains(p) && Box(30.0, 30.0, 5.0, 5.0).Contains(p);
    assert Collides(Obstacles, p);
  }

  /** With `main`'s batch size the agent starts training on the step that brings the buffer to 64
      transitions; with 63 it returns early and leaves the counter alone. */
  lemma TrainingStartsAtBatchSize(l: Learner)
    requires l.updateStep < IntMax
    ensures !Train(l, 63, BatchSize).trained && Train(l, 63, BatchSize).learner == l
    ensures Train(l, 64, BatchSize).trained
    ensures Train(l, 64, BatchSize).learner.updateStep == l.updateStep + 1
  {
  }

  /** One episode with `main`'s settings in the configured arena: at most 200 steps, the buffer
      never holds more than 100000 transitions, and the reward is the sum of the steps' rewards. */
  method ConfiguredEpisode(rays: seq<Vec>, start: seq<RayDist>, buffer0: Buffer<Transition>,
                           learner0: Learner, policy: (nat, seq<RayDist>) -> Vec)
    returns (buffer: Buffer<Transition>, outcomes: seq<EnvState>, epReward: real)
    requires buffer0.capacity == Capacity && Bounded(buffer0)
    requires learner0.updateStep + MaxSteps <= IntMax
    ensures |outcomes| <= MaxSteps
    ensures Size(buffer) <= Capacity
    ensures epReward == TotalReward(outcomes)
    ensures |outcomes| < MaxSteps ==> 0 < |outcomes| && Judge(outcomes[|outcomes| - 1]).done
  {
    var env, learner, log, visited;
    env, buffer, learner, epReward, outcomes, log, visited :=
      Episode(Configured(rays), start, buffer0, learner0, MaxSteps, BatchSize, policy);
  }
}
