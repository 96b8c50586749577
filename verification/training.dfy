/** The training loop of src/main.cpp with the agent's networks left out: the reward and
    termination rule applied to each step's outcome, the transition stored in the replay buffer,
    the bookkeeping `update` call, and the per-episode step bound and early stop. */
module Training {
  import opened Geometry
  import opened Sensors
  import opened World
  import opened Replay

  /** What one step's outcome means to the learner: its reward and whether the episode ends. */
  datatype Feedback = Feedback(reward: real, done: bool)

  /** The reward rule: reaching the goal pays +10 and ends the episode, a collision costs 10 and
      ends it too, and every other step costs 0.1 and the episode goes on. */
  function Judge(outcome: EnvState): (f: Feedback)
    ensures f.done <==> outcome == Terminal || outcome == Collision
    ensures f.reward == if outcome == Terminal then 10.0
                        else if outcome == Collision then -10.0
                        else -0.1
  {
    match outcome
    case Terminal => Feedback(10.0, true)
    case Collision => Feedback(-10.0, true)
    case _ => Feedback(-0.1, false)
  }

  /** The termination flag as the number it is stored as in a transition. */
  function DoneFlag(done: bool): (v: real)
    ensures v == 1.0 <==> done
    ensures v == 0.0 <==> !done
  {
    if done then 1.0 else 0.0
  }

  /** The reward alone tells the step apart: only the goal pays anything, and a step that neither
      collides nor arrives is the only one with the small cost, so the reward decides `done`. */
  lemma RewardDecidesDone(a: EnvState, b: EnvState)
    requires Judge(a).reward == Judge(b).reward
    ensures Judge(a).done == Judge(b).done
    ensures Judge(a).reward > 0.0 <==> a == Terminal
  {
  }

  /** One stored experience: the observation before the step, the chosen direction, the reward,
      the observation after the step and the termination flag as a number. */
  datatype Transition = Transition(state: seq<RayDist>, action: Vec, reward: real,
                                   nextState: seq<RayDist>, done: real)

  /** `ep_reward` after the steps with the given outcomes: the sum of their rewards. */
  function TotalReward(outcomes: seq<EnvState>): real
    decreases |outcomes|
  {
    if |outcomes| == 0 then 0.0
    else TotalReward(outcomes[..|outcomes| - 1]) + Judge(outcomes[|outcomes| - 1]).reward
  }

  /** `k` steps that neither collide nor arrive cost 0.1 each: their rewards sum to -0.1 * k. */
  lemma {:induction false} WanderingCost(outcomes: seq<EnvState>)
    requires forall i :: 0 <= i < |outcomes| ==> outcomes[i] == None
    ensures TotalReward(outcomes) == -0.1 * |outcomes| as real
    decreases |outcomes|
  {
    if |outcomes| > 0 {
      WanderingCost(outcomes[..|outcomes| - 1]);
    }
  }

  /** The step the agent takes for a chosen direction: unit length. */
  function Move(dir: Vec): Action
  {
    Action(dir, 1.0)
  }

  /** Step `i` as the environment took it: it took the direction the policy chose from the step
      number and the observation it started from, and `do_action` led from `visited[i]` to
      `visited[i + 1]`, with outcome `outcomes[i]` and the new observation recorded in `log[i]`. */
  predicate StepTaken(visited: seq<Environment>, log: seq<Transition>, outcomes: seq<EnvState>,
                      policy: (nat, seq<RayDist>) -> Vec, i: nat)
    requires i < |log| && i < |outcomes| && i + 1 < |visited|
  {
    var s := DoAction(visited[i], Move(log[i].action));
    && log[i].action == policy(i, log[i].state)
    && s.env == visited[i + 1]
    && s.state.envType == outcomes[i]
    && s.state.obs == log[i].nextState
  }

  /** The steps of an episode as the environment took them, from `visited[0]` on. */
  predicate Followed(visited: seq<Environment>, log: seq<Transition>, outcomes: seq<EnvState>,
                     policy: (nat, seq<RayDist>) -> Vec)
  {
    && |visited| == |log| + 1 && |log| == |outcomes|
    && forall i :: 0 <= i < |log| ==> StepTaken(visited, log, outcomes, policy, i)
  }

  /** Transition `i` starts from `start` or from where the previous one ended, and records the
      reward rule applied to its step's outcome. */
  predicate Stored(start: seq<RayDist>, log: seq<Transition>, outcomes: seq<EnvState>, i: nat)
    requires i < |log| && i < |outcomes|
  {
    && log[i].state == (if i == 0 then start else log[i - 1].nextState)
    && log[i].reward == Judge(outcomes[i]).reward
    && log[i].done == DoneFlag(Judge(outcomes[i]).done)
  }

  /** The stored transitions chain observation to observation from `start`, and each records the
      reward rule applied to its step's outcome. */
  predicate Recorded(start: seq<RayDist>, log: seq<Transition>, outcomes: seq<EnvState>)
  {
    && |log| == |outcomes|
    && forall i :: 0 <= i < |log| ==> Stored(start, log, outcomes, i)
  }

  /** Every outcome but possibly the last lets the episode go on. */
  predicate Continued(outcomes: seq<EnvState>)
  {
    forall i :: 0 <= i < |outcomes| - 1 ==> !Judge(outcomes[i]).done
  }

  /** The step the loop takes after `log`: the observation it starts from, the direction the
      policy picks, the transition it stores and the environment step itself. */
  datatype Taken = Taken(tr: Transition, step: Step)

  function Next(e: Environment, log: seq<Transition>, start: seq<RayDist>,
                policy: (nat, seq<RayDist>) -> Vec): Taken
  {
    var state := if |log| == 0 then start else log[|log| - 1].nextState;
    var dir := policy(|log|, state);
    var step := DoAction(e, Move(dir));
    var f := Judge(step.state.envType);
    Taken(Transition(state, dir, f.reward, step.state.obs, DoneFlag(f.done)), step)
  }

  /** One more step, taken as the loop takes it, extends the record of the steps. */
  lemma FollowedExtend(visited: seq<Environment>, log: seq<Transition>, outcomes: seq<EnvState>,
                       policy: (nat, seq<RayDist>) -> Vec, start: seq<RayDist>)
    requires Followed(visited, log, outcomes, policy) && Recorded(start, log, outcomes)
    ensures var n := Next(visited[|visited| - 1], log, start, policy);
            Followed(visited + [n.step.env], log + [n.tr], outcomes + [n.step.state.envType], policy)
  {
    var n := Next(visited[|visited| - 1], log, start, policy);
    var v, l, o := visited + [n.step.env], log + [n.tr], outcomes + [n.step.state.envType];
    forall i | 0 <= i < |l|
      ensures StepTaken(v, l, o, policy, i)
    {
      if i < |log| {
        assert StepTaken(visited, log, outcomes, policy, i);
        assert l[i] == log[i] && v[i] == visited[i] && v[i + 1] == visited[i + 1];
        assert o[i] == outcomes[i];
      } else {
        assert l[i] == n.tr && v[i] == visited[|visited| - 1] && v[i + 1] == n.step.env;
        if 0 < i {
          assert Stored(start, log, outcomes, i - 1);
        }
      }
    }
  }

  /** One more step, taken as the loop takes it, extends the stored transitions. */
  lemma RecordedExtend(e: Environment, log: seq<Transition>, outcomes: seq<EnvState>,
                       policy: (nat, seq<RayDist>) -> Vec, start: seq<RayDist>)
    requires Recorded(start, log, outcomes)
    ensures var n := Next(e, log, start, policy);
            Recorded(start, log + [n.tr], outcomes + [n.step.state.envType])
  {
    var n := Next(e, log, start, policy);
    var l, o := log + [n.tr], outcomes + [n.step.state.envType];
    forall i | 0 <= i < |l|
      ensures Stored(start, l, o, i)
    {
      if i < |log| {
        assert Stored(start, log, outcomes, i);
        assert l[i] == log[i] && o[i] == outcomes[i];
        if 0 < i { assert l[i - 1] == log[i - 1]; }
      } else if 0 < i {
        assert l[i - 1] == log[i - 1];
      }
    }
  }

  /** The buffer after one more push is again the newest `capacity` transitions of everything
      stored so far. */
  lemma WindowExtend(b0: seq<Transition>, log: seq<Transition>, b: Buffer<Transition>,
                     tr: Transition)
    requires 0 < b.capacity && Bounded(b) && b.items == Newest(b0 + log, b.capacity)
    ensures Push(b, tr).items == Newest(b0 + (log + [tr]), b.capacity)
  {
    PushIsNewest(b, tr);
    NewestOfNewest(b0 + log, [tr], b.capacity);
    assert b0 + log + [tr] == b0 + (log + [tr]);
  }

  /** Everything the episode loop carries from one step to the next. */
  datatype Progress = Progress(env: Environment, buffer: Buffer<Transition>, learner: Learner,
                               epReward: real, outcomes: seq<EnvState>, log: seq<Transition>,
                               visited: seq<Environment>)

  /** The history part of the loop's state: the steps taken from the reset environment and the
      transitions recorded for them; `backup` is untouched. */
  predicate Traced(p: Progress, env0: Environment, start: seq<RayDist>,
                   policy: (nat, seq<RayDist>) -> Vec)
  {
    && Followed(p.visited, p.log, p.outcomes, policy)
    && Recorded(start, p.log, p.outcomes)
    && p.visited[0] == Reset(env0) && p.env == p.visited[|p.visited| - 1]
    && p.env.backup == env0.backup
  }

  /** The bookkeeping part of the loop's state: the reward so far, the buffer as the newest
      transitions, and the counter moved at most once per step. */
  predicate Booked(p: Progress, b0: Buffer<Transition>, l0: Learner)
  {
    && |p.log| == |p.outcomes|
    && p.epReward == TotalReward(p.outcomes)
    && p.buffer.capacity == b0.capacity && Bounded(p.buffer)
    && p.buffer.items == Newest(b0.items + p.log, b0.capacity)
    && l0.updateStep <= p.learner.updateStep <= l0.updateStep + |p.log|
  }

  /** What holds of the loop's state after any number of steps of an episode that started by
      resetting `env0` with buffer `b0` and counter `l0`. */
  predicate Consistent(p: Progress, env0: Environment, start: seq<RayDist>, b0: Buffer<Transition>,
                       l0: Learner, policy: (nat, seq<RayDist>) -> Vec)
  {
    Traced(p, env0, start, policy) && Booked(p, b0, l0)
  }

  /** The loop's state after one more pass of its body. */
  function Advanced(p: Progress, start: seq<RayDist>, policy: (nat, seq<RayDist>) -> Vec,
                    batchSize: int): Progress
    requires 0 < p.buffer.capacity < SizeModulus && Bounded(p.buffer)
    requires p.learner.updateStep < IntMax
  {
    var n := Next(p.env, p.log, start, policy);
    var buffer := Push(p.buffer, n.tr);
    var u := Train(p.learner, Size(buffer), batchSize);
    Progress(n.step.env, buffer, u.learner, p.epReward + n.tr.reward,
             p.outcomes + [n.step.state.envType], p.log + [n.tr], p.visited + [n.step.env])
  }

  /** A pass of the loop body extends the history by the step it takes. */
  lemma TraceStep(p: Progress, env0: Environment, start: seq<RayDist>,
                  policy: (nat, seq<RayDist>) -> Vec, batchSize: int)
    requires 0 < p.buffer.capacity < SizeModulus && Bounded(p.buffer)
    requires p.learner.updateStep < IntMax
    requires Traced(p, env0, start, policy)
    ensures Traced(Advanced(p, start, policy, batchSize), env0, start, policy)
  {
    var q := Advanced(p, start, policy, batchSize);
    assert Followed(q.visited, q.log, q.outcomes, policy) by {
      FollowedExtend(p.visited, p.log, p.outcomes, policy, start);
    }
    assert Recorded(start, q.log, q.outcomes) by {
      RecordedExtend(p.env, p.log, p.outcomes, policy, start);
    }
  }

  /** A pass of the loop body adds its reward, pushes its transition and moves the counter at
      most once. */
  lemma BookStep(p: Progress, start: seq<RayDist>, b0: Buffer<Transition>, l0: Learner,
                 policy: (nat, seq<RayDist>) -> Vec, batchSize: int)
    requires 0 < b0.capacity < SizeModulus && p.learner.updateStep < IntMax
    requires Booked(p, b0, l0)
    ensures Booked(Advanced(p, start, policy, batchSize), b0, l0)
  {
    var n := Next(p.env, p.log, start, policy);
    var q := Advanced(p, start, policy, batchSize);
    assert q.outcomes[..|p.outcomes|] == p.outcomes;
    assert q.epReward == TotalReward(q.outcomes) by {
      assert n.tr.reward == Judge(n.step.state.envType).reward;
    }
    assert q.buffer.items == Newest(b0.items + q.log, b0.capacity) by {
      WindowExtend(b0.items, p.log, p.buffer, n.tr);
    }
  }

  /** One pass of the loop body: act, store the transition, let the agent update (gated on the
      buffer's size after the push), add the reward. It keeps the loop's state consistent and
      records exactly one more step. */
  method Advance(p: Progress, env0: Environment, start: seq<RayDist>, b0: Buffer<Transition>,
                 l0: Learner, policy: (nat, seq<RayDist>) -> Vec, batchSize: int)
    returns (q: Progress)
    requires 0 < b0.capacity < SizeModulus && p.learner.updateStep < IntMax
    requires Consistent(p, env0, start, b0, l0, policy)
    ensures Consistent(q, env0, start, b0, l0, policy)
    ensures |q.outcomes| == |p.outcomes| + 1
    ensures forall i :: 0 <= i < |p.outcomes| ==> q.outcomes[i] == p.outcomes[i]
    ensures q.learner == Train(p.learner, Size(q.buffer), batchSize).learner
  {
    TraceStep(p, env0, start, policy, batchSize);
    BookStep(p, start, b0, l0, policy, batchSize);
    q := Advanced(p, start, policy, batchSize);
  }

  /** One episode of the loop in `main`. The environment is reset first; `start` stands for the
      observation the episode begins with (the source's `reset` hands back no state), and `policy`
      for the noisy actor, which picks a direction from the step number and the current
      observation. Each step acts, judges the outcome, stores the transition, lets the agent
      update, adds the reward, and stops right after a step that ends the episode; at most
      `maxSteps` steps are taken. Besides the final environment, buffer, counter and reward, the
      method returns the outcomes, the stored transitions and the environments visited, in order.
      The counter must have room for one increment per step, as `++update_step` on an `int` has
      no defined overflow. */
  method Episode(env0: Environment, start: seq<RayDist>, buffer0: Buffer<Transition>,
                 learner0: Learner, maxSteps: int, batchSize: int,
                 policy: (nat, seq<RayDist>) -> Vec)
    returns (env: Environment, buffer: Buffer<Transition>, learner: Learner, epReward: real,
             outcomes: seq<EnvState>, log: seq<Transition>, visited: seq<Environment>)
    requires 0 < buffer0.capacity < SizeModulus && Bounded(buffer0)
    requires learner0.updateStep + maxSteps <= IntMax
    // the step bound and the early stop
    ensures |outcomes| <= maxSteps || |outcomes| == 0
    ensures Continued(outcomes)
    ensures |outcomes| < maxSteps ==> 0 < |outcomes| && Judge(outcomes[|outcomes| - 1]).done
    ensures epReward == TotalReward(outcomes)
    // the steps: from the reset environment, each chosen by the policy and taken by `do_action`
    ensures Followed(visited, log, outcomes, policy)
    ensures visited[0] == Reset(env0) && env == visited[|visited| - 1]
    // the stored transitions
    ensures Recorded(start, log, outcomes)
    // the buffer now ends with these transitions, the oldest evicted first
    ensures buffer.capacity == buffer0.capacity && Bounded(buffer)
    ensures buffer.items == Newest(buffer0.items + log, buffer0.capacity)
    // the counter moved at most once per step, and `backup` is untouched
    ensures learner0.updateStep <= learner.updateStep <= learner0.updateStep + |log|
    ensures env.backup == env0.backup
  {
    var p := Progress(Reset(env0), buffer0, learner0, 0.0, [], [], [Reset(env0)]);
    var done := false;
    var t := 0;
    while t < maxSteps && !done
      invariant t == |p.outcomes| && Consistent(p, env0, start, buffer0, learner0, policy)
      invariant t <= maxSteps || t == 0
      invariant done <==> 0 < t && Judge(p.outcomes[t - 1]).done
      invariant Continued(p.outcomes)
      decreases maxSteps - t
    {
      var q := Advance(p, env0, start, buffer0, learner0, policy, batchSize);
      done := Judge(q.outcomes[t]).done;
      p := q;
      t := t + 1;
    }
    env, buffer, learner, epReward := p.env, p.buffer, p.learner, p.epReward;
    outcomes, log, visited := p.outcomes, p.log, p.visited;
  }
}
