/** The environment of src/environment/Env.cpp: the goal queries, the two snapshots `cur` and
    `backup`, construction, `reset` and `do_action`, with the `State` and `Action` records of
    src/common/Types.hpp. */
module World {
  import opened Geometry
  import opened Sensors

  /** `Goal`: a `Box` that adds two queries and overrides nothing, so its containment and ray
      intersection are exactly those of the box with the same centre, width and height. */
  type Goal = Box

  /** `Goal::get_dist`: the squared distance between the goal's centre and `p`; it is zero
      exactly at the centre, and it is the same whichever of the two points is measured from. */
  function GoalDistance(g: Goal, p: Vec): (d: SqLen)
    ensures d == 0.0 <==> p == Vec(g.x, g.y)
    ensures d == SqEuclid(p.x - g.x, p.y - g.y)
  {
    SqEuclidZero(g.x - p.x, g.y - p.y);
    SqEuclid(g.x - p.x, g.y - p.y)
  }

  /** A unit direction, carried by the vector it normalises: the source's value is
      (along.x / |along|, along.y / |along|), which is 0 / 0 when `along` is the zero vector. */
  datatype Heading = Heading(along: Vec)
  {
    predicate Defined() { along != Vec(0.0, 0.0) }
  }

  /** `Goal::get_dir`: the direction from the goal's centre towards `p` (not from `p` to the
      goal), normalised by the same norm `get_dist` computes; there is no guard for a zero norm. */
  function GoalDirection(g: Goal, p: Vec): (hd: Heading)
    ensures Vec(g.x + hd.along.x, g.y + hd.along.y) == p
    ensures hd.Defined() <==> p != Vec(g.x, g.y)
  {
    Heading(Vec(p.x - g.x, p.y - g.y))
  }

  /** The two goal queries agree: the direction leads from the centre to `p`, its vector has the
      squared length `get_dist` reports (so normalising it yields a unit vector), and it is
      undefined exactly when `p` is the centre, the one point where the distance is zero. */
  lemma GoalQueriesAgree(g: Goal, p: Vec)
    ensures var v := GoalDirection(g, p).along;
            Vec(g.x + v.x, g.y + v.y) == p && SqEuclid(v.x, v.y) == GoalDistance(g, p)
    ensures GoalDirection(g, p).Defined() <==> GoalDistance(g, p) != 0.0
    ensures GoalDistance(g, p) == 0.0 <==> p == Vec(g.x, g.y)
  {
    SqEuclidZero(g.x - p.x, g.y - p.y);
  }

  /** Step outcome (`EnvState`). `Timeout` belongs to the caller: the environment never yields it. */
  datatype EnvState = None | Collision | Terminal | Timeout

  /** `State`: N sensor readings, N intersection points, the goal direction and distance, and
      the outcome tag. N is the agent's number of rays. */
  datatype State = State(obs: seq<RayDist>, obsIntersect: seq<Vec>, directionToGoal: Heading,
                         distanceToGoal: SqLen, envType: EnvState)

  /** `Action`: a direction, not required to be normalised, and a length. */
  datatype Action = Action(dir: Vec, len: real)

  /** `Environment::Data`: obstacles, goal, agent, the arena's corners and `dtime`. */
  datatype Data = Data(objects: seq<Box>, goal: Goal, agent: Agent,
                       x0: real, y0: real, x1: real, y1: real, dtime: real)

  /** The environment: the live snapshot `cur` and the snapshot `backup` that `reset` restores. */
  datatype Environment = Environment(cur: Data, backup: Data)

  /** The constructor as written: `cur` is built from the obstacle list, `backup` is a copy of
      `cur`, and only then are the four walls pushed onto the (moved-from) parameter, so neither
      snapshot contains them. */
  function Create(objects: seq<Box>, goal: Goal, agent: Agent,
                  x0: real, y0: real, x1: real, y1: real): (e: Environment)
    ensures e.backup == e.cur
    ensures e.cur.objects == objects && e.cur.goal == goal && e.cur.agent == agent
    ensures e.cur.x0 == x0 && e.cur.y0 == y0 && e.cur.x1 == x1 && e.cur.y1 == y1
    ensures e.cur.dtime == 0.0
  {
    var d := Data(objects, goal, agent, x0, y0, x1, y1, 0.0);
    Environment(d, d)
  }

  /** The four walls the constructor builds: along the top and bottom sides, 1.1 times the arena's
      width long and a tenth of its height thick; along the left and right sides, a tenth of its
      width thick and 1.1 times its height long; each centred on its side's midpoint. */
  function Walls(x0: real, y0: real, x1: real, y1: real): (ws: seq<Box>)
    ensures |ws| == 4
    // the top and bottom walls sit on the lines y == y1 and y == y0, the left and right ones on
    // x == x0 and x == x1, each centred on its side's midpoint
    ensures ws[0].y == y1 && ws[1].y == y0 && ws[2].x == x0 && ws[3].x == x1
    ensures ws[0].x == ws[1].x == (x0 + x1) / 2.0 && ws[2].y == ws[3].y == (y0 + y1) / 2.0
    // every wall overhangs both ends of its side whenever that side has a length
    ensures x0 != x1 ==> forall i :: 0 <= i < 2 ==>
              ws[i].Left() < x0 < ws[i].Right() && ws[i].Left() < x1 < ws[i].Right()
    ensures y0 != y1 ==> forall i :: 2 <= i < 4 ==>
              ws[i].Bottom() < y0 < ws[i].Top() && ws[i].Bottom() < y1 < ws[i].Top()
    // a wall is a tenth of the arena's extent across its side thick
    ensures ws[0].h == ws[1].h == Abs(y0 - y1) / 10.0 && ws[2].w == ws[3].w == Abs(x0 - x1) / 10.0
    // and 1.1 times the arena's extent along its side long
    ensures ws[0].w == ws[1].w == Abs(x0 - x1) * 1.1 && ws[2].h == ws[3].h == Abs(y0 - y1) * 1.1
  {
    var dx, dy := Abs(x0 - x1), Abs(y0 - y1);
    var mx, my := (x0 + x1) / 2.0, (y0 + y1) / 2.0;
    [Box(mx, y1, dx * 1.1, dy / 10.0), Box(mx, y0, dx * 1.1, dy / 10.0),
     Box(x0, my, dx / 10.0, dy * 1.1), Box(x1, my, dx / 10.0, dy * 1.1)]
  }

  /** `v` lies between `a` and `b`, whichever is larger. */
  predicate Between(v: real, a: real, b: real)
  {
    (a <= v <= b) || (b <= v <= a)
  }

  /** `p` lies on the border of the rectangle with corners (x0, y0) and (x1, y1). */
  predicate OnBorder(x0: real, y0: real, x1: real, y1: real, p: Vec)
  {
    || (Between(p.x, x0, x1) && (p.y == y0 || p.y == y1))
    || (Between(p.y, y0, y1) && (p.x == x0 || p.x == x1))
  }

  /** For an arena of non-zero width and height, every point of its border, corners included, lies
      strictly inside one of the walls, which is what makes the walls block the agent. */
  lemma WallsCoverBorder(x0: real, y0: real, x1: real, y1: real, p: Vec)
    requires x0 != x1 && y0 != y1
    requires OnBorder(x0, y0, x1, y1, p)
    ensures exists i :: 0 <= i < 4 && Walls(x0, y0, x1, y1)[i].Contains(p)
  {
    var ws := Walls(x0, y0, x1, y1);
    var dx, dy := Abs(x0 - x1), Abs(y0 - y1);
    if Between(p.x, x0, x1) && p.y == y1 {
      assert ws[0].Contains(p);
    } else if Between(p.x, x0, x1) && p.y == y0 {
      assert ws[1].Contains(p);
    } else if p.x == x0 {
      assert ws[2].Contains(p);
    } else {
      assert ws[3].Contains(p);
    }
  }

  /** `Environment::reset`: `cur` becomes a copy of `backup`. */
  function Reset(e: Environment): (r: Environment)
    ensures r.cur == e.backup && r.backup == e.backup
  {
    e.(cur := e.backup)
  }

  /** Resetting twice has the effect of resetting once. */
  lemma ResetIdempotent(e: Environment)
    ensures Reset(Reset(e)) == Reset(e)
  {
  }

  /** The collision loop of `do_action`: does some object, searched front to back, contain `p`? */
  function Collides(objects: seq<Box>, p: Vec): (c: bool)
    ensures c <==> exists i :: 0 <= i < |objects| && objects[i].Contains(p)
  {
    if |objects| == 0 then false
    else objects[0].Contains(p) || Collides(objects[1..], p)
  }

  /** The outcome of a step at position `p`: obstacles are checked before the goal. */
  function Classify(objects: seq<Box>, goal: Goal, p: Vec): (r: EnvState)
    ensures r == Collision <==> exists i :: 0 <= i < |objects| && objects[i].Contains(p)
    ensures r == Terminal <==>
              (forall i :: 0 <= i < |objects| ==> !objects[i].Contains(p)) && goal.Contains(p)
    ensures r != Timeout
  {
    if Collides(objects, p) then Collision
    else if goal.Contains(p) then Terminal
    else None
  }

  /** What `do_action` hands back: the environment after the step and the step's `State`. */
  datatype Step = Step(env: Environment, state: State)

  /** `do_action`: shift the agent by dir * len, cast every ray from the new position, query the
      goal there, and classify. The source's early `return;` statements leave `st` as filled so
      far, which by then holds everything but `obs_intersect`; that array is never written and
      keeps the (0, 0) its pairs are value-initialised with. */
  function DoAction(e: Environment, a: Action): (r: Step)
    // only the agent's position moves, by exactly dir * len; backup is untouched
    ensures r.env.backup == e.backup
    ensures r.env.cur == e.cur.(agent := r.env.cur.agent)
    ensures r.env.cur.agent.rays == e.cur.agent.rays
    ensures r.env.cur.agent.pos.x - e.cur.agent.pos.x == a.dir.x * a.len
    ensures r.env.cur.agent.pos.y - e.cur.agent.pos.y == a.dir.y * a.len
    // every reading is cast from the new position
    ensures var p, rays := r.env.cur.agent.pos, e.cur.agent.rays;
            && |r.state.obs| == |rays|
            && forall i :: 0 <= i < |rays| ==> IsNearest(e.cur.objects, p, rays[i], r.state.obs[i])
    ensures |r.state.obsIntersect| == |e.cur.agent.rays|
    ensures forall i :: 0 <= i < |r.state.obsIntersect| ==> r.state.obsIntersect[i] == Vec(0.0, 0.0)
    // the goal queries are taken at the new position
    ensures r.state.directionToGoal == GoalDirection(e.cur.goal, r.env.cur.agent.pos)
    ensures r.state.distanceToGoal == GoalDistance(e.cur.goal, r.env.cur.agent.pos)
    // the outcome: collision first, then the goal, TIMEOUT never
    ensures var p := r.env.cur.agent.pos;
            && (r.state.envType == Collision <==>
                  exists i :: 0 <= i < |e.cur.objects| && e.cur.objects[i].Contains(p))
            && (r.state.envType == Terminal <==>
                  (forall i :: 0 <= i < |e.cur.objects| ==> !e.cur.objects[i].Contains(p))
                  && e.cur.goal.Contains(p))
            && r.state.envType != Timeout
  {
    var agent := Shift(e.cur.agent, a.dir.x * a.len, a.dir.y * a.len);
    var cur := e.cur.(agent := agent);
    var p := agent.pos;
    var st := State(LaunchRays(agent, cur.objects),
                    seq(|agent.rays|, _ => Vec(0.0, 0.0)),
                    GoalDirection(cur.goal, p),
                    GoalDistance(cur.goal, p),
                    Classify(cur.objects, cur.goal, p));
    Step(e.(cur := cur), st)
  }

  /** Every state a step produces has one reading and one intersection point per ray. */
  lemma StateShape(e: Environment, a: Action)
    ensures |DoAction(e, a).state.obs| == |DoAction(e, a).state.obsIntersect| == |e.cur.agent.rays|
  {
  }

  /** An action's direction need not be a unit vector: the agent moves by the direction scaled
      by the length, so direction (2, 0) with length 1 moves it by 2. */
  lemma UnnormalisedActionExample(e: Environment)
    ensures var p := e.cur.agent.pos;
            DoAction(e, Action(Vec(2.0, 0.0), 1.0)).env.cur.agent.pos == Vec(p.x + 2.0, p.y)
  {
  }

  /** A caller's request: one step, or a reset. */
  datatype Command = Act(action: Action) | Restart

  /** The environment after a sequence of requests, in order. */
  function Run(e: Environment, cmds: seq<Command>): Environment
    decreases |cmds|
  {
    if |cmds| == 0 then e
    else
      var next := match cmds[0]
        case Act(a) => DoAction(e, a).env
        case Restart => Reset(e);
      Run(next, cmds[1..])
  }

  /** `backup` is never written after construction: no sequence of steps and resets changes it. */
  lemma {:induction false} RunKeepsBackup(e: Environment, cmds: seq<Command>)
    ensures Run(e, cmds).backup == e.backup
    decreases |cmds|
  {
    if |cmds| > 0 {
      var next := match cmds[0]
        case Act(a) => DoAction(e, a).env
        case Restart => Reset(e);
      RunKeepsBackup(next, cmds[1..]);
    }
  }

  /** Whatever happened since construction, a reset brings back exactly the constructed state. */
  lemma ResetRestoresStart(objects: seq<Box>, goal: Goal, agent: Agent,
                           x0: real, y0: real, x1: real, y1: real, cmds: seq<Command>)
    ensures var e := Create(objects, goal, agent, x0, y0, x1, y1);
            Reset(Run(e, cmds)) == e
  {
    RunKeepsBackup(Create(objects, goal, agent, x0, y0, x1, y1), cmds);
  }

  /** The constructor as evidently intended: the four walls join the obstacles before the
      snapshots are taken, so both `cur` and `backup` hold them after the given obstacles. */
  function CreateWithWalls(objects: seq<Box>, goal: Goal, agent: Agent,
                           x0: real, y0: real, x1: real, y1: real): (e: Environment)
    ensures e.backup == e.cur
    ensures e.cur.objects == objects + Walls(x0, y0, x1, y1)
    ensures e.cur.goal == goal && e.cur.agent == agent
    ensures e.cur.x0 == x0 && e.cur.y0 == y0 && e.cur.x1 == x1 && e.cur.y1 == y1
    ensures e.cur.dtime == 0.0
  {
    var d := Data(objects + Walls(x0, y0, x1, y1), goal, agent, x0, y0, x1, y1, 0.0);
    Environment(d, d)
  }

  /** Steps and resets never change the obstacles, as long as `cur` and `backup` agree on them. */
  lemma {:induction false} RunKeepsObjects(e: Environment, cmds: seq<Command>)
    requires e.cur.objects == e.backup.objects
    ensures Run(e, cmds).cur.objects == e.cur.objects
    ensures Run(e, cmds).backup.objects == e.backup.objects
    decreases |cmds|
  {
    if |cmds| > 0 {
      var next := match cmds[0]
        case Act(a) => DoAction(e, a).env
        case Restart => Reset(e);
      RunKeepsObjects(next, cmds[1..]);
    }
  }

  /** In an arena built with its walls, whatever happened before, a step that ends on the arena's
      border is a collision. */
  lemma WalledArenaBlocksBorder(objects: seq<Box>, goal: Goal, agent: Agent,
                                x0: real, y0: real, x1: real, y1: real,
                                cmds: seq<Command>, a: Action)
    requires x0 != x1 && y0 != y1
    requires var e := Run(CreateWithWalls(objects, goal, agent, x0, y0, x1, y1), cmds);
             OnBorder(x0, y0, x1, y1, DoAction(e, a).env.cur.agent.pos)
    ensures var e := Run(CreateWithWalls(objects, goal, agent, x0, y0, x1, y1), cmds);
            DoAction(e, a).state.envType == Collision
  {
    var e0 := CreateWithWalls(objects, goal, agent, x0, y0, x1, y1);
    var e := Run(e0, cmds);
    RunKeepsObjects(e0, cmds);
    var p := DoAction(e, a).env.cur.agent.pos;
    WallsCoverBorder(x0, y0, x1, y1, p);
    var i :| 0 <= i < 4 && Walls(x0, y0, x1, y1)[i].Contains(p);
    assert e.cur.objects[|objects| + i] == Walls(x0, y0, x1, y1)[i];
  }
}
