/** The agent and its ring of distance sensors (`Agent` in src/environment/Env.cpp). */
module Sensors {
  import opened Geometry

  /** The agent's position and its array of N ray directions (`rdrs`). N is the length of `rays`:
      the same N sizes every observation array of a `State`. The directions are fixed when the
      agent is built and never change. */
  datatype Agent = Agent(pos: Vec, rays: seq<Vec>)

  /** `Agent::shift`: moves the position by (u, v) with no clamping. */
  function Shift(a: Agent, u: real, v: real): (r: Agent)
    ensures r.pos.x - a.pos.x == u && r.pos.y - a.pos.y == v
    ensures r.rays == a.rays
  {
    a.(pos := Vec(a.pos.x + u, a.pos.y + v))
  }

  /** One sensor reading: a squared distance, or the source's `INFINITY` when nothing is hit. */
  datatype RayDist = Finite(sq: SqLen) | Inf

  /** What a reading of the ray from `o` along `d` must be: `Inf` exactly when every object
      answers "no hit"; otherwise a distance some object reports that is no farther than any
      distance reported by another object. */
  predicate IsNearest(objects: seq<Box>, o: Vec, d: Vec, r: RayDist)
  {
    match r
    case Inf => forall i :: 0 <= i < |objects| ==> objects[i].Intersect(o, d).NoHit?
    case Finite(s) =>
      && (exists i :: 0 <= i < |objects| && objects[i].Intersect(o, d) == Hit(s))
      && (forall i :: 0 <= i < |objects| && objects[i].Intersect(o, d).Hit? ==>
                         s <= objects[i].Intersect(o, d).sq)
  }

  /** The reading is determined: at most one value meets `IsNearest`. */
  lemma NearestIsUnique(objects: seq<Box>, o: Vec, d: Vec, r1: RayDist, r2: RayDist)
    requires IsNearest(objects, o, d, r1) && IsNearest(objects, o, d, r2)
    ensures r1 == r2
  {
    if r1.Finite? && r2.Finite? {
      var i :| 0 <= i < |objects| && objects[i].Intersect(o, d) == Hit(r1.sq);
      var j :| 0 <= j < |objects| && objects[j].Intersect(o, d) == Hit(r2.sq);
      assert r2.sq <= r1.sq && r1.sq <= r2.sq;
    }
  }

  /** The reading a running minimum over the objects' answers produces. */
  function Reading(h: Hit): RayDist
  {
    match h
    case Hit(s) => Finite(s)
    case NoHit => Inf
  }

  /** The minimum over the answers, one per object in order, is the nearest reading. */
  lemma MinimumIsNearest(objects: seq<Box>, o: Vec, d: Vec, hits: seq<Hit>)
    requires |hits| == |objects|
    requires forall i :: 0 <= i < |hits| ==> hits[i] == objects[i].Intersect(o, d)
    ensures IsNearest(objects, o, d, Reading(MinPresent(hits)))
  {
  }

  /** The inner loop of `launch_rays`: start at infinity, skip every negative (no-hit) answer and
      keep the minimum of the rest. */
  function CastRay(objects: seq<Box>, o: Vec, d: Vec): (r: RayDist)
    ensures IsNearest(objects, o, d, r)
  {
    var hits := seq(|objects|, i requires 0 <= i < |objects| => objects[i].Intersect(o, d));
    MinimumIsNearest(objects, o, d, hits);
    Reading(MinPresent(hits))
  }

  /** `launch_rays`: one reading per ray direction, all cast from the agent's position. */
  function LaunchRays(a: Agent, objects: seq<Box>): (r: seq<RayDist>)
    ensures |r| == |a.rays|
    ensures forall i :: 0 <= i < |r| ==> IsNearest(objects, a.pos, a.rays[i], r[i])
  {
    seq(|a.rays|, i requires 0 <= i < |a.rays| => CastRay(objects, a.pos, a.rays[i]))
  }

  /** With no objects every reading is `Inf`. */
  lemma EmptyArenaReadsInfinity(a: Agent, i: nat)
    requires i < |a.rays|
    ensures LaunchRays(a, [])[i] == Inf
  {
  }
}
