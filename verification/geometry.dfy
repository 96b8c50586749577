/** Plane geometry of the arena: points, axis-aligned boxes, strict containment and the
    hand-written ray-versus-box intersection (src/environment/Env.cpp, `euclid`, `Box`).

    Lengths. The source's `euclid(a, b)` is sqrt(a² + b²). Dafny's reals have no square root,
    so every length in this model is carried by its SQUARE (`SqLen`). Square root is strictly
    increasing on the non-negative reals, so every comparison and every minimum the source takes
    over lengths is the same comparison and the same minimum taken over squares, and a length is
    zero exactly when its square is. */
module Geometry {

  /** A point or a direction in the plane (the source's `std::pair<float, float>`). */
  datatype Vec = Vec(x: real, y: real)
  {
    function Neg(): Vec { Vec(-x, -y) }
  }

  function Abs(r: real): real { if r < 0.0 then -r else r }

  /** `std::min(a, b)`: the second argument only when it is strictly smaller. */
  function Min(a: real, b: real): real { if b < a then b else a }

  /** The square of a Euclidean length. */
  type SqLen = r: real | 0.0 <= r

  /** The square of `euclid(a, b)`. */
  function SqEuclid(a: real, b: real): (s: SqLen)
  {
    a * a + b * b
  }

  lemma ProductOfPositives(x: real, y: real, s: real)
    requires 0.0 < x && 0.0 < y && s == x * y
    ensures 0.0 < s
  {
  }

  lemma SquareOfNonZero(a: real, s: real)
    requires a != 0.0 && s == a * a
    ensures 0.0 < s
  {
    if a < 0.0 {
      ProductOfPositives(-a, -a, s);
    } else {
      ProductOfPositives(a, a, s);
    }
  }

  /** A length is zero exactly when both offsets are. */
  lemma SqEuclidZero(a: real, b: real)
    ensures SqEuclid(a, b) == 0.0 <==> a == 0.0 && b == 0.0
  {
    if a != 0.0 {
      SquareOfNonZero(a, a * a);
      assert SqEuclid(a, b) == a * a + b * b;
    } else if b != 0.0 {
      SquareOfNonZero(b, b * b);
      assert SqEuclid(a, b) == a * a + b * b;
    }
  }

  /** What one box query returns: a squared distance, or the source's `-1` "no hit" sentinel. */
  datatype Hit = Hit(sq: SqLen) | NoHit

  /** One step of a running minimum that starts at infinity: `t` replaces `acc` only when it is a
      hit strictly nearer than `acc`, as both `if (res > t) res = t;` and `d = std::min(d, t)` do. */
  function Nearer(acc: Hit, t: Hit): Hit
  {
    match t
    case NoHit => acc
    case Hit(s) => if acc.NoHit? || s < acc.sq then t else acc
  }

  /** The nearest hit of `hs`, folded from the left as the source's loops do; NoHit when there is none. */
  function MinPresent(hs: seq<Hit>): (r: Hit)
    ensures r.NoHit? <==> forall i :: 0 <= i < |hs| ==> hs[i].NoHit?
    ensures r.Hit? ==> exists i :: 0 <= i < |hs| && hs[i] == r
    ensures forall i :: 0 <= i < |hs| && hs[i].Hit? ==> r.Hit? && r.sq <= hs[i].sq
  {
    if |hs| == 0 then NoHit
    else
      var front := hs[..|hs| - 1];
      assert forall i :: 0 <= i < |front| ==> front[i] == hs[i];
      Nearer(MinPresent(front), hs[|hs| - 1])
  }

  /** Squaring preserves the order of absolute values, so the nearer of two offsets has the
      smaller square. */
  lemma SquareOfNearer(a: real, b: real)
    ensures var m := Min(Abs(a), Abs(b)); Min(SqEuclid(a, 0.0), SqEuclid(b, 0.0)) == m * m
  {
    var p, q := Abs(a), Abs(b);
    var pp, qq, pq := p * p, q * q, p * q;
    assert pp == a * a && qq == b * b;
    assert SqEuclid(a, 0.0) == pp && SqEuclid(b, 0.0) == qq;
    if q < p {
      MulLeMono(q, p, q, qq, pq);
      MulLtMono(q, p, p, pq, pp);
      assert Min(pp, qq) == qq;
    } else {
      MulLeMono(p, q, p, pp, pq);
      MulLeMono(p, q, q, pq, qq);
      assert Min(pp, qq) == pp;
    }
  }

  /** Multiplying by a non-negative factor keeps a non-strict order (`ac`, `bc` are the products). */
  lemma MulLeMono(a: real, b: real, c: real, ac: real, bc: real)
    requires 0.0 <= a <= b && 0.0 <= c && ac == a * c && bc == b * c
    ensures ac <= bc
  {
    assert bc - ac == (b - a) * c;
    if c > 0.0 && b > a {
      ProductOfPositives(b - a, c, (b - a) * c);
    }
  }

  /** Multiplying by a positive factor keeps a strict order (`ac`, `bc` are the products). */
  lemma MulLtMono(a: real, b: real, c: real, ac: real, bc: real)
    requires a < b && 0.0 < c && ac == a * c && bc == b * c
    ensures ac < bc
  {
    assert bc - ac == (b - a) * c;
    ProductOfPositives(b - a, c, (b - a) * c);
  }

  /** Where the line through `o` along `d` crosses the vertical line x == edgeX
      (`(1 / k_y) * (edgeX - o_x) + o_y`). */
  function SideY(edgeX: real, o: Vec, d: Vec): real
    requires d.x != 0.0
  {
    (d.y / d.x) * (edgeX - o.x) + o.y
  }

  /** Where the line through `o` along `d` crosses the horizontal line y == edgeY
      (`k_y * (edgeY - o_y) + o_x`). */
  function CapX(edgeY: real, o: Vec, d: Vec): real
    requires d.y != 0.0
  {
    (d.x / d.y) * (edgeY - o.y) + o.x
  }

  /** Below this |dir.y| a ray counts as horizontal (`0.000001` in the source). */
  const NearHorizontal: real := 0.000001

  /** An axis-aligned box given by its centre and its full width and height (`Box`). A `Goal` is a
      `Box` with no override, so the same value serves for both. No sign is demanded of `w` and `h`:
      the source does not check them. */
  datatype Box = Box(x: real, y: real, w: real, h: real)
  {
    function Left(): real { x - w / 2.0 }
    function Right(): real { x + w / 2.0 }
    function Top(): real { y + h / 2.0 }
    function Bottom(): real { y - h / 2.0 }

    /** `check_colision`: the point lies strictly inside the open rectangle, that is strictly
        within half the width and half the height of the centre; no boundary point is inside. */
    function Contains(p: Vec): (c: bool)
      ensures c <==> Abs(p.x - x) < w / 2.0 && Abs(p.y - y) < h / 2.0
      ensures OnBoundary(this, p) ==> !c
    {
      p.x > Left() && p.x < Right() && p.y > Bottom() && p.y < Top()
    }

    /** Candidate on the vertical edge line x == edgeX (`c1`, `c2`). The source computes `1 / k_y`
        with `k_y = dir.x / dir.y`; when dir.x is zero that is an infinite slope, the candidate's
        y is infinite or not a number, and its extent test fails, so there is no candidate. */
    function SideHit(edgeX: real, o: Vec, d: Vec): Hit
      requires d.y != 0.0
    {
      if d.x == 0.0 then NoHit
      else
        var cy := SideY(edgeX, o, d);
        if Abs(cy - y) <= h / 2.0 then Hit(SqEuclid(edgeX - o.x, cy - o.y)) else NoHit
    }

    /** Candidate on the horizontal edge line y == edgeY (`c3`, `c4`). */
    function CapHit(edgeY: real, o: Vec, d: Vec): Hit
      requires d.y != 0.0
    {
      var cx := CapX(edgeY, o, d);
      if Abs(cx - x) <= w / 2.0 then Hit(SqEuclid(cx - o.x, edgeY - o.y)) else NoHit
    }

    /** The four candidates in the source's order: left, right, top, bottom. */
    function EdgeHits(o: Vec, d: Vec): (hs: seq<Hit>)
      requires d.y != 0.0
      ensures |hs| == 4
    {
      [SideHit(Left(), o, d), SideHit(Right(), o, d), CapHit(Top(), o, d), CapHit(Bottom(), o, d)]
    }

    /** `get_intersect`: squared distance from `o` to where the LINE through `o` along `d` meets the
        box's boundary, or NoHit. There is no forward-only filter: only |d.y| and d.x / d.y are used. */
    function Intersect(o: Vec, d: Vec): (r: Hit)
      // near-horizontal: a hit exactly when o lies strictly within the vertical extent,
      // at the nearer of the two vertical edges
      ensures Abs(d.y) <= NearHorizontal ==> (r.NoHit? <==> Abs(o.y - y) >= h / 2.0)
      ensures Abs(d.y) <= NearHorizontal && r.Hit? ==>
                var m := Min(Abs(o.x - Left()), Abs(o.x - Right())); r.sq == m * m
      // general: NoHit exactly when no candidate passes its extent test; otherwise the nearest
      ensures NearHorizontal < Abs(d.y) ==>
                (r.NoHit? <==> forall i :: 0 <= i < 4 ==> EdgeHits(o, d)[i].NoHit?)
      ensures NearHorizontal < Abs(d.y) && r.Hit? ==>
                (exists i :: 0 <= i < 4 && EdgeHits(o, d)[i] == r)
                && forall i :: 0 <= i < 4 && EdgeHits(o, d)[i].Hit? ==> r.sq <= EdgeHits(o, d)[i].sq
    {
      if Abs(d.y) <= NearHorizontal then
        if Abs(o.y - y) < h / 2.0 then
          SquareOfNearer(o.x - Left(), o.x - Right());
          Hit(Min(SqEuclid(o.x - Left(), 0.0), SqEuclid(o.x - Right(), 0.0)))
        else NoHit
      else
        MinPresent(EdgeHits(o, d))
    }
  }

  /** A point of the closed boundary of box `b`. */
  predicate OnBoundary(b: Box, p: Vec)
  {
    && Abs(p.x - b.x) <= b.w / 2.0 && Abs(p.y - b.y) <= b.h / 2.0
    && (Abs(p.x - b.x) == b.w / 2.0 || Abs(p.y - b.y) == b.h / 2.0)
  }

  /** `p` lies on the line through `o` with direction `d`. */
  predicate OnLine(o: Vec, d: Vec, p: Vec)
  {
    (p.x - o.x) * d.y == (p.y - o.y) * d.x
  }

  /** Boundary points are excluded: (5, 0) is on the edge of the 10 x 10 box at the origin,
      (4.999, 0) is inside it. */
  lemma ContainsExample()
    ensures !Box(0.0, 0.0, 10.0, 10.0).Contains(Vec(5.0, 0.0))
    ensures Box(0.0, 0.0, 10.0, 10.0).Contains(Vec(4.999, 0.0))
  {
  }

  /** Negating both numerator and denominator leaves a quotient unchanged. */
  lemma QuotientOfNegations(a: real, c: real)
    requires c != 0.0
    ensures (-a) / (-c) == a / c
  {
    var q := a / c;
    assert q * c == a;
    assert q * (-c) == -a;
  }

  lemma CapHitIgnoresOrientation(b: Box, e: real, o: Vec, d: Vec)
    requires d.y != 0.0
    ensures b.CapHit(e, o, d) == b.CapHit(e, o, d.Neg())
  {
    QuotientOfNegations(d.x, d.y);
    assert CapX(e, o, d) == CapX(e, o, d.Neg());
  }

  lemma SideHitIgnoresOrientation(b: Box, e: real, o: Vec, d: Vec)
    requires d.y != 0.0
    ensures b.SideHit(e, o, d) == b.SideHit(e, o, d.Neg())
  {
    if d.x != 0.0 {
      QuotientOfNegations(d.y, d.x);
      assert SideY(e, o, d) == SideY(e, o, d.Neg());
    }
  }

  /** Reversing the direction leaves each slope, and so each candidate, unchanged. */
  lemma EdgeHitsIgnoreOrientation(b: Box, o: Vec, d: Vec)
    requires d.y != 0.0
    ensures b.EdgeHits(o, d) == b.EdgeHits(o, d.Neg())
  {
    CapHitIgnoresOrientation(b, b.Top(), o, d);
    CapHitIgnoresOrientation(b, b.Bottom(), o, d);
    SideHitIgnoresOrientation(b, b.Left(), o, d);
    SideHitIgnoresOrientation(b, b.Right(), o, d);
  }

  /** The query depends on the line, not on the ray's orientation: reversing `d` changes nothing. */
  lemma IntersectIgnoresOrientation(b: Box, o: Vec, d: Vec)
    ensures b.Intersect(o, d) == b.Intersect(o, d.Neg())
  {
    if NearHorizontal < Abs(d.y) {
      EdgeHitsIgnoreOrientation(b, o, d);
    }
  }

  /** A passing side candidate is a boundary point on the line. */
  lemma SideHitOnBoundary(b: Box, e: real, o: Vec, d: Vec)
    requires 0.0 <= b.w && d.y != 0.0
    requires e == b.Left() || e == b.Right()
    requires b.SideHit(e, o, d).Hit?
    ensures d.x != 0.0
    ensures var p := Vec(e, SideY(e, o, d));
            OnBoundary(b, p) && OnLine(o, d, p) && b.SideHit(e, o, d).sq == SqEuclid(p.x - o.x, p.y - o.y)
  {
    var j := d.y / d.x;
    assert j * d.x == d.y;
    assert (j * (e - o.x)) * d.x == (e - o.x) * d.y;
  }

  /** A passing top or bottom candidate is a boundary point on the line. */
  lemma CapHitOnBoundary(b: Box, e: real, o: Vec, d: Vec)
    requires 0.0 <= b.h && d.y != 0.0
    requires e == b.Top() || e == b.Bottom()
    requires b.CapHit(e, o, d).Hit?
    ensures var p := Vec(CapX(e, o, d), e);
            OnBoundary(b, p) && OnLine(o, d, p) && b.CapHit(e, o, d).sq == SqEuclid(p.x - o.x, p.y - o.y)
  {
    var k := d.x / d.y;
    assert k * d.y == d.x;
    assert (k * (e - o.y)) * d.y == (e - o.y) * d.x;
  }

  /** In the general branch every hit is the squared distance from `o` to a point of the box's
      closed boundary that lies on the line through `o` along `d` (for a box of non-negative size). */
  lemma IntersectHitsBoundaryOnLine(b: Box, o: Vec, d: Vec)
    requires 0.0 <= b.w && 0.0 <= b.h
    requires NearHorizontal < Abs(d.y)
    ensures b.Intersect(o, d).Hit? ==>
              exists p :: OnBoundary(b, p) && OnLine(o, d, p)
                          && b.Intersect(o, d).sq == SqEuclid(p.x - o.x, p.y - o.y)
  {
    var hs := b.EdgeHits(o, d);
    var r := b.Intersect(o, d);
    if r.NoHit? { return; }
    var i :| 0 <= i < 4 && hs[i] == r;
    if i == 0 {
      SideHitOnBoundary(b, b.Left(), o, d);
    } else if i == 1 {
      SideHitOnBoundary(b, b.Right(), o, d);
    } else if i == 2 {
      CapHitOnBoundary(b, b.Top(), o, d);
    } else {
      CapHitOnBoundary(b, b.Bottom(), o, d);
    }
  }

  /** A horizontal ray from (-20, 0) meets the 10 x 10 box at the origin at its near edge x == -5,
      15 away, whichever way it points; from (-20, 20) it passes above the box. */
  lemma HorizontalExample()
    ensures Box(0.0, 0.0, 10.0, 10.0).Intersect(Vec(-20.0, 0.0), Vec(1.0, 0.0)) == Hit(225.0)
    ensures Box(0.0, 0.0, 10.0, 10.0).Intersect(Vec(-20.0, 20.0), Vec(1.0, 0.0)) == NoHit
    ensures Box(0.0, 0.0, 10.0, 10.0).Intersect(Vec(-20.0, 0.0), Vec(-1.0, 0.0)) == Hit(225.0)
  {
  }

  /** There is no forward-only filter: a ray from (-20, 0) along (-1, -0.1), pointing AWAY from
      the 10 x 10 box at the origin, still reports the box. Its line crosses the left edge at
      (-5, 1.5), behind the origin, 15 across and 1.5 up: 227.25 squared. The right edge is
      crossed at (5, 2.5), farther; the top and bottom edge lines are crossed outside the box. */
  lemma BehindOriginExample()
    ensures Box(0.0, 0.0, 10.0, 10.0).Intersect(Vec(-20.0, 0.0), Vec(-1.0, -0.1)) == Hit(227.25)
  {
    var b, o, d := Box(0.0, 0.0, 10.0, 10.0), Vec(-20.0, 0.0), Vec(-1.0, -0.1);
    assert d.y / d.x == 0.1 && d.x / d.y == 10.0;
    assert SideY(-5.0, o, d) == 1.5 && SideY(5.0, o, d) == 2.5;
    assert CapX(5.0, o, d) == 30.0 && CapX(-5.0, o, d) == -70.0;
    var hs := b.EdgeHits(o, d);
    assert hs == [Hit(227.25), Hit(631.25), NoHit, NoHit];
    var r := b.Intersect(o, d);
    assert NearHorizontal < Abs(d.y) && hs[0].Hit?;
    assert r == MinPresent(hs);
    var i :| 0 <= i < 4 && hs[i] == r;
    assert r.sq <= hs[0].sq;
  }
}
