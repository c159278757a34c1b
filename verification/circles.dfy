/** A circle on the floor plan against boxes: overlap, sliding and pushing out. */
module Circles {
  import opened Geometry

  datatype Point = Point(x: real, z: real)

  datatype Body = Body(feetY: real, height: real, radius: real)

  const STEP := 0.18

  function Clamp(v: real, lo: real, hi: real): real {
    Max(lo, Min(hi, v))
  }

  predicate Apart(body: Body, b: Box) {
    body.feetY + body.height < b.minY || body.feetY + 0.14 > b.maxY
  }

  function Sq(v: real): real {
    v * v
  }

  /** Squared distance from a point to the box's rectangle, as the collision test measures it. */
  function DistSq(p: Point, b: Box): real {
    Sq(p.x - Clamp(p.x, b.minX, b.maxX)) + Sq(p.z - Clamp(p.z, b.minZ, b.maxZ))
  }

  predicate CircleHits(p: Point, body: Body, b: Box) {
    !Apart(body, b) && DistSq(p, b) < Sq(body.radius)
  }

  predicate Hits(p: Point, body: Body, bs: seq<Box>) {
    exists i :: 0 <= i < |bs| && CircleHits(p, body, bs[i])
  }

  /** The boxes a player can run into: the fixed blockers, then the doors' boxes. */
  datatype Scene = Scene(blockers: seq<Box>, dyn: seq<Box>)

  predicate Bad(p: Point, body: Body, s: Scene) {
    Hits(p, body, s.blockers) || Hits(p, body, s.dyn)
  }

  predicate Upright(b: Box) {
    b.minX <= b.maxX && b.minZ <= b.maxZ
  }

  ghost predicate AllUpright(s: Scene) {
    (forall i :: 0 <= i < |s.blockers| ==> Upright(s.blockers[i])) &&
    (forall i :: 0 <= i < |s.dyn| ==> Upright(s.dyn[i]))
  }

  /** What `Math.hypot` computes, on exact reals. */
  ghost predicate IsHypot(hypot: (real, real) -> real) {
    forall a, b :: hypot(a, b) >= 0.0 && Sq(hypot(a, b)) == Sq(a) + Sq(b)
  }

  // ---- sliding --------------------------------------------------------------------------

  /** `Math.max(1, Math.ceil(dist / 0.18))`. */
  function Steps(dist: real): (n: int)
    ensures n >= 1 && n as real * STEP >= dist
    ensures n == 1 || (n - 1) as real * STEP < dist
  {
    var up := 0 - (0.0 - dist / STEP).Floor;
    if up > 1 then up else 1
  }

  /** One sub-step: the whole step if it is free, else along x, else along z, else nowhere. */
  function Next(p: Point, sx: real, sz: real, body: Body, s: Scene): Point {
    var q := Point(p.x + sx, p.z + sz);
    if !Bad(q, body, s) then q
    else if !Bad(Point(q.x, p.z), body, s) then Point(q.x, p.z)
    else if !Bad(Point(p.x, q.z), body, s) then Point(p.x, q.z)
    else p
  }

  function Slide(p: Point, sx: real, sz: real, body: Body, s: Scene, n: nat): Point {
    if n == 0 then p else Next(Slide(p, sx, sz, body, s, n - 1), sx, sz, body, s)
  }

  lemma {:induction false} FreeStaysFree(p: Point, sx: real, sz: real, body: Body, s: Scene, n: nat)
    requires !Bad(p, body, s)
    ensures !Bad(Slide(p, sx, sz, body, s, n), body, s)
  {
    hide Bad;
    if n > 0 {
      FreeStaysFree(p, sx, sz, body, s, n - 1);
    }
  }

  lemma {:induction false} StuckStays(p: Point, sx: real, sz: real, body: Body, s: Scene, k: nat, n: nat)
    requires k <= n
    requires var q := Slide(p, sx, sz, body, s, k); Next(q, sx, sz, body, s) == q
    ensures Slide(p, sx, sz, body, s, n) == Slide(p, sx, sz, body, s, k)
    decreases n - k
  {
    hide Next;
    if k < n {
      StuckStays(p, sx, sz, body, s, k, n - 1);
    }
  }

  /** A point `t` of the way from `a` to `b`. */
  function Along(a: Point, b: Point, t: real): Point {
    Point(a.x + t * (b.x - a.x), a.z + t * (b.z - a.z))
  }

  predicate InRectangle(p: Point, b: Box) {
    b.minX <= p.x <= b.maxX && b.minZ <= p.z <= b.maxZ
  }

  function Between(p: Point, q: Point): real {
    Sq(p.x - q.x) + Sq(p.z - q.z)
  }

  lemma SqMonotone(a: real, b: real)
    requires 0.0 <= a <= b || b <= a <= 0.0
    ensures Sq(a) <= Sq(b)
  {
  }

  /** No point of the rectangle is nearer than the clamped one. */
  lemma ClampIsNearest(p: Point, q: Point, b: Box)
    requires InRectangle(q, b)
    ensures DistSq(p, b) <= Between(p, q)
  {
    SqMonotone(p.x - Clamp(p.x, b.minX, b.maxX), p.x - q.x);
    SqMonotone(p.z - Clamp(p.z, b.minZ, b.maxZ), p.z - q.z);
  }

  /** The collision test says whether some point of the box's rectangle is nearer than the radius, for boxes that reach
    * into the body's height above its lowest 0.14. */
  lemma HitMeansNear(p: Point, body: Body, b: Box)
    requires Upright(b)
    ensures CircleHits(p, body, b) <==>
              && b.maxY >= body.feetY + 0.14 && b.minY <= body.feetY + body.height
              && exists c :: InRectangle(c, b) && (p.x - c.x) * (p.x - c.x) + (p.z - c.z) * (p.z - c.z) < body.radius * body.radius
  {
    hide Between;
    var near := Point(Clamp(p.x, b.minX, b.maxX), Clamp(p.z, b.minZ, b.maxZ));
    assert InRectangle(near, b);
    assert DistSq(p, b) == (p.x - near.x) * (p.x - near.x) + (p.z - near.z) * (p.z - near.z);
    forall c | InRectangle(c, b)
      ensures DistSq(p, b) <= (p.x - c.x) * (p.x - c.x) + (p.z - c.z) * (p.z - c.z)
    {
      ClampIsNearest(p, c, b);
      BetweenIs(p, c);
    }
  }

  lemma BetweenIs(p: Point, c: Point)
    ensures Between(p, c) == (p.x - c.x) * (p.x - c.x) + (p.z - c.z) * (p.z - c.z)
  {
  }

  lemma FreeIsFar(p: Point, body: Body, s: Scene, b: Box, q: Point)
    requires !Bad(p, body, s) && (b in s.blockers || b in s.dyn) && !Apart(body, b)
    requires InRectangle(q, b)
    ensures Between(p, q) >= Sq(body.radius)
  {
    hide DistSq, Between, Sq, Apart;
    ClampIsNearest(p, q, b);
    if b in s.blockers {
      var i :| 0 <= i < |s.blockers| && s.blockers[i] == b;
      assert !CircleHits(p, body, s.blockers[i]);
    } else {
      var i :| 0 <= i < |s.dyn| && s.dyn[i] == b;
      assert !CircleHits(p, body, s.dyn[i]);
    }
  }

  /** The triangle inequality on squares: a point within 0.09 of a centre that is at least `r` from `q` is
    * itself at least `r - 0.09` from `q`. */
  lemma Triangle(ux: real, uz: real, vx: real, vz: real, d: real)
    requires d > 0.0
    requires Sq(ux) + Sq(uz) <= 0.0081
    requires Sq(ux + vx) + Sq(uz + vz) >= Sq(d + 0.09)
    ensures Sq(vx) + Sq(vz) >= Sq(d)
  {
    hide Sq;
    var r, u2, v2 := d + 0.09, Sq(ux) + Sq(uz), Sq(vx) + Sq(vz);
    WeightedSquare(ux, vx, d);
    WeightedSquare(uz, vz, d);
    Collect(d, Sq(ux), Sq(uz), Sq(vx), Sq(vz));
    Scale(0.09 * d, Sq(r), Sq(ux + vx) + Sq(uz + vz));
    Spread(0.09 * d, Sq(ux + vx), Sq(uz + vz));
    Conclude(d, u2, v2);
  }

  lemma WeightedSquare(u: real, v: real, d: real)
    requires d > 0.0
    ensures 0.09 * d * Sq(u + v) <= (d + 0.09) * (d * Sq(u) + 0.09 * Sq(v))
  {
    var w := d * u - 0.09 * v;
    Square(d * u, 0.09 * v);
    assert w * w >= 0.0;
    assert (d * u) * (d * u) == d * d * (u * u);
    assert (d * u) * (0.09 * v) == 0.09 * d * (u * v);
    assert Sq(u + v) == u * u + 2.0 * (u * v) + v * v;
    Spread3(0.09 * d, u * u, 2.0 * (u * v), v * v);
    assert (d + 0.09) * (d * (u * u) + 0.09 * (v * v)) == d * d * (u * u) + 0.09 * d * (u * u) + 0.09 * d * (v * v) + 0.0081 * (v * v);
  }

  lemma Square(a: real, b: real)
    ensures (a - b) * (a - b) == a * a - 2.0 * (a * b) + b * b
  {
  }

  lemma Spread3(k: real, a: real, b: real, c: real)
    ensures k * (a + b + c) == k * a + k * b + k * c
  {
  }

  lemma Spread(k: real, a: real, b: real)
    ensures k * (a + b) == k * a + k * b
  {
  }

  lemma Scale(k: real, a: real, b: real)
    requires k >= 0.0 && a <= b
    ensures k * a <= k * b
  {
  }

  lemma Collect(d: real, a: real, b: real, x: real, y: real)
    ensures (d + 0.09) * (d * a + 0.09 * x) + (d + 0.09) * (d * b + 0.09 * y)
         == (d + 0.09) * (d * (a + b) + 0.09 * (x + y))
  {
    Spread(d + 0.09, d * a + 0.09 * x, d * b + 0.09 * y);
    Spread(d, a, b);
  }

  lemma Cancel(r: real, a: real, b: real)
    requires r > 0.0 && r * a <= r * b
    ensures a <= b
  {
    assert r * (b - a) >= 0.0;
  }

  lemma Conclude(d: real, u2: real, v2: real)
    requires d > 0.0 && u2 <= 0.0081
    requires 0.09 * d * Sq(d + 0.09) <= (d + 0.09) * (d * u2 + 0.09 * v2)
    ensures v2 >= Sq(d)
  {
    var r := d + 0.09;
    assert 0.09 * d * Sq(r) == r * (0.09 * d * r);
    Cancel(r, 0.09 * d * r, d * u2 + 0.09 * v2);
    Scale(d, u2, 0.0081);
    assert 0.09 * d * r == 0.09 * (d * d) + 0.0081 * d;
  }

  lemma SquareOfScaled(k: real, a: real, b: real)
    ensures Sq(k * a) + Sq(k * b) == Sq(k) * (Sq(a) + Sq(b))
  {
  }

  lemma AtMostHalf(k: real, len2: real)
    requires -0.5 <= k <= 0.5 && 0.0 <= len2 <= 0.0324
    ensures Sq(k) * len2 <= 0.0081
  {
    assert Sq(k) <= 0.25 by {
      if k >= 0.0 {
        SqMonotone(k, 0.5);
      } else {
        SqMonotone(k, -0.5);
      }
    }
    Scale(len2, Sq(k), 0.25);
  }

  /** Between two free positions at most 0.18 apart, every point of the straight path keeps a clearance of
    * `radius - 0.09` from every vertically overlapping box. */
  lemma SegmentIsClear(p: Point, q: Point, t: real, body: Body, s: Scene, b: Box, c: Point)
    requires !Bad(p, body, s) && !Bad(q, body, s) && body.radius > 0.09
    requires Between(p, q) <= 0.0324 && 0.0 <= t <= 1.0
    requires (b in s.blockers || b in s.dyn) && !Apart(body, b) && InRectangle(c, b)
    ensures Between(Along(p, q, t), c) >= Sq(body.radius - 0.09)
  {
    hide Bad, Apart, Sq;
    var m := Along(p, q, t);
    var k := if t <= 0.5 then 0.0 - t else 1.0 - t;
    var end := if t <= 0.5 then p else q;
    FreeIsFar(end, body, s, b, c);
    var dx, dz := q.x - p.x, q.z - p.z;
    assert end.x - m.x == k * dx && end.z - m.z == k * dz;
    SameLength(p, q);
    var ux, uz := end.x - m.x, end.z - m.z;
    ShortOffset(k, dx, dz, ux, uz);
    assert end.x - c.x == ux + (m.x - c.x) && end.z - c.z == uz + (m.z - c.z);
    Triangle(ux, uz, m.x - c.x, m.z - c.z, body.radius - 0.09);
  }

  lemma ShortOffset(k: real, dx: real, dz: real, ux: real, uz: real)
    requires -0.5 <= k <= 0.5 && Sq(dx) + Sq(dz) <= 0.0324 && ux == k * dx && uz == k * dz
    ensures Sq(ux) + Sq(uz) <= 0.0081
  {
    SquareOfScaled(k, dx, dz);
    SumOfSquares(dx, dz);
    AtMostHalf(k, Sq(dx) + Sq(dz));
  }

  lemma SameLength(p: Point, q: Point)
    ensures Between(p, q) == Sq(q.x - p.x) + Sq(q.z - p.z)
  {
  }

  lemma SumOfSquares(a: real, b: real)
    ensures Sq(a) + Sq(b) >= 0.0
  {
  }

  lemma NextIsNear(p: Point, sx: real, sz: real, body: Body, s: Scene)
    ensures Between(p, Next(p, sx, sz, body, s)) <= Sq(sx) + Sq(sz)
  {
    hide Bad;
  }

  /** The sub-steps of a move are at most 0.18 long. */
  lemma StepsAreShort(dx: real, dz: real, dist: real)
    requires dist >= 0.0 && Sq(dist) == Sq(dx) + Sq(dz)
    ensures var n := Steps(dist) as real; Sq(dx / n) + Sq(dz / n) <= 0.0324
  {
    var n := Steps(dist) as real;
    SqMonotone(dist, n * STEP);
    assert Sq(n * STEP) == Sq(n) * 0.0324;
    var sx, sz := dx / n, dz / n;
    assert n * sx == dx && n * sz == dz;
    SquareOfScaled(n, sx, sz);
    Cancel(Sq(n), Sq(sx) + Sq(sz), 0.0324);
  }

  /** The whole path of a move from a free start, sub-step by sub-step and slide by slide, keeps a clearance of
    * `radius - 0.09` from every vertically overlapping box: nothing is tunnelled through. */
  lemma NoTunnelling(p: Point, dx: real, dz: real, dist: real, k: nat, t: real, body: Body, s: Scene, b: Box, c: Point)
    requires dist >= 0.0 && Sq(dist) == Sq(dx) + Sq(dz)
    requires !Bad(p, body, s) && body.radius > 0.09 && k < Steps(dist) && 0.0 <= t <= 1.0
    requires (b in s.blockers || b in s.dyn) && !Apart(body, b) && InRectangle(c, b)
    ensures var n := Steps(dist) as real;
            var from, to := Slide(p, dx / n, dz / n, body, s, k), Slide(p, dx / n, dz / n, body, s, k + 1);
            Between(Along(from, to, t), c) >= Sq(body.radius - 0.09) > 0.0
  {
    hide Bad, Apart, Sq, Between, Along, InRectangle, Steps, Next;
    var n := Steps(dist) as real;
    StepsAreShort(dx, dz, dist);
    FreeStaysFree(p, dx / n, dz / n, body, s, k);
    FreeStaysFree(p, dx / n, dz / n, body, s, k + 1);
    var from := Slide(p, dx / n, dz / n, body, s, k);
    NextIsNear(from, dx / n, dz / n, body, s);
    SegmentIsClear(from, Slide(p, dx / n, dz / n, body, s, k + 1), t, body, s, b, c);
    PositiveSquare(body.radius - 0.09);
  }

  lemma PositiveSquare(d: real)
    requires d > 0.0
    ensures Sq(d) > 0.0
  {
    ProductIsPositive(d, d, Sq(d));
  }

  lemma ProductIsPositive(a: real, b: real, r: real)
    requires a > 0.0 && b > 0.0 && r == a * b
    ensures r > 0.0
  {
  }

  /** `v` lies between `start` and `start + d`. */
  predicate WithinDisplacement(v: real, start: real, d: real) {
    (d >= 0.0 ==> start <= v <= start + d) && (d <= 0.0 ==> start + d <= v <= start)
  }

  /** The displacement of `n` whole sub-steps. */
  function Times(n: nat, d: real): real {
    n as real * d
  }

  lemma TimesStep(n: nat, d: real)
    ensures Times(0, d) == 0.0 && Times(n + 1, d) == Times(n, d) + d
    ensures d >= 0.0 ==> Times(n, d) >= 0.0
    ensures d <= 0.0 ==> Times(n, d) <= 0.0
    ensures Times(n, d) > 0.0 ==> d > 0.0
    ensures Times(n, d) < 0.0 ==> d < 0.0
  {
    var m := n as real;
    assert (m + 1.0) * d == m * d + d;
  }

  lemma AxisStep(v: real, w: real, start: real, n: nat, d: real)
    requires WithinDisplacement(v, start, Times(n, d)) && (w == v || w == v + d)
    ensures WithinDisplacement(w, start, Times(n + 1, d))
  {
    hide Times;
    TimesStep(n, d);
  }

  lemma NextMovesByAxes(p: Point, sx: real, sz: real, body: Body, s: Scene)
    ensures var q := Next(p, sx, sz, body, s); (q.x == p.x || q.x == p.x + sx) && (q.z == p.z || q.z == p.z + sz)
  {
    hide Bad;
  }

  lemma {:induction false} NoOvershootSoFar(p: Point, sx: real, sz: real, body: Body, s: Scene, n: nat)
    ensures WithinDisplacement(Slide(p, sx, sz, body, s, n).x, p.x, Times(n, sx))
    ensures WithinDisplacement(Slide(p, sx, sz, body, s, n).z, p.z, Times(n, sz))
  {
    hide Next, Times;
    if n == 0 {
      TimesStep(0, sx);
      TimesStep(0, sz);
    } else {
      var q, r := Slide(p, sx, sz, body, s, n - 1), Slide(p, sx, sz, body, s, n);
      NoOvershootSoFar(p, sx, sz, body, s, n - 1);
      NextMovesByAxes(q, sx, sz, body, s);
      AxisStep(q.x, r.x, p.x, n - 1, sx);
      AxisStep(q.z, r.z, p.z, n - 1, sz);
    }
  }

  lemma TimesOfShare(n: nat, d: real)
    requires n >= 1
    ensures Times(n, d / n as real) == d
  {
  }

  /** No axis ever overshoots the requested displacement. */
  lemma NoOvershoot(p: Point, dx: real, dz: real, dist: real, body: Body, s: Scene)
    ensures var n := Steps(dist);
            var q := Slide(p, dx / n as real, dz / n as real, body, s, n);
            WithinDisplacement(q.x, p.x, dx) && WithinDisplacement(q.z, p.z, dz)
  {
    hide Bad, Steps, Slide, Times;
    var n := Steps(dist);
    NoOvershootSoFar(p, dx / n as real, dz / n as real, body, s, n);
    TimesOfShare(n, dx);
    TimesOfShare(n, dz);
  }

  /** The position after `i` unobstructed sub-steps is free. */
  predicate FreeAfter(p: Point, sx: real, sz: real, body: Body, s: Scene, i: nat) {
    !Bad(Straight(p, sx, sz, i), body, s)
  }

  function Straight(p: Point, sx: real, sz: real, i: nat): Point {
    Point(p.x + Times(i, sx), p.z + Times(i, sz))
  }

  lemma StraightStep(p: Point, sx: real, sz: real, i: nat)
    ensures Straight(p, sx, sz, 0) == p
    ensures Straight(p, sx, sz, i + 1) == Point(Straight(p, sx, sz, i).x + sx, Straight(p, sx, sz, i).z + sz)
  {
    hide Times;
    TimesStep(i, sx);
    TimesStep(i, sz);
  }

  /** A move whose sub-steps are all free arrives exactly where it was asked to. */
  lemma {:induction false} FreePathArrives(p: Point, sx: real, sz: real, body: Body, s: Scene, n: nat)
    requires forall i: nat :: i <= n ==> FreeAfter(p, sx, sz, body, s, i)
    ensures Slide(p, sx, sz, body, s, n) == Straight(p, sx, sz, n)
  {
    hide Bad, Straight;
    StraightStep(p, sx, sz, 0);
    if n > 0 {
      FreePathArrives(p, sx, sz, body, s, n - 1);
      StraightStep(p, sx, sz, n - 1);
      assert FreeAfter(p, sx, sz, body, s, n);
    }
  }

  /** Beside the `i`-th place along z the next step in x is blocked, diagonally and straight. */
  predicate WallBeside(p: Point, sx: real, sz: real, body: Body, s: Scene, i: nat) {
    && !Bad(Point(p.x, p.z + Times(i, sz)), body, s)
    && Bad(Point(p.x + sx, p.z + Times(i, sz)), body, s) && Bad(Point(p.x + sx, p.z + Times(i + 1, sz)), body, s)
  }

  /** A wall beside the whole way of `n` sub-steps along z, which is free itself. */
  ghost predicate WallAcrossX(p: Point, sx: real, sz: real, body: Body, s: Scene, n: nat) {
    !Bad(Point(p.x, p.z + Times(n, sz)), body, s) && forall i: nat :: i < n ==> WallBeside(p, sx, sz, body, s, i)
  }

  /** Along a wall across x every sub-step slides along z. */
  lemma {:induction false} SlidesAlongZ(p: Point, sx: real, sz: real, body: Body, s: Scene, n: nat)
    requires WallAcrossX(p, sx, sz, body, s, n)
    ensures Slide(p, sx, sz, body, s, n) == Point(p.x, p.z + Times(n, sz))
  {
    hide Bad, Times;
    TimesStep(0, sz);
    if n > 0 {
      assert WallBeside(p, sx, sz, body, s, n - 1);
      SlidesAlongZ(p, sx, sz, body, s, n - 1);
      TimesStep(n - 1, sz);
    }
  }

  /** Above the `i`-th place along x the diagonal step is blocked and the step along x is not. */
  predicate WallAbove(p: Point, sx: real, sz: real, body: Body, s: Scene, i: nat) {
    && !Bad(Point(p.x + Times(i, sx), p.z), body, s)
    && !Bad(Point(p.x + Times(i + 1, sx), p.z), body, s) && Bad(Point(p.x + Times(i + 1, sx), p.z + sz), body, s)
  }

  /** A wall above the whole way of `n` sub-steps along x, which is free itself. */
  ghost predicate WallAcrossZ(p: Point, sx: real, sz: real, body: Body, s: Scene, n: nat) {
    !Bad(Point(p.x + Times(n, sx), p.z), body, s) && forall i: nat :: i < n ==> WallAbove(p, sx, sz, body, s, i)
  }

  /** Along a wall across z every sub-step slides along x, whether or not it could also slide along z. */
  lemma {:induction false} SlidesAlongX(p: Point, sx: real, sz: real, body: Body, s: Scene, n: nat)
    requires WallAcrossZ(p, sx, sz, body, s, n)
    ensures Slide(p, sx, sz, body, s, n) == Point(p.x + Times(n, sx), p.z)
  {
    hide Bad, Times;
    TimesStep(0, sx);
    if n > 0 {
      assert WallAbove(p, sx, sz, body, s, n - 1);
      SlidesAlongX(p, sx, sz, body, s, n - 1);
      TimesStep(n - 1, sx);
    }
  }

  // ---- pushing out ----------------------------------------------------------------------

  /** The first box hit: the blockers in order, then the dynamic boxes in order. */
  function FirstHit(p: Point, body: Body, bs: seq<Box>): (i: int)
    ensures 0 <= i <= |bs|
    ensures i < |bs| ==> CircleHits(p, body, bs[i])
    ensures forall j :: 0 <= j < i ==> !CircleHits(p, body, bs[j])
  {
    if bs == [] then 0
    else
      var i := FirstHit(p, body, bs[..|bs| - 1]);
      if i < |bs| - 1 then i
      else if CircleHits(p, body, bs[|bs| - 1]) then |bs| - 1
      else |bs|
  }

  /** One push away from a box: out of the nearest face when the centre is (almost) inside, along the normal
    * otherwise. */
  function PushFrom(p: Point, body: Body, b: Box, len: real): Point {
    var dx, dz := p.x - Clamp(p.x, b.minX, b.maxX), p.z - Clamp(p.z, b.minZ, b.maxZ);
    if len < 0.0001 then
      var left, right, back, front := p.x - b.minX, b.maxX - p.x, p.z - b.minZ, b.maxZ - p.z;
      var m := Min(Min(left, right), Min(back, front));
      if m == left then p.(x := b.minX - body.radius - 0.01)
      else if m == right then p.(x := b.maxX + body.radius + 0.01)
      else if m == back then p.(z := b.minZ - body.radius - 0.01)
      else p.(z := b.maxZ + body.radius + 0.01)
    else
      var push := body.radius - len + 0.01;
      Point(p.x + dx / len * push, p.z + dz / len * push)
  }

  /** The length the push measures. */
  function Normal(p: Point, b: Box, hypot: (real, real) -> real): real {
    hypot(p.x - Clamp(p.x, b.minX, b.maxX), p.z - Clamp(p.z, b.minZ, b.maxZ))
  }

  function PushOnce(p: Point, body: Body, s: Scene, hypot: (real, real) -> real): Point {
    var i := FirstHit(p, body, s.blockers);
    if i < |s.blockers| then PushFrom(p, body, s.blockers[i], Normal(p, s.blockers[i], hypot))
    else
      var j := FirstHit(p, body, s.dyn);
      if j < |s.dyn| then PushFrom(p, body, s.dyn[j], Normal(p, s.dyn[j], hypot)) else p
  }

  /** At most `n` pushes, stopping at a free position. */
  function PushOut(p: Point, body: Body, s: Scene, hypot: (real, real) -> real, n: nat): Point
    decreases n
  {
    if n == 0 || !Bad(p, body, s) then p else PushOut(PushOnce(p, body, s, hypot), body, s, hypot, n - 1)
  }

  /** Moving outward along one axis from the nearest face keeps that face nearest and scales the offset. */
  lemma OutwardKeepsFace(v: real, lo: real, hi: real, k: real, e: real, w: real)
    requires k >= 1.0 && lo <= hi
    requires e == k * (v - Clamp(v, lo, hi)) && w == Clamp(v, lo, hi) + e
    ensures w - Clamp(w, lo, hi) == e
  {
    var d := v - Clamp(v, lo, hi);
    if d > 0.0 {
      Scale(d, 1.0, k);
    } else if d < 0.0 {
      Scale(0.0 - d, 1.0, k);
    }
  }

  /** One push leaves the circle at least `radius + 0.01` from the box it picked. */
  lemma PushSeparates(p: Point, body: Body, b: Box, len: real)
    requires CircleHits(p, body, b) && Upright(b) && body.radius >= 0.0
    requires len >= 0.0 && Sq(len) == DistSq(p, b)
    ensures DistSq(PushFrom(p, body, b, len), b) >= Sq(body.radius + 0.01)
  {
    var reach := body.radius + 0.01;
    if len >= 0.0001 {
      PushAlongNormal(p, body, b, len);
    } else {
      var q := PushFrom(p, body, b, len);
      BeyondFace(q, b, reach);
    }
  }

  lemma Opposite(a: real)
    ensures Sq(0.0 - a) == Sq(a)
  {
  }

  lemma PartOfSum(a: real, b: real)
    ensures Sq(a) <= Sq(a) + Sq(b) && Sq(b) <= Sq(a) + Sq(b)
  {
  }

  /** A centre at least `r` beyond a face is at least `r` away. */
  lemma BeyondFace(q: Point, c: Box, r: real)
    requires Upright(c) && r >= 0.0
    requires q.x <= c.minX - r || q.x >= c.maxX + r || q.z <= c.minZ - r || q.z >= c.maxZ + r
    ensures DistSq(q, c) >= Sq(r)
  {
    hide Sq;
    var dx, dz := q.x - Clamp(q.x, c.minX, c.maxX), q.z - Clamp(q.z, c.minZ, c.maxZ);
    PartOfSum(dx, dz);
    if q.x <= c.minX - r || q.x >= c.maxX + r {
      FarSquare(dx, r);
    } else {
      FarSquare(dz, r);
    }
    SumOfSquares(dx, dz);
  }

  lemma FarSquare(d: real, r: real)
    requires r >= 0.0 && (d >= r || d <= 0.0 - r)
    ensures Sq(d) >= Sq(r)
  {
    if d >= r {
      SqMonotone(r, d);
    } else {
      SqMonotone(r, 0.0 - d);
      Opposite(d);
    }
  }

  lemma PushAlongNormal(p: Point, body: Body, b: Box, len: real)
    requires CircleHits(p, body, b) && Upright(b) && body.radius >= 0.0
    requires len >= 0.0001 && Sq(len) == DistSq(p, b)
    ensures DistSq(PushFrom(p, body, b, len), b) == Sq(body.radius + 0.01)
  {
    hide Clamp, Sq, Apart;
    var reach := body.radius + 0.01;
    var cx, cz := Clamp(p.x, b.minX, b.maxX), Clamp(p.z, b.minZ, b.maxZ);
    var dx, dz := p.x - cx, p.z - cz;
    ShorterThanRadius(len, body.radius);
    var k := reach / len;
    AtLeastOne(k, len, reach);
    ScaledOffset(dx, len, reach);
    ScaledOffset(dz, len, reach);
    var q := PushFrom(p, body, b, len);
    var ex, ez := k * dx, k * dz;
    assert q.x == cx + ex && q.z == cz + ez;
    OutwardKeepsFace(p.x, b.minX, b.maxX, k, ex, q.x);
    OutwardKeepsFace(p.z, b.minZ, b.maxZ, k, ez, q.z);
    assert DistSq(q, b) == Sq(ex) + Sq(ez);
    ScaledLength(k, dx, dz, len, ex, ez, reach);
  }

  lemma ScaledLength(k: real, dx: real, dz: real, len: real, ex: real, ez: real, reach: real)
    requires ex == k * dx && ez == k * dz && reach == k * len && Sq(len) == Sq(dx) + Sq(dz)
    ensures Sq(ex) + Sq(ez) == Sq(reach)
  {
    SquareOfScaled(k, dx, dz);
    SquareOfProduct(k, len);
  }

  lemma SquareOfProduct(k: real, a: real)
    ensures Sq(k * a) == Sq(k) * Sq(a)
  {
  }

  lemma ShorterThanRadius(len: real, r: real)
    requires len >= 0.0 && r >= 0.0 && Sq(len) < Sq(r)
    ensures len < r
  {
    if len >= r {
      SqMonotone(r, len);
    }
  }

  lemma AtLeastOne(k: real, len: real, reach: real)
    requires len > 0.0 && k == reach / len && reach >= len
    ensures k >= 1.0 && k * len == reach
  {
    assert k * len == reach;
    Cancel(len, 1.0, k);
  }

  lemma ScaledOffset(d: real, len: real, reach: real)
    requires len > 0.0
    ensures d + d / len * (reach - len) == reach / len * d
  {
    assert d / len * len == d;
    assert d / len * reach == reach / len * d;
  }

  lemma HitMeansFirstHit(p: Point, body: Body, s: Scene)
    ensures Bad(p, body, s) <==> FirstHit(p, body, s.blockers) < |s.blockers| || FirstHit(p, body, s.dyn) < |s.dyn|
  {
    hide CircleHits, FirstHit;
    var i, j := FirstHit(p, body, s.blockers), FirstHit(p, body, s.dyn);
    if i < |s.blockers| {
      assert CircleHits(p, body, s.blockers[i]);
    }
    if j < |s.dyn| {
      assert CircleHits(p, body, s.dyn[j]);
    }
  }

  lemma SquaresGrow(r: real)
    requires r >= 0.0
    ensures Sq(r + 0.01) > Sq(r)
  {
  }

  /** Pushing out of a free position does nothing. */
  lemma PushOutOfFree(p: Point, body: Body, s: Scene, hypot: (real, real) -> real, n: nat)
    requires !Bad(p, body, s)
    ensures PushOut(p, body, s, hypot, n) == p
  {
  }

  /** `k` pushes in a row. */
  function Pushes(p: Point, body: Body, s: Scene, hypot: (real, real) -> real, k: nat): Point
    decreases k
  {
    if k == 0 then p else Pushes(PushOnce(p, body, s, hypot), body, s, hypot, k - 1)
  }

  /** A push-out pushes exactly while the position is not free: it ends free, or all its pushes were spent. */
  lemma {:induction false} PushOutStops(p: Point, body: Body, s: Scene, hypot: (real, real) -> real, n: nat)
    returns (k: nat)
    ensures k <= n && PushOut(p, body, s, hypot, n) == Pushes(p, body, s, hypot, k)
    ensures k < n ==> !Bad(PushOut(p, body, s, hypot, n), body, s)
    ensures forall j: nat :: j < k ==> Bad(Pushes(p, body, s, hypot, j), body, s)
    decreases n
  {
    hide Bad, PushOnce;
    if n == 0 || !Bad(p, body, s) {
      k := 0;
    } else {
      var q := PushOnce(p, body, s, hypot);
      var m := PushOutStops(q, body, s, hypot, n - 1);
      k := m + 1;
      forall j: nat | j < k ensures Bad(Pushes(p, body, s, hypot, j), body, s) {
        if j > 0 {
          assert Bad(Pushes(q, body, s, hypot, j - 1), body, s);
        }
      }
    }
  }
}
