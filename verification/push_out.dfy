/** When a push-out ends free: the first push is enough wherever the boxes leave room for the circle, and between
  * two facing walls it ends free exactly when they do. */
module PushOuts {
  import opened Geometry
  import opened Circles

  /** What the push leaves between the centre and the face it pushed from. */
  function Reach(body: Body): real {
    body.radius + 0.01
  }

  /** The room two boxes must leave for a circle pushed from one not to touch the other. */
  function Room(body: Body): real {
    2.0 * body.radius + 0.01
  }

  /** Every box a push-out looks at, in the order it looks at them. */
  function All(s: Scene): seq<Box> {
    s.blockers + s.dyn
  }

  lemma FirstHitConcat(p: Point, body: Body, bs: seq<Box>, cs: seq<Box>)
    ensures FirstHit(p, body, bs + cs) ==
      if FirstHit(p, body, bs) < |bs| then FirstHit(p, body, bs) else |bs| + FirstHit(p, body, cs)
  {
    hide CircleHits, FirstHit;
    var all, i, j, k := bs + cs, FirstHit(p, body, bs), FirstHit(p, body, cs), FirstHit(p, body, bs + cs);
    if i < |bs| {
      assert CircleHits(p, body, all[i]);
    } else if j < |cs| {
      assert CircleHits(p, body, all[|bs| + j]);
    }
    if k < |bs| {
      assert CircleHits(p, body, bs[k]);
    } else if k < |all| {
      assert CircleHits(p, body, cs[k - |bs|]);
    }
  }

  /** A push picks the first box hit, blockers before doors. */
  lemma PushPicksFirst(p: Point, body: Body, s: Scene, hypot: (real, real) -> real)
    ensures var k := FirstHit(p, body, All(s));
            && (Bad(p, body, s) <==> k < |All(s)|)
            && PushOnce(p, body, s, hypot) ==
                 if k < |All(s)| then PushFrom(p, body, All(s)[k], Normal(p, All(s)[k], hypot)) else p
  {
    hide Bad, CircleHits, FirstHit, PushFrom, Normal;
    HitMeansFirstHit(p, body, s);
    FirstHitConcat(p, body, s.blockers, s.dyn);
  }

  // ---- one push is enough ---------------------------------------------------------------

  /** The boxes are at least `gap` apart along x or along z. */
  predicate Separated(b: Box, c: Box, gap: real) {
    c.minX - b.maxX >= gap || b.minX - c.maxX >= gap || c.minZ - b.maxZ >= gap || b.minZ - c.maxZ >= gap
  }

  function At(p: Point): Box {
    Box(p.x, p.x, 0.0, 0.0, p.z, p.z)
  }

  /** Room for the circle beside `c` once it is pushed out of `b`: between the boxes, or between the centre and `c`
    * when the centre is clearly outside `b`. */
  predicate Roomy(p: Point, body: Body, b: Box, c: Box) {
    Separated(b, c, Room(body)) || (DistSq(p, b) >= Sq(0.0001) && Separated(At(p), c, Room(body)))
  }

  lemma Magnitude(a: real, limit: real)
    requires limit >= 0.0 && Sq(a) <= Sq(limit)
    ensures 0.0 - limit <= a <= limit
  {
    if a > limit {
      ProductIsPositive(a - limit, a + limit, a * a - limit * limit);
    } else if a < 0.0 - limit {
      ProductIsPositive(0.0 - a - limit, limit - a, a * a - limit * limit);
    }
  }

  /** Along one axis, a push along the normal ends within `reach` of the box and of where it started. */
  lemma LandsNear(v: real, lo: real, hi: real, k: real, e: real, w: real, reach: real)
    requires lo <= hi && k >= 1.0 && 0.0 - reach <= e <= reach
    requires var d := v - Clamp(v, lo, hi); e == k * d && w == Clamp(v, lo, hi) + e
    ensures lo - reach <= w <= hi + reach && v - reach <= w <= v + reach
  {
    var d := v - Clamp(v, lo, hi);
    if d > 0.0 {
      Scale(d, 1.0, k);
    } else if d < 0.0 {
      Scale(0.0 - d, 1.0, k);
    }
  }

  lemma PushAlongNormalLands(p: Point, body: Body, b: Box, len: real)
    requires CircleHits(p, body, b) && Upright(b) && body.radius >= 0.0
    requires len >= 0.0001 && Sq(len) == DistSq(p, b)
    ensures var q, reach := PushFrom(p, body, b, len), Reach(body);
            && b.minX - reach <= q.x <= b.maxX + reach && b.minZ - reach <= q.z <= b.maxZ + reach
            && p.x - reach <= q.x <= p.x + reach && p.z - reach <= q.z <= p.z + reach
  {
    hide Clamp, Sq, Apart;
    var reach := Reach(body);
    var cx, cz := Clamp(p.x, b.minX, b.maxX), Clamp(p.z, b.minZ, b.maxZ);
    var dx, dz := p.x - cx, p.z - cz;
    ShorterThanRadius(len, body.radius);
    var k := reach / len;
    AtLeastOne(k, len, reach);
    ScaledOffset(dx, len, reach);
    ScaledOffset(dz, len, reach);
    var q := PushFrom(p, body, b, len);
    var ex, ez := k * dx, k * dz;
    assert q.x == cx + ex && q.z == cz + ez;
    ScaledLength(k, dx, dz, len, ex, ez, reach);
    PartOfSum(ex, ez);
    Magnitude(ex, reach);
    Magnitude(ez, reach);
    LandsNear(p.x, b.minX, b.maxX, k, ex, q.x, reach);
    LandsNear(p.z, b.minZ, b.maxZ, k, ez, q.z, reach);
  }

  lemma PushFromInsideLands(p: Point, body: Body, b: Box, len: real)
    requires Upright(b) && body.radius >= 0.0 && 0.0 <= len < 0.0001 && Sq(len) == DistSq(p, b)
    ensures var q, reach := PushFrom(p, body, b, len), Reach(body);
            b.minX - reach <= q.x <= b.maxX + reach && b.minZ - reach <= q.z <= b.maxZ + reach
  {
    hide Sq;
    var dx, dz := p.x - Clamp(p.x, b.minX, b.maxX), p.z - Clamp(p.z, b.minZ, b.maxZ);
    PartOfSum(dx, dz);
    Magnitude(dx, len);
    Magnitude(dz, len);
  }

  /** The push leaves the centre within `reach` of the picked box on each axis and, from clearly outside it, within
    * `reach` of where it was. */
  lemma PushLands(p: Point, body: Body, b: Box, len: real)
    requires CircleHits(p, body, b) && Upright(b) && body.radius >= 0.0
    requires len >= 0.0 && Sq(len) == DistSq(p, b)
    ensures var q, reach := PushFrom(p, body, b, len), Reach(body);
            && b.minX - reach <= q.x <= b.maxX + reach && b.minZ - reach <= q.z <= b.maxZ + reach
            && (len >= 0.0001 ==> p.x - reach <= q.x <= p.x + reach && p.z - reach <= q.z <= p.z + reach)
  {
    hide PushFrom, CircleHits, Sq, DistSq;
    if len >= 0.0001 {
      PushAlongNormalLands(p, body, b, len);
    } else {
      PushFromInsideLands(p, body, b, len);
    }
  }

  lemma RoomyMeansMissed(p: Point, body: Body, b: Box, c: Box, len: real)
    requires CircleHits(p, body, b) && Upright(b) && Upright(c) && body.radius >= 0.0
    requires len >= 0.0 && Sq(len) == DistSq(p, b) && Roomy(p, body, b, c)
    ensures !CircleHits(PushFrom(p, body, b, len), body, c)
  {
    hide PushFrom, Sq, DistSq, Apart, Clamp;
    PushLands(p, body, b, len);
    if !Separated(b, c, Room(body)) {
      LongEnough(len, 0.0001);
    }
    BeyondFace(PushFrom(p, body, b, len), c, body.radius);
  }

  lemma LongEnough(len: real, least: real)
    requires len >= 0.0 && least >= 0.0 && Sq(len) >= Sq(least)
    ensures len >= least
  {
    if len < least {
      ProductIsPositive(least - len, least + len, least * least - len * len);
    }
  }

  lemma HypotIsDistance(p: Point, b: Box, hypot: (real, real) -> real)
    requires IsHypot(hypot)
    ensures Normal(p, b, hypot) >= 0.0 && Sq(Normal(p, b, hypot)) == DistSq(p, b)
  {
    hide Clamp, Sq;
  }

  lemma BadMeansSomeHit(p: Point, body: Body, s: Scene)
    ensures Bad(p, body, s) <==> exists i :: 0 <= i < |All(s)| && CircleHits(p, body, All(s)[i])
  {
    hide CircleHits, FirstHit;
    PushPicksFirst(p, body, s, (a, b) => 0.0);
  }

  /** Every other box the circle could touch leaves room beside the box a push would pick. */
  ghost predicate RoomBesidePicked(p: Point, body: Body, s: Scene) {
    var k := FirstHit(p, body, All(s));
    k < |All(s)| ==>
      forall i :: 0 <= i < |All(s)| && i != k && !Apart(body, All(s)[i]) ==> Roomy(p, body, All(s)[k], All(s)[i])
  }

  /** Wherever the box picked first leaves room on all sides one push is enough, however many boxes there are. */
  lemma OnePushFrees(p: Point, body: Body, s: Scene, hypot: (real, real) -> real, n: nat)
    requires AllUpright(s) && IsHypot(hypot) && body.radius >= 0.0 && n >= 1
    requires RoomBesidePicked(p, body, s)
    ensures !Bad(PushOut(p, body, s, hypot, n), body, s)
    ensures PushOut(p, body, s, hypot, n) == if Bad(p, body, s) then PushOnce(p, body, s, hypot) else p
  {
    hide Bad, FirstHit, PushFrom, PushOnce, Normal, DistSq, Sq, Apart, Roomy, IsHypot, Upright;
    PushPicksFirst(p, body, s, hypot);
    if Bad(p, body, s) {
      var k, q := FirstHit(p, body, All(s)), PushOnce(p, body, s, hypot);
      var b := All(s)[k];
      HypotIsDistance(p, b, hypot);
      var len := Normal(p, b, hypot);
      forall i | 0 <= i < |All(s)| ensures !CircleHits(q, body, All(s)[i]) {
        if i == k {
          PushSeparates(p, body, b, len);
          SquaresGrow(body.radius);
        } else if !Apart(body, All(s)[i]) {
          RoomyMeansMissed(p, body, b, All(s)[i], len);
        }
      }
      BadMeansSomeHit(q, body, s);
    }
  }

  /** Any two boxes the circle could touch leave room for it. */
  ghost predicate WellSeparated(body: Body, s: Scene) {
    forall i, j :: 0 <= i < |All(s)| && 0 <= j < |All(s)| && i != j && !Apart(body, All(s)[i]) && !Apart(body, All(s)[j]) ==>
      Separated(All(s)[i], All(s)[j], Room(body))
  }

  /** Among boxes that are all at least twice the radius and 0.01 apart, every push-out ends free after at most one
    * push, wherever it starts. */
  lemma WellSeparatedFrees(p: Point, body: Body, s: Scene, hypot: (real, real) -> real, n: nat)
    requires AllUpright(s) && IsHypot(hypot) && body.radius >= 0.0 && n >= 1
    requires WellSeparated(body, s)
    ensures !Bad(PushOut(p, body, s, hypot, n), body, s)
    ensures PushOut(p, body, s, hypot, n) == if Bad(p, body, s) then PushOnce(p, body, s, hypot) else p
  {
    hide Bad, PushOnce, DistSq, Sq, Apart, IsHypot, AllUpright;
    assert RoomBesidePicked(p, body, s) by {
      var k := FirstHit(p, body, All(s));
      if k < |All(s)| {
        forall i | 0 <= i < |All(s)| && i != k && !Apart(body, All(s)[i]) ensures Roomy(p, body, All(s)[k], All(s)[i]) {
          assert CircleHits(p, body, All(s)[k]);
        }
      }
    }
    OnePushFrees(p, body, s, hypot, n);
  }

  // ---- faces ----------------------------------------------------------------------------

  datatype Axis = X | Z

  function Other(axis: Axis): Axis {
    if axis.X? then Z else X
  }

  function Lo(b: Box, axis: Axis): real {
    if axis.X? then b.minX else b.minZ
  }

  function Hi(b: Box, axis: Axis): real {
    if axis.X? then b.maxX else b.maxZ
  }

  function On(p: Point, axis: Axis): real {
    if axis.X? then p.x else p.z
  }

  /** The point moved to `v` along the axis. */
  function MovedTo(p: Point, axis: Axis, v: real): Point {
    if axis.X? then p.(x := v) else p.(z := v)
  }

  /** The side of a box across an axis that looks up or down that axis. */
  datatype Face = Face(box: Box, axis: Axis, up: bool)

  /** How far the centre is in front of the face; negative behind it. */
  function Gap(p: Point, f: Face): real {
    if f.up then On(p, f.axis) - Hi(f.box, f.axis) else Lo(f.box, f.axis) - On(p, f.axis)
  }

  /** Neither to the left nor to the right of the face. */
  predicate Level(p: Point, f: Face) {
    Upright(f.box) && Lo(f.box, Other(f.axis)) <= On(p, Other(f.axis)) <= Hi(f.box, Other(f.axis))
  }

  predicate InFront(p: Point, f: Face) {
    Level(p, f) && Gap(p, f) > 0.0
  }

  /** The centre moved straight off the face until the circle clears it by 0.01. */
  function Off(p: Point, f: Face, body: Body): Point {
    MovedTo(p, f.axis, if f.up then Hi(f.box, f.axis) + Reach(body) else Lo(f.box, f.axis) - Reach(body))
  }

  lemma SquareOfMagnitude(len: real, d: real)
    requires len >= 0.0 && Sq(len) == Sq(d)
    ensures len == if d >= 0.0 then d else 0.0 - d
  {
    Magnitude(d, len);
    if d >= 0.0 {
      LongEnough(d, len);
    } else {
      Opposite(d);
      LongEnough(0.0 - d, len);
    }
  }

  lemma DividedBySelf(d: real)
    requires d != 0.0
    ensures d / d == 1.0 && 0.0 / d == 0.0 && (0.0 - d) / d == -1.0
  {
  }

  lemma SquareOfZero()
    ensures Sq(0.0) == 0.0
  {
  }

  lemma CompareSquares(d: real, r: real)
    requires d >= 0.0 && r > 0.0
    ensures Sq(d) < Sq(r) <==> d < r
  {
    if d < r {
      ProductIsPositive(r - d, r + d, r * r - d * d);
    } else {
      SqMonotone(r, d);
    }
  }

  /** In front of a face the circle touches the box exactly within its radius, and a push goes straight off. */
  lemma FacePush(p: Point, f: Face, body: Body, len: real)
    requires InFront(p, f) && !Apart(body, f.box) && body.radius > 0.0
    requires len >= 0.0 && Sq(len) == DistSq(p, f.box)
    ensures CircleHits(p, body, f.box) <==> Gap(p, f) < body.radius
    ensures PushFrom(p, body, f.box, len) == Off(p, f, body)
  {
    hide Sq, Apart;
    SquareOfZero();
    Opposite(Gap(p, f));
    SquareOfMagnitude(len, Gap(p, f));
    CompareSquares(Gap(p, f), body.radius);
    DividedBySelf(len);
  }

  /** With two boxes in touch a push goes out of one that is hit. */
  lemma PushOutOfEither(q: Point, body: Body, s: Scene, hypot: (real, real) -> real, a: Box, b: Box)
    requires a in All(s) && b in All(s) && IsHypot(hypot) && OnlyTouches(q, body, s, a, b)
    ensures Bad(q, body, s) <==> CircleHits(q, body, a) || CircleHits(q, body, b)
    ensures Bad(q, body, s) ==>
              || (CircleHits(q, body, a) && PushOnce(q, body, s, hypot) == PushFrom(q, body, a, Normal(q, a, hypot)))
              || (CircleHits(q, body, b) && PushOnce(q, body, s, hypot) == PushFrom(q, body, b, Normal(q, b, hypot)))
  {
    hide Bad, FirstHit, PushFrom, PushOnce, Normal, IsHypot, CircleHits;
    BadMeansSomeHit(q, body, s);
    PushPicksFirst(q, body, s, hypot);
  }

  /** Here the circle touches no box but these two. */
  ghost predicate OnlyTouches(q: Point, body: Body, s: Scene, a: Box, b: Box) {
    forall i :: 0 <= i < |All(s)| && All(s)[i] != a && All(s)[i] != b ==> !CircleHits(q, body, All(s)[i])
  }

  /** Within the rectangle no box but these two can be touched. */
  ghost predicate OnlyNear(s: Scene, a: Box, b: Box, body: Body, rectangle: Box) {
    && a in All(s) && b in All(s)
    && forall i :: 0 <= i < |All(s)| && All(s)[i] != a && All(s)[i] != b ==>
         Apart(body, All(s)[i]) || (Upright(All(s)[i]) && Separated(All(s)[i], rectangle, body.radius))
  }

  lemma OthersAreMissed(q: Point, body: Body, s: Scene, a: Box, b: Box, rectangle: Box)
    requires OnlyNear(s, a, b, body, rectangle) && InRectangle(q, rectangle) && body.radius >= 0.0
    ensures OnlyTouches(q, body, s, a, b) && a in All(s) && b in All(s)
  {
    hide DistSq, Sq, Apart;
    forall i | 0 <= i < |All(s)| && All(s)[i] != a && All(s)[i] != b ensures !CircleHits(q, body, All(s)[i]) {
      if !Apart(body, All(s)[i]) {
        BeyondFace(q, All(s)[i], body.radius);
      }
    }
  }

  // ---- between two facing walls ---------------------------------------------------------

  /** Two faces that look at each other across the place, `low` up the axis and `high` down it. */
  ghost predicate Facing(low: Face, high: Face, body: Body, p: Point) {
    && low.axis == high.axis && low.up && !high.up && !Apart(body, low.box) && !Apart(body, high.box)
    && Level(p, low) && Level(p, high)
  }

  /** How far apart the walls are. */
  function Width(low: Face, high: Face): real {
    Lo(high.box, high.axis) - Hi(low.box, low.axis)
  }

  /** A push out of the box goes back through the face: the centre is in front of it, or behind it and no other way
    * out of the box is nearer. Equally near ways are tried along x before z, and downwards before upwards. */
  predicate Holds(q: Point, f: Face) {
    var depth, side := 0.0 - Gap(q, f), Other(f.axis);
    var through := Hi(f.box, f.axis) - Lo(f.box, f.axis) - depth;
    var aside := Min(On(q, side) - Lo(f.box, side), Hi(f.box, side) - On(q, side));
    || depth < 0.0
    || ((if f.up then depth < through else depth <= through) && (if f.axis.X? then depth <= aside else depth < aside))
  }

  /** Between the walls there is no room, and the push out of either goes back into or up to the other. */
  predicate Caught(p: Point, low: Face, high: Face, body: Body) {
    Width(low, high) < Room(body) && Holds(Off(p, low, body), high) && Holds(Off(p, high, body), low)
  }

  /** Where the pushes can take the centre: along the axis from one wall to the other, and no deeper than a push out of
    * one goes into the other; all around both walls when a push can leave them another way. */
  function Reachable(p: Point, low: Face, high: Face, body: Body): Box {
    var reach := Reach(body);
    var depth := Max(0.0, reach - Width(low, high));
    var lo, hi := Hi(low.box, low.axis) - depth, Lo(high.box, high.axis) + depth;
    if Width(low, high) >= Room(body) || Caught(p, low, high, body) then
      if low.axis.X? then Box(lo, hi, 0.0, 0.0, p.z, p.z) else Box(p.x, p.x, 0.0, 0.0, lo, hi)
    else
      Box(Min(low.box.minX, high.box.minX) - reach, Max(low.box.maxX, high.box.maxX) + reach, 0.0, 0.0,
          Min(low.box.minZ, high.box.minZ) - reach, Max(low.box.maxZ, high.box.maxZ) + reach)
  }

  /** Behind a face that holds, the push goes back through it. */
  lemma HeldPush(q: Point, f: Face, body: Body, len: real)
    requires Level(q, f) && Gap(q, f) <= 0.0 && Holds(q, f) && !Apart(body, f.box) && body.radius > 0.0
    requires len >= 0.0 && Sq(len) == DistSq(q, f.box)
    ensures CircleHits(q, body, f.box) && PushFrom(q, body, f.box, len) == Off(q, f, body)
  {
    hide Sq, Apart;
    SquareOfZero();
    SquareOfMagnitude(len, 0.0);
    CompareSquares(0.0, body.radius);
  }

  /** The ways out of a box other than through this face: through it, or to one side. */
  predicate LeavesOtherwise(q: Point, x: Point, f: Face, body: Body) {
    var reach, side := Reach(body), Other(f.axis);
    || x == MovedTo(q, f.axis, if f.up then Lo(f.box, f.axis) - reach else Hi(f.box, f.axis) + reach)
    || x == MovedTo(q, side, Lo(f.box, side) - reach) || x == MovedTo(q, side, Hi(f.box, side) + reach)
  }

  /** Behind a face that does not hold, the push leaves the box another way. */
  lemma LostPush(q: Point, f: Face, body: Body, len: real)
    requires Level(q, f) && Gap(q, f) <= 0.0 && !Holds(q, f) && body.radius > 0.0
    requires CircleHits(q, body, f.box) && len >= 0.0 && Sq(len) == DistSq(q, f.box)
    ensures LeavesOtherwise(q, PushFrom(q, body, f.box, len), f, body)
  {
    hide Sq, Apart, CircleHits;
    SquareOfZero();
    var d := On(q, f.axis) - Clamp(On(q, f.axis), Lo(f.box, f.axis), Hi(f.box, f.axis));
    SquareOfMagnitude(len, d);
    if len >= 0.0001 {
      DividedBySelf(len);
    }
  }

  /** The place straight off one of two facing walls, seen from both. */
  lemma OffOneWall(p: Point, f: Face, g: Face, body: Body)
    requires f.axis == g.axis && f.up != g.up && Level(p, f) && Level(p, g)
    ensures var q := Off(p, f, body);
            && Level(q, f) && Level(q, g) && Gap(q, f) == Reach(body)
            && Gap(q, g) == (if f.up then Width(f, g) else Width(g, f)) - Reach(body)
            && Off(q, g, body) == Off(p, g, body)
  {
  }

  lemma PlacesAreReachable(p: Point, low: Face, high: Face, body: Body)
    requires Facing(low, high, body, p) && Gap(p, low) > 0.0 && Gap(p, high) > 0.0 && body.radius > 0.0
    ensures var r := Reachable(p, low, high, body);
            InRectangle(p, r) && InRectangle(Off(p, low, body), r) && InRectangle(Off(p, high, body), r)
  {
    hide Holds, Apart;
  }

  /** However a push from between the walls leaves one of them, the centre clears both. */
  lemma LeavingClearsBoth(p: Point, f: Face, g: Face, body: Body, x: Point)
    requires f.axis == g.axis && f.up != g.up && Level(p, f) && Level(p, g) && body.radius > 0.0
    requires Gap(p, f) > 0.0 && Gap(p, g) > 0.0 && Gap(Off(p, f, body), g) <= 0.0 && LeavesOtherwise(Off(p, f, body), x, g, body)
    ensures !CircleHits(x, body, f.box) && !CircleHits(x, body, g.box)
  {
    hide Sq, DistSq, Apart;
    BeyondFace(x, f.box, body.radius);
    BeyondFace(x, g.box, body.radius);
  }

  lemma LeavingIsReachable(p: Point, low: Face, high: Face, body: Body, from: Face, to: Face, x: Point)
    requires Facing(low, high, body, p) && Gap(p, low) > 0.0 && Gap(p, high) > 0.0 && body.radius > 0.0
    requires (from == low && to == high) || (from == high && to == low)
    requires Width(low, high) < Room(body) && !Caught(p, low, high, body) && LeavesOtherwise(Off(p, from, body), x, to, body)
    ensures InRectangle(x, Reachable(p, low, high, body))
  {
    hide Holds, Caught, Apart;
  }

  /** A push straight off one wall crosses to the other, or is free, or leads out into the free. */
  lemma AfterOneWall(p: Point, body: Body, s: Scene, hypot: (real, real) -> real, low: Face, high: Face, from: Face, to: Face)
    requires Facing(low, high, body, p) && Gap(p, low) > 0.0 && Gap(p, high) > 0.0
    requires (from == low && to == high) || (from == high && to == low)
    requires OnlyNear(s, low.box, high.box, body, Reachable(p, low, high, body)) && body.radius > 0.0 && IsHypot(hypot)
    ensures var q := Off(p, from, body);
            && (Width(low, high) >= Room(body) ==> !Bad(q, body, s))
            && (Width(low, high) < Room(body) && Holds(q, to) ==>
                  Bad(q, body, s) && PushOnce(q, body, s, hypot) == Off(p, to, body))
            && (Width(low, high) < Room(body) && !Holds(q, to) ==> !Bad(q, body, s) || !Bad(PushOnce(q, body, s, hypot), body, s))
  {
    hide Bad, PushFrom, PushOnce, Normal, DistSq, Sq, Apart, IsHypot, CircleHits, OnlyNear, OnlyTouches, Reachable;
    hide LeavesOtherwise, Off, Level, Caught;
    var q := Off(p, from, body);
    OffOneWall(p, from, to, body);
    PlacesAreReachable(p, low, high, body);
    OthersAreMissed(q, body, s, low.box, high.box, Reachable(p, low, high, body));
    PushOutOfEither(q, body, s, hypot, low.box, high.box);
    HypotIsDistance(q, from.box, hypot);
    HypotIsDistance(q, to.box, hypot);
    var len := Normal(q, to.box, hypot);
    FacePush(q, from, body, Normal(q, from.box, hypot));
    if Gap(q, to) > 0.0 {
      FacePush(q, to, body, len);
    } else if Holds(q, to) {
      HeldPush(q, to, body, len);
    } else if Bad(q, body, s) {
      LostPush(q, to, body, len);
      var x := PushOnce(q, body, s, hypot);
      LeavingClearsBoth(p, from, to, body, x);
      NotHeldMeansNotCaught(p, low, high, body, from, to);
      LeavingIsReachable(p, low, high, body, from, to, x);
      OthersAreMissed(x, body, s, low.box, high.box, Reachable(p, low, high, body));
      PushOutOfEither(x, body, s, hypot, low.box, high.box);
    }
  }

  lemma NotHeldMeansNotCaught(p: Point, low: Face, high: Face, body: Body, from: Face, to: Face)
    requires (from == low && to == high) || (from == high && to == low)
    requires !Holds(Off(p, from, body), to)
    ensures !Caught(p, low, high, body)
  {
  }

  /** The first push from between the walls. */
  lemma FirstPush(p: Point, body: Body, s: Scene, hypot: (real, real) -> real, low: Face, high: Face)
    requires Facing(low, high, body, p) && Gap(p, low) > 0.0 && Gap(p, high) > 0.0
    requires OnlyNear(s, low.box, high.box, body, Reachable(p, low, high, body)) && body.radius > 0.0 && IsHypot(hypot)
    ensures Bad(p, body, s) <==> Gap(p, low) < body.radius || Gap(p, high) < body.radius
    ensures Bad(p, body, s) ==>
              var q := PushOnce(p, body, s, hypot); q == Off(p, low, body) || q == Off(p, high, body)
  {
    hide Bad, PushFrom, PushOnce, Normal, DistSq, Sq, Apart, IsHypot, CircleHits, OnlyNear, OnlyTouches, Reachable;
    hide Off, Gap, Level;
    PlacesAreReachable(p, low, high, body);
    OthersAreMissed(p, body, s, low.box, high.box, Reachable(p, low, high, body));
    PushOutOfEither(p, body, s, hypot, low.box, high.box);
    HypotIsDistance(p, low.box, hypot);
    HypotIsDistance(p, high.box, hypot);
    FacePush(p, low, body, Normal(p, low.box, hypot));
    FacePush(p, high, body, Normal(p, high.box, hypot));
  }

  /** Between walls that hold and leave no room every push from one ends at the other, for ever. */
  lemma {:induction false} BackAndForth(p: Point, body: Body, s: Scene, hypot: (real, real) -> real, low: Face, high: Face, q: Point, n: nat)
    requires Facing(low, high, body, p) && Gap(p, low) > 0.0 && Gap(p, high) > 0.0
    requires OnlyNear(s, low.box, high.box, body, Reachable(p, low, high, body)) && body.radius > 0.0 && IsHypot(hypot)
    requires Caught(p, low, high, body) && (q == Off(p, low, body) || q == Off(p, high, body))
    ensures Bad(PushOut(q, body, s, hypot, n), body, s)
    decreases n
  {
    hide Bad, PushOnce, IsHypot, Facing, OnlyNear, Reachable, Off, Gap, Holds;
    AfterOneWall(p, body, s, hypot, low, high, low, high);
    AfterOneWall(p, body, s, hypot, low, high, high, low);
    if n > 0 {
      BackAndForth(p, body, s, hypot, low, high, PushOnce(q, body, s, hypot), n - 1);
    }
  }

  /** From between two facing walls of any thickness and length, a push-out of three pushes or more ends free if and
    * only if it started free or the walls do not catch it; when they do it never ends free, and when they leave room
    * one push is enough. */
  lemma FreeBetweenWalls(p: Point, body: Body, s: Scene, hypot: (real, real) -> real, low: Face, high: Face, n: nat)
    requires Facing(low, high, body, p) && Gap(p, low) > 0.0 && Gap(p, high) > 0.0
    requires OnlyNear(s, low.box, high.box, body, Reachable(p, low, high, body)) && body.radius > 0.0 && IsHypot(hypot)
    ensures n >= 3 ==> (!Bad(PushOut(p, body, s, hypot, n), body, s) <==> !Bad(p, body, s) || !Caught(p, low, high, body))
    ensures Bad(p, body, s) && Caught(p, low, high, body) ==> Bad(PushOut(p, body, s, hypot, n), body, s)
    ensures n >= 1 && Width(low, high) >= Room(body) ==> !Bad(PushOut(p, body, s, hypot, n), body, s)
  {
    hide Bad, PushOnce, IsHypot, Facing, OnlyNear, Reachable, Off, Gap, Holds, Width;
    FirstPush(p, body, s, hypot, low, high);
    AfterOneWall(p, body, s, hypot, low, high, low, high);
    AfterOneWall(p, body, s, hypot, low, high, high, low);
    if n > 0 && Bad(p, body, s) {
      var q := PushOnce(p, body, s, hypot);
      if Caught(p, low, high, body) {
        BackAndForth(p, body, s, hypot, low, high, q, n - 1);
      } else if n >= 3 && Bad(q, body, s) {
        FreeWithinTwo(q, body, s, hypot, n - 1);
      }
    }
  }

  /** A push-out of two pushes or more ends free where one or two pushes lead into the free. */
  lemma FreeWithinTwo(q: Point, body: Body, s: Scene, hypot: (real, real) -> real, n: nat)
    requires n >= 2
    requires var x := PushOnce(q, body, s, hypot);
             !Bad(q, body, s) || !Bad(x, body, s) || !Bad(PushOnce(x, body, s, hypot), body, s)
    ensures !Bad(PushOut(q, body, s, hypot, n), body, s)
  {
    hide Bad, PushOnce;
    var x := PushOnce(q, body, s, hypot);
    if Bad(q, body, s) && Bad(x, body, s) {
      assert PushOut(x, body, s, hypot, n - 1) == PushOut(PushOnce(x, body, s, hypot), body, s, hypot, n - 2);
    }
  }

  const STANDING := Body(0.0, 1.68, 0.28)

  /** Two wall planes, 0.2 thick, that leave a passage of the given width. */
  function Passage(width: real): Scene {
    Scene([Box(-0.2, 0.0, 0.0, 3.0, -5.0, 5.0), Box(width, width + 0.2, 0.0, 3.0, -5.0, 5.0)], [])
  }

  function LeftWall(width: real): Face {
    Face(Passage(width).blockers[0], X, true)
  }

  function RightWall(width: real): Face {
    Face(Passage(width).blockers[1], X, false)
  }

  lemma InPassage(width: real, x: real, rectangle: Box)
    requires 0.0 < x < width
    ensures var low, high, p := LeftWall(width), RightWall(width), Point(x, 0.0);
            && AllUpright(Passage(width)) && Facing(low, high, STANDING, p) && Gap(p, low) == x && Gap(p, high) == width - x
            && Width(low, high) == width && OnlyNear(Passage(width), low.box, high.box, STANDING, rectangle)
            && STANDING.radius == 0.28
  {
    hide Separated;
    var s := Passage(width);
    assert All(s)[0] == s.blockers[0] && All(s)[1] == s.blockers[1];
  }

  lemma CaughtInPassage(width: real, x: real)
    requires 0.0 < x < width
    ensures Caught(Point(x, 0.0), LeftWall(width), RightWall(width), STANDING) <==> 0.19 < width < 0.57
  {
  }

  /** Between wall planes more than 0.19 and less than 0.57 apart a player who touches one is caught: no number of
    * pushes frees him, the five of `pushOut` among them. */
  lemma PushesCanFail(width: real, x: real, hypot: (real, real) -> real, n: nat)
    requires IsHypot(hypot) && 0.19 < width < 0.57 && 0.0 < x < width && (x < 0.28 || width - x < 0.28)
    ensures AllUpright(Passage(width)) && Bad(PushOut(Point(x, 0.0), STANDING, Passage(width), hypot, n), STANDING, Passage(width))
  {
    hide *;
    var low, high, p := LeftWall(width), RightWall(width), Point(x, 0.0);
    InPassage(width, x, Reachable(p, low, high, STANDING));
    CaughtInPassage(width, x);
    FirstPush(p, STANDING, Passage(width), hypot, low, high);
    FreeBetweenWalls(p, STANDING, Passage(width), hypot, low, high, n);
  }

  /** Behind a face, with the far side the nearest way out, the push leads right through the box. */
  lemma ThroughPush(q: Point, f: Face, body: Body, len: real)
    requires Level(q, f) && Gap(q, f) <= 0.0 && len >= 0.0 && Sq(len) == DistSq(q, f.box)
    requires var through, side := Hi(f.box, f.axis) - Lo(f.box, f.axis) + Gap(q, f), Other(f.axis);
             through < 0.0 - Gap(q, f) && through < On(q, side) - Lo(f.box, side) && through < Hi(f.box, side) - On(q, side)
    ensures PushFrom(q, body, f.box, len) ==
              MovedTo(q, f.axis, if f.up then Lo(f.box, f.axis) - Reach(body) else Hi(f.box, f.axis) + Reach(body))
  {
    hide Sq;
    SquareOfZero();
    SquareOfMagnitude(len, On(q, f.axis) - Clamp(On(q, f.axis), Lo(f.box, f.axis), Hi(f.box, f.axis)));
    if len >= 0.0001 {
      DividedBySelf(len);
    }
  }

  /** The places of a player pushed through the right wall, and which walls touch him there. */
  lemma PlacesInNarrowPassage(width: real, x: real)
    requires 0.0 < x < width < 0.19
    ensures var s := Passage(width);
            var a, b, p, q, r := s.blockers[0], s.blockers[1], Point(x, 0.0), Point(0.29, 0.0), Point(width + 0.49, 0.0);
            && CircleHits(p, STANDING, a) && !CircleHits(q, STANDING, a) && CircleHits(q, STANDING, b)
            && !CircleHits(r, STANDING, a) && !CircleHits(r, STANDING, b)
  {
    hide Sq;
    SquareOfZero();
    CompareSquares(x, 0.28);
    CompareSquares(0.29, 0.28);
    CompareSquares(if width < 0.09 then 0.09 - width else 0.0, 0.28);
    CompareSquares(width + 0.49, 0.28);
  }

  /** Between wall planes less than 0.19 apart the pushes lead right through one of them, to its far side. */
  lemma PushedThroughWall(width: real, x: real, hypot: (real, real) -> real)
    requires IsHypot(hypot) && 0.0 < x < width < 0.19
    ensures var s, r := Passage(width), Point(width + 0.49, 0.0);
            PushOut(Point(x, 0.0), STANDING, s, hypot, 5) == r && !Bad(r, STANDING, s)
  {
    hide IsHypot, PushOut, PushFrom, Normal, PushOnce, Bad, CircleHits;
    var s := Passage(width);
    var a, b := s.blockers[0], s.blockers[1];
    var p, q, r := Point(x, 0.0), Point(0.29, 0.0), Point(width + 0.49, 0.0);
    assert All(s) == [a, b] && All(s)[0] == a && All(s)[1] == b;
    PlacesInNarrowPassage(width, x);
    HypotIsDistance(p, a, hypot);
    HypotIsDistance(q, b, hypot);
    FacePush(p, LeftWall(width), STANDING, Normal(p, a, hypot));
    ThroughPush(q, RightWall(width), STANDING, Normal(q, b, hypot));
    PushPicksFirst(p, STANDING, s, hypot);
    PushPicksFirst(q, STANDING, s, hypot);
    BadMeansSomeHit(r, STANDING, s);
    PushOutUnfolds(p, STANDING, s, hypot, 5);
    PushOutUnfolds(q, STANDING, s, hypot, 4);
    PushOutUnfolds(r, STANDING, s, hypot, 3);
  }

  lemma PushOutUnfolds(p: Point, body: Body, s: Scene, hypot: (real, real) -> real, n: nat)
    requires n > 0
    ensures PushOut(p, body, s, hypot, n) ==
      if Bad(p, body, s) then PushOut(PushOnce(p, body, s, hypot), body, s, hypot, n - 1) else p
  {
  }

  // ---- in the corner of two walls -------------------------------------------------------

  /** In front of two faces across different axes, wherever the pushes may take the centre. */
  ghost predicate InCorner(p: Point, a: Face, b: Face, body: Body) {
    && b.axis == Other(a.axis) && !Apart(body, a.box) && !Apart(body, b.box)
    && InFront(p, a) && InFront(p, b) && InFront(Off(p, a, body), b) && InFront(Off(p, b, body), a)
  }

  /** The rectangle with two given corners. */
  function Around(p: Point, q: Point): Box {
    Box(Min(p.x, q.x), Max(p.x, q.x), 0.0, 0.0, Min(p.z, q.z), Max(p.z, q.z))
  }

  /** A push from a place in front of both faces, when no other box is touched there. */
  lemma CornerPush(q: Point, body: Body, s: Scene, hypot: (real, real) -> real, a: Face, b: Face)
    requires InFront(q, a) && InFront(q, b) && !Apart(body, a.box) && !Apart(body, b.box)
    requires a.box in All(s) && b.box in All(s) && body.radius > 0.0 && IsHypot(hypot)
    requires OnlyTouches(q, body, s, a.box, b.box)
    ensures Bad(q, body, s) <==> Gap(q, a) < body.radius || Gap(q, b) < body.radius
    ensures Bad(q, body, s) ==>
              || (PushOnce(q, body, s, hypot) == Off(q, a, body) && Gap(q, a) < body.radius)
              || (PushOnce(q, body, s, hypot) == Off(q, b, body) && Gap(q, b) < body.radius)
  {
    hide Bad, FirstHit, PushFrom, PushOnce, Normal, DistSq, Sq, Apart, IsHypot, CircleHits, InFront, Off, Gap, OnlyTouches;
    HypotIsDistance(q, a.box, hypot);
    HypotIsDistance(q, b.box, hypot);
    FacePush(q, a, body, Normal(q, a.box, hypot));
    FacePush(q, b, body, Normal(q, b.box, hypot));
    PushOutOfEither(q, body, s, hypot, a.box, b.box);
  }

  /** What a place on the way out of the corner keeps: still in front of both faces, and touching nothing else. */
  lemma CornerPlace(q: Point, p: Point, body: Body, s: Scene, a: Face, b: Face)
    requires InCorner(p, a, b, body) && OnlyNear(s, a.box, b.box, body, Around(p, Off(Off(p, a, body), b, body)))
    requires body.radius > 0.0
    requires q == p || q == Off(p, a, body) || q == Off(p, b, body) || q == Off(Off(p, a, body), b, body)
    ensures InFront(q, a) && InFront(q, b) && OnlyTouches(q, body, s, a.box, b.box)
  {
    hide Apart, OnlyNear, OnlyTouches;
    OthersAreMissed(q, body, s, a.box, b.box, Around(p, Off(Off(p, a, body), b, body)));
  }

  /** Moving off one face leaves the distance to the other as it is, and the order does not matter. */
  lemma OffBoth(p: Point, a: Face, b: Face, body: Body)
    requires b.axis == Other(a.axis)
    ensures Gap(Off(p, a, body), a) == Reach(body) && Gap(Off(p, a, body), b) == Gap(p, b)
    ensures Gap(Off(p, b, body), b) == Reach(body) && Gap(Off(p, b, body), a) == Gap(p, a)
    ensures Off(Off(p, a, body), b, body) == Off(Off(p, b, body), a, body)
  {
  }

  /** Where a push-out from the corner of two walls ends: off each wall the circle touched. */
  function OutOfCorner(p: Point, a: Face, b: Face, body: Body): Point {
    var q := if Gap(p, a) < body.radius then Off(p, a, body) else p;
    if Gap(p, b) < body.radius then Off(q, b, body) else q
  }

  /** In the corner of two walls, touching each other or not, two pushes are always enough, and the push-out ends
    * straight off each wall that was touched, whichever the pushes took first. */
  lemma CornerFrees(p: Point, body: Body, s: Scene, hypot: (real, real) -> real, a: Face, b: Face, n: nat)
    requires InCorner(p, a, b, body) && OnlyNear(s, a.box, b.box, body, Around(p, Off(Off(p, a, body), b, body)))
    requires body.radius > 0.0 && IsHypot(hypot) && n >= 2
    ensures PushOut(p, body, s, hypot, n) == OutOfCorner(p, a, b, body)
    ensures !Bad(PushOut(p, body, s, hypot, n), body, s)
  {
    hide Bad, PushOnce, IsHypot, InFront, Off, Gap, CircleHits, Apart, All, OnlyTouches;
    CornerPlace(p, p, body, s, a, b);
    CornerPush(p, body, s, hypot, a, b);
    OffBoth(p, a, b, body);
    if Bad(p, body, s) {
      var q := PushOnce(p, body, s, hypot);
      CornerPlace(q, p, body, s, a, b);
      CornerPush(q, body, s, hypot, a, b);
      OffBoth(q, a, b, body);
      if Bad(q, body, s) {
        var r := PushOnce(q, body, s, hypot);
        CornerPlace(r, p, body, s, a, b);
        CornerPush(r, body, s, hypot, a, b);
        assert PushOut(q, body, s, hypot, n - 1) == PushOut(r, body, s, hypot, n - 2) == r;
      } else {
        assert PushOut(q, body, s, hypot, n - 1) == q;
      }
    }
  }
}
