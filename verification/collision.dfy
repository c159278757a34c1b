/** The collision world: the height field and the blockers, filled once and then queried every frame. */
module Collision {
  import opened Geometry
  import opened Punch
  import opened Circles
  import opened PushOuts

  datatype Floor = Floor(minX: real, maxX: real, minZ: real, maxZ: real, y: real, stair: bool)

  /** The openings in the exterior walls. */
  const HOLES: seq<Box> := [
    Box(-1.5, 1.5, 0.0, 2.7, 23.6, 24.6),
    Box(-10.8, -5.2, 0.0, 2.6, 23.6, 24.6)
  ]

  /** A floor that supports feet at `feetY` at this place. */
  predicate Supports(f: Floor, x: real, z: real, feetY: real) {
    && f.minX <= x <= f.maxX && f.minZ <= z <= f.maxZ
    && f.y <= feetY + (if f.stair then 1.15 else 0.46) + 0.02
  }

  function GroundPoint(floors: seq<Floor>, x: real, z: real, feetY: real): real {
    if floors == [] then 0.0
    else
      var h := GroundPoint(floors[..|floors| - 1], x, z, feetY);
      var f := floors[|floors| - 1];
      if Supports(f, x, z, feetY) && f.y > h then f.y else h
  }

  function GroundAt(floors: seq<Floor>, x: real, z: real, feetY: real): real {
    Max(Max(Max(Max(GroundPoint(floors, x, z, feetY),
      GroundPoint(floors, x + 0.1, z, feetY)),
      GroundPoint(floors, x - 0.1, z, feetY)),
      GroundPoint(floors, x, z + 0.1, feetY)),
      GroundPoint(floors, x, z - 0.1, feetY))
  }

  predicate HeightsInRange(floors: seq<Floor>) {
    forall i :: 0 <= i < |floors| ==> 0.0 <= floors[i].y <= 18.0
  }

  /** The place is on the floor, and its height is at most 1.17 above the feet for a stair and 0.48 otherwise. */
  predicate Reaches(f: Floor, x: real, z: real, feetY: real) {
    && x >= f.minX && x <= f.maxX && z >= f.minZ && z <= f.maxZ
    && (f.stair ==> f.y - feetY <= 1.17) && (!f.stair ==> f.y - feetY <= 0.48)
  }

  /** The support under a point is the highest floor within reach of the feet there, or 0 when none above 0 is. */
  lemma GroundIsHighest(floors: seq<Floor>, x: real, z: real, feetY: real)
    ensures var h := GroundPoint(floors, x, z, feetY);
            && h >= 0.0
            && (forall i :: 0 <= i < |floors| && Reaches(floors[i], x, z, feetY) ==> floors[i].y <= h)
            && (h == 0.0 || exists i :: 0 <= i < |floors| && Reaches(floors[i], x, z, feetY) && floors[i].y == h)
  {
    HighestSupport(floors, x, z, feetY);
    forall f | Reaches(f, x, z, feetY) ensures Supports(f, x, z, feetY) {
    }
    var h := GroundPoint(floors, x, z, feetY);
    if h != 0.0 {
      var i :| 0 <= i < |floors| && Supports(floors[i], x, z, feetY) && floors[i].y == h;
      assert Reaches(floors[i], x, z, feetY);
    }
  }

  /** The height under a place is the highest of the five supports around it. */
  lemma GroundAtIsHighest(floors: seq<Floor>, x: real, z: real, feetY: real)
    ensures var h := GroundAt(floors, x, z, feetY);
            var around := [Point(x, z), Point(x + 0.1, z), Point(x - 0.1, z), Point(x, z + 0.1), Point(x, z - 0.1)];
            && (forall i :: 0 <= i < 5 ==> GroundPoint(floors, around[i].x, around[i].z, feetY) <= h)
            && (exists i :: 0 <= i < 5 && GroundPoint(floors, around[i].x, around[i].z, feetY) == h)
  {
    hide GroundPoint;
    var h := GroundAt(floors, x, z, feetY);
    var around := [Point(x, z), Point(x + 0.1, z), Point(x - 0.1, z), Point(x, z + 0.1), Point(x, z - 0.1)];
    assert around[0] == Point(x, z) && around[1] == Point(x + 0.1, z) && around[2] == Point(x - 0.1, z)
        && around[3] == Point(x, z + 0.1) && around[4] == Point(x, z - 0.1);
  }

  lemma {:induction false} HighestSupport(floors: seq<Floor>, x: real, z: real, feetY: real)
    ensures var h := GroundPoint(floors, x, z, feetY);
            && h >= 0.0
            && (forall i :: 0 <= i < |floors| && Supports(floors[i], x, z, feetY) ==> floors[i].y <= h)
            && (h == 0.0 || exists i :: 0 <= i < |floors| && Supports(floors[i], x, z, feetY) && floors[i].y == h)
  {
    if floors != [] {
      var init := floors[..|floors| - 1];
      HighestSupport(init, x, z, feetY);
      var h := GroundPoint(init, x, z, feetY);
      if h != 0.0 {
        var i :| 0 <= i < |init| && Supports(init[i], x, z, feetY) && init[i].y == h;
        assert floors[i] == init[i];
      }
      forall i | 0 <= i < |floors| && Supports(floors[i], x, z, feetY)
        ensures floors[i].y <= GroundPoint(floors, x, z, feetY)
      {
        if i < |init| {
          assert init[i] == floors[i];
        }
      }
      if Supports(floors[|init|], x, z, feetY) && floors[|init|].y > h {
        assert Supports(floors[|floors| - 1], x, z, feetY);
      }
    }
  }

  /** With stored floors in [0, 18] the support is in [0, 18], and at most one stair height above the feet. */
  lemma GroundInRange(floors: seq<Floor>, x: real, z: real, feetY: real)
    requires HeightsInRange(floors)
    ensures 0.0 <= GroundAt(floors, x, z, feetY) <= 18.0
    ensures GroundAt(floors, x, z, feetY) == 0.0 || GroundAt(floors, x, z, feetY) <= feetY + 1.17
  {
    hide GroundPoint;
    PointInRange(floors, x, z, feetY);
    PointInRange(floors, x + 0.1, z, feetY);
    PointInRange(floors, x - 0.1, z, feetY);
    PointInRange(floors, x, z + 0.1, feetY);
    PointInRange(floors, x, z - 0.1, feetY);
  }

  lemma PointInRange(floors: seq<Floor>, x: real, z: real, feetY: real)
    requires HeightsInRange(floors)
    ensures 0.0 <= GroundPoint(floors, x, z, feetY) <= 18.0
    ensures GroundPoint(floors, x, z, feetY) == 0.0 || GroundPoint(floors, x, z, feetY) <= feetY + 1.17
  {
    hide GroundPoint;
    HighestSupport(floors, x, z, feetY);
  }

  /** A move, then the push-out that ends it. */
  function MoveTo(p: Point, dx: real, dz: real, body: Body, s: Scene, hypot: (real, real) -> real): Point {
    var n := Steps(hypot(dx, dz));
    PushOut(Slide(p, dx / n as real, dz / n as real, body, s, n), body, s, hypot, 5)
  }

  /** From a free start the final push-out does nothing and the move ends free. */
  lemma MoveEndsFree(p: Point, dx: real, dz: real, body: Body, s: Scene, hypot: (real, real) -> real)
    requires !Bad(p, body, s)
    ensures var n := Steps(hypot(dx, dz));
            MoveTo(p, dx, dz, body, s, hypot) == Slide(p, dx / n as real, dz / n as real, body, s, n)
    ensures !Bad(MoveTo(p, dx, dz, body, s, hypot), body, s)
  {
    hide Bad, Slide, Steps, PushOut;
    var n := Steps(hypot(dx, dz));
    FreeStaysFree(p, dx / n as real, dz / n as real, body, s, n);
    PushOutOfFree(Slide(p, dx / n as real, dz / n as real, body, s, n), body, s, hypot, 5);
  }

  /** From a free start a move ends where its last sub-step did, and every point of its path, sub-step by sub-step, keeps
    * a clearance of `radius - 0.09` from every vertically overlapping box. */
  lemma MoveNeverTunnels(p: Point, dx: real, dz: real, body: Body, s: Scene, hypot: (real, real) -> real,
                         k: nat, t: real, b: Box, c: Point)
    requires !Bad(p, body, s) && IsHypot(hypot) && body.radius > 0.09
    requires k < Steps(hypot(dx, dz)) && 0.0 <= t <= 1.0
    requires (b in s.blockers || b in s.dyn) && !Apart(body, b) && InRectangle(c, b)
    ensures var n := Steps(hypot(dx, dz));
            var sx, sz := dx / n as real, dz / n as real;
            && MoveTo(p, dx, dz, body, s, hypot) == Slide(p, sx, sz, body, s, n) && Slide(p, sx, sz, body, s, 0) == p
            && Between(Along(Slide(p, sx, sz, body, s, k), Slide(p, sx, sz, body, s, k + 1), t), c)
                 >= Sq(body.radius - 0.09) > 0.0
  {
    hide Bad, Apart, Sq, Between, Along, InRectangle, Steps, Next, PushOut;
    MoveEndsFree(p, dx, dz, body, s, hypot);
    NoTunnelling(p, dx, dz, hypot(dx, dz), k, t, body, s, b, c);
  }

  /** Sliding along a wall across x: with every place along z free and every step in x blocked, diagonally and straight,
    * the move keeps x and covers the whole of dz. */
  lemma MoveSlidesAlongZ(p: Point, dx: real, dz: real, body: Body, s: Scene, hypot: (real, real) -> real)
    requires var n := Steps(hypot(dx, dz)); WallAcrossX(p, dx / n as real, dz / n as real, body, s, n)
    ensures MoveTo(p, dx, dz, body, s, hypot) == Point(p.x, p.z + dz)
  {
    hide Bad, Slide, Steps, PushOut, WallBeside, Times;
    var n := Steps(hypot(dx, dz));
    TimesOfShare(n, dz);
    SlidesAlongZ(p, dx / n as real, dz / n as real, body, s, n);
    PushOutOfFree(Point(p.x, p.z + dz), body, s, hypot, 5);
  }

  /** Sliding along a wall across z: with every place along x free and every diagonal step blocked, the move keeps z and
    * covers the whole of dx; x is tried before z, so nothing is asked of the steps along z. */
  lemma MoveSlidesAlongX(p: Point, dx: real, dz: real, body: Body, s: Scene, hypot: (real, real) -> real)
    requires var n := Steps(hypot(dx, dz)); WallAcrossZ(p, dx / n as real, dz / n as real, body, s, n)
    ensures MoveTo(p, dx, dz, body, s, hypot) == Point(p.x + dx, p.z)
  {
    hide Bad, Slide, Steps, PushOut, WallAbove, Times;
    var n := Steps(hypot(dx, dz));
    TimesOfShare(n, dx);
    SlidesAlongX(p, dx / n as real, dz / n as real, body, s, n);
    PushOutOfFree(Point(p.x + dx, p.z), body, s, hypot, 5);
  }

  /** A move of one sub-step from a free start ends at the first free one of the diagonal, the x-only and the z-only
    * position, in this order, and stays put when none is; with both displacements nonzero it stays put only then. */
  lemma OneStepMove(p: Point, dx: real, dz: real, body: Body, s: Scene, hypot: (real, real) -> real)
    requires !Bad(p, body, s) && hypot(dx, dz) <= STEP
    ensures var q := MoveTo(p, dx, dz, body, s, hypot);
            var both, alongX, alongZ := Point(p.x + dx, p.z + dz), Point(p.x + dx, p.z), Point(p.x, p.z + dz);
            && (!Bad(both, body, s) ==> q == both)
            && (Bad(both, body, s) && !Bad(alongX, body, s) ==> q == alongX)
            && (Bad(both, body, s) && Bad(alongX, body, s) && !Bad(alongZ, body, s) ==> q == alongZ)
            && (dx != 0.0 && dz != 0.0 ==>
                  (q == p <==> Bad(both, body, s) && Bad(alongX, body, s) && Bad(alongZ, body, s)))
  {
    hide Bad, PushOut, Steps;
    var n := Steps(hypot(dx, dz));
    OneStepIsEnough(hypot(dx, dz));
    assert dx / n as real == dx && dz / n as real == dz;
    MoveEndsFree(p, dx, dz, body, s, hypot);
    assert Slide(p, dx, dz, body, s, 0) == p;
    assert Slide(p, dx, dz, body, s, 1) == Next(p, dx, dz, body, s);
  }

  lemma OneStepIsEnough(dist: real)
    requires dist <= STEP
    ensures Steps(dist) == 1
  {
    var n := Steps(dist);
    if n > 1 {
      assert false;
    }
  }

  /** Where any two boxes leave room for the circle, a move ends free from any start, even a blocked one. */
  lemma MoveFreesWithRoom(p: Point, dx: real, dz: real, body: Body, s: Scene, hypot: (real, real) -> real)
    requires AllUpright(s) && IsHypot(hypot) && body.radius >= 0.0 && WellSeparated(body, s)
    ensures !Bad(MoveTo(p, dx, dz, body, s, hypot), body, s)
  {
    hide Bad, Slide, Steps, PushOut, WellSeparated, AllUpright, IsHypot;
    var n := Steps(hypot(dx, dz));
    WellSeparatedFrees(Slide(p, dx / n as real, dz / n as real, body, s, n), body, s, hypot, 5);
  }

  lemma HolesAreProper()
    ensures AllProper(HOLES)
  {
  }

  class Collider {
    var floors: seq<Floor>
    var blockers: seq<Box>
    const holes: seq<Box>

    /** What filling the world keeps: blockers that overlap no opening and are nowhere too thin, and floors in
      * range. */
    ghost predicate Valid()
      reads this
    {
      && AllProper(holes)
      && (forall i, k :: 0 <= i < |blockers| && 0 <= k < |holes| ==> !OverlapsHole(blockers[i], holes[k]))
      && (forall i :: 0 <= i < |blockers| ==>
            var p := blockers[i]; p.maxX - p.minX >= 0.02 && p.maxY - p.minY >= 0.02 && p.maxZ - p.minZ >= 0.02)
      && HeightsInRange(floors)
    }

    constructor ()
      ensures Valid() && floors == [] && blockers == [] && holes == HOLES
    {
      floors, blockers := [], [];
      holes := HOLES;
      new;
      HolesAreProper();
    }

    /** `addBlock`: punch every hole out, then keep what is not too thin. */
    method AddBlock(b: Box)
      requires Valid()
      modifies this`blockers
      ensures Valid() && blockers == old(blockers) + Select(PunchAll([b], holes), false)
    {
      hide PunchEach, Select, AllProper, OverlapsHole, Thin, HeightsInRange;
      var parts := [b];
      for i := 0 to |holes|
        invariant parts == PunchAll([b], holes[..i])
        invariant blockers == old(blockers)
      {
        parts := PunchOut(parts, holes[i]);
        assert holes[..i + 1][..i] == holes[..i];
      }
      assert holes[..|holes|] == holes;
      StoredBlockers(b, holes, 0.0, 0.0, 0.0);
      Keep(parts);
    }

    /** The inner loop of `addBlock`: every part loses the hole. */
    method PunchOut(parts: seq<Box>, hole: Box) returns (next: seq<Box>)
      ensures next == PunchEach(parts, hole)
    {
      hide Parts;
      next := [];
      for j := 0 to |parts|
        invariant next == PunchEach(parts[..j], hole)
      {
        var punched := PunchBox(parts[j], hole);
        assert parts[..j + 1][..j] == parts[..j];
        next := next + punched;
      }
      assert parts[..|parts|] == parts;
    }

    /** The last loop of `addBlock`. */
    method Keep(parts: seq<Box>)
      modifies this`blockers
      ensures blockers == old(blockers) + Select(parts, false)
    {
      for i := 0 to |parts|
        invariant blockers == old(blockers) + Select(parts[..i], false)
      {
        var p := parts[i];
        assert parts[..i + 1][..i] == parts[..i];
        if p.maxX - p.minX < THINNEST || p.maxY - p.minY < THINNEST || p.maxZ - p.minZ < THINNEST {
          continue;
        }
        blockers := blockers + [p];
      }
      assert parts[..|parts|] == parts;
    }

    /** `addFloor`: floors outside [-0.2, 18] are ignored and those below 0.03 lie at 0. */
    method AddFloor(box: Box, stair: bool)
      requires Valid()
      modifies this`floors
      ensures var y := box.maxY;
              floors == old(floors) + if y < -0.2 || y > 18.0 then []
                else [Floor(box.minX, box.maxX, box.minZ, box.maxZ, if y < 0.03 then 0.0 else y, stair)]
      ensures Valid()
    {
      var y := box.maxY;
      if y < -0.2 || y > 18.0 {
        return;
      }
      floors := floors + [Floor(box.minX, box.maxX, box.minZ, box.maxZ, if y < 0.03 then 0.0 else y, stair)];
    }

    ghost function SceneWith(dyn: seq<Box>): Scene
      reads this
    {
      Scene(blockers, dyn)
    }

    method AnyHit(p: Point, body: Body, list: seq<Box>) returns (hit: bool)
      ensures hit == Hits(p, body, list)
    {
      for i := 0 to |list|
        invariant forall j :: 0 <= j < i ==> !CircleHits(p, body, list[j])
      {
        if CircleHits(p, body, list[i]) {
          return true;
        }
      }
      return false;
    }

    method IsBad(p: Point, body: Body, dyn: seq<Box>) returns (bad: bool)
      ensures bad == Bad(p, body, SceneWith(dyn))
    {
      bad := AnyHit(p, body, blockers);
      if !bad {
        bad := AnyHit(p, body, dyn);
      }
    }

    /** The search for the first box hit. */
    method Find(p: Point, body: Body, list: seq<Box>) returns (i: nat)
      ensures i == FirstHit(p, body, list)
    {
      i := 0;
      while i < |list| && !CircleHits(p, body, list[i])
        invariant i <= |list|
        invariant forall j :: 0 <= j < i ==> !CircleHits(p, body, list[j])
      {
        i := i + 1;
      }
    }

    /** `pushOut`: up to five pushes, each from the first box hit. */
    method PushOutOf(p: Point, body: Body, dyn: seq<Box>, hypot: (real, real) -> real) returns (q: Point)
      ensures q == PushOut(p, body, SceneWith(dyn), hypot, 5)
    {
      hide CircleHits, PushFrom, Normal, FirstHit;
      q := p;
      ghost var s := SceneWith(dyn);
      for iter := 0 to 5
        invariant PushOut(q, body, s, hypot, 5 - iter) == PushOut(p, body, s, hypot, 5)
      {
        HitMeansFirstHit(q, body, s);
        var i := Find(q, body, blockers);
        if i < |blockers| {
          q := PushFrom(q, body, blockers[i], Normal(q, blockers[i], hypot));
        } else {
          var j := Find(q, body, dyn);
          if j == |dyn| {
            return;
          }
          q := PushFrom(q, body, dyn[j], Normal(q, dyn[j], hypot));
        }
      }
    }

    method GroundUnder(x: real, z: real, feetY: real) returns (h: real)
      ensures h == GroundPoint(floors, x, z, feetY)
    {
      h := 0.0;
      for i := 0 to |floors|
        invariant h == GroundPoint(floors[..i], x, z, feetY)
      {
        var f := floors[i];
        assert floors[..i + 1][..i] == floors[..i];
        if x < f.minX || x > f.maxX || z < f.minZ || z > f.maxZ {
          continue;
        }
        var limit := feetY + if f.stair then 1.15 else 0.46;
        if f.y <= limit + 0.02 && f.y > h {
          h := f.y;
        }
      }
      assert floors[..|floors|] == floors;
    }

    method Ground(x: real, z: real, feetY: real) returns (h: real)
      ensures h == GroundAt(floors, x, z, feetY)
    {
      var a := GroundUnder(x, z, feetY);
      var b := GroundUnder(x + 0.1, z, feetY);
      var c := GroundUnder(x - 0.1, z, feetY);
      var d := GroundUnder(x, z + 0.1, feetY);
      var e := GroundUnder(x, z - 0.1, feetY);
      h := Max(Max(Max(Max(a, b), c), d), e);
    }

    /** `move`: sub-steps of at most 0.18, each sliding along an axis when blocked, stopping when both axes are. */
    method Move(p: Point, dx: real, dz: real, body: Body, dyn: seq<Box>, hypot: (real, real) -> real) returns (q: Point)
      ensures q == MoveTo(p, dx, dz, body, SceneWith(dyn), hypot)
    {
      hide Bad, PushOut;
      var steps := Steps(hypot(dx, dz));
      var sx, sz := dx / steps as real, dz / steps as real;
      var x, z := p.x, p.z;
      ghost var s := SceneWith(dyn);
      ghost var done := 0;
      for k := 0 to steps
        invariant Point(x, z) == Slide(p, sx, sz, body, s, k)
        invariant done == k
      {
        var nx, nz := x + sx, z + sz;
        var bad := IsBad(Point(nx, nz), body, dyn);
        if !bad {
          x, z, done := nx, nz, k + 1;
          continue;
        }
        bad := IsBad(Point(nx, z), body, dyn);
        if !bad {
          x, done := nx, k + 1;
          continue;
        }
        bad := IsBad(Point(x, nz), body, dyn);
        if !bad {
          z, done := nz, k + 1;
          continue;
        }
        break;
      }
      assert Point(x, z) == Slide(p, sx, sz, body, s, done);
      if done < steps {
        StuckStays(p, sx, sz, body, s, done, steps);
      }
      q := PushOutOf(Point(x, z), body, dyn, hypot);
    }
  }
}
