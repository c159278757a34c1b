/** Walk-mode movement: gravity, jumping and landing on the height field, one frame at a time. */
module Motion {
  import opened Geometry
  import opened Circles
  import opened Collision

  const WORLD := 58.0
  const GRAVITY := 18.0
  const JUMP := 5.5
  const RADIUS := 0.28
  const STAND_H := 1.68
  const CROUCH_H := 1.08

  /** How far a jump can rise: JUMP^2 / (2 GRAVITY). */
  const JUMP_RISE := 30.25 / 36.0

  const TOP_FLOOR := 18.0

  /** Feet height, vertical speed, and whether the player stands. */
  datatype Vertical = Vertical(y: real, vy: real, grounded: bool)

  /** A zero frame time counts as 16 ms; every frame time is clamped to [0.001, 0.05]. */
  function FrameTime(dt: real): (t: real)
    ensures 0.001 <= t <= 0.05
    ensures 0.001 <= dt <= 0.05 ==> t == dt
    ensures dt == 0.0 ==> t == 0.016
    ensures dt != 0.0 && dt < 0.001 ==> t == 0.001
    ensures dt > 0.05 ==> t == 0.05
  {
    Min(Max(if dt == 0.0 then 0.016 else dt, 0.001), 0.05)
  }

  function Jumped(v: Vertical, jump: bool): Vertical {
    if jump && v.grounded then v.(vy := JUMP, grounded := false) else v
  }

  predicate Lands(v: Vertical, support: real) {
    v.y <= support + 0.02 && v.vy <= 0.0
  }

  /** One frame of free fall. */
  function Fallen(v: Vertical, t: real): Vertical {
    Vertical(v.y + (v.vy - GRAVITY * t) * t, v.vy - GRAVITY * t, false)
  }

  /** One frame over the given support height, before the rescue below -2. */
  function Frame(v: Vertical, jump: bool, support: real, t: real): Vertical {
    var u := Jumped(v, jump);
    if Lands(u, support) then Vertical(support, 0.0, true) else Fallen(u, t)
  }

  /** What one frame does, in the source's numbers: a jump from the ground leaves it at 5.5 before gravity, a player who
    * is not rising and at most 0.02 above the support stands on it, and every other player falls by 18 a second. */
  lemma FrameLaws(v: Vertical, jump: bool, support: real, t: real)
    ensures var w := Frame(v, jump, support, t);
            && (jump && v.grounded ==> w == Vertical(v.y + (5.5 - 18.0 * t) * t, 5.5 - 18.0 * t, false))
            && (!(jump && v.grounded) && v.vy <= 0.0 && v.y - support <= 0.02 ==> w == Vertical(support, 0.0, true))
            && (!(jump && v.grounded) && (v.vy > 0.0 || v.y - support > 0.02) ==>
                  w == Vertical(v.y + (v.vy - 18.0 * t) * t, v.vy - 18.0 * t, false))
  {
    hide Fallen;
    FallenIs(v, t);
    FallenIs(Jumped(v, jump), t);
  }

  lemma FallenIs(v: Vertical, t: real)
    ensures Fallen(v, t) == Vertical(v.y + (v.vy - 18.0 * t) * t, v.vy - 18.0 * t, false)
  {
    var w := v.vy - GRAVITY * t;
    assert w == v.vy - 18.0 * t;
  }

  // ---- energy ---------------------------------------------------------------------------

  function Energy(v: Vertical): real {
    v.y + v.vy * v.vy / (2.0 * GRAVITY)
  }

  /** Falling loses 9 t^2 of height-equivalent energy per frame, whatever the frame time. */
  lemma FallLosesEnergy(v: Vertical, t: real)
    ensures Energy(Fallen(v, t)) == Energy(v) - 9.0 * (t * t)
  {
    var w := v.vy - GRAVITY * t;
    assert w * w == v.vy * v.vy - 36.0 * (v.vy * t) + 324.0 * (t * t);
    assert w * t == v.vy * t - 18.0 * (t * t);
  }

  /** The state every run keeps. */
  predicate Safe(v: Vertical) {
    && v.y > -1.4
    && Energy(v) <= TOP_FLOOR + JUMP_RISE
    && (v.vy > 0.0 ==> v.y >= 0.0)
    && (v.grounded ==> v.vy == 0.0 && v.y >= 0.0 && v.y <= TOP_FLOOR)
  }

  lemma SpeedBound(vy: real, limit: real)
    requires vy * vy <= limit * limit && limit > 0.0
    ensures vy >= 0.0 - limit
  {
    if vy < 0.0 - limit {
      ProductIsPositive(0.0 - vy - limit, 0.0 - vy + limit, vy * vy - limit * limit);
    }
  }

  lemma FallStaysAbove(v: Vertical, t: real)
    requires 0.0 <= t <= 0.05
    requires v.vy > 0.0 ==> v.y >= 0.0
    requires v.vy <= 0.0 ==> v.y > 0.02 && Energy(v) <= TOP_FLOOR + JUMP_RISE
    ensures Fallen(v, t).y > -1.4
    ensures Fallen(v, t).vy > 0.0 ==> Fallen(v, t).y >= 0.0
  {
    var w := v.vy - GRAVITY * t;
    if v.vy <= 0.0 {
      assert v.vy * v.vy <= 26.1 * 26.1;
      SpeedBound(v.vy, 26.1);
    }
    assert w >= -27.0;
    assert v.vy > 0.0 ==> w >= -0.9;
    var p := w * t;
    ScaledBy(w, t, p);
    assert Fallen(v, t).y == v.y + p;
  }

  lemma ScaledBy(w: real, t: real, p: real)
    requires 0.0 <= t <= 0.05 && p == w * t
    ensures w >= 0.0 ==> p >= 0.0
    ensures w < 0.0 ==> p >= 0.05 * w
  {
  }

  /** One frame over any support in [0, 18] keeps the state safe. */
  lemma FrameIsSafe(v: Vertical, jump: bool, support: real, t: real)
    requires Safe(v) && 0.0 <= support <= TOP_FLOOR && 0.001 <= t <= 0.05
    ensures Safe(Frame(v, jump, support, t))
  {
    hide Fallen, Energy;
    var u := Jumped(v, jump);
    EnergyOfRest(support);
    JumpEnergy(v, jump);
    if !Lands(u, support) {
      FallLosesEnergy(u, t);
      FallStaysAbove(u, t);
      NotGroundedWhenFallen(u, t);
      NonNegative(t);
    }
  }

  lemma NonNegative(t: real)
    ensures t * t >= 0.0
  {
  }

  lemma NotGroundedWhenFallen(v: Vertical, t: real)
    ensures !Fallen(v, t).grounded
  {
  }

  lemma EnergyOfRest(y: real)
    ensures Energy(Vertical(y, 0.0, true)) == y
  {
  }

  lemma JumpEnergy(v: Vertical, jump: bool)
    requires Safe(v)
    ensures Energy(Jumped(v, jump)) <= TOP_FLOOR + JUMP_RISE
    ensures jump && v.grounded ==> Energy(Jumped(v, jump)) == v.y + JUMP_RISE
  {
  }

  // ---- runs -----------------------------------------------------------------------------

  /** What the world and the player bring to one frame. */
  datatype Input = Input(dt: real, jump: bool, support: real)

  ghost predicate SupportsInRange(ins: seq<Input>) {
    forall i :: 0 <= i < |ins| ==> 0.0 <= ins[i].support <= TOP_FLOOR
  }

  ghost function Run(v: Vertical, ins: seq<Input>): Vertical {
    if ins == [] then v
    else
      var last := ins[|ins| - 1];
      Frame(Run(v, ins[..|ins| - 1]), last.jump, last.support, FrameTime(last.dt))
  }

  /** On every run the player stays above -1.4, so the rescue below -2 never happens. */
  lemma {:induction false} RunIsSafe(v: Vertical, ins: seq<Input>)
    requires Safe(v) && SupportsInRange(ins)
    ensures Safe(Run(v, ins)) && Run(v, ins).y > -1.4
  {
    hide Frame, Safe;
    if ins == [] {
      SafeIsAbove(v);
    } else {
      var init, last := ins[..|ins| - 1], ins[|ins| - 1];
      RunIsSafe(v, init);
      FrameIsSafe(Run(v, init), last.jump, last.support, FrameTime(last.dt));
      SafeIsAbove(Run(v, ins));
    }
  }

  lemma SafeIsAbove(v: Vertical)
    requires Safe(v)
    ensures v.y > -1.4
  {
  }

  /** The player is in the air after every one of these frames. */
  ghost predicate Airborne(v: Vertical, ins: seq<Input>) {
    forall k: nat :: k <= |ins| && k > 0 ==> !Run(v, ins[..k]).grounded
  }

  lemma {:induction false} EnergyFallsInAir(v: Vertical, ins: seq<Input>)
    requires !v.grounded && Airborne(v, ins)
    ensures !Run(v, ins).grounded && Energy(Run(v, ins)) <= Energy(v)
  {
    hide Energy, Fallen;
    if ins != [] {
      var init, last := ins[..|ins| - 1], ins[|ins| - 1];
      forall k: nat | k <= |init| && k > 0 ensures !Run(v, init[..k]).grounded {
        assert init[..k] == ins[..k];
      }
      EnergyFallsInAir(v, init);
      assert ins[..|ins|] == ins;
      assert !Run(v, ins[..|ins|]).grounded;
      FallLosesEnergy(Run(v, init), FrameTime(last.dt));
      NonNegative(FrameTime(last.dt));
    }
  }

  lemma HeightWithinEnergy(v: Vertical)
    ensures v.y <= Energy(v)
  {
    assert v.vy * v.vy >= 0.0;
  }

  /** From take-off until the next landing the player is never more than JUMP^2 / (2 GRAVITY) above where the
    * jump started, for every sequence of frame times and supports. */
  lemma JumpRiseIsBounded(v: Vertical, ins: seq<Input>)
    requires Safe(v) && v.grounded && ins != [] && ins[0].jump
    requires Airborne(v, ins)
    ensures Run(v, ins).y <= v.y + JUMP_RISE
  {
    hide Energy, Fallen;
    var first := ins[..1];
    assert first[..0] == [];
    assert !Run(v, ins[..1]).grounded;
    var t := FrameTime(ins[0].dt);
    JumpEnergy(v, true);
    FallLosesEnergy(Jumped(v, true), t);
    NonNegative(t);
    var u := Run(v, first);
    assert Energy(u) <= v.y + JUMP_RISE;
    var rest := ins[1..];
    assert first + rest == ins;
    RunSplits(v, first, rest);
    forall k: nat | k <= |rest| && k > 0 ensures !Run(u, rest[..k]).grounded {
      RunSplits(v, first, rest[..k]);
      assert first + rest[..k] == ins[..k + 1];
    }
    EnergyFallsInAir(u, rest);
    HeightWithinEnergy(Run(v, ins));
  }

  lemma {:induction false} RunSplits(v: Vertical, a: seq<Input>, b: seq<Input>)
    ensures Run(v, a + b) == Run(Run(v, a), b)
    decreases |b|
  {
    hide Frame;
    if b == [] {
      assert a + b == a;
    } else {
      RunSplits(v, a, b[..|b| - 1]);
      assert (a + b)[..|a + b| - 1] == a + b[..|b| - 1];
    }
  }

  // ---- the player -----------------------------------------------------------------------

  /** Clamped to the world, which reaches 58 either way. */
  function Within(v: real): (w: real)
    ensures -58.0 <= w <= 58.0
    ensures -58.0 <= v <= 58.0 ==> w == v
    ensures v > 58.0 ==> w == 58.0
    ensures v < -58.0 ==> w == -58.0
  {
    Clamp(v, 0.0 - WORLD, WORLD)
  }

  class Player {
    var x: real
    var y: real
    var z: real
    var vy: real
    var grounded: bool
    var crouch: bool
    var jumpQueued: bool

    ghost function State(): Vertical
      reads this
    {
      Vertical(y, vy, grounded)
    }

    constructor ()
      ensures Safe(State()) && x == y == z == 0.0 && !crouch && !jumpQueued
    {
      x, y, z, vy, grounded := 0.0, 0.0, 0.0, 0.0, true;
      crouch, jumpQueued := false, false;
      new;
      EnergyOfRest(0.0);
    }

    function BodyHeight(): (h: real)
      reads this
      ensures h == 1.08 || h == 1.68
      ensures h == 1.08 <==> crouch
    {
      if crouch then CROUCH_H else STAND_H
    }

    method QueueJump()
      modifies this`jumpQueued
      ensures jumpQueued
    {
      jumpQueued := true;
    }

    /** `settleAt`: stand on the ground near a place, pushed out of whatever is there; without a collision world the
      * ground is at 0. */
    method SettleAt(px: real, yHint: real, pz: real, c: Collider?, dyn: seq<Box>, hypot: (real, real) -> real)
      requires c != null ==> HeightsInRange(c.floors)
      modifies this
      ensures Safe(State()) && grounded && vy == 0.0 && crouch == old(crouch) && jumpQueued == old(jumpQueued)
      ensures c == null ==> x == Within(px) && z == Within(pz) && y == 0.0
      ensures c != null ==>
                var feetY := GroundAt(c.floors, Within(px), Within(pz), yHint);
                var out := PushOut(Point(Within(px), Within(pz)), Body(feetY, old(BodyHeight()), 0.28), c.SceneWith(dyn), hypot, 5);
                x == out.x && z == out.z && y == GroundAt(c.floors, out.x, out.z, feetY)
    {
      var fx, fz := Within(px), Within(pz);
      var h := 0.0;
      if c != null {
        var feetY := c.Ground(fx, fz, yHint);
        var out := c.PushOutOf(Point(fx, fz), Body(feetY, BodyHeight(), RADIUS), dyn, hypot);
        fx, fz := out.x, out.z;
        h := c.Ground(fx, fz, feetY);
        GroundInRange(c.floors, fx, fz, feetY);
      }
      EnergyOfRest(h);
      x, y, z, vy, grounded := fx, h, fz, 0.0, true;
    }

    /** `update`: slide when the collision world is ready and move freely when it is not, clamp to the world, then the
      * vertical half of the frame over the ground found there. */
    method Update(dt: real, menu: bool, dx: real, dz: real, c: Collider?, ready: bool, dyn: seq<Box>, hypot: (real, real) -> real)
      requires Safe(State()) && (c != null ==> HeightsInRange(c.floors))
      modifies this
      ensures Safe(State()) && y > -1.4 && !jumpQueued && crouch == old(crouch)
      ensures var to := if c != null && ready
                        then MoveTo(Point(old(x), old(z)), dx, dz, Body(old(y), old(BodyHeight()), 0.28), c.SceneWith(dyn), hypot)
                        else Point(old(x) + dx, old(z) + dz);
              x == Within(to.x) && z == Within(to.z)
      ensures State() == Frame(old(State()), !menu && old(jumpQueued) && !crouch,
                               if c != null then GroundAt(c.floors, x, z, old(y)) else 0.0, FrameTime(dt))
    {
      hide MoveTo, GroundAt, Safe, Frame, FrameTime;
      if c != null && ready {
        var slid := c.Move(Point(x, z), dx, dz, Body(y, BodyHeight(), RADIUS), dyn, hypot);
        x, z := slid.x, slid.z;
      } else {
        x, z := x + dx, z + dz;
      }
      x, z := Within(x), Within(z);
      var support := 0.0;
      if c != null {
        support := c.Ground(x, z, y);
        GroundInRange(c.floors, x, z, y);
      }
      UpdateVertical(FrameTime(dt), menu, support);
    }

    /** Jump, land or fall. The rescue of a player below -2 is shown unreachable. */
    method UpdateVertical(t: real, menu: bool, support: real)
      requires Safe(State()) && 0.0 <= support <= TOP_FLOOR && 0.001 <= t <= 0.05
      modifies this`y, this`vy, this`grounded, this`jumpQueued
      ensures State() == Frame(old(State()), !menu && old(jumpQueued) && !crouch, support, t)
      ensures Safe(State()) && y > -1.4 && !jumpQueued
      ensures !menu && old(jumpQueued) && !crouch && old(grounded) ==>
                !grounded && vy == 5.5 - 18.0 * t && y == old(y) + vy * t
    {
      hide Safe;
      FrameLaws(State(), !menu && jumpQueued && !crouch, support, t);
      ghost var start, jump := State(), !menu && jumpQueued && !crouch;
      FrameIsSafe(start, jump, support, t);
      SafeIsAbove(Frame(start, jump, support, t));
      if !menu && jumpQueued && grounded && !crouch {
        vy := JUMP;
        grounded := false;
      }
      jumpQueued := false;
      if y <= support + 0.02 && vy <= 0.0 {
        y := support;
        vy := 0.0;
        grounded := true;
      } else {
        grounded := false;
        vy := vy - GRAVITY * t;
        y := y + vy * t;
        assert State() == Frame(start, jump, support, t);
        if y < -2.0 {
          assert false;
        }
      }
    }
  }
}
