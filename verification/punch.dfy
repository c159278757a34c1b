/** Cutting openings out of blockers: box-minus-box subtraction, folded over a list of holes. */
module Punch {
  import opened Geometry

  const THINNEST := 0.02

  function Opt(c: bool, b: Box): seq<Box> {
    if c then [b] else []
  }

  /** The slabs of a box below and above the hole, along one axis. */
  function SlabsX(b: Box, h: Box): seq<Box> {
    Opt(b.minX < h.minX, b.(maxX := h.minX)) + Opt(b.maxX > h.maxX, b.(minX := h.maxX))
  }

  function SlabsY(b: Box, h: Box): seq<Box> {
    Opt(b.minY < h.minY, b.(maxY := h.minY)) + Opt(b.maxY > h.maxY, b.(minY := h.maxY))
  }

  function SlabsZ(b: Box, h: Box): seq<Box> {
    Opt(b.minZ < h.minZ, b.(maxZ := h.minZ)) + Opt(b.maxZ > h.maxZ, b.(minZ := h.maxZ))
  }

  /** The box cut down to the hole's extent along one axis. */
  function ClipX(b: Box, h: Box): Box {
    b.(minX := Max(b.minX, h.minX), maxX := Min(b.maxX, h.maxX))
  }

  function ClipY(b: Box, h: Box): Box {
    b.(minY := Max(b.minY, h.minY), maxY := Min(b.maxY, h.maxY))
  }

  function ClipZ(b: Box, h: Box): Box {
    b.(minZ := Max(b.minZ, h.minZ), maxZ := Min(b.maxZ, h.maxZ))
  }

  function PartsBelowY(core: Box, h: Box): seq<Box> {
    if core.maxY > core.minY then SlabsZ(core, h) else []
  }

  function PartsBelowX(mid: Box, h: Box): seq<Box> {
    if mid.maxX > mid.minX then SlabsY(mid, h) + PartsBelowY(ClipY(mid, h), h) else []
  }

  /** The box minus the hole: slabs along x, then along y of what is left, then along z. */
  function Parts(box: Box, hole: Box): seq<Box> {
    if !OverlapsHole(box, hole) then [box]
    else SlabsX(box, hole) + PartsBelowX(ClipX(box, hole), hole)
  }

  /** The two guarded pushes of `punch` along x; `PushY` and `PushZ` are the other two pairs. */
  method PushX(parts: seq<Box>, b: Box, h: Box) returns (more: seq<Box>)
    ensures more == parts + SlabsX(b, h)
  {
    more := parts;
    if b.minX < h.minX {
      more := more + [b.(maxX := h.minX)];
    }
    if b.maxX > h.maxX {
      more := more + [b.(minX := h.maxX)];
    }
  }

  /** Along y, for the box clipped along x. */
  method PushY(parts: seq<Box>, b: Box, h: Box) returns (more: seq<Box>)
    ensures more == parts + SlabsY(b, h)
  {
    more := parts;
    if b.minY < h.minY {
      more := more + [b.(maxY := h.minY)];
    }
    if b.maxY > h.maxY {
      more := more + [b.(minY := h.maxY)];
    }
  }

  /** Along z, for the box clipped along x and y. */
  method PushZ(parts: seq<Box>, b: Box, h: Box) returns (more: seq<Box>)
    ensures more == parts + SlabsZ(b, h)
  {
    more := parts;
    if b.minZ < h.minZ {
      more := more + [b.(maxZ := h.minZ)];
    }
    if b.maxZ > h.maxZ {
      more := more + [b.(minZ := h.maxZ)];
    }
  }

  /** `punch`. */
  method PunchBox(box: Box, hole: Box) returns (parts: seq<Box>)
    ensures parts == Parts(box, hole)
  {
    hide SlabsX, SlabsY, SlabsZ, OverlapsHole, Max, Min;
    if !OverlapsHole(box, hole) {
      return [box];
    }
    parts := PushX([], box, hole);
    var x0 := Max(box.minX, hole.minX);
    var x1 := Min(box.maxX, hole.maxX);
    if x1 > x0 {
      var mid := box.(minX := x0, maxX := x1);
      parts := PushY(parts, mid, hole);
      var y0 := Max(box.minY, hole.minY);
      var y1 := Min(box.maxY, hole.maxY);
      if y1 > y0 {
        parts := PushZ(parts, mid.(minY := y0, maxY := y1), hole);
      }
    }
  }

  // ---- exactness ------------------------------------------------------------------------

  /** How many of the boxes contain a point. */
  function Cover(bs: seq<Box>, x: real, y: real, z: real): nat {
    if bs == [] then 0 else (if Inside(bs[0], x, y, z) then 1 else 0) + Cover(bs[1..], x, y, z)
  }

  function TotalVolume(bs: seq<Box>): real {
    if bs == [] then 0.0 else Volume(bs[0]) + TotalVolume(bs[1..])
  }

  lemma {:induction false} CoverConcat(a: seq<Box>, b: seq<Box>, x: real, y: real, z: real)
    ensures Cover(a + b, x, y, z) == Cover(a, x, y, z) + Cover(b, x, y, z)
    ensures TotalVolume(a + b) == TotalVolume(a) + TotalVolume(b)
  {
    hide Inside, Volume;
    if a == [] {
      assert a + b == b;
    } else {
      CoverConcat(a[1..], b, x, y, z);
      assert (a + b)[1..] == a[1..] + b;
    }
  }

  lemma CoverOpt(c: bool, b: Box, x: real, y: real, z: real)
    ensures Cover(Opt(c, b), x, y, z) == if c && Inside(b, x, y, z) then 1 else 0
    ensures TotalVolume(Opt(c, b)) == if c then Volume(b) else 0.0
  {
    assert [b][1..] == [];
  }

  lemma CoverTwo(c: bool, a: Box, d: bool, b: Box, x: real, y: real, z: real)
    ensures Cover(Opt(c, a) + Opt(d, b), x, y, z)
         == (if c && Inside(a, x, y, z) then 1 else 0) + (if d && Inside(b, x, y, z) then 1 else 0)
    ensures TotalVolume(Opt(c, a) + Opt(d, b)) == (if c then Volume(a) else 0.0) + (if d then Volume(b) else 0.0)
  {
    hide Inside, Volume, Cover, TotalVolume, Opt;
    CoverOpt(c, a, x, y, z);
    CoverOpt(d, b, x, y, z);
    CoverConcat(Opt(c, a), Opt(d, b), x, y, z);
  }

  /** Extents along one axis overlap. */
  predicate Meet(lo: real, hi: real, holeLo: real, holeHi: real) {
    hi > holeLo && lo < holeHi && holeLo <= holeHi
  }

  lemma SplitX(b: Box, h: Box, x: real, y: real, z: real)
    requires Meet(b.minX, b.maxX, h.minX, h.maxX)
    ensures Cover(SlabsX(b, h), x, y, z) + (if Inside(ClipX(b, h), x, y, z) then 1 else 0)
         == if Inside(b, x, y, z) then 1 else 0
    ensures TotalVolume(SlabsX(b, h)) + Volume(ClipX(b, h)) == Volume(b)
  {
    CoverTwo(b.minX < h.minX, b.(maxX := h.minX), b.maxX > h.maxX, b.(minX := h.maxX), x, y, z);
    Lengths(b.minX, b.maxX, h.minX, h.maxX, (b.maxY - b.minY) * (b.maxZ - b.minZ));
    RegroupX(b);
    RegroupX(ClipX(b, h));
    RegroupX(b.(maxX := h.minX));
    RegroupX(b.(minX := h.maxX));
  }

  lemma SplitY(b: Box, h: Box, x: real, y: real, z: real)
    requires Meet(b.minY, b.maxY, h.minY, h.maxY)
    ensures Cover(SlabsY(b, h), x, y, z) + (if Inside(ClipY(b, h), x, y, z) then 1 else 0)
         == if Inside(b, x, y, z) then 1 else 0
    ensures TotalVolume(SlabsY(b, h)) + Volume(ClipY(b, h)) == Volume(b)
  {
    CoverTwo(b.minY < h.minY, b.(maxY := h.minY), b.maxY > h.maxY, b.(minY := h.maxY), x, y, z);
    Lengths(b.minY, b.maxY, h.minY, h.maxY, (b.maxX - b.minX) * (b.maxZ - b.minZ));
    RegroupY(b);
    RegroupY(ClipY(b, h));
    RegroupY(b.(maxY := h.minY));
    RegroupY(b.(minY := h.maxY));
  }

  lemma SplitZ(b: Box, h: Box, x: real, y: real, z: real)
    requires Meet(b.minZ, b.maxZ, h.minZ, h.maxZ)
    ensures Cover(SlabsZ(b, h), x, y, z) + (if Inside(ClipZ(b, h), x, y, z) then 1 else 0)
         == if Inside(b, x, y, z) then 1 else 0
    ensures TotalVolume(SlabsZ(b, h)) + Volume(ClipZ(b, h)) == Volume(b)
  {
    CoverTwo(b.minZ < h.minZ, b.(maxZ := h.minZ), b.maxZ > h.maxZ, b.(minZ := h.maxZ), x, y, z);
    Lengths(b.minZ, b.maxZ, h.minZ, h.maxZ, (b.maxX - b.minX) * (b.maxY - b.minY));
    RegroupZ(b);
    RegroupZ(ClipZ(b, h));
    RegroupZ(b.(maxZ := h.minZ));
    RegroupZ(b.(minZ := h.maxZ));
  }

  /** Along one axis, the piece below, the piece above and the common piece make up the whole. */
  lemma Lengths(lo: real, hi: real, holeLo: real, holeHi: real, area: real)
    requires Meet(lo, hi, holeLo, holeHi)
    ensures (if lo < holeLo then (holeLo - lo) * area else 0.0) + (if hi > holeHi then (hi - holeHi) * area else 0.0)
          + (Min(hi, holeHi) - Max(lo, holeLo)) * area == (hi - lo) * area
  {
    var below := if lo < holeLo then holeLo - lo else 0.0;
    var above := if hi > holeHi then hi - holeHi else 0.0;
    var common := Min(hi, holeHi) - Max(lo, holeLo);
    assert below + above + common == hi - lo;
    Distribute(below, above, common, area);
  }

  lemma Distribute(a: real, b: real, c: real, area: real)
    ensures a * area + b * area + c * area == (a + b + c) * area
  {
  }

  lemma RegroupX(b: Box)
    ensures Volume(b) == (b.maxX - b.minX) * ((b.maxY - b.minY) * (b.maxZ - b.minZ))
  {
    Reassociate(b.maxX - b.minX, b.maxY - b.minY, b.maxZ - b.minZ);
  }

  lemma RegroupY(b: Box)
    ensures Volume(b) == (b.maxY - b.minY) * ((b.maxX - b.minX) * (b.maxZ - b.minZ))
  {
    Reassociate(b.maxX - b.minX, b.maxY - b.minY, b.maxZ - b.minZ);
  }

  lemma RegroupZ(b: Box)
    ensures Volume(b) == (b.maxZ - b.minZ) * ((b.maxX - b.minX) * (b.maxY - b.minY))
  {
    Reassociate(b.maxX - b.minX, b.maxY - b.minY, b.maxZ - b.minZ);
  }

  lemma Reassociate(x: real, y: real, z: real)
    ensures x * y * z == x * (y * z) == y * (x * z) == z * (x * y)
  {
  }

  lemma NoWidth(b: Box)
    requires b.maxX == b.minX || b.maxY == b.minY || b.maxZ == b.minZ
    ensures Volume(b) == 0.0
  {
  }

  lemma NoneInEmpty(x: real, y: real, z: real)
    ensures Cover([], x, y, z) == 0 && TotalVolume([]) == 0.0
  {
  }

  /** Every point of the box outside the hole lies in exactly one part and no other point lies in any; the
    * volumes of the parts and of the overlap make up the box's volume. */
  lemma PunchIsExact(box: Box, hole: Box, x: real, y: real, z: real)
    requires Proper(hole)
    ensures Cover(Parts(box, hole), x, y, z) == if Inside(box, x, y, z) && !Inside(hole, x, y, z) then 1 else 0
    ensures Proper(box) ==>
      TotalVolume(Parts(box, hole)) + (if OverlapsHole(box, hole) then Volume(Common(box, hole)) else 0.0) == Volume(box)
  {
    hide Cover, TotalVolume, Volume, SlabsX, SlabsY, SlabsZ;
    if !OverlapsHole(box, hole) {
      CoverOpt(true, box, x, y, z);
    } else {
      var mid := ClipX(box, hole);
      var core := ClipY(mid, hole);
      SplitX(box, hole, x, y, z);
      SplitY(mid, hole, x, y, z);
      SplitZ(core, hole, x, y, z);
      NoneInEmpty(x, y, z);
      CoverConcat(SlabsX(box, hole), PartsBelowX(mid, hole), x, y, z);
      CoverConcat(SlabsY(mid, hole), PartsBelowY(core, hole), x, y, z);
      assert ClipZ(core, hole) == Common(box, hole);
      if Proper(box) && mid.maxX <= mid.minX {
        NoWidth(mid);
        NoWidth(Common(box, hole));
      } else if Proper(box) && core.maxY <= core.minY {
        NoWidth(core);
        NoWidth(Common(box, hole));
      }
    }
  }

  /** No point in two parts is the same as: two different parts share no point. */
  lemma {:induction false} CoverOnceMeansDisjoint(bs: seq<Box>, i: nat, j: nat, x: real, y: real, z: real)
    requires i < j < |bs| && Cover(bs, x, y, z) <= 1
    ensures !(Inside(bs[i], x, y, z) && Inside(bs[j], x, y, z))
  {
    hide Inside;
    if i > 0 {
      CoverOnceMeansDisjoint(bs[1..], i - 1, j - 1, x, y, z);
    } else {
      if Inside(bs[j], x, y, z) {
        CoverAtLeast(bs[1..], j - 1, x, y, z);
      }
    }
  }

  lemma {:induction false} CoverAtLeast(bs: seq<Box>, j: nat, x: real, y: real, z: real)
    requires j < |bs| && Inside(bs[j], x, y, z)
    ensures Cover(bs, x, y, z) >= 1
  {
    hide Inside;
    if j > 0 {
      CoverAtLeast(bs[1..], j - 1, x, y, z);
    }
  }

  /** The parts of one punch are pairwise disjoint. */
  lemma PartsAreDisjoint(box: Box, hole: Box, i: nat, j: nat, x: real, y: real, z: real)
    requires Proper(hole) && i < j < |Parts(box, hole)|
    ensures !(Inside(Parts(box, hole)[i], x, y, z) && Inside(Parts(box, hole)[j], x, y, z))
  {
    hide Inside, Parts;
    PunchIsExact(box, hole, x, y, z);
    CoverOnceMeansDisjoint(Parts(box, hole), i, j, x, y, z);
  }

  // ---- folding over the holes -----------------------------------------------------------

  function PunchEach(bs: seq<Box>, hole: Box): seq<Box> {
    if bs == [] then [] else PunchEach(bs[..|bs| - 1], hole) + Parts(bs[|bs| - 1], hole)
  }

  function PunchAll(bs: seq<Box>, holes: seq<Box>): seq<Box>
    decreases |holes|
  {
    if holes == [] then bs else PunchEach(PunchAll(bs, holes[..|holes| - 1]), holes[|holes| - 1])
  }

  predicate Thin(b: Box) {
    b.maxX - b.minX < THINNEST || b.maxY - b.minY < THINNEST || b.maxZ - b.minZ < THINNEST
  }

  /** The boxes that are, or are not, too thin to keep. */
  function Select(bs: seq<Box>, thin: bool): seq<Box> {
    if bs == [] then []
    else Select(bs[..|bs| - 1], thin) + if Thin(bs[|bs| - 1]) == thin then [bs[|bs| - 1]] else []
  }

  predicate InSomeHole(holes: seq<Box>, x: real, y: real, z: real) {
    exists i :: 0 <= i < |holes| && Inside(holes[i], x, y, z)
  }

  predicate AllProper(holes: seq<Box>) {
    forall i :: 0 <= i < |holes| ==> Proper(holes[i])
  }

  lemma {:induction false} PunchEachIsExact(bs: seq<Box>, hole: Box, x: real, y: real, z: real)
    requires Proper(hole)
    ensures Cover(PunchEach(bs, hole), x, y, z) == if Inside(hole, x, y, z) then 0 else Cover(bs, x, y, z)
  {
    hide Inside, Parts, Proper;
    if bs == [] {
      NoneInEmpty(x, y, z);
    } else {
      var init, last := bs[..|bs| - 1], bs[|bs| - 1];
      PunchEachIsExact(init, hole, x, y, z);
      PunchIsExact(last, hole, x, y, z);
      CoverConcat(PunchEach(init, hole), Parts(last, hole), x, y, z);
      CoverConcat(init, [last], x, y, z);
      CoverOpt(true, last, x, y, z);
      assert init + [last] == bs;
    }
  }

  /** After all holes, each point of the box that lies in no hole is in exactly one part, and no other point is
    * in any. */
  lemma {:induction false} PunchAllIsExact(b: Box, holes: seq<Box>, x: real, y: real, z: real)
    requires AllProper(holes)
    ensures Cover(PunchAll([b], holes), x, y, z)
         == if Inside(b, x, y, z) && !InSomeHole(holes, x, y, z) then 1 else 0
    decreases |holes|
  {
    hide Inside, PunchEach, Proper;
    if holes == [] {
      CoverOpt(true, b, x, y, z);
    } else {
      var init, last := holes[..|holes| - 1], holes[|holes| - 1];
      assert AllProper(init) && Proper(last);
      PunchAllIsExact(b, init, x, y, z);
      PunchEachIsExact(PunchAll([b], init), last, x, y, z);
      assert InSomeHole(holes, x, y, z) <==> InSomeHole(init, x, y, z) || Inside(last, x, y, z) by {
        if InSomeHole(init, x, y, z) {
          var i :| 0 <= i < |init| && Inside(init[i], x, y, z);
          assert Inside(holes[i], x, y, z);
        }
        if Inside(last, x, y, z) {
          assert Inside(holes[|holes| - 1], x, y, z);
        }
        if InSomeHole(holes, x, y, z) {
          var i :| 0 <= i < |holes| && Inside(holes[i], x, y, z);
          assert i < |init| ==> Inside(init[i], x, y, z);
        }
      }
    }
  }

  /** A part never extends beyond the box it came from, and never overlaps the hole. */
  predicate PartOf(p: Box, b: Box) {
    b.minX <= p.minX && p.maxX <= b.maxX && b.minY <= p.minY && p.maxY <= b.maxY && b.minZ <= p.minZ && p.maxZ <= b.maxZ
  }

  lemma SlabsAvoidHole(b: Box, h: Box, p: Box)
    requires (b.maxX > h.minX && b.minX < h.maxX && p in SlabsX(b, h))
          || (b.maxY > h.minY && b.minY < h.maxY && p in SlabsY(b, h))
          || (b.maxZ > h.minZ && b.minZ < h.maxZ && p in SlabsZ(b, h))
    ensures PartOf(p, b) && !OverlapsHole(p, h)
  {
  }

  lemma PartsAvoidHole(box: Box, hole: Box, i: nat)
    requires i < |Parts(box, hole)|
    ensures PartOf(Parts(box, hole)[i], box) && !OverlapsHole(Parts(box, hole)[i], hole)
  {
    hide SlabsX, SlabsY, SlabsZ;
    var p := Parts(box, hole)[i];
    if OverlapsHole(box, hole) {
      var mid := ClipX(box, hole);
      var core := ClipY(mid, hole);
      if p in SlabsX(box, hole) {
        SlabsAvoidHole(box, hole, p);
      } else if p in SlabsY(mid, hole) {
        SlabsAvoidHole(mid, hole, p);
      } else {
        assert p in SlabsZ(core, hole);
        SlabsAvoidHole(core, hole, p);
      }
    }
  }

  ghost predicate Avoids(bs: seq<Box>, hole: Box) {
    forall i :: 0 <= i < |bs| ==> !OverlapsHole(bs[i], hole)
  }

  lemma {:induction false} PunchEachAvoids(bs: seq<Box>, hole: Box, other: Box)
    ensures Avoids(PunchEach(bs, hole), hole)
    ensures Avoids(bs, other) ==> Avoids(PunchEach(bs, hole), other)
  {
    hide Parts;
    if bs != [] {
      var init, last := bs[..|bs| - 1], bs[|bs| - 1];
      PunchEachAvoids(init, hole, other);
      forall i | 0 <= i < |Parts(last, hole)|
        ensures PartOf(Parts(last, hole)[i], last) && !OverlapsHole(Parts(last, hole)[i], hole)
      {
        PartsAvoidHole(last, hole, i);
      }
      if Avoids(bs, other) {
        assert forall i :: 0 <= i < |init| ==> init[i] == bs[i];
        assert Avoids(init, other) && !OverlapsHole(last, other);
      }
    }
  }

  lemma {:induction false} PunchAllAvoids(b: Box, holes: seq<Box>, k: nat)
    requires k < |holes|
    ensures Avoids(PunchAll([b], holes), holes[k])
    decreases |holes|
  {
    hide PunchEach, Avoids;
    var init, last := holes[..|holes| - 1], holes[|holes| - 1];
    if k < |init| {
      PunchAllAvoids(b, init, k);
      PunchEachAvoids(PunchAll([b], init), last, init[k]);
    } else {
      PunchEachAvoids(PunchAll([b], init), last, last);
    }
  }

  lemma {:induction false} SelectSplits(bs: seq<Box>, thin: bool, x: real, y: real, z: real)
    ensures Cover(Select(bs, thin), x, y, z) + Cover(Select(bs, !thin), x, y, z) == Cover(bs, x, y, z)
    ensures forall i :: 0 <= i < |Select(bs, thin)| ==> Select(bs, thin)[i] in bs && Thin(Select(bs, thin)[i]) == thin
    decreases |bs|
  {
    hide Inside, Thin;
    if bs == [] {
      NoneInEmpty(x, y, z);
    } else {
      var init, last := bs[..|bs| - 1], bs[|bs| - 1];
      SelectSplits(init, thin, x, y, z);
      assert init + [last] == bs;
      CoverConcat(init, [last], x, y, z);
      var t := Thin(last);
      CoverConcat(Select(init, t), [last], x, y, z);
      assert Select(bs, t) == Select(init, t) + [last] && Select(bs, !t) == Select(init, !t);
      assert last in bs;
    }
  }

  /** What `addBlock` stores overlaps no hole and is nowhere thinner than 0.02; every point of the block outside
    * all holes is in exactly one stored blocker, unless it is in a dropped part thinner than 0.02. */
  lemma StoredBlockers(b: Box, holes: seq<Box>, x: real, y: real, z: real)
    requires AllProper(holes)
    ensures var parts := PunchAll([b], holes);
            var stored, dropped := Select(parts, false), Select(parts, true);
            && (forall i, k :: 0 <= i < |stored| && 0 <= k < |holes| ==> !OverlapsHole(stored[i], holes[k]))
            && (forall i :: 0 <= i < |stored| ==>
                  var p := stored[i]; p.maxX - p.minX >= 0.02 && p.maxY - p.minY >= 0.02 && p.maxZ - p.minZ >= 0.02)
            && (forall i :: 0 <= i < |dropped| ==>
                  var p := dropped[i]; p.maxX - p.minX < 0.02 || p.maxY - p.minY < 0.02 || p.maxZ - p.minZ < 0.02)
            && Cover(stored, x, y, z) + Cover(dropped, x, y, z)
               == if Inside(b, x, y, z) && !InSomeHole(holes, x, y, z) then 1 else 0
  {
    hide Inside, PunchAll, OverlapsHole, Cover, Select;
    var parts := PunchAll([b], holes);
    PunchAllIsExact(b, holes, x, y, z);
    SelectSplits(parts, false, x, y, z);
    SelectSplits(parts, true, x, y, z);
    var stored := Select(parts, false);
    forall i, k | 0 <= i < |stored| && 0 <= k < |holes| ensures !OverlapsHole(stored[i], holes[k]) {
      PunchAllAvoids(b, holes, k);
      assert stored[i] in parts;
      var j :| 0 <= j < |parts| && parts[j] == stored[i];
    }
  }
}
