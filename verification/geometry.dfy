/** Axis-aligned boxes, and the height field and blockers built from them. */
module Geometry {

  datatype Box = Box(minX: real, maxX: real, minY: real, maxY: real, minZ: real, maxZ: real)

  function Max(a: real, b: real): real {
    if a >= b then a else b
  }

  function Min(a: real, b: real): real {
    if a <= b then a else b
  }

  /** Half-open membership: the minimum faces belong to the box, the maximum faces do not. */
  predicate Inside(b: Box, x: real, y: real, z: real) {
    b.minX <= x < b.maxX && b.minY <= y < b.maxY && b.minZ <= z < b.maxZ
  }

  predicate Proper(b: Box) {
    b.minX <= b.maxX && b.minY <= b.maxY && b.minZ <= b.maxZ
  }

  function Volume(b: Box): real {
    (b.maxX - b.minX) * (b.maxY - b.minY) * (b.maxZ - b.minZ)
  }

  predicate OverlapsHole(b: Box, h: Box) {
    !(b.maxX <= h.minX || b.minX >= h.maxX || b.maxY <= h.minY || b.minY >= h.maxY || b.maxZ <= h.minZ || b.minZ >= h.maxZ)
  }

  /** The part of the box inside the hole. */
  function Common(b: Box, h: Box): Box {
    Box(Max(b.minX, h.minX), Min(b.maxX, h.maxX), Max(b.minY, h.minY), Min(b.maxY, h.maxY), Max(b.minZ, h.minZ), Min(b.maxZ, h.maxZ))
  }

  /** For non-empty boxes the overlap test says whether they share a point. */
  lemma OverlapMeansSharing(b: Box, h: Box)
    requires b.minX < b.maxX && b.minY < b.maxY && b.minZ < b.maxZ
    requires h.minX < h.maxX && h.minY < h.maxY && h.minZ < h.maxZ
    ensures OverlapsHole(b, h) <==> exists x, y, z :: Inside(b, x, y, z) && Inside(h, x, y, z)
  {
    if OverlapsHole(b, h) {
      var c := Common(b, h);
      assert Inside(b, c.minX, c.minY, c.minZ) && Inside(h, c.minX, c.minY, c.minZ);
    }
  }
}
