/** Axis-parallel integer boxes as in src/drc_agent/schemas/common.py: closed, with ordered corners. */
module Boxes {
  import opened Basics

  datatype RawBox = Box(x1: int, y1: int, x2: int, y2: int) {
    function Width(): int { x2 - x1 }

    function Height(): int { y2 - y1 }
  }

  type Box = b: RawBox | b.x1 <= b.x2 && b.y1 <= b.y2 witness Box(0, 0, 0, 0)

  function Union(a: Box, b: Box): Box {
    Box(Min(a.x1, b.x1), Min(a.y1, b.y1), Max(a.x2, b.x2), Max(a.y2, b.y2))
  }

  predicate Intersects(a: Box, b: Box) {
    !(a.x2 < b.x1 || b.x2 < a.x1 || a.y2 < b.y1 || b.y2 < a.y1)
  }

  function IntersectionArea(a: Box, b: Box): int {
    Max(0, Min(a.x2, b.x2) - Max(a.x1, b.x1)) * Max(0, Min(a.y2, b.y2) - Max(a.y1, b.y1))
  }

  /** Horizontal and vertical separation, zero where the projections overlap. */
  function GapX(a: Box, b: Box): nat { Max(Max(a.x1 - b.x2, b.x1 - a.x2), 0) }

  function GapY(a: Box, b: Box): nat { Max(Max(a.y1 - b.y2, b.y1 - a.y2), 0) }

  function GapSquared(a: Box, b: Box): nat {
    GapX(a, b) * GapX(a, b) + GapY(a, b) * GapY(a, b)
  }
}
