/** Axis-aligned boxes of the play field: walls, the player square and the
    frogs' hit boxes, and the overlap test `java.awt.Rectangle.intersects`. */
module Geometry {

  /** `java.awt.Rectangle`: top-left corner, width and height. */
  datatype Rect = Rect(x: int, y: int, w: int, h: int)

  /** `java.awt.Point`. */
  datatype Point = Point(x: int, y: int)

  /** Side of the player square (`playerSize`). */
  const PlayerSize: int := 30
  /** Side of the box a frog is caught by. */
  const FrogSize: int := 30

  /** `Rectangle.intersects`: an empty rectangle (width or height not
      positive) meets nothing, and two others meet when their interiors
      overlap; sharing only an edge or a corner is not an intersection. */
  predicate Intersects(a: Rect, b: Rect)
  {
    && a.w > 0 && a.h > 0 && b.w > 0 && b.h > 0
    && a.x < b.x + b.w && b.x < a.x + a.w
    && a.y < b.y + b.h && b.y < a.y + a.h
  }

  /** The player's box with its corner at (x, y). */
  function PlayerBox(x: int, y: int): Rect
  {
    Rect(x, y, PlayerSize, PlayerSize)
  }

  /** The 30 by 30 box of a frog at p. */
  function FrogBox(p: Point): Rect
  {
    Rect(p.x, p.y, FrogSize, FrogSize)
  }

  /** Overlap does not depend on which box asks. */
  lemma IntersectsSymmetric(a: Rect, b: Rect)
    ensures Intersects(a, b) <==> Intersects(b, a)
  {
  }

  /** Boxes that only share an edge do not intersect. */
  lemma SharedEdgeIsNoHit(a: Rect, b: Rect)
    requires b.x == a.x + a.w || b.y == a.y + a.h || a.x == b.x + b.w || a.y == b.y + b.h
    ensures !Intersects(a, b)
  {
  }

  /** The player at (x, y) catches a frog exactly when both coordinates of
      the frog are less than 30 away from the player's. */
  lemma CatchDistance(x: int, y: int, p: Point)
    ensures Intersects(PlayerBox(x, y), FrogBox(p))
        <==> -PlayerSize < p.x - x < PlayerSize && -PlayerSize < p.y - y < PlayerSize
  {
  }
}
