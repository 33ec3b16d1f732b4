/**
 * Integer rectangles as the game uses them: a foot box or an item's base box is a
 * rectangle relative to the owner's position, translated to world coordinates with
 * `move`, and two boxes block each other when they overlap (`colliderect`).
 */
module Geometry {

  /** A rectangle with top-left corner (x, y), width w and height h. */
  datatype Rect = Rect(x: int, y: int, w: int, h: int)

  /** The rectangle shifted by (dx, dy), the same size. */
  function Move(r: Rect, dx: int, dy: int): (m: Rect)
    ensures m.w == r.w && m.h == r.h
    ensures m.x - dx == r.x && m.y - dy == r.y
  {
    Rect(r.x + dx, r.y + dy, r.w, r.h)
  }

  /** A point inside a rectangle (left and top edges included, right and bottom excluded). */
  predicate Contains(r: Rect, px: int, py: int)
  {
    r.x <= px < r.x + r.w && r.y <= py < r.y + r.h
  }

  /**
   * Two non-empty rectangles overlap in a region of positive area; touching edges
   * do not count, and an empty rectangle collides with nothing.
   */
  predicate Collide(a: Rect, b: Rect)
  {
    && a.w > 0 && a.h > 0 && b.w > 0 && b.h > 0
    && a.x < b.x + b.w && b.x < a.x + a.w
    && a.y < b.y + b.h && b.y < a.y + a.h
  }

  /** Translating back undoes a translation. */
  lemma MoveBack(r: Rect, dx: int, dy: int)
    ensures Move(Move(r, dx, dy), -dx, -dy) == r
  {
  }

  /** Overlap means a shared point: the two rectangles collide exactly when some pixel lies in both. */
  lemma CollideIffSharedPoint(a: Rect, b: Rect)
    ensures Collide(a, b) <==> exists px, py :: Contains(a, px, py) && Contains(b, px, py)
  {
    if Collide(a, b) {
      var px := if a.x < b.x then b.x else a.x;
      var py := if a.y < b.y then b.y else a.y;
      assert Contains(a, px, py) && Contains(b, px, py);
    }
  }

  /** Collision is symmetric and unaffected by moving both boxes together. */
  lemma CollideSymmetricAndShiftInvariant(a: Rect, b: Rect, dx: int, dy: int)
    ensures Collide(a, b) == Collide(b, a)
    ensures Collide(Move(a, dx, dy), Move(b, dx, dy)) == Collide(a, b)
  {
  }
}
