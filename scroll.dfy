/**
 * The scroll state of the map view: the offsets (in tiles) of the view's top-left
 * corner and the two scroll counters, positive to scroll right or down and negative
 * to scroll left or up, one tile per frame until the counter reaches zero.
 */
module Scroll {
  import opened Common

  /** The view is 17 tiles wide and 11 tiles high. */
  const VIEW_WIDTH := 17
  const VIEW_HEIGHT := 11
  /** The largest offsets that keep the view inside the map. */
  const MAX_X_OFFSET := MAP_TILES - VIEW_WIDTH
  const MAX_Y_OFFSET := MAP_TILES - VIEW_HEIGHT

  /** Offsets and counters at start-up. */
  const START_X_OFFSET := 60
  const START_Y_OFFSET := 84

  class Camera {
    var xOffset: int
    var yOffset: int
    var xCounter: int
    var yCounter: int

    /**
     * Both offsets lie inside the map, and so does the place each pending scroll
     * ends at (offset plus counter).
     */
    ghost predicate Valid()
      reads this
    {
      && 0 <= xOffset <= MAX_X_OFFSET && 0 <= xOffset + xCounter <= MAX_X_OFFSET
      && 0 <= yOffset <= MAX_Y_OFFSET && 0 <= yOffset + yCounter <= MAX_Y_OFFSET
    }

    constructor ()
      ensures Valid()
      ensures xOffset == START_X_OFFSET && yOffset == START_Y_OFFSET
      ensures xCounter == 0 && yCounter == 0
    {
      xOffset := START_X_OFFSET;
      yOffset := START_Y_OFFSET;
      xCounter := 0;
      yCounter := 0;
    }

    /** No scroll is pending. */
    predicate Settled()
      reads this
    {
      xCounter == 0 && yCounter == 0
    }
  }
}
