/** Small shared definitions used across the model. */
module Common {

  /** A value that may be absent, for lookups that may find nothing. */
  datatype Option<T> = None | Some(value: T)

  /** The source's integer compass: the value stored in an entity's direction field. */
  const FACING_UP := 0
  const FACING_LEFT := 1
  const FACING_DOWN := 2
  const FACING_RIGHT := 3

  /** Pixel size of one map tile, and of the whole 300 x 300 tile map. */
  const TILE := 48
  const MAP_TILES := 300
  const MAP_PIXELS := MAP_TILES * TILE

  /** The collision layer is three times finer than the tile grid; one collision cell is 16 px. */
  const COLLISION_CELLS := MAP_TILES * 3
  const CELL := 16

  /** A world position whose collision cell (x / 16, y / 16) lies inside the 900 x 900 layer. */
  predicate InMap(x: int, y: int)
  {
    0 <= x < MAP_PIXELS && 0 <= y < MAP_PIXELS
  }

  lemma InMapCell(x: int, y: int)
    requires InMap(x, y)
    ensures 0 <= x / CELL < COLLISION_CELLS && 0 <= y / CELL < COLLISION_CELLS
  {
  }
}
