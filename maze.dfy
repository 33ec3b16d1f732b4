/**
 * The maze on the map: a 23 x 21 grid of booleans (true = path, false = hedge),
 * carved by a depth-first walk with an explicit stack and random choices, opened at
 * an entrance and an exit, and then stamped into the map's base, detail and
 * collision layers with its top-left corner at tile (107, 85).
 */
module Maze {
  import opened Common

  const MAZE_WIDTH := 23
  const MAZE_HEIGHT := 21
  /** Where the maze's top-left cell lands on the map, in tiles. */
  const MAZE_LEFT := 107
  const MAZE_TOP := 85
  /** The cell the walk starts from. */
  const START_X := 1
  const START_Y := 5
  /** Every maze cell gets floor tile 1; hedge cells also get detail tile 80 and collision code 1. */
  const FLOOR_TILE := 1
  const HEDGE_TILE := 80
  const HEDGE_CODE := 1

  /** A cell the walk can stand on: both coordinates odd and inside the outer ring. */
  predicate WalkCell(c: (int, int))
  {
    1 <= c.0 <= MAZE_WIDTH - 2 && 1 <= c.1 <= MAZE_HEIGHT - 2 && c.0 % 2 == 1 && c.1 % 2 == 1
  }

  /** The four cells forced open: an entrance on the left edge and an exit on the top edge. */
  predicate Opening(x: int, y: int)
  {
    (x == 0 && y == 15) || (x == 1 && y == 15) || (x == 15 && y == 1) || (x == 15 && y == 0)
  }

  /** A cell on the outer ring of the grid. */
  predicate OnRing(x: int, y: int)
  {
    x == 0 || x == MAZE_WIDTH - 1 || y == 0 || y == MAZE_HEIGHT - 1
  }

  /** Map tile (r, c) (row, column) lies under the maze. */
  predicate UnderMaze(r: int, c: int)
  {
    MAZE_TOP <= r < MAZE_TOP + MAZE_HEIGHT && MAZE_LEFT <= c < MAZE_LEFT + MAZE_WIDTH
  }

  /** The position of maze cell (x, y) in row-major order: stamping handles cells in this order. */
  function CellIndex(x: int, y: int): int
  {
    y * MAZE_WIDTH + x
  }

  /**
   * Collision cell (r, c) is one of the block stamped for maze cell (x, y): three
   * rows from 3(y + 85) and five columns from 3(x + 107) - 1, so neighbouring blocks
   * overlap by two columns.
   */
  predicate Covers(x: int, y: int, r: int, c: int)
  {
    && (y + MAZE_TOP) * 3 <= r < (y + MAZE_TOP) * 3 + 3
    && (x + MAZE_LEFT) * 3 - 1 <= c < (x + MAZE_LEFT) * 3 + 4
  }

  /** Collision cell (r, c) is under the block of a hedge cell among the first `n` stamped. */
  ghost predicate HedgeCovered(maze: array2<bool>, n: int, r: int, c: int)
    reads maze
    requires maze.Length0 == MAZE_HEIGHT && maze.Length1 == MAZE_WIDTH
  {
    exists y, x :: 0 <= y < MAZE_HEIGHT && 0 <= x < MAZE_WIDTH && CellIndex(x, y) < n && !maze[y, x] && Covers(x, y, r, c)
  }

  class Map {
    const maze: array2<bool>

    ghost predicate Valid()
      reads this
    {
      maze.Length0 == MAZE_HEIGHT && maze.Length1 == MAZE_WIDTH
    }

    constructor ()
      ensures Valid() && fresh(maze)
    {
      maze := new bool[MAZE_HEIGHT, MAZE_WIDTH];
    }

    /**
     * Generates the maze and stamps it into the layers. Whatever the random choices,
     * the outer ring stays hedge except at the four forced openings; every maze cell
     * gets the floor tile; exactly the hedge cells get the hedge detail tile; every
     * collision cell under a hedge block becomes blocked and no other collision
     * cell changes; nothing outside the maze changes in the base and detail layers.
     */
    method GenerateMaze(base: array2<int>, detail: array2<int>, collision: array2<int>)
      requires Valid()
      requires base.Length0 == MAP_TILES && base.Length1 == MAP_TILES
      requires detail.Length0 == MAP_TILES && detail.Length1 == MAP_TILES
      requires collision.Length0 == COLLISION_CELLS && collision.Length1 == COLLISION_CELLS
      requires base != detail && base != collision && detail != collision
      modifies maze, base, detail, collision
      ensures forall y, x :: 0 <= y < MAZE_HEIGHT && 0 <= x < MAZE_WIDTH && OnRing(x, y) ==>
                (maze[y, x] <==> Opening(x, y))
      ensures forall c {:trigger WalkCell(c)} :: WalkCell(c) ==> maze[c.1, c.0]
      ensures forall r, c :: 0 <= r < MAP_TILES && 0 <= c < MAP_TILES ==>
                base[r, c] == if UnderMaze(r, c) then FLOOR_TILE else old(base[r, c])
      ensures forall r, c :: 0 <= r < MAP_TILES && 0 <= c < MAP_TILES ==>
                detail[r, c] == if UnderMaze(r, c) && !maze[r - MAZE_TOP, c - MAZE_LEFT] then HEDGE_TILE
                                else old(detail[r, c])
      ensures forall y, x, r, c :: 0 <= y < MAZE_HEIGHT && 0 <= x < MAZE_WIDTH && !maze[y, x] && Covers(x, y, r, c) ==>
                0 <= r < COLLISION_CELLS && 0 <= c < COLLISION_CELLS && collision[r, c] == HEDGE_CODE
      ensures forall r, c ::
                0 <= r < COLLISION_CELLS && 0 <= c < COLLISION_CELLS && !HedgeCovered(maze, MAZE_HEIGHT * MAZE_WIDTH, r, c)
                ==> collision[r, c] == old(collision[r, c])
    {
      Clear();
      Carve();
      maze[15, 0] := true;
      maze[15, 1] := true;
      maze[1, 15] := true;
      maze[0, 15] := true;
      Stamp(base, detail, collision);
    }

    /** Every cell becomes hedge. */
    method Clear()
      requires Valid()
      modifies maze
      ensures forall y, x :: 0 <= y < MAZE_HEIGHT && 0 <= x < MAZE_WIDTH ==> !maze[y, x]
    {
      for y := 0 to MAZE_HEIGHT
        invariant forall y', x :: 0 <= y' < y && 0 <= x < MAZE_WIDTH ==> !maze[y', x]
      {
        for x := 0 to MAZE_WIDTH
          invariant forall y', x' :: 0 <= y' < y && 0 <= x' < MAZE_WIDTH ==> !maze[y', x']
          invariant forall x' :: 0 <= x' < x ==> !maze[y, x']
        {
          maze[y, x] := false;
        }
      }
    }

    /**
     * The depth-first walk. The start cell is written false, as hedge, so the walk
     * may later carve into it again: the result need not be a perfect maze. The walk
     * ends for any choices, since every carve turns one hedge walk cell into path.
     * It only ever opens cells inside the outer ring, and when it ends every walk
     * cell is path: a cell leaves the stack for good only when no walk cell next to
     * it is still hedge.
     */
    method Carve()
      requires Valid()
      requires forall y, x :: 0 <= y < MAZE_HEIGHT && 0 <= x < MAZE_WIDTH ==> !maze[y, x]
      modifies maze
      ensures forall y, x :: 0 <= y < MAZE_HEIGHT && 0 <= x < MAZE_WIDTH && maze[y, x] ==> !OnRing(x, y)
      ensures forall c {:trigger WalkCell(c)} :: WalkCell(c) ==> maze[c.1, c.0]
    {
      maze[START_Y, START_X] := false;
      var stack: seq<(int, int)> := [(START_X, START_Y)];
      ghost var hedge: set<(int, int)> := set x, y | 0 <= x < MAZE_WIDTH && 0 <= y < MAZE_HEIGHT :: (x, y);
      while |stack| != 0
        invariant CarveInvariant(stack, hedge)
        decreases |hedge|, |stack|
      {
        stack, hedge := CarveStep(stack, hedge);
      }
      AllWalkCellsOpen();
    }

    /** The walk has stood on this walk cell: it is path, or it is the start cell. */
    ghost predicate Visited(c: (int, int))
      reads this, maze
      requires Valid() && WalkCell(c)
    {
      maze[c.1, c.0] || c == (START_X, START_Y)
    }

    /** No walk cell two steps from walk cell c is still hedge: the walk has nowhere left to go from c. */
    ghost predicate Exhausted(c: (int, int))
      reads this, maze
      requires Valid() && WalkCell(c)
    {
      && (c.0 > 1 ==> maze[c.1, c.0 - 2])
      && (c.0 < MAZE_WIDTH - 2 ==> maze[c.1, c.0 + 2])
      && (c.1 > 1 ==> maze[c.1 - 2, c.0])
      && (c.1 < MAZE_HEIGHT - 2 ==> maze[c.1 + 2, c.0])
    }

    /**
     * Once the stack is empty every visited cell is exhausted; then, starting from
     * the start cell and spreading along rows and columns, every walk cell is path.
     */
    lemma AllWalkCellsOpen()
      requires Valid()
      requires forall c {:trigger WalkCell(c)} :: WalkCell(c) && Visited(c) ==> Exhausted(c)
      ensures forall c {:trigger WalkCell(c)} :: WalkCell(c) ==> maze[c.1, c.0]
    {
      forall c | WalkCell(c) ensures maze[c.1, c.0] {
        if c.1 >= START_Y {
          ColumnDown(c.0, c.1);
        } else {
          ColumnUp(c.0, c.1);
        }
      }
    }

    /** Along the start row, every walk cell is path. */
    lemma {:induction false} RowOpen(x: int)
      requires Valid()
      requires forall c {:trigger WalkCell(c)} :: WalkCell(c) && Visited(c) ==> Exhausted(c)
      requires WalkCell((x, START_Y))
      ensures maze[START_Y, x]
      decreases x
    {
      assert WalkCell((START_X, START_Y));
      if x == START_X {
        assert WalkCell((START_X + 2, START_Y));
      } else if x > START_X + 2 {
        RowOpen(x - 2);
        assert WalkCell((x - 2, START_Y));
      }
    }

    /** Down each column from the start row, every walk cell is path. */
    lemma {:induction false} ColumnDown(x: int, y: int)
      requires Valid()
      requires forall c {:trigger WalkCell(c)} :: WalkCell(c) && Visited(c) ==> Exhausted(c)
      requires WalkCell((x, y)) && y >= START_Y
      ensures maze[y, x]
      decreases y
    {
      if y == START_Y {
        RowOpen(x);
      } else {
        ColumnDown(x, y - 2);
        assert WalkCell((x, y - 2));
      }
    }

    /** Up each column from the start row, every walk cell is path. */
    lemma {:induction false} ColumnUp(x: int, y: int)
      requires Valid()
      requires forall c {:trigger WalkCell(c)} :: WalkCell(c) && Visited(c) ==> Exhausted(c)
      requires WalkCell((x, y)) && y <= START_Y
      ensures maze[y, x]
      decreases START_Y - y
    {
      if y == START_Y {
        RowOpen(x);
      } else {
        ColumnUp(x, y + 2);
        assert WalkCell((x, y + 2));
      }
    }

    /**
     * What the walk keeps: the stack holds walk cells, path cells stay off the outer
     * ring, and every walk cell still hedge is in `hedge`, the cells the walk can
     * still carve into (which bounds how long it runs).
     */
    ghost predicate CarveInvariant(stack: seq<(int, int)>, hedge: set<(int, int)>)
      reads this, maze
      requires Valid()
    {
      && (forall k :: 0 <= k < |stack| ==> WalkCell(stack[k]))
      && (forall y, x :: 0 <= y < MAZE_HEIGHT && 0 <= x < MAZE_WIDTH && maze[y, x] ==> !OnRing(x, y))
      && (forall c {:trigger WalkCell(c)} :: WalkCell(c) && !maze[c.1, c.0] ==> c in hedge)
      && (forall c {:trigger WalkCell(c)} :: WalkCell(c) && Visited(c) && c !in stack ==> Exhausted(c))
    }

    /**
     * One turn of the walk: pop a cell; if it has hedge neighbours two steps away,
     * push it back, carve to one of them (chosen arbitrarily) and push that one.
     */
    method CarveStep(stack: seq<(int, int)>, ghost hedge: set<(int, int)>)
      returns (stack': seq<(int, int)>, ghost hedge': set<(int, int)>)
      requires Valid() && |stack| != 0 && CarveInvariant(stack, hedge)
      modifies maze
      ensures CarveInvariant(stack', hedge')
      ensures |hedge'| < |hedge| || (hedge' == hedge && |stack'| < |stack|)
    {
      var cell := stack[|stack| - 1];
      assert WalkCell(cell);
      var mx, my := cell.0, cell.1;
      stack' := stack[..|stack| - 1];
      hedge' := hedge;
      var neighbours := Neighbours(mx, my);
      if |neighbours| != 0 {
        assert neighbours[0] in neighbours;
        var d :| d in neighbours;
        CarveTarget(mx, my, d);
        var target := (mx + d.0 + d.0, my + d.1 + d.1);
        stack' := stack' + [cell, target];
        hedge' := CarveTo(mx, my, d, hedge);
        forall c | WalkCell(c) && Visited(c) && c !in stack' ensures Exhausted(c) {
          assert c !in stack by {
            assert stack == stack[..|stack| - 1] + [cell];
          }
          assert old(Visited(c));
          assert old(Exhausted(c));
        }
      } else {
        forall c | WalkCell(c) && Visited(c) && c !in stack' ensures Exhausted(c) {
          if c == cell {
            assert (-1, 0) !in neighbours && (1, 0) !in neighbours;
            assert (0, -1) !in neighbours && (0, 1) !in neighbours;
          } else {
            assert stack == stack' + [cell];
          }
        }
      }
    }

    /** Carves from walk cell (mx, my) towards d, keeping the invariant on the grid; the target leaves `hedge`. */
    method CarveTo(mx: int, my: int, d: (int, int), ghost hedge: set<(int, int)>) returns (ghost hedge': set<(int, int)>)
      requires Valid() && WalkCell((mx, my)) && CanCarve(mx, my, d)
      requires forall y, x :: 0 <= y < MAZE_HEIGHT && 0 <= x < MAZE_WIDTH && maze[y, x] ==> !OnRing(x, y)
      requires forall c {:trigger WalkCell(c)} :: WalkCell(c) && !maze[c.1, c.0] ==> c in hedge
      modifies maze
      ensures forall y, x :: 0 <= y < MAZE_HEIGHT && 0 <= x < MAZE_WIDTH && maze[y, x] ==> !OnRing(x, y)
      ensures forall c {:trigger WalkCell(c)} :: WalkCell(c) && !maze[c.1, c.0] ==> c in hedge'
      ensures |hedge'| < |hedge|
      ensures maze[my + d.1 + d.1, mx + d.0 + d.0]
      ensures forall y, x :: 0 <= y < MAZE_HEIGHT && 0 <= x < MAZE_WIDTH && old(maze[y, x]) ==> maze[y, x]
      ensures forall c {:trigger WalkCell(c)} ::
                WalkCell(c) && maze[c.1, c.0] && c != (mx + d.0 + d.0, my + d.1 + d.1) ==> old(maze[c.1, c.0])
    {
      CarveTarget(mx, my, d);
      var target := (mx + d.0 + d.0, my + d.1 + d.1);
      assert target in hedge;
      Open(mx, my, d.0, d.1);
      hedge' := hedge - {target};
      forall c | WalkCell(c) && !maze[c.1, c.0] ensures c in hedge' {
        assert !(c.0 == mx + d.0 && c.1 == my + d.1) && c != target;
        assert !old(maze[c.1, c.0]);
      }
    }

    /**
     * Direction d leads from walk cell (mx, my) to a walk cell two steps away that
     * is still hedge; the guards are the ones the walk tests before reading the grid.
     */
    ghost predicate CanCarve(mx: int, my: int, d: (int, int))
      reads this, maze
      requires Valid() && WalkCell((mx, my))
    {
      && ((d == (-1, 0) && mx > 1) || (d == (1, 0) && mx < MAZE_WIDTH - 2)
          || (d == (0, -1) && my > 1) || (d == (0, 1) && my < MAZE_HEIGHT - 2))
      && !maze[my + d.1 + d.1, mx + d.0 + d.0]
    }

    /** The directions the walk can carve in from (mx, my), in the order left, right, up, down. */
    function Neighbours(mx: int, my: int): (n: seq<(int, int)>)
      reads this, maze
      requires Valid() && WalkCell((mx, my))
      ensures forall d :: d in n <==> CanCarve(mx, my, d)
    {
      (if mx > 1 && maze[my, mx - 2] == false then [(-1, 0)] else [])
      + (if mx < MAZE_WIDTH - 2 && maze[my, mx + 2] == false then [(1, 0)] else [])
      + (if my > 1 && maze[my - 2, mx] == false then [(0, -1)] else [])
      + (if my < MAZE_HEIGHT - 2 && maze[my + 2, mx] == false then [(0, 1)] else [])
    }

    /** A carve leads to a walk cell through a wall cell that is neither a walk cell nor on the ring. */
    lemma CarveTarget(mx: int, my: int, d: (int, int))
      requires Valid() && WalkCell((mx, my)) && CanCarve(mx, my, d)
      ensures WalkCell((mx + d.0 + d.0, my + d.1 + d.1))
      ensures !OnRing(mx + d.0, my + d.1) && !WalkCell((mx + d.0, my + d.1))
    {
    }

    /** Carves from (mx, my) in direction (dx, dy): the wall cell and the cell beyond become path. */
    method Open(mx: int, my: int, dx: int, dy: int)
      requires Valid() && WalkCell((mx, my)) && CanCarve(mx, my, (dx, dy))
      modifies maze
      ensures maze[my + dy, mx + dx] && maze[my + dy + dy, mx + dx + dx]
      ensures forall y, x ::
                && 0 <= y < MAZE_HEIGHT && 0 <= x < MAZE_WIDTH
                && !(x == mx + dx && y == my + dy) && !(x == mx + dx + dx && y == my + dy + dy)
                ==> maze[y, x] == old(maze[y, x])
    {
      maze[my + dy, mx + dx] := true;
      maze[my + dy + dy, mx + dx + dx] := true;
    }

    /** Copies the maze into the layers, cell by cell in row-major order. */
    method Stamp(base: array2<int>, detail: array2<int>, collision: array2<int>)
      requires Valid()
      requires base.Length0 == MAP_TILES && base.Length1 == MAP_TILES
      requires detail.Length0 == MAP_TILES && detail.Length1 == MAP_TILES
      requires collision.Length0 == COLLISION_CELLS && collision.Length1 == COLLISION_CELLS
      requires base != detail && base != collision && detail != collision
      modifies base, detail, collision
      ensures forall r, c :: 0 <= r < MAP_TILES && 0 <= c < MAP_TILES ==>
                base[r, c] == if UnderMaze(r, c) then FLOOR_TILE else old(base[r, c])
      ensures forall r, c :: 0 <= r < MAP_TILES && 0 <= c < MAP_TILES ==>
                detail[r, c] == if UnderMaze(r, c) && !maze[r - MAZE_TOP, c - MAZE_LEFT] then HEDGE_TILE
                                else old(detail[r, c])
      ensures forall y, x, r, c :: 0 <= y < MAZE_HEIGHT && 0 <= x < MAZE_WIDTH && !maze[y, x] && Covers(x, y, r, c) ==>
                0 <= r < COLLISION_CELLS && 0 <= c < COLLISION_CELLS && collision[r, c] == HEDGE_CODE
      ensures forall r, c ::
                0 <= r < COLLISION_CELLS && 0 <= c < COLLISION_CELLS && !HedgeCovered(maze, MAZE_HEIGHT * MAZE_WIDTH, r, c)
                ==> collision[r, c] == old(collision[r, c])
    {
      for y := 0 to MAZE_HEIGHT
        invariant forall r, c :: 0 <= r < MAP_TILES && 0 <= c < MAP_TILES ==>
                    base[r, c] == if UnderMaze(r, c) && r - MAZE_TOP < y then FLOOR_TILE else old(base[r, c])
        invariant forall r, c :: 0 <= r < MAP_TILES && 0 <= c < MAP_TILES ==>
                    detail[r, c] == if UnderMaze(r, c) && r - MAZE_TOP < y && !maze[r - MAZE_TOP, c - MAZE_LEFT]
                                    then HEDGE_TILE else old(detail[r, c])
        invariant forall y', x', r, c ::
                    0 <= y' < y && 0 <= x' < MAZE_WIDTH && !maze[y', x'] && Covers(x', y', r, c)
                    ==> 0 <= r < COLLISION_CELLS && 0 <= c < COLLISION_CELLS && collision[r, c] == HEDGE_CODE
        invariant forall r, c ::
                    0 <= r < COLLISION_CELLS && 0 <= c < COLLISION_CELLS && !HedgeCovered(maze, CellIndex(0, y), r, c)
                    ==> collision[r, c] == old(collision[r, c])
      {
        for x := 0 to MAZE_WIDTH
          invariant forall r, c :: 0 <= r < MAP_TILES && 0 <= c < MAP_TILES ==>
                      base[r, c] == if UnderMaze(r, c) && CellIndex(c - MAZE_LEFT, r - MAZE_TOP) < CellIndex(x, y)
                                    then FLOOR_TILE else old(base[r, c])
          invariant forall r, c :: 0 <= r < MAP_TILES && 0 <= c < MAP_TILES ==>
                      detail[r, c] == if UnderMaze(r, c) && CellIndex(c - MAZE_LEFT, r - MAZE_TOP) < CellIndex(x, y)
                                         && !maze[r - MAZE_TOP, c - MAZE_LEFT]
                                      then HEDGE_TILE else old(detail[r, c])
          invariant forall y', x', r, c ::
                      0 <= y' < MAZE_HEIGHT && 0 <= x' < MAZE_WIDTH && CellIndex(x', y') < CellIndex(x, y)
                      && !maze[y', x'] && Covers(x', y', r, c)
                      ==> 0 <= r < COLLISION_CELLS && 0 <= c < COLLISION_CELLS && collision[r, c] == HEDGE_CODE
          invariant forall r, c ::
                      0 <= r < COLLISION_CELLS && 0 <= c < COLLISION_CELLS && !HedgeCovered(maze, CellIndex(x, y), r, c)
                      ==> collision[r, c] == old(collision[r, c])
        {
          StampCell(base, detail, collision, x, y);
          forall r, c | 0 <= r < COLLISION_CELLS && 0 <= c < COLLISION_CELLS
            ensures HedgeCovered(maze, CellIndex(x, y) + 1, r, c) <==>
                      HedgeCovered(maze, CellIndex(x, y), r, c) || (!maze[y, x] && Covers(x, y, r, c))
          {
            HedgeCoveredStep(maze, x, y, r, c);
          }
        }
      }
    }

    /**
     * Stamps maze cell (x, y): floor tile always; for a hedge cell also the hedge
     * detail tile and a 3 x 5 block of blocked collision cells.
     */
    method StampCell(base: array2<int>, detail: array2<int>, collision: array2<int>, x: int, y: int)
      requires Valid()
      requires 0 <= x < MAZE_WIDTH && 0 <= y < MAZE_HEIGHT
      requires base.Length0 == MAP_TILES && base.Length1 == MAP_TILES
      requires detail.Length0 == MAP_TILES && detail.Length1 == MAP_TILES
      requires collision.Length0 == COLLISION_CELLS && collision.Length1 == COLLISION_CELLS
      requires base != detail && base != collision && detail != collision
      modifies base, detail, collision
      ensures forall r, c :: 0 <= r < MAP_TILES && 0 <= c < MAP_TILES ==>
                base[r, c] == if r == y + MAZE_TOP && c == x + MAZE_LEFT then FLOOR_TILE else old(base[r, c])
      ensures forall r, c :: 0 <= r < MAP_TILES && 0 <= c < MAP_TILES ==>
                detail[r, c] == if r == y + MAZE_TOP && c == x + MAZE_LEFT && !maze[y, x] then HEDGE_TILE
                                else old(detail[r, c])
      ensures forall r, c :: 0 <= r < COLLISION_CELLS && 0 <= c < COLLISION_CELLS ==>
                collision[r, c] == if !maze[y, x] && Covers(x, y, r, c) then HEDGE_CODE else old(collision[r, c])
    {
      base[y + MAZE_TOP, x + MAZE_LEFT] := FLOOR_TILE;
      if !maze[y, x] {
        detail[y + MAZE_TOP, x + MAZE_LEFT] := HEDGE_TILE;
        Fill(collision, (y + MAZE_TOP) * 3, (x + MAZE_LEFT) * 3 - 1, 3, 5, HEDGE_CODE);
      }
    }
  }

  /** Adding the cell at index `n` to the stamped ones adds exactly its own block, when it is hedge. */
  lemma HedgeCoveredStep(maze: array2<bool>, x: int, y: int, r: int, c: int)
    requires maze.Length0 == MAZE_HEIGHT && maze.Length1 == MAZE_WIDTH
    requires 0 <= x < MAZE_WIDTH && 0 <= y < MAZE_HEIGHT
    ensures HedgeCovered(maze, CellIndex(x, y) + 1, r, c) <==>
              HedgeCovered(maze, CellIndex(x, y), r, c) || (!maze[y, x] && Covers(x, y, r, c))
  {
    if HedgeCovered(maze, CellIndex(x, y) + 1, r, c) {
      var y', x' :| 0 <= y' < MAZE_HEIGHT && 0 <= x' < MAZE_WIDTH && CellIndex(x', y') < CellIndex(x, y) + 1
                    && !maze[y', x'] && Covers(x', y', r, c);
      if CellIndex(x', y') == CellIndex(x, y) {
        assert y' == y && x' == x;
      }
    }
    if !maze[y, x] && Covers(x, y, r, c) {
      assert CellIndex(x, y) < CellIndex(x, y) + 1;
    }
  }

  /** The h x w block of `a` from (r0, c0) becomes v; nothing else changes. */
  method Fill(a: array2<int>, r0: int, c0: int, h: nat, w: nat, v: int)
    requires 0 <= r0 && r0 + h <= a.Length0 && 0 <= c0 && c0 + w <= a.Length1
    modifies a
    ensures forall r, c :: 0 <= r < a.Length0 && 0 <= c < a.Length1 ==>
              a[r, c] == if r0 <= r < r0 + h && c0 <= c < c0 + w then v else old(a[r, c])
  {
    for i := 0 to h
      invariant forall r, c :: 0 <= r < a.Length0 && 0 <= c < a.Length1 ==>
                  a[r, c] == if r0 <= r < r0 + i && c0 <= c < c0 + w then v else old(a[r, c])
    {
      for j := 0 to w
        invariant forall r, c :: 0 <= r < a.Length0 && 0 <= c < a.Length1 ==>
                    a[r, c] == if (r0 <= r < r0 + i && c0 <= c < c0 + w) || (r == r0 + i && c0 <= c < c0 + j) then v
                               else old(a[r, c])
      {
        a[r0 + i, c0 + j] := v;
      }
    }
  }
}
