/**
 * Walking characters: non-player characters (villagers and monsters) and the
 * player. A step asks for a direction on each axis (-1, 0 or 1); the walker turns to
 * face it, works out the new position (clamped near the map edges), and moves there
 * only when no item's base box overlaps its translated foot box and the collision
 * cell under the new position is passable. The player also teleports on the four
 * teleport codes.
 */
module Entities {
  import opened Common
  import opened Geometry
  import opened Items
  import opened Scroll

  /** Pixels per step. */
  const NPC_STEP := 2
  const PLAYER_STEP := 3

  /** Moving right needs x at most this, moving down needs y at most this. */
  const RIGHT_LIMIT := MAP_PIXELS - 16
  const BOTTOM_LIMIT := MAP_PIXELS - 6
  /** Moving left needs x at least this, moving up needs y at least this. */
  const LEFT_LIMIT := 16
  const TOP_LIMIT := 78

  /** The animation frame shown when a walker bumps into a wall. */
  const BUMP_FRAME := 7

  /** Collision codes. */
  const OPEN := 0
  const TELEPORT_YELLOW_1 := 2
  const TELEPORT_PURPLE_1 := 3
  const TELEPORT_YELLOW_2 := 5
  const TELEPORT_PURPLE_2 := 6

  /** Within this many pixels of a target on an axis, a walker does not move along it. */
  const DEAD_ZONE := 8

  /** Villager movement types. */
  const PERSON_MOVE_NONE := 0
  const PERSON_MOVE_WANDER := 1
  const PERSON_MOVE_FOLLOW := 2

  /** Monster movement types. */
  const MONSTER_MOVE_NONE := 0
  const MONSTER_MOVE_RAILS := 1
  const MONSTER_MOVE_ATTACK := 2

  /** Rail codes: the direction a rail tile sends a monster. */
  const RAIL_LEFT := 1
  const RAIL_RIGHT := 2
  const RAIL_UP := 3
  const RAIL_DOWN := 4

  /** The timer a villager starts with, and the range it is redrawn from. */
  const WANDER_START := 60
  const WANDER_MIN := 60
  const WANDER_MAX := 90

  // ---------------------------------------------------------------------------
  // One step
  // ---------------------------------------------------------------------------

  /** The x a step of `step` pixels towards `dx` leads to; a step is refused near the edge. */
  function StepX(x: int, dx: int, step: nat): (r: int)
    ensures r == x || (dx == 1 && x <= RIGHT_LIMIT && r == x + step) || (dx == -1 && x >= LEFT_LIMIT && r == x - step)
    ensures (dx == 1 && x <= RIGHT_LIMIT) || (dx == -1 && x >= LEFT_LIMIT) ==> r != x || step == 0
  {
    if dx == 1 then (if x <= RIGHT_LIMIT then x + step else x)
    else if dx == -1 then (if x >= LEFT_LIMIT then x - step else x)
    else x
  }

  /** The y a step of `step` pixels towards `dy` leads to; a step is refused near the edge. */
  function StepY(y: int, dy: int, step: nat): (r: int)
    ensures r == y || (dy == 1 && y <= BOTTOM_LIMIT && r == y + step) || (dy == -1 && y >= TOP_LIMIT && r == y - step)
    ensures (dy == 1 && y <= BOTTOM_LIMIT) || (dy == -1 && y >= TOP_LIMIT) ==> r != y || step == 0
  {
    if dy == 1 then (if y <= BOTTOM_LIMIT then y + step else y)
    else if dy == -1 then (if y >= TOP_LIMIT then y - step else y)
    else y
  }

  /**
   * A step never leaves the map and its collision cell is inside the collision
   * layer, for any step up to 5 pixels (walkers use 2 and 3).
   */
  lemma StepStaysInMap(x: int, y: int, dx: int, dy: int, step: nat)
    requires InMap(x, y) && step <= 5
    ensures InMap(StepX(x, dx, step), StepY(y, dy, step))
    ensures 0 <= StepX(x, dx, step) / CELL < COLLISION_CELLS
    ensures 0 <= StepY(y, dy, step) / CELL < COLLISION_CELLS
  {
    InMapCell(StepX(x, dx, step), StepY(y, dy, step));
  }

  /** The facing after a step request: a vertical request wins over a horizontal one, no request keeps the facing. */
  function FacingAfter(facing: int, dx: int, dy: int): (f: int)
    ensures dy == 1 ==> f == FACING_DOWN
    ensures dy == -1 ==> f == FACING_UP
    ensures dy != 1 && dy != -1 && dx == 1 ==> f == FACING_RIGHT
    ensures dy != 1 && dy != -1 && dx == -1 ==> f == FACING_LEFT
    ensures dy != 1 && dy != -1 && dx != 1 && dx != -1 ==> f == facing
  {
    var g := if dx == 1 then FACING_RIGHT else if dx == -1 then FACING_LEFT else facing;
    if dy == 1 then FACING_DOWN else if dy == -1 then FACING_UP else g
  }

  /** The walking animation advances one of its eight frames on every third game frame. */
  function AniTick(ani: int, frame: nat): (r: int)
    requires 0 <= ani < 8
    ensures 0 <= r < 8
    ensures frame % 3 != 0 ==> r == ani
    ensures frame % 3 == 0 ==> r == (ani + 1) % 8 && r != ani
  {
    if frame % 3 == 0 then (ani + 1) % 8 else ani
  }

  /** Collision codes 0 (open ground) and 4 (water) can be walked on. */
  predicate Passable(code: int)
  {
    code == OPEN || code == WATER
  }

  /**
   * No item blocks a box: the item scan reports the empty name, which happens when
   * no base box overlaps it or the first overlapping item is itself named "".
   */
  predicate ClearOfItems(items: seq<Item>, box: Rect)
  {
    var hit := FirstCollision(items, box);
    hit.None? || items[hit.value].name == ""
  }

  // ---------------------------------------------------------------------------
  // Heading towards a target
  // ---------------------------------------------------------------------------

  /** -1, 0 or 1 for an offset beyond the dead zone to the left, within it, or beyond it to the right. */
  function Towards(d: int): (s: int)
    ensures s == 0 <==> -DEAD_ZONE <= d <= DEAD_ZONE
    ensures s == 1 <==> d > DEAD_ZONE
    ensures s == -1 <==> d < -DEAD_ZONE
  {
    if d > DEAD_ZONE then 1 else if d < -DEAD_ZONE then -1 else 0
  }

  /**
   * The step a walker takes towards a target (dx, dy) pixels away: never diagonal;
   * when both axes are beyond the dead zone, along y during the first half of every
   * 100 frames and along x during the second.
   */
  function Heading(dx: int, dy: int, frame: nat): (h: (int, int))
    ensures h.0 == 0 || h.1 == 0
    ensures h == (0, 0) <==> -DEAD_ZONE <= dx <= DEAD_ZONE && -DEAD_ZONE <= dy <= DEAD_ZONE
    ensures h.0 != 0 ==> h.0 == Towards(dx)
    ensures h.1 != 0 ==> h.1 == Towards(dy)
    ensures Towards(dx) == 0 || Towards(dy) == 0 ==> h == (Towards(dx), Towards(dy))
    ensures Towards(dx) != 0 && Towards(dy) != 0 ==>
              h == if frame % 100 < 50 then (0, Towards(dy)) else (Towards(dx), 0)
  {
    var x := Towards(dx);
    var y := Towards(dy);
    if x != 0 && y != 0 then
      (if frame % 100 < 50 then (0, y) else (x, 0))
    else (x, y)
  }

  /** The offset, in tiles, of the square behind a walker facing `facing`; none for an unknown facing. */
  function Behind(facing: int): (d: (int, int))
  {
    if facing == FACING_LEFT then (1, 0)
    else if facing == FACING_RIGHT then (-1, 0)
    else if facing == FACING_UP then (0, 1)
    else if facing == FACING_DOWN then (0, -1)
    else (0, 0)
  }

  /** A villager following the player heads for the square one tile behind the player. */
  function FollowTarget(px: int, py: int, facing: int): (t: (int, int))
    ensures 0 <= facing < 4 ==> Abs(t.0 - px) + Abs(t.1 - py) == TILE
  {
    (px + Behind(facing).0 * TILE, py + Behind(facing).1 * TILE)
  }

  /** An attacking monster heads for the square one tile in front of the player. */
  function AttackTarget(px: int, py: int, facing: int): (t: (int, int))
    ensures 0 <= facing < 4 ==> Abs(t.0 - px) + Abs(t.1 - py) == TILE
  {
    (px - Behind(facing).0 * TILE, py - Behind(facing).1 * TILE)
  }

  function Abs(v: int): nat
  {
    if v < 0 then -v else v
  }

  /** The follow and attack squares mirror each other through the player. */
  lemma FollowAttackMirror(px: int, py: int, facing: int)
    ensures FollowTarget(px, py, facing).0 + AttackTarget(px, py, facing).0 == 2 * px
    ensures FollowTarget(px, py, facing).1 + AttackTarget(px, py, facing).1 == 2 * py
  {
  }

  /** The attack square is the one the player walks into: a step of the player's facing moves towards it. */
  lemma AttackSquareIsAhead(px: int, py: int, facing: int)
    requires 0 <= facing < 4
    ensures var t := AttackTarget(px, py, facing);
            && (facing == FACING_UP ==> t == (px, py - TILE))
            && (facing == FACING_DOWN ==> t == (px, py + TILE))
            && (facing == FACING_LEFT ==> t == (px - TILE, py))
            && (facing == FACING_RIGHT ==> t == (px + TILE, py))
  {
  }

  /** The tile-unit offset a rail code points along; unknown codes point nowhere. */
  function RailOffset(rail: int): (int, int)
  {
    if rail == RAIL_LEFT then (-1, 0)
    else if rail == RAIL_RIGHT then (1, 0)
    else if rail == RAIL_UP then (0, -1)
    else if rail == RAIL_DOWN then (0, 1)
    else (0, 0)
  }

  /** The centre of the tile next to tile (tx, ty) along a rail code. */
  function RailTarget(tx: int, ty: int, rail: int): (t: (int, int))
    ensures t.0 % TILE == TILE / 2 && t.1 % TILE == TILE / 2
    ensures 1 <= rail <= 4 ==> Abs(t.0 / TILE - tx) + Abs(t.1 / TILE - ty) == 1
    ensures rail == RAIL_LEFT ==> t == ((tx - 1) * TILE + TILE / 2, ty * TILE + TILE / 2)
    ensures rail == RAIL_RIGHT ==> t == ((tx + 1) * TILE + TILE / 2, ty * TILE + TILE / 2)
    ensures rail == RAIL_UP ==> t == (tx * TILE + TILE / 2, (ty - 1) * TILE + TILE / 2)
    ensures rail == RAIL_DOWN ==> t == (tx * TILE + TILE / 2, (ty + 1) * TILE + TILE / 2)
    ensures !(1 <= rail <= 4) ==> t == (tx * TILE + TILE / 2, ty * TILE + TILE / 2)
  {
    ((tx + RailOffset(rail).0) * TILE + TILE / 2, (ty + RailOffset(rail).1) * TILE + TILE / 2)
  }

  /** A wandering villager's new heading for a roll 0..4: stand, up, left, down, right. */
  function WanderHeading(roll: int): (h: (int, int))
    ensures h == (0, 0) <==> roll == 0
    ensures Abs(h.0) + Abs(h.1) <= 1
    ensures roll != 0 ==> FacingAfter(FACING_DOWN, h.0, h.1) == (if 1 <= roll <= 3 then roll - 1 else FACING_RIGHT)
  {
    if roll == 0 then (0, 0)
    else if roll == 1 then (0, -1)
    else if roll == 2 then (-1, 0)
    else if roll == 3 then (0, 1)
    else (1, 0)
  }

  // ---------------------------------------------------------------------------
  // Teleports
  // ---------------------------------------------------------------------------

  /** Where a teleport puts the player: position and view offsets. */
  datatype Landing = Landing(x: int, y: int, xOffset: int, yOffset: int)

  /** The landing of a teleport code, none for any other code. */
  function Teleport(code: int): (l: Option<Landing>)
    ensures l.Some? <==> code in {TELEPORT_YELLOW_1, TELEPORT_PURPLE_1, TELEPORT_YELLOW_2, TELEPORT_PURPLE_2}
  {
    if code == TELEPORT_YELLOW_1 then Some(Landing(5232, 470, 98, 0))
    else if code == TELEPORT_PURPLE_1 then Some(Landing(1080, 1752, 12, 28))
    else if code == TELEPORT_YELLOW_2 then Some(Landing(108 * TILE, 100 * TILE + 20, 104, 97))
    else if code == TELEPORT_PURPLE_2 then Some(Landing(1080, 1752, 12, 28))
    else None
  }

  /**
   * Every landing is inside the map, its view offsets are in range, and the player
   * lands inside the view (between the scroll bands of the screen).
   */
  lemma TeleportLandsInView(code: int)
    requires Teleport(code).Some?
    ensures var l := Teleport(code).value;
            && InMap(l.x, l.y)
            && 0 <= l.xOffset <= MAX_X_OFFSET && 0 <= l.yOffset <= MAX_Y_OFFSET
            && 0 <= l.x - l.xOffset * TILE < VIEW_WIDTH * TILE
            && 0 <= l.y - l.yOffset * TILE < VIEW_HEIGHT * TILE
  {
  }

  // ---------------------------------------------------------------------------
  // Non-player characters
  // ---------------------------------------------------------------------------

  class Npc {
    var x: int
    var y: int
    const footBox: Rect
    var direction: int
    var aniCount: int
    var moveType: int

    ghost predicate Valid()
      reads this
    {
      InMap(x, y) && 0 <= direction < 4 && 0 <= aniCount < 8
    }

    constructor (x0: int, y0: int, box: Rect, facing: int, kind: int)
      requires InMap(x0, y0) && 0 <= facing < 4
      ensures Valid()
      ensures x == x0 && y == y0 && footBox == box && direction == facing && aniCount == 0 && moveType == kind
    {
      x, y := x0, y0;
      footBox := box;
      direction := facing;
      aniCount := 0;
      moveType := kind;
    }

    /**
     * One step of NPC_STEP pixels: turns, then moves only when no item blocks the
     * translated foot box and the collision cell is passable; a blocked cell shows
     * the bump frame, a blocking item leaves only the turn and the animation tick.
     */
    method Move(dx: int, dy: int, frame: nat, items: ItemManager, collision: array2<int>)
      requires Valid()
      requires collision.Length0 == COLLISION_CELLS && collision.Length1 == COLLISION_CELLS
      modifies this
      ensures Valid()
      ensures moveType == old(moveType)
      ensures direction == FacingAfter(old(direction), dx, dy)
      ensures var nx := StepX(old(x), dx, NPC_STEP);
              var ny := StepY(old(y), dy, NPC_STEP);
              if !ClearOfItems(items.items, Geometry.Move(footBox, nx, ny)) then
                x == old(x) && y == old(y) && aniCount == AniTick(old(aniCount), frame)
              else if Passable(collision[ny / CELL, nx / CELL]) then
                x == nx && y == ny && aniCount == AniTick(old(aniCount), frame)
              else
                x == old(x) && y == old(y) && aniCount == BUMP_FRAME
    {
      aniCount := AniTick(aniCount, frame);
      StepStaysInMap(x, y, dx, dy, NPC_STEP);
      var nx := StepX(x, dx, NPC_STEP);
      var ny := StepY(y, dy, NPC_STEP);
      direction := FacingAfter(direction, dx, dy);
      var hit := items.CollideWithBaseBox(Geometry.Move(footBox, nx, ny));
      if hit == "" {
        var code := collision[ny / CELL, nx / CELL];
        if code == OPEN || code == WATER {
          x, y := nx, ny;
        } else {
          aniCount := BUMP_FRAME;
        }
      }
    }

    /**
     * Heads for the target (tx, ty): no step inside the dead zone on both axes,
     * otherwise one non-diagonal step as `Heading` chooses.
     */
    method MoveTowardsTarget(tx: int, ty: int, frame: nat, items: ItemManager, collision: array2<int>)
      requires Valid()
      requires collision.Length0 == COLLISION_CELLS && collision.Length1 == COLLISION_CELLS
      modifies this
      ensures Valid()
      ensures moveType == old(moveType)
      ensures var h := Heading(tx - old(x), ty - old(y), frame);
              if h == (0, 0) then
                x == old(x) && y == old(y) && direction == old(direction) && aniCount == old(aniCount)
              else
                && direction == FacingAfter(old(direction), h.0, h.1)
                && var nx := StepX(old(x), h.0, NPC_STEP);
                   var ny := StepY(old(y), h.1, NPC_STEP);
                   if !ClearOfItems(items.items, Geometry.Move(footBox, nx, ny)) then
                     x == old(x) && y == old(y) && aniCount == AniTick(old(aniCount), frame)
                   else if Passable(collision[ny / CELL, nx / CELL]) then
                     x == nx && y == ny && aniCount == AniTick(old(aniCount), frame)
                   else
                     x == old(x) && y == old(y) && aniCount == BUMP_FRAME
    {
      var h := Heading(tx - x, ty - y, frame);
      if h != (0, 0) {
        Move(h.0, h.1, frame, items, collision);
      }
    }
  }

  /** A step moves a walker by at most one step length on each axis, and only along the axis it was sent along. */
  lemma StepBounded(x: int, y: int, dx: int, dy: int, step: nat)
    ensures Abs(StepX(x, dx, step) - x) <= step && Abs(StepY(y, dy, step) - y) <= step
    ensures dx == 0 ==> StepX(x, dx, step) == x
    ensures dy == 0 ==> StepY(y, dy, step) == y
  {
  }

  /** A villager: a character that can stand, wander at random, or follow the player. */
  class Person {
    const body: Npc
    var moveX: int
    var moveY: int
    var timer: int

    ghost predicate Valid()
      reads this, body
    {
      body.Valid() && 1 <= timer <= WANDER_MAX && Abs(moveX) + Abs(moveY) <= 1
    }

    constructor (x0: int, y0: int, box: Rect, facing: int, kind: int)
      requires InMap(x0, y0) && 0 <= facing < 4
      ensures Valid() && fresh(body)
      ensures body.x == x0 && body.y == y0 && body.footBox == box && body.direction == facing
      ensures body.aniCount == 0 && body.moveType == kind
      ensures moveX == 0 && moveY == 0 && timer == WANDER_START
    {
      body := new Npc(x0, y0, box, facing, kind);
      moveX, moveY := 0, 0;
      timer := WANDER_START;
    }

    /**
     * One frame of a villager. Wandering counts the timer down; when it runs out a
     * new timer `newTimer` (60..90) and a new heading from `roll` (0..4) are drawn,
     * and the villager steps along its heading unless it is standing. Following
     * heads for the square behind the player at (px, py) facing `facing`. Other
     * movement types stand still.
     */
    method Update(frame: nat, px: int, py: int, facing: int, newTimer: int, roll: int,
                  items: ItemManager, collision: array2<int>)
      requires Valid()
      requires collision.Length0 == COLLISION_CELLS && collision.Length1 == COLLISION_CELLS
      requires WANDER_MIN <= newTimer <= WANDER_MAX && 0 <= roll <= 4
      modifies this, body
      ensures Valid()
      ensures body.moveType == old(body.moveType)
      ensures body.moveType == PERSON_MOVE_WANDER ==>
                && timer == (if old(timer) == 1 then newTimer else old(timer) - 1)
                && (moveX, moveY) == (if old(timer) == 1 then WanderHeading(roll) else (old(moveX), old(moveY)))
                && ((moveX, moveY) == (0, 0) ==> body.x == old(body.x) && body.y == old(body.y)
                                                 && body.direction == old(body.direction))
                && ((moveX, moveY) != (0, 0) ==> body.direction == FacingAfter(old(body.direction), moveX, moveY))
      ensures body.moveType == PERSON_MOVE_FOLLOW ==>
                && timer == old(timer) && moveX == old(moveX) && moveY == old(moveY)
                && var t := FollowTarget(px, py, facing);
                   Heading(t.0 - old(body.x), t.1 - old(body.y), frame) == (0, 0) ==>
                     body.x == old(body.x) && body.y == old(body.y) && body.direction == old(body.direction)
      ensures body.moveType != PERSON_MOVE_WANDER && body.moveType != PERSON_MOVE_FOLLOW ==>
                && timer == old(timer) && moveX == old(moveX) && moveY == old(moveY)
                && body.x == old(body.x) && body.y == old(body.y)
                && body.direction == old(body.direction) && body.aniCount == old(body.aniCount)
    {
      if body.moveType == PERSON_MOVE_WANDER {
        timer := timer - 1;
        if timer == 0 {
          timer := newTimer;
          var h := WanderHeading(roll);
          moveX, moveY := h.0, h.1;
        }
        if moveX != 0 || moveY != 0 {
          body.Move(moveX, moveY, frame, items, collision);
        }
      } else if body.moveType == PERSON_MOVE_FOLLOW {
        var t := FollowTarget(px, py, facing);
        body.MoveTowardsTarget(t.0, t.1, frame, items, collision);
      }
    }
  }

  /** A monster: a character that rides rails or attacks the player. */
  class Monster {
    const body: Npc

    ghost predicate Valid()
      reads this, body
    {
      body.Valid()
    }

    constructor (x0: int, y0: int, box: Rect, facing: int, kind: int)
      requires InMap(x0, y0) && 0 <= facing < 4
      ensures Valid() && fresh(body)
      ensures body.x == x0 && body.y == y0 && body.footBox == box && body.direction == facing
      ensures body.aniCount == 0 && body.moveType == kind
    {
      body := new Npc(x0, y0, box, facing, kind);
    }

    /** The target a monster heads for this frame, if its movement type has one. */
    function Target(px: int, py: int, facing: int, rail: array2<int>): (t: Option<(int, int)>)
      reads this, body, rail
      requires body.Valid() && rail.Length0 == MAP_TILES && rail.Length1 == MAP_TILES
      ensures t.Some? <==> body.moveType == MONSTER_MOVE_ATTACK || body.moveType == MONSTER_MOVE_RAILS
      ensures body.moveType == MONSTER_MOVE_ATTACK ==> t == Some(AttackTarget(px, py, facing))
      ensures body.moveType == MONSTER_MOVE_RAILS ==>
                t == Some(RailTarget(body.x / TILE, body.y / TILE, rail[body.y / TILE, body.x / TILE]))
    {
      if body.moveType == MONSTER_MOVE_ATTACK then Some(AttackTarget(px, py, facing))
      else if body.moveType == MONSTER_MOVE_RAILS then
        Some(RailTarget(body.x / TILE, body.y / TILE, rail[body.y / TILE, body.x / TILE]))
      else None
    }

    /**
     * One frame of a monster: an attacking monster heads for the square in front of
     * the player, a rail monster for the centre of the tile its rail points to.
     */
    method Update(frame: nat, px: int, py: int, facing: int,
                  items: ItemManager, collision: array2<int>, rail: array2<int>)
      requires Valid()
      requires collision.Length0 == COLLISION_CELLS && collision.Length1 == COLLISION_CELLS
      requires rail.Length0 == MAP_TILES && rail.Length1 == MAP_TILES
      modifies body
      ensures Valid()
      ensures body.moveType == old(body.moveType)
      ensures old(Target(px, py, facing, rail)).None? ==>
                body.x == old(body.x) && body.y == old(body.y)
                && body.direction == old(body.direction) && body.aniCount == old(body.aniCount)
      ensures old(Target(px, py, facing, rail)).Some? ==>
                var t := old(Target(px, py, facing, rail)).value;
                Heading(t.0 - old(body.x), t.1 - old(body.y), frame) == (0, 0) ==>
                  body.x == old(body.x) && body.y == old(body.y) && body.direction == old(body.direction)
    {
      var t := Target(px, py, facing, rail);
      if t.Some? {
        body.MoveTowardsTarget(t.value.0, t.value.1, frame, items, collision);
      }
    }
  }

  // ---------------------------------------------------------------------------
  // The player
  // ---------------------------------------------------------------------------

  /** Sprite rows with the sword start 32 frames after those without. */
  const SWORD_OFFSET := 32

  class Player {
    var x: int
    var y: int
    const footBox: Rect
    var direction: int
    var aniCount: int
    var hasSword: bool
    var weaponOffset: int
    var screenX: int
    var screenY: int

    ghost predicate Valid()
      reads this
    {
      && InMap(x, y) && 0 <= direction < 4 && 0 <= aniCount < 8
      && weaponOffset == (if hasSword then SWORD_OFFSET else 0)
    }

    constructor (x0: int, y0: int, box: Rect, facing: int, cam: Camera)
      requires InMap(x0, y0) && 0 <= facing < 4
      ensures Valid()
      ensures x == x0 && y == y0 && footBox == box && direction == facing && aniCount == 0
      ensures !hasSword
      ensures screenX == x0 - cam.xOffset * TILE && screenY == y0 - cam.yOffset * TILE
    {
      x, y := x0, y0;
      footBox := box;
      direction := facing;
      aniCount := 0;
      hasSword := false;
      weaponOffset := 0;
      screenX := x0 - cam.xOffset * TILE;
      screenY := y0 - cam.yOffset * TILE;
    }

    /** Arms or disarms the player; the sprite rows follow. */
    method SetHasSword(armed: bool)
      requires Valid()
      modifies this
      ensures Valid()
      ensures hasSword == armed && weaponOffset == (if armed then SWORD_OFFSET else 0)
      ensures x == old(x) && y == old(y) && direction == old(direction) && aniCount == old(aniCount)
      ensures screenX == old(screenX) && screenY == old(screenY)
    {
      hasSword := armed;
      if hasSword {
        weaponOffset := SWORD_OFFSET;
      } else {
        weaponOffset := 0;
      }
    }

    /** The screen position drawing computes from the world position and the view offsets. */
    method UpdateScreenPosition(cam: Camera)
      modifies this
      ensures screenX == x - cam.xOffset * TILE && screenY == y - cam.yOffset * TILE
      ensures x == old(x) && y == old(y) && direction == old(direction) && aniCount == old(aniCount)
      ensures hasSword == old(hasSword) && weaponOffset == old(weaponOffset)
    {
      screenX := x - cam.xOffset * TILE;
      screenY := y - cam.yOffset * TILE;
    }

    /**
     * One step of PLAYER_STEP pixels: as for a non-player character, except that a
     * teleport code under the new position moves the player to the teleport's
     * landing and sets the view offsets to match.
     */
    method Move(dx: int, dy: int, frame: nat, items: ItemManager, collision: array2<int>, cam: Camera)
      requires Valid()
      requires collision.Length0 == COLLISION_CELLS && collision.Length1 == COLLISION_CELLS
      modifies this, cam
      ensures Valid()
      ensures hasSword == old(hasSword) && screenX == old(screenX) && screenY == old(screenY)
      ensures cam.xCounter == old(cam.xCounter) && cam.yCounter == old(cam.yCounter)
      ensures direction == FacingAfter(old(direction), dx, dy)
      ensures var nx := StepX(old(x), dx, PLAYER_STEP);
              var ny := StepY(old(y), dy, PLAYER_STEP);
              var code := collision[ny / CELL, nx / CELL];
              if !ClearOfItems(items.items, Geometry.Move(footBox, nx, ny)) then
                && x == old(x) && y == old(y) && aniCount == AniTick(old(aniCount), frame)
                && cam.xOffset == old(cam.xOffset) && cam.yOffset == old(cam.yOffset)
              else if Passable(code) then
                && x == nx && y == ny && aniCount == AniTick(old(aniCount), frame)
                && cam.xOffset == old(cam.xOffset) && cam.yOffset == old(cam.yOffset)
              else if Teleport(code).Some? then
                var l := Teleport(code).value;
                && x == l.x && y == l.y && aniCount == AniTick(old(aniCount), frame)
                && cam.xOffset == l.xOffset && cam.yOffset == l.yOffset
              else
                && x == old(x) && y == old(y) && aniCount == BUMP_FRAME
                && cam.xOffset == old(cam.xOffset) && cam.yOffset == old(cam.yOffset)
    {
      aniCount := AniTick(aniCount, frame);
      StepStaysInMap(x, y, dx, dy, PLAYER_STEP);
      var nx := StepX(x, dx, PLAYER_STEP);
      var ny := StepY(y, dy, PLAYER_STEP);
      direction := FacingAfter(direction, dx, dy);
      var hit := items.CollideWithBaseBox(Geometry.Move(footBox, nx, ny));
      if hit == "" {
        var code := collision[ny / CELL, nx / CELL];
        var landing := Teleport(code);
        if code == OPEN || code == WATER {
          x, y := nx, ny;
        } else if landing.Some? {
          TeleportLandsInView(code);
          x, y := landing.value.x, landing.value.y;
          cam.xOffset, cam.yOffset := landing.value.xOffset, landing.value.yOffset;
        } else {
          aniCount := BUMP_FRAME;
        }
      }
    }
  }
}
