/**
 * The per-frame game logic around the entities: the update step (view scrolling,
 * the player's movement keys, arming the scroll counters when the player nears the
 * edge of the view) and the key and mouse handlers for the inventory.
 */
module Game {
  import opened Common
  import opened Geometry
  import opened Items
  import opened Scroll
  import opened Entities

  /** Tiles a scroll moves the view: 12 across, 7 down. */
  const SCROLL_X_TILES := 12
  const SCROLL_Y_TILES := 7
  /** Screen bands (pixels) that trigger a scroll. */
  const RIGHT_BAND := 720
  const LEFT_BAND := 96
  const BOTTOM_BAND := 480
  const TOP_BAND := 96

  const SWORD: string := "Sword"

  function Min(a: int, b: int): int
  {
    if a < b then a else b
  }

  /** The step the held movement keys ask for: W, then S, then A, then D; none when no key is held. */
  function KeyStep(w: bool, s: bool, a: bool, d: bool): (h: (int, int))
    ensures h == (0, 0) <==> !w && !s && !a && !d
    ensures h.0 == 0 || h.1 == 0
    ensures w ==> h == (0, -1)
    ensures !w && s ==> h == (0, 1)
    ensures !w && !s && a ==> h == (-1, 0)
    ensures !w && !s && !a && d ==> h == (1, 0)
  {
    if w then (0, -1) else if s then (0, 1) else if a then (-1, 0) else if d then (1, 0) else (0, 0)
  }

  /**
   * The horizontal scroll armed from a settled view at offset `off` when the player
   * is drawn at screen x `sx`: up to 12 tiles right from the right band, up to 12
   * left from the left band, never past the edge of the map.
   */
  function ArmX(off: int, sx: int): (k: int)
    requires 0 <= off <= MAX_X_OFFSET
    ensures 0 <= off + k <= MAX_X_OFFSET
    ensures -SCROLL_X_TILES <= k <= SCROLL_X_TILES
    ensures k > 0 ==> sx >= RIGHT_BAND
    ensures k < 0 ==> sx <= LEFT_BAND
    ensures sx >= RIGHT_BAND ==> off + k == Min(off + SCROLL_X_TILES, MAX_X_OFFSET)
    ensures sx <= LEFT_BAND ==> off + k == if off < SCROLL_X_TILES then 0 else off - SCROLL_X_TILES
  {
    var right := if sx >= RIGHT_BAND then Min(SCROLL_X_TILES, MAX_X_OFFSET - off) else 0;
    if sx <= LEFT_BAND then right - Min(SCROLL_X_TILES, off) else right
  }

  /** The vertical counterpart of ArmX: up to 7 tiles down or up from the bottom or top band. */
  function ArmY(off: int, sy: int): (k: int)
    requires 0 <= off <= MAX_Y_OFFSET
    ensures 0 <= off + k <= MAX_Y_OFFSET
    ensures -SCROLL_Y_TILES <= k <= SCROLL_Y_TILES
    ensures k > 0 ==> sy >= BOTTOM_BAND
    ensures k < 0 ==> sy <= TOP_BAND
    ensures sy >= BOTTOM_BAND ==> off + k == Min(off + SCROLL_Y_TILES, MAX_Y_OFFSET)
    ensures sy <= TOP_BAND ==> off + k == if off < SCROLL_Y_TILES then 0 else off - SCROLL_Y_TILES
  {
    var down := if sy >= BOTTOM_BAND then Min(SCROLL_Y_TILES, MAX_Y_OFFSET - off) else 0;
    if sy <= TOP_BAND then down - Min(SCROLL_Y_TILES, off) else down
  }

  /**
   * One pending scroll step: exactly one counter (x before y) moves one step towards
   * zero and its offset moves one tile the same way. The map-edge check never stops
   * the view, because the place the scroll ends at lies inside the map; so that
   * place is kept.
   */
  method ScrollStep(cam: Camera)
    requires cam.Valid() && !cam.Settled()
    modifies cam
    ensures cam.Valid()
    ensures cam.xOffset + cam.xCounter == old(cam.xOffset + cam.xCounter)
    ensures cam.yOffset + cam.yCounter == old(cam.yOffset + cam.yCounter)
    ensures old(cam.xCounter) > 0 ==>
              && cam.xCounter == old(cam.xCounter) - 1 && cam.xOffset == old(cam.xOffset) + 1
              && cam.yCounter == old(cam.yCounter) && cam.yOffset == old(cam.yOffset)
    ensures old(cam.xCounter) < 0 ==>
              && cam.xCounter == old(cam.xCounter) + 1 && cam.xOffset == old(cam.xOffset) - 1
              && cam.yCounter == old(cam.yCounter) && cam.yOffset == old(cam.yOffset)
    ensures old(cam.xCounter) == 0 && old(cam.yCounter) > 0 ==>
              && cam.yCounter == old(cam.yCounter) - 1 && cam.yOffset == old(cam.yOffset) + 1
              && cam.xCounter == old(cam.xCounter) && cam.xOffset == old(cam.xOffset)
    ensures old(cam.xCounter) == 0 && old(cam.yCounter) < 0 ==>
              && cam.yCounter == old(cam.yCounter) + 1 && cam.yOffset == old(cam.yOffset) - 1
              && cam.xCounter == old(cam.xCounter) && cam.xOffset == old(cam.xOffset)
  {
    if cam.xCounter > 0 {
      cam.xCounter := cam.xCounter - 1;
      if cam.xOffset < MAX_X_OFFSET {
        cam.xOffset := cam.xOffset + 1;
      }
    } else if cam.xCounter < 0 {
      cam.xCounter := cam.xCounter + 1;
      if cam.xOffset > 0 {
        cam.xOffset := cam.xOffset - 1;
      }
    } else if cam.yCounter > 0 {
      cam.yCounter := cam.yCounter - 1;
      if cam.yOffset < MAX_Y_OFFSET {
        cam.yOffset := cam.yOffset + 1;
      }
    } else {
      cam.yCounter := cam.yCounter + 1;
      if cam.yOffset > 0 {
        cam.yOffset := cam.yOffset - 1;
      }
    }
  }

  /** Arms the scroll counters of a settled view from the player's screen position. */
  method ArmScroll(cam: Camera, sx: int, sy: int)
    requires cam.Valid() && cam.Settled()
    modifies cam
    ensures cam.Valid()
    ensures cam.xOffset == old(cam.xOffset) && cam.yOffset == old(cam.yOffset)
    ensures cam.xCounter == ArmX(cam.xOffset, sx) && cam.yCounter == ArmY(cam.yOffset, sy)
  {
    if sx >= RIGHT_BAND {
      cam.xCounter := cam.xCounter + Min(SCROLL_X_TILES, MAX_X_OFFSET - cam.xOffset);
    }
    if sx <= LEFT_BAND {
      cam.xCounter := cam.xCounter - Min(SCROLL_X_TILES, cam.xOffset);
    }
    if sy >= BOTTOM_BAND {
      cam.yCounter := cam.yCounter + Min(SCROLL_Y_TILES, MAX_Y_OFFSET - cam.yOffset);
    }
    if sy <= TOP_BAND {
      cam.yCounter := cam.yCounter - Min(SCROLL_Y_TILES, cam.yOffset);
    }
  }

  /**
   * One game update. While a scroll is pending, only the scroll advances. Otherwise
   * the held keys move the player, the counters are armed from the player's screen
   * position as last drawn, and the answer says the characters take their turn.
   */
  method Update(cam: Camera, player: Player, items: ItemManager, collision: array2<int>, frame: nat,
                w: bool, s: bool, a: bool, d: bool) returns (npcTurn: bool)
    requires cam.Valid() && player.Valid()
    requires collision.Length0 == COLLISION_CELLS && collision.Length1 == COLLISION_CELLS
    modifies cam, player
    ensures cam.Valid() && player.Valid()
    ensures npcTurn <==> old(cam.Settled())
    ensures !old(cam.Settled()) ==>
              && player.x == old(player.x) && player.y == old(player.y)
              && player.direction == old(player.direction) && player.aniCount == old(player.aniCount)
              && cam.xOffset + cam.xCounter == old(cam.xOffset + cam.xCounter)
              && cam.yOffset + cam.yCounter == old(cam.yOffset + cam.yCounter)
              && Abs(cam.xCounter) + Abs(cam.yCounter) == Abs(old(cam.xCounter)) + Abs(old(cam.yCounter)) - 1
    ensures old(cam.xCounter) > 0 ==>
              cam.xCounter == old(cam.xCounter) - 1 && cam.xOffset == old(cam.xOffset) + 1 && cam.yOffset == old(cam.yOffset)
    ensures old(cam.xCounter) < 0 ==>
              cam.xCounter == old(cam.xCounter) + 1 && cam.xOffset == old(cam.xOffset) - 1 && cam.yOffset == old(cam.yOffset)
    ensures old(cam.xCounter) == 0 && old(cam.yCounter) > 0 ==>
              cam.yCounter == old(cam.yCounter) - 1 && cam.yOffset == old(cam.yOffset) + 1 && cam.xOffset == old(cam.xOffset)
    ensures old(cam.xCounter) == 0 && old(cam.yCounter) < 0 ==>
              cam.yCounter == old(cam.yCounter) + 1 && cam.yOffset == old(cam.yOffset) - 1 && cam.xOffset == old(cam.xOffset)
    ensures old(cam.Settled()) && KeyStep(w, s, a, d) == (0, 0) ==>
              && player.x == old(player.x) && player.y == old(player.y)
              && player.direction == old(player.direction) && player.aniCount == old(player.aniCount)
              && cam.xOffset == old(cam.xOffset) && cam.yOffset == old(cam.yOffset)
    ensures old(cam.Settled()) && KeyStep(w, s, a, d) != (0, 0) ==>
              player.direction == FacingAfter(old(player.direction), KeyStep(w, s, a, d).0, KeyStep(w, s, a, d).1)
    ensures old(cam.Settled()) ==>
              cam.xCounter == ArmX(cam.xOffset, old(player.screenX)) && cam.yCounter == ArmY(cam.yOffset, old(player.screenY))
  {
    if !cam.Settled() {
      ScrollStep(cam);
      return false;
    }
    var h := KeyStep(w, s, a, d);
    if h != (0, 0) {
      player.Move(h.0, h.1, frame, items, collision, cam);
    }
    ArmScroll(cam, player.screenX, player.screenY);
    return true;
  }

  /**
   * The keys the handler reacts to: pygame's K_e, K_q, K_1 and K_2, as the handler
   * evidently means by `keys.E`, `keys.Q`, `keys.K_1` and `keys.K_2`.
   */
  datatype Key = PickUp | DropKey | Slot1 | Slot2 | OtherKey

  /**
   * The key and mouse handlers as written. The first test of each reads `keys.E` or
   * `mouse.RIGHT`, and game.py defines neither name (its only `keys` is a local of
   * the frame update). So every call raises NameError before anything changes, and
   * `None` is that error. OnKeyDown and OnMouseDown model the intended handlers.
   */
  function HandlerAsWritten(table: seq<Item>, inventory: seq<string>): (r: Outcome)
    ensures r.answer.None? && r.items == table && r.inventory == inventory
  {
    Outcome(None, table, inventory)
  }

  /** As written, E beside a carriable item leaves it in the world; the intended handler takes it. */
  lemma AsWrittenTakesNothing(it: Item, px: int, py: int)
    requires it.getable && it.x == px && it.y == py && it.name != NOTHING
    ensures HandlerAsWritten([it], [NOTHING, NOTHING]).inventory == [NOTHING, NOTHING]
    ensures PickupOutcome([it], [NOTHING, NOTHING], px, py).inventory == [it.name, NOTHING]
  {
    assert NearestOf([it], px, py, 0) == None;
    assert DistSq(it, px, py) == 0;
    assert NearestOf([it], px, py, 1) == Some(0);
  }

  /** As written, the right button with a filled bucket beside a fire leaves it burning; the intended one puts it out. */
  lemma AsWrittenPutsOutNoFire(it: Item, px: int, py: int)
    requires IsFire(it.name) && it.x == px && it.y == py
    ensures HandlerAsWritten([it], [FILLED_BUCKET, NOTHING]).items == [it]
    ensures DousedCount([it], px, py, 1) == 1 && Splash(it, px, py).x == REMOVED_X
  {
    assert DistSq(it, px, py) == 0;
    assert Doused(it, px, py);
  }

  /**
   * A key press. E picks up (its failure aborts the handler), Q drops (disarming the
   * player when the sword was dropped), 1 and 2 toggle their slot; then the player
   * is armed exactly when the selected slot holds the sword.
   */
  method OnKeyDown(key: Key, items: ItemManager, player: Player) returns (ok: bool)
    requires items.Valid() && player.Valid()
    modifies items, player
    ensures items.Valid() && player.Valid()
    ensures player.x == old(player.x) && player.y == old(player.y) && player.direction == old(player.direction)
    ensures key == Slot1 ==> items.selectedSlot == Toggled(old(items.selectedSlot), 1)
    ensures key == Slot2 ==> items.selectedSlot == Toggled(old(items.selectedSlot), 2)
    ensures key != Slot1 && key != Slot2 ==> items.selectedSlot == old(items.selectedSlot)
    ensures key != PickUp && key != DropKey ==> items.items == old(items.items) && items.inventory == old(items.inventory)
    ensures key == PickUp ==>
              var o := PickupOutcome(old(items.items), old(items.inventory), player.x, player.y);
              && (ok <==> o.answer.Some?)
              && (ok ==> items.items == o.items && items.inventory == o.inventory)
    ensures key == DropKey ==>
              var o := DropOutcome(old(items.items), old(items.inventory), old(items.selectedSlot), player.x, player.y);
              && (ok <==> o.answer.Some?)
              && (ok ==> items.items == o.items && items.inventory == o.inventory)
    ensures key != PickUp && key != DropKey ==> ok
    ensures ok ==> player.hasSword == (items.SelectedItem() == SWORD)
    ensures !ok ==> (key == PickUp || key == DropKey) && player.hasSword == old(player.hasSword)
    ensures !ok ==> items.items == old(items.items) && items.inventory == old(items.inventory)
  {
    if key == PickUp {
      var got := items.Pickup(player.x, player.y);
      if got.None? {
        return false;
      }
    }
    if key == DropKey {
      var dropped := items.Drop(player.x, player.y);
      if dropped.None? {
        return false;
      }
      if dropped.value == SWORD {
        player.SetHasSword(false);
      }
    }
    if key == Slot1 {
      items.SelectSlot(1);
    }
    if key == Slot2 {
      items.SelectSlot(2);
    }
    player.SetHasSword(items.SelectedItem() == SWORD);
    return true;
  }

  /** The right mouse button uses the selected item where the player stands. */
  method OnMouseDown(rightButton: bool, items: ItemManager, player: Player, collision: array2<int>)
    returns (firesPutOut: nat)
    requires items.Valid() && player.Valid()
    requires collision.Length0 == COLLISION_CELLS && collision.Length1 == COLLISION_CELLS
    modifies items
    ensures items.Valid() && items.selectedSlot == old(items.selectedSlot)
    ensures !rightButton ==> items.items == old(items.items) && items.inventory == old(items.inventory) && firesPutOut == 0
  {
    firesPutOut := 0;
    if rightButton {
      firesPutOut := items.UseItem(player.x, player.y, collision);
    }
  }
}
