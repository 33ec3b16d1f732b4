/**
 * The item manager: a table of named items (kept in the order they were added, which
 * is the order every scan over the table visits them), a two-slot inventory whose
 * slots hold "Nothing" or an item name, and the selected slot (0 for none, 1 or 2).
 * Picking up, using and dropping move items in and out of the world by rewriting
 * their position; an item taken out of the world is parked at x = -100000.
 */
module Items {
  import opened Common
  import opened Geometry

  /** The name an empty inventory slot holds, and the answer when nothing was got or dropped. */
  const NOTHING: string := "Nothing"
  /** The x an item is moved to when it leaves the world. */
  const REMOVED_X := -100000
  /** 50 px, squared: the reach for picking up and for putting out fires. */
  const REACH_SQ := 50 * 50
  /** The starting "nearest distance" of a pickup scan, squared. */
  const FAR_SQ := 99999999 * 99999999

  const EMPTY_BUCKET: string := "Empty_Bucket"
  const FILLED_BUCKET: string := "Filled_Bucket"

  /** The collision code of water, which the empty bucket can be filled from. */
  const WATER := 4

  /** One item: its name, world position, base box relative to that position, and whether it can be carried. */
  datatype Item = Item(name: string, x: int, y: int, baseBox: Rect, getable: bool)

  /** Squared distance from the player at (px, py) to the item. */
  function DistSq(it: Item, px: int, py: int): (d: int)
    ensures d >= 0
    ensures d == 0 <==> it.x == px && it.y == py
  {
    (px - it.x) * (px - it.x) + (py - it.y) * (py - it.y)
  }

  /** The item's base box in world coordinates. */
  function BaseBox(it: Item): Rect
  {
    Move(it.baseBox, it.x, it.y)
  }

  /** Item names are the keys of the table, so no two entries share one. */
  ghost predicate DistinctNames(items: seq<Item>)
  {
    forall i, j :: 0 <= i < j < |items| ==> items[i].name != items[j].name
  }

  /** The table entry under `name`, if any. */
  function IndexOf(items: seq<Item>, name: string): (r: Option<nat>)
    ensures r.Some? ==> r.value < |items| && items[r.value].name == name
    ensures r.None? ==> forall i :: 0 <= i < |items| ==> items[i].name != name
  {
    if items == [] then None
    else if items[0].name == name then Some(0)
    else match IndexOf(items[1..], name)
      case None => None
      case Some(k) => Some(k + 1)
  }

  /** With distinct names the entry under a name is the only one carrying it. */
  lemma IndexOfUnique(items: seq<Item>, i: int)
    requires DistinctNames(items) && 0 <= i < |items|
    ensures IndexOf(items, items[i].name) == Some(i)
  {
  }

  /** Item names that begin with "Fire" are fires. */
  predicate IsFire(name: string)
  {
    |name| >= 4 && name[..4] == "Fire"
  }

  // ---------------------------------------------------------------------------
  // Pickup: the nearest item
  // ---------------------------------------------------------------------------

  /** The squared distance an optional nearest item stands at, FAR_SQ when there is none. */
  function Reach(items: seq<Item>, r: Option<nat>, px: int, py: int): int
    requires r.Some? ==> r.value < |items|
  {
    if r.None? then FAR_SQ else DistSq(items[r.value], px, py)
  }

  /**
   * The scan of `pickup` over the first `n` items: an item replaces the current
   * nearest only when it is strictly nearer, so ties keep the earlier item.
   */
  function NearestOf(items: seq<Item>, px: int, py: int, n: nat): (r: Option<nat>)
    requires n <= |items|
    ensures r.Some? ==> r.value < n
  {
    if n == 0 then None
    else
      var prev := NearestOf(items, px, py, n - 1);
      if DistSq(items[n - 1], px, py) < Reach(items, prev, px, py) then Some(n - 1) else prev
  }

  /** Item `i` is the first among the first `n` at the smallest distance, and nearer than FAR_SQ. */
  ghost predicate FirstNearest(items: seq<Item>, px: int, py: int, n: nat, i: nat)
    requires n <= |items|
  {
    && i < n
    && DistSq(items[i], px, py) < FAR_SQ
    && (forall j :: 0 <= j < i ==> DistSq(items[j], px, py) > DistSq(items[i], px, py))
    && (forall j :: i < j < n ==> DistSq(items[j], px, py) >= DistSq(items[i], px, py))
  }

  /** The scan's answer is the first item at minimum distance, or nothing when every item is FAR_SQ away or more. */
  lemma {:induction false} NearestSound(items: seq<Item>, px: int, py: int, n: nat)
    requires n <= |items|
    ensures NearestOf(items, px, py, n).Some? ==>
              FirstNearest(items, px, py, n, NearestOf(items, px, py, n).value)
    ensures NearestOf(items, px, py, n).None? ==>
              forall j :: 0 <= j < n ==> DistSq(items[j], px, py) >= FAR_SQ
  {
    if n > 0 {
      var prev := NearestOf(items, px, py, n - 1);
      NearestSound(items, px, py, n - 1);
      var d := DistSq(items[n - 1], px, py);
      if d < Reach(items, prev, px, py) {
        forall j | 0 <= j < n - 1 ensures DistSq(items[j], px, py) > d {
          if prev.Some? && j < prev.value {
            assert DistSq(items[j], px, py) > DistSq(items[prev.value], px, py);
          }
        }
      }
    }
  }

  /** At most one item is the first at minimum distance. */
  lemma FirstNearestUnique(items: seq<Item>, px: int, py: int, n: nat, i: nat, k: nat)
    requires n <= |items|
    requires FirstNearest(items, px, py, n, i) && FirstNearest(items, px, py, n, k)
    ensures i == k
  {
  }

  /**
   * The scan finds exactly the first item at minimum distance, and finds nothing
   * exactly when every item is at least FAR_SQ away.
   */
  lemma NearestIsFirstMinimum(items: seq<Item>, px: int, py: int, n: nat)
    requires n <= |items|
    ensures NearestOf(items, px, py, n).None? <==>
              forall j :: 0 <= j < n ==> DistSq(items[j], px, py) >= FAR_SQ
    ensures forall i: nat :: NearestOf(items, px, py, n) == Some(i) <==> FirstNearest(items, px, py, n, i)
  {
    NearestSound(items, px, py, n);
    var r := NearestOf(items, px, py, n);
    forall i: nat | FirstNearest(items, px, py, n, i) ensures r == Some(i) {
      if r.Some? {
        FirstNearestUnique(items, px, py, n, i, r.value);
      } else {
        assert false;
      }
    }
  }

  // ---------------------------------------------------------------------------
  // Base-box collision
  // ---------------------------------------------------------------------------

  /** The first item, in table order, whose base box overlaps `box`. */
  function FirstCollision(items: seq<Item>, box: Rect): (r: Option<nat>)
    ensures r.Some? ==> r.value < |items| && Collide(BaseBox(items[r.value]), box)
    ensures r.Some? ==> forall j :: 0 <= j < r.value ==> !Collide(BaseBox(items[j]), box)
    ensures r.None? ==> forall j :: 0 <= j < |items| ==> !Collide(BaseBox(items[j]), box)
  {
    if items == [] then None
    else if Collide(BaseBox(items[0]), box) then Some(0)
    else match FirstCollision(items[1..], box)
      case None => None
      case Some(k) => Some(k + 1)
  }

  // ---------------------------------------------------------------------------
  // Using a filled bucket: putting out fires
  // ---------------------------------------------------------------------------

  /** Fires within reach of the player, which the water puts out. */
  predicate Doused(it: Item, px: int, py: int)
  {
    IsFire(it.name) && DistSq(it, px, py) < REACH_SQ
  }

  /** An item after the water: parked out of the world when it is a fire within reach. */
  function Splash(it: Item, px: int, py: int): (r: Item)
    ensures r.name == it.name && r.y == it.y && r.baseBox == it.baseBox && r.getable == it.getable
    ensures r.x == (if Doused(it, px, py) then REMOVED_X else it.x)
  {
    if Doused(it, px, py) then it.(x := REMOVED_X) else it
  }

  /** Water keeps the item names, so the table keeps its distinct keys. */
  lemma SplashKeepsNames(items: seq<Item>, s: seq<Item>, px: int, py: int)
    requires DistinctNames(items) && |s| == |items|
    requires forall j :: 0 <= j < |s| ==> s[j] == Splash(items[j], px, py)
    ensures DistinctNames(s)
  {
    assert forall j :: 0 <= j < |s| ==> s[j].name == items[j].name;
  }

  /** How many of the first `n` items the water reaches. */
  function DousedCount(items: seq<Item>, px: int, py: int, n: nat): (c: nat)
    requires n <= |items|
    ensures c <= n
    ensures c == 0 <==> forall j :: 0 <= j < n ==> !Doused(items[j], px, py)
  {
    if n == 0 then 0
    else DousedCount(items, px, py, n - 1) + (if Doused(items[n - 1], px, py) then 1 else 0)
  }

  /**
   * The scan of a filled bucket over the table: every fire within reach is parked
   * out of the world, everything else stays as it is; answers how many were parked.
   */
  method Pour(items: seq<Item>, px: int, py: int) returns (s: seq<Item>, count: nat)
    ensures |s| == |items|
    ensures forall j :: 0 <= j < |s| ==> s[j] == Splash(items[j], px, py)
    ensures count == DousedCount(items, px, py, |items|)
  {
    s := items;
    count := 0;
    var i := 0;
    while i < |s|
      invariant 0 <= i <= |s| == |items|
      invariant forall j :: 0 <= j < i ==> s[j] == Splash(items[j], px, py)
      invariant forall j :: i <= j < |s| ==> s[j] == items[j]
      invariant count == DousedCount(items, px, py, i)
    {
      var it := s[i];
      if IsFire(it.name) && DistSq(it, px, py) < REACH_SQ {
        count := count + 1;
        s := s[i := it.(x := REMOVED_X)];
      }
      i := i + 1;
    }
  }

  /** A parked item lies beyond reach of any player inside the map, so the water cannot reach it again. */
  lemma ParkedOutOfReach(it: Item, px: int, py: int)
    requires InMap(px, py) && it.x == REMOVED_X
    ensures !Doused(it, px, py)
    ensures DistSq(it, px, py) >= REACH_SQ
  {
    var dx := px - it.x;
    var dy := py - it.y;
    assert dx >= 50;
    assert dx * dx >= 50 * dx by { MulMono(dx, 50, dx); }
    assert 50 * dx >= 50 * 50 by { MulMono(50, 50, dx); }
    assert dy * dy >= 0;
  }

  lemma MulMono(k: int, a: int, b: int)
    requires k >= 0 && a <= b
    ensures k * a <= k * b
  {
  }

  // ---------------------------------------------------------------------------
  // Slot selection
  // ---------------------------------------------------------------------------

  /** Pressing the key of slot `k`: selects it, or deselects it when it was already selected. */
  function Toggled(slot: int, k: int): (r: int)
    requires k == 1 || k == 2
    ensures r == 0 || r == k
    ensures r == k <==> slot != k
  {
    if slot == k then 0 else k
  }

  // ---------------------------------------------------------------------------
  // Picking up and dropping, on the table and inventory as values
  // ---------------------------------------------------------------------------

  /** What a pickup or a drop answers (None for a failed table lookup) and the table and inventory it leaves. */
  datatype Outcome = Outcome(answer: Option<string>, items: seq<Item>, inventory: seq<string>)

  /** The pickup takes the scan's item: it can be carried, is within 50 px, and a slot is free. */
  predicate Takes(items: seq<Item>, inventory: seq<string>, px: int, py: int)
    requires |inventory| == 2
  {
    var n := NearestOf(items, px, py, |items|);
    && n.Some?
    && items[n.value].getable && DistSq(items[n.value], px, py) < REACH_SQ
    && (inventory[0] == NOTHING || inventory[1] == NOTHING)
  }

  /**
   * Key E on the table and inventory: the item taken goes into the first free slot
   * and is parked out of the world. When the scan found nothing the table is looked
   * up under "Nothing", which fails unless an item carries that name.
   */
  function PickupOutcome(items: seq<Item>, inventory: seq<string>, px: int, py: int): (r: Outcome)
    requires |inventory| == 2
    ensures r.answer.None? <==> NearestOf(items, px, py, |items|).None? && IndexOf(items, NOTHING).None?
    ensures !Takes(items, inventory, px, py) ==>
              && r.items == items && r.inventory == inventory
              && (r.answer.Some? ==> r.answer == Some(NOTHING))
    ensures Takes(items, inventory, px, py) ==>
              var k := NearestOf(items, px, py, |items|).value;
              && r.answer == Some(items[k].name)
              && r.items == items[k := items[k].(x := REMOVED_X)]
              && r.inventory == (if inventory[0] == NOTHING then [items[k].name, inventory[1]]
                                 else [inventory[0], items[k].name])
    ensures DistinctNames(items) ==> DistinctNames(r.items)
  {
    match NearestOf(items, px, py, |items|)
    case None =>
      Outcome(if IndexOf(items, NOTHING).Some? then Some(NOTHING) else None, items, inventory)
    case Some(k) =>
      var it := items[k];
      if !(it.getable && DistSq(it, px, py) < REACH_SQ) then Outcome(Some(NOTHING), items, inventory)
      else if inventory[0] == NOTHING then
        Outcome(Some(it.name), items[k := it.(x := REMOVED_X)], inventory[0 := it.name])
      else if inventory[1] == NOTHING then
        Outcome(Some(it.name), items[k := it.(x := REMOVED_X)], inventory[1 := it.name])
      else Outcome(Some(NOTHING), items, inventory)
  }

  /**
   * Key Q on the table and inventory: the item in the selected slot is put down at
   * (px, py + 20) and the slot empties. No selection or an empty slot answers
   * "Nothing"; a held name the table does not have fails.
   */
  function DropOutcome(items: seq<Item>, inventory: seq<string>, slot: int, px: int, py: int): (r: Outcome)
    requires |inventory| == 2 && 0 <= slot <= 2
    ensures slot == 0 || inventory[slot - 1] == NOTHING ==> r == Outcome(Some(NOTHING), items, inventory)
    ensures r.answer.None? <==> slot != 0 && inventory[slot - 1] != NOTHING && IndexOf(items, inventory[slot - 1]).None?
    ensures r.answer.None? ==> r.items == items && r.inventory == inventory
    ensures r.answer.Some? && r.answer.value != NOTHING ==>
              && slot != 0 && r.answer.value == inventory[slot - 1]
              && |r.inventory| == 2
              && r.inventory[slot - 1] == NOTHING && r.inventory[2 - slot] == inventory[2 - slot]
              && |r.items| == |items|
              && exists k :: 0 <= k < |items| && items[k].name == r.answer.value
                   && r.items[k] == items[k].(x := px, y := py + 20)
                   && forall j :: 0 <= j < |items| && j != k ==> r.items[j] == items[j]
    ensures DistinctNames(items) ==> DistinctNames(r.items)
  {
    if slot == 0 || inventory[slot - 1] == NOTHING then Outcome(Some(NOTHING), items, inventory)
    else
      var held := inventory[slot - 1];
      match IndexOf(items, held)
      case None => Outcome(None, items, inventory)
      case Some(k) => Outcome(Some(held), items[k := items[k].(x := px, y := py + 20)], inventory[slot - 1 := NOTHING])
  }

  // ---------------------------------------------------------------------------
  // The manager object
  // ---------------------------------------------------------------------------

  class ItemManager {
    var items: seq<Item>
    var inventory: seq<string>
    var selectedSlot: int

    ghost predicate Valid()
      reads this
    {
      && DistinctNames(items)
      && |inventory| == 2
      && 0 <= selectedSlot <= 2
    }

    /** An empty table, both slots empty, no slot selected. */
    constructor ()
      ensures Valid()
      ensures items == [] && inventory == [NOTHING, NOTHING] && selectedSlot == 0
    {
      items := [];
      inventory := [NOTHING, NOTHING];
      selectedSlot := 0;
    }

    /**
     * Stores `it` under its name: an existing entry with that name is replaced where
     * it stands, otherwise the item joins the end of the table.
     */
    method AddItem(it: Item)
      requires Valid()
      modifies this
      ensures Valid()
      ensures inventory == old(inventory) && selectedSlot == old(selectedSlot)
      ensures match IndexOf(old(items), it.name)
                case Some(k) => items == old(items)[k := it]
                case None => items == old(items) + [it]
    {
      match IndexOf(items, it.name)
      case Some(k) =>
        items := items[k := it];
      case None =>
        items := items + [it];
    }

    /** The name in the selected slot, "Nothing" when no slot is selected. */
    function SelectedItem(): (name: string)
      reads this
      requires Valid()
      ensures selectedSlot == 0 ==> name == NOTHING
      ensures selectedSlot != 0 ==> name == inventory[selectedSlot - 1]
    {
      if selectedSlot == 1 then inventory[0]
      else if selectedSlot == 2 then inventory[1]
      else NOTHING
    }

    /** Number key 1 or 2: toggles that slot's selection. */
    method SelectSlot(k: int)
      requires Valid() && (k == 1 || k == 2)
      modifies this
      ensures Valid()
      ensures selectedSlot == Toggled(old(selectedSlot), k)
      ensures items == old(items) && inventory == old(inventory)
    {
      if selectedSlot == k {
        selectedSlot := 0;
      } else {
        selectedSlot := k;
      }
    }

    /** The name of the first item whose base box overlaps `box`, or "" when none does. */
    method CollideWithBaseBox(box: Rect) returns (name: string)
      ensures FirstCollision(items, box).None? ==> name == ""
      ensures FirstCollision(items, box).Some? ==> name == items[FirstCollision(items, box).value].name
    {
      var i := 0;
      while i < |items|
        invariant 0 <= i <= |items|
        invariant forall j :: 0 <= j < i ==> !Collide(BaseBox(items[j]), box)
      {
        if Collide(BaseBox(items[i]), box) {
          assert FirstCollision(items, box) == Some(i) by {
            FirstCollisionAt(items, box, i);
          }
          return items[i].name;
        }
        i := i + 1;
      }
      return "";
    }

    /**
     * Key E: takes the nearest item when it can be carried, is within 50 px and a
     * slot is free (slot 1 before slot 2), parking it out of the world. Answers the
     * name taken, or "Nothing". When no item is nearer than the scan's starting
     * distance the table is looked up under "Nothing", which fails (None) unless an
     * item carries that name.
     */
    method Pickup(px: int, py: int) returns (got: Option<string>)
      requires Valid()
      modifies this
      ensures Valid() && selectedSlot == old(selectedSlot)
      ensures Outcome(got, items, inventory) == PickupOutcome(old(items), old(inventory), px, py)
    {
      var nearestName := NOTHING;
      var nearestDist := FAR_SQ;
      ghost var nearest: Option<nat> := None;
      var i := 0;
      while i < |items|
        invariant 0 <= i <= |items|
        invariant nearest == NearestOf(items, px, py, i)
        invariant nearestDist == Reach(items, nearest, px, py)
        invariant nearest.Some? ==> nearestName == items[nearest.value].name
        invariant nearest.None? ==> nearestName == NOTHING
      {
        var d := DistSq(items[i], px, py);
        if d < nearestDist {
          nearestDist := d;
          nearestName := items[i].name;
          nearest := Some(i);
        }
        i := i + 1;
      }
      var k := IndexOf(items, nearestName);
      if k.None? {
        return None;
      }
      if nearest.Some? {
        IndexOfUnique(items, nearest.value);
      }
      var it := items[k.value];
      if it.getable {
        got := Some(NOTHING);
        if nearestDist < REACH_SQ {
          if inventory[0] == NOTHING {
            inventory := inventory[0 := nearestName];
            items := items[k.value := it.(x := REMOVED_X)];
            got := Some(nearestName);
          } else if inventory[1] == NOTHING {
            inventory := inventory[1 := nearestName];
            items := items[k.value := it.(x := REMOVED_X)];
            got := Some(nearestName);
          }
        }
        assert DistinctNames(items) by {
          assert forall j :: 0 <= j < |items| ==> items[j].name == old(items)[j].name;
        }
      } else {
        got := Some(NOTHING);
      }
    }

    /**
     * Right mouse button: uses the item in the selected slot. An empty bucket over
     * water (collision code 4 under the player) becomes a filled bucket; a filled
     * bucket becomes empty and puts out every fire within 50 px. `collision` is the
     * world's collision layer (16-px cells), read only for the empty bucket, where the
     * player must stand inside the map. Answers how many fires went out.
     */
    method UseItem(px: int, py: int, collision: array2<int>) returns (firesPutOut: nat)
      requires Valid()
      requires collision.Length0 == COLLISION_CELLS && collision.Length1 == COLLISION_CELLS
      requires selectedSlot != 0 && inventory[selectedSlot - 1] == EMPTY_BUCKET ==> InMap(px, py)
      modifies this
      ensures Valid() && selectedSlot == old(selectedSlot)
      ensures var held := if selectedSlot == 0 then NOTHING else old(inventory)[selectedSlot - 1];
              if held == EMPTY_BUCKET && collision[py / CELL, px / CELL] == WATER then
                && inventory == old(inventory)[selectedSlot - 1 := FILLED_BUCKET]
                && items == old(items) && firesPutOut == 0
              else if selectedSlot != 0 && held == FILLED_BUCKET then
                && inventory == old(inventory)[selectedSlot - 1 := EMPTY_BUCKET]
                && |items| == |old(items)|
                && (forall j :: 0 <= j < |items| ==> items[j] == Splash(old(items)[j], px, py))
                && firesPutOut == DousedCount(old(items), px, py, |items|)
              else
                inventory == old(inventory) && items == old(items) && firesPutOut == 0
    {
      firesPutOut := 0;
      if selectedSlot == 0 {
        return;
      }
      var held := inventory[selectedSlot - 1];
      if held == NOTHING {
        return;
      }
      if held == EMPTY_BUCKET {
        InMapCell(px, py);
        if collision[py / CELL, px / CELL] == WATER {
          inventory := inventory[selectedSlot - 1 := FILLED_BUCKET];
        }
      } else if held == FILLED_BUCKET {
        inventory := inventory[selectedSlot - 1 := EMPTY_BUCKET];
        var poured;
        poured, firesPutOut := Pour(items, px, py);
        SplashKeepsNames(items, poured, px, py);
        items := poured;
      }
    }

    /**
     * Key Q: puts the item in the selected slot down at (px, py + 20) and empties the
     * slot, answering its name; answers "Nothing" and changes nothing when no slot is
     * selected or the selected slot is empty. Looking up a held name the table does
     * not have fails (None) before anything changes.
     */
    method Drop(px: int, py: int) returns (dropped: Option<string>)
      requires Valid()
      modifies this
      ensures Valid() && selectedSlot == old(selectedSlot)
      ensures Outcome(dropped, items, inventory) == DropOutcome(old(items), old(inventory), selectedSlot, px, py)
    {
      if selectedSlot == 0 {
        return Some(NOTHING);
      }
      if inventory[selectedSlot - 1] == NOTHING {
        return Some(NOTHING);
      }
      var name := inventory[selectedSlot - 1];
      var k := IndexOf(items, name);
      if k.None? {
        return None;
      }
      items := items[k.value := items[k.value].(x := px, y := py + 20)];
      inventory := inventory[selectedSlot - 1 := NOTHING];
      assert DistinctNames(items) by {
        assert forall j :: 0 <= j < |items| ==> items[j].name == old(items)[j].name;
      }
      return Some(name);
    }
  }

  /** An overlap at `i` with none before it is what the collision scan reports. */
  lemma {:induction false} FirstCollisionAt(items: seq<Item>, box: Rect, i: nat)
    requires i < |items| && Collide(BaseBox(items[i]), box)
    requires forall j :: 0 <= j < i ==> !Collide(BaseBox(items[j]), box)
    ensures FirstCollision(items, box) == Some(i)
  {
    if i > 0 {
      FirstCollisionAt(items[1..], box, i - 1);
    }
  }
}
