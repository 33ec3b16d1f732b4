# A verified model of the adventure game's logic

`game.py` is a top-down pygame adventure game. The player walks a 300 × 300 tile
island, picks up and uses items, meets villagers and monsters, and walks through a
generated hedge maze. This project models in Dafny the integer game logic under the
rendering and input calls, and proves what that logic promises:

- **the depth-ordering scene** (`SceneTree`). It is a binary search tree kept in four
  parallel lists. Drawing it emits every object exactly once, back to front. Objects
  with equal y come out latest-added first.
- **the item manager** (`Items`). It holds a name → item table, a two-slot inventory and
  the selected slot. The model covers picking up the nearest item, dropping, the two
  buckets (filling one at water, pouring one on fires), the base-box collision scan and
  slot toggling.
- **walking** (`Entities`). Villagers and monsters take 2 px steps and the player takes
  3 px steps. Edge clamps, item and collision-cell blocking, the bump frame and the
  player's four teleports are included. So are the dead-zone heading towards a target
  and the follow, attack, rail and wander targets.
- **the maze generator** (`Maze`). It is a depth-first carve with an explicit stack and
  random choices, then stamped into the base, detail and collision layers.
- **the frame update and input handlers** (`Game`, `Scroll`). They cover view
  scrolling, the movement keys, arming the scroll counters, and the E/Q/1/2 keys and
  the right mouse button.
- **the map file's layer split** (`Layers`) and **the sprite-sheet arithmetic**
  (`Sprites`).

Objects whose fields the game updates in place are classes: `Scene`, `ItemManager`,
`Camera`, `Npc`, `Person`, `Monster`, `Player` and `Map`. Their methods carry `modifies`
clauses. Items, rectangles, landings and layer sets are values. The map layers are
`array2<int>` parameters:
- the collision layer is 900 × 900 cells of 16 px;
- the base, detail and rail layers are 300 × 300 tiles.

Randomness is a parameter or an arbitrary choice:
- the wander timer and direction are the parameters `newTimer` and `roll`;
- the maze's `random.choice` is a nondeterministic pick (`:|`).

Held keys and the mouse button are parameters too. Square roots are replaced by
squared integer distances: `sqrt(d) < 50` is `d < 2500`.

Where the code and its description disagree, the model follows the code. The code links
a key equal to a node's key to the node's left (`game.py:231`). Equal-y objects are
therefore drawn in reverse insertion order, not in insertion order.

## Model

| member | source | states |
|---|---|---|
| SceneTree.Scene.constructor | game.py:208-213 | a new scene has four empty lists |
| SceneTree.Scene.AddToScene | game.py:217-228 | appends the object and its key, and the lists become `Added` of the old ones; the scene stays a search tree over all nodes |
| SceneTree.Scene.Tree | game.py:230-245 | the recursive descent links the new node exactly at `LinkSite` (left child on `<=`, right child otherwise) and changes no other pointer |
| SceneTree.Scene.DrawTree | game.py:247-252 | emits the objects of the in-order walk of the subtree |
| SceneTree.Scene.Draw | game.py:254-259 | on a non-empty scene, emits every object exactly once in the reference depth order, then empties all four lists |
| SceneTree.LinkSite | game.py:230-245 | the node where the descent stops lies in the subtree it started from, and has a free child on the chosen side |
| SceneTree.Added | game.py:217-228 | the key list gains the new key at the end and keeps the old keys |
| SceneTree.AddedWellFormed | game.py:217-245 | adding a node keeps the lists linked, search-ordered and reaching every node from node 0 |
| SceneTree.LinkCorrect | game.py:230-245 | linking the new node where the descent puts it keeps each subtree on the path a search tree, and adds exactly the new node to it |
| SceneTree.WalkSorted | game.py:247-252 | the in-order walk of a search tree is strictly increasing in draw order |
| SceneTree.WalkCovers | game.py:247-252 | the in-order walk visits every node of the subtree |
| SceneTree.TraversalIsDepthOrder | game.py:247-259 | the walk from node 0 equals the reference insertion sort by (y, later first), which contains each node exactly once |
| SceneTree.TiesLatestFirst | game.py:231 | two nodes with equal y are drawn later-added first |
| SceneTree.BeforeStrictTotal | game.py:231 | the draw order (smaller y, then later index) is irreflexive, asymmetric, total and transitive |
| SceneTree.InsertSorted | game.py:231 | inserting a node into a depth-sorted sequence keeps it depth-sorted |
| SceneTree.DepthOrderSorted | game.py:247-259 | the reference order is depth-sorted |
| SceneTree.ExampleOrder | game.py:231 | keys 50, 10, 50, 30 are drawn as nodes 1, 3, 2, 0 |
| Geometry.Move | game.py:302-304 | translating a rectangle moves its corner and keeps its size |
| Geometry.MoveBack | game.py:302-304 | translating back undoes a translation |
| Geometry.CollideIffSharedPoint | game.py:358-362 | two rectangles collide exactly when some point lies strictly inside both |
| Geometry.CollideSymmetricAndShiftInvariant | game.py:358-362 | collision is symmetric and unchanged when both rectangles move together |
| Items.DistSq | game.py:297-300 | the squared distance is never negative and is zero exactly at the item's position |
| Items.IndexOf | game.py:333-334 | a table lookup by name finds an entry carrying that name, or reports that no entry carries it |
| Items.IndexOfUnique | game.py:333-334 | with distinct names, looking up an entry's name finds that entry |
| Items.NearestSound | game.py:367-377 | the pickup scan ends on the first item at minimum distance, or on none when every item is at least the starting distance away |
| Items.NearestIsFirstMinimum | game.py:367-377 | the scan finds item i exactly when i is the first item at minimum distance, and finds nothing exactly when no item is nearer than the starting distance |
| Items.FirstCollision | game.py:358-362 | finds the first item in table order whose base box overlaps the box; none before it overlaps, and none overlaps when it finds nothing |
| Items.ItemManager.CollideWithBaseBox | game.py:358-362 | the loop returns the name of `FirstCollision`'s item, or "" when none overlaps |
| Items.Splash | game.py:404-412 | water parks an item at x = -100000 exactly when it is a fire within 50 px, and changes nothing else |
| Items.SplashKeepsNames | game.py:404-412 | pouring keeps the table's names distinct |
| Items.DousedCount | game.py:404-412 | the count of fires put out is at most the table size, and is zero exactly when no fire is within reach |
| Items.Pour | game.py:404-412 | the loop leaves each item as `Splash` of the old one and counts exactly `DousedCount` fires |
| Items.ParkedOutOfReach | game.py:412 | an item parked at x = -100000 is beyond 50 px of any player inside the map, so water never reaches it again |
| Items.Toggled | game.py:1025-1035 | pressing a slot's key selects that slot exactly when it was not selected; otherwise no slot is selected |
| Items.ItemManager.constructor | game.py:326-331 | an empty table, two "Nothing" slots, no slot selected |
| Items.ItemManager.AddItem | game.py:333-334 | replaces the entry with the same name where it stands, or appends; names stay distinct |
| Items.ItemManager.SelectedItem | game.py:345-353 | the name in the selected slot, or "Nothing" when no slot is selected |
| Items.ItemManager.SelectSlot | game.py:1025-1035 | the selection becomes `Toggled` of the old one, and the table and inventory are unchanged |
| Items.PickupOutcome | game.py:364-391 | takes the scan's item only when it can be carried, is within 50 px and a slot is free. Slot 1 is filled before slot 2, the item is parked at x = -100000 and its name is returned. Every other case returns "Nothing" and changes nothing. The lookup fails (None) exactly when the scan found nothing and no item is named "Nothing". Table names stay distinct |
| Items.ItemManager.Pickup | game.py:364-391 | the answer, table and inventory are `PickupOutcome` of the old table and inventory; the selection is unchanged |
| Items.ItemManager.UseItem | game.py:393-418 | an empty bucket over water becomes a filled bucket. A filled bucket becomes empty and pours on the table, returning the fire count. Anything else changes nothing. The other slot and the selection never change |
| Items.DropOutcome | game.py:420-429 | with a held item, puts the first entry of that name at (x, y + 20), empties only the selected slot and returns its name. With no slot selected or an empty slot, returns "Nothing" and changes nothing. The lookup fails (None) with no change exactly when the held name is missing from the table |
| Items.ItemManager.Drop | game.py:420-429 | the answer, table and inventory are `DropOutcome` of the old table, inventory and selection; the selection is unchanged |
| Scroll.Camera.constructor | game.py:73-76 | the view starts at offsets (60, 84) with no pending scroll |
| Entities.StepX | game.py:499-506 | the new x is the old one, or one step right when x ≤ map width - 16, or one step left when x ≥ 16 |
| Entities.StepY | game.py:508-515 | the new y is the old one, or one step down when y ≤ map height - 6, or one step up when y ≥ 78 |
| Entities.StepStaysInMap | game.py:517-520 | from any in-map position a step of up to 5 px stays in the map, and its collision cell indices stay within 0..899 |
| Entities.StepBounded | game.py:499-515 | a step changes each coordinate by at most the step length, and only along a requested axis |
| Entities.FacingAfter | game.py:499-515 | the facing after a request: a vertical request overrides a horizontal one, and no request keeps the facing |
| Entities.AniTick | game.py:494-495 | the walking frame advances modulo 8 on every third frame and stays otherwise |
| Entities.Towards | game.py:537-546 | the axis direction is 0 exactly inside the 8 px dead zone, and otherwise has the sign of the offset |
| Entities.Heading | game.py:529-555 | never diagonal. No step exactly when both offsets are within 8 px. When both axes are needed, the step is along y while frame mod 100 < 50 and along x otherwise |
| Entities.FollowTarget | game.py:617-630 | a follower heads for a square one tile (48 px) from the player along one axis; that it is the square behind the player's facing is `FollowAttackMirror` with `AttackSquareIsAhead` |
| Entities.AttackTarget | game.py:658-671 | an attacker heads one tile from the player |
| Entities.FollowAttackMirror | game.py:617-671 | the follow and attack squares mirror each other through the player |
| Entities.AttackSquareIsAhead | game.py:658-671 | the attack square is the tile the player faces |
| Entities.RailTarget | game.py:675-690 | a rail monster heads for the centre of the tile the rail code names: left x - 1, right x + 1, up y - 1, down y + 1; its own tile for an unknown code |
| Entities.WanderHeading | game.py:596-612 | roll 0 stands, and rolls 1..4 give a unit heading up, left, down or right |
| Entities.Teleport | game.py:788-810 | codes 2, 3, 5 and 6 and no others have a landing |
| Entities.TeleportLandsInView | game.py:790-810 | every landing is in the map, its offsets are valid view offsets, and the player lands inside the view |
| Entities.Npc.constructor | game.py:453-464 | a character at its start position, facing, with animation frame 0 |
| Entities.Npc.Move | game.py:492-525 | turns as `FacingAfter` says. Moves to the step target only when no item blocks the translated foot box and the cell code is 0 or 4. A blocked cell shows the bump frame 7. A blocking item leaves only the turn and the animation tick |
| Entities.Npc.MoveTowardsTarget | game.py:528-555 | does nothing inside the dead zone; otherwise makes exactly the one step `Heading` chooses, as `Npc.Move` states it |
| Entities.Person.constructor | game.py:583-587 | a villager with no heading and timer 60 |
| Entities.Person.Update | game.py:589-632 | a wanderer counts its timer down. At zero it draws a new timer and heading and steps unless standing. A follower heads for the square behind the player. Other villagers stand still |
| Entities.Monster.constructor | game.py:652-653 | a monster at its start position |
| Entities.Monster.Target | game.py:655-692 | an attacker targets the attack square, a rail monster the rail target of its tile, and other monsters nothing |
| Entities.Monster.Update | game.py:655-692 | without a target the monster stands still; inside the dead zone of its target it does not move |
| Entities.Player.constructor | game.py:711-721 | the player starts unarmed, with its screen position from the view offsets |
| Entities.Player.SetHasSword | game.py:735-740 | arms or disarms the player, with sprite offset 32 exactly when armed |
| Entities.Player.UpdateScreenPosition | game.py:745-747 | the screen position is the world position minus the view offsets in pixels |
| Entities.Player.Move | game.py:753-812 | as `Npc.Move` with 3 px steps. Teleport codes 2, 3, 5 and 6 put the player and the view offsets at the landing. Other blocking codes keep the position and show frame 7 |
| Maze.Map.constructor | game.py:819-825 | a 21 × 23 grid |
| Maze.Map.GenerateMaze | game.py:840-891 | for any random choices, the outer ring stays hedge except at the four forced openings. Every maze cell gets floor tile 1 and exactly the hedge cells get detail 80. Every collision cell under a hedge block becomes 1, and no other layer cell changes. Every walk cell (both coordinates odd, inside the ring) is path |
| Maze.Map.Clear | game.py:841-843 | every cell becomes hedge |
| Maze.Map.Carve | game.py:845-870 | the walk ends for any choices, path cells never reach the outer ring, and when it ends every walk cell, the start cell included, is path |
| Maze.Map.CarveStep | game.py:851-870 | one pop-and-push turn keeps the walk invariant: every cell the walk has stood on and that is off the stack has no hedge walk cell two steps away. It either carves a hedge walk cell or shrinks the stack |
| Maze.Map.AllWalkCellsOpen | game.py:845-870 | when every cell the walk has stood on has no hedge walk cell two steps away, every walk cell is path: this spreads from the start cell (1, 5) along its row and then along each column |
| Maze.Map.CarveTo | game.py:866-869 | carving keeps the outer ring hedge and removes the target from the cells still to carve |
| Maze.Map.Neighbours | game.py:854-862 | lists exactly the directions whose guard holds and whose cell two steps away is hedge |
| Maze.Map.CarveTarget | game.py:854-869 | a carve reaches a walk cell through a wall cell off the ring |
| Maze.Map.Open | game.py:867-868 | opens exactly the wall cell and the cell beyond |
| Maze.Map.Stamp | game.py:882-891 | sets base, detail and collision to the stamping formulas, row by row, and leaves every cell outside them unchanged |
| Maze.Map.StampCell | game.py:884-891 | one cell: floor tile; for hedge also detail 80 and a 3 × 5 collision block from column 3(x + 107) - 1 |
| Maze.Fill | game.py:889-891 | a block of the layer becomes the value and nothing else changes |
| Maze.HedgeCoveredStep | game.py:882-891 | stamping one more cell adds exactly its own block to the covered cells when it is hedge |
| Game.KeyStep | game.py:1109-1116 | W, then S, then A, then D decide the single non-diagonal step; with no key held there is none |
| Game.ArmX | game.py:1123-1127 | the horizontal scroll armed from the right or left band keeps the end of the scroll in range and moves at most 12 tiles |
| Game.ArmY | game.py:1129-1133 | the vertical scroll armed from the bottom or top band keeps the end of the scroll in range and moves at most 7 tiles |
| Game.ScrollStep | game.py:1084-1106 | exactly one counter moves, x before y: a positive counter drops by one and its offset rises by one tile, a negative one rises by one and its offset drops by one tile, and the other axis is unchanged. The end of the scroll (offset + counter) is kept, so the offset bound check never stops the view |
| Game.ArmScroll | game.py:1121-1133 | the counters become `ArmX` and `ArmY` of the player's screen position |
| Game.Update | game.py:1079-1137 | a pending scroll advances as `ScrollStep` states (one counter one step towards 0, its offset one tile the same way) and nothing else happens: the player stays. Otherwise the held keys move the player, the counters are armed, and the characters take their turn. Offsets stay in range throughout |
| Game.OnKeyDown | game.py:1010-1040 | the intended handler: E leaves the table and inventory as `PickupOutcome` says, Q as `DropOutcome` says; a failed lookup ends the handler with nothing changed. 1 and 2 toggle their slot, and other keys leave the table and inventory. Afterwards the player is armed exactly when the selected slot holds the sword |
| Game.HandlerAsWritten | game.py:1010-1048 | as written, a key or mouse handler raises NameError before any change: the answer is the error and the table and inventory are unchanged |
| Game.AsWrittenTakesNothing | game.py:1010-1019 | E beside a carriable item: as written the inventory stays empty, while the intended handler puts the item in slot 1 |
| Game.AsWrittenPutsOutNoFire | game.py:1046-1048 | the right button with a filled bucket beside a fire: as written the table is unchanged, while the intended handler puts the fire out |
| Game.OnMouseDown | game.py:1046-1048 | the intended handler: the right button uses the selected item; any other button changes nothing |
| Layers.Section | game.py:901-926 | a section has the requested shape, and each entry is the matching entry of the file |
| Layers.SplitLayers | game.py:894-926 | the split succeeds exactly when the header has a width and a height, every section is present and long enough, and the size fits the map. It then gives h × w base, detail, top and rail layers and a 3h × 3w collision layer |
| Layers.SplitLayersReads | game.py:901-926 | each layer entry is read from its own section of the file |
| Layers.SplitSerialised | game.py:894-926 | reading back the file written from layers of any size up to the map gives the same layers |
| Sprites.SourceRect | game.py:194-198 | the sprite's source rectangle, as written: row n div across, column n mod down |
| Sprites.SheetCell | game.py:194-198 | the sprite's source rectangle with the column taken mod across |
| Sprites.SheetCellsDistinct | game.py:194-198 | numbered row by row, different sprites get different rectangles, all inside the sheet |
| Sprites.SquareSheetAgrees | game.py:194-198 | on square sheets, as every sheet in the game is, both computations agree |
| Sprites.NonSquareSheetCollides | game.py:194-198 | on a 4 × 2 sheet, sprites 0 and 2 get the same rectangle as written |

## Left out

- Rendering: all `draw` methods, `Display`, `GUIManager` messages, sprite blitting, menus and the main loop. They are pygame drawing and windowing.
- Frame pacing with `time.time`/`time.sleep` and the frames-per-second caption. They use the clock and floating point.
- File I/O in `Map.load`: `open` and `csv.reader`. Only the positional split of already parsed integer rows is modelled. The layers are returned as values of the sizes read, not written into the fixed global lists. The partial writes made before a read fails are not modelled.
- `random.randint` and `random.choice`. They are parameters or an arbitrary choice, not a generator.
- `NPCManager.update`, the loop over the villager and monster tables. Each character's `update` is modelled; `Game.Update` reports when the characters take their turn instead of holding both tables of objects.
- Maze.Map.GenerateMaze and Maze.Map.Carve: the source also keeps the opened cells connected. Each carve opens the wall beside the cell just popped, so every opened cell joins the region of the start cell, and that region reaches both openings. The model proves that every walk cell ends up path, but not that the passages connect. Separately, the start cell is written as hedge, so the walk can carve into it again and the maze can have a cycle; that does not affect connectivity.
- Game.Update: for a movement key it states the new facing and the armed counters. The new position is the one `Entities.Player.Move` states and is not restated.
- Entities.Person.Update: a follower's step is stated only through the dead zone (no move inside it). The step itself is `Entities.Npc.MoveTowardsTarget`'s contract, and a wanderer's step is `Entities.Npc.Move`'s.
- Entities.Monster.Update: as for `Person.Update`, the step itself is `Entities.Npc.MoveTowardsTarget`'s contract.
- Game.OnMouseDown: the button case is `Items.ItemManager.UseItem`'s contract and is not restated.
- Items.ItemManager.UseItem: the empty bucket reads the collision cell under the player, and the model requires the player inside the map. Python's negative list indices, which wrap around, are not modelled.
- Items.ItemManager.Pickup and Items.ItemManager.Drop: the `KeyError` of a missing table key is the `None` result, and the intended handler `Game.OnKeyDown` then returns at once with nothing changed. The handler as written never gets that far (see Findings). In the game nothing catches this exception (neither `on_key_down` nor the main loop has a handler), so it ends the whole program; that stop is not modelled. It cannot arise in play: the table is filled with every item at start-up and never emptied, so the scan always finds an item, and inventory names always come from the table.
- Items: an item is a value in the table, not a shared mutable object. Nothing else holds a reference to an item, so no aliasing is lost.
- The screen position `Game.Update` reads is the one last set by drawing (`Entities.Player.UpdateScreenPosition`). Moving does not update it.
- Floating-point `sqrt`. Every comparison of a distance is made on squared integers.

## Findings

| source | as written | input that shows it | evidently intended | confidence | as-written member | corrected member |
|---|---|---|---|---|---|---|
| game.py:196 | the column of a sprite is `tile_num % tiles_down` | a sheet 4 sprites across and 2 down: sprites 0 and 2 both get column 0, row 0 | the column is `tile_num % tiles_across`, so different sprites get different parts of the sheet | not executed; latent, because every sheet the game creates is square (10 × 10, 8 × 8, 15 × 15, 1 × 1) | Sprites.SourceRect, Sprites.NonSquareSheetCollides | Sprites.SheetCell, Sprites.SheetCellsDistinct |
| game.py:1012 | the key handler tests `keys.E`, `keys.Q`, `keys.K_1` and `keys.K_2`, but `keys` is not defined at module level. The imports are pygame, `pygame.locals`, csv, sys, os, time, `sqrt` and random, and the only `keys` is a local of `update`. So every key press raises NameError before anything changes, and nothing catches it | any key press | pygame's `K_e`, `K_q`, `K_1` and `K_2`, so that E picks up, Q drops, and 1 and 2 toggle the slots | not executed; from reading the text | Game.HandlerAsWritten, Game.AsWrittenTakesNothing | Game.OnKeyDown |
| game.py:1047 | the mouse handler tests `mouse.RIGHT`, and `mouse` is not defined at module level either, so every click raises NameError before anything changes | any mouse click | pygame's right button 3, so that the right button uses the selected item | not executed; from reading the text | Game.HandlerAsWritten, Game.AsWrittenPutsOutNoFire | Game.OnMouseDown |
