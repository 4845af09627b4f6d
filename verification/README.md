# Framing table inventory — a Dafny model

This project models the tile entity of the Storage Drawers framing table
(`TileEntityFramingTable`): a fixed inventory of five slots (slot 0 for a
custom drawer or trim block, slots 1–3 for opaque material blocks, slot 4 the
output), the rule that decides which item each slot accepts, the optional
custom name, the sparse NBT form the table is saved and synchronised in, and
the render bounding box of the two-block table.

Layout:

- `wrappers.dfy` — `Option`, standing in for a nullable Java reference.
- `items.dfy` (module `Items`) — item stacks as values (item kind plus size),
  the block classes the table tells apart, and the slot-acceptance rule. The
  engine lookups it consumes (item → block, block + metadata → opaque cube) are
  a `BlockLookup` parameter.
- `inventory.dfy` (module `Inventory`) — the slot store as a sequence, with one
  function per inventory operation and the lemmas about them (no item is created
  or lost, removing is a full decrement, the stack limit is kept).
- `naming.dfy` (module `Naming`) — `hasCustomName` and `getName`.
- `nbt.dfy` (module `Nbt`) — the serialised document (`Items` list of
  `(Slot byte, stack)` entries plus an optional `CustomName`), what writing and
  reading make of it, and the write-then-read round trip.
- `bounds.dfy` (module `Bounds`) — `getRenderBoundingBox` as pure integer
  arithmetic over the block state and position.
- `tile.dfy` (module `Tile`) — class `FramingTable`: the slot array updated in
  place, the custom name, and a ghost counter of `markDirty` calls. Each method
  is proved against the functions of `Inventory` and `Nbt`.

The model follows the code where it is narrower than a general description of
the inventory: not every mutating operation marks the table dirty —
`decrStackSize` and `removeStackFromSlot` on an empty slot return nothing and
do not mark it (`Inventory.Decrement`, `Inventory.Remove`) — and `clear` empties
nothing (`Tile.FramingTable.Clear`).

## Model

| member | source | states |
|---|---|---|
| `Items.IsItemValidDrawer` | src/com/jaquadro/minecraft/storagedrawers/block/tile/TileEntityFramingTable.java:154-160 | accepts exactly the stacks whose item resolves to a custom drawer or custom trim block; a null stack is rejected |
| `Items.IsItemValidMaterial` | src/com/jaquadro/minecraft/storagedrawers/block/tile/TileEntityFramingTable.java:162-172 | rejects a null stack and an item with no block; otherwise accepts exactly when the block's state for the stack's metadata is an opaque cube |
| `Items.IsItemValidForSlot` | src/com/jaquadro/minecraft/storagedrawers/block/tile/TileEntityFramingTable.java:123-132 | slot 0 agrees with the drawer rule, slots 1–3 with the material rule, and slot 4 or any index outside 0..3 accepts nothing; nothing accepts a null stack |
| `Items.AcceptingSlots` | src/com/jaquadro/minecraft/storagedrawers/block/tile/TileEntityFramingTable.java:123-132 | reference definition: the set of slots a stack may enter is within {0,1,2,3} and empty for a null stack |
| `Items.IsItemValidForSlotMatchesAcceptingSlots` | src/com/jaquadro/minecraft/storagedrawers/block/tile/TileEntityFramingTable.java:123-132 | the dispatching rule accepts a slot exactly when that slot is in the reference set |
| `Items.MaterialSlotsAgree` | src/com/jaquadro/minecraft/storagedrawers/block/tile/TileEntityFramingTable.java:128-129 | the three material slots accept the same stacks |
| `Naming.HasCustomName` | src/com/jaquadro/minecraft/storagedrawers/block/tile/TileEntityFramingTable.java:85-88 | a name is custom exactly when it is set and non-empty |
| `Naming.GetName` | src/com/jaquadro/minecraft/storagedrawers/block/tile/TileEntityFramingTable.java:80-83 | returns the custom name verbatim when there is one, otherwise `storageDrawers.container.framingTable`; the result is never empty |
| `Inventory.EmptySlots` | src/com/jaquadro/minecraft/storagedrawers/block/tile/TileEntityFramingTable.java:22 | a freshly allocated slot array has the given length and every slot empty |
| `Inventory.Decrement` | src/com/jaquadro/minecraft/storagedrawers/block/tile/TileEntityFramingTable.java:37-56 | an empty slot gives nothing, changes nothing and marks nothing; otherwise the table is marked, the caller gets min(count, size) items of the slot's kind and the slot keeps the rest: the whole stack and an empty slot when count ≥ size, the same kind with size − count otherwise; other slots unchanged |
| `Inventory.DecrementConserves` | src/com/jaquadro/minecraft/storagedrawers/block/tile/TileEntityFramingTable.java:37-56 | the items left in the slots plus the items handed over equal the items held before |
| `Inventory.Remove` | src/com/jaquadro/minecraft/storagedrawers/block/tile/TileEntityFramingTable.java:58-68 | hands over the slot's previous contents and leaves the slot empty; other slots unchanged; marks dirty exactly when the slot was non-empty |
| `Inventory.RemoveConserves` | src/com/jaquadro/minecraft/storagedrawers/block/tile/TileEntityFramingTable.java:58-68 | removing a slot neither creates nor loses items |
| `Inventory.DecrementWholeIsRemove` | src/com/jaquadro/minecraft/storagedrawers/block/tile/TileEntityFramingTable.java:37-68 | decrementing by at least the slot's size is the same operation as removing the slot |
| `Inventory.RemoveTwice` | src/com/jaquadro/minecraft/storagedrawers/block/tile/TileEntityFramingTable.java:58-68 | a second removal from the same slot gives nothing and marks nothing |
| `Inventory.Clamp` | src/com/jaquadro/minecraft/storagedrawers/block/tile/TileEntityFramingTable.java:74-75 | keeps the stack's kind, keeps sizes up to the limit of 64 unchanged and cuts larger sizes to exactly 64 |
| `Inventory.Put` | src/com/jaquadro/minecraft/storagedrawers/block/tile/TileEntityFramingTable.java:71-78 | only the target slot changes; it holds nothing for a null stack, otherwise the stack's kind with size min(size, 64) |
| `Inventory.PutThenRemove` | src/com/jaquadro/minecraft/storagedrawers/block/tile/TileEntityFramingTable.java:58-78 | storing a stack and removing it hands back the clamped stack and leaves the slot empty |
| `Inventory.WithinLimitPreserved` | src/com/jaquadro/minecraft/storagedrawers/block/tile/TileEntityFramingTable.java:37-78 | storing, removing and decrementing by a non-negative count keep every stack within the limit of 64 |
| `Nbt.ByteCast` | src/com/jaquadro/minecraft/storagedrawers/block/tile/TileEntityFramingTable.java:201 | the `(byte)` cast agrees with its argument modulo 256 and is the identity on 0..127 |
| `Nbt.Entries` | src/com/jaquadro/minecraft/storagedrawers/block/tile/TileEntityFramingTable.java:197-205 | the written list has no more entries than there are slots (one entry per non-empty slot follows from `EntriesSound`, `EntriesAscending` and `EntriesComplete`) |
| `Nbt.EntriesSound` | src/com/jaquadro/minecraft/storagedrawers/block/tile/TileEntityFramingTable.java:198-204 | every written entry carries the index of a slot holding exactly that entry's stack |
| `Nbt.EntriesAscending` | src/com/jaquadro/minecraft/storagedrawers/block/tile/TileEntityFramingTable.java:198-204 | written entries are in strictly ascending slot order |
| `Nbt.EntriesComplete` | src/com/jaquadro/minecraft/storagedrawers/block/tile/TileEntityFramingTable.java:198-204 | every non-empty slot has an entry |
| `Nbt.WrittenName` | src/com/jaquadro/minecraft/storagedrawers/block/tile/TileEntityFramingTable.java:209-210 | `CustomName` is written exactly when the table has a custom name, and then verbatim |
| `Nbt.LoadEntries` | src/com/jaquadro/minecraft/storagedrawers/block/tile/TileEntityFramingTable.java:178-187 | reading keeps the number of slots of the array it fills |
| `Nbt.LoadEntriesLastWins` | src/com/jaquadro/minecraft/storagedrawers/block/tile/TileEntityFramingTable.java:181-187 | an in-range slot holds the stack of the last entry naming it, so a later duplicate overwrites an earlier one |
| `Nbt.LoadEntriesUntouched` | src/com/jaquadro/minecraft/storagedrawers/block/tile/TileEntityFramingTable.java:179-187 | a slot no entry names keeps its initial (empty) contents |
| `Nbt.LoadEntriesSkipsOutOfRange` | src/com/jaquadro/minecraft/storagedrawers/block/tile/TileEntityFramingTable.java:185-186 | an entry whose slot is below 0 or not below the slot count has no effect, wherever it stands in the list |
| `Nbt.Place` | src/com/jaquadro/minecraft/storagedrawers/block/tile/TileEntityFramingTable.java:185-186 | an entry with an in-range slot puts its stack in that slot; every other slot, and every slot for an out-of-range entry, is unchanged |
| `Nbt.LoadAppend` | src/com/jaquadro/minecraft/storagedrawers/block/tile/TileEntityFramingTable.java:181-187 | reading a list in two parts is reading the second part over the slots the first part produced |
| `Nbt.ReadName` | src/com/jaquadro/minecraft/storagedrawers/block/tile/TileEntityFramingTable.java:189-190 | the tag's `CustomName` replaces the name when present; otherwise the existing name stays |
| `Nbt.Write` | src/com/jaquadro/minecraft/storagedrawers/block/tile/TileEntityFramingTable.java:197-210 | the document `writeToNBT` builds: an `Items` list with no more entries than slots, and `CustomName` exactly when the table has a custom name, verbatim |
| `Nbt.LoadWrittenPrefix` | src/com/jaquadro/minecraft/storagedrawers/block/tile/TileEntityFramingTable.java:175-205 | reading the entries written for the first k slots into n empty slots rebuilds those k slots and leaves the rest empty |
| `Nbt.WriteReadSlots` | src/com/jaquadro/minecraft/storagedrawers/block/tile/TileEntityFramingTable.java:175-213 | write followed by read reproduces all five slots, gaps included |
| `Nbt.WriteReadName` | src/com/jaquadro/minecraft/storagedrawers/block/tile/TileEntityFramingTable.java:189-210 | write followed by read restores the name on the same table and gives the same reported name on a table without a custom name |
| `Bounds.FacingOffset` | src/com/jaquadro/minecraft/storagedrawers/block/tile/TileEntityFramingTable.java:242-253 | facings 2/3 step ±1 along x, 4/5 step ∓1/±1 along z (2 and 5 positive, 3 and 4 negative), any other facing none; a horizontal facing gives a unit step |
| `Bounds.IsRightHalf` | src/com/jaquadro/minecraft/storagedrawers/block/tile/TileEntityFramingTable.java:239 | the box is computed only when the block is a framing table and RIGHT_SIDE is set; either condition failing rules it out |
| `Bounds.RenderBoundingBox` | src/com/jaquadro/minecraft/storagedrawers/block/tile/TileEntityFramingTable.java:237-259 | the all-zero box unless the state is a framing table with RIGHT_SIDE; otherwise the arguments in the order passed: the y values are y+1 and y+2, the x range (first and third argument) has width 1+\|xOff\| and covers both halves, the z range (fourth and sixth) has width 1+\|zOff\| and covers both halves |
| `Bounds.IntendedRenderBoundingBox` | src/com/jaquadro/minecraft/storagedrawers/block/tile/TileEntityFramingTable.java:255-259 | with the arguments in constructor order, the box spans both halves along x and z and is one block tall, starting one above the table |
| `Bounds.RenderBoundingBoxArgumentOrder` | src/com/jaquadro/minecraft/storagedrawers/block/tile/TileEntityFramingTable.java:259 | for a north-facing right half at the origin the arguments as written are (0,1,2,0,2,1), an empty x extent, where constructor order gives (0,1,0,2,2,1) |
| `Tile.FramingTable.constructor` | src/com/jaquadro/minecraft/storagedrawers/block/tile/TileEntityFramingTable.java:22-24 | a new table has five empty slots, no custom name and no dirty marks |
| `Tile.FramingTable.GetSizeInventory` | src/com/jaquadro/minecraft/storagedrawers/block/tile/TileEntityFramingTable.java:26-29 | the inventory size is 5 |
| `Tile.FramingTable.GetInventoryStackLimit` | src/com/jaquadro/minecraft/storagedrawers/block/tile/TileEntityFramingTable.java:100-102 | the stack limit is 64 (`Inventory.InventoryStackLimit`), and every clamped stack is within it |
| `Tile.FramingTable.GetStackInSlot` | src/com/jaquadro/minecraft/storagedrawers/block/tile/TileEntityFramingTable.java:31-34 | returns the slot's contents |
| `Tile.FramingTable.DecrStackSize` | src/com/jaquadro/minecraft/storagedrawers/block/tile/TileEntityFramingTable.java:36-56 | updates the array in place to `Inventory.Decrement`'s slots, returns its stack and marks dirty exactly when it says so |
| `Tile.FramingTable.RemoveStackFromSlot` | src/com/jaquadro/minecraft/storagedrawers/block/tile/TileEntityFramingTable.java:58-68 | updates the array in place to `Inventory.Remove`'s slots, returns its stack and marks dirty only for a non-empty slot |
| `Tile.FramingTable.SetInventorySlotContents` | src/com/jaquadro/minecraft/storagedrawers/block/tile/TileEntityFramingTable.java:70-78 | updates the array in place to `Inventory.Put`'s slots and always marks dirty once |
| `Tile.FramingTable.SetCustomName` | src/com/jaquadro/minecraft/storagedrawers/block/tile/TileEntityFramingTable.java:95-97 | the custom name becomes the given one; nothing else changes |
| `Tile.FramingTable.Clear` | src/com/jaquadro/minecraft/storagedrawers/block/tile/TileEntityFramingTable.java:149-152 | leaves the slots and the name as they were |
| `Tile.FramingTable.WriteToNbt` | src/com/jaquadro/minecraft/storagedrawers/block/tile/TileEntityFramingTable.java:193-213 | the loop over the slots produces exactly `Entries` of the slots and the `CustomName` of `WrittenName` |
| `Tile.FramingTable.ReadFromNbt` | src/com/jaquadro/minecraft/storagedrawers/block/tile/TileEntityFramingTable.java:174-191 | replaces the slots by a fresh five-slot array holding `LoadEntries` of the entries over empty slots, applies `ReadName`, and marks nothing dirty |
| `Tile.Synchronise` | src/com/jaquadro/minecraft/storagedrawers/block/tile/TileEntityFramingTable.java:215-232 | a table reading another's update tag ends with the same slots; it takes the other's custom name when there is one and keeps its own otherwise |

## Left out

- `isUseableByPlayer`: a double-precision distance and a world lookup of the tile entity at the position; neither is modelled.
- `openInventory`, `closeInventory`, `getField`, `setField`, `getFieldCount` and `getDisplayName` (which returns null): empty or constant interface stubs with nothing to state.
- `getUpdatePacket`: packing the tag with the position and update type 5 into a packet is engine plumbing; `Tile.Synchronise` models the tag exchange of `getUpdateTag` and `onDataPacket` without it.
- `super.readFromNBT` and `super.writeToNBT`: the base tile entity's own keys are not part of this model.
- `markDirty`: only counted (ghost `dirtyMarks`); its effects on the world are not modelled.
- Per-stack encoding: `ItemStack.writeToNBT` and `loadItemStackFromNBT` are the identity on stacks here, so an entry whose item the engine no longer knows (which the engine loads as null) is not modelled.
- Tag access details: a missing `Slot` byte reads as 0 and a missing or mistyped `Items` list as empty in the engine; the model's entries always carry a slot and `Compound.items` stands for the list as read. A `CustomName` of another tag type reads as absent, which `Compound.customName = None` stands for.
- `writeToNBT` into a tag that already holds a `CustomName`: the model writes into an empty tag, so a stale name left in a reused tag is not modelled.
- Tile.FramingTable.SetInventorySlotContents: the source clamps the caller's own `ItemStack` object after storing it, so the caller sees the clamp too; stacks are values here, so that aliasing is not captured.
- Tile.FramingTable.DecrStackSize: `splitStack` shrinks the stack object already in the slot; the model stores a new stack value with the remaining size, so object identity is not captured.
- Slot indices outside 0..4 passed to the inventory operations raise an array-index exception in the source; the model requires an in-range slot instead of modelling the exception.
- Integers are unbounded: stack sizes, counts and block coordinates are 32-bit `int` in the source. The model assumes no 32-bit overflow for the sizes and counts callers use and for coordinates, which the world keeps within ±30,000,000. Loaded stacks are not clamped and a negative count grows a slot, so sizes are not otherwise bounded.
- `AxisAlignedBB` normalises its corners (taking minima and maxima per axis); the model returns the six arguments as passed.

## Findings

| source | as written | input that shows it | evidently intended | confidence | as-written member | corrected member |
|---|---|---|---|---|---|---|
| src/com/jaquadro/minecraft/storagedrawers/block/tile/TileEntityFramingTable.java:259 | passes `(xMin, y+1, xMax, zMin, y+2, zMax)` to a constructor whose parameters are `(x1, y1, z1, x2, y2, z2)`, so the x bounds land in x1 and z1 and the z bounds in x2 and z2 | right half facing 2 at (0,0,0): arguments (0,1,2,0,2,1), x extent from 0 to 0 although the table covers x = 0 and x = 1 | `(xMin, y+1, zMin, xMax, y+2, zMax)` | high, not executed | `Bounds.RenderBoundingBoxArgumentOrder` | `Bounds.IntendedRenderBoundingBox` |

`Bounds.RenderBoundingBox` keeps the arguments as the source passes them; the corrected box is a separate function for comparison.
