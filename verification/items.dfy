/**
 * Item stacks, the blocks they resolve to, and the rule deciding which items
 * each slot of the framing table accepts.
 *
 * The engine's lookups (the block an item places, and whether that block in a
 * given metadata variant is a full opaque cube) are not part of this model;
 * they are passed in as a `BlockLookup`.
 */
module Items {
  import opened Wrappers

  /** What identifies a stack apart from its size: the item and its metadata. */
  datatype ItemKind = ItemKind(item: nat, meta: int)

  /** A stack of items; `size` is the stack size the engine keeps on it. */
  datatype ItemStack = ItemStack(kind: ItemKind, size: int)

  /** The block classes the table tells apart with `instanceof`. */
  datatype Block = DrawersCustom | TrimCustom | FramingTable | OtherBlock(id: nat)

  /**
   * The engine lookups the acceptance rule consumes: the block an item
   * resolves to (None when the item has no block), and the opacity of that
   * block's state for a metadata value.
   */
  datatype BlockLookup = BlockLookup(blockFromItem: nat -> Option<Block>, isOpaqueCube: (Block, int) -> bool)

  /** The block a stack's item resolves to. */
  function BlockOf(lookup: BlockLookup, stack: ItemStack): Option<Block>
  {
    lookup.blockFromItem(stack.kind.item)
  }

  /** Slot 0 takes custom drawers and custom trim, and nothing else. */
  predicate IsItemValidDrawer(lookup: BlockLookup, stack: Option<ItemStack>)
    ensures IsItemValidDrawer(lookup, stack) ==> stack.Some?
    ensures IsItemValidDrawer(lookup, stack) <==>
      stack.Some? && BlockOf(lookup, stack.value) in {Some(DrawersCustom), Some(TrimCustom)}
  {
    match stack
    case None => false
    case Some(s) =>
      match BlockOf(lookup, s)
      case Some(DrawersCustom) => true
      case Some(TrimCustom) => true
      case _ => false
  }

  /** Slots 1 to 3 take items whose block, in the stack's metadata variant, is an opaque cube. */
  predicate IsItemValidMaterial(lookup: BlockLookup, stack: Option<ItemStack>)
    ensures IsItemValidMaterial(lookup, stack) ==> stack.Some? && BlockOf(lookup, stack.value).Some?
    ensures stack.Some? && BlockOf(lookup, stack.value).Some? ==>
      (IsItemValidMaterial(lookup, stack) <==>
       lookup.isOpaqueCube(BlockOf(lookup, stack.value).value, stack.value.kind.meta))
  {
    if stack.None? then false
    else
      var block := BlockOf(lookup, stack.value);
      if block.None? then false
      else lookup.isOpaqueCube(block.value, stack.value.kind.meta)
  }

  /** The slot-acceptance rule, dispatching on the slot index. */
  predicate IsItemValidForSlot(lookup: BlockLookup, slot: int, stack: Option<ItemStack>)
    ensures IsItemValidForSlot(lookup, slot, stack) ==> stack.Some? && 0 <= slot < 4
    ensures slot == 0 ==> (IsItemValidForSlot(lookup, slot, stack) <==> IsItemValidDrawer(lookup, stack))
    ensures 1 <= slot < 4 ==> (IsItemValidForSlot(lookup, slot, stack) <==> IsItemValidMaterial(lookup, stack))
  {
    if slot == 0 then IsItemValidDrawer(lookup, stack)
    else if slot == 4 then false
    else if 1 <= slot < 4 then IsItemValidMaterial(lookup, stack)
    else false
  }

  /** Reference definition: the set of slots a stack may be inserted into. */
  function AcceptingSlots(lookup: BlockLookup, stack: Option<ItemStack>): (slots: set<int>)
    ensures slots <= {0, 1, 2, 3}
    ensures stack.None? ==> slots == {}
  {
    (if IsItemValidDrawer(lookup, stack) then {0} else {})
      + (if IsItemValidMaterial(lookup, stack) then {1, 2, 3} else {})
  }

  /** The dispatching rule and the reference set agree on every slot index. */
  lemma IsItemValidForSlotMatchesAcceptingSlots(lookup: BlockLookup, slot: int, stack: Option<ItemStack>)
    ensures IsItemValidForSlot(lookup, slot, stack) <==> slot in AcceptingSlots(lookup, stack)
  {
  }

  /** The three material slots are interchangeable. */
  lemma MaterialSlotsAgree(lookup: BlockLookup, i: int, j: int, stack: Option<ItemStack>)
    requires 1 <= i < 4 && 1 <= j < 4
    ensures IsItemValidForSlot(lookup, i, stack) == IsItemValidForSlot(lookup, j, stack)
  {
  }
}
