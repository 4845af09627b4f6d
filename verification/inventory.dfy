/**
 * The framing table's slot store as values: a sequence of optional stacks,
 * and what each inventory operation makes of it. The class in module Tile
 * performs these operations in place and is proved against these functions.
 */
module Inventory {
  import opened Wrappers
  import opened Items
  import opened Arith

  /** Number of slots: one drawer slot, three material slots, one output slot. */
  const SlotCount: nat := 5

  /** Largest stack size a slot holds (`getInventoryStackLimit`). */
  const InventoryStackLimit: int := 64

  function EmptySlots(n: nat): (s: seq<Option<ItemStack>>)
    ensures |s| == n
    ensures forall k :: 0 <= k < n ==> s[k] == None
  {
    seq(n, _ => None)
  }

  /** Number of items in a slot; an empty slot holds none. */
  function SizeOf(slot: Option<ItemStack>): int
  {
    if slot.Some? then slot.value.size else 0
  }

  /** Number of items held over all slots. */
  function Total(s: seq<Option<ItemStack>>): int
  {
    if s == [] then 0 else SizeOf(s[0]) + Total(s[1..])
  }

  /** Every stack in the store is within the stack limit. */
  predicate WithinLimit(s: seq<Option<ItemStack>>)
  {
    forall k :: 0 <= k < |s| && s[k].Some? ==> s[k].value.size <= InventoryStackLimit
  }

  /**
   * The outcome of an operation that takes items out of a slot: the new
   * slots, the stack handed to the caller, and whether the table was marked
   * dirty.
   */
  datatype Removal = Removal(slots: seq<Option<ItemStack>>, taken: Option<ItemStack>, marked: bool)

  /**
   * `decrStackSize`: take up to `count` items out of `slot`. A request for at
   * least the whole stack hands over the stack and empties the slot; a
   * smaller one splits `count` items off and leaves the rest.
   */
  function Decrement(s: seq<Option<ItemStack>>, slot: int, count: int): (r: Removal)
    requires 0 <= slot < |s|
    ensures |r.slots| == |s|
    ensures forall k :: 0 <= k < |s| && k != slot ==> r.slots[k] == s[k]
    ensures s[slot].None? ==> r.taken == None && r.slots == s && !r.marked
    ensures s[slot].Some? ==>
      var q := s[slot].value;
      && r.marked
      && r.taken.Some? && r.taken.value.kind == q.kind
      && r.taken.value.size == Min(count, q.size)
      && SizeOf(r.slots[slot]) == q.size - r.taken.value.size
      && (r.slots[slot].Some? ==> r.slots[slot].value.kind == q.kind)
      && (count >= q.size ==> r.taken == s[slot] && r.slots[slot] == None)
      && (count < q.size ==> r.slots[slot] == Some(ItemStack(q.kind, q.size - count)))
  {
    match s[slot]
    case None => Removal(s, None, false)
    case Some(stack) =>
      if stack.size <= count then
        Removal(s[slot := None], Some(stack), true)
      else
        // splitStack hands over a copy of `count` items and shrinks the original
        var taken := stack.(size := count);
        var rest := stack.(size := stack.size - count);
        Removal(s[slot := if rest.size == 0 then None else Some(rest)], Some(taken), true)
  }

  /** `removeStackFromSlot`: hand over the whole slot and leave it empty. */
  function Remove(s: seq<Option<ItemStack>>, slot: int): (r: Removal)
    requires 0 <= slot < |s|
    ensures |r.slots| == |s|
    ensures forall k :: 0 <= k < |s| && k != slot ==> r.slots[k] == s[k]
    ensures r.taken == s[slot] && r.slots[slot] == None
    ensures r.marked <==> s[slot].Some?
  {
    if s[slot].Some? then Removal(s[slot := None], s[slot], true)
    else Removal(s, None, false)
  }

  /** The stack as stored by `setInventorySlotContents`: its size cut down to the limit. */
  function Clamp(stack: ItemStack): (r: ItemStack)
    ensures r.kind == stack.kind
    ensures r.size <= InventoryStackLimit
    ensures stack.size <= InventoryStackLimit ==> r == stack
    ensures stack.size > InventoryStackLimit ==> r.size == InventoryStackLimit
  {
    if stack.size > InventoryStackLimit then stack.(size := InventoryStackLimit) else stack
  }

  /** `setInventorySlotContents`: store a (clamped) stack, or nothing, in one slot. */
  function Put(s: seq<Option<ItemStack>>, slot: int, stack: Option<ItemStack>): (r: seq<Option<ItemStack>>)
    requires 0 <= slot < |s|
    ensures |r| == |s|
    ensures forall k :: 0 <= k < |s| && k != slot ==> r[k] == s[k]
    ensures stack.None? ==> r[slot] == None
    ensures stack.Some? ==>
      && r[slot].Some?
      && r[slot].value.kind == stack.value.kind
      && r[slot].value.size == Min(stack.value.size, InventoryStackLimit)
  {
    s[slot := if stack.Some? then Some(Clamp(stack.value)) else None]
  }

  /** Changing one slot changes the total by the difference of that slot's sizes. */
  lemma {:induction false} TotalUpdate(s: seq<Option<ItemStack>>, k: int, x: Option<ItemStack>)
    requires 0 <= k < |s|
    ensures Total(s[k := x]) == Total(s) - SizeOf(s[k]) + SizeOf(x)
  {
    if k == 0 {
      assert s[k := x][1..] == s[1..];
    } else {
      assert s[k := x][1..] == s[1..][k - 1 := x];
      TotalUpdate(s[1..], k - 1, x);
    }
  }

  /** `decrStackSize` neither creates nor destroys items. */
  lemma DecrementConserves(s: seq<Option<ItemStack>>, slot: int, count: int)
    requires 0 <= slot < |s|
    ensures var r := Decrement(s, slot, count); Total(r.slots) + SizeOf(r.taken) == Total(s)
  {
    var r := Decrement(s, slot, count);
    if s[slot].Some? {
      assert r.slots == s[slot := r.slots[slot]];
      TotalUpdate(s, slot, r.slots[slot]);
    }
  }

  /** `removeStackFromSlot` neither creates nor destroys items. */
  lemma RemoveConserves(s: seq<Option<ItemStack>>, slot: int)
    requires 0 <= slot < |s|
    ensures var r := Remove(s, slot); Total(r.slots) + SizeOf(r.taken) == Total(s)
  {
    TotalUpdate(s, slot, None);
  }

  /** Asking for at least the whole stack is the same as removing the slot's contents. */
  lemma DecrementWholeIsRemove(s: seq<Option<ItemStack>>, slot: int, count: int)
    requires 0 <= slot < |s|
    requires count >= SizeOf(s[slot])
    ensures Decrement(s, slot, count) == Remove(s, slot)
  {
  }

  /** A second removal from the same slot finds it empty and marks nothing. */
  lemma RemoveTwice(s: seq<Option<ItemStack>>, slot: int)
    requires 0 <= slot < |s|
    ensures var r := Remove(s, slot); Remove(r.slots, slot) == Removal(r.slots, None, false)
  {
  }

  /** Storing a stack and taking it back out hands over the clamped stack. */
  lemma PutThenRemove(s: seq<Option<ItemStack>>, slot: int, stack: ItemStack)
    requires 0 <= slot < |s|
    ensures var r := Remove(Put(s, slot, Some(stack)), slot);
      r.taken == Some(Clamp(stack)) && r.slots == s[slot := None] && r.marked
  {
  }

  /** The stack limit is kept by storing, by removing, and by decrementing a non-negative count. */
  lemma WithinLimitPreserved(s: seq<Option<ItemStack>>, slot: int, count: int, stack: Option<ItemStack>)
    requires 0 <= slot < |s| && WithinLimit(s)
    ensures WithinLimit(Put(s, slot, stack))
    ensures WithinLimit(Remove(s, slot).slots)
    ensures count >= 0 ==> WithinLimit(Decrement(s, slot, count).slots)
  {
  }
}
