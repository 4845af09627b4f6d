/**
 * The framing table's tile entity: five slots held in an array that the
 * inventory operations update in place, the optional custom name, and a
 * ghost count of the times the table marked itself dirty.
 */
module Tile {
  import opened Wrappers
  import opened Items
  import opened Inventory
  import opened Nbt
  import Naming

  class FramingTable {
    var stacks: array<Option<ItemStack>>
    var customName: Option<string>
    /** How many times `markDirty` has been called. */
    ghost var dirtyMarks: nat

    ghost predicate Valid()
      reads this
    {
      stacks.Length == SlotCount
    }

    /** The slots as a value. */
    ghost function Contents(): seq<Option<ItemStack>>
      reads this, stacks
    {
      stacks[..]
    }

    /** A newly placed table: every slot empty, no custom name. */
    constructor ()
      ensures Valid() && fresh(stacks)
      ensures Contents() == EmptySlots(SlotCount) && customName == None && dirtyMarks == 0
    {
      stacks := new Option<ItemStack>[SlotCount](_ => None);
      customName := None;
      dirtyMarks := 0;
      new;
      assert stacks[..] == EmptySlots(SlotCount);
    }

    method GetSizeInventory() returns (n: int)
      requires Valid()
      ensures n == SlotCount
    {
      n := stacks.Length;
    }

    /** The per-slot stack limit; every stack the table stores through `SetInventorySlotContents` is within it. */
    method GetInventoryStackLimit() returns (limit: int)
      ensures limit == 64
      ensures forall stack :: Clamp(stack).size <= limit
    {
      limit := InventoryStackLimit;
    }

    method GetStackInSlot(slot: int) returns (stack: Option<ItemStack>)
      requires Valid() && 0 <= slot < SlotCount
      ensures stack == Contents()[slot]
    {
      stack := stacks[slot];
    }

    method DecrStackSize(slot: int, count: int) returns (taken: Option<ItemStack>)
      requires Valid() && 0 <= slot < SlotCount
      modifies stacks, this`dirtyMarks
      ensures Valid()
      ensures var r := Decrement(old(Contents()), slot, count);
        && Contents() == r.slots && taken == r.taken
        && dirtyMarks == old(dirtyMarks) + (if r.marked then 1 else 0)
    {
      if stacks[slot].Some? {
        var stack := stacks[slot].value;
        if stack.size <= count {
          stacks[slot] := None;
          dirtyMarks := dirtyMarks + 1;
          taken := Some(stack);
        } else {
          taken := Some(stack.(size := count));
          var rest := stack.(size := stack.size - count);
          stacks[slot] := if rest.size == 0 then None else Some(rest);
          dirtyMarks := dirtyMarks + 1;
        }
      } else {
        taken := None;
      }
    }

    method RemoveStackFromSlot(slot: int) returns (taken: Option<ItemStack>)
      requires Valid() && 0 <= slot < SlotCount
      modifies stacks, this`dirtyMarks
      ensures Valid()
      ensures var r := Remove(old(Contents()), slot);
        && Contents() == r.slots && taken == r.taken
        && dirtyMarks == old(dirtyMarks) + (if r.marked then 1 else 0)
    {
      if stacks[slot].Some? {
        taken := stacks[slot];
        stacks[slot] := None;
        dirtyMarks := dirtyMarks + 1;
        return;
      }
      taken := None;
    }

    method SetInventorySlotContents(slot: int, stack: Option<ItemStack>)
      requires Valid() && 0 <= slot < SlotCount
      modifies stacks, this`dirtyMarks
      ensures Valid()
      ensures Contents() == Put(old(Contents()), slot, stack)
      ensures dirtyMarks == old(dirtyMarks) + 1
    {
      stacks[slot] := stack;
      if stack.Some? && stack.value.size > InventoryStackLimit {
        stacks[slot] := Some(stack.value.(size := InventoryStackLimit));
      }
      dirtyMarks := dirtyMarks + 1;
    }

    method SetCustomName(name: Option<string>)
      modifies this`customName
      ensures customName == name
    {
      customName := name;
    }

    /** The table's `clear` has an empty body: nothing changes. */
    method Clear()
      ensures Contents() == old(Contents()) && customName == old(customName)
    {
    }

    /** Builds the `Items` list slot by slot and adds the custom name when there is one. */
    method WriteToNbt() returns (tag: Compound)
      requires Valid()
      ensures tag == Write(Contents(), customName)
    {
      var items: seq<Entry> := [];
      var i := 0;
      while i < stacks.Length
        invariant 0 <= i <= stacks.Length
        invariant items == Entries(stacks[..i])
      {
        if stacks[i].Some? {
          items := items + [Entry(ByteCast(i), stacks[i].value)];
        }
        assert stacks[..i + 1][..i] == stacks[..i];
        i := i + 1;
      }
      assert stacks[..i] == stacks[..];
      tag := Compound(items, if Naming.HasCustomName(customName) then customName else None);
    }

    /**
     * Replaces the slots by a fresh empty array, fills the slots named by
     * in-range entries, and takes the custom name when the tag has one.
     */
    method ReadFromNbt(tag: Compound)
      requires Valid()
      modifies this`stacks, this`customName
      ensures Valid() && fresh(stacks)
      ensures Contents() == LoadEntries(EmptySlots(SlotCount), tag.items)
      ensures customName == ReadName(old(customName), tag.customName)
    {
      var slots := new Option<ItemStack>[stacks.Length](_ => None);
      assert slots[..] == EmptySlots(SlotCount);
      var i := 0;
      while i < |tag.items|
        invariant 0 <= i <= |tag.items|
        invariant slots.Length == SlotCount
        invariant customName == old(customName)
        invariant slots[..] == LoadEntries(EmptySlots(SlotCount), tag.items[..i])
      {
        var item := tag.items[i];
        if 0 <= item.slot as int < slots.Length {
          slots[item.slot] := Some(item.stack);
        }
        assert tag.items[..i + 1][..i] == tag.items[..i];
        i := i + 1;
      }
      assert tag.items[..i] == tag.items;
      stacks := slots;
      if tag.customName.Some? {
        customName := tag.customName;
      }
    }
  }

  /**
   * The update-tag exchange: the target reads what the source wrote. The
   * target ends with the source's slots; it takes the source's custom name
   * when there is one and otherwise keeps its own.
   */
  method Synchronise(source: FramingTable, target: FramingTable)
    requires source.Valid() && target.Valid() && source != target
    modifies target`stacks, target`customName
    ensures target.Valid()
    ensures target.Contents() == source.Contents()
    ensures Naming.HasCustomName(source.customName) ==> target.customName == source.customName
    ensures !Naming.HasCustomName(source.customName) ==> target.customName == old(target.customName)
  {
    var tag := source.WriteToNbt();
    target.ReadFromNbt(tag);
    WriteReadSlots(source.Contents(), source.customName);
  }
}
