/**
 * The sparse serialised form of the table: the `Items` list, one entry per
 * non-empty slot tagged with its slot index as a signed byte, and the
 * optional `CustomName` string. Stacks are carried as opaque values, so the
 * per-stack encoding is the identity here.
 */
module Nbt {
  import opened Wrappers
  import opened Items
  import opened Inventory
  import Naming

  /** Java's signed byte. */
  newtype int8 = x: int | -128 <= x < 128

  /** One element of the `Items` list: the `Slot` byte and the stack. */
  datatype Entry = Entry(slot: int8, stack: ItemStack)

  /** The tag keys the table reads and writes; a missing `Items` list reads as empty. */
  datatype Compound = Compound(items: seq<Entry>, customName: Option<string>)

  /** The narrowing cast `(byte) i`: keeps the low eight bits, two's complement. */
  function ByteCast(i: int): (b: int8)
    ensures 0 <= i < 128 ==> b as int == i
    ensures (b as int - i) % 256 == 0
  {
    (((i + 128) % 256) - 128) as int8
  }

  /** The `Items` list `writeToNBT` builds, walking the slots in ascending order. */
  function Entries(s: seq<Option<ItemStack>>): (es: seq<Entry>)
    ensures |es| <= |s|
    decreases |s|
  {
    if s == [] then []
    else
      var i := |s| - 1;
      Entries(s[..i]) + (if s[i].Some? then [Entry(ByteCast(i), s[i].value)] else [])
  }

  /** One step of `readFromNBT`'s loop: fill the tagged slot when its index is in range. */
  function Place(slots: seq<Option<ItemStack>>, e: Entry): (r: seq<Option<ItemStack>>)
    ensures |r| == |slots|
    ensures forall k :: 0 <= k < |slots| && k != e.slot as int ==> r[k] == slots[k]
    ensures 0 <= e.slot as int < |slots| ==> r[e.slot as int] == Some(e.stack)
  {
    if 0 <= e.slot as int < |slots| then slots[e.slot as int := Some(e.stack)] else slots
  }

  /** The slots `readFromNBT` builds from `init` by placing the entries in list order. */
  function LoadEntries(init: seq<Option<ItemStack>>, es: seq<Entry>): (r: seq<Option<ItemStack>>)
    ensures |r| == |init|
    decreases |es|
  {
    if es == [] then init else Place(LoadEntries(init, es[..|es| - 1]), es[|es| - 1])
  }

  /** The `CustomName` tag written: present exactly when the table has a custom name. */
  function WrittenName(name: Option<string>): (r: Option<string>)
    ensures r.Some? <==> Naming.HasCustomName(name)
    ensures r.Some? ==> r == name
  {
    if Naming.HasCustomName(name) then name else None
  }

  /** The custom name after reading: the tag's when present, otherwise the current one. */
  function ReadName(current: Option<string>, tagName: Option<string>): (r: Option<string>)
    ensures tagName.None? ==> r == current
    ensures tagName.Some? ==> r == tagName
  {
    if tagName.Some? then tagName else current
  }

  /** The document `writeToNBT` produces for the given slots and custom name. */
  function Write(s: seq<Option<ItemStack>>, name: Option<string>): (tag: Compound)
    ensures |tag.items| <= |s|
    ensures tag.customName.Some? <==> Naming.HasCustomName(name)
    ensures tag.customName.Some? ==> tag.customName == name
  {
    Compound(Entries(s), WrittenName(name))
  }

  /** Every written entry is tagged with the index of a slot that holds exactly its stack. */
  lemma {:induction false} EntriesSound(s: seq<Option<ItemStack>>)
    requires |s| <= 128
    ensures forall j :: 0 <= j < |Entries(s)| ==>
      0 <= Entries(s)[j].slot as int < |s| && s[Entries(s)[j].slot as int] == Some(Entries(s)[j].stack)
    decreases |s|
  {
    if s != [] {
      var i := |s| - 1;
      EntriesSound(s[..i]);
    }
  }

  /** Written entries come in strictly ascending slot order, so no slot is written twice. */
  lemma {:induction false} EntriesAscending(s: seq<Option<ItemStack>>)
    requires |s| <= 128
    ensures forall j, j' :: 0 <= j < j' < |Entries(s)| ==> Entries(s)[j].slot < Entries(s)[j'].slot
    decreases |s|
  {
    if s != [] {
      var i := |s| - 1;
      EntriesAscending(s[..i]);
      EntriesSound(s[..i]);
    }
  }

  /** Every non-empty slot is written. */
  lemma {:induction false} EntriesComplete(s: seq<Option<ItemStack>>, k: int)
    requires |s| <= 128 && 0 <= k < |s| && s[k].Some?
    ensures exists j :: 0 <= j < |Entries(s)| && Entries(s)[j].slot as int == k
    decreases |s|
  {
    var i := |s| - 1;
    var p := Entries(s[..i]);
    if k == i {
      assert Entries(s)[|p|].slot as int == k;
    } else {
      EntriesComplete(s[..i], k);
      var j :| 0 <= j < |p| && p[j].slot as int == k;
      assert Entries(s)[j] == p[j];
    }
  }

  /** The last entry tagged with an in-range slot decides that slot. */
  lemma {:induction false} LoadEntriesLastWins(init: seq<Option<ItemStack>>, es: seq<Entry>, j: int)
    requires 0 <= j < |es| && 0 <= es[j].slot as int < |init|
    requires forall j' :: j < j' < |es| ==> es[j'].slot != es[j].slot
    ensures LoadEntries(init, es)[es[j].slot as int] == Some(es[j].stack)
    decreases |es|
  {
    var m := |es| - 1;
    if j < m {
      var front := es[..m];
      assert front[j] == es[j];
      LoadEntriesLastWins(init, front, j);
    }
  }

  /** A slot no entry names keeps its initial contents. */
  lemma {:induction false} LoadEntriesUntouched(init: seq<Option<ItemStack>>, es: seq<Entry>, k: int)
    requires 0 <= k < |init|
    requires forall j :: 0 <= j < |es| ==> es[j].slot as int != k
    ensures LoadEntries(init, es)[k] == init[k]
    decreases |es|
  {
    if es != [] {
      var m := |es| - 1;
      LoadEntriesUntouched(init, es[..m], k);
    }
  }

  /** Loading a list in two parts is loading the second part over the result of the first. */
  lemma {:induction false} LoadAppend(init: seq<Option<ItemStack>>, a: seq<Entry>, b: seq<Entry>)
    ensures LoadEntries(init, a + b) == LoadEntries(LoadEntries(init, a), b)
    decreases |b|
  {
    if b == [] {
      assert a + b == a;
    } else {
      var m := |b| - 1;
      assert (a + b)[..|a + b| - 1] == a + b[..m];
      assert (a + b)[|a + b| - 1] == b[m];
      LoadAppend(init, a, b[..m]);
    }
  }

  /** An entry whose slot index is out of range has no effect wherever it stands. */
  lemma LoadEntriesSkipsOutOfRange(init: seq<Option<ItemStack>>, a: seq<Entry>, e: Entry, b: seq<Entry>)
    requires !(0 <= e.slot as int < |init|)
    ensures LoadEntries(init, a + [e] + b) == LoadEntries(init, a + b)
  {
    assert (a + [e])[..|a + [e]| - 1] == a;
    assert LoadEntries(init, a + [e]) == LoadEntries(init, a);
    LoadAppend(init, a + [e], b);
    LoadAppend(init, a, b);
  }

  /** Loading the written entries of a prefix into `n` empty slots rebuilds that prefix. */
  lemma {:induction false} LoadWrittenPrefix(s: seq<Option<ItemStack>>, n: nat)
    requires |s| <= n <= 128
    ensures LoadEntries(EmptySlots(n), Entries(s)) == s + EmptySlots(n - |s|)
    decreases |s|
  {
    if s == [] {
      assert s + EmptySlots(n) == EmptySlots(n);
    } else {
      var i := |s| - 1;
      var p := s[..i];
      LoadWrittenPrefix(p, n);
      var before := LoadEntries(EmptySlots(n), Entries(p));
      assert before == p + EmptySlots(n - i);
      assert s == p + [s[i]];
      assert EmptySlots(n - i) == [None] + EmptySlots(n - |s|);
      if s[i].Some? {
        var e := Entry(ByteCast(i), s[i].value);
        var es := Entries(p) + [e];
        assert Entries(s) == es;
        assert es[..|es| - 1] == Entries(p);
        assert LoadEntries(EmptySlots(n), es) == Place(before, e);
        assert Place(before, e) == before[i := s[i]];
        assert before[i := s[i]] == s + EmptySlots(n - |s|);
      } else {
        assert Entries(s) == Entries(p);
        assert before == s + EmptySlots(n - |s|);
      }
    }
  }

  /** Reading what was written reproduces every slot. */
  lemma WriteReadSlots(s: seq<Option<ItemStack>>, name: Option<string>)
    requires |s| == SlotCount
    ensures LoadEntries(EmptySlots(SlotCount), Write(s, name).items) == s
  {
    LoadWrittenPrefix(s, SlotCount);
    assert s + EmptySlots(0) == s;
  }

  /**
   * Reading what was written restores the custom name on the same table, and
   * on a table without a custom name yields the same reported name.
   */
  lemma WriteReadName(name: Option<string>, other: Option<string>)
    requires !Naming.HasCustomName(other)
    ensures ReadName(name, WrittenName(name)) == name
    ensures Naming.GetName(ReadName(other, WrittenName(name))) == Naming.GetName(name)
  {
  }
}
