/** `G_Semaphore.Pool`: a fixed set of items with a `checkedOut` flag per slot and a
    counting semaphore whose permits track the free slots. */
module SemaphorePool {
  import opened Wrappers

  /** The number of free (not checked-out) slots. */
  function Free(flags: seq<bool>): (n: nat)
    ensures n <= |flags|
    decreases |flags|
  {
    if flags == [] then 0 else Free(flags[..|flags| - 1]) + (if flags[|flags| - 1] then 0 else 1)
  }

  /** The lowest free slot, if any. */
  function FirstFree(flags: seq<bool>): (i: Option<nat>)
    ensures i.Some? ==> i.value < |flags| && !flags[i.value] && forall j :: 0 <= j < i.value ==> flags[j]
    ensures i.None? <==> forall j :: 0 <= j < |flags| ==> flags[j]
    decreases |flags|
  {
    if flags == [] then None
    else if !flags[0] then Some(0)
    else match FirstFree(flags[1..])
      case None => None
      case Some(j) => Some(j + 1)
  }

  /** `items.indexOf(item)`: the first index holding `item`, or -1. */
  function IndexOf<T(==)>(items: seq<T>, item: T): (i: int)
    ensures -1 <= i < |items|
    ensures i >= 0 ==> items[i] == item && forall j :: 0 <= j < i ==> items[j] != item
    ensures i == -1 <==> item !in items
    decreases |items|
  {
    if items == [] then -1
    else if items[0] == item then 0
    else
      var j := IndexOf(items[1..], item);
      if j == -1 then -1 else j + 1
  }

  /** The flags after `releaseItem` at slot `index` (-1 when the item is not in the pool),
      and its result. */
  function Release(flags: seq<bool>, index: int): (r: (seq<bool>, bool))
    requires -1 <= index < |flags|
    // it reports success exactly for a checked-out slot, which ends free
    ensures r.1 <==> index >= 0 && flags[index]
    ensures |r.0| == |flags| && (index >= 0 ==> !r.0[index])
    // no other slot changes
    ensures forall i :: 0 <= i < |flags| && i != index ==> r.0[i] == flags[i]
  {
    if index == -1 then (flags, false)
    else if flags[index] then (flags[index := false], true)
    else (flags, false)
  }

  /** Marking a free slot taken removes one free slot; freeing a taken one adds one. */
  lemma {:induction false} FreeUpdate(flags: seq<bool>, i: nat, b: bool)
    requires i < |flags|
    ensures Free(flags[i := b]) == Free(flags) - (if flags[i] then 0 else 1) + (if b then 0 else 1)
    decreases |flags|
  {
    var last := |flags| - 1;
    if i < last {
      FreeUpdate(flags[..last], i, b);
      assert flags[i := b][..last] == flags[..last][i := b];
    } else {
      assert flags[i := b][..last] == flags[..last];
    }
  }

  /** A slot is free exactly when some slot is free, and then there is at least one. */
  lemma {:induction false} FreeIsPositive(flags: seq<bool>)
    ensures Free(flags) > 0 <==> FirstFree(flags).Some?
    decreases |flags|
  {
    if flags != [] {
      var last := |flags| - 1;
      FreeIsPositive(flags[..last]);
      if FirstFree(flags[..last]).Some? {
        var j := FirstFree(flags[..last]).value;
        assert !flags[j];
      } else if FirstFree(flags).Some? {
        var j := FirstFree(flags).value;
        assert j == last;
      }
    }
  }

  /** Releasing the same slot twice: the second release finds it free, returns false and
      changes nothing. */
  lemma SecondReleaseChangesNothing(flags: seq<bool>, index: int)
    requires -1 <= index < |flags|
    ensures var once := Release(flags, index).0;
      Release(once, index) == (once, false)
  {
  }

  /** A successful release frees one slot; a failed one changes nothing. */
  lemma ReleaseFreesOneSlot(flags: seq<bool>, index: int)
    requires -1 <= index < |flags|
    ensures var (after, ok) := Release(flags, index);
      && (ok ==> Free(after) == Free(flags) + 1)
      && (!ok ==> after == flags)
      && (ok <==> index >= 0 && flags[index])
  {
    if index >= 0 && flags[index] {
      FreeUpdate(flags, index, false);
    }
  }

  /** `Pool<T>`: `size` items, one flag per slot, and the semaphore's permit count. */
  class Pool<T(==)> {
    const size: nat
    const items: seq<T>
    const checkedOut: array<bool>
    var permits: int

    /** Every permit stands for a free slot. */
    ghost predicate Valid()
      reads this, checkedOut
    {
      checkedOut.Length == size && |items| == size && permits == Free(checkedOut[..])
    }

    /** `new Pool(classObject, size)`: `made` are the `size` instances `newInstance`
        creates, in order. No slot is checked out and there are `size` permits. */
    constructor (size: nat, made: seq<T>)
      requires |made| == size
      ensures Valid() && fresh(checkedOut)
      ensures this.size == size && items == made && permits == size
      ensures forall i :: 0 <= i < size ==> !checkedOut[i]
    {
      this.size := size;
      var flags := new bool[size](_ => false);
      checkedOut := flags;
      permits := size;
      items := made;
      new;
      AllFree(checkedOut[..]);
    }

    /** `getItem`: takes the lowest free slot and returns its item, or returns null and
        changes nothing when every slot is taken. */
    method GetItem() returns (item: Option<T>)
      requires checkedOut.Length == size && |items| == size
      modifies checkedOut
      ensures match FirstFree(old(checkedOut[..]))
        case None => item.None? && checkedOut[..] == old(checkedOut[..])
        case Some(i) => item == Some(items[i]) && checkedOut[..] == old(checkedOut[..])[i := true]
    {
      var i := 0;
      while i < size
        invariant 0 <= i <= size
        invariant forall j :: 0 <= j < i ==> checkedOut[j]
      {
        if !checkedOut[i] {
          checkedOut[i] := true;
          return Some(items[i]);
        }
        i := i + 1;
      }
      return None;
    }

    /** `releaseItem`: clears the flag of the item's slot when it was checked out. */
    method ReleaseItem(item: T) returns (released: bool)
      requires checkedOut.Length == size && |items| == size
      modifies checkedOut
      ensures (checkedOut[..], released) == Release(old(checkedOut[..]), IndexOf(items, item))
    {
      var index := IndexOf(items, item);
      if index == -1 {
        return false;
      }
      if checkedOut[index] {
        checkedOut[index] := false;
        return true;
      }
      return false;
    }

    /** `checkOut`: `acquire` blocks while no permit is left (`blocked`, nothing changes);
        otherwise it takes a permit and then the item of the lowest free slot, which is
        never null. */
    method CheckOut() returns (blocked: bool, item: Option<T>)
      requires Valid()
      modifies this, checkedOut
      ensures Valid()
      ensures blocked <==> old(permits) == 0
      ensures blocked ==> permits == 0 && checkedOut[..] == old(checkedOut[..])
      ensures !blocked ==> permits == old(permits) - 1
      // the item handed out is the one in the lowest free slot, and only that slot is marked
      ensures !blocked ==>
        && FirstFree(old(checkedOut[..])).Some?
        && var i := FirstFree(old(checkedOut[..])).value;
          item == Some(items[i]) && checkedOut[..] == old(checkedOut[..])[i := true]
    {
      if permits == 0 {
        return true, None;
      }
      FreeIsPositive(checkedOut[..]);
      permits := permits - 1;
      blocked := false;
      ghost var before := checkedOut[..];
      item := GetItem();
      var i := FirstFree(before).value;
      FreeUpdate(before, i, true);
    }

    /** `checkIn`: a permit is released only when `releaseItem` cleared a flag, so
        checking the same item in twice adds one permit at most. */
    method CheckIn(item: T) returns (released: bool)
      requires Valid()
      modifies this, checkedOut
      ensures Valid()
      ensures (checkedOut[..], released) == Release(old(checkedOut[..]), IndexOf(items, item))
      ensures permits == old(permits) + (if released then 1 else 0)
    {
      ghost var before := checkedOut[..];
      released := ReleaseItem(item);
      if released {
        permits := permits + 1;
      }
      ReleaseFreesOneSlot(before, IndexOf(items, item));
    }
  }

  lemma {:induction false} AllFree(flags: seq<bool>)
    requires forall i :: 0 <= i < |flags| ==> !flags[i]
    ensures Free(flags) == |flags|
    decreases |flags|
  {
    if flags != [] {
      AllFree(flags[..|flags| - 1]);
    }
  }

  /** The permits never exceed the pool's size: a valid pool cannot hand out more items
      than it holds. */
  lemma PermitsAtMostSize<T>(pool: Pool<T>)
    requires pool.Valid()
    ensures 0 <= pool.permits <= pool.size
  {
  }
}
