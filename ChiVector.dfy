// CHI_VECTOR<T>: a growable stack of item pointers. Slots hold a pointer or
// NULL (None); stackCount is the height of the stack, itemCount the number
// of items the vector believes it holds, and the slot array grows by
// expansionFactor when a push overflows it.
module ChiVectors {
  import opened Wrappers

  const InitialCapacity: int := 100
  const ExpansionFactor: int := 2

  /** The first NULL slot in s[k..n), the slot AddItem's reuse scan finds. */
  function FirstNullFrom<T>(s: seq<Option<T>>, k: nat, n: nat): (r: Option<nat>)
    requires n <= |s|
    ensures r.Some? ==> k <= r.value < n && s[r.value].None?
                        && forall j :: k <= j < r.value ==> s[j].Some?
    ensures r.None? ==> forall j :: k <= j < n ==> s[j].Some?
    decreases n - k
  {
    if k >= n then None
    else if s[k].None? then Some(k)
    else FirstNullFrom(s, k + 1, n)
  }

  /** The slot array after making room for `needed` slots: when needed
    * exceeds the capacity, the array is replaced by one factor times as
    * large that keeps the old slots and has NULL in the new ones. */
  function Grown<T>(s: seq<Option<T>>, needed: int, factor: int): (r: seq<Option<T>>)
    requires factor >= 1
    ensures needed > |s| ==> |r| == |s| * factor
    ensures needed <= |s| ==> r == s
    ensures r[..|s|] == s && forall k :: |s| <= k < |r| ==> r[k].None?
  {
    if needed > |s| then s + seq(|s| * (factor - 1), _ => None) else s
  }

  lemma GrownHasRoom<T>(s: seq<Option<T>>, needed: int)
    requires 1 <= |s| && needed <= |s| + 1
    ensures needed <= |Grown(s, needed, ExpansionFactor)|
  {
  }

  /** The bounds guard of GetItem and SetItem as written: it lets
    * index == stackCount through. */
  predicate GuardAdmitsAsWritten(index: int, stackCount: int)
  {
    !(index > stackCount || index < 0)
  }

  /** The guard the stack semantics call for: an index inside the stack. */
  predicate GuardAdmitsCorrected(index: int, stackCount: int)
  {
    0 <= index < stackCount
  }

  /** The as-written guard admits exactly one index the corrected guard
    * rejects: index == stackCount. On a full stack (stackCount == capacity,
    * as after 100 pushes into a fresh vector) that slot lies past the end of
    * the array. */
  lemma AsWrittenGuardReachesPastBuffer(index: int, stackCount: nat, capacity: nat)
    requires stackCount == capacity
    ensures (GuardAdmitsAsWritten(index, stackCount) && !GuardAdmitsCorrected(index, stackCount))
            <==> index == stackCount
    ensures GuardAdmitsAsWritten(stackCount, stackCount) && !(stackCount < capacity)
  {
  }

  /** The corrected guard only admits slots inside the array. */
  lemma CorrectedGuardInBounds(index: int, stackCount: int, capacity: int)
    requires stackCount <= capacity && GuardAdmitsCorrected(index, stackCount)
    ensures 0 <= index < capacity
  {
  }

  class ChiVector<T(==)> {
    var capacity: int
    var expansionFactor: int
    var itemCount: int
    var stackCount: int
    var items: array<Option<T>>

    ghost predicate Valid()
      reads this
    {
      items.Length == capacity && capacity >= 1 && expansionFactor == ExpansionFactor
      && itemCount <= stackCount && 0 <= stackCount <= capacity
    }

    /** CHI_VECTOR(): capacity 100, factor 2, both counts 0, all slots NULL. */
    constructor ()
      ensures Valid() && fresh(items)
      ensures capacity == 100 && expansionFactor == 2 && itemCount == 0 && stackCount == 0
      ensures forall k :: 0 <= k < items.Length ==> items[k].None?
    {
      capacity := InitialCapacity;
      expansionFactor := ExpansionFactor;
      itemCount := 0;
      stackCount := 0;
      items := new Option<T>[InitialCapacity](_ => None);
    }

    /** The capacity adjustment of AddItem and PushItem, run after stackCount
      * was incremented: copy into a larger array, NULL-fill the rest. */
    method AdjustCapacity()
      requires items.Length == capacity && capacity >= 1 && expansionFactor == ExpansionFactor
      requires 0 <= stackCount <= capacity + 1
      modifies this
      ensures expansionFactor == old(expansionFactor)
      ensures items.Length == capacity && capacity >= 1 && stackCount <= capacity
      ensures items[..] == Grown(old(items[..]), stackCount, ExpansionFactor)
      ensures capacity == |items[..]|
      ensures items == old(items) || fresh(items)
      ensures itemCount == old(itemCount) && stackCount == old(stackCount)
    {
      if stackCount > capacity {
        var old_items := items;
        var oldCapacity := capacity;
        var newCapacity := capacity * expansionFactor;
        assert newCapacity == oldCapacity * 2;
        var bigger := new Option<T>[newCapacity];
        for k := 0 to oldCapacity
          modifies bigger
          invariant forall j :: 0 <= j < k ==> bigger[j] == old_items[j]
        {
          bigger[k] := old_items[k];
        }
        for k := oldCapacity to newCapacity
          modifies bigger
          invariant forall j :: 0 <= j < oldCapacity ==> bigger[j] == old_items[j]
          invariant forall j :: oldCapacity <= j < k ==> bigger[j].None?
        {
          bigger[k] := None;
        }
        assert bigger[..] == Grown(old_items[..], stackCount, ExpansionFactor);
        items := bigger;
        capacity := newCapacity;
      }
    }

    /** AddItem(item): NULL decrements itemCount and gives -1; otherwise the
      * first NULL slot below stackCount is reused, else the item is pushed. */
    method AddItem(x: Option<T>) returns (r: int)
      requires Valid()
      modifies this, items
      ensures Valid()
      ensures x.None? ==>
        (r == -1 && itemCount == old(itemCount) - 1
         && stackCount == old(stackCount) && capacity == old(capacity)
         && expansionFactor == old(expansionFactor)
         && items == old(items) && items[..] == old(items[..]))
      ensures x.Some? && FirstNullFrom(old(items[..]), 0, old(stackCount)).Some? ==>
        r == FirstNullFrom(old(items[..]), 0, old(stackCount)).value
        && itemCount == old(itemCount) && stackCount == old(stackCount)
        && capacity == old(capacity) && items[..] == old(items[..])[r := x]
      ensures x.Some? && FirstNullFrom(old(items[..]), 0, old(stackCount)).None? ==>
        r == old(stackCount) && stackCount == old(stackCount) + 1
        && itemCount == old(itemCount) + 1
        && items[..] == Grown(old(items[..]), old(stackCount) + 1, ExpansionFactor)[r := x]
    {
      if x.None? {
        itemCount := itemCount - 1;
        return -1;
      }
      ghost var s := items[..];
      for k := 0 to stackCount
        invariant FirstNullFrom(s, 0, stackCount) == FirstNullFrom(s, k, stackCount)
        invariant items[..] == s
      {
        if items[k].None? {
          items[k] := x;
          return k;
        }
      }
      r := PushItem(x);
    }

    /** PushItem(item): both counts grow by one and the item goes on top. */
    method PushItem(x: Option<T>) returns (r: int)
      requires Valid()
      modifies this, items
      ensures Valid()
      ensures r == old(stackCount) && stackCount == old(stackCount) + 1
      ensures itemCount == old(itemCount) + 1
      ensures items[..] == Grown(old(items[..]), old(stackCount) + 1, ExpansionFactor)[r := x]
      ensures items == old(items) || fresh(items)
    {
      itemCount := itemCount + 1;
      stackCount := stackCount + 1;
      AdjustCapacity();
      items[stackCount - 1] := x;
      r := stackCount - 1;
    }

    /** SetItem(index, item) as written: ignored for index > stackCount or
      * index < 0. Index stackCount passes the guard; the source writes past
      * the array when the stack is full, so that input is excluded. */
    method SetItem(index: int, x: Option<T>)
      requires Valid()
      requires GuardAdmitsAsWritten(index, stackCount) ==> index < capacity
      modifies items
      ensures !GuardAdmitsAsWritten(index, stackCount) ==> items[..] == old(items[..])
      ensures GuardAdmitsAsWritten(index, stackCount) ==> items[..] == old(items[..])[index := x]
    {
      if index > stackCount || index < 0 {
        return;
      }
      items[index] := x;
    }

    /** GetItem(index) as written: NULL for index > stackCount or index < 0,
      * otherwise the slot's content (which is NULL for an empty slot). */
    method GetItem(index: int) returns (r: Option<T>)
      requires Valid()
      requires GuardAdmitsAsWritten(index, stackCount) ==> index < capacity
      ensures !GuardAdmitsAsWritten(index, stackCount) ==> r.None?
      ensures GuardAdmitsAsWritten(index, stackCount) ==> r == items[index]
    {
      if index > stackCount || index < 0 {
        return None;
      }
      if items[index].Some? {
        return items[index];
      } else {
        return None;
      }
    }

    /** GetItem with the guard corrected to the stack's extent: defined for
      * every index, and it returns exactly the slots inside the stack. */
    method GetItemChecked(index: int) returns (r: Option<T>)
      requires Valid()
      ensures r.Some? <==> 0 <= index < stackCount && items[index].Some?
      ensures r.Some? ==> r == items[index]
    {
      if !(0 <= index < stackCount) {
        return None;
      }
      CorrectedGuardInBounds(index, stackCount, capacity);
      return items[index];
    }

    /** PopItem(): NULL on an empty stack or a NULL top slot (nothing
      * changes); otherwise the top item, its slot cleared, both counts
      * decremented. */
    method PopItem() returns (r: Option<T>)
      requires Valid()
      modifies this, items
      ensures Valid() && items == old(items) && capacity == old(capacity)
      ensures old(stackCount) <= 0 ==>
        (r.None? && items[..] == old(items[..])
         && stackCount == old(stackCount) && itemCount == old(itemCount))
      ensures old(stackCount) > 0 && old(items[stackCount - 1]).None? ==>
        r.None? && items[..] == old(items[..])
        && stackCount == old(stackCount) && itemCount == old(itemCount)
      ensures old(stackCount) > 0 && old(items[stackCount - 1]).Some? ==>
        r == old(items[stackCount - 1])
        && items[..] == old(items[..])[old(stackCount) - 1 := None]
        && stackCount == old(stackCount) - 1 && itemCount == old(itemCount) - 1
    {
      if stackCount <= 0 {
        return None;
      }
      if items[stackCount - 1].Some? {
        r := items[stackCount - 1];
        items[stackCount - 1] := None;
        itemCount := itemCount - 1;
        stackCount := stackCount - 1;
      } else {
        return None;
      }
    }

    /** ClearItem(index): sets the slot to NULL without deleting the item it
      * pointed to. Only index > stackCount is guarded against; a negative
      * index, or index == stackCount on a full stack, writes outside the
      * array in the source, so those inputs are excluded. */
    method ClearItem(index: int)
      requires Valid()
      requires index <= stackCount ==> 0 <= index < capacity
      modifies items
      ensures index > stackCount ==> items[..] == old(items[..])
      ensures index <= stackCount ==> items[..] == old(items[..])[index := None]
    {
      if index > stackCount {
        return;
      }
      items[index] := None;
    }

    /** EmptyVector(): NULLs the slots below itemCount (not stackCount),
      * deletes nothing, and resets both counts to 0. */
    method EmptyVector()
      requires Valid()
      modifies this, items
      ensures Valid() && items == old(items) && capacity == old(capacity)
      ensures itemCount == 0 && stackCount == 0
      ensures forall k :: 0 <= k < capacity ==>
        items[k] == if k < old(itemCount) then None else old(items[k])
    {
      var k := itemCount - 1;
      while k >= 0
        invariant Valid() && items == old(items) && capacity == old(capacity)
        invariant itemCount == old(itemCount) && stackCount == old(stackCount)
        invariant k < itemCount
        invariant forall j :: 0 <= j < capacity ==>
          items[j] == if k < j < itemCount then None else old(items[j])
        decreases k
      {
        if items[k].Some? {
          items[k] := None;
        }
        k := k - 1;
      }
      itemCount := 0;
      stackCount := 0;
    }
  }
}
