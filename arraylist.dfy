/** The growable array of include/lib/arraylist.h (the ARRAY_T struct):
    `items` holds `cap` slots of which the first `len` are live. The
    capacity doubles when a push finds the array full and halves when a pop
    finds it a quarter full. */
module ArrayList {
  import opened CLib
  import Common

  /** STD_SIZE: the capacity of a freshly initialised or cleared array. */
  const STD_SIZE: nat := 32

  /** The capacity ARRAY_RESIZE_IF_NEEDED leaves before a push. */
  function GrowCap(len: nat, cap: nat): nat
  {
    if len == cap then 2 * cap else cap
  }

  /** The capacity ARRAY_RESIZE_DOWN_IF_NEEDED leaves before a pop. */
  function ShrinkCap(len: nat, cap: nat): nat
  {
    if len == cap / 4 then cap / 2 else cap
  }

  /** A push keeps `len <= cap`: the grown capacity has room for the new
      element, as long as the array has any capacity at all. */
  lemma PushKeepsLenWithinCap(len: nat, cap: nat)
    requires len <= cap && cap > 0
    ensures len + 1 <= GrowCap(len, cap)
    ensures len < cap ==> GrowCap(len, cap) == cap
    ensures len == cap ==> GrowCap(len, cap) == 2 * cap
  {
  }

  /** A pop keeps `len <= cap`: shrinking only happens at a quarter of the
      capacity, so the element being popped still lies inside it. Since
      `len > 0`, the capacity also stays positive, so only ARRAY_FREE can
      leave an array that a push cannot grow. */
  lemma PopKeepsLenWithinCap(len: nat, cap: nat)
    requires 0 < len <= cap
    ensures len - 1 < ShrinkCap(len, cap) && len <= ShrinkCap(len, cap)
    ensures ShrinkCap(len, cap) <= cap
  {
  }

  class ArrayList<T(0)> {
    var items: array<T>
    var len: nat
    var cap: nat

    ghost predicate Valid()
      reads this
    {
      items.Length == cap && len <= cap
    }

    /** The live elements, in index order. */
    ghost function Elements(): seq<T>
      reads this, items
      requires Valid()
    {
      items[..len]
    }

    /** ARRAY_INIT: an empty array of STD_SIZE slots. */
    constructor ()
      ensures Valid() && fresh(items)
      ensures len == 0 && cap == STD_SIZE && Elements() == []
    {
      items := new T[STD_SIZE];
      len, cap := 0, STD_SIZE;
    }

    /** ARRAY_FREE: the buffer is released (NULL: a buffer of no slots here). */
    method Free()
      requires Valid()
      modifies this
      ensures Valid() && fresh(items)
      ensures len == 0 && cap == 0 && Elements() == []
    {
      items := new T[0];
      len, cap := 0, 0;
    }

    /** ARRAY_RESIZE_IF_NEEDED: double `cap` (and reallocate) exactly when
        the array is full. */
    method ResizeIfNeeded()
      requires Valid()
      modifies this
      ensures Valid() && len == old(len)
      ensures cap == GrowCap(old(len), old(cap))
      ensures Elements() == old(Elements())
      ensures old(len) != old(cap) ==> items == old(items)
      ensures old(len) == old(cap) ==> fresh(items)
    {
      if len == cap {
        cap := Common.Shl(cap, 1);
        items := Realloc(items, cap);
        assert items[..len] == old(items[..len]);
      }
    }

    /** ARRAY_RESIZE_DOWN_IF_NEEDED: halve `cap` (and reallocate) exactly
        when `len == cap >> 2`. */
    method ResizeDownIfNeeded()
      requires Valid()
      modifies this
      ensures Valid() && len == old(len)
      ensures cap == ShrinkCap(old(len), old(cap))
      ensures Elements() == old(Elements())
      ensures old(len) != old(cap) / 4 ==> items == old(items)
      ensures old(len) == old(cap) / 4 ==> fresh(items)
    {
      Common.ShrSmall(cap);
      if len == Common.Shr(cap, 2) {
        cap := Common.Shr(cap, 1);
        items := Realloc(items, cap);
        assert items[..len] == old(items[..len]);
      }
    }

    /** ARRAY_PUSH: grow if full, then write `value` at index `len` and bump
        `len`. After ARRAY_FREE the capacity is 0 and doubling it leaves 0,
        so the write would fall outside the buffer: a push needs `cap > 0`. */
    method Push(value: T)
      requires Valid() && cap > 0
      modifies this, items
      ensures Valid() && len == old(len) + 1
      ensures cap == GrowCap(old(len), old(cap))
      ensures Elements() == old(Elements()) + [value]
    {
      PushKeepsLenWithinCap(len, cap);
      ResizeIfNeeded();
      items[len] := value;
      len := len + 1;
    }

    /** ARRAY_POP: shrink if a quarter full (checked before the decrement),
        then drop and return the last element. */
    method Pop() returns (value: T)
      requires Valid() && len > 0
      modifies this
      ensures Valid() && len == old(len) - 1
      ensures cap == ShrinkCap(old(len), old(cap))
      ensures value == old(Elements())[old(len) - 1]
      ensures Elements() == old(Elements())[..old(len) - 1]
    {
      PopKeepsLenWithinCap(len, cap);
      ResizeDownIfNeeded();
      len := len - 1;
      value := items[len];
    }

    /** ARRAY_GET: the slot at `index`; for a live index, that element. */
    function Get(index: nat): (r: T)
      reads this, items
      requires Valid() && index < cap
      ensures index < len ==> r == Elements()[index]
    {
      items[index]
    }

    /** ARRAY_SET: overwrite one slot; every other slot keeps its value. */
    method Set(index: nat, value: T)
      requires Valid() && index < cap
      modifies items
      ensures Valid() && Get(index) == value
      ensures forall j :: 0 <= j < cap && j != index ==> Get(j) == old(Get(j))
      ensures index < len ==> Elements() == old(Elements())[index := value]
      ensures index >= len ==> Elements() == old(Elements())
    {
      items[index] := value;
    }

    /** ARRAY_LEN: the number of live elements. */
    function Len(): (r: nat)
      reads this, items
      requires Valid()
      ensures r == |Elements()|
    {
      len
    }

    /** ARRAY_CAP: the number of allocated slots. */
    function Cap(): (r: nat)
      reads this, items
      requires Valid()
      ensures r == items.Length && r >= |Elements()|
    {
      cap
    }

    /** ARRAY_CLEAR: no live elements and the standard capacity again. */
    method Clear()
      requires Valid()
      modifies this
      ensures Valid() && fresh(items)
      ensures len == 0 && cap == STD_SIZE && Elements() == []
    {
      len := 0;
      cap := STD_SIZE;
      items := Realloc(items, cap);
    }
  }

  /** A push followed by a pop hands back the pushed value and restores the
      elements. */
  method PushThenPop<T(0)>(a: ArrayList<T>, value: T) returns (popped: T)
    requires a.Valid() && a.cap > 0
    modifies a, a.items
    ensures a.Valid() && popped == value
    ensures a.Elements() == old(a.Elements())
  {
    a.Push(value);
    popped := a.Pop();
  }
}
