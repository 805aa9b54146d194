/** The route table of the older generation indexed directly by
    destination (src/ulsr/route_table.c, include/ulsr/route_table.h): slot
    `destination_id - 1` holds the route to that node or NULL. `size`
    counts additions minus removals; `cap` is the number of slots, doubled
    when an addition's slot lies beyond it. */
module UlsrRouteTable {
  import opened CLib
  import opened UlsrRouting

  /** STD_ROUTE_TABLE_SIZE: the slots of a fresh table. */
  const STD_ROUTE_TABLE_SIZE: nat := 32

  /** `u32 tmp = route->destination_id - 1`: the slot of a destination. The
      subtraction happens in `int` and the conversion to u32 wraps, so
      destination 0 gives 0xFFFFFFFF. */
  function SlotIndex(destinationId: U16): (r: U32)
    ensures destinationId >= 1 ==> r == destinationId - 1
    ensures destinationId == 0 ==> r == U32_LIMIT - 1
  {
    (destinationId - 1 + U32_LIMIT) % U32_LIMIT
  }

  /** The capacity route_table_add leaves as written: `cap <<= 1` once when
      the slot is not below `cap` (on a u16, so 32768 doubles to 0). */
  function GrowAsWritten(cap: U16, index: U32): (r: U16)
  {
    if index >= cap then (cap * 2) % U16_LIMIT else cap
  }

  /** As written, the slot fits after the growth step exactly when it lies
      below twice the old capacity: a destination further out is written
      past the end of the buffer. */
  lemma GrowAsWrittenFitsOnlyBelowDouble(cap: U16, index: U32)
    requires 0 < cap < U16_LIMIT / 2
    ensures index < GrowAsWritten(cap, index) <==> index < 2 * cap
  {
  }

  /** A fresh table (32 slots) given a route to node 1000: the slot is 999,
      the table grows to 64 slots only, while doubling until the slot fits
      gives 1024. */
  lemma AddAsWrittenOverruns()
    ensures SlotIndex(1000) == 999
    ensures GrowAsWritten(STD_ROUTE_TABLE_SIZE, SlotIndex(1000)) == 64
    ensures SlotIndex(1000) >= GrowAsWritten(STD_ROUTE_TABLE_SIZE, SlotIndex(1000))
    ensures GrowToFit(STD_ROUTE_TABLE_SIZE, SlotIndex(1000)) == 1024
  {
  }

  /** The capacity route_table_add evidently means to leave: `cap`
      doubled as many times as it takes for the slot to fit. */
  function GrowToFit(cap: nat, index: nat): (r: nat)
    requires cap > 0
    ensures index < r && cap <= r
    decreases index - cap
  {
    if index < cap then cap else GrowToFit(2 * cap, index)
  }

  /** `k` is a power of two. */
  ghost predicate IsPowerOfTwo(k: nat)
    decreases k
  {
    k == 1 || (k > 1 && k % 2 == 0 && IsPowerOfTwo(k / 2))
  }

  /** The grown capacity is the old capacity times a power of two, and the
      smallest such that holds the slot: it is the old one when the slot
      already fits, and otherwise half of it would not hold the slot. */
  lemma {:induction false} GrowToFitIsLeastFit(cap: nat, index: nat)
    requires cap > 0
    ensures exists k :: IsPowerOfTwo(k) && GrowToFit(cap, index) == cap * k
    ensures index < cap ==> GrowToFit(cap, index) == cap
    ensures index >= cap ==> GrowToFit(cap, index) / 2 <= index
    decreases index - cap
  {
    if index < cap {
      assert IsPowerOfTwo(1) && cap == cap * 1;
    } else {
      GrowToFitIsLeastFit(2 * cap, index);
      var k: nat :| IsPowerOfTwo(k) && GrowToFit(2 * cap, index) == 2 * cap * k;
      assert IsPowerOfTwo(2 * k) by {
        assert (2 * k) / 2 == k;
      }
      assert GrowToFit(cap, index) == cap * (2 * k);
    }
  }

  class RouteTable {
    var entries: array<Option<Route>>
    var size: U16
    var cap: nat

    /** The buffer has `cap` slots, and there is at least one. */
    ghost predicate Valid()
      reads this
    {
      entries.Length == cap && cap > 0
    }

    /** The slots, slot `i` for destination `i + 1`. */
    ghost function Slots(): (r: seq<Option<Route>>)
      reads this, entries
      requires Valid()
      ensures |r| == cap
    {
      entries[..]
    }

    /** route_table_init: 32 slots, size 0. The C code leaves the slots
        uninitialised; here they are empty. */
    constructor ()
      ensures Valid() && fresh(entries)
      ensures size == 0 && cap == STD_ROUTE_TABLE_SIZE
      ensures forall i :: 0 <= i < cap ==> Slots()[i].None?
    {
      entries := new Option<Route>[STD_ROUTE_TABLE_SIZE](_ => None);
      size := 0;
      cap := STD_ROUTE_TABLE_SIZE;
    }

    /** route_table_add, with the growth the code evidently intends: the
        route lands in the slot of its destination, which is one of the
        table's after the capacity has doubled until it fits; `size` is
        bumped even when the slot was already taken. Every other slot keeps
        its route; slots added by `realloc` have no defined content. A route
        to node 0 has no slot. */
    method Add(route: Route)
      requires Valid() && route.destinationId >= 1
      modifies this, entries
      ensures Valid()
      ensures cap == GrowToFit(old(cap), route.destinationId - 1)
      ensures Slots()[route.destinationId - 1] == Some(route)
      ensures forall i :: 0 <= i < old(cap) && i != route.destinationId - 1 ==> Slots()[i] == old(Slots())[i]
      ensures size == IncU16(old(size))
    {
      var index := SlotIndex(route.destinationId);
      if index >= cap {
        ghost var start := cap;
        while index >= cap
          invariant cap > 0 && GrowToFit(cap, index) == GrowToFit(start, index)
          invariant cap >= start && entries == old(entries) && entries[..] == old(entries[..])
          invariant size == old(size)
          decreases index - cap
        {
          cap := 2 * cap;
        }
        entries := Realloc(entries, cap);
      }
      entries[index] := Some(route);
      size := IncU16(size);
    }

    /** route_table_remove: the slot is emptied and `size` goes down by one,
        whether or not the slot held a route. */
    method Remove(key: U16)
      requires Valid() && 1 <= key <= cap
      modifies this, entries
      ensures Valid() && entries == old(entries) && cap == old(cap)
      ensures !Contains(key)
      ensures forall k: U16 :: 1 <= k <= cap && k != key ==> Get(k) == old(Get(k))
      ensures size == DecU16(old(size))
    {
      entries[key - 1] := None;
      size := DecU16(size);
    }

    /** route_table_contains */
    function Contains(key: U16): (r: bool)
      reads this, entries
      requires Valid() && 1 <= key <= cap
      ensures r <==> Get(key).Some?
    {
      entries[key - 1].Some?
    }

    /** route_table_get: the route to `key`, or NULL. */
    function Get(key: U16): (r: Option<Route>)
      reads this, entries
      requires Valid() && 1 <= key <= cap
      ensures r == Slots()[key - 1]
    {
      entries[key - 1]
    }

    /** route_table_set: afterwards `get(key)` gives `value` and every other
        key keeps its route; `size` is not touched. */
    method Set(key: U16, value: Option<Route>)
      requires Valid() && 1 <= key <= cap
      modifies entries
      ensures Valid() && Get(key) == value
      ensures forall k: U16 :: 1 <= k <= cap && k != key ==> Get(k) == old(Get(k))
      ensures size == old(size)
    {
      entries[key - 1] := value;
    }
  }
}
