/** The routing table of the older generation (src/ulsr/routing_table.c):
    a doubly linked list of discovered routes with `head`, `tail` and
    `size`, whose entries age: every time an entry's route is handed out
    its `use_count` grows, and an entry used more than MAX_AGE times is
    dropped from the table. */
module UlsrRoutingTable {
  import opened CLib
  import opened UlsrRouting

  /** struct route_table_entry_t. The route pointer is never reassigned
      once the entry exists, so it is a constant. */
  class Entry {
    const route: Route
    var prev: Entry?
    var next: Entry?
    var useCount: nat

    /** new_route_entry(route, next, prev): a new entry has not been used. */
    constructor (route: Route, next: Entry?, prev: Entry?)
      ensures this.route == route && this.next == next && this.prev == prev
      ensures useCount == 0
    {
      this.route := route;
      this.next := next;
      this.prev := prev;
      useCount := 0;
    }
  }

  /** route_is_old: the entry has been handed out more than MAX_AGE times. */
  function RouteIsOld(e: Entry, maxAge: nat): (r: bool)
    reads e
    ensures r <==> e.useCount > maxAge
  {
    e.useCount > maxAge
  }

  /** The entry before position `i` of a list, NULL at the front. */
  ghost function PrevOf(entries: seq<Entry>, i: nat): Entry?
    requires i < |entries|
  {
    if i == 0 then null else entries[i - 1]
  }

  /** The entry after position `i` of a list, NULL at the back. */
  ghost function NextOf(entries: seq<Entry>, i: nat): Entry?
    requires i < |entries|
  {
    if i + 1 == |entries| then null else entries[i + 1]
  }

  /** No entry appears twice in the list. */
  ghost predicate Distinct(entries: seq<Entry>)
  {
    forall i, j :: 0 <= i < |entries| && 0 <= j < |entries| && i != j ==> entries[i] != entries[j]
  }

  /** Each entry's `prev` and `next` name its neighbours in the list. */
  ghost predicate Linked(entries: seq<Entry>)
    reads entries
  {
    && (forall i {:trigger PrevOf(entries, i)} :: 0 <= i < |entries| ==> entries[i].prev == PrevOf(entries, i))
    && (forall i {:trigger NextOf(entries, i)} :: 0 <= i < |entries| ==> entries[i].next == NextOf(entries, i))
  }

  /** Dropping position `k` of a list of distinct entries leaves distinct
      entries, each one shifted down past `k`. */
  lemma DropKeepsDistinct(was: seq<Entry>, k: nat)
    requires k < |was| && Distinct(was)
    ensures Distinct(was[..k] + was[k + 1..])
    ensures forall i :: 0 <= i < |was| - 1 ==> (was[..k] + was[k + 1..])[i] == if i < k then was[i] else was[i + 1]
  {
    var ns := was[..k] + was[k + 1..];
    forall i, j | 0 <= i < |ns| && 0 <= j < |ns| && i != j
      ensures ns[i] != ns[j]
    {
      var i' := if i < k then i else i + 1;
      var j' := if j < k then j else j + 1;
      assert ns[i] == was[i'] && ns[j] == was[j'];
    }
  }

  /** The routes a list of entries points at, in list order. */
  ghost function RoutesOf(entries: seq<Entry>): seq<Route>
  {
    seq(|entries|, i requires 0 <= i < |entries| => entries[i].route)
  }

  /** Unlinking position `k` drops that route and keeps the others. */
  lemma RoutesOfDrop(entries: seq<Entry>, k: nat)
    requires k < |entries|
    ensures RoutesOf(entries[..k] + entries[k + 1..]) == RoutesOf(entries)[..k] + RoutesOf(entries)[k + 1..]
  {
    var after := RoutesOf(entries[..k] + entries[k + 1..]);
    var before := RoutesOf(entries)[..k] + RoutesOf(entries)[k + 1..];
    forall i | 0 <= i < |after|
      ensures after[i] == before[i]
    {
      if i < k {
        assert after[i] == entries[i].route;
      } else {
        assert after[i] == entries[i + 1].route;
      }
    }
  }

  /** Unlinking position `k`: when every other entry keeps the links it had
      and the entries on either side of `k` now point at each other, the
      list without `k` is linked again. */
  lemma UnlinkKeepsLinked(was: seq<Entry>, k: nat)
    requires k < |was|
    requires forall i :: 0 <= i < |was| && i != k - 1 && i != k && i != k + 1 ==>
      was[i].prev == PrevOf(was, i) && was[i].next == NextOf(was, i)
    requires k > 0 ==> was[k - 1].next == NextOf(was, k) && was[k - 1].prev == PrevOf(was, k - 1)
    requires k + 1 < |was| ==> was[k + 1].prev == PrevOf(was, k) && was[k + 1].next == NextOf(was, k + 1)
    ensures Linked(was[..k] + was[k + 1..])
  {
    var ns := was[..k] + was[k + 1..];
    forall i | 0 <= i < |ns|
      ensures ns[i].prev == PrevOf(ns, i) && ns[i].next == NextOf(ns, i)
    {
      var j := if i < k then i else i + 1;
      assert ns[i] == was[j];
    }
  }

  /** A `u16` count of `n` entries, incremented after one more is added. */
  lemma CountUp(n: nat, size: U16)
    requires size as int == n % U16_LIMIT
    ensures IncU16(size) as int == (n + 1) % U16_LIMIT
  {
  }

  /** A `u16` count of `n > 0` entries, decremented after one is removed. */
  lemma CountDown(n: nat, size: U16)
    requires n > 0 && size as int == n % U16_LIMIT
    ensures DecU16(size) as int == (n - 1) % U16_LIMIT
  {
  }

  class RouteTable {
    var head: Entry?
    var tail: Entry?
    var size: U16
    /** The entries in list order, from `head` to `tail`. */
    ghost var nodes: seq<Entry>

    /** The linkage the operations keep: `size` counts the entries modulo
        2^16 (it is a `u16` that every add increments and every removal
        decrements), each entry's `prev` and `next` name its neighbours in the list, `head`
        has no `prev` and `tail` no `next`, and no entry appears twice. */
    ghost predicate Valid()
      reads this, nodes
    {
      && size as int == |nodes| % U16_LIMIT
      && Distinct(nodes)
      && (if nodes == [] then head == null && tail == null
          else head == nodes[0] && tail == nodes[|nodes| - 1])
      && Linked(nodes)
    }

    /** The routes of the table, in list order. */
    ghost function Routes(): seq<Route>
      reads this
    {
      RoutesOf(nodes)
    }

    /** An empty table (the linkage needs no allocation). */
    constructor ()
      ensures Valid() && nodes == [] && Routes() == []
    {
      head, tail, size := null, null, 0;
      nodes := [];
    }

    /** iter_start: the cursor starts at `head`. */
    function First(): (r: Entry?)
      reads this, nodes
      requires Valid()
      ensures r == null <==> nodes == []
      ensures r != null ==> r == nodes[0]
    {
      head
    }

    /** iter_next: the cursor moves to the following entry, and stays at the
        end once there. */
    function Successor(e: Entry?): (r: Entry?)
      reads this, nodes
      requires Valid() && (e != null ==> e in nodes)
      ensures e == null ==> r == null
      ensures forall i :: 0 <= i < |nodes| && nodes[i] == e ==> r == NextOf(nodes, i)
    {
      if e == null then null else e.next
    }

    /** add_last_pos: append a fresh entry after `tail`. */
    method AddLast(route: Route)
      requires Valid()
      modifies this, nodes
      ensures Valid()
      ensures |nodes| == |old(nodes)| + 1 && nodes == old(nodes) + [nodes[|nodes| - 1]]
      ensures fresh(nodes[|nodes| - 1])
      ensures Routes() == old(Routes()) + [route]
      ensures size == IncU16(old(size))
    {
      ghost var was := nodes;
      var res := new Entry(route, null, tail);
      if tail != null {
        tail.next := res;
      } else {
        head := res;
      }
      tail := res;
      CountUp(|was|, size);
      size := IncU16(size);
      nodes := nodes + [res];
      forall i | 0 <= i < |nodes|
        ensures nodes[i].prev == PrevOf(nodes, i) && nodes[i].next == NextOf(nodes, i)
      {
        if i < |was| {
          assert old(was[i].prev) == PrevOf(was, i) && old(was[i].next) == NextOf(was, i);
        }
      }
      assert Routes() == old(Routes()) + [route];
    }

    /** remove_entry: the entry is unlinked, the others keep their order,
        and the entry comes back detached. There is no NULL check, so the
        entry must be one of the table's. */
    method RemoveEntry(entry: Entry?) returns (r: Entry?, ghost k: nat)
      requires Valid() && entry != null && entry in nodes
      modifies this, nodes
      ensures Valid() && r == entry
      ensures forall i :: 0 <= i < |old(nodes)| ==> old(nodes)[i].useCount == old(nodes[i].useCount)
      ensures k < |old(nodes)| && old(nodes)[k] == entry
      ensures nodes == old(nodes)[..k] + old(nodes)[k + 1..]
      ensures Routes() == old(Routes())[..k] + old(Routes())[k + 1..]
      ensures entry.next == null && entry.prev == null
      ensures size == DecU16(old(size))
    {
      ghost var was := nodes;
      k :| 0 <= k < |was| && was[k] == entry;
      assert entry.prev == PrevOf(was, k) && entry.next == NextOf(was, k);
      ghost var before := PrevOf(was, k);
      ghost var after := NextOf(was, k);
      if entry.prev != null {
        entry.prev.next := entry.next;
      } else {
        head := entry.next;
      }
      if entry.next != null {
        entry.next.prev := entry.prev;
      } else {
        tail := entry.prev;
      }
      CountDown(|was|, size);
      size := DecU16(size);
      entry.next := null;
      entry.prev := null;
      nodes := was[..k] + was[k + 1..];
      assert Distinct(nodes) by {
        DropKeepsDistinct(was, k);
      }
      assert Linked(nodes) by {
        forall i | 0 <= i < |was| && i != k - 1 && i != k && i != k + 1
          ensures was[i].prev == PrevOf(was, i) && was[i].next == NextOf(was, i)
        {
          assert old(was[i].prev) == PrevOf(was, i) && old(was[i].next) == NextOf(was, i);
        }
        if k > 0 {
          assert old(was[k - 1].prev) == PrevOf(was, k - 1);
        }
        if k + 1 < |was| {
          assert old(was[k + 1].next) == NextOf(was, k + 1);
        }
        UnlinkKeepsLinked(was, k);
      }
      assert Routes() == old(Routes())[..k] + old(Routes())[k + 1..] by {
        RoutesOfDrop(was, k);
      }
      return entry, k;
    }

    /** `use_count++` on the entry at position `k`: only that count changes. */
    method Use(e: Entry, ghost k: nat)
      requires Valid() && k < |nodes| && nodes[k] == e
      modifies e
      ensures Valid()
      ensures e.useCount == old(e.useCount) + 1
      ensures forall i :: 0 <= i < |nodes| && i != k ==> nodes[i].useCount == old(nodes[i].useCount)
    {
      e.useCount := e.useCount + 1;
      assert Linked(nodes) by {
        forall j | 0 <= j < |nodes|
          ensures nodes[j].prev == PrevOf(nodes, j) && nodes[j].next == NextOf(nodes, j)
        {
          assert old(nodes[j].prev) == PrevOf(nodes, j) && old(nodes[j].next) == NextOf(nodes, j);
        }
      }
      assert Distinct(nodes);
    }

    /** get_random_route: NULL for an empty table. Otherwise the entry
        `random % size` steps from `head` is used once more; if that makes
        it old it is unlinked from the table, and either way its route is
        returned. No other entry changes. */
    method GetRandomRoute(random: nat, maxAge: nat) returns (r: Option<Route>, ghost k: nat)
      requires Valid()
      modifies this, nodes
      ensures Valid()
      ensures r.None? <==> |old(nodes)| % U16_LIMIT == 0
      ensures r.None? ==> nodes == old(nodes) && size == old(size)
      ensures r.Some? ==> k == random % (|old(nodes)| % U16_LIMIT) && r.value == old(Routes())[k]
      ensures r.Some? ==> old(nodes)[k].useCount == old(nodes[k].useCount) + 1
      ensures forall i :: 0 <= i < |old(nodes)| && i != k ==> old(nodes)[i].useCount == old(nodes[i].useCount)
      ensures r.Some? && RouteIsOld(old(nodes)[k], maxAge) ==>
        && nodes == old(nodes)[..k] + old(nodes)[k + 1..]
        && Routes() == old(Routes())[..k] + old(Routes())[k + 1..]
        && size == DecU16(old(size))
        && old(nodes)[k].prev == null && old(nodes)[k].next == null
      ensures r.Some? && !RouteIsOld(old(nodes)[k], maxAge) ==> nodes == old(nodes) && size == old(size)
    {
      if TableEmpty(this) {
        return None, 0;
      }
      var index := random % size;
      var current := First();
      var i := 0;
      while i < index
        invariant 0 <= i <= index
        invariant current == nodes[i]
      {
        current := Successor(current);
        i := i + 1;
      }
      k := index;
      Use(current, k);
      if RouteIsOld(current, maxAge) {
        var removed, at := RemoveEntry(current);
        return Some(removed.route), k;
      }
      return Some(current.route), k;
    }
  }

  /** route_table_empty: a NULL table counts as empty. */
  function TableEmpty(rt: RouteTable?): (r: bool)
    reads rt, if rt != null then rt.nodes else []
    requires rt != null ==> rt.Valid()
    ensures r <==> rt == null || |rt.Routes()| % U16_LIMIT == 0
  {
    if rt == null then true else rt.size == 0
  }
}
