/** The routing table of the newer generation (src/wander/routing_table.c):
    a doubly linked list of discovered routes with `head`, `tail` and
    `size`, walked with a cursor (`route_iter_t`). */
module WanderRoutingTable {
  import opened CLib
  import opened WanderRouting
  import Common

  /** struct route_table_entry_t. The route pointer is never reassigned
      once the entry exists, so it is a constant. */
  class Entry {
    const route: Route
    var prev: Entry?
    var next: Entry?

    /** new_route_entry(route, next, prev) */
    constructor (route: Route, next: Entry?, prev: Entry?)
      ensures this.route == route && this.next == next && this.prev == prev
    {
      this.route := route;
      this.next := next;
      this.prev := prev;
    }
  }

  /** The largest `time_taken` of the routes, 0 for none: the value the
      loop of find_longest_time_used accumulates, front to back. */
  function MaxTimeTaken(routes: seq<Route>): nat
  {
    if routes == [] then 0
    else Common.Max(routes[|routes| - 1].timeTaken, MaxTimeTaken(routes[..|routes| - 1]))
  }

  /** MaxTimeTaken is the maximum: no route exceeds it, and for a non-empty
      list some route attains it. */
  lemma {:induction false} MaxTimeTakenIsMaximum(routes: seq<Route>)
    ensures forall i :: 0 <= i < |routes| ==> routes[i].timeTaken <= MaxTimeTaken(routes)
    ensures routes != [] ==> exists i :: 0 <= i < |routes| && routes[i].timeTaken == MaxTimeTaken(routes)
  {
    if routes != [] {
      var front := routes[..|routes| - 1];
      MaxTimeTakenIsMaximum(front);
      assert forall i :: 0 <= i < |front| ==> front[i] == routes[i];
      var last := |routes| - 1;
      if MaxTimeTaken(routes) == routes[last].timeTaken {
        assert routes[last].timeTaken == MaxTimeTaken(routes);
      } else {
        assert MaxTimeTaken(routes) == MaxTimeTaken(front) && front != [];
        var i :| 0 <= i < |front| && front[i].timeTaken == MaxTimeTaken(front);
        assert routes[i].timeTaken == MaxTimeTaken(routes);
      }
    }
  }

  /** What find_longest_time_used returns: 0 for an empty table, otherwise
      the longest route time capped at MAX_WAIT. */
  function LongestTimeUsed(routes: seq<Route>, maxWait: nat): nat
  {
    if routes == [] then 0 else Common.Min(MaxTimeTaken(routes), maxWait)
  }

  /** The sleep time get_random_route gives the copy of a route taking
      `t`: how much slower the longest route is, never negative. */
  function SleepTime(longest: nat, t: nat): nat
  {
    if longest < t then 0 else longest - t
  }

  /** The sleep pads every route of the table up to the longest one (capped
      at MAX_WAIT), never sleeps longer than MAX_WAIT, and does not sleep
      at all for a route at least as slow as the cap. */
  lemma SleepEqualisesRoutes(routes: seq<Route>, maxWait: nat, k: nat)
    requires k < |routes|
    ensures SleepTime(LongestTimeUsed(routes, maxWait), routes[k].timeTaken) <= maxWait
    ensures routes[k].timeTaken <= maxWait ==>
      routes[k].timeTaken + SleepTime(LongestTimeUsed(routes, maxWait), routes[k].timeTaken)
        == LongestTimeUsed(routes, maxWait)
    ensures routes[k].timeTaken >= maxWait ==>
      SleepTime(LongestTimeUsed(routes, maxWait), routes[k].timeTaken) == 0
  {
    MaxTimeTakenIsMaximum(routes);
  }

  /** The entry before position `i` of a list, NULL at the front. */
  ghost function PrevOf(entries: seq<Entry>, i: nat): Entry?
    requires i < |entries|
  {
    if i == 0 then null else entries[i - 1]
  }

  /** The entry after position `i` of a list, NULL at the back. */
  ghost function NextOf(entries: seq<Entry>, i: nat): Entry?
    requires i < |entries|
  {
    if i + 1 == |entries| then null else entries[i + 1]
  }

  /** No entry appears twice in the list. */
  ghost predicate Distinct(entries: seq<Entry>)
  {
    forall i, j :: 0 <= i < |entries| && 0 <= j < |entries| && i != j ==> entries[i] != entries[j]
  }

  /** Each entry's `prev` and `next` name its neighbours in the list. */
  ghost predicate Linked(entries: seq<Entry>)
    reads entries
  {
    && (forall i {:trigger PrevOf(entries, i)} :: 0 <= i < |entries| ==> entries[i].prev == PrevOf(entries, i))
    && (forall i {:trigger NextOf(entries, i)} :: 0 <= i < |entries| ==> entries[i].next == NextOf(entries, i))
  }

  /** Dropping position `k` of a list of distinct entries leaves distinct
      entries, each one shifted down past `k`. */
  lemma DropKeepsDistinct(was: seq<Entry>, k: nat)
    requires k < |was| && Distinct(was)
    ensures Distinct(was[..k] + was[k + 1..])
    ensures forall i :: 0 <= i < |was| - 1 ==> (was[..k] + was[k + 1..])[i] == if i < k then was[i] else was[i + 1]
  {
    var ns := was[..k] + was[k + 1..];
    forall i, j | 0 <= i < |ns| && 0 <= j < |ns| && i != j
      ensures ns[i] != ns[j]
    {
      var i' := if i < k then i else i + 1;
      var j' := if j < k then j else j + 1;
      assert ns[i] == was[i'] && ns[j] == was[j'];
    }
  }

  /** The routes a list of entries points at, in list order. */
  ghost function RoutesOf(entries: seq<Entry>): seq<Route>
  {
    seq(|entries|, i requires 0 <= i < |entries| => entries[i].route)
  }

  /** Unlinking position `k` drops that route and keeps the others. */
  lemma RoutesOfDrop(entries: seq<Entry>, k: nat)
    requires k < |entries|
    ensures RoutesOf(entries[..k] + entries[k + 1..]) == RoutesOf(entries)[..k] + RoutesOf(entries)[k + 1..]
  {
    var after := RoutesOf(entries[..k] + entries[k + 1..]);
    var before := RoutesOf(entries)[..k] + RoutesOf(entries)[k + 1..];
    forall i | 0 <= i < |after|
      ensures after[i] == before[i]
    {
      if i < k {
        assert after[i] == entries[i].route;
      } else {
        assert after[i] == entries[i + 1].route;
      }
    }
  }

  /** Unlinking position `k`: when every other entry keeps the links it had
      and the entries on either side of `k` now point at each other, the
      list without `k` is linked again. */
  lemma UnlinkKeepsLinked(was: seq<Entry>, k: nat)
    requires k < |was|
    requires forall i :: 0 <= i < |was| && i != k - 1 && i != k && i != k + 1 ==>
      was[i].prev == PrevOf(was, i) && was[i].next == NextOf(was, i)
    requires k > 0 ==> was[k - 1].next == NextOf(was, k) && was[k - 1].prev == PrevOf(was, k - 1)
    requires k + 1 < |was| ==> was[k + 1].prev == PrevOf(was, k) && was[k + 1].next == NextOf(was, k + 1)
    ensures Linked(was[..k] + was[k + 1..])
  {
    var ns := was[..k] + was[k + 1..];
    forall i | 0 <= i < |ns|
      ensures ns[i].prev == PrevOf(ns, i) && ns[i].next == NextOf(ns, i)
    {
      var j := if i < k then i else i + 1;
      assert ns[i] == was[j];
    }
  }

  class RouteTable {
    var head: Entry?
    var tail: Entry?
    var size: nat
    /** The entries in list order, from `head` to `tail`. */
    ghost var nodes: seq<Entry>

    /** The linkage the operations keep: `size` counts the entries, each
        entry's `prev` and `next` name its neighbours in the list, `head`
        has no `prev` and `tail` no `next`, and no entry appears twice. */
    ghost predicate Valid()
      reads this, nodes
    {
      && size == |nodes|
      && Distinct(nodes)
      && (if nodes == [] then head == null && tail == null
          else head == nodes[0] && tail == nodes[|nodes| - 1])
      && Linked(nodes)
    }

    /** The routes of the table, in list order. */
    ghost function Routes(): seq<Route>
      reads this
    {
      RoutesOf(nodes)
    }

    /** An empty table (the linkage needs no allocation). */
    constructor ()
      ensures Valid() && nodes == [] && Routes() == []
    {
      head, tail, size := null, null, 0;
      nodes := [];
    }

    /** iter_start: the cursor starts at `head`. */
    function First(): (r: Entry?)
      reads this, nodes
      requires Valid()
      ensures r == null <==> nodes == []
      ensures r != null ==> r == nodes[0]
    {
      head
    }

    /** iter_next: the cursor moves to the following entry, and stays at the
        end once there. */
    function Successor(e: Entry?): (r: Entry?)
      reads this, nodes
      requires Valid() && (e != null ==> e in nodes)
      ensures e == null ==> r == null
      ensures forall i :: 0 <= i < |nodes| && nodes[i] == e ==> r == NextOf(nodes, i)
    {
      if e == null then null else e.next
    }

    /** add_last_pos: append a fresh entry after `tail`. */
    method AddLast(route: Route)
      requires Valid()
      modifies this, nodes
      ensures Valid()
      ensures |nodes| == |old(nodes)| + 1 && nodes == old(nodes) + [nodes[|nodes| - 1]]
      ensures fresh(nodes[|nodes| - 1])
      ensures Routes() == old(Routes()) + [route]
      ensures size == old(size) + 1
    {
      ghost var was := nodes;
      var res := new Entry(route, null, tail);
      if tail != null {
        tail.next := res;
      } else {
        head := res;
      }
      tail := res;
      size := size + 1;
      nodes := nodes + [res];
      forall i | 0 <= i < |nodes|
        ensures nodes[i].prev == PrevOf(nodes, i) && nodes[i].next == NextOf(nodes, i)
      {
        if i < |was| {
          assert old(was[i].prev) == PrevOf(was, i) && old(was[i].next) == NextOf(was, i);
        }
      }
      assert Routes() == old(Routes()) + [route];
    }

    /** remove_entry: a NULL entry changes nothing; otherwise the entry is
        unlinked, the others keep their order, and the entry comes back
        detached. */
    method RemoveEntry(entry: Entry?) returns (r: Entry?, ghost k: nat)
      requires Valid() && (entry != null ==> entry in nodes)
      modifies this, nodes
      ensures Valid() && r == entry
      ensures entry == null ==> nodes == old(nodes) && size == old(size)
      ensures entry != null ==> k < |old(nodes)| && old(nodes)[k] == entry
      ensures entry != null ==> nodes == old(nodes)[..k] + old(nodes)[k + 1..]
      ensures entry != null ==> Routes() == old(Routes())[..k] + old(Routes())[k + 1..]
      ensures entry != null ==> entry.next == null && entry.prev == null
      ensures entry != null ==> size == old(size) - 1
    {
      if entry == null {
        return null, 0;
      }
      ghost var was := nodes;
      k :| 0 <= k < |was| && was[k] == entry;
      assert entry.prev == PrevOf(was, k) && entry.next == NextOf(was, k);
      ghost var before := PrevOf(was, k);
      ghost var after := NextOf(was, k);
      if entry.prev != null {
        entry.prev.next := entry.next;
      } else {
        head := entry.next;
      }
      if entry.next != null {
        entry.next.prev := entry.prev;
      } else {
        tail := entry.prev;
      }
      size := size - 1;
      entry.next := null;
      entry.prev := null;
      nodes := was[..k] + was[k + 1..];
      assert Distinct(nodes) by {
        DropKeepsDistinct(was, k);
      }
      assert Linked(nodes) by {
        forall i | 0 <= i < |was| && i != k - 1 && i != k && i != k + 1
          ensures was[i].prev == PrevOf(was, i) && was[i].next == NextOf(was, i)
        {
          assert old(was[i].prev) == PrevOf(was, i) && old(was[i].next) == NextOf(was, i);
        }
        if k > 0 {
          assert old(was[k - 1].prev) == PrevOf(was, k - 1);
        }
        if k + 1 < |was| {
          assert old(was[k + 1].next) == NextOf(was, k + 1);
        }
        UnlinkKeepsLinked(was, k);
      }
      assert Routes() == old(Routes())[..k] + old(Routes())[k + 1..] by {
        RoutesOfDrop(was, k);
      }
      return entry, k;
    }

    /** remove_all_entries: every entry is released and the table is empty. */
    method RemoveAllEntries()
      requires Valid()
      modifies this
      ensures Valid() && nodes == [] && Routes() == []
      ensures head == null && tail == null && size == 0
    {
      head, tail, size := null, null, 0;
      nodes := [];
    }

    /** find_longest_time_used */
    method FindLongestTimeUsed(maxWait: nat) returns (longest: nat)
      requires Valid()
      ensures longest == LongestTimeUsed(Routes(), maxWait)
    {
      if TableEmpty(this) {
        return 0;
      }
      var current := First();
      var max := 0;
      ghost var i := 0;
      while current != null
        invariant 0 <= i <= |nodes|
        invariant current == if i < |nodes| then nodes[i] else null
        invariant max == MaxTimeTaken(Routes()[..i])
        decreases |nodes| - i
      {
        assert Routes()[..i + 1][..i] == Routes()[..i];
        if current.route.timeTaken > max {
          max := current.route.timeTaken;
        }
        current := Successor(current);
        i := i + 1;
      }
      assert Routes()[..i] == Routes();
      longest := if max < maxWait then max else maxWait;
    }

    /** get_random_route: NULL for an empty table; otherwise a copy of the
        route `random % size` steps from `head`, whose time is the sleep
        that pads it up to the longest route. The table is left as it is. */
    method GetRandomRoute(random: nat, maxWait: nat) returns (r: Option<Route>)
      requires Valid()
      ensures r.None? <==> nodes == []
      ensures r.Some? ==>
        var found := Routes()[random % |nodes|];
        r.value == Route(found.sourceId, found.destinationId, found.path,
                         SleepTime(LongestTimeUsed(Routes(), maxWait), found.timeTaken))
    {
      if TableEmpty(this) {
        return None;
      }
      var max := FindLongestTimeUsed(maxWait);
      var index := random % size;
      var current := First();
      var i := 0;
      while i < index
        invariant 0 <= i <= index
        invariant current == nodes[i]
      {
        current := Successor(current);
        i := i + 1;
      }
      var found := current.route;
      var sleep := if max < found.timeTaken then 0 else max - found.timeTaken;
      return Some(Route(found.sourceId, found.destinationId, found.path, sleep));
    }
  }

  /** route_table_empty: a NULL table counts as empty. */
  function TableEmpty(rt: RouteTable?): (r: bool)
    reads rt, if rt != null then rt.nodes else []
    requires rt != null ==> rt.Valid()
    ensures r <==> rt == null || rt.Routes() == []
  {
    if rt == null then true else rt.size == 0
  }
}
