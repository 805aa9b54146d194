/** The node of the newer generation (src/wander/node.c): its neighbour
    list, routing table and ring of client connections, with the
    housekeeping that ages neighbours out and drops the routes through
    them. Sockets, threads and the mutex are not modelled. */
module WanderNode {
  import opened CLib
  import opened Neighbors
  import opened WanderRouting
  import opened WanderRoutingTable
  import Connections

  /** The position of the first route whose path runs through `id`, if
      any: the route remove_route_with_old_neighbor removes. */
  function FirstThrough(routes: seq<Route>, id: U16): (r: Option<nat>)
    ensures r.Some? ==> r.value < |routes| && id in routes[r.value].path
    ensures r.Some? ==> forall j :: 0 <= j < r.value ==> id !in routes[j].path
    ensures r.None? <==> forall j :: 0 <= j < |routes| ==> id !in routes[j].path
  {
    if routes == [] then None
    else if id in routes[0].path then Some(0)
    else
      var rest := FirstThrough(routes[1..], id);
      assert forall j :: 1 <= j < |routes| ==> routes[j] == routes[1..][j - 1];
      if rest.None? then None else Some(rest.value + 1)
  }

  /** The first route through `id` is the one at `k` when no earlier route
      runs through it and route `k` does. */
  lemma FirstThroughAt(routes: seq<Route>, id: U16, k: nat)
    requires k < |routes| && id in routes[k].path
    requires forall j :: 0 <= j < k ==> id !in routes[j].path
    ensures FirstThrough(routes, id) == Some(k)
  {
  }

  /** The routes left after invalidating `id` once: the first route
      through `id` is dropped, the others keep their order. */
  function WithoutFirstThrough(routes: seq<Route>, id: U16): seq<Route>
  {
    match FirstThrough(routes, id)
    case None => routes
    case Some(k) => routes[..k] + routes[k + 1..]
  }

  /** Invalidating an id removes at most one route, only a route whose path
      contains the id, and leaves every route avoiding the id as often as
      it was. */
  lemma WithoutFirstThroughKeepsOthers(routes: seq<Route>, id: U16)
    ensures |WithoutFirstThrough(routes, id)| in {|routes|, |routes| - 1}
    ensures multiset(WithoutFirstThrough(routes, id)) <= multiset(routes)
    ensures forall x :: x in multiset(routes) && x !in multiset(WithoutFirstThrough(routes, id)) ==> id in x.path
    ensures forall x: Route :: id !in x.path ==> multiset(WithoutFirstThrough(routes, id))[x] == multiset(routes)[x]
  {
    var f := FirstThrough(routes, id);
    if f.Some? {
      var k := f.value;
      assert routes == routes[..k] + [routes[k]] + routes[k + 1..];
      assert multiset(routes) == multiset(routes[..k] + routes[k + 1..]) + multiset{routes[k]};
    }
  }

  /** The routes left after invalidating each id of `ids` in turn. */
  function InvalidateAll(routes: seq<Route>, ids: seq<U16>): seq<Route>
  {
    if ids == [] then routes
    else WithoutFirstThrough(InvalidateAll(routes, ids[..|ids| - 1]), ids[|ids| - 1])
  }

  /** Invalidating a list of ids only ever drops routes through one of
      them: a route whose path avoids every id stays as often as it was,
      and no more than one route per id goes. */
  lemma {:induction false} InvalidateAllKeepsOthers(routes: seq<Route>, ids: seq<U16>)
    ensures multiset(InvalidateAll(routes, ids)) <= multiset(routes)
    ensures |routes| - |ids| <= |InvalidateAll(routes, ids)| <= |routes|
    ensures forall x: Route :: (forall id :: id in ids ==> id !in x.path) ==>
      multiset(InvalidateAll(routes, ids))[x] == multiset(routes)[x]
  {
    if ids != [] {
      var front := ids[..|ids| - 1];
      var last := ids[|ids| - 1];
      InvalidateAllKeepsOthers(routes, front);
      WithoutFirstThroughKeepsOthers(InvalidateAll(routes, front), last);
      forall x: Route | forall id :: id in ids ==> id !in x.path
        ensures multiset(InvalidateAll(routes, ids))[x] == multiset(routes)[x]
      {
        assert last in ids;
        assert forall id :: id in front ==> id in ids;
      }
    }
  }

  /** The expiry test of remove_old_neighbors for one slot: a neighbour not
      heard from for more than `threshold` seconds. */
  predicate IsExpired(slot: Option<Neighbor>, now: int, threshold: int)
  {
    slot.Some? && now - slot.value.lastSeen > threshold
  }

  /** The neighbour list once the first `n` slots have been checked: an
      expired neighbour among them is gone, every other slot is as it was. */
  function ExpireSlots(neighbors: seq<Option<Neighbor>>, n: nat, now: int, threshold: int): (r: seq<Option<Neighbor>>)
    requires n <= |neighbors|
    ensures |r| == |neighbors|
  {
    seq(|neighbors|, i requires 0 <= i < |neighbors| =>
      if i < n && IsExpired(neighbors[i], now, threshold) then None else neighbors[i])
  }

  /** Checking slot `n` next: it still holds its original content, and
      clearing it if expired gives the list with `n + 1` slots checked. */
  lemma ExpireStep(neighbors: seq<Option<Neighbor>>, n: nat, now: int, threshold: int)
    requires n < |neighbors|
    ensures ExpireSlots(neighbors, n, now, threshold)[n] == neighbors[n]
    ensures ExpireSlots(neighbors, n + 1, now, threshold) ==
      if IsExpired(neighbors[n], now, threshold) then ExpireSlots(neighbors, n, now, threshold)[n := None]
      else ExpireSlots(neighbors, n, now, threshold)
  {
  }

  /** The ids of the expired neighbours among the first `n` slots, in slot
      order: the ids remove_old_neighbors invalidates routes for. */
  function ExpiredIds(neighbors: seq<Option<Neighbor>>, n: nat, now: int, threshold: int): (r: seq<U16>)
    requires n <= |neighbors| && n < U16_LIMIT
    ensures |r| <= n
  {
    if n == 0 then []
    else
      ExpiredIds(neighbors, n - 1, now, threshold) +
      (if IsExpired(neighbors[n - 1], now, threshold) then [n as U16] else [])
  }

  /** An id is invalidated exactly when its slot held an expired neighbour,
      and the ids come in increasing order, so none is invalidated twice. */
  lemma {:induction false} ExpiredIdsExactly(neighbors: seq<Option<Neighbor>>, n: nat, now: int, threshold: int)
    requires n <= |neighbors| && n < U16_LIMIT
    ensures forall id :: id in ExpiredIds(neighbors, n, now, threshold) <==>
      1 <= id <= n && IsExpired(neighbors[id - 1], now, threshold)
    ensures forall i, j :: 0 <= i < j < |ExpiredIds(neighbors, n, now, threshold)| ==>
      ExpiredIds(neighbors, n, now, threshold)[i] < ExpiredIds(neighbors, n, now, threshold)[j]
  {
    if n > 0 {
      var front := ExpiredIds(neighbors, n - 1, now, threshold);
      ExpiredIdsExactly(neighbors, n - 1, now, threshold);
      forall i | 0 <= i < |front|
        ensures front[i] < n
      {
        assert front[i] in front;
      }
    }
  }

  /** Expiry keeps every remaining neighbour in the slot of its own id. */
  lemma ExpireKeepsLayout(neighbors: seq<Option<Neighbor>>, n: nat, now: int, threshold: int)
    requires n <= |neighbors| && SlotsHoldOwnIds(neighbors)
    ensures SlotsHoldOwnIds(ExpireSlots(neighbors, n, now, threshold))
    ensures forall i :: 0 <= i < |neighbors| ==>
      (ExpireSlots(neighbors, n, now, threshold)[i].None? <==> neighbors[i].None? || (i < n && IsExpired(neighbors[i], now, threshold)))
  {
  }

  /** The scan of remove_route_with_old_neighbor over one route: look
      for `id` hop by hop and stop at the first match. */
  method PathUses(path: seq<U16>, id: U16) returns (hit: bool)
    ensures hit <==> id in path
  {
    var j := 0;
    hit := false;
    while j < |path| && !hit
      invariant j <= |path|
      invariant hit ==> j < |path| && path[j] == id
      invariant !hit ==> forall m :: 0 <= m < j ==> path[m] != id
      decreases |path| - j + (if hit then 0 else 1)
    {
      if path[j] == id {
        hit := true;
      } else {
        j := j + 1;
      }
    }
  }

  /** The removal step of remove_route_with_old_neighbor: the entry at
      `i`, the first whose route runs through `id`, is unlinked, which
      leaves the table without its first route through `id`. iter_next then
      reads the removed entry's `next`, which remove_entry has set to NULL,
      so that is the cursor returned. */
  method RemoveFirstThrough(rt: RouteTable, current: Entry, ghost was: seq<Entry>, ghost i: nat, id: U16)
    returns (next: Entry?)
    requires rt.Valid() && rt.nodes == was && i < |was| && was[i] == current
    requires id in current.route.path && forall j :: 0 <= j < i ==> id !in RoutesOf(was)[j].path
    modifies rt, rt.nodes
    ensures rt.Valid() && next == null
    ensures rt.Routes() == WithoutFirstThrough(RoutesOf(was), id)
    ensures forall j :: 0 <= j < |rt.nodes| ==> rt.nodes[j] in was
  {
    assert current.route == RoutesOf(was)[i];
    FirstThroughAt(RoutesOf(was), id, i);
    var removed;
    ghost var k;
    removed, k := rt.RemoveEntry(current);
    assert k == i;
    next := removed.next;
  }

  /** struct node_t, the parts the routing logic reads and writes. The
      known-id list is what the node's `init_known_nodes_func` callback
      fills in; its contents are a constructor argument. */
  class Node {
    const nodeId: U16
    const removeNeighborThreshold: U8
    const knownNodesCount: U16
    const knownNodes: seq<U16>
    const neighbors: array<Option<Neighbor>>
    const routingTable: RouteTable
    const connections: Connections.Connections
    var newNeighborsCount: nat

    /** One slot per known node, every neighbour in the slot of its id, and
        a well-linked routing table and connection ring. */
    ghost predicate Valid()
      reads this, neighbors, routingTable, routingTable.nodes, connections
    {
      && neighbors.Length == knownNodesCount as int
      && SlotsHoldOwnIds(neighbors[..])
      && routingTable.Valid()
      && connections.Valid()
    }

    /** The data-structure part of init_node: no neighbours, no new
        neighbours, a ring of `maxConnections` zeroed slots at index -1. The
        C code leaves the malloc'd routing table uninitialised; here it is
        empty. */
    constructor (nodeId: U16, removeNeighborThreshold: U8, knownNodesCount: U16, maxConnections: U16, knownNodes: seq<U16>)
      ensures Valid()
      ensures this.nodeId == nodeId && this.removeNeighborThreshold == removeNeighborThreshold
      ensures this.knownNodesCount == knownNodesCount && this.knownNodes == knownNodes
      ensures fresh(neighbors) && fresh(routingTable) && fresh(connections) && fresh(connections.connections)
      ensures forall i :: 0 <= i < neighbors.Length ==> neighbors[i].None?
      ensures newNeighborsCount == 0
      ensures routingTable.Routes() == []
      ensures connections.index == -1 && connections.cap == maxConnections as int
    {
      this.nodeId := nodeId;
      this.removeNeighborThreshold := removeNeighborThreshold;
      this.knownNodesCount := knownNodesCount;
      this.knownNodes := knownNodes;
      routingTable := new RouteTable();
      connections := new Connections.Connections(maxConnections as nat);
      neighbors := new Option<Neighbor>[knownNodesCount](_ => None);
      newNeighborsCount := 0;
    }

    /** remove_route_with_old_neighbor: walk the table and remove the first
        route whose path contains `invalidNodeId`. remove_entry leaves the
        removed entry's `next` NULL, so the walk stops right after the first
        removal (later routes through the id stay). An empty table is left
        alone. */
    method RemoveRouteWithOldNeighbor(invalidNodeId: U16)
      requires Valid()
      modifies routingTable, routingTable.nodes
      ensures Valid()
      ensures routingTable.Routes() == WithoutFirstThrough(old(routingTable.Routes()), invalidNodeId)
      ensures forall i :: 0 <= i < |routingTable.nodes| ==> routingTable.nodes[i] in old(routingTable.nodes)
    {
      var rt := routingTable;
      if TableEmpty(rt) {
        return;
      }
      ghost var was := rt.nodes;
      var current := rt.First();
      ghost var i := 0;
      ghost var done := false;
      while current != null
        invariant rt.Valid() && i <= |was|
        invariant !done ==> rt.nodes == was && current == (if i < |was| then was[i] else null)
        invariant !done ==> forall j :: 0 <= j < i ==> invalidNodeId !in RoutesOf(was)[j].path
        invariant done ==> current == null
        invariant done ==> rt.Routes() == WithoutFirstThrough(RoutesOf(was), invalidNodeId)
        invariant forall j :: 0 <= j < |rt.nodes| ==> rt.nodes[j] in was
        decreases |was| - i + (if current == null then 0 else 1)
      {
        var route := current.route;
        var hit := PathUses(route.path, invalidNodeId);
        if hit {
          current := RemoveFirstThrough(rt, current, was, i, invalidNodeId);
          done := true;
        } else {
          current := rt.Successor(current);
          i := i + 1;
        }
      }
      if !done {
        assert FirstThrough(RoutesOf(was), invalidNodeId).None?;
      }
    }

    /** One expiry of remove_old_neighbors: slot `i` is emptied and the
        first route through neighbour `i + 1` invalidated. */
    method ForgetNeighbor(i: nat)
      requires Valid() && i < neighbors.Length
      modifies neighbors, routingTable, routingTable.nodes
      ensures Valid()
      ensures neighbors[..] == old(neighbors[..])[i := None]
      ensures routingTable.Routes() == WithoutFirstThrough(old(routingTable.Routes()), (i + 1) as U16)
      ensures forall j :: 0 <= j < |routingTable.nodes| ==> routingTable.nodes[j] in old(routingTable.nodes)
    {
      neighbors[i] := None;
      ghost var slots := neighbors[..];
      assert slots == old(neighbors[..])[i := None];
      RemoveRouteWithOldNeighbor((i + 1) as U16);
      assert neighbors[..] == slots;
    }

    /** One pass of the expiry loop of remove_old_neighbors: slot `i` is
        emptied, and its id invalidated, exactly when it holds a neighbour
        last seen more than `threshold` seconds before `now`. `slots`,
        `routes` and `invalidated` are the neighbour list, the routes and
        the ids invalidated as the loop found them. */
    method CheckSlot(i: nat, now: int, threshold: int, ghost slots: seq<Option<Neighbor>>, ghost routes: seq<Route>,
                     invalidated: seq<U16>)
      returns (invalidatedAfter: seq<U16>)
      requires Valid() && i < knownNodesCount as nat && |slots| == neighbors.Length
      requires neighbors[..] == ExpireSlots(slots, i, now, threshold)
      requires invalidated == ExpiredIds(slots, i, now, threshold)
      requires routingTable.Routes() == InvalidateAll(routes, invalidated)
      modifies neighbors, routingTable, routingTable.nodes
      ensures Valid()
      ensures neighbors[..] == ExpireSlots(slots, i + 1, now, threshold)
      ensures invalidatedAfter == ExpiredIds(slots, i + 1, now, threshold)
      ensures routingTable.Routes() == InvalidateAll(routes, invalidatedAfter)
      ensures forall j :: 0 <= j < |routingTable.nodes| ==> routingTable.nodes[j] in old(routingTable.nodes)
    {
      ExpireStep(slots, i, now, threshold);
      var neighbor := neighbors[i];
      var expired := neighbor.Some? && now - neighbor.value.lastSeen > threshold;
      assert expired == IsExpired(slots[i], now, threshold);
      if expired {
        ForgetNeighbor(i);
        invalidatedAfter := invalidated + [(i + 1) as U16];
        assert invalidatedAfter[..|invalidated|] == invalidated;
        assert ExpiredIds(slots, i + 1, now, threshold) == invalidatedAfter;
      } else {
        invalidatedAfter := invalidated;
        assert ExpiredIds(slots, i + 1, now, threshold) == invalidated + [];
      }
    }

    /** The expiry loop of remove_old_neighbors at time `now`: each of the
        first `known_nodes_count` slots whose neighbour was last seen more
        than `threshold` seconds ago is emptied and the first route through
        that neighbour invalidated. The ids invalidated, in order, are
        returned. */
    method ExpireNeighbors(now: int, threshold: int) returns (invalidated: seq<U16>)
      requires Valid()
      modifies neighbors, routingTable, routingTable.nodes
      ensures Valid()
      ensures neighbors[..] == ExpireSlots(old(neighbors[..]), knownNodesCount as nat, now, threshold)
      ensures invalidated == ExpiredIds(old(neighbors[..]), knownNodesCount as nat, now, threshold)
      ensures routingTable.Routes() == InvalidateAll(old(routingTable.Routes()), invalidated)
    {
      ghost var slots := neighbors[..];
      ghost var routes := routingTable.Routes();
      invalidated := [];
      var i: nat := 0;
      while i < knownNodesCount as nat
        invariant i <= knownNodesCount as nat
        invariant Valid()
        invariant neighbors[..] == ExpireSlots(slots, i, now, threshold)
        invariant invalidated == ExpiredIds(slots, i, now, threshold)
        invariant routingTable.Routes() == InvalidateAll(routes, invalidated)
        invariant forall j :: 0 <= j < |routingTable.nodes| ==> routingTable.nodes[j] in old(routingTable.nodes)
      {
        invalidated := CheckSlot(i, now, threshold, slots, routes, invalidated);
        i := i + 1;
      }
    }

    /** remove_old_neighbors at time `now`: the expiry loop with the
        node's `removeNeighborThreshold`, then `new_neighbors_count` is
        reset. Whether the whole table is flushed afterwards depends on a
        floating-point ratio test, which is the argument `dropAllRoutes`.
        The ids invalidated, in order, are returned. */
    method RemoveOldNeighbors(now: int, dropAllRoutes: bool) returns (invalidated: seq<U16>)
      requires Valid()
      modifies this, neighbors, routingTable, routingTable.nodes
      ensures Valid()
      ensures neighbors[..] == ExpireSlots(old(neighbors[..]), knownNodesCount as nat, now, removeNeighborThreshold as int)
      ensures invalidated == ExpiredIds(old(neighbors[..]), knownNodesCount as nat, now, removeNeighborThreshold as int)
      ensures newNeighborsCount == 0
      ensures dropAllRoutes ==> routingTable.Routes() == []
      ensures !dropAllRoutes ==> routingTable.Routes() == InvalidateAll(old(routingTable.Routes()), invalidated)
    {
      invalidated := ExpireNeighbors(now, removeNeighborThreshold as int);
      newNeighborsCount := 0;
      if dropAllRoutes {
        routingTable.RemoveAllEntries();
      }
    }
  }
}
