/** Routes and flooding route discovery of the older generation
    (src/ulsr/routing.c). A node looking for a way out of the mesh floods
    ROUTING packets carrying the path walked so far; a node that can reach
    the external target answers with a ROUTING_DONE packet that carries the
    discovered route back towards the path's first node. */
module UlsrRouting {
  import opened CLib
  import opened Neighbors

  /** struct route_t: `path_length` is `|path|`. */
  datatype Route = Route(sourceId: U16, destinationId: U16, path: seq<U16>, timeTaken: U32)

  /** struct packet_route_t: the hops a packet follows and the index `step`
      of the node currently holding it. The path buffer is replaced and
      written in place by the packet handlers, so it is a field the
      operations reassign. */
  class PacketRoute {
    var path: seq<U16>
    var len: U16
    var step: U16

    constructor (path: seq<U16>, len: U16, step: U16)
      ensures this.path == path && this.len == len && this.step == step
    {
      this.path, this.len, this.step := path, len, step;
    }
  }

  /** struct route_payload_t: the payload of ROUTING_DONE; the route travels
      back hop by hop and `step_from_destination` counts the hops taken. */
  class RoutePayload {
    const route: Route
    var stepFromDestination: U16

    constructor (route: Route, stepFromDestination: U16)
      ensures this.route == route && this.stepFromDestination == stepFromDestination
    {
      this.route := route;
      this.stepFromDestination := stepFromDestination;
    }
  }

  /** struct routing_data_t: the payload of ROUTING, a snapshot of the
      discovery state: which nodes the flood has visited and the path it
      took to get here. */
  datatype RoutingData = RoutingData(
    sourceId: U16, totalNodes: U16, visited: seq<bool>, path: seq<U16>,
    pathLength: U16, timeTaken: U32)

  /** The reverse of a sequence, defined element by element from the front. */
  function Reversed<T>(s: seq<T>): (r: seq<T>)
    ensures |r| == |s|
  {
    if s == [] then [] else Reversed(s[1..]) + [s[0]]
  }

  /** Element `i` of the reverse is element `|s| - 1 - i` of the original. */
  lemma {:induction false} ReversedIndex<T>(s: seq<T>)
    ensures forall i :: 0 <= i < |s| ==> Reversed(s)[i] == s[|s| - 1 - i]
  {
    if s != [] {
      ReversedIndex(s[1..]);
      forall i | 0 <= i < |s|
        ensures Reversed(s)[i] == s[|s| - 1 - i]
      {
        if i < |s| - 1 {
          assert Reversed(s)[i] == Reversed(s[1..])[i];
        }
      }
    }
  }

  /** Reversing twice gives back the original route. */
  lemma ReversedTwice<T>(s: seq<T>)
    ensures Reversed(Reversed(s)) == s
  {
    ReversedIndex(s);
    ReversedIndex(Reversed(s));
  }

  /** reverse_route: a fresh buffer of `route_length` hops holding the first
      `route_length` hops of `path`, last first. */
  method ReverseRoute(path: seq<U16>, routeLength: U16) returns (reversed: array<U16>)
    requires routeLength <= |path|
    ensures reversed.Length == routeLength
    ensures reversed[..] == Reversed(path[..routeLength])
  {
    reversed := new U16[routeLength];
    var i: U16 := 0;
    while i < routeLength
      invariant 0 <= i <= routeLength
      invariant forall j :: 0 <= j < i ==> reversed[j] == path[routeLength - j - 1]
    {
      reversed[i] := path[routeLength - i - 1];
      i := i + 1;
    }
    ReversedIndex(path[..routeLength]);
  }

  /** reverse_packet_route as written: the reverse of the first `step` hops,
      `len = step` and `step = 0`. The node holding the packet is
      `path[step]`, which this leaves out. */
  method ReversePacketRoute(pt: PacketRoute) returns (reversed: PacketRoute)
    ensures fresh(reversed)
    requires pt.step <= |pt.path|
    ensures reversed.path == Reversed(old(pt.path)[..old(pt.step)])
    ensures reversed.len == old(pt.step) && reversed.step == 0
    ensures pt.path == old(pt.path) && pt.len == old(pt.len) && pt.step == old(pt.step)
  {
    var path := ReverseRoute(pt.path, pt.step);
    reversed := new PacketRoute(path[..], pt.step, 0);
  }

  /** The route a failure report should take back from the node holding a
      packet: the hops walked so far *including* the holder, reversed, so
      that the holder is at step 0. A packet route's holder lies on its
      path, `step < len <= |path|`. */
  method FailureRoute(pt: PacketRoute) returns (reversed: PacketRoute)
    ensures fresh(reversed)
    requires pt.step < pt.len <= |pt.path|
    ensures reversed.path == Reversed(old(pt.path)[..old(pt.step) + 1])
    ensures reversed.len == old(pt.step) + 1 && reversed.step == 0
    ensures pt.path == old(pt.path) && pt.len == old(pt.len) && pt.step == old(pt.step)
  {
    var path := ReverseRoute(pt.path, pt.step + 1);
    reversed := new PacketRoute(path[..], pt.step + 1, 0);
  }

  /** The hop a reversed route leads to once advanced by one step (the
      packet handlers increment `step` before sending). */
  function NextHopOfReversed(path: seq<U16>, n: nat): (r: Option<U16>)
    requires n <= |path|
    ensures r.Some? <==> n >= 2
  {
    Hop(Reversed(path[..n]), 1)
  }

  /** The corrected failure route starts at the holder and its first hop is
      the node the packet came from, `path[step - 1]`. */
  lemma FailureRouteGoesBackOneHop(path: seq<U16>, step: nat)
    requires 1 <= step < |path|
    ensures Reversed(path[..step + 1])[0] == path[step]
    ensures NextHopOfReversed(path, step + 1) == Some(path[step - 1])
  {
    ReversedIndex(path[..step + 1]);
  }

  /** As written, the first hop of a failure route is `path[step - 2]`, two
      hops back, and there is none at all for a packet at step 0 or 1. */
  lemma ReversedPacketRouteSkipsPreviousHop(path: seq<U16>, step: nat)
    requires step <= |path|
    ensures step >= 2 ==> NextHopOfReversed(path, step) == Some(path[step - 2])
    ensures step < 2 ==> NextHopOfReversed(path, step).None?
  {
    ReversedIndex(path[..step]);
  }

  /** Path 1 -> 2 -> 3 with the packet at node 3 (step 2): the reversed route
      as written sends the failure straight to node 1, not back to node 2. */
  lemma FailureSkipsNodeTwo()
    ensures NextHopOfReversed([1, 2, 3], 2) == Some(1)
    ensures Reversed([1, 2, 3][..3])[1] == 2
  {
    ReversedPacketRouteSkipsPreviousHop([1, 2, 3], 2);
    FailureRouteGoesBackOneHop([1, 2, 3], 2);
  }

  /** init_route: a route whose path is a copy of the first `path_length`
      hops. */
  function InitRoute(sourceId: U16, destinationId: U16, path: seq<U16>, pathLength: U16, timeTaken: U32): (r: Route)
    requires pathLength <= |path|
    ensures r.sourceId == sourceId && r.destinationId == destinationId && r.timeTaken == timeTaken
    ensures |r.path| == pathLength && path == r.path + path[pathLength..]
  {
    Route(sourceId, destinationId, path[..pathLength], timeTaken)
  }

  /** init_routing_data: copies of the first `total_nodes` entries of
      `visited` and `path`, plus the scalar fields. */
  function InitRoutingData(sourceId: U16, totalNodes: U16, visited: seq<bool>, path: seq<U16>, pathLength: U16, timeTaken: U32): (r: RoutingData)
    requires totalNodes <= |visited| && totalNodes <= |path|
    ensures r.sourceId == sourceId && r.totalNodes == totalNodes
    ensures r.pathLength == pathLength && r.timeTaken == timeTaken
    ensures |r.visited| == totalNodes && visited == r.visited + visited[totalNodes..]
    ensures |r.path| == totalNodes && path == r.path + path[totalNodes..]
  {
    RoutingData(sourceId, totalNodes, visited[..totalNodes], path[..totalNodes], pathLength, timeTaken)
  }

  /** A packet emitted by one discovery step, with the node id handed to
      `send_func`. `returnHop` is `None` when the C code reads the target id from
      outside the path buffer. Checksums are 0; payload lengths are not
      modelled. */
  datatype Emitted =
    | RoutingDone(payload: Route, stepFromDestination: U16, prevNodeId: U16, destNodeId: U16, returnHop: Option<U16>)
    | Routing(data: RoutingData, prevNodeId: U16, destNodeId: U16, to: U16)

  /** Every present neighbour among the first `n` slots has an id that
      indexes `visited`. */
  ghost predicate IdsIndexVisited(neighbors: seq<Option<Neighbor>>, n: nat, visitedCount: nat)
    requires n <= |neighbors|
  {
    forall i :: 0 <= i < n && neighbors[i].Some? ==> 1 <= neighbors[i].value.nodeId <= visitedCount
  }

  /** The ids the flood moves on to, in slot order: present neighbours among
      the first `n` slots whose node is not yet visited. */
  function RoutingTargets(neighbors: seq<Option<Neighbor>>, visited: seq<bool>, n: nat): (r: seq<U16>)
    requires n <= |neighbors| && IdsIndexVisited(neighbors, n, |visited|)
  {
    if n == 0 then []
    else
      var earlier := RoutingTargets(neighbors, visited, n - 1);
      var nb := neighbors[n - 1];
      if nb.None? || visited[nb.value.nodeId - 1] then earlier else earlier + [nb.value.nodeId]
  }

  /** An id is a flood target exactly when one of the first `n` slots holds
      a neighbour with that id whose node is unvisited; in particular no
      visited node is ever sent a ROUTING packet. */
  lemma {:induction false} RoutingTargetsExactly(neighbors: seq<Option<Neighbor>>, visited: seq<bool>, n: nat)
    requires n <= |neighbors| && IdsIndexVisited(neighbors, n, |visited|)
    ensures forall id :: id in RoutingTargets(neighbors, visited, n) <==>
      1 <= id <= |visited| && !visited[id - 1] &&
      exists i :: 0 <= i < n && neighbors[i] .Some? && neighbors[i].value.nodeId == id
  {
    if n > 0 {
      RoutingTargetsExactly(neighbors, visited, n - 1);
    }
  }

  /** The ROUTING packets of a flood step, one per target in slot order,
      each go to an unvisited present neighbour among the first `n` slots
      and carry the same snapshot. */
  lemma RoutingPacketsQualify(neighbors: seq<Option<Neighbor>>, visited: seq<bool>, n: nat, sent: seq<Emitted>,
                              data: RoutingData, nodeId: U16)
    requires n <= |neighbors| && SlotsHoldOwnIds(neighbors) && IdsIndexVisited(neighbors, n, |visited|)
    requires |sent| == |RoutingTargets(neighbors, visited, n)|
    requires forall k :: 0 <= k < |sent| ==>
      sent[k] == Routing(data, nodeId, RoutingTargets(neighbors, visited, n)[k], RoutingTargets(neighbors, visited, n)[k])
    ensures forall e :: e in sent ==>
      && e.Routing? && e.to == e.destNodeId && e.prevNodeId == nodeId
      && 1 <= e.to as int <= |visited| && !visited[e.to - 1]
      && e.to as int <= n && neighbors[e.to - 1].Some? && e.data == data
  {
    var targets := RoutingTargets(neighbors, visited, n);
    RoutingTargetsExactly(neighbors, visited, n);
    forall e | e in sent
      ensures && e.Routing? && e.to == e.destNodeId && e.prevNodeId == nodeId
              && 1 <= e.to as int <= |visited| && !visited[e.to - 1]
              && e.to as int <= n && neighbors[e.to - 1].Some? && e.data == data
    {
      var k :| 0 <= k < |sent| && sent[k] == e;
      assert e.to == targets[k] && targets[k] in targets;
      var i :| 0 <= i < n && neighbors[i].Some? && neighbors[i].value.nodeId == e.to;
      assert neighbors[i].value.nodeId as int == i + 1;
    }
  }

  /** find_all_routes_send: mark this node visited and append it to the
      path; then, if it can reach the external target, send one ROUTING_DONE
      back along the path (to the node before it, `path[path_length - 2]`
      after the append); otherwise send one ROUTING packet with a snapshot of
      the discovery state to every unvisited neighbour among the first
      `total_nodes` slots. `canConnect` is the answer of `can_connect_func`. */
  method FindAllRoutesSend(
    nodeId: U16, canConnect: bool, neighbors: seq<Option<Neighbor>>,
    totalNodes: U16, visited: array<bool>, path: array<U16>, pathLength: U16, timeTaken: U32)
    returns (sent: seq<Emitted>)
    requires 1 <= nodeId <= visited.Length
    requires pathLength < path.Length && pathLength < U16_LIMIT - 1
    requires totalNodes <= |neighbors| && totalNodes <= visited.Length && totalNodes <= path.Length
    requires IdsIndexVisited(neighbors, totalNodes, visited.Length)
    modifies visited, path
    ensures visited[..] == old(visited[..])[nodeId - 1 := true]
    ensures path[..] == old(path[..])[pathLength := nodeId]
    ensures canConnect ==> sent == [RoutingDone(
      InitRoute(path[0], nodeId, path[..], pathLength + 1, timeTaken), 1,
      nodeId, path[0], Hop(path[..], pathLength - 1))]
    ensures !canConnect ==> var targets := RoutingTargets(neighbors, visited[..], totalNodes);
      && |sent| == |targets|
      && forall k :: 0 <= k < |sent| ==> sent[k] == Routing(
           InitRoutingData(nodeId, totalNodes, visited[..], path[..], pathLength + 1, timeTaken),
           nodeId, targets[k], targets[k])
  {
    visited[nodeId - 1] := true;
    path[pathLength] := nodeId;
    var length := pathLength + 1;

    if canConnect {
      var route := InitRoute(path[0], nodeId, path[..], length, timeTaken);
      var stepFromDestination: U16 := 1;
      var to := Hop(path[..], length - stepFromDestination - 1);
      sent := [RoutingDone(route, stepFromDestination, nodeId, path[0], to)];
    } else {
      sent := [];
      var data := InitRoutingData(nodeId, totalNodes, visited[..], path[..], length, timeTaken);
      var i: U16 := 0;
      while i < totalNodes
        invariant 0 <= i <= totalNodes
        invariant visited[..] == old(visited[..])[nodeId - 1 := true]
        invariant path[..] == old(path[..])[pathLength := nodeId]
        invariant var targets := RoutingTargets(neighbors, visited[..], i);
          && |sent| == |targets|
          && forall k :: 0 <= k < |sent| ==> sent[k] == Routing(data, nodeId, targets[k], targets[k])
      {
        var neighbor := neighbors[i];
        if neighbor.None? || visited[neighbor.value.nodeId - 1] {
          i := i + 1;
          continue;
        }
        sent := sent + [Routing(data, nodeId, neighbor.value.nodeId, neighbor.value.nodeId)];
        i := i + 1;
      }
    }
  }

  /** find_all_routes: start a discovery at `nodeId` with every node
      unvisited, an empty path and time 0. The path buffer is uninitialised
      in C; its unwritten entries are 0 here. A node that can connect itself
      answers with a one-hop route whose return hop `path[-1]` lies outside
      the buffer. */
  method FindAllRoutes(nodeId: U16, canConnect: bool, neighbors: seq<Option<Neighbor>>, totalNodes: U16)
    returns (sent: seq<Emitted>)
    requires 1 <= nodeId <= totalNodes && totalNodes <= |neighbors|
    requires IdsIndexVisited(neighbors, totalNodes, totalNodes)
    ensures canConnect ==> sent == [RoutingDone(Route(nodeId, nodeId, [nodeId], 0), 1, nodeId, nodeId, None)]
    ensures !canConnect ==>
      var visited := seq(totalNodes, i requires 0 <= i < totalNodes => i == nodeId - 1);
      var path := seq(totalNodes, i requires 0 <= i < totalNodes => if i == 0 then nodeId else 0);
      var targets := RoutingTargets(neighbors, visited, totalNodes);
      && |sent| == |targets|
      && forall k :: 0 <= k < |sent| ==> sent[k] == Routing(
           RoutingData(nodeId, totalNodes, visited, path, 1, 0), nodeId, targets[k], targets[k])
    ensures sent == Flood(nodeId, canConnect, neighbors, totalNodes)
  {
    var visited := new bool[totalNodes](_ => false);
    var path := new U16[totalNodes](_ => 0);
    sent := FindAllRoutesSend(nodeId, canConnect, neighbors, totalNodes, visited, path, 0, 0);
    assert path[..][..1] == [nodeId];
    assert visited[..] == seq(totalNodes, i requires 0 <= i < totalNodes => i == nodeId - 1);
    assert path[..] == seq(totalNodes, i requires 0 <= i < totalNodes => if i == 0 then nodeId else 0);
  }

  /** What find_all_routes emits from node `nodeId`: the ROUTING_DONE of
      a node that can connect, otherwise one ROUTING packet per flood
      target, each carrying a visited list and a path that hold only the
      node itself. */
  ghost function Flood(nodeId: U16, canConnect: bool, neighbors: seq<Option<Neighbor>>, totalNodes: U16): seq<Emitted>
    requires 1 <= nodeId <= totalNodes && totalNodes <= |neighbors|
    requires IdsIndexVisited(neighbors, totalNodes, totalNodes)
  {
    if canConnect then [RoutingDone(Route(nodeId, nodeId, [nodeId], 0), 1, nodeId, nodeId, None)]
    else
      var visited := seq(totalNodes, i requires 0 <= i < totalNodes => i == nodeId - 1);
      var path := seq(totalNodes, i requires 0 <= i < totalNodes => if i == 0 then nodeId else 0);
      var targets := RoutingTargets(neighbors, visited, totalNodes);
      seq(|targets|, k requires 0 <= k < |targets| =>
        Routing(RoutingData(nodeId, totalNodes, visited, path, 1, 0), nodeId, targets[k], targets[k]))
  }
}
