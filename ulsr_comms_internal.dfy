/** Per-node packet handling of the older generation
    (src/ulsr/comms_internal.c): moving a packet one hop along its route,
    the "bogo" fallback to random neighbours with its failure report, the
    DATA, HELLO, ROUTING and ROUTING_DONE handlers and the HELLO part of
    the poll round. `send_func` is the oracle `sendResult`, keyed by the
    receiving node, and `reading` says how its result is read; the
    external send, `packet_route_final_hop`, `packet_route_combine` and
    `route_to_packet_route` are not part of this model. */
module UlsrCommsInternal {
  import opened CLib
  import opened Neighbors
  import opened SendResult
  import opened UlsrRouting
  import opened UlsrPacket
  import opened UlsrNode
  import Queue

  /** use_packet_route: step forward, stamp this node as the previous hop
      and send to the hop now under `step`; a failed send steps back. The
      u16 `step` wraps as in C. */
  method UsePacketRoute(node: Node, packet: InternalPacket, reading: Reading, sendResult: U16 -> U16) returns (cameThrough: bool, to: U16)
    requires packet.pr != null && IncU16(packet.pr.step) < |packet.pr.path|
    modifies packet, packet.pr
    ensures packet.pr == old(packet.pr) && packet.prevNodeId == node.nodeId
    ensures to == old(packet.pr.path)[IncU16(old(packet.pr.step))]
    ensures cameThrough == CameThrough(reading, sendResult(to))
    ensures packet.pr.step == if cameThrough then IncU16(old(packet.pr.step)) else old(packet.pr.step)
    ensures packet.pr.path == old(packet.pr.path) && packet.pr.len == old(packet.pr.len)
    ensures packet.destNodeId == old(packet.destNodeId) && packet.isResponse == old(packet.isResponse)
    ensures packet.kind == old(packet.kind) && packet.payload == old(packet.payload)
  {
    var pr := packet.pr;
    pr.step := IncU16(pr.step);
    packet.prevNodeId := node.nodeId;
    to := pr.path[pr.step];
    cameThrough := CameThrough(reading, sendResult(to));
    if !cameThrough {
      pr.step := DecU16(pr.step);
    }
  }

  /** bogo_find_neighbor_stub: pick a random neighbour that is neither on
      the ignore list nor on the route walked so far, put it on the ignore
      list and write it as the next hop. */
  method BogoFindNeighborStub(node: Node, pt: PacketRoute, ignoreList: array<U16>, ignoreLen: U16, random: nat)
    returns (nextHopId: U16, newIgnoreLen: U16)
    requires node.knownNodesCount as int <= node.neighbors.Length
    requires ignoreList.Length == node.knownNodesCount as int && ignoreLen as int < ignoreList.Length
    requires pt.step as int + 1 < |pt.path|
    modifies ignoreList, pt
    ensures nextHopId == ChooseNeighbor(
      Candidates(node.neighbors[..], node.knownNodesCount as nat, old(pt.path)[..old(pt.step)], Some(old(ignoreList[..ignoreLen]))),
      random)
    ensures newIgnoreLen as int == ignoreLen as int + 1
    ensures ignoreList[..] == old(ignoreList[..])[ignoreLen := nextHopId]
    ensures ignoreList[..newIgnoreLen] == old(ignoreList[..ignoreLen]) + [nextHopId]
    ensures pt.path == old(pt.path)[old(pt.step) as int + 1 := nextHopId]
    ensures pt.path[..old(pt.step) as int + 1] == old(pt.path)[..old(pt.step) as int + 1]
    ensures pt.step == old(pt.step) && pt.len == old(pt.len)
  {
    nextHopId := FindRandomNeighbor(node.neighbors, node.knownNodesCount, pt.path, pt.step,
                                    Some(ignoreList[..]), ignoreLen, random);
    ignoreList[ignoreLen] := nextHopId;
    newIgnoreLen := ignoreLen + 1;
    pt.path := pt.path[pt.step as int + 1 := nextHopId];
    assert ignoreList[..newIgnoreLen] == old(ignoreList[..ignoreLen]) + [nextHopId];
  }

  /** The start of send_bogo: cut the route back to the hops walked so
      far plus one free slot, set up an empty ignore list of
      `known_nodes_count` entries and make the first pick. */
  method BogoBegin(node: Node, packet: InternalPacket, random: nat) returns (ignoreList: array<U16>, nextHopId: U16)
    requires 1 <= node.knownNodesCount as int <= node.neighbors.Length
    requires packet.pr != null && packet.pr.step < U16_LIMIT - 2
    modifies packet.pr
    ensures fresh(ignoreList) && ignoreList.Length == node.knownNodesCount as int && ignoreList[..1] == [nextHopId]
    ensures var step := old(packet.pr.step) as int;
      var base := Resized(old(packet.pr.path), step + 2);
      && packet.pr.step == old(packet.pr.step) && packet.pr.len as int == step + 1
      && |packet.pr.path| == step + 2 && packet.pr.path[..step + 1] == base[..step + 1]
      && packet.pr.path[..step] == base[..step] && packet.pr.path[step + 1] == nextHopId
      && nextHopId == ChooseNeighbor(Candidates(node.neighbors[..], node.knownNodesCount as nat, base[..step], Some([])), random)
  {
    var pr := packet.pr;
    pr.path := Resized(pr.path, pr.step as nat + 2);
    pr.len := pr.step + 1;
    ignoreList := new U16[node.knownNodesCount];
    var ignoreLen: U16 := 0;
    assert ignoreList[..ignoreLen] == [];
    nextHopId, ignoreLen := BogoFindNeighborStub(node, pr, ignoreList, ignoreLen, random);
  }

  /** One pass of send_bogo's loop: lengthen the route by the hop under
      `step + 1` and try it; when it fails, shorten the route again and
      pick the next neighbour. */
  method BogoTry(node: Node, packet: InternalPacket, ignoreList: array<U16>, ignoreLen: U16,
                 reading: Reading, sendResult: U16 -> U16, random: nat)
    returns (cameThrough: bool, nextHopId: U16, newIgnoreLen: U16)
    requires node.knownNodesCount as int <= node.neighbors.Length
    requires packet.pr != null && packet.pr.step < U16_LIMIT - 2
    requires |packet.pr.path| == packet.pr.step as int + 2 && packet.pr.len as int == packet.pr.step as int + 1
    requires ignoreList.Length == node.knownNodesCount as int && ignoreLen as int < ignoreList.Length
    modifies packet, packet.pr, ignoreList
    ensures packet.pr == old(packet.pr) && packet.prevNodeId == node.nodeId && packet.payload == old(packet.payload)
    ensures |packet.pr.path| == |old(packet.pr.path)|
    ensures var step := old(packet.pr.step) as int;
      && cameThrough == CameThrough(reading, sendResult(old(packet.pr.path)[step + 1]))
      && (cameThrough ==>
           && packet.pr.step as int == step + 1 && packet.pr.len as int == step + 2
           && packet.pr.path == old(packet.pr.path))
      && (!cameThrough ==>
           && packet.pr.step as int == step && packet.pr.len as int == step + 1
           && nextHopId == ChooseNeighbor(
                Candidates(node.neighbors[..], node.knownNodesCount as nat, old(packet.pr.path)[..step],
                           Some(old(ignoreList[..ignoreLen]))), random)
           && newIgnoreLen as int == ignoreLen as int + 1
           && ignoreList[..newIgnoreLen] == old(ignoreList[..ignoreLen]) + [nextHopId]
           && packet.pr.path[..step + 1] == old(packet.pr.path)[..step + 1]
           && packet.pr.path[..step] == old(packet.pr.path)[..step]
           && packet.pr.path[step + 1] == nextHopId)
  {
    var pr := packet.pr;
    pr.len := IncU16(pr.len);
    var to;
    cameThrough, to := UsePacketRoute(node, packet, reading, sendResult);
    nextHopId, newIgnoreLen := 0, ignoreLen;
    if !cameThrough {
      /* a refused hop gives its slot back before the next pick */
      pr.len := DecU16(pr.len);
      ghost var path0 := pr.path;
      nextHopId, newIgnoreLen := BogoFindNeighborStub(node, pr, ignoreList, ignoreLen, random);
      assert pr.path[..pr.step] == path0[..pr.step] by {
        assert pr.path[..pr.step] == pr.path[..pr.step as int + 1][..pr.step];
      }
    }
  }

  /** How many hops of the walked route a failure report reverses: as
      written reverse_packet_route takes the first `step`, leaving out the
      node that holds the packet; the corrected reversal (FailureRoute,
      see Findings) takes the first `step + 1`. */
  function ReportLength(reading: Reading, step: nat): nat
  {
    match reading
    case AsWritten => step
    case Intended => step + 1
  }

  /** The route a failure report takes back, as `reading` says:
      reverse_packet_route's as written, FailureRoute's as intended. */
  method ReportRoute(pt: PacketRoute, reading: Reading) returns (reversed: PacketRoute)
    requires pt.step < pt.len <= |pt.path| && pt.step < U16_LIMIT - 1
    ensures fresh(reversed)
    ensures var n := ReportLength(reading, pt.step as nat);
      reversed.path == Reversed(pt.path[..n]) && reversed.len as nat == n && reversed.step == 0
  {
    if reading == AsWritten {
      reversed := ReversePacketRoute(pt);
    } else {
      reversed := FailureRoute(pt);
    }
  }

  /** A failure report as propogate_failure builds it: a DATA packet
      flagged as a response, carrying the failure for `failed`, stamped
      with this node as the previous hop, on the first `n` hops of the
      route reversed. Its route has been advanced by one hop when that hop
      exists and took it. */
  ghost predicate FailureReport(failure: InternalPacket, nodeId: U16, failed: ExternalPacket, defaultPort: U16,
                                path: seq<U16>, n: nat)
    reads failure, failure.pr
  {
    && n <= |path|
    && failure.kind == Data && failure.payload == External(CreateFailure(failed, defaultPort))
    && failure.isResponse && failure.prevNodeId == nodeId
    && failure.pr != null
    && failure.pr.path == Reversed(path[..n]) && failure.pr.len as nat == n
    && failure.pr.step <= 1
  }

  /** propogate_failure: wrap a failure report for the packet's external
      payload in a fresh internal packet whose route leads back along the
      hops walked, and send it one hop, to `sentTo`. As written the route
      is reverse_packet_route's; read as intended it is FailureRoute's,
      which keeps the node holding the packet at step 0
      (FailureReportNextHop says where each leads). A reversed route of
      fewer than two hops has no next hop (the C code then reads past it);
      no send is made then. */
  method PropogateFailure(node: Node, packet: InternalPacket, failed: ExternalPacket, reading: Reading, sendResult: U16 -> U16,
                          defaultPort: U16, packetSize: U32)
    returns (failure: InternalPacket, sentTo: Option<U16>)
    requires packet.pr != null && packet.pr.step < packet.pr.len <= |packet.pr.path| && packet.pr.step < U16_LIMIT - 1
    requires packet.payload == External(failed)
    ensures fresh(failure) && fresh(failure.pr)
    ensures var n := ReportLength(reading, packet.pr.step as nat);
      && FailureReport(failure, node.nodeId, failed, defaultPort, packet.pr.path, n)
      && sentTo == NextHopOfReversed(packet.pr.path, n)
      && failure.pr.step == if sentTo.Some? && CameThrough(reading, sendResult(sentTo.value)) then 1 else 0
  {
    var report := CreateFailure(failed, defaultPort);
    failure := new InternalPacket.FromExternal(report, packetSize);
    var reversed := ReportRoute(packet.pr, reading);
    failure.pr := reversed;
    failure.isResponse := true;
    failure.prevNodeId := node.nodeId;
    sentTo := None;
    if reversed.len < 2 {
      return;
    }
    var cameThrough, to := UsePacketRoute(node, failure, reading, sendResult);
    sentTo := Some(to);
  }

  /** Where a failure report goes: read as intended, to the node the
      packet came from, `path[step - 1]`; as written, two hops back, to
      `path[step - 2]`; and nowhere when the reversed route is shorter than
      two hops. */
  lemma FailureReportNextHop(reading: Reading, path: seq<U16>, step: nat)
    requires step < |path|
    ensures var hop := NextHopOfReversed(path, ReportLength(reading, step));
      && (reading == Intended ==> (hop.Some? <==> step >= 1) && (step >= 1 ==> hop == Some(path[step - 1])))
      && (reading == AsWritten ==> (hop.Some? <==> step >= 2) && (step >= 2 ==> hop == Some(path[step - 2])))
  {
    if reading == AsWritten {
      ReversedPacketRouteSkipsPreviousHop(path, step);
    } else if step >= 1 {
      FailureRouteGoesBackOneHop(path, step);
    }
  }

  /** The search of send_bogo: cut the route back to the hops walked so
      far plus one free slot, then keep trying random neighbours (the
      `n`-th pick uses `random(n)` for `rand()`) until one takes the packet
      or none is left. `tried` lists the neighbours sent to, in order. Each
      is tried once, every one but a successful last one failed, and the
      loop ends because each failed try removes a candidate. When it gives
      up, every neighbour not on the route has been tried. Read as written
      no send fails, so the first pick, if there is one, takes the packet.
      The ignore list has `known_nodes_count` entries; it cannot overflow
      because the node's own slot holds no neighbour. */
  method BogoSearch(node: Node, packet: InternalPacket, reading: Reading, sendResult: U16 -> U16, random: nat -> nat)
    returns (cameThrough: bool, tried: seq<U16>)
    requires node.knownNodesCount as int <= node.neighbors.Length && SlotsHoldOwnIds(node.neighbors[..])
    requires packet.pr != null && packet.pr.step < U16_LIMIT - 2
    requires 1 <= node.nodeId <= node.knownNodesCount && node.neighbors[node.nodeId - 1].None?
    modifies packet, packet.pr
    ensures packet.pr == old(packet.pr) && packet.payload == old(packet.payload)
    ensures var step := old(packet.pr.step) as nat;
      var base := Resized(old(packet.pr.path), step + 2);
      && |packet.pr.path| == step + 2 && packet.pr.path[..step + 1] == base[..step + 1]
      && TriedOnce(node.neighbors[..], node.knownNodesCount as nat, base[..step], tried)
      && (cameThrough ==>
           && tried != [] && packet.pr.path[step + 1] == tried[|tried| - 1]
           && CameThrough(reading, sendResult(tried[|tried| - 1]))
           && packet.pr.step as nat == step + 1 && packet.pr.len as nat == step + 2)
      && (!cameThrough ==>
           && packet.pr.step as nat == step && packet.pr.len as nat == step + 1
           && Candidates(node.neighbors[..], node.knownNodesCount as nat, base[..step], Some(tried)) == [])
    ensures AllFailed(if cameThrough then tried[..|tried| - 1] else tried, reading, sendResult)
    ensures packet.prevNodeId == if tried == [] then old(packet.prevNodeId) else node.nodeId
  {
    var pr := packet.pr;
    ghost var step0 := pr.step as nat;
    ghost var base := Resized(pr.path, step0 + 2);
    ghost var nbs := node.neighbors[..];
    ghost var walked := base[..step0];
    var count := node.knownNodesCount;
    var ignoreList, nextHopId := BogoBegin(node, packet, random(0));
    var ignoreLen: U16 := 1;
    tried := [];
    BogoStart(nbs, count as nat, walked, nextHopId, random, node.nodeId as nat - 1);
    cameThrough := false;
    while nextHopId != 0
      invariant pr == packet.pr && pr.step as nat == step0 && pr.len as nat == step0 + 1
      invariant |pr.path| == step0 + 2 && pr.path[..step0 + 1] == base[..step0 + 1]
      invariant pr.path[..step0] == walked
      invariant pr.path[step0 + 1] == nextHopId && packet.payload == old(packet.payload)
      invariant BogoLoop(nbs, count as nat, walked, tried, nextHopId, random)
      invariant ignoreList.Length == count as int && ignoreLen as nat == |tried| + 1 <= count as nat
      invariant ignoreList[..ignoreLen] == tried + [nextHopId]
      invariant AllFailed(tried, reading, sendResult)
      invariant packet.prevNodeId == if tried == [] then old(packet.prevNodeId) else node.nodeId
      decreases |Candidates(nbs, count as nat, walked, Some(tried))|
    {
      BogoAdvance(nbs, count as nat, walked, tried, nextHopId, random);
      var hop := nextHopId;
      ghost var failedBefore := tried;
      cameThrough, nextHopId, ignoreLen := BogoTry(node, packet, ignoreList, ignoreLen, reading, sendResult, random(|tried| + 1));
      tried := tried + [hop];
      if cameThrough {
        assert tried[..|tried| - 1] == failedBefore;
        return;
      }
      AllFailedAppend(failedBefore, hop, reading, sendResult);
    }
    BogoEnd(nbs, count as nat, walked, tried, random);
  }

  /** send_bogo: the search; when it gives up, a failure report goes back
      along the route (`failure`, null when the packet came through).
      Either way find_all_routes then floods the mesh from this node:
      `floods` are the packets it sends (`canConnect` is the node's
      can_connect_func). */
  method SendBogo(node: Node, packet: InternalPacket, failed: ExternalPacket, canConnect: bool,
                  reading: Reading, sendResult: U16 -> U16, random: nat -> nat, defaultPort: U16, packetSize: U32)
    returns (cameThrough: bool, tried: seq<U16>, failure: InternalPacket?, floods: seq<Emitted>)
    requires node.knownNodesCount as int <= node.neighbors.Length && SlotsHoldOwnIds(node.neighbors[..])
    requires packet.pr != null && packet.pr.step < U16_LIMIT - 2 && packet.payload == External(failed)
    requires 1 <= node.nodeId <= node.knownNodesCount && node.neighbors[node.nodeId - 1].None?
    modifies packet, packet.pr
    ensures packet.pr == old(packet.pr) && packet.payload == old(packet.payload)
    ensures BogoOutcome(node.neighbors[..], node.knownNodesCount as nat, Walked(old(packet.pr.path), old(packet.pr.step) as nat),
                        tried, cameThrough, reading, sendResult)
    ensures var step := old(packet.pr.step) as nat;
      var base := Resized(old(packet.pr.path), step + 2);
      && |packet.pr.path| == step + 2 && packet.pr.path[..step + 1] == base[..step + 1]
      && (cameThrough ==>
           && packet.pr.path[step + 1] == tried[|tried| - 1]
           && packet.pr.step as nat == step + 1 && packet.pr.len as nat == step + 2)
      && (!cameThrough ==> packet.pr.step as nat == step && packet.pr.len as nat == step + 1)
    ensures packet.prevNodeId == if tried == [] then old(packet.prevNodeId) else node.nodeId
    ensures cameThrough <==> failure == null
    ensures failure != null ==>
      FailureReport(failure, node.nodeId, failed, defaultPort, packet.pr.path, ReportLength(reading, packet.pr.step as nat))
    ensures floods == Flood(node.nodeId, canConnect, node.neighbors[..], node.knownNodesCount)
  {
    cameThrough, tried := BogoSearch(node, packet, reading, sendResult, random);
    if reading == AsWritten {
      NoFailureAsWritten(if cameThrough then tried[..|tried| - 1] else tried, sendResult);
    }
    assert BogoOutcome(node.neighbors[..], node.knownNodesCount as nat, Walked(old(packet.pr.path), old(packet.pr.step) as nat),
                       tried, cameThrough, reading, sendResult);
    failure := null;
    if !cameThrough {
      var sentTo;
      failure, sentTo := PropogateFailure(node, packet, failed, reading, sendResult, defaultPort, packetSize);
    }
    floods := FindAllRoutes(node.nodeId, canConnect, node.neighbors[..], node.knownNodesCount);
  }

  /** handle_hello_packet: the sender `prev_node_id` is heard now. A sender
      without a slot entry gets one with its id; either way its `last_seen`
      becomes `now`. */
  method HandleHelloPacket(node: Node, packet: InternalPacket, now: int)
    requires node.Valid() && 1 <= packet.prevNodeId as int <= node.neighbors.Length
    modifies node.neighbors
    ensures node.Valid()
    ensures node.neighbors[..] == Refreshed(old(node.neighbors[..]), packet.prevNodeId, now)
  {
    var neighborId := packet.prevNodeId;
    RefreshKeepsLayout(node.neighbors[..], neighborId, now);
    var neighbor := node.neighbors[neighborId - 1];
    var id := neighborId;
    if neighbor.Some? {
      id := neighbor.value.nodeId;
    }
    node.neighbors[neighborId - 1] := Some(Neighbor(id, now));
  }

  /** handle_routing_packet: one step of the flooding discovery with the
      discovery state the ROUTING packet carries. The C code lets
      find_all_routes_send mark and extend the packet's own `visited` and
      `path` buffers; here they are copied into fresh buffers, since the
      packet is freed right after. `canConnect` is the answer of
      `can_connect_func`. Every ROUTING packet goes to a present, unvisited
      neighbour among the first `total_nodes` slots, one to each such
      neighbour in slot order. */
  method HandleRoutingPacket(node: Node, packet: InternalPacket, routingData: RoutingData, canConnect: bool)
    returns (sent: seq<Emitted>)
    requires node.Valid() && packet.payload == Discovery(routingData)
    requires 1 <= node.nodeId as int <= |routingData.visited|
    requires routingData.pathLength as int < |routingData.path| && routingData.pathLength < U16_LIMIT - 1
    requires routingData.totalNodes as int <= node.neighbors.Length
    requires routingData.totalNodes as int <= |routingData.visited| && routingData.totalNodes as int <= |routingData.path|
    ensures var visited := routingData.visited[node.nodeId - 1 := true];
      var path := routingData.path[routingData.pathLength := node.nodeId];
      && (canConnect ==> sent == [Emitted.RoutingDone(
            InitRoute(path[0], node.nodeId, path, routingData.pathLength + 1, routingData.timeTaken), 1,
            node.nodeId, path[0], Hop(path, routingData.pathLength as int - 1))])
      && (!canConnect ==> forall e :: e in sent ==>
            && e.Routing? && e.to == e.destNodeId && e.prevNodeId == node.nodeId
            && 1 <= e.to as int <= |visited| && !visited[e.to - 1]
            && e.to as int <= routingData.totalNodes as int && node.neighbors[e.to - 1].Some?
            && e.data == InitRoutingData(node.nodeId, routingData.totalNodes, visited, path,
                                         routingData.pathLength + 1, routingData.timeTaken))
      && (!canConnect ==>
            && IdsIndexVisited(node.neighbors[..], routingData.totalNodes as nat, |visited|)
            && var targets := RoutingTargets(node.neighbors[..], visited, routingData.totalNodes as nat);
               && |sent| == |targets|
               && forall k :: 0 <= k < |sent| ==> sent[k] == Emitted.Routing(
                    InitRoutingData(node.nodeId, routingData.totalNodes, visited, path,
                                    routingData.pathLength + 1, routingData.timeTaken),
                    node.nodeId, targets[k], targets[k]))
  {
    var visited := new bool[|routingData.visited|](i requires 0 <= i < |routingData.visited| => routingData.visited[i]);
    var path := new U16[|routingData.path|](i requires 0 <= i < |routingData.path| => routingData.path[i]);
    assert visited[..] == routingData.visited && path[..] == routingData.path;
    var nbs := node.neighbors[..];
    assert IdsIndexVisited(nbs, routingData.totalNodes as nat, visited.Length) by {
      forall i | 0 <= i < routingData.totalNodes as int && nbs[i].Some?
        ensures 1 <= nbs[i].value.nodeId as int <= visited.Length
      {
        assert nbs[i].value.nodeId as int == i + 1;
      }
    }
    sent := FindAllRoutesSend(node.nodeId, canConnect, nbs, routingData.totalNodes, visited, path,
                              routingData.pathLength, routingData.timeTaken);
    ghost var marked, extended := visited[..], path[..];
    assert marked == routingData.visited[node.nodeId - 1 := true];
    assert extended == routingData.path[routingData.pathLength := node.nodeId];
    if !canConnect {
      RoutingPacketsQualify(nbs, marked, routingData.totalNodes as nat, sent,
                            InitRoutingData(node.nodeId, routingData.totalNodes, marked, extended,
                                            routingData.pathLength + 1, routingData.timeTaken),
                            node.nodeId);
    }
  }

  /** What handle_routing_done_packet did with a discovered route. */
  datatype RoutingDoneOutcome =
    | Queued(pushed: bool)        // for this node: queue_push onto the route queue (false when full)
    | Forwarded(to: Option<U16>)  // passed one hop back; `None` is a read past the path

  /** handle_routing_done_packet: a ROUTING_DONE packet for this node pushes
      its route onto the route queue; any other node stamps itself as the
      previous hop, counts one more step from the destination and sends the
      packet to the hop that many steps before the route's end. */
  method HandleRoutingDonePacket(node: Node, packet: InternalPacket, routePayload: RoutePayload)
    returns (outcome: RoutingDoneOutcome)
    requires node.Valid() && packet.payload == RouteDone(routePayload)
    modifies packet, routePayload, node.routeQueue, node.routeQueue.items
    ensures node.Valid()
    ensures outcome.Queued? <==> old(packet.destNodeId) == node.nodeId
    ensures outcome.Queued? ==>
      && (outcome.pushed <==> old(node.routeQueue.size) < old(node.routeQueue.max))
      && node.routeQueue.Contents == old(node.routeQueue.Contents) + (if outcome.pushed then [routePayload.route] else [])
      && packet.prevNodeId == old(packet.prevNodeId) && routePayload.stepFromDestination == old(routePayload.stepFromDestination)
    ensures outcome.Forwarded? ==>
      && node.routeQueue.Contents == old(node.routeQueue.Contents)
      && packet.prevNodeId == node.nodeId
      && routePayload.stepFromDestination == IncU16(old(routePayload.stepFromDestination))
      && outcome.to == Hop(routePayload.route.path, |routePayload.route.path| - routePayload.stepFromDestination as int - 1)
    ensures packet.destNodeId == old(packet.destNodeId) && packet.pr == old(packet.pr) && packet.payload == old(packet.payload)
  {
    var route := routePayload.route;
    if packet.destNodeId == node.nodeId {
      var pushed := node.routeQueue.Push(route);
      return Queued(pushed);
    }
    packet.prevNodeId := node.nodeId;
    routePayload.stepFromDestination := IncU16(routePayload.stepFromDestination);
    /* send_func's result is not looked at */
    return Forwarded(Hop(route.path, |route.path| - routePayload.stepFromDestination as int - 1));
  }

  /** What handle_data_packet did with a DATA packet. */
  datatype DataOutcome =
    | ToClient                                 // a response at its final hop, handed to handle_send_external
    | ToExternal                               // the final hop reaches the external network
    | Sent(to: U16)                            // the next hop of the route took the packet
    | Bogo(tried: seq<U16>, cameThrough: bool) // send_bogo's tries

  /** The first strategy of handle_data_packet at a final hop that cannot
      leave the mesh: pop the oldest route off the route queue, if there is
      one, make `combined` (packet_route_combine of the packet's route and
      the popped one) the packet's route and send along it. */
  method RouteFromQueue(node: Node, packet: InternalPacket, combined: PacketRoute, reading: Reading, sendResult: U16 -> U16)
    returns (popped: Option<Route>, cameThrough: bool, to: U16)
    requires node.Valid() && packet.pr != null && packet.pr != combined
    requires IncU16(combined.step) < |combined.path|
    modifies packet, combined, node.routeQueue
    ensures node.Valid()
    ensures popped == if old(node.routeQueue.Contents) == [] then None else Some(old(node.routeQueue.Contents)[0])
    ensures node.routeQueue.Contents == if popped.None? then old(node.routeQueue.Contents) else old(node.routeQueue.Contents)[1..]
    ensures popped.None? ==> !cameThrough && packet.pr == old(packet.pr) && combined.step == old(combined.step)
    ensures popped.Some? ==>
      && packet.pr == combined && to == old(combined.path)[IncU16(old(combined.step))]
      && cameThrough == CameThrough(reading, sendResult(to))
      && combined.step == (if cameThrough then IncU16(old(combined.step)) else old(combined.step))
    ensures packet.payload == old(packet.payload) && packet.isResponse == old(packet.isResponse)
    ensures combined.path == old(combined.path)
  {
    popped, cameThrough, to := None, false, 0;
    if !node.routeQueue.Empty() {
      popped := node.routeQueue.Pop();
      packet.pr := combined;
      cameThrough, to := UsePacketRoute(node, packet, reading, sendResult);
    }
  }

  /** The fallback of handle_data_packet once the route has failed:
      send_bogo, and when it gives up (having already sent a failure report
      itself) propogate_failure a second time. `floods` are the packets of
      send_bogo's find_all_routes. */
  method BogoFallback(node: Node, packet: InternalPacket, canConnect: bool, reading: Reading, sendResult: U16 -> U16,
                      random: nat -> nat, defaultPort: U16, packetSize: U32)
    returns (outcome: DataOutcome, failures: seq<InternalPacket>, floods: seq<Emitted>)
    requires node.knownNodesCount as int <= node.neighbors.Length && SlotsHoldOwnIds(node.neighbors[..])
    requires 1 <= node.nodeId <= node.knownNodesCount && node.neighbors[node.nodeId - 1].None?
    requires packet.payload.External? && packet.pr != null && packet.pr.step < U16_LIMIT - 2
    modifies packet, packet.pr
    ensures outcome.Bogo? && packet.pr == old(packet.pr) && packet.payload == old(packet.payload)
    ensures !outcome.cameThrough ==>
      && |failures| == 2
      && forall k :: 0 <= k < 2 ==>
           FailureReport(failures[k], node.nodeId, old(packet.payload).packet, defaultPort,
                         packet.pr.path, ReportLength(reading, packet.pr.step as nat))
    ensures outcome.cameThrough ==> failures == []
    ensures floods == Flood(node.nodeId, canConnect, node.neighbors[..], node.knownNodesCount)
    ensures BogoOutcome(node.neighbors[..], node.knownNodesCount as nat, Walked(old(packet.pr.path), old(packet.pr.step) as nat),
                        outcome.tried, outcome.cameThrough, reading, sendResult)
  {
    var failed := packet.payload.packet;
    var cameThrough, tried, failure;
    cameThrough, tried, failure, floods := SendBogo(node, packet, failed, canConnect, reading, sendResult, random,
                                                    defaultPort, packetSize);
    outcome, failures := Bogo(tried, cameThrough), [];
    if !cameThrough {
      failures := PropogateAgain(node, packet, failed, failure, reading, sendResult, defaultPort, packetSize);
    }
  }

  /** The second propogate_failure of handle_data_packet, after the one in
      send_bogo made `first`: both reports are the same failure report. */
  method PropogateAgain(node: Node, packet: InternalPacket, failed: ExternalPacket, first: InternalPacket,
                        reading: Reading, sendResult: U16 -> U16, defaultPort: U16, packetSize: U32)
    returns (failures: seq<InternalPacket>)
    requires packet.pr != null && packet.pr.step < packet.pr.len <= |packet.pr.path| && packet.pr.step < U16_LIMIT - 1
    requires packet.payload == External(failed)
    requires FailureReport(first, node.nodeId, failed, defaultPort, packet.pr.path, ReportLength(reading, packet.pr.step as nat))
    ensures |failures| == 2 && failures[0] == first
    ensures forall k :: 0 <= k < 2 ==>
      FailureReport(failures[k], node.nodeId, failed, defaultPort, packet.pr.path, ReportLength(reading, packet.pr.step as nat))
  {
    var again, sentTo := PropogateFailure(node, packet, failed, reading, sendResult, defaultPort, packetSize);
    failures := [first, again];
    assert failures[0] == first && failures[1] == again;
  }

  /** The route-following part of handle_data_packet. At the final hop of
      its route (`finalHop` is packet_route_final_hop) a response goes to
      the client and any other packet to the external network when the
      node can connect (`canConnect`); failing that, the oldest route on
      the route queue is popped and `combined`, what packet_route_combine
      makes of the packet's route and that one, becomes the packet's route.
      Before its final hop the packet takes the next hop of its route.
      `routed` is `None` exactly when send_bogo has to take over: the queue
      was empty or the hop failed. */
  method FollowRoute(node: Node, packet: InternalPacket, finalHop: U16, canConnect: bool, combined: PacketRoute,
                     reading: Reading, sendResult: U16 -> U16)
    returns (routed: Option<DataOutcome>, popped: Option<Route>)
    requires node.Valid() && packet.pr != null
    requires node.nodeId != finalHop ==> IncU16(packet.pr.step) < |packet.pr.path|
    requires combined != packet.pr && IncU16(combined.step) < |combined.path|
    modifies packet, packet.pr, combined, node.routeQueue
    ensures node.Valid()
    ensures var atFinal := node.nodeId == finalHop;
      var drawsRoute := atFinal && !old(packet.isResponse) && !canConnect;
      && (drawsRoute ==>
            && popped == (if old(node.routeQueue.Contents) == [] then None else Some(old(node.routeQueue.Contents)[0]))
            && node.routeQueue.Contents == (if popped.None? then old(node.routeQueue.Contents) else old(node.routeQueue.Contents)[1..]))
      && (!drawsRoute ==> popped.None? && node.routeQueue.Contents == old(node.routeQueue.Contents))
      && (atFinal && old(packet.isResponse) ==> routed == Some(ToClient) && packet.pr == old(packet.pr))
      && (atFinal && !old(packet.isResponse) && canConnect ==> routed == Some(ToExternal) && packet.pr == old(packet.pr))
      && (drawsRoute && popped.Some? ==>
            && packet.pr == combined
            && var hop := old(combined.path)[IncU16(old(combined.step))];
               routed == if CameThrough(reading, sendResult(hop)) then Some(Sent(hop)) else None)
      && (drawsRoute && popped.None? ==> routed.None? && packet.pr == old(packet.pr))
      && (!atFinal ==>
            && packet.pr == old(packet.pr)
            && var hop := old(packet.pr.path)[IncU16(old(packet.pr.step))];
               routed == if CameThrough(reading, sendResult(hop)) then Some(Sent(hop)) else None)
    ensures routed.None? ==>
      if popped.Some? then packet.pr.path == old(combined.path) && packet.pr.step == old(combined.step)
      else packet.pr.path == old(packet.pr.path) && packet.pr.step == old(packet.pr.step)
    ensures packet.payload == old(packet.payload)
  {
    popped := None;
    if node.nodeId == finalHop {
      if packet.isResponse {
        return Some(ToClient), None;
      }
      if canConnect {
        return Some(ToExternal), None;
      }
      var cameThrough, to;
      popped, cameThrough, to := RouteFromQueue(node, packet, combined, reading, sendResult);
      return if cameThrough then Some(Sent(to)) else None, popped;
    }
    var cameThrough, to := UsePacketRoute(node, packet, reading, sendResult);
    return if cameThrough then Some(Sent(to)) else None, None;
  }

  /** handle_data_packet: the route is followed as `FollowRoute` says, and
      when that does not take the packet on, send_bogo takes over. When
      send_bogo gives up, it has already sent a failure report and the
      handler sends a second, identical one: `failures` holds both.
      `floods` are the packets of send_bogo's find_all_routes. */
  method HandleDataPacket(node: Node, packet: InternalPacket, finalHop: U16, canConnect: bool, combined: PacketRoute,
                          reading: Reading, sendResult: U16 -> U16, random: nat -> nat, defaultPort: U16, packetSize: U32)
    returns (outcome: DataOutcome, popped: Option<Route>, failures: seq<InternalPacket>, floods: seq<Emitted>)
    requires node.Valid() && 1 <= node.nodeId <= node.knownNodesCount && node.neighbors[node.nodeId - 1].None?
    requires packet.payload.External?
    requires packet.pr != null && packet.pr.step < U16_LIMIT - 2
    requires node.nodeId != finalHop ==> IncU16(packet.pr.step) < |packet.pr.path|
    requires combined != packet.pr && combined.step < U16_LIMIT - 2 && IncU16(combined.step) < |combined.path|
    modifies packet, packet.pr, combined, node.routeQueue
    ensures node.Valid()
    ensures var atFinal := node.nodeId == finalHop;
      var drawsRoute := atFinal && !old(packet.isResponse) && !canConnect;
      && (drawsRoute ==>
            && popped == (if old(node.routeQueue.Contents) == [] then None else Some(old(node.routeQueue.Contents)[0]))
            && node.routeQueue.Contents == (if popped.None? then old(node.routeQueue.Contents) else old(node.routeQueue.Contents)[1..]))
      && (!drawsRoute ==> popped.None? && node.routeQueue.Contents == old(node.routeQueue.Contents))
      && (atFinal && old(packet.isResponse) ==> outcome == ToClient && packet.pr == old(packet.pr))
      && (atFinal && !old(packet.isResponse) && canConnect ==> outcome == ToExternal && packet.pr == old(packet.pr))
      && (drawsRoute && popped.Some? ==>
            && packet.pr == combined
            && var hop := old(combined.path)[IncU16(old(combined.step))];
               (if CameThrough(reading, sendResult(hop)) then outcome == Sent(hop) else outcome.Bogo?))
      && (drawsRoute && popped.None? ==> outcome.Bogo? && packet.pr == old(packet.pr))
      && (!atFinal ==>
            && packet.pr == old(packet.pr)
            && var hop := old(packet.pr.path)[IncU16(old(packet.pr.step))];
               (if CameThrough(reading, sendResult(hop)) then outcome == Sent(hop) else outcome.Bogo?))
    ensures packet.payload == old(packet.payload)
    ensures outcome.Bogo? && !outcome.cameThrough ==>
      && |failures| == 2
      && forall k :: 0 <= k < 2 ==>
           FailureReport(failures[k], node.nodeId, old(packet.payload).packet, defaultPort,
                         packet.pr.path, ReportLength(reading, packet.pr.step as nat))
    ensures !(outcome.Bogo? && !outcome.cameThrough) ==> failures == []
    ensures floods == if outcome.Bogo? then Flood(node.nodeId, canConnect, node.neighbors[..], node.knownNodesCount) else []
    ensures outcome.Bogo? ==>
      BogoOutcome(node.neighbors[..], node.knownNodesCount as nat,
                  if popped.Some? then Walked(old(combined.path), old(combined.step) as nat)
                  else Walked(old(packet.pr.path), old(packet.pr.step) as nat),
                  outcome.tried, outcome.cameThrough, reading, sendResult)
  {
    var routed;
    routed, popped := FollowRoute(node, packet, finalHop, canConnect, combined, reading, sendResult);
    failures, floods := [], [];
    if routed.Some? {
      outcome := routed.value;
    } else {
      outcome, failures, floods := BogoFallback(node, packet, canConnect, reading, sendResult, random, defaultPort, packetSize);
    }
  }

  /** The sending part of a round of hello_poll_thread: a HELLO from
      `nodeId` to each id of `known` but its own, in list order. The ids
      sent to are returned. */
  method SendHellos(nodeId: U16, known: seq<U16>) returns (sentTo: seq<U16>)
    ensures sentTo == HelloTargets(known, nodeId)
    ensures forall id :: id in sentTo <==> id in known && id != nodeId
  {
    HelloTargetsExactly(known, nodeId);
    sentTo := [];
    var i := 0;
    while i < |known|
      invariant 0 <= i <= |known|
      invariant sentTo == HelloTargets(known[..i], nodeId)
    {
      var toId := known[i];
      assert known[..i + 1][..i] == known[..i];
      if toId != nodeId {
        var packet := new InternalPacket.CreateHello(nodeId, toId);
        // send_func(packet, to_id); the result is not looked at
        sentTo := sentTo + [packet.destNodeId];
      }
      i := i + 1;
    }
    assert known[..i] == known;
  }

  /** One round of hello_poll_thread: a HELLO to every node of
      `known_nodes` but this one. remove_old_neighbors, which the round
      calls next, is not defined among the older generation's files. */
  method HelloPollRound(node: Node) returns (sentTo: seq<U16>)
    ensures sentTo == HelloTargets(node.knownNodes, node.nodeId)
    ensures forall id :: id in sentTo <==> id in node.knownNodes && id != node.nodeId
  {
    sentTo := SendHellos(node.nodeId, node.knownNodes);
  }
}
