/** Per-node packet handling of the newer generation
    (src/wander/comms_internal.c): moving a packet one hop along its
    route, the "bogo" fallback to random neighbours, the HELLO and
    ROUTING_DONE handlers, the dispatch of a DATA packet and one round of
    the HELLO poll. `send_func` is the oracle `sendResult`, keyed by the
    receiving node, and `reading` says how its result is read; the
    external send, `packet_route_final_hop`, `packet_route_combine`,
    `route_sleep`, `find_all_routes` and `reverse_packet_route_from_step`
    are not part of this model. */
module WanderCommsInternal {
  import opened CLib
  import opened Neighbors
  import opened SendResult
  import opened WanderRouting
  import opened WanderRoutingTable
  import opened WanderPacket
  import opened WanderNode

  /** use_packet_route: step forward, stamp this node as the previous hop
      and send to the hop now under `step`; a failed send steps back. The
      u16 `step` wraps as in C. */
  method UsePacketRoute(node: Node, packet: InternalPacket, reading: Reading, sendResult: U16 -> U16) returns (cameThrough: bool, to: U16)
    requires packet.pr != null && IncU16(packet.pr.step) < |packet.pr.path|
    modifies packet, packet.pr
    ensures packet.pr == old(packet.pr) && packet.prevNodeId == node.nodeId
    ensures to == old(packet.pr.path)[IncU16(old(packet.pr.step))]
    ensures cameThrough == CameThrough(reading, sendResult(to))
    ensures packet.pr.step == if cameThrough then IncU16(old(packet.pr.step)) else old(packet.pr.step)
    ensures packet.pr.path == old(packet.pr.path) && packet.pr.len == old(packet.pr.len)
    ensures packet.pr.hasSlept == old(packet.pr.hasSlept)
    ensures packet.destNodeId == old(packet.destNodeId) && packet.isResponse == old(packet.isResponse)
    ensures packet.kind == old(packet.kind) && packet.payload == old(packet.payload)
  {
    var pr := packet.pr;
    pr.step := IncU16(pr.step);
    packet.prevNodeId := node.nodeId;
    to := pr.path[pr.step];
    cameThrough := CameThrough(reading, sendResult(to));
    if !cameThrough {
      pr.step := DecU16(pr.step);
    }
  }

  /** bogo_find_neighbor_stub: pick a random neighbour that is neither on
      the ignore list nor on the route walked so far, put it on the ignore
      list and write it as the next hop. */
  method BogoFindNeighborStub(node: Node, pt: PacketRoute, ignoreList: array<U16>, ignoreLen: U16, random: nat)
    returns (nextHopId: U16, newIgnoreLen: U16)
    requires node.knownNodesCount as int <= node.neighbors.Length
    requires ignoreList.Length == node.knownNodesCount as int && ignoreLen as int < ignoreList.Length
    requires pt.step as int + 1 < |pt.path|
    modifies ignoreList, pt
    ensures nextHopId == ChooseNeighbor(
      Candidates(node.neighbors[..], node.knownNodesCount as nat, old(pt.path)[..old(pt.step)], Some(old(ignoreList[..ignoreLen]))),
      random)
    ensures newIgnoreLen as int == ignoreLen as int + 1
    ensures ignoreList[..] == old(ignoreList[..])[ignoreLen := nextHopId]
    ensures ignoreList[..newIgnoreLen] == old(ignoreList[..ignoreLen]) + [nextHopId]
    ensures pt.path == old(pt.path)[old(pt.step) as int + 1 := nextHopId]
    ensures pt.path[..old(pt.step) as int + 1] == old(pt.path)[..old(pt.step) as int + 1]
    ensures pt.step == old(pt.step) && pt.len == old(pt.len) && pt.hasSlept == old(pt.hasSlept)
  {
    nextHopId := FindRandomNeighbor(node.neighbors, node.knownNodesCount, pt.path, pt.step,
                                    Some(ignoreList[..]), ignoreLen, random);
    ignoreList[ignoreLen] := nextHopId;
    newIgnoreLen := ignoreLen + 1;
    pt.path := pt.path[pt.step as int + 1 := nextHopId];
    assert ignoreList[..newIgnoreLen] == old(ignoreList[..ignoreLen]) + [nextHopId];
  }

  /** The start of send_bogo: cut the route back to the hops walked so
      far plus one free slot, set up an empty ignore list of
      `known_nodes_count` entries and make the first pick. */
  method BogoBegin(node: Node, packet: InternalPacket, random: nat) returns (ignoreList: array<U16>, nextHopId: U16)
    requires 1 <= node.knownNodesCount as int <= node.neighbors.Length
    requires packet.pr != null && packet.pr.step < U16_LIMIT - 2
    modifies packet.pr
    ensures fresh(ignoreList) && ignoreList.Length == node.knownNodesCount as int && ignoreList[..1] == [nextHopId]
    ensures var step := old(packet.pr.step) as int;
      var base := Resized(old(packet.pr.path), step + 2);
      && packet.pr.step == old(packet.pr.step) && packet.pr.len as int == step + 1
      && packet.pr.hasSlept == old(packet.pr.hasSlept)
      && |packet.pr.path| == step + 2 && packet.pr.path[..step + 1] == base[..step + 1]
      && packet.pr.path[..step] == base[..step] && packet.pr.path[step + 1] == nextHopId
      && nextHopId == ChooseNeighbor(Candidates(node.neighbors[..], node.knownNodesCount as nat, base[..step], Some([])), random)
  {
    var pr := packet.pr;
    pr.path := Resized(pr.path, pr.step as nat + 2);
    pr.len := pr.step + 1;
    ignoreList := new U16[node.knownNodesCount];
    var ignoreLen: U16 := 0;
    assert ignoreList[..ignoreLen] == [];
    nextHopId, ignoreLen := BogoFindNeighborStub(node, pr, ignoreList, ignoreLen, random);
  }

  /** One pass of send_bogo's loop: lengthen the route by the hop under
      `step + 1` and try it; when it fails, shorten the route again and
      pick the next neighbour. */
  method BogoTry(node: Node, packet: InternalPacket, ignoreList: array<U16>, ignoreLen: U16,
                 reading: Reading, sendResult: U16 -> U16, random: nat)
    returns (cameThrough: bool, nextHopId: U16, newIgnoreLen: U16)
    requires node.knownNodesCount as int <= node.neighbors.Length
    requires packet.pr != null && packet.pr.step < U16_LIMIT - 2
    requires |packet.pr.path| == packet.pr.step as int + 2 && packet.pr.len as int == packet.pr.step as int + 1
    requires ignoreList.Length == node.knownNodesCount as int && ignoreLen as int < ignoreList.Length
    modifies packet, packet.pr, ignoreList
    ensures packet.pr == old(packet.pr) && packet.prevNodeId == node.nodeId && packet.payload == old(packet.payload)
    ensures packet.pr.hasSlept == old(packet.pr.hasSlept) && |packet.pr.path| == |old(packet.pr.path)|
    ensures var step := old(packet.pr.step) as int;
      && cameThrough == CameThrough(reading, sendResult(old(packet.pr.path)[step + 1]))
      && (cameThrough ==>
           && packet.pr.step as int == step + 1 && packet.pr.len as int == step + 2
           && packet.pr.path == old(packet.pr.path))
      && (!cameThrough ==>
           && packet.pr.step as int == step && packet.pr.len as int == step + 1
           && nextHopId == ChooseNeighbor(
                Candidates(node.neighbors[..], node.knownNodesCount as nat, old(packet.pr.path)[..step],
                           Some(old(ignoreList[..ignoreLen]))), random)
           && newIgnoreLen as int == ignoreLen as int + 1
           && ignoreList[..newIgnoreLen] == old(ignoreList[..ignoreLen]) + [nextHopId]
           && packet.pr.path[..step + 1] == old(packet.pr.path)[..step + 1]
           && packet.pr.path[..step] == old(packet.pr.path)[..step]
           && packet.pr.path[step + 1] == nextHopId)
  {
    var pr := packet.pr;
    pr.len := IncU16(pr.len);
    var to;
    cameThrough, to := UsePacketRoute(node, packet, reading, sendResult);
    nextHopId, newIgnoreLen := 0, ignoreLen;
    if !cameThrough {
      /* a refused hop gives its slot back before the next pick */
      pr.len := DecU16(pr.len);
      ghost var path0 := pr.path;
      nextHopId, newIgnoreLen := BogoFindNeighborStub(node, pr, ignoreList, ignoreLen, random);
      assert pr.path[..pr.step] == path0[..pr.step] by {
        assert pr.path[..pr.step] == pr.path[..pr.step as int + 1][..pr.step];
      }
    }
  }

  /** The search of send_bogo: cut the route back to the hops walked so
      far plus one free slot, then keep trying random neighbours (the
      `n`-th pick uses `random(n)` for `rand()`) until one takes the packet
      or none is left. `tried` lists the neighbours sent to, in order. Each
      is tried once, every one but a successful last one failed, and the
      loop ends because each failed try removes a candidate. When it gives
      up, every neighbour not on the route has been tried. The ignore list
      has `known_nodes_count` entries; it cannot overflow because the
      node's own slot holds no neighbour. */
  method BogoSearch(node: Node, packet: InternalPacket, reading: Reading, sendResult: U16 -> U16, random: nat -> nat)
    returns (cameThrough: bool, tried: seq<U16>)
    requires node.neighbors.Length == node.knownNodesCount as int && SlotsHoldOwnIds(node.neighbors[..])
    requires packet.pr != null && packet.pr.step < U16_LIMIT - 2
    requires 1 <= node.nodeId <= node.knownNodesCount && node.neighbors[node.nodeId - 1].None?
    modifies packet, packet.pr
    ensures packet.pr == old(packet.pr)
    ensures var step := old(packet.pr.step) as nat;
      var base := Resized(old(packet.pr.path), step + 2);
      && |packet.pr.path| == step + 2 && packet.pr.path[..step + 1] == base[..step + 1]
      && TriedOnce(node.neighbors[..], node.knownNodesCount as nat, base[..step], tried)
      && (cameThrough ==>
           && tried != [] && packet.pr.path[step + 1] == tried[|tried| - 1]
           && CameThrough(reading, sendResult(tried[|tried| - 1]))
           && packet.pr.step as nat == step + 1 && packet.pr.len as nat == step + 2)
      && (!cameThrough ==>
           && packet.pr.step as nat == step && packet.pr.len as nat == step + 1
           && Candidates(node.neighbors[..], node.knownNodesCount as nat, base[..step], Some(tried)) == [])
    ensures AllFailed(if cameThrough then tried[..|tried| - 1] else tried, reading, sendResult)
    ensures packet.prevNodeId == if tried == [] then old(packet.prevNodeId) else node.nodeId
    ensures packet.pr.hasSlept == old(packet.pr.hasSlept) && packet.payload == old(packet.payload)
  {
    var pr := packet.pr;
    ghost var step0 := pr.step as nat;
    ghost var base := Resized(pr.path, step0 + 2);
    ghost var nbs := node.neighbors[..];
    ghost var walked := base[..step0];
    var count := node.knownNodesCount;
    var ignoreList, nextHopId := BogoBegin(node, packet, random(0));
    var ignoreLen: U16 := 1;
    tried := [];
    BogoStart(nbs, count as nat, walked, nextHopId, random, node.nodeId as nat - 1);
    cameThrough := false;
    while nextHopId != 0
      invariant pr == packet.pr && pr.step as nat == step0 && pr.len as nat == step0 + 1
      invariant |pr.path| == step0 + 2 && pr.path[..step0 + 1] == base[..step0 + 1]
      invariant pr.path[..step0] == walked
      invariant pr.path[step0 + 1] == nextHopId && pr.hasSlept == old(pr.hasSlept)
      invariant packet.payload == old(packet.payload)
      invariant BogoLoop(nbs, count as nat, walked, tried, nextHopId, random)
      invariant ignoreList.Length == count as int && ignoreLen as nat == |tried| + 1 <= count as nat
      invariant ignoreList[..ignoreLen] == tried + [nextHopId]
      invariant AllFailed(tried, reading, sendResult)
      invariant packet.prevNodeId == if tried == [] then old(packet.prevNodeId) else node.nodeId
      decreases |Candidates(nbs, count as nat, walked, Some(tried))|
    {
      BogoAdvance(nbs, count as nat, walked, tried, nextHopId, random);
      var hop := nextHopId;
      ghost var failedBefore := tried;
      cameThrough, nextHopId, ignoreLen := BogoTry(node, packet, ignoreList, ignoreLen, reading, sendResult, random(|tried| + 1));
      tried := tried + [hop];
      if cameThrough {
        assert tried[..|tried| - 1] == failedBefore;
        // find_all_routes(node, known_nodes_count) starts a discovery here
        return;
      }
      AllFailedAppend(failedBefore, hop, reading, sendResult);
    }
    BogoEnd(nbs, count as nat, walked, tried, random);
    // find_all_routes(node, known_nodes_count) starts a discovery here
  }

  /** send_bogo: the search, after which find_all_routes floods the mesh
      from this node (which is not part of this model). Read as written no
      send fails, so the first pick, if there is one, takes the packet. */
  method SendBogo(node: Node, packet: InternalPacket, reading: Reading, sendResult: U16 -> U16, random: nat -> nat)
    returns (cameThrough: bool, tried: seq<U16>)
    requires node.neighbors.Length == node.knownNodesCount as int && SlotsHoldOwnIds(node.neighbors[..])
    requires packet.pr != null && packet.pr.step < U16_LIMIT - 2
    requires 1 <= node.nodeId <= node.knownNodesCount && node.neighbors[node.nodeId - 1].None?
    modifies packet, packet.pr
    ensures packet.pr == old(packet.pr)
    ensures BogoOutcome(node.neighbors[..], node.knownNodesCount as nat, Walked(old(packet.pr.path), old(packet.pr.step) as nat),
                        tried, cameThrough, reading, sendResult)
    ensures var step := old(packet.pr.step) as nat;
      var base := Resized(old(packet.pr.path), step + 2);
      && |packet.pr.path| == step + 2 && packet.pr.path[..step + 1] == base[..step + 1]
      && (cameThrough ==>
           && packet.pr.path[step + 1] == tried[|tried| - 1]
           && packet.pr.step as nat == step + 1 && packet.pr.len as nat == step + 2)
      && (!cameThrough ==> packet.pr.step as nat == step && packet.pr.len as nat == step + 1)
    ensures packet.prevNodeId == if tried == [] then old(packet.prevNodeId) else node.nodeId
    ensures packet.pr.hasSlept == old(packet.pr.hasSlept) && packet.payload == old(packet.payload)
  {
    cameThrough, tried := BogoSearch(node, packet, reading, sendResult, random);
    if reading == AsWritten {
      NoFailureAsWritten(if cameThrough then tried[..|tried| - 1] else tried, sendResult);
    }
  }

  /** Where propagate_failure sent its failure report. */
  datatype FailureSend =
    | FailureToExternal                      // a reversed route of one hop: handed to handle_send_external
    | FailureHop(cameThrough: bool, to: U16) // use_packet_route along the reversed route

  /** propagate_failure: wrap a failure report for the packet's external
      payload in a fresh DATA packet flagged as a response and stamped with
      this node as the previous hop. Its route is `reversed`, what
      reverse_packet_route_from_step makes of the packet's route, started
      at step 0 (the C code first sets the step to `len - step` and then
      overwrites it with 0). A reversed route of a single hop goes to the
      external send; any other is sent one hop on. */
  method PropagateFailure(node: Node, packet: InternalPacket, reversed: PacketRoute, reading: Reading, sendResult: U16 -> U16,
                          defaultPort: U16)
    returns (failure: InternalPacket, sent: FailureSend)
    requires packet.payload.External?
    requires 1 <= reversed.len as int <= |reversed.path|
    modifies reversed
    ensures fresh(failure)
    ensures failure.kind == Data && failure.payload == External(CreateFailure(packet.payload.packet, defaultPort))
    ensures failure.isResponse && failure.prevNodeId == node.nodeId && failure.pr == reversed
    ensures reversed.path == old(reversed.path) && reversed.len == old(reversed.len)
    ensures reversed.hasSlept == old(reversed.hasSlept)
    ensures sent == FailureToExternal <==> reversed.len == 1
    ensures sent == FailureToExternal ==> reversed.step == 0
    ensures sent.FailureHop? ==>
      && sent.to == reversed.path[1] && sent.cameThrough == CameThrough(reading, sendResult(sent.to))
      && reversed.step == if sent.cameThrough then 1 else 0
  {
    var report := CreateFailure(packet.payload.packet, defaultPort);
    failure := new InternalPacket.FromExternal(report);
    failure.pr := reversed;
    reversed.step := 0;
    failure.prevNodeId := node.nodeId;
    failure.isResponse := true;
    if reversed.len == 1 {
      return failure, FailureToExternal;
    }
    var cameThrough, to := UsePacketRoute(node, failure, reading, sendResult);
    sent := FailureHop(cameThrough, to);
  }

  /** The fallback of handle_data_packet once the route has failed:
      send_bogo, and propagate_failure when it gives up. `reversed` is what
      reverse_packet_route_from_step makes of the packet's route; the
      failure report is null when the packet came through. */
  method BogoFallback(node: Node, packet: InternalPacket, reading: Reading, sendResult: U16 -> U16, random: nat -> nat,
                      reversed: PacketRoute, defaultPort: U16)
    returns (outcome: DataOutcome, failure: InternalPacket?)
    requires node.neighbors.Length == node.knownNodesCount as int && SlotsHoldOwnIds(node.neighbors[..])
    requires 1 <= node.nodeId <= node.knownNodesCount && node.neighbors[node.nodeId - 1].None?
    requires packet.payload.External? && packet.pr != null && packet.pr.step < U16_LIMIT - 2
    requires reversed != packet.pr && 1 <= reversed.len as int <= |reversed.path|
    modifies packet, packet.pr, reversed
    ensures outcome.Bogo? && packet.pr == old(packet.pr) && packet.payload == old(packet.payload)
    ensures packet.pr.hasSlept == old(packet.pr.hasSlept) && reversed.hasSlept == old(reversed.hasSlept)
    ensures outcome.cameThrough <==> failure == null
    ensures failure != null ==>
      && fresh(failure) && failure.pr == reversed && failure.isResponse && failure.prevNodeId == node.nodeId
      && failure.payload == External(CreateFailure(old(packet.payload).packet, defaultPort))
    ensures BogoOutcome(node.neighbors[..], node.knownNodesCount as nat, Walked(old(packet.pr.path), old(packet.pr.step) as nat),
                        outcome.tried, outcome.cameThrough, reading, sendResult)
  {
    var cameThrough, tried := SendBogo(node, packet, reading, sendResult, random);
    outcome, failure := Bogo(tried, cameThrough), null;
    if !cameThrough {
      var sent;
      failure, sent := PropagateFailure(node, packet, reversed, reading, sendResult, defaultPort);
    }
  }

  /** handle_hello_packet: the sender `prev_node_id` is heard now. Its
      slot is refreshed, and a sender not yet known counts as a new
      neighbour. */
  method HandleHelloPacket(node: Node, packet: InternalPacket, now: int)
    requires node.Valid() && 1 <= packet.prevNodeId as int <= node.neighbors.Length
    modifies node, node.neighbors
    ensures node.Valid()
    ensures node.neighbors[..] == Refreshed(old(node.neighbors[..]), packet.prevNodeId, now)
    ensures node.newNeighborsCount == old(node.newNeighborsCount) + if old(node.neighbors[packet.prevNodeId - 1]).None? then 1 else 0
  {
    var neighborId := packet.prevNodeId;
    RefreshKeepsLayout(node.neighbors[..], neighborId, now);
    var neighbor := node.neighbors[neighborId - 1];
    var id := neighborId;
    if neighbor.None? {
      node.newNeighborsCount := node.newNeighborsCount + 1;
    } else {
      id := neighbor.value.nodeId;
    }
    node.neighbors[neighborId - 1] := Some(Neighbor(id, now));
  }

  /** What handle_routing_done_packet does with a discovered route. */
  datatype RoutingDoneOutcome =
    | Discarded                   // for this node, but slower than MAX_ROUTE_TIME
    | Stored                      // for this node: appended to the routing table
    | Forwarded(to: Option<U16>)  // passed one hop back; `None` is a read past the path

  /** handle_routing_done_packet: a ROUTING_DONE packet for this node adds
      its route at the table's tail unless the route took longer than
      MAX_ROUTE_TIME; any other node stamps itself as the previous hop,
      counts one more step from the destination and sends the packet to the
      hop that many steps before the route's end. */
  method HandleRoutingDonePacket(node: Node, packet: InternalPacket, routePayload: RoutePayload)
    returns (outcome: RoutingDoneOutcome)
    requires node.Valid() && packet.payload == RouteDone(routePayload)
    modifies packet, routePayload, node.routingTable, node.routingTable.nodes
    ensures node.Valid()
    ensures var route := routePayload.route;
      && (outcome == Discarded <==> old(packet.destNodeId) == node.nodeId && route.timeTaken > MAX_ROUTE_TIME)
      && (outcome == Stored <==> old(packet.destNodeId) == node.nodeId && route.timeTaken <= MAX_ROUTE_TIME)
      && node.routingTable.Routes() == old(node.routingTable.Routes()) + (if outcome == Stored then [route] else [])
    ensures outcome.Forwarded? ==>
      && packet.prevNodeId == node.nodeId
      && routePayload.stepFromDestination == IncU16(old(routePayload.stepFromDestination))
      && outcome.to == Hop(routePayload.route.path, |routePayload.route.path| - routePayload.stepFromDestination as int - 1)
    ensures !outcome.Forwarded? ==>
      packet.prevNodeId == old(packet.prevNodeId) && routePayload.stepFromDestination == old(routePayload.stepFromDestination)
    ensures packet.destNodeId == old(packet.destNodeId) && packet.pr == old(packet.pr) && packet.payload == old(packet.payload)
  {
    var route := routePayload.route;
    if packet.destNodeId == node.nodeId {
      if route.timeTaken > MAX_ROUTE_TIME {
        return Discarded;
      }
      node.routingTable.AddLast(route);
      return Stored;
    }
    packet.prevNodeId := node.nodeId;
    routePayload.stepFromDestination := IncU16(routePayload.stepFromDestination);
    /* send_func's result is not looked at */
    return Forwarded(Hop(route.path, |route.path| - routePayload.stepFromDestination as int - 1));
  }

  /** What handle_data_packet did with a DATA packet. */
  datatype DataOutcome =
    | ToClient                                 // a response at its final hop, handed to handle_send_external
    | ToExternal                               // the final hop reaches the external network
    | Sent(to: U16)                            // the next hop of the route took the packet
    | Bogo(tried: seq<U16>, cameThrough: bool) // send_bogo's tries

  /** The route-following part of handle_data_packet. At the final hop of
      its route (`finalHop` is packet_route_final_hop) a response goes to
      the client and any other packet to the external network when the
      node can connect (`canConnect`); failing that, a stored route is
      picked (`tableRandom` for `rand()`) and `combined`, what
      packet_route_combine makes of the packet's route and that one,
      becomes the packet's route. Before its final hop the packet takes the
      next hop of its route. The packet's route is marked as having slept
      when it leaves to the external network or picks a stored route.
      `picked` is the stored route picked, if any, and `routed` is `None`
      exactly when send_bogo has to take over: there was no stored route or
      the hop failed. */
  method FollowRoute(node: Node, packet: InternalPacket, finalHop: U16, canConnect: bool, combined: PacketRoute,
                     tableRandom: nat, maxWait: nat, reading: Reading, sendResult: U16 -> U16)
    returns (routed: Option<DataOutcome>, picked: Option<Route>)
    requires node.Valid() && packet.pr != null
    requires node.nodeId != finalHop ==> IncU16(packet.pr.step) < |packet.pr.path|
    requires IncU16(combined.step) < |combined.path|
    modifies packet, packet.pr, combined
    ensures node.routingTable.Routes() == old(node.routingTable.Routes())
    ensures var atFinal := node.nodeId == finalHop;
      && (atFinal && old(packet.isResponse) ==> routed == Some(ToClient) && packet.pr == old(packet.pr))
      && (atFinal && !old(packet.isResponse) && canConnect ==>
            routed == Some(ToExternal) && packet.pr == old(packet.pr) && packet.pr.hasSlept)
      && (atFinal && !old(packet.isResponse) && !canConnect && old(node.routingTable.Routes()) != [] ==>
            && (var routes := old(node.routingTable.Routes());
                var found := routes[tableRandom % |routes|];
                picked == Some(Route(found.sourceId, found.destinationId, found.path,
                                     SleepTime(LongestTimeUsed(routes, maxWait), found.timeTaken))))
            && packet.pr == combined && old(packet.pr).hasSlept
            && var hop := old(combined.path)[IncU16(old(combined.step))];
               routed == if CameThrough(reading, sendResult(hop)) then Some(Sent(hop)) else None)
      && (atFinal && !old(packet.isResponse) && !canConnect && old(node.routingTable.Routes()) == [] ==>
            routed.None? && packet.pr == old(packet.pr))
      && (!atFinal ==>
            && packet.pr == old(packet.pr)
            && var hop := old(packet.pr.path)[IncU16(old(packet.pr.step))];
               routed == if CameThrough(reading, sendResult(hop)) then Some(Sent(hop)) else None)
    ensures !(node.nodeId == finalHop && !old(packet.isResponse) && !canConnect && old(node.routingTable.Routes()) != []) ==> picked.None?
    ensures routed.None? ==>
      if picked.Some? then packet.pr.path == old(combined.path) && packet.pr.step == old(combined.step)
      else packet.pr.path == old(packet.pr.path) && packet.pr.step == old(packet.pr.step)
    ensures packet.payload == old(packet.payload)
  {
    picked := None;
    if node.nodeId == finalHop {
      if packet.isResponse {
        return Some(ToClient), None;
      }
      if canConnect {
        if !packet.pr.hasSlept {
          packet.pr.hasSlept := true;
        }
        return Some(ToExternal), None;
      }
      if TableEmpty(node.routingTable) {
        return None, None;
      }
      picked := node.routingTable.GetRandomRoute(tableRandom, maxWait);
      if !packet.pr.hasSlept {
        packet.pr.hasSlept := true;
        // route_sleep(route) waits out the picked route's time
      }
      packet.pr := combined;
    }
    var cameThrough, to := UsePacketRoute(node, packet, reading, sendResult);
    return if cameThrough then Some(Sent(to)) else None, picked;
  }

  /** handle_data_packet: the route is followed as `FollowRoute` says, and
      when that does not take the packet on, send_bogo takes over, and
      propagate_failure when send_bogo gives up (`reversed` is what
      reverse_packet_route_from_step makes of the packet's route;
      `failure` is the report, null when none is sent). */
  method HandleDataPacket(node: Node, packet: InternalPacket, finalHop: U16, canConnect: bool, combined: PacketRoute,
                          tableRandom: nat, maxWait: nat, reading: Reading, sendResult: U16 -> U16, random: nat -> nat,
                          reversed: PacketRoute, defaultPort: U16)
    returns (outcome: DataOutcome, picked: Option<Route>, failure: InternalPacket?)
    requires node.Valid() && 1 <= node.nodeId <= node.knownNodesCount && node.neighbors[node.nodeId - 1].None?
    requires packet.pr != null && packet.pr.step < U16_LIMIT - 2
    requires node.nodeId != finalHop ==> IncU16(packet.pr.step) < |packet.pr.path|
    requires combined.step < U16_LIMIT - 2 && IncU16(combined.step) < |combined.path|
    requires packet.payload.External? && reversed != packet.pr && reversed != combined
    requires 1 <= reversed.len as int <= |reversed.path|
    modifies packet, packet.pr, combined, reversed
    ensures node.routingTable.Routes() == old(node.routingTable.Routes())
    ensures var atFinal := node.nodeId == finalHop;
      && (atFinal && old(packet.isResponse) ==> outcome == ToClient && packet.pr == old(packet.pr))
      && (atFinal && !old(packet.isResponse) && canConnect ==>
            outcome == ToExternal && packet.pr == old(packet.pr) && packet.pr.hasSlept)
      && (atFinal && !old(packet.isResponse) && !canConnect && old(node.routingTable.Routes()) != [] ==>
            && (var routes := old(node.routingTable.Routes());
                var found := routes[tableRandom % |routes|];
                picked == Some(Route(found.sourceId, found.destinationId, found.path,
                                     SleepTime(LongestTimeUsed(routes, maxWait), found.timeTaken))))
            && packet.pr == combined && old(packet.pr).hasSlept
            && var hop := old(combined.path)[IncU16(old(combined.step))];
               (if CameThrough(reading, sendResult(hop)) then outcome == Sent(hop) else outcome.Bogo?))
      && (atFinal && !old(packet.isResponse) && !canConnect && old(node.routingTable.Routes()) == [] ==>
            outcome.Bogo? && packet.pr == old(packet.pr))
      && (!atFinal ==>
            && packet.pr == old(packet.pr)
            && var hop := old(packet.pr.path)[IncU16(old(packet.pr.step))];
               (if CameThrough(reading, sendResult(hop)) then outcome == Sent(hop) else outcome.Bogo?))
    ensures !(node.nodeId == finalHop && !old(packet.isResponse) && !canConnect && old(node.routingTable.Routes()) != []) ==> picked.None?
    ensures failure != null <==> outcome.Bogo? && !outcome.cameThrough
    ensures failure != null ==>
      && fresh(failure) && failure.pr == reversed && failure.isResponse && failure.prevNodeId == node.nodeId
      && failure.payload == External(CreateFailure(old(packet.payload).packet, defaultPort))
    ensures outcome.Bogo? ==>
      BogoOutcome(node.neighbors[..], node.knownNodesCount as nat,
                  if picked.Some? then Walked(old(combined.path), old(combined.step) as nat)
                  else Walked(old(packet.pr.path), old(packet.pr.step) as nat),
                  outcome.tried, outcome.cameThrough, reading, sendResult)
  {
    var routed;
    routed, picked := FollowRoute(node, packet, finalHop, canConnect, combined, tableRandom, maxWait, reading, sendResult);
    failure := null;
    if routed.Some? {
      outcome := routed.value;
    } else {
      outcome, failure := BogoFallback(node, packet, reading, sendResult, random, reversed, defaultPort);
    }
  }

  /** The sending part of one round of hello_poll_thread: a HELLO from this
      node to each known id but its own, in list order. The ids sent to
      are returned. */
  method SendHellos(node: Node) returns (sentTo: seq<U16>)
    ensures sentTo == HelloTargets(node.knownNodes, node.nodeId)
    ensures forall id :: id in sentTo <==> id in node.knownNodes && id != node.nodeId
  {
    HelloTargetsExactly(node.knownNodes, node.nodeId);
    sentTo := [];
    var i := 0;
    while i < |node.knownNodes|
      invariant 0 <= i <= |node.knownNodes|
      invariant sentTo == HelloTargets(node.knownNodes[..i], node.nodeId)
    {
      var toId := node.knownNodes[i];
      assert node.knownNodes[..i + 1][..i] == node.knownNodes[..i];
      if toId != node.nodeId {
        var packet := new InternalPacket.CreateHello(node.nodeId, toId);
        // send_func(packet, to_id); the result is not looked at
        sentTo := sentTo + [packet.destNodeId];
      }
      i := i + 1;
    }
    assert node.knownNodes[..i] == node.knownNodes;
  }

  /** One round of hello_poll_thread: the HELLOs, then remove_old_neighbors
      (`dropAllRoutes` is the outcome of its floating-point ratio test). */
  method HelloPollRound(node: Node, now: int, dropAllRoutes: bool) returns (sentTo: seq<U16>, invalidated: seq<U16>)
    requires node.Valid()
    modifies node, node.neighbors, node.routingTable, node.routingTable.nodes
    ensures node.Valid()
    ensures sentTo == HelloTargets(node.knownNodes, node.nodeId)
    ensures node.neighbors[..] == ExpireSlots(old(node.neighbors[..]), node.knownNodesCount as nat, now, node.removeNeighborThreshold as int)
    ensures invalidated == ExpiredIds(old(node.neighbors[..]), node.knownNodesCount as nat, now, node.removeNeighborThreshold as int)
    ensures node.newNeighborsCount == 0
    ensures dropAllRoutes ==> node.routingTable.Routes() == []
    ensures !dropAllRoutes ==> node.routingTable.Routes() == InvalidateAll(old(node.routingTable.Routes()), invalidated)
  {
    sentTo := SendHellos(node);
    invalidated := node.RemoveOldNeighbors(now, dropAllRoutes);
  }
}
