/** The internal-packet thread of the older generation
    (src/ulsr/int_comms.c): a DATA packet either leaves to the external
    network here or moves one hop on, a HELLO refreshes the neighbour
    table, the other packet types are only logged. `send_func` is called
    without looking at its result; the hop handed to it is returned. */
module UlsrIntComms {
  import opened CLib
  import opened Neighbors
  import opened UlsrPacket
  import opened UlsrNode
  import UlsrCommsInternal

  /** What handle_internal_data_packet did with a DATA packet. */
  datatype DataOutcome =
    | ToExternal                // the packet is for this node: handle_send_external
    | Forwarded(to: Option<U16>) // sent on to the hop now under `step`; `None` is a read past the path

  /** handle_internal_data_packet: a packet addressed to this node goes to
      the external send with its route untouched; any other packet steps
      its route forward (the u16 `step` wraps), is stamped with this node
      as the previous hop and is sent to the hop now under `step`. */
  method HandleInternalDataPacket(node: Node, packet: InternalPacket) returns (outcome: DataOutcome)
    requires packet.pr != null
    modifies packet, packet.pr
    ensures packet.pr == old(packet.pr) && packet.pr.path == old(packet.pr.path) && packet.pr.len == old(packet.pr.len)
    ensures outcome == ToExternal <==> old(packet.destNodeId) == node.nodeId
    ensures outcome == ToExternal ==> packet.pr.step == old(packet.pr.step) && packet.prevNodeId == old(packet.prevNodeId)
    ensures outcome.Forwarded? ==>
      && packet.pr.step == IncU16(old(packet.pr.step)) && packet.prevNodeId == node.nodeId
      && outcome.to == Hop(packet.pr.path, packet.pr.step as int)
    ensures packet.destNodeId == old(packet.destNodeId) && packet.payload == old(packet.payload) && packet.kind == old(packet.kind)
  {
    if node.nodeId == packet.destNodeId {
      return ToExternal;
    }
    packet.pr.step := IncU16(packet.pr.step);
    packet.prevNodeId := node.nodeId;
    return Forwarded(Hop(packet.pr.path, packet.pr.step as int));
  }

  /** What handle_send_internal did with one received packet. */
  datatype Handled =
    | DataHandled(data: DataOutcome) // handle_internal_data_packet
    | HelloHandled                   // handle_internal_hello_packet
    | Logged                         // PURGE, ROUTING and ROUTING_DONE: logged, nothing else

  /** One pass of handle_send_internal's loop, for a packet `rec_func`
      delivered: dispatch on the packet type. handle_internal_hello_packet
      is the same code as the HELLO handler of src/ulsr/comms_internal.c
      (without its lock), so that handler is called. `now` is the clock's
      reading. */
  method HandleSendInternal(node: Node, packet: InternalPacket, now: int) returns (handled: Handled)
    requires node.Valid()
    requires packet.kind == Data ==> packet.pr != null
    requires packet.kind == Hello ==> 1 <= packet.prevNodeId as int <= node.neighbors.Length
    modifies packet, packet.pr, node.neighbors
    ensures node.Valid()
    ensures packet.kind == old(packet.kind) && packet.pr == old(packet.pr)
    ensures old(packet.kind) == Data <==> handled.DataHandled?
    ensures old(packet.kind) == Hello <==> handled == HelloHandled
    ensures handled == HelloHandled ==>
      && packet.prevNodeId == old(packet.prevNodeId) && 1 <= packet.prevNodeId as int <= node.neighbors.Length
      && node.neighbors[..] == Refreshed(old(node.neighbors[..]), packet.prevNodeId, now)
    ensures handled != HelloHandled ==> node.neighbors[..] == old(node.neighbors[..])
    ensures handled == Logged ==>
      && packet.prevNodeId == old(packet.prevNodeId)
      && (old(packet.pr) != null ==> packet.pr.step == old(packet.pr.step))
  {
    match packet.kind {
      case Data =>
        var outcome := HandleInternalDataPacket(node, packet);
        handled := DataHandled(outcome);
      case Hello =>
        UlsrCommsInternal.HandleHelloPacket(node, packet, now);
        handled := HelloHandled;
      case Purge =>
        handled := Logged;
      case Routing =>
        handled := Logged;
      case RoutingDone =>
        handled := Logged;
    }
  }

  /** One round of this file's hello_poll_thread: a HELLO to every id of
      `known_ids` but this node's own. */
  method HelloPollRound(node: Node) returns (sentTo: seq<U16>)
    ensures sentTo == HelloTargets(node.knownIds, node.nodeId)
    ensures forall id :: id in sentTo <==> id in node.knownIds && id != node.nodeId
  {
    sentTo := UlsrCommsInternal.SendHellos(node.nodeId, node.knownIds);
  }
}
