/** The routing records of the newer generation (include/wander/routing.h).
    Only the type declarations are modelled here: src/wander/routing.c is
    not part of this model, and the helpers it would define
    (`packet_route_final_hop`, `packet_route_combine`,
    `route_to_packet_route`, `reverse_packet_route_from_step`,
    `route_sleep`, `find_all_routes`) appear as parameters of the
    operations that call them. */
module WanderRouting {
  import opened CLib

  /** MAX_ROUTE_TIME: a discovered route slower than this is not stored. */
  const MAX_ROUTE_TIME: nat := 10000000

  /** struct route_t: a discovered route. `path_length` is `|path|`;
      `time_taken` is a u64 and is kept unbounded. */
  datatype Route = Route(sourceId: U16, destinationId: U16, path: seq<U16>, timeTaken: nat)

  /** struct packet_route_t: the hops a packet is to follow and the index
      `step` of the node currently holding it. The path buffer is
      reallocated and written in place, so it is a `seq` field the
      operations reassign. */
  class PacketRoute {
    var path: seq<U16>
    var len: U16
    var step: U16
    var hasSlept: bool

    constructor (path: seq<U16>, len: U16, step: U16)
      ensures this.path == path && this.len == len && this.step == step && !hasSlept
    {
      this.path, this.len, this.step := path, len, step;
      hasSlept := false;
    }
  }

  /** struct route_payload_t: the payload of a ROUTING_DONE packet; the
      route travels back hop by hop and `step_from_destination` counts the
      hops already taken. */
  class RoutePayload {
    const route: Route
    var stepFromDestination: U16

    constructor (route: Route, stepFromDestination: U16)
      ensures this.route == route && this.stepFromDestination == stepFromDestination
    {
      this.route := route;
      this.stepFromDestination := stepFromDestination;
    }
  }
}
