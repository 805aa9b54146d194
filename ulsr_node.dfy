/** The node of the older generation (src/ulsr/node.c): the parts of
    `struct node_t` that the packet handlers read and write. */
module UlsrNode {
  import opened CLib
  import opened Neighbors
  import opened UlsrRouting
  import Connections
  import Queue
  import UlsrRouteTable

  /** struct node_t. `neighbors` has MESH_NODE_COUNT slots, of which the
      handlers look at the first `known_nodes_count`. The node keeps two
      lists of ids: `known_nodes`, which the HELLO round of
      src/ulsr/comms_internal.c polls and the simulation's
      set_initial_node_ids fills, and `known_ids`, which the HELLO round of
      src/ulsr/int_comms.c polls and init_node sets up empty. The count of
      known nodes, the `known_nodes` list and the route queue are filled in
      by code outside init_node, so they are constructor arguments. */
  class Node {
    const nodeId: U16
    const knownNodesCount: U16
    const knownNodes: seq<U16>
    var knownIds: seq<U16>
    const neighbors: array<Option<Neighbor>>
    const connections: Connections.Connections
    const routeTable: UlsrRouteTable.RouteTable
    const routeQueue: Queue.Queue<Route>

    /** The handlers' slots exist, every neighbour sits in the slot of its
        id, and the connection ring, route table and route queue are well
        formed. */
    ghost predicate Valid()
      reads this, neighbors, connections, routeTable, routeQueue, routeQueue.items
    {
      && knownNodesCount as int <= neighbors.Length
      && SlotsHoldOwnIds(neighbors[..])
      && connections.Valid()
      && routeTable.Valid()
      && routeQueue.Valid()
    }

    /** The data-structure part of init_node: `meshNodeCount` empty
        neighbour slots, a ring of `connections` zeroed slots at index -1,
        an empty route table of STD_ROUTE_TABLE_SIZE slots and an empty
        known-id list. */
    constructor (nodeId: U16, connections: U16, meshNodeCount: nat, knownNodes: seq<U16>, knownNodesCount: U16,
                 routeQueue: Queue.Queue<Route>)
      requires knownNodesCount as int <= meshNodeCount && routeQueue.Valid()
      ensures Valid()
      ensures this.nodeId == nodeId && this.knownNodes == knownNodes && knownIds == [] && this.knownNodesCount == knownNodesCount
      ensures this.routeQueue == routeQueue
      ensures fresh(neighbors) && fresh(this.connections) && fresh(this.connections.connections) && fresh(routeTable)
      ensures neighbors.Length == meshNodeCount && forall i :: 0 <= i < meshNodeCount ==> neighbors[i].None?
      ensures this.connections.index == -1 && this.connections.cap == connections as int
      ensures routeTable.size == 0 && routeTable.cap == UlsrRouteTable.STD_ROUTE_TABLE_SIZE
    {
      this.nodeId := nodeId;
      this.connections := new Connections.Connections(connections as nat);
      routeTable := new UlsrRouteTable.RouteTable();
      neighbors := new Option<Neighbor>[meshNodeCount](_ => None);
      this.knownNodes := knownNodes;
      knownIds := [];
      this.knownNodesCount := knownNodesCount;
      this.routeQueue := routeQueue;
    }
  }
}
