# wander: a verified model of the mesh-router core

wander simulates a mesh of routers ("nodes") that carry HTTP traffic between a client and the external network. Each node does four things:

- it sends HELLO packets to find its neighbours;
- it discovers routes by flooding ROUTING packets, and each route found comes back as a ROUTING_DONE packet;
- it stores the routes it discovered;
- it forwards DATA packets along a route. When a hop refuses the packet, the node falls back to "bogo" routing: it tries random neighbours until one takes the packet. When none does, it sends a failure report back along the route.

The repository holds two generations of this core:

- the older one, under `src/ulsr`;
- the newer one, under `src/wander`.

Both share the container headers in `include/lib` and the queue in `src/queue.c`.

The Dafny project has one module per core file:

| module | models |
|---|---|
| `CLib` | the C vocabulary: `u16`/`u32` arithmetic with wrap-around, `strlen`/`strncpy`, `realloc`, and reading a path slot |
| `Common` | `include/lib/common.h` |
| `ArrayList` | `include/lib/arraylist.h` |
| `Queue` | `src/queue.c` |
| `Checksum` | the additive checksums of both packet files |
| `SendResult` | reading the result of `send_func` |
| `Connections` | the ring of client connections in both `node.c` files |
| `Neighbors` | the neighbour table and `find_random_neighbor`, shared by both generations |
| `UlsrPacket`, `UlsrRouteTable`, `UlsrRoutingTable`, `UlsrRouting`, `UlsrNode`, `UlsrCommsInternal`, `UlsrIntComms` | the older generation |
| `WanderPacket`, `WanderRoutingTable`, `WanderRouting`, `WanderNode`, `WanderCommsInternal` | the newer generation |

How the C code maps to Dafny:

- Structures that the C code updates in place are classes: the queue, the array list, the route tables, the nodes, and the internal packets and their routes.
- Packets that are only built are datatypes: external packets, routes, neighbours.
- Loops are `while` loops, with invariants proved against specification functions.
- Effects outside the process are parameters:
  - `send_func` is a function from destination id to its `u16` result;
  - `rand()` is a caller-supplied number, used as `rand() % n` is;
  - `time(NULL)` is `now`;
  - `can_connect_func` is a boolean.
- Every handler that reads a send's result takes a `reading` (`SendResult.Reading`):
  - `AsWritten` follows the code as written: `send_func(...) != -1` holds for every `u16` result, and the older failure report takes the route `reverse_packet_route` builds;
  - `Intended` applies the corrections under "## Findings": a result of 0 is a failed send, and the older failure report takes the route `FailureRoute` builds.
- `Neighbors.BogoOutcome` is what every bogo search of either generation promises about its tries: no neighbour is tried twice, every try but a successful last one failed under `reading`, a search that gives up leaves no candidate, and as written there is at most one try, which succeeds exactly when there was one. `SendBogo`, `BogoFallback` and `HandleDataPacket` of both generations state it of the tries and result they return.

## Model

| member | source | states |
|---|---|---|
| CLib.AddU32 | src/ulsr/packet.c:75-84 | adding to the `u32` accumulator of the checksum loop gives the plain sum when it fits in 32 bits and the sum less 2^32 when it does not |
| CLib.NotU32 | src/ulsr/packet.c:83 | `~x` on a `u32` is the complement to 2^32-1 |
| CLib.IncU16 | src/ulsr/int_comms.c:34-52 | `u16` increment (`step++`): adds one, and 65535 wraps to 0 |
| CLib.DecU16 | src/ulsr/route_table.c:50-54 | `u16` decrement (`size--`): subtracts one, and 0 wraps to 65535 |
| CLib.ToU16 | src/ulsr/packet.c:32 | assigning a length to a `u16` field keeps every value below 2^16 |
| CLib.StrLen | src/ulsr/packet.c:32 | `strlen`: the index of the first terminator, with no terminator before it; the whole buffer when there is none |
| CLib.StrNCpy | src/ulsr/packet.c:29-30 | `strncpy` into an n-byte field: copies the string up to its terminator and pads with NULs to exactly n bytes |
| CLib.StrLenOfCopy | src/ulsr/packet.c:29-30 | the copied field's string length is the source's string length, cut to n |
| CLib.StrNCpyIdempotent | src/ulsr/packet.c:29-30 | copying an already copied field again changes nothing |
| CLib.Realloc | include/lib/common.h:71-77 | `realloc`: a fresh buffer of the new length that keeps every old element that still fits |
| CLib.Hop | src/ulsr/comms_internal.c:233-239 | reading `path[i]` gives the hop exactly when `i` lies inside the path, and `None` for a read past it |
| CLib.Resized | src/ulsr/comms_internal.c:57-58 | the path after `realloc` to n slots keeps its first elements |
| Common.UnitPowers | include/lib/common.h:43-46 | the shift amounts 10, 20, 30 and 40 are the powers 1024, 1024^2, 1024^3 and 1024^4 |
| Common.KB | include/lib/common.h:43 | `x << 10` is x times 1024 |
| Common.MB | include/lib/common.h:44 | `x << 20` is x times 1024^2 |
| Common.GB | include/lib/common.h:45 | `x << 30` is x times 1024^3 |
| Common.TB | include/lib/common.h:46 | `x << 40` is x times 1024^4 |
| Common.UnitsScaleBy1024 | include/lib/common.h:43-46 | each unit is 1024 of the unit below it |
| Common.Min | include/lib/common.h:48 | MIN is one of its arguments and no larger than either |
| Common.Max | include/lib/common.h:49 | MAX is one of its arguments and no smaller than either |
| Common.Clamp | include/lib/common.h:50 | CLAMP keeps x inside [a, b] when a <= b, returns x when it is already inside, and returns a or b when x lies below or above |
| Common.BytesEqual | include/lib/common.h:52-60 | BYTES_EQUAL(a, b, size) for size >= 1: `pred` holds exactly when the first `size` bytes agree; on a mismatch the loop stops at the first differing byte |
| Common.EnsureCap | include/lib/common.h:71-77 | ENSURE_CAP doubles the capacity exactly when size == cap and keeps every element |
| Common.ReduceCap | include/lib/common.h:85-91 | REDUCE_CAP halves the capacity exactly when size == cap >> 1 and keeps every element that still fits |
| Common.EnsureCapMakesRoom | include/lib/common.h:71-77 | after ENSURE_CAP there is room for one more element |
| Common.ReduceCapKeepsElements | include/lib/common.h:85-91 | REDUCE_CAP never drops below the current size |
| Checksum.AddU32OfWrapped | src/ulsr/packet.c:80-81 | adding to a wrapped `u32` sum is the same as wrapping the exact sum |
| Checksum.ByteSumExtend | src/ulsr/packet.c:80-81 | one more loop pass adds `packet[i]` to the running sum |
| Checksum.ChecksumIgnoresHeader | src/ulsr/packet.c:79-81 | the first four bytes, where the checksum itself is stored, do not affect the checksum |
| Checksum.ShortPacketChecksum | src/ulsr/packet.c:75-84 | a packet of at most four bytes has the checksum 2^32-1 |
| Checksum.SumPlusChecksumIsAllOnes | src/ulsr/packet.c:75-84 | the wrapped byte sum from byte 4 on, plus the checksum, is 2^32-1: the receiver's check |
| UlsrPacket.ComputeChecksum | src/ulsr/packet.c:75-84 | `ulsr_checksum` returns the complement of the wrapped sum of bytes 4..size-1 |
| WanderPacket.ComputeChecksum | src/wander/packet.c:93-102 | `wander_checksum`: the same checksum |
| SendResult.DeliveredAsWritten | src/wander/comms_internal.c:111 | the test `send_func(...) != -1` on a `u16` result holds for every result |
| SendResult.Delivered | src/wander/comms_internal.c:111 | corrected reading: a send came through exactly when its result is non-zero |
| SendResult.FailedSendReadAsDelivered | src/ulsr/comms_internal.c:91 | a failed send (result 0) is read as delivered by the code as written, but not by the corrected reading |
| SendResult.CameThrough | src/ulsr/comms_internal.c:91 | as written every send came through; as intended exactly those whose result is non-zero |
| SendResult.AllFailedAppend | src/ulsr/comms_internal.c:66-77 | the bogo loop's record "every hop tried so far failed" extends by one failed hop |
| SendResult.NoFailureAsWritten | src/ulsr/comms_internal.c:66-77 | as written no send fails, so the record of failed tries is empty: the first pick of `send_bogo` takes the packet (src/wander/comms_internal.c:88-98 likewise) |
| Connections.NextIndex | src/ulsr/node.c:52-58 | `insert_connection` advances the index by one and wraps to 0 at the capacity |
| Connections.IndexAfterInserts | src/wander/node.c:46-51 | the index after n inserts stays in [-1, cap) |
| Connections.FirstLap | src/wander/node.c:46-51 | during the first lap the index after n inserts is n-1 |
| Connections.Periodic | src/wander/node.c:46-51 | the index after n inserts repeats with period `cap` |
| Connections.Connections.constructor | src/ulsr/node.c:96-99 | a ring of `cap` zeroed slots with index -1 |
| Connections.Connections.Insert | src/ulsr/node.c:52-58 | stores the connection in the next slot of the ring, changes no other slot and keeps the ring well formed |
| Neighbors.PresentIds | src/ulsr/comms_internal.c:97-133 | the ids present in the neighbour table are exactly the ids whose own slot holds them |
| Neighbors.Candidates | src/ulsr/comms_internal.c:102-125 | the neighbours `find_random_neighbor` may choose number at most the slots scanned |
| Neighbors.CandidatesExactly | src/ulsr/comms_internal.c:102-125 | a neighbour is a candidate exactly when its slot lies among the first n and it is neither on the path nor on the ignore list |
| Neighbors.CandidatesBound | src/ulsr/comms_internal.c:102-125 | an empty slot among the scanned ones (the node's own) leaves at most n-1 candidates |
| Neighbors.IgnoringCandidateDropsIt | src/ulsr/comms_internal.c:44-51 | adding a candidate to the ignore list removes exactly that one candidate |
| Neighbors.IgnoringOutsideKeeps | src/ulsr/comms_internal.c:44-51 | ignoring an id that is not scanned (0, the "no neighbour" answer) leaves the candidates unchanged |
| Neighbors.ChooseNeighbor | src/ulsr/comms_internal.c:129-132 | with no candidate the answer is 0; otherwise it is the id of one of the candidates |
| Neighbors.ChosenNeighborQualifies | src/ulsr/comms_internal.c:97-133 | the answer is 0 exactly when there is no candidate; otherwise it is a present neighbour among the scanned slots, not ignored and not on the path |
| Neighbors.FindRandomNeighbor | src/ulsr/comms_internal.c:97-133 | the scan with its two inner list searches returns `ChooseNeighbor` of the candidates for the given path prefix and ignore prefix |
| Neighbors.ListContains | src/ulsr/comms_internal.c:104-122 | the inner search reports exactly whether x occurs among the first `len` entries |
| Neighbors.Refreshed | src/ulsr/comms_internal.c:204-219 | refreshing a neighbour keeps the table's size |
| Neighbors.RefreshKeepsLayout | src/ulsr/comms_internal.c:204-219 | a HELLO from id puts a neighbour with `last_seen == now` in slot id-1: a new one with that id when the slot is empty, otherwise the old one refreshed. Every other slot is unchanged and every neighbour stays in its own slot |
| Neighbors.BogoStep | src/ulsr/comms_internal.c:64-77 | a non-zero pick of the bogo loop has not been tried, is a present neighbour not on the path, and ignoring it removes one candidate |
| Neighbors.NoCandidatesLeft | src/ulsr/comms_internal.c:64-83 | when the bogo loop gives up, every present neighbour not on the path has been tried |
| Neighbors.BogoStart | src/ulsr/comms_internal.c:61-64 | the first pick establishes the bogo loop's invariant |
| Neighbors.BogoAdvance | src/ulsr/comms_internal.c:66-77 | each failed try keeps the invariant, stays within the ignore list's `known_nodes_count` entries, and strictly shrinks the candidates, so the loop ends |
| Neighbors.BogoEnd | src/ulsr/comms_internal.c:79-83 | at a 0 pick no candidate is left and every reachable neighbour has been tried |
| Neighbors.Walked | src/ulsr/comms_internal.c:57 | the hops before the holder keep their values when `send_bogo` reallocates the path to `step + 2` hops |
| Neighbors.HelloTargets | src/ulsr/comms_internal.c:292-300 | the HELLO targets are no more than the known ids |
| Neighbors.HelloTargetsExactly | src/ulsr/comms_internal.c:292-300 | an id gets a HELLO exactly when it is known and is not the node itself, and every known id does when the node's own id is not listed |
| Queue.Queue.constructor | src/queue.c:23-28 | an empty queue of the given capacity |
| Queue.Queue.Empty | src/queue.c:30-33 | empty exactly when it holds no item |
| Queue.Queue.Full | src/queue.c:35-38 | full exactly when it holds `max` items |
| Queue.Queue.Push | src/queue.c:40-48 | a push succeeds exactly when the queue is not full; then the item is appended at the back and the end index wraps, otherwise nothing changes |
| Queue.Queue.Pop | src/queue.c:50-60 | an empty queue yields nothing and is unchanged; otherwise the front item comes out and the start index wraps |
| Queue.RingPush | src/queue.c:40-48 | writing at `(start + size) % max` appends to the ring's contents |
| Queue.RingPop | src/queue.c:50-60 | advancing `start` drops the front of the ring's contents |
| ArrayList.PushKeepsLenWithinCap | include/lib/arraylist.h:65-71 | a push finds room: the capacity doubles only when the list is full |
| ArrayList.PopKeepsLenWithinCap | include/lib/arraylist.h:77-83 | shrinking after a pop never cuts off an element and never grows the capacity |
| ArrayList.ArrayList.constructor | include/lib/arraylist.h:42-47 | an empty list of ARRAY_STD_SIZE slots |
| ArrayList.ArrayList.Free | include/lib/arraylist.h:53-59 | the list is empty with capacity 0 |
| ArrayList.ArrayList.ResizeIfNeeded | include/lib/arraylist.h:65-71 | doubles the capacity exactly when len == cap; the elements are unchanged |
| ArrayList.ArrayList.ResizeDownIfNeeded | include/lib/arraylist.h:77-83 | halves the capacity exactly when len == cap >> 2; the elements are unchanged |
| ArrayList.ArrayList.Push | include/lib/arraylist.h:90-94 | appends the value, growing first when full |
| ArrayList.ArrayList.Pop | include/lib/arraylist.h:100-104 | removes and returns the last element, then shrinks when a quarter full |
| ArrayList.ArrayList.Get | include/lib/arraylist.h:112 | reads the element at the index |
| ArrayList.ArrayList.Set | include/lib/arraylist.h:120 | writes one slot and leaves every other slot as it was |
| ArrayList.ArrayList.Len | include/lib/arraylist.h:128 | the number of elements |
| ArrayList.ArrayList.Cap | include/lib/arraylist.h:134 | the capacity, never below the number of elements |
| ArrayList.ArrayList.Clear | include/lib/arraylist.h:140-145 | the list is empty again with ARRAY_STD_SIZE slots |
| ArrayList.PushThenPop | include/lib/arraylist.h:90-104 | a pop right after a push returns the pushed value and restores the elements |
| UlsrPacket.CreateResponse | src/ulsr/packet.c:26-37 | the response swaps the two addresses (each copied into 16 bytes), goes to the default port, has the given sequence number and type RESPONSE, and carries the response string up to its terminator, with a length field that wraps at 2^16 |
| UlsrPacket.CreateFailure | src/ulsr/packet.c:39-49 | the failure swaps the two addresses, goes to the default port, and has type INTERNAL_FAILURE and sequence number and checksum 0 |
| UlsrPacket.ResponseSwapsBack | src/ulsr/packet.c:26-49 | answering a response or a failure gives back the original addresses |
| UlsrPacket.ResponseCarriesWholeString | src/ulsr/packet.c:32-33 | a response string shorter than 2^16 is carried whole |
| UlsrPacket.InternalPacket.FromExternal | src/ulsr/packet.c:51-60 | a DATA packet carrying the external packet, `payload_len` its size, previous and destination ids 0 |
| UlsrPacket.InternalPacket.CreateHello | src/ulsr/packet.c:62-71 | a HELLO from `from` to `to` with no payload |
| WanderPacket.CreateResponse | src/wander/packet.c:31-42 | as the older generation's response |
| WanderPacket.CreateFailure | src/wander/packet.c:44-54 | as the older generation's failure |
| WanderPacket.ResponseSwapsBack | src/wander/packet.c:31-54 | answering a response or a failure gives back the original addresses |
| WanderPacket.ResponseCarriesWholeString | src/wander/packet.c:37-38 | a response string shorter than 2^16 is carried whole |
| WanderPacket.Ordinal | src/wander/packet.c:27-29 | every packet type indexes the name table |
| WanderPacket.TypeNamesIdentifyTypes | src/wander/packet.c:27-29 | the name table has one entry per type, no two types share a name, and the names are the documented ones |
| WanderPacket.InternalPacket.FromExternal | src/wander/packet.c:56-66 | a DATA packet carrying the external packet, `payload_len` the packet size, previous and destination ids 0 |
| WanderPacket.InternalPacket.CreateHello | src/wander/packet.c:68-77 | a HELLO from `from` to `to` with no payload |
| UlsrRouteTable.SlotIndex | src/ulsr/route_table.c:38-48 | destination d is kept in slot d-1, and d = 0 wraps to 2^32-1 |
| UlsrRouteTable.GrowAsWrittenFitsOnlyBelowDouble | src/ulsr/route_table.c:40-44 | the single doubling fits the index exactly when it is below twice the capacity |
| UlsrRouteTable.AddAsWrittenOverruns | src/ulsr/route_table.c:38-48 | destination 1000 on a fresh table: the table grows to 64 and slot 999 lies outside it, while the corrected growth reaches 1024 |
| UlsrRouteTable.GrowToFit | src/ulsr/route_table.c:40-44 | corrected growth ends with a capacity above the index and no smaller than the old one |
| UlsrRouteTable.GrowToFitIsLeastFit | src/ulsr/route_table.c:40-44 | the corrected growth is the old capacity times a power of two, unchanged when the index fits, and the least such capacity that fits |
| UlsrRouteTable.RouteTable.Slots | include/ulsr/route_table.h:1-80 | the slot view has one entry per slot of capacity |
| UlsrRouteTable.RouteTable.constructor | src/ulsr/route_table.c:26-31 | STD_ROUTE_TABLE_SIZE empty slots, size 0 |
| UlsrRouteTable.RouteTable.Add | src/ulsr/route_table.c:38-48 | the route is in slot d-1, every other old slot is unchanged, the capacity is the corrected growth, and `size` is incremented |
| UlsrRouteTable.RouteTable.Remove | src/ulsr/route_table.c:50-54 | the key's slot is empty, every other slot is unchanged, and `size` is decremented |
| UlsrRouteTable.RouteTable.Contains | src/ulsr/route_table.c:56-59 | true exactly when the key's slot holds a route |
| UlsrRouteTable.RouteTable.Get | src/ulsr/route_table.c:61-64 | the content of slot key-1 |
| UlsrRouteTable.RouteTable.Set | src/ulsr/route_table.c:66-69 | writes one slot, leaves the others, and keeps `size` |
| UlsrRoutingTable.Entry.constructor | src/ulsr/routing_table.c:49-58 | an entry with the route, the given links and use count 0 |
| UlsrRoutingTable.RouteIsOld | src/ulsr/routing_table.c:31-34 | a route is old exactly when it has been used more than MAX_AGE times |
| UlsrRoutingTable.RouteTable.constructor | include/ulsr/routing_table.h:39-43 | an empty list with `size` 0; the older generation declares this table but allocates and initialises none |
| UlsrRoutingTable.RouteTable.First | src/ulsr/routing_table.c:90-104 | the head is null exactly when the list is empty, otherwise the first entry |
| UlsrRoutingTable.RouteTable.Successor | src/ulsr/routing_table.c:90-104 | `next` of an entry is the entry after it in list order |
| UlsrRoutingTable.RouteTable.AddLast | src/ulsr/routing_table.c:69-76 | appends the route as a fresh last entry, keeps the links consistent and increments the `u16` `size`, which wraps to 0 at 2^16 entries |
| UlsrRoutingTable.RouteTable.RemoveEntry | src/ulsr/routing_table.c:78-88 | unlinks exactly that entry, keeping the order of the rest, clears its links, and decrements the `u16` `size` (with wrap-around), so `size` stays the entry count modulo 2^16 |
| UlsrRoutingTable.RouteTable.Use | src/ulsr/routing_table.c:36-47 | increments the use count of one entry and no other |
| UlsrRoutingTable.RouteTable.GetRandomRoute | src/ulsr/routing_table.c:36-47 | nothing exactly when `size`, the entry count modulo 2^16, is 0 (an empty table, but also one of 65536 entries); otherwise the route at `rand() % size` in list order, with its use count incremented, removed from the list when it has become old |
| UlsrRoutingTable.TableEmpty | src/ulsr/routing_table.c:25-29 | a table counts as empty exactly when it is null or its number of routes is a multiple of 2^16 (`size` is a `u16`), so in particular when it holds no route |
| UlsrRouting.PacketRoute.constructor | include/ulsr/routing.h:1-110 | a packet route with the given path, length and step |
| UlsrRouting.RoutePayload.constructor | include/ulsr/routing.h:1-110 | a ROUTING_DONE payload of a route and a step from the destination |
| UlsrRouting.Reversed | src/ulsr/routing.c:128-137 | reversal keeps the length |
| UlsrRouting.ReversedIndex | src/ulsr/routing.c:132-134 | element i of the reversal is element len-1-i of the original |
| UlsrRouting.ReversedTwice | src/ulsr/routing.c:128-137 | reversing twice gives back the path |
| UlsrRouting.ReverseRoute | src/ulsr/routing.c:128-137 | `reverse_route` returns a fresh buffer of `route_length` hops holding the first `route_length` hops reversed |
| UlsrRouting.ReversePacketRoute | src/ulsr/routing.c:139-147 | as written: the reversed route holds the first `step` hops reversed, has length `step` and step 0, and leaves the input unchanged |
| UlsrRouting.FailureRoute | src/ulsr/routing.c:139-147 | corrected: the first `step + 1` hops (the holder included) reversed, length `step + 1`, step 0 |
| UlsrRouting.NextHopOfReversed | src/ulsr/routing.c:139-147 | the reversed route has a next hop exactly when it holds at least two hops |
| UlsrRouting.FailureRouteGoesBackOneHop | src/ulsr/comms_internal.c:33-42 | the corrected reversal starts at the holder, and its next hop is the node the packet came from |
| UlsrRouting.ReversedPacketRouteSkipsPreviousHop | src/ulsr/routing.c:142 | as written, the next hop of the reversed route is two hops back, and does not exist for steps below 2 |
| UlsrRouting.FailureSkipsNodeTwo | src/ulsr/routing.c:142 | path [1, 2, 3] at step 2: the report goes to node 1, while the node it came from is node 2 |
| UlsrRouting.InitRoute | src/ulsr/routing.c:48-58 | the route copies the ids, the time and exactly the first `path_length` hops |
| UlsrRouting.InitRoutingData | src/ulsr/routing.c:30-46 | the routing data copies the ids, length and time, and the first `total_nodes` entries of `visited` and `path` |
| UlsrRouting.RoutingTargetsExactly | src/ulsr/routing.c:93-112 | the flood goes exactly to the unvisited ids held by a neighbour among the first `total_nodes` slots |
| UlsrRouting.RoutingPacketsQualify | src/ulsr/routing.c:93-112 | each ROUTING packet of a flood step goes to an unvisited neighbour present among the first `total_nodes` slots, is stamped with the sender, and carries the same snapshot of the discovery state |
| UlsrRouting.FindAllRoutesSend | src/ulsr/routing.c:71-114 | marks the node visited and appends it to the path. A node that can connect sends one ROUTING_DONE with the route and step 1 back to `path[0]`; any other node sends one ROUTING packet per target, in slot order, each with a copy of the routing data |
| UlsrRouting.FindAllRoutes | src/ulsr/routing.c:116-126 | the flood starts from visited all false and an empty path: one ROUTING_DONE for the node itself, or one ROUTING per unvisited neighbour; the packets are `Flood` of the node and its neighbours |
| UlsrNode.Node.constructor | src/ulsr/node.c:62-127 | empty neighbour slots, a connection ring at index -1, an empty route table of STD_ROUTE_TABLE_SIZE slots, and an empty `known_ids` |
| UlsrCommsInternal.UsePacketRoute | src/ulsr/comms_internal.c:86-95 | steps the route forward (`u16`), stamps the node as previous hop, sends to the hop now under `step`, and steps back exactly when the send failed under `reading`: never as written, on a result of 0 as intended |
| UlsrCommsInternal.BogoFindNeighborStub | src/ulsr/comms_internal.c:44-51 | the pick is `find_random_neighbor` over the walked path and the ignore list; it is appended to the list and written into the path slot after `step` |
| UlsrCommsInternal.BogoBegin | src/ulsr/comms_internal.c:57-64 | the path is cut to `step + 2` slots, `len` is `step + 1`, and the first pick is in the path and the ignore list |
| UlsrCommsInternal.BogoTry | src/ulsr/comms_internal.c:66-77 | one open try: a success (under `reading`) keeps the longer route, and a failure restores `len` and makes the next pick |
| UlsrCommsInternal.ReportRoute | src/ulsr/comms_internal.c:36 | the report's route at step 0: the first `step` hops reversed as written (`reverse_packet_route`), the first `step + 1` as intended (`FailureRoute`) |
| UlsrCommsInternal.PropogateFailure | src/ulsr/comms_internal.c:33-42 | a fresh DATA response to this node's failure, on the first `step` hops reversed as written (`reverse_packet_route`) or the first `step + 1` as intended (`FailureRoute`), sent to the reversed route's second hop when it has one; its step says whether that send came through |
| UlsrCommsInternal.FailureReportNextHop | src/ulsr/comms_internal.c:33-42 | the report's next hop: as written `path[step - 2]`, none below step 2; as intended `path[step - 1]`, the node the packet came from, none at step 0 |
| UlsrCommsInternal.BogoSearch | src/ulsr/comms_internal.c:53-77 | every neighbour is tried at most once and all but a successful last one failed under `reading`. On success the path ends with the accepting neighbour and the step advanced; on giving up no candidate is left |
| UlsrCommsInternal.SendBogo | src/ulsr/comms_internal.c:53-84 | the search as above; as written at most one neighbour is tried, and it takes the packet exactly when there was one. On giving up a failure report is built on the reversed route `reading` chooses; either way the packets of `find_all_routes(node, known_nodes_count)` are `Flood` of the node. The tries and their result satisfy `BogoOutcome` |
| UlsrCommsInternal.HandleHelloPacket | src/ulsr/comms_internal.c:204-219 | the neighbour table becomes `Refreshed` for the sender at `now`, and its layout is kept |
| UlsrCommsInternal.HandleRoutingPacket | src/ulsr/comms_internal.c:221-226 | the flood step on the packet's routing data: a ROUTING_DONE on the extended path, or exactly one ROUTING packet per unvisited present neighbour (`RoutingTargets`, in slot order), each carrying the extended data |
| UlsrCommsInternal.HandleRoutingDonePacket | src/ulsr/comms_internal.c:228-241 | at the destination the route is pushed onto the route queue (when not full); elsewhere the packet goes one hop further back along the route, with the step from the destination incremented |
| UlsrCommsInternal.RouteFromQueue | src/ulsr/comms_internal.c:163-174 | pops the front route when there is one and sends along the combined route, stepping back when the send failed under `reading` |
| UlsrCommsInternal.BogoFallback | src/ulsr/comms_internal.c:176-200 | after a failed route, bogo; when bogo fails too, two failure reports are produced (one inside `send_bogo`, one by the caller); the flood packets of `send_bogo` are returned; the outcome's tries and result satisfy `BogoOutcome` for the path walked so far |
| UlsrCommsInternal.PropogateAgain | src/ulsr/comms_internal.c:176-178 | the caller's second `propogate_failure` after the one in `send_bogo`: both reports are the same failure report on the reversed route |
| UlsrCommsInternal.FollowRoute | src/ulsr/comms_internal.c:135-192 | a response at the final hop goes to the client; with an external link it goes to the external network; otherwise the front queued route is popped and the combined route tried; not at the final hop the next hop is tried. A hop is taken exactly when its send came through under `reading`; bogo is left to take over (`None`) exactly when the queue was empty or the hop failed, with the route bogo then starts from |
| UlsrCommsInternal.HandleDataPacket | src/ulsr/comms_internal.c:135-202 | each branch: a response at the final hop goes to the client; with an external link it goes to the external network; otherwise it takes a queued route or bogo; not at the final hop it takes the next hop, then bogo. A hop is taken exactly when its send came through under `reading` (always, as written); bogo's flood packets are returned, and a bogo outcome satisfies `BogoOutcome` for the packet's route, or the combined one when a queued route was popped |
| UlsrCommsInternal.SendHellos | src/ulsr/comms_internal.c:292-300 | a HELLO to every known node but the node itself, in list order |
| UlsrCommsInternal.HelloPollRound | src/ulsr/comms_internal.c:288-307 | one round sends exactly the HELLO targets of `known_nodes` |
| UlsrIntComms.HandleInternalDataPacket | src/ulsr/int_comms.c:34-52 | a packet for this node goes to the external network unchanged; any other packet steps its route (`u16`), is stamped with this node and goes to the new hop |
| UlsrIntComms.HandleSendInternal | src/ulsr/int_comms.c:68-107 | dispatch on the type: DATA to the data handler, HELLO refreshes the table, PURGE, ROUTING and ROUTING_DONE are only logged and change nothing |
| UlsrIntComms.HelloPollRound | src/ulsr/int_comms.c:110-128 | a HELLO to every id of `known_ids` but the node itself |
| WanderRoutingTable.Entry.constructor | src/wander/routing_table.c:71-79 | an entry with the route and the given links |
| WanderRoutingTable.MaxTimeTakenIsMaximum | src/wander/routing_table.c:35-48 | the largest `time_taken` bounds every route and is attained by one |
| WanderRoutingTable.SleepEqualisesRoutes | src/wander/routing_table.c:50-69 | the sleep added to a route never exceeds MAX_WAIT, brings a route within MAX_WAIT up to the longest time used, and is 0 for a route at or over MAX_WAIT |
| WanderRoutingTable.RouteTable.constructor | src/wander/node.c:164-165 | the table `malloc` allocates in `node_init`, with its fields taken as zeroed: an empty list |
| WanderRoutingTable.RouteTable.First | src/wander/routing_table.c:122-136 | the head is null exactly when the list is empty, otherwise the first entry |
| WanderRoutingTable.RouteTable.Successor | src/wander/routing_table.c:122-136 | `next` of an entry is the entry after it in list order |
| WanderRoutingTable.RouteTable.AddLast | src/wander/routing_table.c:92-101 | appends the route as a fresh last entry and increments `size` |
| WanderRoutingTable.RouteTable.RemoveEntry | src/wander/routing_table.c:103-120 | a null entry changes nothing; otherwise exactly that entry is unlinked, the rest keep their order, and `size` is decremented |
| WanderRoutingTable.RouteTable.RemoveAllEntries | src/wander/routing_table.c:144-156 | the list is empty, with head and tail null and size 0 |
| WanderRoutingTable.RouteTable.FindLongestTimeUsed | src/wander/routing_table.c:35-48 | the loop computes the longest time used: the largest `time_taken` of the table, capped at MAX_WAIT |
| WanderRoutingTable.RouteTable.GetRandomRoute | src/wander/routing_table.c:50-69 | an empty table yields nothing; otherwise a copy of the route at `rand() % size` whose time is the sleep that equalises it |
| WanderRoutingTable.TableEmpty | src/wander/routing_table.c:28-33 | a table counts as empty when it is null or holds no route |
| WanderRouting.PacketRoute.constructor | include/wander/routing.h:1-158 | a packet route with the given path, length and step that has not slept |
| WanderRouting.RoutePayload.constructor | include/wander/routing.h:1-158 | a ROUTING_DONE payload of a route and a step from the destination |
| WanderNode.FirstThrough | src/wander/node.c:53-75 | the position of the first route whose path contains the id, or `None` exactly when no route does |
| WanderNode.FirstThroughAt | src/wander/node.c:53-75 | a route that contains the id, with none before it that does, is the first one |
| WanderNode.WithoutFirstThroughKeepsOthers | src/wander/node.c:53-75 | invalidating an id removes at most one route, only a route through the id, and keeps every route that avoids the id |
| WanderNode.InvalidateAllKeepsOthers | src/wander/node.c:87-101 | invalidating a list of ids removes at most one route per id, and keeps every route that avoids them all |
| WanderNode.ExpireSlots | src/wander/node.c:87-101 | expiry keeps the table's size |
| WanderNode.ExpireStep | src/wander/node.c:87-101 | one pass of the loop empties slot i exactly when its neighbour is expired |
| WanderNode.ExpiredIds | src/wander/node.c:87-101 | at most n ids are invalidated |
| WanderNode.ExpiredIdsExactly | src/wander/node.c:87-101 | id is invalidated exactly when slot id-1 held a neighbour unseen for longer than the threshold, and the ids come in increasing order |
| WanderNode.ExpireKeepsLayout | src/wander/node.c:87-101 | after expiry a slot is empty exactly when it was empty or held an expired neighbour, and the layout is kept |
| WanderNode.PathUses | src/wander/node.c:64-66 | the inner scan finds the id exactly when it is on the path |
| WanderNode.RemoveFirstThrough | src/wander/node.c:65-71 | removing the first matching entry leaves the routes without the first route through the id, and ends the walk |
| WanderNode.Node.constructor | src/wander/node.c:115-192 | empty neighbour slots, no new neighbours, an empty routing table, and a connection ring at index -1 |
| WanderNode.Node.RemoveRouteWithOldNeighbor | src/wander/node.c:53-75 | the routing table loses exactly the first route through the id |
| WanderNode.Node.ForgetNeighbor | src/wander/node.c:93-99 | the slot is emptied and the first route through its id is removed |
| WanderNode.Node.CheckSlot | src/wander/node.c:87-101 | one pass of the expiry loop keeps the loop's three invariants: the slots, the invalidated ids and the routes |
| WanderNode.Node.ExpireNeighbors | src/wander/node.c:87-101 | the loop expires exactly the expired neighbours and removes the first route through each of them, in slot order |
| WanderNode.Node.RemoveOldNeighbors | src/wander/node.c:77-112 | the whole expiry, then `new_neighbors_count` reset to 0, and the table emptied when the ratio test says so |
| WanderCommsInternal.UsePacketRoute | src/wander/comms_internal.c:106-116 | steps forward, stamps the node, sends to the new hop, and steps back exactly when the send failed under `reading`: never as written, on a result of 0 as intended |
| WanderCommsInternal.BogoFindNeighborStub | src/wander/comms_internal.c:67-74 | the pick over the walked path and the ignore list, appended to the list and written after `step` |
| WanderCommsInternal.BogoBegin | src/wander/comms_internal.c:79-86 | the path is cut to `step + 2` slots, `len` is `step + 1`, and the first pick is recorded |
| WanderCommsInternal.BogoTry | src/wander/comms_internal.c:88-98 | one open try: a success (under `reading`) keeps the longer route, and a failure restores `len` and makes the next pick |
| WanderCommsInternal.BogoSearch | src/wander/comms_internal.c:76-103 | every neighbour is tried at most once and all but a successful last one failed under `reading`. On success the path ends with the accepting neighbour and the step advanced; on giving up no candidate is left |
| WanderCommsInternal.SendBogo | src/wander/comms_internal.c:76-104 | the search as above, its tries and result satisfying `BogoOutcome`: as written at most one neighbour is tried, and it takes the packet exactly when there was one |
| WanderCommsInternal.PropagateFailure | src/wander/comms_internal.c:34-65 | a fresh DATA response with the failure report on the reversed route, at step 0. A one-hop route goes to the external send; otherwise it is sent to the route's second hop, and the step says whether that send came through under `reading` |
| WanderCommsInternal.BogoFallback | src/wander/comms_internal.c:206-230 | bogo after a failed route; its tries and result satisfy `BogoOutcome` (as written: at most one try, succeeding exactly when there was one); a failure report is produced exactly when bogo gave up |
| WanderCommsInternal.HandleHelloPacket | src/wander/comms_internal.c:234-250 | the table is refreshed for the sender, and `new_neighbors_count` grows by one exactly when the sender was not a neighbour yet |
| WanderCommsInternal.HandleRoutingDonePacket | src/wander/comms_internal.c:263-280 | at the destination the route is discarded exactly when it took longer than MAX_ROUTE_TIME and otherwise appended to the table; elsewhere it goes one hop further back |
| WanderCommsInternal.FollowRoute | src/wander/comms_internal.c:156-223 | a response at the final hop goes to the client; with an external link it goes out and is marked slept; otherwise a stored route, picked with its sleep, is combined and tried; not at the final hop the next hop is tried. A hop is taken exactly when its send came through under `reading`; bogo is left to take over (`None`) exactly when no route was stored or the hop failed, with the route bogo then starts from |
| WanderCommsInternal.HandleDataPacket | src/wander/comms_internal.c:156-232 | each branch: a response at the final hop goes to the client; with an external link it goes out and is marked slept; otherwise a stored route, picked with its sleep, is combined and tried, then bogo; a hop is taken exactly when its send came through under `reading` (always, as written); a bogo outcome satisfies `BogoOutcome` for the packet's route, or the combined one when a stored route was picked; a failure report exactly when bogo gave up |
| WanderCommsInternal.SendHellos | src/wander/comms_internal.c:331-340 | a HELLO to every known node but the node itself, in list order |
| WanderCommsInternal.HelloPollRound | src/wander/comms_internal.c:327-347 | one round: the HELLOs, then `remove_old_neighbors` with its whole effect |

## Left out

- Threads, mutexes, sockets, `sleep`, the GUI, the external communication files and logging are not modelled. Each handler models one packet.
- The receive loops `main_recv_thread` (src/ulsr/comms_internal.c:243-286, src/wander/comms_internal.c:282-325) and the `while` loop of `handle_send_internal` are not modelled beyond one packet. Their dispatch is modelled by `UlsrIntComms.HandleSendInternal`, and each handler it reaches is its own member.
  - In the two `comms_internal.c` files the dispatch needs the handlers' abstract inputs: the final hop, the combined route, the reversed route and the external link. So it is not rebuilt there.
- Effects outside the process are parameters:
  - `send_func` and `recv_func`: a function from destination id to a `u16` result;
  - `rand()`: a number per call;
  - `time(NULL)`: `now`;
  - `can_connect_func`: a boolean;
  - the ratio test of `remove_old_neighbors` (src/wander/node.c:107-111, floating point): the boolean `dropAllRoutes`.
- MAX_WAIT, MAX_AGE, MESH_NODE_COUNT, the default port and the packet size are parameters, not constants.
- Routing helpers whose code is not part of this model become parameters of the handlers or are left out:
  - `packet_route_final_hop`, `packet_route_combine` and `route_to_packet_route` of both generations. In the older one (src/ulsr/comms_internal.c:139, :164-165) they give the `finalHop` and `combined` inputs of `UlsrCommsInternal.HandleDataPacket` and `UlsrCommsInternal.RouteFromQueue`, in the newer one those of `WanderCommsInternal.HandleDataPacket`;
  - `reverse_packet_route_from_step` and `route_sleep` of the newer generation;
  - `handle_send_external`;
  - the newer generation's `find_all_routes` and `find_all_routes_send`. For that reason its ROUTING handler (src/wander/comms_internal.c:252-261) and its clock reading are left out.
- The `find_all_routes` calls at the end of the newer `send_bogo` are left out, for the same reason.
- `free`, `route_table_free` and `free_queue`: memory is not modelled.
  - Fields that `malloc` leaves uninitialised are set to 0, null or false.
  - Slots that `route_table_init` leaves uninitialised are modelled as empty.
- `remove_old_neighbors` is called by the older `hello_poll_thread` but is not defined in the older generation's files. The round models only the HELLOs.
- `UlsrNode.Node.constructor`: `known_ids` starts empty, since the simulation fills `known_nodes` instead. So the HELLO round of src/ulsr/int_comms.c sends nothing until the list is filled.
- `add_first_pos` (both routing tables) dereferences `head->prev` on an empty list and is not modelled. `AddLast` is.
- `WanderNode.Node.RemoveRouteWithOldNeighbor`: after `remove_entry` the entry's `next` is NULL, so the walk stops. The model removes only the first route through the id, as the code does in effect; it does not model the read of the freed entry.
- `UlsrRouting.FindAllRoutesSend`: when the path holds only the node itself, `path[path_length - 2]` reads before the buffer. The model gives that hop as `None`.
- `UlsrCommsInternal.HandleRoutingPacket`: the routing data is copied into fresh buffers instead of being written in place.
- `UlsrIntComms.HandleInternalDataPacket`: the field `packet->route` is the packet route `pr`.
- `UlsrRouteTable.RouteTable.Add` requires a destination id of at least 1. Id 0 wraps to slot 2^32-1 (shown by `SlotIndex`).
- `UlsrCommsInternal.SendBogo`, `UlsrCommsInternal.BogoSearch`, `UlsrCommsInternal.HandleDataPacket`, `WanderCommsInternal.SendBogo`, `WanderCommsInternal.BogoSearch` and `WanderCommsInternal.HandleDataPacket` require a step below 2^16-2, so that `step + 2` does not wrap. They also require the node's own slot to hold no neighbour, which bounds the ignore list by `known_nodes_count`.
- `UlsrCommsInternal.PropogateFailure`: when the reversed route has fewer than two hops (below step 2 as written, at step 0 as intended), `use_packet_route` reads `path[1]` past the route. The model makes no send then.
- `UlsrCommsInternal.SendBogo` returns the packets of its `find_all_routes` call as their own sequence. Their order relative to the bogo sends and the failure report is not modelled.
- `ArrayList.ArrayList.Push` requires `cap > 0`. After ARRAY_FREE the capacity is 0, `cap <<= 1` leaves it 0 and ARRAY_PUSH writes past the buffer; that push is not modelled.
- `ArrayList.PushThenPop` requires `cap > 0`, for the same reason.
- `Common.KB`, `Common.MB`, `Common.GB` and `Common.TB` compute on unbounded naturals; the C shifts overflow their operand's type, which is not modelled.
- `Common.EnsureCap` doubles an unbounded natural; the wrap of `cap <<= 1` on a fixed-width `cap` is not modelled.
- `ArrayList.ArrayList.ResizeIfNeeded` doubles an unbounded natural; the wrap of `cap <<= 1` on the `size_t` capacity is not modelled.
- `UlsrRouteTable.RouteTable.Add` keeps the corrected capacity as an unbounded natural, although `cap` is a `u16` in include/ulsr/route_table.h. `UlsrRouteTable.GrowAsWritten` models the `u16` wrap of the code as written.
- `WanderCommsInternal.PropagateFailure` requires a reversed route of length at least 1, since it reads `path[1]` when the length is not 1.
- `UlsrCommsInternal.BogoFallback`: the older generation propagates a failure twice (once in `send_bogo`, once in `handle_data_packet`). Both reports are returned.

## Findings

| source | as written | input that shows it | evidently intended | confidence | as-written member | corrected member |
|---|---|---|---|---|---|---|
| src/wander/comms_internal.c:111 | the `u16` result of `send_func` is compared with `-1`, which after promotion is never equal, so every send counts as delivered (the same test is at src/ulsr/comms_internal.c:91) | `send_func` returning 0 for a failed send | a failed send (result 0) is not delivered | not executed | SendResult.FailedSendReadAsDelivered | SendResult.Delivered |
| src/ulsr/route_table.c:38-48 | `route_table_add` doubles the capacity once when the index does not fit, then writes `entries[destination_id - 1]` | destination 1000 on a fresh table of 32 slots: the capacity becomes 64 and slot 999 is written out of bounds | grow until the index fits | not executed | UlsrRouteTable.AddAsWrittenOverruns | UlsrRouteTable.GrowToFitIsLeastFit |
| src/ulsr/routing.c:139-147 | `reverse_packet_route` reverses only the first `step` hops, leaving out the node that holds the packet, so the failure report's next hop is two hops back | path [1, 2, 3] at step 2: the report goes to node 1, not to node 2 that the packet came from | reverse the first `step + 1` hops, so the next hop is the previous one | not executed | UlsrRouting.FailureSkipsNodeTwo | UlsrRouting.FailureRouteGoesBackOneHop |
