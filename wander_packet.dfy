/** Packets of the newer generation (src/wander/packet.c,
    include/wander/packet.h): the external packet a client sends into the
    mesh and gets answered with, and the internal packet nodes pass to each
    other. */
module WanderPacket {
  import opened CLib
  import opened WanderRouting
  import Checksum

  /** enum wander_packet_type */
  datatype ExternalType = Http | Response | InternalFailure

  /** struct wander_packet. The IP fields are `char[16]` and the payload a
      `u8[UINT16_MAX]` of which the first `payload_len` bytes matter;
      `payload` holds those bytes. */
  datatype ExternalPacket = ExternalPacket(
    checksum: U32, kind: ExternalType, seqNr: U16,
    sourceIpv4: seq<char>, destIpv4: seq<char>, destPort: U16,
    payloadLen: U16, payload: seq<U8>)

  /** sizeof(struct wander_packet): 4 (checksum) + 4 (enum) + 2 (seq_nr) +
      16 + 16 (addresses) + 2 (port) + 2 (payload_len) + 65535 (payload),
      padded to a multiple of 4. */
  const WANDER_PACKET_SIZE: nat := 65584

  /** The length of the IP address fields. */
  const IPV4_FIELD: nat := 16

  /** wander_create_response: the answer to `packet` goes back the way it
      came (the addresses swap), to the default port, carrying the
      `strlen(response)` bytes of `response` (the length kept in a u16).
      The checksum is not set by the C code; it is 0 here. */
  function CreateResponse(packet: ExternalPacket, response: seq<U8>, seqNr: U16, defaultPort: U16): (r: ExternalPacket)
    ensures r.sourceIpv4 == StrNCpy(packet.destIpv4, IPV4_FIELD)
    ensures r.destIpv4 == StrNCpy(packet.sourceIpv4, IPV4_FIELD)
    ensures r.kind == Response && r.seqNr == seqNr && r.destPort == defaultPort
    ensures r.payloadLen == ToU16(StrLen(response, 0)) && |r.payload| == r.payloadLen
    ensures forall i :: 0 <= i < |r.payload| ==> r.payload[i] == response[i] && r.payload[i] != 0
  {
    var len := ToU16(StrLen(response, 0));
    ExternalPacket(0, Response, seqNr,
      StrNCpy(packet.destIpv4, IPV4_FIELD), StrNCpy(packet.sourceIpv4, IPV4_FIELD),
      defaultPort, len, response[..len])
  }

  /** wander_create_failure: a failure report back to the sender of the
      packet that could not be delivered, with sequence number and
      checksum 0. The payload is not set by the C code; it is empty here. */
  function CreateFailure(failed: ExternalPacket, defaultPort: U16): (r: ExternalPacket)
    ensures r.sourceIpv4 == StrNCpy(failed.destIpv4, IPV4_FIELD)
    ensures r.destIpv4 == StrNCpy(failed.sourceIpv4, IPV4_FIELD)
    ensures r.kind == InternalFailure && r.seqNr == 0 && r.checksum == 0 && r.destPort == defaultPort
  {
    ExternalPacket(0, InternalFailure, 0,
      StrNCpy(failed.destIpv4, IPV4_FIELD), StrNCpy(failed.sourceIpv4, IPV4_FIELD),
      defaultPort, 0, [])
  }

  /** Answering an answer goes back to the original sender: the addresses of
      a response to a response (or to a failure report) are those of the
      original packet, cut or padded to the 16-byte field. */
  lemma ResponseSwapsBack(packet: ExternalPacket, response: seq<U8>, seqNr: U16, port: U16, again: seq<U8>, seqNr2: U16)
    ensures var back := CreateResponse(CreateResponse(packet, response, seqNr, port), again, seqNr2, port);
      back.sourceIpv4 == StrNCpy(packet.sourceIpv4, IPV4_FIELD) &&
      back.destIpv4 == StrNCpy(packet.destIpv4, IPV4_FIELD)
    ensures var back := CreateResponse(CreateFailure(packet, port), again, seqNr2, port);
      back.sourceIpv4 == StrNCpy(packet.sourceIpv4, IPV4_FIELD) &&
      back.destIpv4 == StrNCpy(packet.destIpv4, IPV4_FIELD)
  {
    StrNCpyIdempotent(packet.sourceIpv4, IPV4_FIELD);
    StrNCpyIdempotent(packet.destIpv4, IPV4_FIELD);
  }

  /** The payload of a response is exactly the response string: all of it
      up to its terminator whenever that fits the u16 length field. */
  lemma ResponseCarriesWholeString(packet: ExternalPacket, response: seq<U8>, seqNr: U16, port: U16)
    requires StrLen(response, 0) < U16_LIMIT
    ensures CreateResponse(packet, response, seqNr, port).payload == response[..StrLen(response, 0)]
  {
  }

  /** enum wander_internal_packet_type, PACKET_DATA = 0 onwards. */
  datatype InternalType = Data | Hello | Purge | Routing | RoutingDone | NoType

  /** The enum value of a type. */
  function Ordinal(t: InternalType): (r: nat)
    ensures r < PACKET_TYPE_COUNT
  {
    match t
    case Data => 0
    case Hello => 1
    case Purge => 2
    case Routing => 3
    case RoutingDone => 4
    case NoType => 5
  }

  /** PACKET_TYPE_COUNT */
  const PACKET_TYPE_COUNT: nat := 6

  /** uslr_internal_type_to_str: the names of the types, in enum order. */
  const TYPE_NAMES: seq<string> := ["DATA", "HELLO", "PURGE", "ROUTING", "ROUTING_DONE", "NONE"]

  /** The name the table gives a type. */
  function TypeName(t: InternalType): (r: string)
  {
    TYPE_NAMES[Ordinal(t)]
  }

  /** The table has one name per type and no two types share a name, so a
      name identifies its type. */
  lemma TypeNamesIdentifyTypes(s: InternalType, t: InternalType)
    ensures |TYPE_NAMES| == PACKET_TYPE_COUNT
    ensures TypeName(s) == TypeName(t) <==> s == t
    ensures TypeName(Data) == "DATA" && TypeName(RoutingDone) == "ROUTING_DONE" && TypeName(NoType) == "NONE"
  {
  }

  /** What an internal packet's `void *payload` points at, by packet type. */
  datatype Payload =
    | NoPayload
    | External(packet: ExternalPacket)
    | RouteDone(routePayload: RoutePayload)

  /** struct wander_internal_packet. The handlers rewrite its fields in
      place before passing it on. */
  class InternalPacket {
    var checksum: U32
    var kind: InternalType
    var prevNodeId: U16
    var destNodeId: U16
    var payloadLen: U32
    var payload: Payload
    var pr: PacketRoute?
    var isResponse: bool

    /** wander_internal_from_external: a DATA packet carrying the external
        packet, with no previous or destination node yet. The checksum and
        the packet route are not set by the C code; they are 0 and NULL. */
    constructor FromExternal(external: ExternalPacket)
      ensures kind == Data && payload == External(external) && payloadLen == WANDER_PACKET_SIZE
      ensures prevNodeId == 0 && destNodeId == 0 && !isResponse
      ensures pr == null && checksum == 0
    {
      kind := Data;
      payloadLen := WANDER_PACKET_SIZE;
      payload := External(external);
      prevNodeId, destNodeId := 0, 0;
      isResponse := false;
      pr, checksum := null, 0;
    }

    /** wander_internal_create_hello(from, to): an empty HELLO from `from`
        to `to`. The fields the C code leaves unset are 0, NULL and false. */
    constructor CreateHello(from: U16, to: U16)
      ensures kind == Hello && payload == NoPayload && payloadLen == 0
      ensures prevNodeId == from && destNodeId == to
      ensures pr == null && checksum == 0 && !isResponse
    {
      kind := Hello;
      payloadLen := 0;
      payload := NoPayload;
      prevNodeId, destNodeId := from, to;
      pr, checksum, isResponse := null, 0, false;
    }
  }

  /** wander_checksum(packet, size): the complement of the wrapping u32 sum
      of bytes 4 to `size - 1`. */
  method ComputeChecksum(packet: array<U8>, size: nat) returns (checksum: U32)
    requires size <= packet.Length
    ensures checksum == Checksum.ChecksumOf(packet[..], size)
  {
    var sum: U32 := 0;
    var i := 4;
    while i < size
      invariant 4 <= i && (size > 4 ==> i <= size)
      invariant size > 4 ==> sum == Checksum.ByteSum(packet[4..i]) % U32_LIMIT
      invariant size <= 4 ==> sum == 0
    {
      Checksum.ByteSumExtend(packet[..], 4, i);
      Checksum.AddU32OfWrapped(Checksum.ByteSum(packet[4..i]), packet[i]);
      sum := AddU32(sum, packet[i]);
      i := i + 1;
    }
    checksum := NotU32(sum);
  }
}
