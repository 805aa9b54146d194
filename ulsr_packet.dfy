/** Packets of the older generation (src/ulsr/packet.c). The declarations
    they use (struct ulsr_packet, struct ulsr_internal_packet) live in a
    header that is not part of this model; the fields below are the ones
    the C files of src/ulsr read and write, laid out like the newer generation's. */
module UlsrPacket {
  import opened CLib
  import opened UlsrRouting
  import Checksum

  /** The external packet types (ULSR_HTTP, ULSR_RESPONSE,
      ULSR_INTERNAL_FAILURE). */
  datatype ExternalType = Http | Response | InternalFailure

  /** struct ulsr_packet. The IP fields are `char[16]` and the payload a
      `u8[UINT16_MAX]` of which the first `payload_len` bytes matter;
      `payload` holds those bytes. */
  datatype ExternalPacket = ExternalPacket(
    checksum: U32, kind: ExternalType, seqNr: U16,
    sourceIpv4: seq<char>, destIpv4: seq<char>, destPort: U16,
    payloadLen: U16, payload: seq<U8>)

  /** The length of the IP address fields. */
  const IPV4_FIELD: nat := 16

  /** ulsr_create_response: the answer to `packet` goes back the way it
      came (the addresses swap), to the default port, carrying the
      `strlen(response)` bytes of `response` (the length kept in a u16).
      The checksum is not set by the C code; it is 0 here. */
  function CreateResponse(packet: ExternalPacket, response: seq<U8>, seqNr: U16, defaultPort: U16): (r: ExternalPacket)
    ensures r.sourceIpv4 == StrNCpy(packet.destIpv4, IPV4_FIELD)
    ensures r.destIpv4 == StrNCpy(packet.sourceIpv4, IPV4_FIELD)
    ensures r.kind == Response && r.seqNr == seqNr && r.destPort == defaultPort
    ensures r.payloadLen == ToU16(StrLen(response, 0)) && |r.payload| == r.payloadLen
    ensures forall i :: 0 <= i < |r.payload| ==> r.payload[i] == response[i] && r.payload[i] != 0
  {
    var len := ToU16(StrLen(response, 0));
    ExternalPacket(0, Response, seqNr,
      StrNCpy(packet.destIpv4, IPV4_FIELD), StrNCpy(packet.sourceIpv4, IPV4_FIELD),
      defaultPort, len, response[..len])
  }

  /** ulsr_create_failure: a failure report back to the sender of the
      packet that could not be delivered, with sequence number and
      checksum 0. The payload is not set by the C code; it is empty here. */
  function CreateFailure(failed: ExternalPacket, defaultPort: U16): (r: ExternalPacket)
    ensures r.sourceIpv4 == StrNCpy(failed.destIpv4, IPV4_FIELD)
    ensures r.destIpv4 == StrNCpy(failed.sourceIpv4, IPV4_FIELD)
    ensures r.kind == InternalFailure && r.seqNr == 0 && r.checksum == 0 && r.destPort == defaultPort
  {
    ExternalPacket(0, InternalFailure, 0,
      StrNCpy(failed.destIpv4, IPV4_FIELD), StrNCpy(failed.sourceIpv4, IPV4_FIELD),
      defaultPort, 0, [])
  }

  /** Answering an answer goes back to the original sender: the addresses of
      a response to a response (or to a failure report) are those of the
      original packet, cut or padded to the 16-byte field. */
  lemma ResponseSwapsBack(packet: ExternalPacket, response: seq<U8>, seqNr: U16, port: U16, again: seq<U8>, seqNr2: U16)
    ensures var back := CreateResponse(CreateResponse(packet, response, seqNr, port), again, seqNr2, port);
      back.sourceIpv4 == StrNCpy(packet.sourceIpv4, IPV4_FIELD) &&
      back.destIpv4 == StrNCpy(packet.destIpv4, IPV4_FIELD)
    ensures var back := CreateResponse(CreateFailure(packet, port), again, seqNr2, port);
      back.sourceIpv4 == StrNCpy(packet.sourceIpv4, IPV4_FIELD) &&
      back.destIpv4 == StrNCpy(packet.destIpv4, IPV4_FIELD)
  {
    StrNCpyIdempotent(packet.sourceIpv4, IPV4_FIELD);
    StrNCpyIdempotent(packet.destIpv4, IPV4_FIELD);
  }

  /** The payload of a response is exactly the response string: all of it
      up to its terminator whenever that fits the u16 length field. */
  lemma ResponseCarriesWholeString(packet: ExternalPacket, response: seq<U8>, seqNr: U16, port: U16)
    requires StrLen(response, 0) < U16_LIMIT
    ensures CreateResponse(packet, response, seqNr, port).payload == response[..StrLen(response, 0)]
  {
  }

  /** The internal packet types the older generation handles. */
  datatype InternalType = Data | Hello | Purge | Routing | RoutingDone

  /** What an internal packet's `void *payload` points at, by packet type. */
  datatype Payload =
    | NoPayload
    | External(packet: ExternalPacket)
    | Discovery(routingData: RoutingData)
    | RouteDone(routePayload: RoutePayload)

  /** struct ulsr_internal_packet. The handlers rewrite its fields in
      place before passing it on. */
  class InternalPacket {
    var checksum: U32
    var kind: InternalType
    var prevNodeId: U16
    var destNodeId: U16
    var payloadLen: U32
    var payload: Payload
    var pr: PacketRoute?
    var isResponse: bool

    /** ulsr_internal_from_external: a DATA packet carrying the external
        packet, with no previous or destination node yet; `payload_len` is
        `sizeof(struct ulsr_packet)`, given as `packetSize`. The checksum,
        the packet route and `is_response` are not set by the C code; they
        are 0, NULL and false. */
    constructor FromExternal(external: ExternalPacket, packetSize: U32)
      ensures kind == Data && payload == External(external) && payloadLen == packetSize
      ensures prevNodeId == 0 && destNodeId == 0 && !isResponse
      ensures pr == null && checksum == 0
    {
      kind := Data;
      payloadLen := packetSize;
      payload := External(external);
      prevNodeId, destNodeId := 0, 0;
      isResponse := false;
      pr, checksum := null, 0;
    }

    /** ulsr_internal_create_hello(from, to): an empty HELLO from `from`
        to `to`. The fields the C code leaves unset are 0, NULL and false. */
    constructor CreateHello(from: U16, to: U16)
      ensures kind == Hello && payload == NoPayload && payloadLen == 0
      ensures prevNodeId == from && destNodeId == to
      ensures pr == null && checksum == 0 && !isResponse
    {
      kind := Hello;
      payloadLen := 0;
      payload := NoPayload;
      prevNodeId, destNodeId := from, to;
      pr, checksum, isResponse := null, 0, false;
    }
  }

  /** ulsr_checksum(packet, size): the complement of the wrapping u32 sum
      of bytes 4 to `size - 1`. */
  method ComputeChecksum(packet: array<U8>, size: nat) returns (checksum: U32)
    requires size <= packet.Length
    ensures checksum == Checksum.ChecksumOf(packet[..], size)
  {
    var sum: U32 := 0;
    var i := 4;
    while i < size
      invariant 4 <= i && (size > 4 ==> i <= size)
      invariant size > 4 ==> sum == Checksum.ByteSum(packet[4..i]) % U32_LIMIT
      invariant size <= 4 ==> sum == 0
    {
      Checksum.ByteSumExtend(packet[..], 4, i);
      Checksum.AddU32OfWrapped(Checksum.ByteSum(packet[4..i]), packet[i]);
      sum := AddU32(sum, packet[i]);
      i := i + 1;
    }
    checksum := NotU32(sum);
  }
}
