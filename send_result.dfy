/** The value a node's `send_func` callback hands back. The simulation's
    callback (src/ulsr/impl.c) returns a u16: 0 when the receiver is out of
    range or inactive, the packet's payload length otherwise. The routing
    code decides whether a hop "came through" by comparing that u16 with -1. */
module SendResult {
  import opened CLib

  /** The test as the routing code writes it: `send_func(...) != -1`. The
      u16 result is promoted to int, so it never equals -1 and every send
      looks delivered. */
  function DeliveredAsWritten(r: U16): (b: bool)
    ensures b
  {
    r as int != -1
  }

  /** The test the callback's convention calls for: 0 signals failure. */
  function Delivered(r: U16): (b: bool)
    ensures b <==> r != 0
  {
    r != 0
  }

  /** A send that the callback reports as failed (result 0) is taken as
      delivered by the written test and as failed by the intended one. */
  lemma FailedSendReadAsDelivered()
    ensures DeliveredAsWritten(0) && !Delivered(0)
  {
  }

  /** Which reading of the routing code a handler follows: the code as
      written, or as evidently intended. It decides the test applied to a
      send's result and, in the older generation, the route a failure
      report takes back. */
  datatype Reading = AsWritten | Intended

  /** Whether a send "came through" under `reading`. As written every send
      does; as intended exactly those the callback did not refuse. */
  function CameThrough(reading: Reading, r: U16): (b: bool)
    ensures reading == AsWritten ==> b
    ensures reading == Intended ==> (b <==> r != 0)
  {
    match reading
    case AsWritten => DeliveredAsWritten(r)
    case Intended => Delivered(r)
  }

  /** Every send to the hops in `hops` failed under the oracle `sendResult`,
      read as `reading` says. */
  ghost predicate AllFailed(hops: seq<U16>, reading: Reading, sendResult: U16 -> U16)
  {
    forall k :: 0 <= k < |hops| ==> !CameThrough(reading, sendResult(hops[k]))
  }

  /** A further failed send extends the record of failed sends. */
  lemma AllFailedAppend(hops: seq<U16>, x: U16, reading: Reading, sendResult: U16 -> U16)
    requires AllFailed(hops, reading, sendResult) && !CameThrough(reading, sendResult(x))
    ensures AllFailed(hops + [x], reading, sendResult)
  {
    var hops' := hops + [x];
    assert forall k :: 0 <= k < |hops| ==> hops'[k] == hops[k];
  }

  /** Read as written, no send fails, so a record of failed sends is
      empty. */
  lemma NoFailureAsWritten(hops: seq<U16>, sendResult: U16 -> U16)
    ensures AllFailed(hops, AsWritten, sendResult) ==> hops == []
  {
    if hops != [] {
      assert CameThrough(AsWritten, sendResult(hops[0]));
    }
  }
}
