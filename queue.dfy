/** The bounded circular FIFO of src/queue.c (struct queue_t): `max` slots,
    the oldest item at `start`, the next free slot at `end`, `size` items
    held. The router uses it for task, packet and route queues. */
module Queue {
  import opened CLib

  /** The items a ring of `|buf|` slots holds: `len` of them, starting at
      slot `start` and wrapping past the last slot to slot 0. */
  ghost function Ring<T>(buf: seq<T>, start: nat, len: nat): (r: seq<T>)
    requires len <= |buf| && (|buf| > 0 ==> start < |buf|)
    ensures |r| == len
    ensures forall i :: 0 <= i < len ==> r[i] == buf[(start + i) % |buf|]
  {
    seq(len, i requires 0 <= i < len => buf[(start + i) % |buf|])
  }

  /** `(a + i) % n` for `a, i < n`: the sum wraps at most once. */
  lemma ModOfSmallSum(a: nat, i: nat, n: nat)
    requires a < n && i <= n
    ensures (a + i) % n == if a + i < n then a + i else a + i - n
  {
    if a + i >= n {
      assert a + i == 1 * n + (a + i - n);
    }
  }

  /** Writing the slot just past the last item appends that item. */
  lemma {:induction false} RingPush<T>(buf: seq<T>, start: nat, len: nat, x: T)
    requires len < |buf| && start < |buf|
    ensures Ring(buf[(start + len) % |buf| := x], start, len + 1) == Ring(buf, start, len) + [x]
  {
    var n := |buf|;
    var buf' := buf[(start + len) % n := x];
    var after := Ring(buf', start, len + 1);
    var before := Ring(buf, start, len) + [x];
    ModOfSmallSum(start, len, n);
    forall i | 0 <= i < len + 1
      ensures after[i] == before[i]
    {
      ModOfSmallSum(start, i, n);
    }
  }

  /** Moving `start` one slot forward drops the oldest item. */
  lemma {:induction false} RingPop<T>(buf: seq<T>, start: nat, len: nat)
    requires 0 < len <= |buf| && start < |buf|
    ensures Ring(buf, (start + 1) % |buf|, len - 1) == Ring(buf, start, len)[1..]
  {
    var n := |buf|;
    var start' := (start + 1) % n;
    ModOfSmallSum(start, 1, n);
    var after := Ring(buf, start', len - 1);
    var before := Ring(buf, start, len)[1..];
    forall i | 0 <= i < len - 1
      ensures after[i] == before[i]
    {
      ModOfSmallSum(start', i, n);
      ModOfSmallSum(start, i + 1, n);
    }
  }

  /** The cursor arithmetic of a pop: moving `start` one slot forward
      keeps it inside the ring, and the ring still ends at `end` with one
      item fewer. */
  lemma AdvanceCursor(start: nat, len: nat, end: nat, n: nat)
    requires 0 < len <= n && start < n && end == (start + len) % n
    ensures (start + 1) % n < n
    ensures end == ((start + 1) % n + (len - 1)) % n
  {
    ModOfSmallSum(start, 1, n);
    ModOfSmallSum(start, len, n);
    var start' := (start + 1) % n;
    ModOfSmallSum(start', len - 1, n);
  }

  /** A pop in terms of the ring: after moving `start` one slot forward the
      ring still ends at `end`, holds one item fewer, and the dropped item
      is the one in slot `start`. */
  lemma RingAdvance<T>(buf: seq<T>, start: nat, len: nat, end: nat)
    requires 0 < len <= |buf| && start < |buf| && end == (start + len) % |buf|
    ensures (start + 1) % |buf| < |buf|
    ensures end == ((start + 1) % |buf| + (len - 1)) % |buf|
    ensures Ring(buf, (start + 1) % |buf|, len - 1) == Ring(buf, start, len)[1..]
    ensures Ring(buf, start, len)[0] == buf[start]
  {
    AdvanceCursor(start, len, end, |buf|);
    ModOfSmallSum(start, 0, |buf|);
    RingPop(buf, start, len);
  }

  class Queue<T(0)> {
    var items: array<T>
    var start: nat
    var end: nat
    var size: nat
    var max: nat
    /** The queued items, oldest first. */
    ghost var Contents: seq<T>

    /** `queue_push` and `queue_pop` keep `size` within `max`, both cursors
        inside the ring, and `end` exactly `size` slots after `start`. */
    ghost predicate Valid()
      reads this, items
    {
      && items.Length == max
      && size <= max
      && (max == 0 ==> start == 0 && end == 0)
      && (max > 0 ==> start < max && end < max && end == (start + size) % max)
      && Contents == Ring(items[..], start, size)
    }

    /** init_queue(queue, size) */
    constructor (size: nat)
      ensures Valid() && fresh(items)
      ensures max == size && start == 0 && end == 0 && this.size == 0
      ensures Contents == []
    {
      items := new T[size];
      max := size;
      start, end, this.size := 0, 0, 0;
      Contents := [];
    }

    /** queue_empty */
    function Empty(): (r: bool)
      reads this, items
      requires Valid()
      ensures r <==> size == 0
      ensures r <==> Contents == []
    {
      size == 0
    }

    /** queue_full */
    function Full(): (r: bool)
      reads this, items
      requires Valid()
      ensures r <==> size == max
      ensures r <==> |Contents| == max
    {
      size == max
    }

    /** queue_push: refuse when full; otherwise store at `end` and advance it. */
    method Push(item: T) returns (ok: bool)
      requires Valid()
      modifies this, items
      ensures Valid() && items == old(items) && max == old(max)
      ensures ok <==> old(size) < old(max)
      ensures ok ==> Contents == old(Contents) + [item] && size == old(size) + 1
      ensures ok ==> start == old(start) && end == (old(end) + 1) % max
      ensures !ok ==> Contents == old(Contents) && items[..] == old(items[..])
      ensures !ok ==> start == old(start) && end == old(end) && size == old(size)
    {
      if Full() {
        return false;
      }
      ghost var buf := items[..];
      ModOfSmallSum(start, size, max);
      ModOfSmallSum(start, size + 1, max);
      ModOfSmallSum(end, 1, max);
      RingPush(buf, start, size, item);
      items[end] := item;
      assert items[..] == buf[(start + size) % max := item];
      end := (end + 1) % max;
      size := size + 1;
      Contents := Contents + [item];
      return true;
    }

    /** queue_pop: None (the C NULL) when empty; otherwise the oldest item. */
    method Pop() returns (r: Option<T>)
      requires Valid()
      modifies this
      ensures Valid() && items == old(items) && items[..] == old(items[..]) && max == old(max)
      ensures r.None? <==> old(Contents) == []
      ensures r.None? ==> Contents == old(Contents) && start == old(start) && end == old(end) && size == old(size)
      ensures r.Some? ==> r.value == old(Contents)[0] && Contents == old(Contents)[1..]
      ensures r.Some? ==> size == old(size) - 1 && start == (old(start) + 1) % max && end == old(end)
    {
      if Empty() {
        return None;
      }
      var element := items[start];
      var next := (start + 1) % max;
      RingAdvance(items[..], start, size, end);
      start := next;
      size := size - 1;
      Contents := Contents[1..];
      return Some(element);
    }
  }
}
