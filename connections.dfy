/** The ring of accepted client sockets that both generations keep
    (struct connections_t): `cap` slots, `index` the slot written last,
    -1 before the first insert. Once every slot has been written the ring
    wraps and the oldest socket is overwritten. */
module Connections {

  /** The slot the next insert writes: `(index + 1) % cap`. The left
      operand is never negative, so C's truncating `%` and Dafny's agree. */
  function NextIndex(index: int, cap: int): (r: int)
    requires -1 <= index < cap && cap > 0
    ensures 0 <= r < cap
    ensures index + 1 < cap ==> r == index + 1
    ensures index + 1 == cap ==> r == 0
  {
    (index + 1) % cap
  }

  /** The value of `index` after `n` inserts into a fresh ring. */
  function IndexAfterInserts(n: nat, cap: int): (r: int)
    requires cap > 0
    ensures -1 <= r < cap
  {
    if n == 0 then -1 else NextIndex(IndexAfterInserts(n - 1, cap), cap)
  }

  /** On the first lap the `n`-th insert (counting from 1) writes slot
      `n - 1`. */
  lemma {:induction false} FirstLap(n: nat, cap: int)
    requires 1 <= n <= cap
    ensures IndexAfterInserts(n, cap) == n - 1
  {
    if n > 1 {
      FirstLap(n - 1, cap);
    }
  }

  /** After `cap` more inserts the ring is back at the same slot: insert
      `n + cap` overwrites the socket insert `n` stored. */
  lemma {:induction false} Periodic(n: nat, cap: int)
    requires n >= 1 && cap > 0
    ensures IndexAfterInserts(n + cap, cap) == IndexAfterInserts(n, cap)
  {
    if n == 1 {
      FirstLap(cap, cap);
      FirstLap(1, cap);
    } else {
      Periodic(n - 1, cap);
    }
  }

  class Connections {
    var connections: array<int>
    var index: int
    var cap: int

    /** `cap` slots, `index` either -1 or a slot of the ring. */
    ghost predicate Valid()
      reads this
    {
      connections.Length == cap && cap >= 0 && -1 <= index < cap
    }

    /** The initialisation in init_node: `calloc(cap)` slots (all 0),
        `index = -1`. */
    constructor (cap: nat)
      ensures Valid() && fresh(connections)
      ensures this.cap == cap && index == -1
      ensures forall i :: 0 <= i < cap ==> connections[i] == 0
    {
      connections := new int[cap](_ => 0);
      index := -1;
      this.cap := cap;
    }

    /** insert_external_connection / insert_connection: advance `index`
        round the ring and store the socket there; no other slot changes.
        A ring of no slots would divide by zero, so `cap > 0`. */
    method Insert(connection: int)
      requires Valid() && cap > 0
      modifies this, connections
      ensures Valid() && connections == old(connections) && cap == old(cap)
      ensures index == NextIndex(old(index), cap)
      ensures connections[..] == old(connections[..])[index := connection]
    {
      index := index + 1;
      index := index % cap;
      connections[index] := connection;
    }
  }
}
