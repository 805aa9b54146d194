/** The arithmetic, comparison and buffer macros of include/lib/common.h.
    Integers here are unbounded: the macros are applied to values far from
    the width of their C types. */
module Common {
  import opened CLib

  /** 2^n. */
  function Pow2(n: nat): (r: nat)
    ensures r >= 1
  {
    if n == 0 then 1 else 2 * Pow2(n - 1)
  }

  /** 2^(a+b) = 2^a * 2^b. */
  lemma {:induction false} Pow2Add(a: nat, b: nat)
    ensures Pow2(a + b) == Pow2(a) * Pow2(b)
  {
    if a > 0 {
      Pow2Add(a - 1, b);
    }
  }

  /** `x << n` on a non-negative integer. */
  function Shl(x: nat, n: nat): nat
  {
    x * Pow2(n)
  }

  /** `x >> n` on a non-negative integer: `n` halvings, each rounding
      down. */
  function Shr(x: nat, n: nat): nat
  {
    if n == 0 then x else Shr(x / 2, n - 1)
  }

  /** The two shifts the capacity macros use: `x >> 1` is `x / 2` and
      `x >> 2` is `x / 4`. */
  lemma ShrSmall(x: nat)
    ensures Shr(x, 1) == x / 2 && Shr(x, 2) == x / 4
  {
    assert Shr(x, 2) == Shr(x / 2, 1) == (x / 2) / 2;
  }

  /** The powers of two behind the size units. */
  lemma UnitPowers()
    ensures Pow2(10) == 1024 && Pow2(20) == 1048576
    ensures Pow2(30) == 1073741824 && Pow2(40) == 1099511627776
  {
    assert Pow2(10) == 1024;
    Pow2Add(10, 10);
    Pow2Add(20, 10);
    Pow2Add(30, 10);
  }

  /** KB(x) = x << 10: x kibibytes counted in bytes. */
  function KB(x: nat): (r: nat)
    ensures r == x * 1024
  {
    UnitPowers();
    Shl(x, 10)
  }

  /** MB(x) = x << 20. */
  function MB(x: nat): (r: nat)
    ensures r == x * 1048576
  {
    UnitPowers();
    Shl(x, 20)
  }

  /** GB(x) = x << 30. */
  function GB(x: nat): (r: nat)
    ensures r == x * 1073741824
  {
    UnitPowers();
    Shl(x, 30)
  }

  /** TB(x) = x << 40. */
  function TB(x: nat): (r: nat)
    ensures r == x * 1099511627776
  {
    UnitPowers();
    Shl(x, 40)
  }

  /** Each unit is 1024 times the previous one. */
  lemma UnitsScaleBy1024(x: nat)
    ensures MB(x) == KB(KB(x)) && GB(x) == KB(MB(x)) && TB(x) == KB(GB(x))
  {
  }

  /** MIN(a, b) = ((a) < (b)) ? (a) : (b) */
  function Min(a: int, b: int): (r: int)
    ensures r <= a && r <= b
    ensures r == a || r == b
  {
    if a < b then a else b
  }

  /** MAX(a, b) = ((a) > (b)) ? (a) : (b) */
  function Max(a: int, b: int): (r: int)
    ensures r >= a && r >= b
    ensures r == a || r == b
  {
    if a > b then a else b
  }

  /** CLAMP(a, x, b): x forced into the interval [a, b]. */
  function Clamp(a: int, x: int, b: int): (r: int)
    ensures a <= b ==> a <= r <= b
    ensures a <= x <= b ==> r == x
    ensures x < a ==> r == a
    ensures a <= x && b < x ==> r == b
  {
    if x < a then a else if b < x then b else x
  }

  /** BYTES_EQUAL(a, b, size, pred): a do-while loop that compares the two
      buffers byte by byte and leaves `pred` false at the first mismatch.
      `compared` is the number of byte pairs the loop read. The macro reads
      at least one pair, and with `size == 0` its `--size` wraps and the loop
      runs past both buffers, so it needs `size >= 1`. */
  method BytesEqual(a: array<U8>, b: array<U8>, size: nat) returns (pred: bool, compared: nat)
    requires 1 <= size <= a.Length && size <= b.Length
    ensures pred <==> a[..size] == b[..size]
    ensures 1 <= compared <= size
    ensures forall i :: 0 <= i < compared - 1 ==> a[i] == b[i]
    ensures !pred ==> a[compared - 1] != b[compared - 1]
    ensures pred ==> compared == size
  {
    var rest := size;
    pred := a[0] == b[0];
    compared := 1;
    while pred && rest - 1 != 0
      invariant 1 <= compared <= size
      invariant rest == size - compared + 1
      invariant forall i :: 0 <= i < compared - 1 ==> a[i] == b[i]
      invariant pred <==> a[compared - 1] == b[compared - 1]
      decreases rest
    {
      rest := rest - 1;
      pred := a[compared] == b[compared];
      compared := compared + 1;
    }
    if pred {
      assert forall i :: 0 <= i < size ==> a[i] == b[i];
      assert a[..size] == b[..size];
    } else {
      assert a[..size][compared - 1] != b[..size][compared - 1];
    }
  }

  /** ENSURE_CAP(size, cap, vals): double the capacity of a full buffer of
      `cap` slots and `realloc` it; leave it alone otherwise. */
  method EnsureCap<T(0)>(size: nat, cap: nat, vals: array<T>) returns (newCap: nat, newVals: array<T>)
    requires vals.Length == cap
    ensures newCap == if size == cap then 2 * cap else cap
    ensures newVals.Length == newCap
    ensures size != cap ==> newVals == vals
    ensures forall i :: 0 <= i < cap ==> newVals[i] == vals[i]
  {
    newCap, newVals := cap, vals;
    if size == cap {
      newCap := Shl(cap, 1);
      newVals := Realloc(vals, newCap);
    }
  }

  /** REDUCE_CAP(size, cap, vals): halve the capacity when `size` has fallen
      to `cap >> 1`, keeping the first `cap >> 1` slots. */
  method ReduceCap<T(0)>(size: nat, cap: nat, vals: array<T>) returns (newCap: nat, newVals: array<T>)
    requires vals.Length == cap
    ensures newCap == if size == cap / 2 then cap / 2 else cap
    ensures newVals.Length == newCap
    ensures size != cap / 2 ==> newVals == vals
    ensures forall i :: 0 <= i < newCap ==> newVals[i] == vals[i]
  {
    newCap, newVals := cap, vals;
    ShrSmall(cap);
    if size == Shr(cap, 1) {
      newCap := Shr(cap, 1);
      newVals := Realloc(vals, newCap);
    }
  }

  /** After ENSURE_CAP a buffer with `size <= cap` and at least one slot has
      room for one more element. */
  lemma EnsureCapMakesRoom(size: nat, cap: nat)
    requires size <= cap && cap > 0
    ensures size < (if size == cap then 2 * cap else cap)
  {
  }

  /** REDUCE_CAP never drops a live element: the halved capacity still holds
      `size` of them. */
  lemma ReduceCapKeepsElements(size: nat, cap: nat)
    requires size <= cap
    ensures size <= (if size == cap / 2 then cap / 2 else cap)
  {
  }
}
