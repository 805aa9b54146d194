/** The pieces of the C runtime that the router's code relies on: fixed-width
    unsigned integers with explicit wrap-around, NUL-terminated strings as
    `strlen` and `strncpy` see them, `realloc`, and reads through a path
    buffer that may run past its end. */
module CLib {

  datatype Option<T> = None | Some(value: T)

  const U16_LIMIT: nat := 0x1_0000
  const U32_LIMIT: nat := 0x1_0000_0000

  type U8 = x: int | 0 <= x < 0x100
  type U16 = x: int | 0 <= x < 0x1_0000
  type U32 = x: int | 0 <= x < 0x1_0000_0000

  /** Addition on a u32 accumulator: a sum that does not fit in 32 bits
      wraps around once. */
  function AddU32(acc: U32, x: U32): (r: U32)
    ensures acc + x < U32_LIMIT ==> r == acc + x
    ensures acc + x >= U32_LIMIT ==> r == acc + x - U32_LIMIT
  {
    (acc + x) % U32_LIMIT
  }

  /** The C operator `~` on a u32. */
  function NotU32(x: U32): (r: U32)
    ensures r + x == U32_LIMIT - 1
  {
    U32_LIMIT - 1 - x
  }

  /** A u16 counter stepped by `++` or `--` (both wrap modulo 2^16). */
  function IncU16(x: U16): (r: U16)
    ensures x < U16_LIMIT - 1 ==> r == x + 1
    ensures x == U16_LIMIT - 1 ==> r == 0
  {
    (x + 1) % U16_LIMIT
  }

  function DecU16(x: U16): (r: U16)
    ensures x > 0 ==> r == x - 1
    ensures x == 0 ==> r == U16_LIMIT - 1
  {
    (x + U16_LIMIT - 1) % U16_LIMIT
  }

  /** The truncating conversion of a count to a u16 field. */
  function ToU16(x: nat): (r: U16)
    ensures x < U16_LIMIT ==> r == x
  {
    x % U16_LIMIT
  }

  /** `strlen`: the number of elements before the first `nul`, or the whole
      buffer when it holds none. */
  function StrLen<T(==)>(s: seq<T>, nul: T): (r: nat)
    ensures r <= |s|
    ensures forall i :: 0 <= i < r ==> s[i] != nul
    ensures r < |s| ==> s[r] == nul
  {
    if s == [] then 0
    else if s[0] == nul then 0
    else 1 + StrLen(s[1..], nul)
  }

  /** `strncpy(dst, src, n)`: the first `n` characters of `src` up to its
      terminator, padded with NUL characters to exactly `n`. */
  function StrNCpy(src: seq<char>, n: nat): (r: seq<char>)
    ensures |r| == n
    ensures forall i :: 0 <= i < n ==> r[i] == if i < StrLen(src, '\0') then src[i] else '\0'
  {
    var k := StrLen(src, '\0');
    seq(n, i requires 0 <= i < n => if i < k then src[i] else '\0')
  }

  /** A string that `strncpy` already leaves as it is. */
  lemma {:induction false} StrLenOfCopy(src: seq<char>, n: nat)
    ensures StrLen(StrNCpy(src, n), '\0') == if StrLen(src, '\0') < n then StrLen(src, '\0') else n
  {
    var r := StrNCpy(src, n);
    var k := if StrLen(src, '\0') < n then StrLen(src, '\0') else n;
    StrLenFromFacts(r, k, '\0');
  }

  lemma {:induction false} StrLenFromFacts<T>(s: seq<T>, k: nat, nul: T)
    requires k <= |s|
    requires forall i :: 0 <= i < k ==> s[i] != nul
    requires k < |s| ==> s[k] == nul
    ensures StrLen(s, nul) == k
  {
    if s != [] && s[0] != nul {
      StrLenFromFacts(s[1..], k - 1, nul);
    }
  }

  /** Copying a copied string with the same bound changes nothing: a field
      filled by `strncpy` is a fixed point of `strncpy`. */
  lemma StrNCpyIdempotent(src: seq<char>, n: nat)
    ensures StrNCpy(StrNCpy(src, n), n) == StrNCpy(src, n)
  {
    StrLenOfCopy(src, n);
  }

  /** `realloc(a, n)`: a buffer of `n` elements whose first elements, as many as
      both buffers hold, are those of `a`; the rest have no defined value in
      C and are the type's default here. */
  method Realloc<T(0)>(a: array<T>, n: nat) returns (b: array<T>)
    ensures fresh(b) && b.Length == n
    ensures forall i :: 0 <= i < n && i < a.Length ==> b[i] == a[i]
  {
    b := new T[n];
    var i := 0;
    while i < n && i < a.Length
      invariant 0 <= i <= n
      invariant forall j :: 0 <= j < i && j < a.Length ==> b[j] == a[j]
    {
      b[i] := a[i];
      i := i + 1;
    }
  }

  /** `path[i]` on a buffer of `|path|` node ids: `None` exactly when the read
      falls outside the buffer (an out-of-bounds read in the C code). */
  function Hop(path: seq<U16>, i: int): (r: Option<U16>)
    ensures r.Some? <==> 0 <= i < |path|
    ensures r.Some? ==> r.value == path[i]
  {
    if 0 <= i < |path| then Some(path[i]) else None
  }

  /** A path buffer after `realloc(path, n * sizeof(u16))`: the first hops,
      as many as fit, are kept; hops beyond the old end have no defined
      value in C and are 0 here. */
  function Resized(path: seq<U16>, n: nat): (r: seq<U16>)
    ensures |r| == n
    ensures forall i :: 0 <= i < n && i < |path| ==> r[i] == path[i]
  {
    seq(n, i requires 0 <= i < n => if i < |path| then path[i] else 0)
  }
}
