/** Small vocabulary shared by every other module. */
module Common {

  datatype Option<+T> = None | Some(value: T)

  datatype Result<+T, +E> = Ok(value: T) | Err(error: E) {
    predicate IsFailure() {
      Err?
    }

    function PropagateFailure<U>(): Result<U, E>
      requires Err?
    {
      Err(error)
    }

    function Extract(): T
      requires Ok?
    {
      value
    }
  }

  type byte = b: int | 0 <= b < 256

  type Bytes = seq<byte>

  /** A 32-byte word: block hashes, transaction hashes, log topics, storage slots. */
  type Hash = h: Bytes | |h| == 32 witness seq(32, _ => 0)

  type Address = a: Bytes | |a| == 20 witness seq(20, _ => 0)

  const ZERO_HASH: Hash :=
    [0, 0, 0, 0, 0, 0, 0, 0, 0, 0, 0, 0, 0, 0, 0, 0, 0, 0, 0, 0, 0, 0, 0, 0, 0, 0, 0, 0, 0, 0, 0, 0]
  const ZERO_ADDRESS: Address := [0, 0, 0, 0, 0, 0, 0, 0, 0, 0, 0, 0, 0, 0, 0, 0, 0, 0, 0, 0]

  const TWO64: int := 0x1_0000_0000_0000_0000

  /** Unsigned 64-bit words, with Go's wrap-around written out where it happens. */
  type u64 = n: int | 0 <= n < TWO64

  /** Go's conversion `uint64(n)`: the residue modulo 2^64. */
  function U64(n: int): u64
    decreases n < 0, if n < 0 then -n else n
  {
    if n < 0 then U64(n + TWO64) else if n < TWO64 then n else U64(n - TWO64)
  }

  /** Go's unsigned addition. */
  function Add64(a: u64, b: u64): u64 {
    if a + b < TWO64 then a + b else a + b - TWO64
  }

  lemma {:induction false} Turn(n: int)
    ensures U64(n + TWO64) == U64(n)
  {
  }

  /** Wrapping along the way is wrapping once at the end. */
  lemma {:induction false} Wrapped(a: int, b: int)
    ensures U64(U64(a) + b) == U64(a + b)
    ensures 0 <= a < TWO64 ==> U64(a) == a
    decreases a < 0, if a < 0 then -a else a
  {
    if a < 0 {
      Wrapped(a + TWO64, b);
      Turn(a + b);
    } else if a >= TWO64 {
      Wrapped(a - TWO64, b);
      Turn(a - TWO64 + b);
    }
  }

  /** Equal words stay equal when the same amount is taken off. */
  lemma {:induction false} WrappedCancel(a: int, x: int, y: int)
    ensures U64(a + x) == U64(a + y) <==> U64(x) == U64(y)
  {
    hide U64;
    Wrapped(a + x, -a);
    Wrapped(a + y, -a);
    Wrapped(x, a);
    Wrapped(y, a);
  }

  lemma {:induction false} AddIsWrapped(a: u64, b: u64)
    ensures Add64(a, b) == U64(a + b)
  {
  }

  function Max(a: int, b: int): int {
    if a < b then b else a
  }

  function Min(a: int, b: int): int {
    if a < b then a else b
  }

  function Zeros(n: nat): Bytes {
    seq(n, _ => 0)
  }

  /** The last 32 bytes, padded on the left. */
  function BytesToHash(b: Bytes): Hash {
    if |b| >= 32 then b[|b| - 32..] else Zeros(32 - |b|) + b
  }

  /** The last 20 bytes, padded on the left. */
  function BytesToAddress(b: Bytes): Address {
    if |b| >= 20 then b[|b| - 20..] else Zeros(20 - |b|) + b
  }

  /** Concatenation of a sequence of sequences. */
  function Flatten<T>(groups: seq<seq<T>>): seq<T> {
    if groups == [] then [] else Flatten(groups[..|groups| - 1]) + groups[|groups| - 1]
  }

  lemma {:induction false} FlattenSnoc<T>(groups: seq<seq<T>>, last: seq<T>)
    ensures Flatten(groups + [last]) == Flatten(groups) + last
  {
    assert (groups + [last])[..|groups|] == groups;
  }

  ghost predicate Increasing(at: seq<nat>) {
    forall i, j :: 0 <= i < j < |at| ==> at[i] < at[j]
  }

  lemma {:induction false} IncreasingSnoc(at: seq<nat>, n: nat)
    requires Increasing(at) && forall x :: x in at ==> x < n
    ensures Increasing(at + [n]) && forall x :: x in at + [n] <==> x in at || x == n
  {
    forall i, j | 0 <= i < j < |at + [n]| ensures (at + [n])[i] < (at + [n])[j] {
      assert at[i] in at;
    }
  }
}
