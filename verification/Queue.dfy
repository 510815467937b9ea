/**
 The ring buffer under the stream: a power-of-two array indexed with a bit
 mask, doubled when full and halved at a quarter.
 */
module Queue {
  import opened Common

  const MIN_QUEUE_LEN := 16

  /** Bitwise and. */
  function And(x: nat, y: nat): nat {
    if x == 0 || y == 0 then 0
    else 2 * And(x / 2, y / 2) + if x % 2 == 1 && y % 2 == 1 then 1 else 0
  }

  predicate PowerOfTwo(n: nat) {
    n == 1 || (n > 1 && n % 2 == 0 && PowerOfTwo(n / 2))
  }

  lemma {:induction false} AtLeastOnce(n: nat, k: nat)
    requires k >= 1
    ensures n * k >= n
  {
  }

  lemma {:induction false} Difference(n: nat, p: nat, q: nat)
    requires p >= q
    ensures n * p == n * q + n * (p - q)
  {
  }

  lemma {:induction false} QuotientUnique(n: nat, p: nat, s: nat, q: nat, r: nat)
    requires r < n && s < n && n * p + s == n * q + r
    ensures s == r
  {
    if p > q {
      Difference(n, p, q);
      AtLeastOnce(n, p - q);
    } else if p < q {
      Difference(n, q, p);
      AtLeastOnce(n, q - p);
    }
  }

  lemma {:induction false} RemainderUnique(x: nat, n: nat, q: nat, r: nat)
    requires r < n && x == n * q + r
    ensures x % n == r
  {
    QuotientUnique(n, x / n, x % n, q, r);
  }

  lemma {:induction false} DoubledRemainder(x: nat, m: nat)
    requires m > 0
    ensures x % (2 * m) == 2 * ((x / 2) % m) + x % 2
  {
    var q, r := (x / 2) / m, (x / 2) % m;
    calc {
      x;
      2 * (x / 2) + x % 2;
      2 * (m * q + r) + x % 2;
      2 * (m * q) + (2 * r + x % 2);
      (2 * m) * q + (2 * r + x % 2);
    }
    RemainderUnique(x, 2 * m, q, 2 * r + x % 2);
  }

  lemma {:induction false} MaskHalves(x: nat, m: nat)
    requires x > 0 && m > 0
    ensures And(x, 2 * m - 1) == 2 * And(x / 2, m - 1) + x % 2
  {
    assert (2 * m - 1) / 2 == m - 1 && (2 * m - 1) % 2 == 1;
  }

  /** The bitwise modulus: masking with n - 1 is the remainder, for every power of two. */
  lemma {:induction false} MaskIsRemainder(x: nat, n: nat)
    requires PowerOfTwo(n)
    ensures And(x, n - 1) == x % n
  {
    if x == 0 {
      RemainderUnique(0, n, 0, 0);
    } else if n == 1 {
      RemainderUnique(x, 1, x, 0);
    } else {
      var m := n / 2;
      MaskIsRemainder(x / 2, m);
      MaskHalves(x, m);
      DoubledRemainder(x, m);
    }
  }

  lemma {:induction false} PowerAboveMinimum(n: nat)
    requires PowerOfTwo(n) && n > MIN_QUEUE_LEN
    ensures n >= 2 * MIN_QUEUE_LEN
  {
    assert PowerOfTwo(n / 2) && PowerOfTwo(n / 2 / 2) && PowerOfTwo(n / 2 / 2 / 2);
  }

  /** One wrap around the buffer. */
  function Wrap(x: nat, n: nat): nat {
    if x < n then x else x - n
  }

  lemma {:induction false} MaskWraps(x: nat, n: nat)
    requires PowerOfTwo(n) && x < 2 * n
    ensures And(x, n - 1) == Wrap(x, n)
  {
    MaskIsRemainder(x, n);
    if x < n {
      RemainderUnique(x, n, 0, x);
    } else {
      RemainderUnique(x, n, 1, x - n);
    }
  }

  /** The queue's contents, read from the buffer starting at `head`. */
  function Ring<T>(buf: seq<T>, head: nat, count: nat): seq<T>
    requires head < |buf| && count <= |buf|
  {
    if head + count <= |buf| then buf[head..head + count] else buf[head..] + buf[..head + count - |buf|]
  }

  lemma {:induction false} RingLength<T>(buf: seq<T>, head: nat, count: nat)
    requires head < |buf| && count <= |buf|
    ensures |Ring(buf, head, count)| == count
  {
  }

  lemma {:induction false} RingAt<T>(buf: seq<T>, head: nat, count: nat, i: nat)
    requires head < |buf| && i < count <= |buf|
    ensures |Ring(buf, head, count)| == count && Ring(buf, head, count)[i] == buf[Wrap(head + i, |buf|)]
  {
  }

  lemma {:induction false} RingPush<T>(buf: seq<T>, head: nat, count: nat, x: T)
    requires head < |buf| && count < |buf|
    ensures Ring(buf[Wrap(head + count, |buf|) := x], head, count + 1) == Ring(buf, head, count) + [x]
  {
  }

  lemma {:induction false} RingPop<T>(buf: seq<T>, head: nat, count: nat)
    requires head < |buf| && 0 < count <= |buf|
    ensures Ring(buf, head, count) == [buf[head]] + Ring(buf, Wrap(head + 1, |buf|), count - 1)
  {
    hide Ring;
    var rest := Ring(buf, Wrap(head + 1, |buf|), count - 1);
    RingLength(buf, head, count);
    RingLength(buf, Wrap(head + 1, |buf|), count - 1);
    forall i | 0 <= i < count ensures Ring(buf, head, count)[i] == ([buf[head]] + rest)[i] {
      RingAt(buf, head, count, i);
      if i > 0 {
        RingAt(buf, Wrap(head + 1, |buf|), count - 1, i - 1);
      }
    }
  }

  lemma {:induction false} RingSet<T>(buf: seq<T>, head: nat, count: nat, i: nat, x: T)
    requires head < |buf| && i < count <= |buf|
    ensures Ring(buf[Wrap(head + i, |buf|) := x], head, count) == Ring(buf, head, count)[i := x]
  {
  }

  class Queue<T(0)> {
    var buf: array<T>
    var head: nat
    var tail: nat
    var count: nat

    ghost predicate Valid()
      reads this, buf
    {
      && MIN_QUEUE_LEN <= buf.Length && PowerOfTwo(buf.Length)
      && head < buf.Length && count <= buf.Length
      && tail == Wrap(head + count, buf.Length)
    }

    ghost function Contents(): seq<T>
      reads this, buf
      requires Valid()
    {
      Ring(buf[..], head, count)
    }

    constructor ()
      ensures Valid() && fresh(buf) && Contents() == []
    {
      buf := new T[MIN_QUEUE_LEN];
      head, tail, count := 0, 0, 0;
      new;
      assert PowerOfTwo(1) && PowerOfTwo(2) && PowerOfTwo(4) && PowerOfTwo(8) && PowerOfTwo(16);
    }

    method Length() returns (n: nat)
      requires Valid()
      ensures n == |Contents()|
    {
      n := count;
    }

    /** To twice the contents, from a full buffer or from one a quarter full. */
    method Resize()
      requires Valid()
      requires count == buf.Length || (buf.Length > MIN_QUEUE_LEN && 4 * count == buf.Length)
      modifies this
      ensures Valid() && fresh(buf) && buf.Length == 2 * old(count)
      ensures Contents() == old(Contents()) && count == old(count)
    {
      var items := if tail > head then buf[head..tail] else buf[head..] + buf[..tail];
      assert items == Contents();
      var newBuf := new T[2 * count];
      forall i | 0 <= i < count {
        newBuf[i] := items[i];
      }
      if count < buf.Length {
        PowerAboveMinimum(buf.Length);
      }
      assert PowerOfTwo(2 * count);
      head := 0;
      tail := count;
      buf := newBuf;
      assert Contents() == items;
    }

    method Add(x: T)
      requires Valid()
      modifies this, buf
      ensures Valid() && (buf == old(buf) || fresh(buf))
      ensures Contents() == old(Contents()) + [x]
    {
      hide PowerOfTwo, And, Ring;
      if count == buf.Length {
        Resize();
      }
      RingPush(buf[..], head, count, x);
      MaskWraps(tail + 1, buf.Length);
      buf[tail] := x;
      tail := And(tail + 1, buf.Length - 1);
      count := count + 1;
    }

    /** `None` where the source panics: the index, counted from the end when negative, is out of range. */
    method Get(i: int) returns (r: Option<T>)
      requires Valid()
      ensures var n := |Contents()|;
              r == if 0 <= i < n then Some(Contents()[i]) else if -n <= i < 0 then Some(Contents()[n + i]) else None
    {
      hide PowerOfTwo, And, Ring;
      RingLength(buf[..], head, count);
      var k := if i < 0 then i + count else i;
      if k < 0 || k >= count {
        return None;
      }
      MaskWraps(head + k, buf.Length);
      RingAt(buf[..], head, count, k);
      r := Some(buf[And(head + k, buf.Length - 1)]);
    }

    /** Writes through the pointer to the last element; `false` where the source panics. */
    method SetTail(x: T) returns (ok: bool)
      requires Valid()
      modifies buf
      ensures Valid() && ok == (old(Contents()) != [])
      ensures Contents() == if ok then old(Contents())[..|old(Contents())| - 1] + [x] else []
    {
      hide PowerOfTwo, And, Ring;
      RingLength(buf[..], head, count);
      ok := count > 0;
      if ok {
        RingSet(buf[..], head, count, count - 1, x);
        MaskWraps(head + count - 1, buf.Length);
        buf[And(head + count - 1, buf.Length - 1)] := x;
      }
    }

    /** `None` where the source panics: the queue is empty. */
    method Remove() returns (r: Option<T>)
      requires Valid()
      modifies this
      ensures Valid() && (buf == old(buf) || fresh(buf))
      ensures old(Contents()) == [] ==> r == None && Contents() == []
      ensures old(Contents()) != [] ==> r == Some(old(Contents())[0]) && Contents() == old(Contents())[1..]
    {
      hide PowerOfTwo, And, Ring;
      RingLength(buf[..], head, count);
      if count == 0 {
        return None;
      }
      RingPop(buf[..], head, count);
      MaskWraps(head + 1, buf.Length);
      r := Some(buf[head]);
      head := And(head + 1, buf.Length - 1);
      count := count - 1;
      if buf.Length > MIN_QUEUE_LEN && 4 * count == buf.Length {
        Resize();
      }
    }
  }
}
