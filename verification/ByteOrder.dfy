/**
 Lexicographic order on byte strings, big-endian integers, and the half-open
 key ranges that the index scans.
 */
module ByteOrder {
  import opened Common

  // ---------- lexicographic order (bytes.Compare) ----------

  predicate Less(a: Bytes, b: Bytes) {
    b != [] && (a == [] || a[0] < b[0] || (a[0] == b[0] && Less(a[1..], b[1..])))
  }

  lemma {:induction false} LessTotal(a: Bytes, b: Bytes)
    ensures a == b || Less(a, b) || Less(b, a)
    ensures !(Less(a, b) && Less(b, a))
    ensures a == b ==> !Less(a, b)
  {
    if a != [] && b != [] && a[0] == b[0] {
      LessTotal(a[1..], b[1..]);
      assert a == [a[0]] + a[1..] && b == [b[0]] + b[1..];
    }
  }

  lemma {:induction false} LessTransitive(a: Bytes, b: Bytes, c: Bytes)
    requires Less(a, b) && Less(b, c)
    ensures Less(a, c)
  {
    if a != [] && a[0] == b[0] && b[0] == c[0] {
      LessTransitive(a[1..], b[1..], c[1..]);
    }
  }

  lemma {:induction false} LessSamePrefix(p: Bytes, a: Bytes, b: Bytes)
    ensures Less(p + a, p + b) == Less(a, b)
  {
    if p == [] {
      assert p + a == a && p + b == b;
    } else {
      LessSamePrefix(p[1..], a, b);
      assert (p + a)[1..] == p[1..] + a && (p + b)[1..] == p[1..] + b;
    }
  }

  // ---------- half-open ranges ----------

  /** Membership in the iterator range [lo, hi); a missing `hi` means no upper bound. */
  predicate InRange(k: Bytes, lo: Bytes, hi: Option<Bytes>) {
    !Less(k, lo) && (hi.Some? ==> Less(k, hi.value))
  }

  /** The least key above every key that starts with `prefix`, if there is one. */
  function RangeEnd(prefix: Bytes): Option<Bytes> {
    if prefix == [] then None
    else match RangeEnd(prefix[1..])
      case Some(e) => Some([prefix[0]] + e)
      case None => if prefix[0] == 255 then None else Some([prefix[0] + 1])
  }

  /** Scanning a prefix range visits exactly the keys with that prefix. */
  lemma {:induction false} PrefixRangeExact(k: Bytes, prefix: Bytes)
    ensures InRange(k, prefix, RangeEnd(prefix)) <==> prefix <= k
  {
    if prefix != [] && k != [] {
      var rest, hi := RangeEnd(prefix[1..]), RangeEnd(prefix);
      if rest.Some? {
        assert hi.value[1..] == rest.value;
      } else if hi.Some? {
        assert hi.value[1..] == [];
      }
      if k[0] == prefix[0] {
        PrefixRangeExact(k[1..], prefix[1..]);
        assert prefix == [prefix[0]] + prefix[1..] && k == [k[0]] + k[1..];
      } else {
        assert !(prefix <= k);
        assert k[0] < prefix[0] ==> Less(k, prefix);
        assert k[0] > prefix[0] ==> hi.Some? && hi.value[0] as int <= k[0] as int && !Less(k, hi.value);
      }
    }
  }

  lemma {:induction false} RangeEndOfOnes(prefix: Bytes)
    requires forall j :: 0 <= j < |prefix| ==> prefix[j] == 255
    ensures RangeEnd(prefix) == None
  {
    if prefix != [] {
      RangeEndOfOnes(prefix[1..]);
    }
  }

  lemma {:induction false} RangeEndAt(prefix: Bytes, i: nat)
    requires i < |prefix| && prefix[i] != 255
    requires forall j :: i < j < |prefix| ==> prefix[j] == 255
    ensures RangeEnd(prefix) == Some(prefix[..i] + [prefix[i] + 1])
  {
    if i == 0 {
      RangeEndOfOnes(prefix[1..]);
      assert prefix[..0] + [prefix[0] + 1] == [prefix[0] + 1];
    } else {
      RangeEndAt(prefix[1..], i - 1);
      assert [prefix[0]] + (prefix[1..][..i - 1] + [prefix[i] + 1]) == prefix[..i] + [prefix[i] + 1];
    }
  }

  /** The source's loop: bump the last byte below 0xff in a copy and cut there. */
  method PrefixRangeEnd(prefix: Bytes) returns (hi: Option<Bytes>)
    ensures hi == RangeEnd(prefix)
    ensures forall k: Bytes :: InRange(k, prefix, hi) <==> prefix <= k
  {
    var end := new byte[|prefix|](i requires 0 <= i < |prefix| => prefix[i]);
    var i := |prefix| - 1;
    hi := None;
    while i >= 0
      invariant -1 <= i < |prefix|
      invariant end[..] == prefix
      invariant forall j :: i < j < |prefix| ==> prefix[j] == 255
    {
      if end[i] != 255 {
        RangeEndAt(prefix, i);
        end[i] := end[i] + 1;
        hi := Some(end[..i + 1]);
        assert end[..i + 1] == prefix[..i] + [prefix[i] + 1];
        break;
      }
      i := i - 1;
    }
    if hi == None {
      RangeEndOfOnes(prefix);
    }
    forall k: Bytes ensures InRange(k, prefix, hi) <==> prefix <= k {
      PrefixRangeExact(k, prefix);
    }
  }

  // ---------- big-endian integers ----------

  function Pow256(n: nat): nat
    ensures Pow256(n) > 0
  {
    if n == 0 then 1 else 256 * Pow256(n - 1)
  }

  lemma {:induction false} DigitBounds(n: nat, p: nat)
    requires 0 < p && n < 256 * p
    ensures 0 <= n / p < 256 && 0 <= n % p < p && n == (n / p) * p + n % p
  {
  }

  /** `n` as `width` bytes, most significant first. */
  function BigEndian(n: nat, width: nat): (b: Bytes)
    requires n < Pow256(width)
    ensures |b| == width
  {
    if width == 0 then [] else
      var p := Pow256(width - 1);
      DigitBounds(n, p);
      [n / p] + BigEndian(n % p, width - 1)
  }

  function Value(b: Bytes): nat {
    if b == [] then 0 else b[0] * Pow256(|b| - 1) + Value(b[1..])
  }

  lemma {:induction false} ScaledLess(a: nat, b: nat, p: nat)
    requires a < b
    ensures a * p + p <= b * p
  {
    assert (a + 1) * p <= b * p;
  }

  lemma {:induction false} ValueBound(b: Bytes)
    ensures Value(b) < Pow256(|b|)
  {
    if b != [] {
      ValueBound(b[1..]);
      ScaledLess(b[0], 256, Pow256(|b| - 1));
    }
  }

  lemma {:induction false} ValueOfBigEndian(n: nat, width: nat)
    requires n < Pow256(width)
    ensures Value(BigEndian(n, width)) == n
  {
    if width != 0 {
      var p := Pow256(width - 1);
      DigitBounds(n, p);
      ValueOfBigEndian(n % p, width - 1);
      assert BigEndian(n, width)[1..] == BigEndian(n % p, width - 1);
    }
  }

  lemma {:induction false} LeadingZeros(n: nat, b: Bytes)
    ensures Value(Zeros(n) + b) == Value(b)
  {
    if n == 0 {
      assert Zeros(n) + b == b;
    } else {
      LeadingZeros(n - 1, b);
      assert (Zeros(n) + b)[1..] == Zeros(n - 1) + b;
    }
  }

  /** As a 32-byte word a short byte string keeps its value and a long one its last 32 bytes. */
  lemma {:induction false} WordOfBytes(b: Bytes)
    ensures |b| <= 32 ==> Value(BytesToHash(b)) == Value(b)
    ensures |b| > 32 ==> b[..|b| - 32] + BytesToHash(b) == b
  {
    if |b| < 32 {
      LeadingZeros(32 - |b|, b);
    } else if |b| == 32 {
      assert BytesToHash(b) == b;
    }
  }

  /** On strings of one length, byte order is numeric order. */
  lemma {:induction false} LessIsNumeric(a: Bytes, b: Bytes)
    requires |a| == |b|
    ensures Less(a, b) <==> Value(a) < Value(b)
  {
    if a != [] {
      var p := Pow256(|a| - 1);
      LessIsNumeric(a[1..], b[1..]);
      ValueBound(a[1..]);
      ValueBound(b[1..]);
      if a[0] < b[0] {
        ScaledLess(a[0], b[0], p);
      } else if b[0] < a[0] {
        ScaledLess(b[0], a[0], p);
      }
    }
  }

  /** Only the first |q| bytes of a longer key decide how it compares with `q`. */
  lemma {:induction false} LessByHead(k: Bytes, q: Bytes)
    requires |k| >= |q|
    ensures Less(k, q) == Less(k[..|q|], q)
  {
    if q != [] && k[0] == q[0] {
      LessByHead(k[1..], q[1..]);
      assert k[..|q|][1..] == k[1..][..|q[1..]|];
    }
  }

  lemma {:induction false} Pow256Of8()
    ensures Pow256(8) == TWO64
  {
    assert Pow256(4) == 0x1_0000_0000;
  }

  /** Eight big-endian bytes, as written for heights and transaction indexes. */
  function Word(n: u64): (b: Bytes)
    ensures |b| == 8
  {
    Pow256Of8();
    BigEndian(n, 8)
  }

  lemma {:induction false} WordInjective(m: u64, n: u64)
    requires Word(m) == Word(n)
    ensures m == n
  {
    Pow256Of8();
    ValueOfBigEndian(m, 8);
    ValueOfBigEndian(n, 8);
  }

  lemma {:induction false} WordOrder(m: u64, n: u64)
    ensures Less(Word(m), Word(n)) <==> m < n
  {
    Pow256Of8();
    ValueOfBigEndian(m, 8);
    ValueOfBigEndian(n, 8);
    LessIsNumeric(Word(m), Word(n));
  }

  /** Keys of one family for one signed height: the family byte, then the height. */
  function HeightPrefix(family: byte, height: int): Bytes {
    [family] + Word(U64(height))
  }

  /** The window between the prefixes of consecutive heights, for one key. */
  lemma {:induction false} WindowOf(k: Bytes, family: byte, m: u64, n: u64)
    requires |k| >= 9
    ensures InRange(k, [family] + Word(m), Some([family] + Word(n))) <==>
            k[0] == family && m <= Value(k[1..9]) < n
  {
    var lo, hi := [family] + Word(m), [family] + Word(n);
    LessByHead(k, lo);
    LessByHead(k, hi);
    Pow256Of8();
    ValueOfBigEndian(m, 8);
    ValueOfBigEndian(n, 8);
    LessIsNumeric(k[1..9], Word(m));
    LessIsNumeric(k[1..9], Word(n));
    assert k[..9][1..] == k[1..9] && lo[1..] == Word(m) && hi[1..] == Word(n);
  }

  lemma {:induction false} PrefixIsValue(k: Bytes, family: byte, m: u64)
    requires |k| >= 9
    ensures [family] + Word(m) <= k <==> k[0] == family && Value(k[1..9]) == m
  {
    Pow256Of8();
    ValueOfBigEndian(m, 8);
    if k[0] == family && Value(k[1..9]) == m {
      LessIsNumeric(k[1..9], Word(m));
      LessIsNumeric(Word(m), k[1..9]);
      LessTotal(k[1..9], Word(m));
      assert k[..9] == [family] + Word(m);
    }
    if [family] + Word(m) <= k {
      assert k[1..9] == Word(m);
    }
  }

  const MIN_INT64: int := -0x8000_0000_0000_0000
  const MAX_INT64: int := 0x7fff_ffff_ffff_ffff

  /** Go's signed 64-bit successor. */
  function NextInt64(h: int): int {
    if h == MAX_INT64 then MIN_INT64 else h + 1
  }

  /** The window from one height to the next, for keys long enough to hold a height. */
  lemma {:induction false} LongKeyWindow(k: Bytes, family: byte, h: int)
    requires |k| >= 9 && MIN_INT64 <= h <= MAX_INT64
    ensures InRange(k, HeightPrefix(family, h), Some(HeightPrefix(family, NextInt64(h)))) <==>
            h != -1 && HeightPrefix(family, h) <= k
  {
    WindowOf(k, family, U64(h), U64(NextInt64(h)));
    PrefixIsValue(k, family, U64(h));
    if h != -1 {
      assert U64(NextInt64(h)) == U64(h) + 1;
    }
  }

  /** A key filled up with zero bytes to a given length. */
  function Padded(k: Bytes, n: nat): Bytes
    requires |k| <= n
  {
    k + Zeros(n - |k|)
  }

  /** Comparing a short key with a longer one is comparing the filled-up key. */
  lemma {:induction false} PaddedLess(k: Bytes, x: Bytes)
    requires |k| < |x|
    ensures Less(k, x) <==> !Less(x, Padded(k, |x|))
  {
    var filled := Padded(k, |x|);
    if k == [] {
      NothingBelowZeros(x);
      assert filled == Zeros(|x|);
    } else {
      assert filled[1..] == Padded(k[1..], |x| - 1);
      PaddedLess(k[1..], x[1..]);
    }
  }

  lemma {:induction false} NothingBelowZeros(x: Bytes)
    ensures !Less(x, Zeros(|x|))
  {
    if x != [] {
      assert Zeros(|x|)[1..] == Zeros(|x| - 1);
      NothingBelowZeros(x[1..]);
    }
  }

  lemma {:induction false} ShortKeyWindow(k: Bytes, family: byte, h: int)
    requires |k| < 9 && MIN_INT64 <= h <= MAX_INT64
    ensures InRange(k, HeightPrefix(family, h), Some(HeightPrefix(family, NextInt64(h)))) <==>
            h != -1 && Padded(k, 9) == HeightPrefix(family, NextInt64(h))
  {
    var lo, hi, filled := HeightPrefix(family, h), HeightPrefix(family, NextInt64(h)), Padded(k, 9);
    PaddedLess(k, lo);
    PaddedLess(k, hi);
    BetweenHeights(filled, family, h);
  }

  lemma {:induction false} PrefixValue(family: byte, h: int)
    ensures |HeightPrefix(family, h)| == 9
    ensures Value(HeightPrefix(family, h)) == family * Pow256(8) + U64(h)
  {
    Pow256Of8();
    ValueOfBigEndian(U64(h), 8);
    assert HeightPrefix(family, h)[1..] == Word(U64(h));
  }

  /** Among keys of nine bytes only the next height's prefix is above one and not above the other. */
  lemma {:induction false} BetweenHeights(x: Bytes, family: byte, h: int)
    requires |x| == 9 && MIN_INT64 <= h <= MAX_INT64
    ensures var lo, hi := HeightPrefix(family, h), HeightPrefix(family, NextInt64(h));
            Less(lo, x) && !Less(hi, x) <==> h != -1 && x == hi
  {
    var lo, hi := HeightPrefix(family, h), HeightPrefix(family, NextInt64(h));
    PrefixValue(family, h);
    PrefixValue(family, NextInt64(h));
    hide Less, Value, HeightPrefix, Pow256;
    assert h != -1 ==> U64(NextInt64(h)) == U64(h) + 1;
    assert h == -1 ==> U64(NextInt64(h)) < U64(h);
    LessIsNumeric(lo, x);
    LessIsNumeric(hi, x);
    LessIsNumeric(x, hi);
    LessTotal(x, hi);
  }

  /**
   The window from one height to the next holds exactly that height's keys and
   the next height's prefix cut short of its last zero bytes, for every signed
   height but -1 (whose successor wraps to zero).
   */
  lemma {:induction false} HeightWindowExact(k: Bytes, family: byte, h: int)
    requires MIN_INT64 <= h <= MAX_INT64
    ensures InRange(k, HeightPrefix(family, h), Some(HeightPrefix(family, NextInt64(h)))) <==>
            h != -1 && (HeightPrefix(family, h) <= k || (|k| < 9 && Padded(k, 9) == HeightPrefix(family, NextInt64(h))))
  {
    hide Less, Word, Padded;
    if |k| >= 9 {
      LongKeyWindow(k, family, h);
    } else {
      PrefixValue(family, h);
      ShortKeyWindow(k, family, h);
    }
  }
}
