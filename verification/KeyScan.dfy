/** Iterators: the keys of a range in ascending order. */
module KeyScan {
  import opened Common
  import opened ByteOrder
  import opened Keys

  ghost predicate Ascending(keys: seq<Bytes>) {
    forall i, j :: 0 <= i < j < |keys| ==> Less(keys[i], keys[j])
  }

  /** `keys` lists exactly the set `s`, in ascending order. */
  ghost predicate Lists(keys: seq<Bytes>, s: set<Bytes>) {
    Ascending(keys) && forall k :: k in keys <==> k in s
  }

  lemma {:induction false} InsertAscending(keys: seq<Bytes>, k: Bytes, at: nat)
    requires Ascending(keys) && at <= |keys|
    requires forall i :: 0 <= i < at ==> Less(keys[i], k)
    requires forall i :: at <= i < |keys| ==> Less(k, keys[i])
    ensures Ascending(keys[..at] + [k] + keys[at..])
    ensures forall x :: x in keys[..at] + [k] + keys[at..] <==> x in keys || x == k
  {
    var all := keys[..at] + [k] + keys[at..];
    assert keys == keys[..at] + keys[at..];
    forall i, j | 0 <= i < j < |all| ensures Less(all[i], all[j]) {
      assert all[i] == if i < at then keys[i] else if i == at then k else keys[i - 1];
      assert all[j] == if j < at then keys[j] else if j == at then k else keys[j - 1];
    }
  }

  /** Yields the keys of a half-open range in byte order, whatever order the store holds them in. */
  method Scan(store: Store, lo: Bytes, hi: Option<Bytes>) returns (keys: seq<Bytes>)
    ensures Lists(keys, set k | k in store && InRange(k, lo, hi))
  {
    var left := set k | k in store && InRange(k, lo, hi);
    ghost var all := left;
    keys := [];
    while left != {}
      invariant Ascending(keys) && left <= all
      invariant forall k :: k in keys <==> k in all - left
      decreases |left|
    {
      var k :| k in left;
      var at := 0;
      while at < |keys| && Less(keys[at], k)
        invariant at <= |keys| && forall i :: 0 <= i < at ==> Less(keys[i], k)
      {
        at := at + 1;
      }
      Above(keys, k, at);
      InsertAscending(keys, k, at);
      keys := keys[..at] + [k] + keys[at..];
      left := left - {k};
    }
  }

  lemma {:induction false} Above(keys: seq<Bytes>, k: Bytes, at: nat)
    requires Ascending(keys) && at <= |keys| && k !in keys && (at == |keys| || !Less(keys[at], k))
    ensures forall i :: at <= i < |keys| ==> Less(k, keys[i])
  {
    if at < |keys| {
      LessTotal(keys[at], k);
      forall i | at <= i < |keys| ensures Less(k, keys[i]) {
        if i > at {
          LessTransitive(k, keys[at], keys[i]);
        }
      }
    }
  }

  lemma {:induction false} FirstIsLeast(a: seq<Bytes>, b: seq<Bytes>)
    requires Ascending(a) && Ascending(b) && a != [] && b != [] && a[0] in b && b[0] in a
    ensures a[0] == b[0]
  {
    LessTotal(a[0], b[0]);
  }

  /** There is only one ascending listing. */
  lemma {:induction false} ListsUnique(a: seq<Bytes>, b: seq<Bytes>, s: set<Bytes>)
    requires Lists(a, s) && Lists(b, s)
    ensures a == b
  {
    assert b != [] ==> b[0] in b && b[0] in s;
    if a != [] {
      assert a[0] in a;
      assert b != [] by {
        assert a[0] in b;
      }
      assert b[0] in b;
      FirstIsLeast(a, b);
      RestLists(a, s);
      RestLists(b, s);
      ListsUnique(a[1..], b[1..], s - {a[0]});
      assert a == [a[0]] + a[1..] && b == [b[0]] + b[1..];
    }
  }

  lemma {:induction false} RestLists(a: seq<Bytes>, s: set<Bytes>)
    requires Lists(a, s) && a != []
    ensures Lists(a[1..], s - {a[0]})
  {
    forall k ensures k in a[1..] <==> k in s - {a[0]} {
      LessTotal(a[0], a[0]);
      if k in a[1..] {
        var i :| 0 <= i < |a[1..]| && a[1..][i] == k;
        assert Less(a[0], a[i + 1]);
      }
      if k in s && k != a[0] {
        var i :| 0 <= i < |a| && a[i] == k;
        assert a[1..][i - 1] == k;
      }
    }
  }
}
