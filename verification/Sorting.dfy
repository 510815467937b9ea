/** The library sort, by a caller's order: any sorted rearrangement. */
module Sorting {

  ghost predicate TotalOrder<T(!new)>(le: (T, T) -> bool) {
    && (forall x, y :: le(x, y) || le(y, x))
    && (forall x, y, z :: le(x, y) && le(y, z) ==> le(x, z))
  }

  ghost predicate SortedBy<T>(le: (T, T) -> bool, s: seq<T>) {
    forall i, j :: 0 <= i < j < |s| ==> le(s[i], s[j])
  }

  function InsertBy<T>(le: (T, T) -> bool, s: seq<T>, x: T): seq<T> {
    if s == [] || le(s[|s| - 1], x) then s + [x] else InsertBy(le, s[..|s| - 1], x) + [s[|s| - 1]]
  }

  lemma {:induction false} InsertByPermutes<T>(le: (T, T) -> bool, s: seq<T>, x: T)
    ensures multiset(InsertBy(le, s, x)) == multiset(s) + multiset{x}
  {
    if s != [] && !le(s[|s| - 1], x) {
      InsertByPermutes(le, s[..|s| - 1], x);
      assert s == s[..|s| - 1] + [s[|s| - 1]];
    }
  }

  lemma {:induction false} InsertBySorted<T(!new)>(le: (T, T) -> bool, s: seq<T>, x: T)
    requires TotalOrder(le) && SortedBy(le, s)
    ensures SortedBy(le, InsertBy(le, s, x))
  {
    if s == [] || le(s[|s| - 1], x) {
      var t := s + [x];
      forall i, j | 0 <= i < j < |t| ensures le(t[i], t[j]) {
        if j == |s| && i < |s| - 1 {
          assert le(s[i], s[|s| - 1]);
        }
      }
    } else {
      var init, last := s[..|s| - 1], s[|s| - 1];
      InsertBySorted(le, init, x);
      InsertByPermutes(le, init, x);
      var t := InsertBy(le, init, x);
      forall i | 0 <= i < |t| ensures le(t[i], last) {
        assert t[i] in multiset(t);
        assert le(x, last);
        assert t[i] == x || t[i] in init;
      }
    }
  }

  method SortInPlace<T(!new)>(a: array<T>, le: (T, T) -> bool)
    requires TotalOrder(le)
    modifies a
    ensures SortedBy(le, a[..]) && multiset(a[..]) == multiset(old(a[..]))
  {
    var s: seq<T> := [];
    for i := 0 to a.Length
      invariant SortedBy(le, s) && |s| == i && multiset(s) == multiset(a[..i])
      invariant a[..] == old(a[..])
    {
      InsertBySorted(le, s, a[i]);
      InsertByPermutes(le, s, a[i]);
      assert a[..i + 1] == a[..i] + [a[i]];
      ghost var was := s;
      s := InsertBy(le, s, a[i]);
      assert |s| == |multiset(s)| == |was| + 1;
    }
    assert a[..a.Length] == a[..];
    forall i | 0 <= i < a.Length {
      a[i] := s[i];
    }
    assert a[..] == s;
  }

  /** Rearranging keeps the members. */
  lemma {:induction false} SameMembers<T>(s: seq<T>, t: seq<T>)
    requires multiset(s) == multiset(t)
    ensures |s| == |t| && forall x :: x in s <==> x in t
  {
    assert |multiset(s)| == |s| && |multiset(t)| == |t|;
    forall x ensures x in s <==> x in t {
      assert x in s <==> x in multiset(s);
      assert x in t <==> x in multiset(t);
    }
  }
}
