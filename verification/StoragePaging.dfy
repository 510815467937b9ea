/**
 Paged enumeration of a contract's storage: sort the slots, filter in place
 from the start key, cut a page and report the key after it.
 */
module StoragePaging {
  import opened Common
  import opened ByteOrder
  import opened Sorting

  /** A raw pair of the storage subspace query. */
  datatype Pair = Pair(key: Bytes, value: Bytes)

  datatype Item = Item(key: Hash, value: Hash)

  type Storage = map<Hash, Hash>

  /** `next` is the first slot beyond the page. */
  datatype Page = Page(entries: Storage, next: Option<Hash>)

  /** Some pair is the entry of a slot: its key behind the prefix and its value, as 32-byte words. */
  ghost predicate HasPair(pairs: seq<Pair>, prefix: nat, slot: Hash, value: Hash) {
    exists i :: 0 <= i < |pairs| && IsEntry(pairs[i], prefix, slot, value)
  }

  predicate IsEntry(p: Pair, prefix: nat, slot: Hash, value: Hash) {
    prefix <= |p.key| && BytesToHash(p.key[prefix..]) == slot && BytesToHash(p.value) == value
  }

  /** No two pairs whose keys reach beyond the prefix are entries of one slot. */
  ghost predicate DistinctSlots(pairs: seq<Pair>, prefix: nat) {
    forall i, j :: 0 <= i < j < |pairs| && prefix <= |pairs[i].key| && prefix <= |pairs[j].key| ==>
      BytesToHash(pairs[i].key[prefix..]) != BytesToHash(pairs[j].key[prefix..])
  }

  /** The storage has exactly the entries of the pairs. */
  ghost predicate Stores(storage: Storage, pairs: seq<Pair>, prefix: nat) {
    forall slot: Hash, value: Hash ::
      (slot in storage && storage[slot] == value) <==> HasPair(pairs, prefix, slot, value)
  }

  function ItemsOf(pairs: seq<Pair>, prefix: nat): seq<Item> {
    if pairs == [] then []
    else
      var p := pairs[|pairs| - 1];
      ItemsOf(pairs[..|pairs| - 1], prefix)
      + if |p.key| < prefix then [] else [Item(BytesToHash(p.key[prefix..]), BytesToHash(p.value))]
  }

  ghost predicate Distinct(items: seq<Item>) {
    forall i, j :: 0 <= i < j < |items| ==> items[i].key != items[j].key
  }

  function ContentOf(items: seq<Item>): Storage {
    if items == [] then map[]
    else ContentOf(items[..|items| - 1])[items[|items| - 1].key := items[|items| - 1].value]
  }

  predicate Within(k: Hash, lo: Option<Hash>, hi: Option<Hash>) {
    (lo.Some? ==> !Less(k, lo.value)) && (hi.Some? ==> Less(k, hi.value))
  }

  /** The slots from `lo` up to but excluding `hi`; a missing bound does not restrict. */
  ghost function Slice(storage: Storage, lo: Option<Hash>, hi: Option<Hash>): Storage {
    map k | k in storage && Within(k, lo, hi) :: storage[k]
  }

  // ---------- order ----------

  predicate Before(x: Item, y: Item) {
    !Less(y.key, x.key)
  }

  lemma {:induction false} NotLessTransitive(a: Bytes, b: Bytes, c: Bytes)
    requires !Less(b, a) && !Less(c, b)
    ensures !Less(c, a)
  {
    LessTotal(a, b);
    LessTotal(b, c);
    LessTotal(a, c);
    if Less(a, b) && Less(b, c) {
      LessTransitive(a, b, c);
    }
  }

  lemma {:induction false} BeforeIsTotal()
    ensures TotalOrder(Before)
  {
    forall x, y ensures Before(x, y) || Before(y, x) {
      LessTotal(x.key, y.key);
    }
    forall x, y, z | Before(x, y) && Before(y, z) ensures Before(x, z) {
      NotLessTransitive(x.key, y.key, z.key);
    }
  }

  // ---------- contents ----------

  /** A storage map and a list of items with the same content. */
  ghost predicate Shows(storage: Storage, items: seq<Item>) {
    forall x: Item :: x in items <==> x.key in storage && storage[x.key] == x.value
  }

  lemma {:induction false} ContentShows(items: seq<Item>)
    requires Distinct(items)
    ensures Shows(ContentOf(items), items)
  {
    if items != [] {
      var n := |items| - 1;
      var init, last := items[..n], items[n];
      ContentShows(init);
      assert items == init + [last];
    }
  }

  lemma {:induction false} SameStorage(a: Storage, b: Storage, items: seq<Item>)
    requires Shows(a, items) && Shows(b, items)
    ensures a == b
  {
    forall k | k in a ensures k in b && b[k] == a[k] {
      assert Item(k, a[k]) in items;
    }
    forall k | k in b ensures k in a {
      assert Item(k, b[k]) in items;
    }
  }

  lemma {:induction false} ContentSize(items: seq<Item>)
    requires Distinct(items)
    ensures |ContentOf(items)| == |items|
  {
    if items != [] {
      var n := |items| - 1;
      var init, last := items[..n], items[n];
      ContentSize(init);
      ContentShows(init);
      forall k | k in ContentOf(init) ensures k != last.key {
        assert Item(k, ContentOf(init)[k]) in init;
      }
      assert ContentOf(items).Keys == ContentOf(init).Keys + {last.key};
    }
  }

  // ---------- from pairs to items ----------

  lemma {:induction false} HasPairSnoc(pairs: seq<Pair>, p: Pair, prefix: nat, slot: Hash, value: Hash)
    ensures HasPair(pairs + [p], prefix, slot, value) <==>
            HasPair(pairs, prefix, slot, value) || IsEntry(p, prefix, slot, value)
  {
    hide IsEntry;
    var all := pairs + [p];
    if i :| 0 <= i < |pairs| && IsEntry(pairs[i], prefix, slot, value) {
      assert all[i] == pairs[i];
    }
    if IsEntry(p, prefix, slot, value) {
      assert all[|pairs|] == p;
    }
  }

  lemma {:induction false} ItemsExact(pairs: seq<Pair>, prefix: nat, x: Item)
    ensures x in ItemsOf(pairs, prefix) <==> HasPair(pairs, prefix, x.key, x.value)
  {
    hide HasPair;
    if pairs == [] {
      NoPairs(prefix, x);
    } else {
      var n := |pairs| - 1;
      ItemsExact(pairs[..n], prefix, x);
      HasPairSnoc(pairs[..n], pairs[n], prefix, x.key, x.value);
      assert pairs == pairs[..n] + [pairs[n]];
    }
  }

  lemma {:induction false} NoPairs(prefix: nat, x: Item)
    ensures !HasPair([], prefix, x.key, x.value)
  {
  }

  lemma {:induction false} ItemsDistinct(pairs: seq<Pair>, prefix: nat)
    requires DistinctSlots(pairs, prefix)
    ensures Distinct(ItemsOf(pairs, prefix))
  {
    if pairs != [] {
      var n := |pairs| - 1;
      var init, last := pairs[..n], pairs[n];
      ItemsDistinct(init, prefix);
      var items := ItemsOf(init, prefix);
      if |last.key| >= prefix {
        forall i | 0 <= i < |items| ensures items[i].key != BytesToHash(last.key[prefix..]) {
          assert items[i] in items;
          ItemsExact(init, prefix, items[i]);
        }
      }
    }
  }

  /** Distinct slots make up a storage. */
  lemma {:induction false} ContentStores(pairs: seq<Pair>, prefix: nat)
    requires DistinctSlots(pairs, prefix)
    ensures Stores(ContentOf(ItemsOf(pairs, prefix)), pairs, prefix)
  {
    hide HasPair, ItemsOf, ContentOf;
    var items := ItemsOf(pairs, prefix);
    ItemsDistinct(pairs, prefix);
    ContentShows(items);
    forall slot: Hash, value: Hash
      ensures (slot in ContentOf(items) && ContentOf(items)[slot] == value) <==> HasPair(pairs, prefix, slot, value)
    {
      ItemsExact(pairs, prefix, Item(slot, value));
    }
  }

  lemma {:induction false} StoresUnique(a: Storage, b: Storage, pairs: seq<Pair>, prefix: nat)
    requires Stores(a, pairs, prefix) && Stores(b, pairs, prefix)
    ensures a == b
  {
    hide HasPair;
    forall k | k in a ensures k in b && b[k] == a[k] {
      assert HasPair(pairs, prefix, k, a[k]);
    }
    forall k | k in b ensures k in a {
      assert HasPair(pairs, prefix, k, b[k]);
    }
  }

  // ---------- rearranging keeps slots distinct ----------

  lemma {:induction false} OncePerItem(items: seq<Item>, x: Item)
    requires Distinct(items)
    ensures multiset(items)[x] <= 1
  {
    if items != [] {
      var n := |items| - 1;
      OncePerItem(items[..n], x);
      assert items == items[..n] + [items[n]];
    }
  }

  lemma {:induction false} Twice(s: seq<Item>, i: nat, j: nat)
    requires i < j < |s| && s[i] == s[j]
    ensures multiset(s)[s[i]] >= 2
  {
    assert s == s[..j] + s[j..];
    assert s[i] in s[..j] && s[j] in s[j..];
  }

  lemma {:induction false} KeyNamesItem(items: seq<Item>, x: Item, y: Item)
    requires Distinct(items) && x in items && y in items && x.key == y.key
    ensures x == y
  {
  }

  ghost predicate Ascending(s: seq<Item>) {
    forall i, j :: 0 <= i < j < |s| ==> Less(s[i].key, s[j].key)
  }

  lemma {:induction false} SortedAscends(items: seq<Item>, s: seq<Item>)
    requires Distinct(items) && multiset(s) == multiset(items) && SortedBy(Before, s)
    ensures Ascending(s)
  {
    SameMembers(s, items);
    forall i, j | 0 <= i < j < |s| ensures Less(s[i].key, s[j].key) {
      assert Before(s[i], s[j]);
      LessTotal(s[i].key, s[j].key);
      if s[i].key == s[j].key {
        assert s[i] in items && s[j] in items;
        KeyNamesItem(items, s[i], s[j]);
        Twice(s, i, j);
        OncePerItem(items, s[i]);
      }
    }
  }

  lemma {:induction false} AscendingDistinct(s: seq<Item>)
    requires Ascending(s)
    ensures Distinct(s)
  {
    forall i, j | 0 <= i < j < |s| ensures s[i].key != s[j].key {
      LessTotal(s[i].key, s[j].key);
    }
  }

  // ---------- filter and cut ----------

  function AtLeast(items: seq<Item>, start: Hash): seq<Item> {
    if items == [] then []
    else
      var last := items[|items| - 1];
      AtLeast(items[..|items| - 1], start) + if Less(last.key, start) then [] else [last]
  }

  lemma {:induction false} AtLeastExact(items: seq<Item>, start: Hash)
    requires Ascending(items)
    ensures forall x :: x in AtLeast(items, start) <==> x in items && !Less(x.key, start)
    ensures Ascending(AtLeast(items, start))
  {
    if items != [] {
      var n := |items| - 1;
      var init, last := items[..n], items[n];
      AtLeastExact(init, start);
      assert items == init + [last];
      var kept := AtLeast(init, start);
      forall i | 0 <= i < |kept| ensures Less(kept[i].key, last.key) {
        assert kept[i] in init;
      }
    }
  }

  /**
   The filter writes through the slice it reads: the write index never passes
   the read index, so no item is overwritten before it is read.
   */
  method FilterInPlace(a: array<Item>, start: Hash) returns (w: nat)
    modifies a
    ensures w <= a.Length && a[..w] == AtLeast(old(a[..]), start)
  {
    w := 0;
    ghost var items := a[..];
    for r := 0 to a.Length
      invariant w <= r
      invariant a[..w] == AtLeast(items[..r], start)
      invariant a[r..] == items[r..]
    {
      var item := a[r];
      assert item == a[r..][0] == items[r];
      assert items[..r + 1][..r] == items[..r];
      assert a[r + 1..] == a[r..][1..];
      if !Less(item.key, start) {
        a[w] := item;
        assert a[..w + 1] == a[..w] + [item];
        w := w + 1;
      }
    }
    assert items[..a.Length] == items;
  }

  lemma {:induction false} CutExact(s: seq<Item>, n: nat)
    requires Ascending(s) && n < |s|
    ensures forall x :: x in s[..n] <==> x in s && Less(x.key, s[n].key)
  {
    forall x | x in s && Less(x.key, s[n].key) ensures x in s[..n] {
      var i :| 0 <= i < |s| && s[i] == x;
      LessTotal(s[n].key, s[i].key);
      assert s[..n][i] == x;
    }
  }

  /** What one call returns, for distinct slots: a contiguous slice of at most the page size, and where it ends. */
  ghost predicate IsPage(storage: Storage, lo: Option<Hash>, max: nat, page: Page) {
    && page.entries == Slice(storage, lo, page.next)
    && |page.entries| <= max
    && (page.next.Some? ==>
          && |page.entries| == max
          && page.next.value in storage && Within(page.next.value, lo, None))
  }

  lemma {:induction false} PageOfSorted(
      storage: Storage, s: seq<Item>, kept: seq<Item>, lo: Option<Hash>, max: nat, page: Page)
    requires Ascending(s) && Shows(storage, s)
    requires kept == if lo.None? then s else AtLeast(s, lo.value)
    requires var cut := if |kept| > max then kept[..max] else kept;
             page.entries == ContentOf(cut) && page.next == if |kept| > max then Some(kept[max].key) else None
    ensures IsPage(storage, lo, max, page)
  {
    if lo.Some? {
      AtLeastExact(s, lo.value);
    }
    var cut := if |kept| > max then kept[..max] else kept;
    assert Ascending(cut);
    AscendingDistinct(cut);
    ContentShows(cut);
    ContentSize(cut);
    if |kept| > max {
      CutExact(kept, max);
      assert kept[max] in kept;
    }
    assert Shows(Slice(storage, lo, page.next), cut);
    SameStorage(page.entries, Slice(storage, lo, page.next), cut);
  }

  // ---------- the query ----------

  lemma {:induction false} EmptyPage(prefix: nat, lo: Option<Hash>, max: nat)
    ensures IsPage(ContentOf(ItemsOf([], prefix)), lo, max, Page(map[], None))
  {
  }

  function StartOf(keyStart: Bytes): Option<Hash> {
    if keyStart == [] then None else Some(BytesToHash(keyStart))
  }

  /**
   One page. Distinct slots and a positive page size give the slice from the
   start key; no pairs or a page size that is not positive give nothing.
   */
  method StorageRangeAt(pairs: seq<Pair>, prefix: nat, keyStart: Bytes, maxResult: int) returns (page: Page)
    ensures maxResult <= 0 ==> page == Page(map[], None)
    ensures maxResult > 0 && DistinctSlots(pairs, prefix) ==>
              forall storage :: Stores(storage, pairs, prefix) ==> IsPage(storage, StartOf(keyStart), maxResult, page)
  {
    hide DistinctSlots, Stores, Distinct, ContentOf, ItemsOf, IsPage, Less, SortedBy, Ascending, AtLeast, Shows,
         TotalOrder;
    if pairs == [] || maxResult <= 0 {
      if maxResult > 0 && DistinctSlots(pairs, prefix) {
        EmptyPage(prefix, StartOf(keyStart), maxResult);
        PageOfPairs(pairs, prefix, StartOf(keyStart), maxResult, Page(map[], None));
      }
      return Page(map[], None);
    }
    var list := DecodeItems(pairs, prefix);
    var items := new Item[|list|](i requires 0 <= i < |list| => list[i]);
    assert items[..] == list;
    BeforeIsTotal();
    SortInPlace(items, Before);
    ghost var sorted := items[..];
    var n := items.Length;
    if keyStart != [] {
      n := FilterInPlace(items, BytesToHash(keyStart));
    }
    var filtered := items[..n];
    ghost var kept := filtered;
    var next: Option<Hash> := None;
    if |filtered| > maxResult {
      next := Some(filtered[maxResult].key);
      filtered := filtered[..maxResult];
    }
    var entries := Collect(filtered);
    page := Page(entries, next);
    if DistinctSlots(pairs, prefix) {
      ItemsDistinct(pairs, prefix);
      SortedAscends(list, sorted);
      ContentShows(list);
      SameMembers(sorted, list);
      PageOfSorted(ContentOf(list), sorted, kept, StartOf(keyStart), maxResult, page);
      PageOfPairs(pairs, prefix, StartOf(keyStart), maxResult, page);
    }
  }

  lemma {:induction false} PageOfPairs(pairs: seq<Pair>, prefix: nat, lo: Option<Hash>, max: nat, page: Page)
    requires DistinctSlots(pairs, prefix) && IsPage(ContentOf(ItemsOf(pairs, prefix)), lo, max, page)
    ensures forall storage :: Stores(storage, pairs, prefix) ==> IsPage(storage, lo, max, page)
  {
    hide DistinctSlots, Stores, IsPage, ContentOf, ItemsOf;
    ContentStores(pairs, prefix);
    forall storage | Stores(storage, pairs, prefix) ensures IsPage(storage, lo, max, page) {
      StoresUnique(storage, ContentOf(ItemsOf(pairs, prefix)), pairs, prefix);
    }
  }

  method DecodeItems(pairs: seq<Pair>, prefix: nat) returns (items: seq<Item>)
    ensures items == ItemsOf(pairs, prefix)
  {
    items := [];
    for i := 0 to |pairs|
      invariant items == ItemsOf(pairs[..i], prefix)
    {
      assert pairs[..i + 1][..i] == pairs[..i];
      if |pairs[i].key| >= prefix {
        items := items + [Item(BytesToHash(pairs[i].key[prefix..]), BytesToHash(pairs[i].value))];
      }
    }
    assert pairs[..|pairs|] == pairs;
  }

  method Collect(items: seq<Item>) returns (entries: Storage)
    ensures entries == ContentOf(items)
  {
    entries := map[];
    for i := 0 to |items|
      invariant entries == ContentOf(items[..i])
    {
      assert items[..i + 1][..i] == items[..i];
      entries := entries[items[i].key := items[i].value];
    }
    assert items[..|items|] == items;
  }

  // ---------- following the next key ----------

  function TotalEntries(pages: seq<Page>): nat {
    if pages == [] then 0 else TotalEntries(pages[..|pages| - 1]) + |pages[|pages| - 1].entries|
  }

  function Union(pages: seq<Page>): Storage {
    if pages == [] then map[] else Union(pages[..|pages| - 1]) + pages[|pages| - 1].entries
  }

  /** Every slot of one page is below every slot of a later page. */
  ghost predicate PagesAscend(pages: seq<Page>) {
    forall i, j, k, l :: 0 <= i < j < |pages| && k in pages[i].entries && l in pages[j].entries ==> Less(k, l)
  }

  lemma {:induction false} HashOfHash(h: Hash)
    ensures h != [] && StartOf(h) == Some(h)
  {
    assert h[0..] == h;
  }

  lemma {:induction false} WithinSplits(k: Hash, lo: Option<Hash>, mid: Hash, hi: Option<Hash>)
    requires Within(mid, lo, None) && (hi.Some? ==> !Less(hi.value, mid))
    ensures Within(k, lo, hi) <==> Within(k, lo, Some(mid)) || Within(k, Some(mid), hi)
  {
    if !Less(k, mid) && lo.Some? {
      NotLessTransitive(lo.value, mid, k);
    }
    if Less(k, mid) && hi.Some? {
      LessTotal(mid, hi.value);
      if Less(mid, hi.value) {
        LessTransitive(k, mid, hi.value);
      }
    }
  }

  lemma {:induction false} Glue<K, V>(whole: map<K, V>, a: map<K, V>, b: map<K, V>)
    requires forall k :: k in whole <==> k in a || k in b
    requires forall k :: k in a ==> k !in b
    requires forall k :: k in whole ==> whole[k] == if k in b then b[k] else a[k]
    ensures whole == a + b && |whole| == |a| + |b|
  {
    assert whole.Keys == a.Keys + b.Keys;
    assert |whole.Keys| == |a.Keys| + |b.Keys|;
  }

  lemma {:induction false} SliceHas(storage: Storage, lo: Option<Hash>, hi: Option<Hash>, k: Hash)
    ensures k in Slice(storage, lo, hi) <==> k in storage && Within(k, lo, hi)
    ensures k in Slice(storage, lo, hi) ==> Slice(storage, lo, hi)[k] == storage[k]
  {
  }

  lemma {:induction false} SplitAt(
      storage: Storage, lo: Option<Hash>, mid: Hash, hi: Option<Hash>, k: Hash, whole: Storage, a: Storage, b: Storage)
    requires Within(mid, lo, None) && (hi.Some? ==> !Less(hi.value, mid))
    requires whole == Slice(storage, lo, hi) && a == Slice(storage, lo, Some(mid)) && b == Slice(storage, Some(mid), hi)
    ensures k in whole <==> k in a || k in b
    ensures !(k in a && k in b)
    ensures k in whole ==> whole[k] == if k in b then b[k] else a[k]
  {
    SliceHas(storage, lo, hi, k);
    SliceHas(storage, lo, Some(mid), k);
    SliceHas(storage, Some(mid), hi, k);
    WithinSplits(k, lo, mid, hi);
  }

  lemma {:induction false} SliceSplits(storage: Storage, lo: Option<Hash>, mid: Hash, hi: Option<Hash>)
    requires Within(mid, lo, None) && (hi.Some? ==> !Less(hi.value, mid))
    ensures Slice(storage, lo, hi) == Slice(storage, lo, Some(mid)) + Slice(storage, Some(mid), hi)
    ensures |Slice(storage, lo, hi)| == |Slice(storage, lo, Some(mid))| + |Slice(storage, Some(mid), hi)|
  {
    var whole, a, b := Slice(storage, lo, hi), Slice(storage, lo, Some(mid)), Slice(storage, Some(mid), hi);
    assert (forall k :: k in whole <==> k in a || k in b) && (forall k :: k in a ==> k !in b)
           && (forall k :: k in whole ==> whole[k] == if k in b then b[k] else a[k]) by {
      forall k: Hash
        ensures k in whole <==> k in a || k in b
        ensures !(k in a && k in b)
        ensures k in whole ==> whole[k] == if k in b then b[k] else a[k]
      {
        SplitAt(storage, lo, mid, hi, k, whole, a, b);
      }
    }
    Glue(whole, a, b);
  }

  ghost predicate AllBelow(pages: seq<Page>, next: Hash) {
    forall i, k :: 0 <= i < |pages| && k in pages[i].entries ==> Less(k, next)
  }

  /** The pages so far hold exactly the slots from the start up to the next key, each once, ascending. */
  ghost predicate Covered(storage: Storage, start: Option<Hash>, pages: seq<Page>, next: Option<Hash>) {
    && Union(pages) == Slice(storage, start, next)
    && TotalEntries(pages) == |Slice(storage, start, next)|
    && PagesAscend(pages)
    && (next.Some? ==> Within(next.value, start, None) && AllBelow(pages, next.value))
  }

  lemma {:induction false} FirstPage(storage: Storage, start: Option<Hash>, max: nat, page: Page)
    requires IsPage(storage, start, max, page)
    ensures Covered(storage, start, [page], page.next)
  {
    assert [page][..0] == [];
    assert Union([]) + page.entries == page.entries;
  }

  lemma {:induction false} StillAscending(pages: seq<Page>, mid: Hash, page: Page, storage: Storage)
    requires PagesAscend(pages) && AllBelow(pages, mid) && page.entries == Slice(storage, Some(mid), page.next)
    ensures PagesAscend(pages + [page])
  {
    forall i, k, l | 0 <= i < |pages| && k in pages[i].entries && l in page.entries ensures Less(k, l) {
      LessTotal(mid, l);
      if Less(mid, l) {
        LessTransitive(k, mid, l);
      }
    }
  }

  lemma {:induction false} StillBelow(pages: seq<Page>, mid: Hash, page: Page, storage: Storage)
    requires AllBelow(pages, mid) && page.entries == Slice(storage, Some(mid), page.next)
    requires page.next.Some? && !Less(page.next.value, mid)
    ensures AllBelow(pages + [page], page.next.value)
  {
    var next := page.next.value;
    forall i, k | 0 <= i < |pages| && k in pages[i].entries ensures Less(k, next) {
      LessTotal(mid, next);
      if Less(mid, next) {
        LessTransitive(k, mid, next);
      }
    }
  }

  lemma {:induction false} NextPage(
      storage: Storage, start: Option<Hash>, pages: seq<Page>, mid: Hash, max: nat, page: Page)
    requires Covered(storage, start, pages, Some(mid)) && IsPage(storage, Some(mid), max, page)
    ensures Covered(storage, start, pages + [page], page.next)
  {
    assert (pages + [page])[..|pages|] == pages;
    SliceSplits(storage, start, mid, page.next);
    StillAscending(pages, mid, page, storage);
    if page.next.Some? {
      StillBelow(pages, mid, page, storage);
      if start.Some? {
        NotLessTransitive(start.value, mid, page.next.value);
      }
    }
  }

  lemma {:induction false} CoveredEntries(
      storage: Storage, pairs: seq<Pair>, prefix: nat, keyStart: Bytes, pages: seq<Page>)
    requires Stores(storage, pairs, prefix) && Covered(storage, StartOf(keyStart), pages, None)
    ensures forall slot: Hash, value: Hash ::
      (slot in Union(pages) && Union(pages)[slot] == value) <==>
      HasPair(pairs, prefix, slot, value) && (keyStart == [] || !Less(slot, BytesToHash(keyStart)))
    ensures TotalEntries(pages) == |Union(pages)| && PagesAscend(pages)
  {
    hide HasPair, Union, Less;
    forall slot: Hash, value: Hash
      ensures (slot in Union(pages) && Union(pages)[slot] == value) <==>
              HasPair(pairs, prefix, slot, value) && (keyStart == [] || !Less(slot, BytesToHash(keyStart)))
    {
      SliceHas(storage, StartOf(keyStart), None, slot);
    }
  }

  /**
   Following the next key from any start key ends. Together the pages map a slot
   to a value exactly when some pair is that entry and the slot is not below the
   start; no slot is on two pages, and they ascend.
   */
  method FollowPages(pairs: seq<Pair>, prefix: nat, keyStart: Bytes, maxResult: int) returns (pages: seq<Page>)
    requires maxResult > 0 && DistinctSlots(pairs, prefix)
    ensures forall slot: Hash, value: Hash ::
      (slot in Union(pages) && Union(pages)[slot] == value) <==>
      HasPair(pairs, prefix, slot, value) && (keyStart == [] || !Less(slot, BytesToHash(keyStart)))
    ensures TotalEntries(pages) == |Union(pages)| && PagesAscend(pages)
  {
    hide DistinctSlots, Stores, IsPage, ContentOf, ItemsOf, Covered, HasPair, StartOf;
    ghost var storage := ContentOf(ItemsOf(pairs, prefix));
    ContentStores(pairs, prefix);
    ghost var start := StartOf(keyStart);
    var page := StorageRangeAt(pairs, prefix, keyStart, maxResult);
    pages := [page];
    FirstPage(storage, start, maxResult, page);
    while page.next.Some?
      invariant Covered(storage, start, pages, page.next)
      decreases if page.next.Some? then 1 + |Slice(storage, page.next, None)| else 0
    {
      var mid := page.next.value;
      HashOfHash(mid);
      page := StorageRangeAt(pairs, prefix, mid, maxResult);
      NextPage(storage, start, pages, mid, maxResult, page);
      if page.next.Some? {
        NextIsLater(storage, mid, maxResult, page);
      }
      pages := pages + [page];
    }
    CoveredEntries(storage, pairs, prefix, keyStart, pages);
  }

  lemma {:induction false} NextIsLater(storage: Storage, mid: Hash, max: nat, page: Page)
    requires max > 0 && IsPage(storage, Some(mid), max, page) && page.next.Some?
    ensures |Slice(storage, page.next, None)| < |Slice(storage, Some(mid), None)|
  {
    SliceSplits(storage, Some(mid), page.next.value, None);
  }
}
