/** torrent/stats.go and torrent/service.go: pages of a route's torrents, sorted by name. */
module Pages {
  import opened Int64
  import opened Wrappers

  /** One row of a page; `live` tells a running torrent from one known only to the cache. */
  datatype Item = Item(name: string, hash: string, live: bool)

  // ---------- Go's order on strings ----------

  predicate LessEq(a: string, b: string) {
    a == "" || (b != "" && (a[0] < b[0] || (a[0] == b[0] && LessEq(a[1..], b[1..]))))
  }

  lemma {:induction false} LessEqTotal(a: string, b: string)
    ensures LessEq(a, b) || LessEq(b, a)
    ensures LessEq(a, b) && LessEq(b, a) ==> a == b
  {
    if a != "" && b != "" && a[0] == b[0] {
      LessEqTotal(a[1..], b[1..]);
      assert a == [a[0]] + a[1..] && b == [b[0]] + b[1..];
    }
  }

  lemma {:induction false} LessEqTransitive(a: string, b: string, c: string)
    requires LessEq(a, b) && LessEq(b, c)
    ensures LessEq(a, c)
  {
    if a != "" && a[0] == b[0] && b[0] == c[0] {
      LessEqTransitive(a[1..], b[1..], c[1..]);
    }
  }

  /** `i` is the first place where the two differ, and `a` is smaller there. */
  predicate SmallerAt(a: string, b: string, i: nat) {
    i < |a| && i < |b| && a[..i] == b[..i] && a[i] < b[i]
  }

  /** It is the order of the first characters that differ; a prefix comes first. */
  lemma LessEqIff(a: string, b: string)
    ensures LessEq(a, b) <==> a <= b || exists i: nat :: SmallerAt(a, b, i)
  {
    hide LessEq, SmallerAt;
    if LessEq(a, b) { LessEqShows(a, b); }
    if a <= b || exists i: nat :: SmallerAt(a, b, i) {
      var i: nat :| a <= b || SmallerAt(a, b, i);
      ShowsLessEq(a, b, i);
    }
  }

  lemma {:induction false} LessEqShows(a: string, b: string)
    requires LessEq(a, b)
    ensures a <= b || exists i: nat :: SmallerAt(a, b, i)
  {
    if a != "" && a[0] == b[0] {
      LessEqShows(a[1..], b[1..]);
      assert a == [a[0]] + a[1..] && b == [b[0]] + b[1..];
      if i: nat :| SmallerAt(a[1..], b[1..], i) {
        assert a[..i + 1] == [a[0]] + a[1..][..i] && b[..i + 1] == [b[0]] + b[1..][..i];
        assert SmallerAt(a, b, i + 1);
      }
    } else if a != "" {
      assert SmallerAt(a, b, 0);
    }
  }

  lemma {:induction false} ShowsLessEq(a: string, b: string, i: nat)
    requires a <= b || SmallerAt(a, b, i)
    ensures LessEq(a, b)
  {
    if a != "" && (a <= b || i > 0) {
      assert a[0] == b[0] by { if !(a <= b) { assert a[..i][0] == b[..i][0]; } }
      if !(a <= b) { assert a[1..][..i - 1] == a[..i][1..] && b[1..][..i - 1] == b[..i][1..]; }
      ShowsLessEq(a[1..], b[1..], if i > 0 then i - 1 else 0);
    }
  }

  ghost predicate Sorted(s: seq<Item>) {
    forall i, j | 0 <= i < j < |s| :: LessEq(s[i].name, s[j].name)
  }

  /** `s` is `items` in some order, each once. */
  ghost predicate Lists(s: seq<Item>, items: set<Item>) {
    multiset(s) == multiset(items)
  }

  /** What sort.Sort may leave: any sorted order. */
  ghost predicate SortedList(s: seq<Item>, items: set<Item>) {
    Sorted(s) && Lists(s, items)
  }

  ghost predicate DistinctNames(items: set<Item>) {
    forall x, y | x in items && y in items && x != y :: x.name != y.name
  }

  // ---------- Sorting ----------

  /** sort.Sort(byName(all)): some sorted order, with nothing said about equal names. */
  method SortByName(all: seq<Item>) returns (sorted: seq<Item>)
    ensures Sorted(sorted) && multiset(sorted) == multiset(all)
  {
    sorted := [];
    var k := 0;
    while k < |all|
      invariant 0 <= k <= |all|
      invariant Sorted(sorted) && multiset(sorted) == multiset(all[..k])
    {
      hide Sorted;
      assert all[..k + 1] == all[..k] + [all[k]];
      sorted := Insert(sorted, all[k]);
      k := k + 1;
    }
    assert all[..k] == all;
  }

  method Insert(sorted: seq<Item>, x: Item) returns (r: seq<Item>)
    requires Sorted(sorted)
    ensures Sorted(r) && multiset(r) == multiset(sorted) + multiset{x}
  {
    hide Sorted, LessEq;
    var i := 0;
    while i < |sorted| && LessEq(sorted[i].name, x.name)
      invariant 0 <= i <= |sorted|
      invariant forall j | 0 <= j < i :: LessEq(sorted[j].name, x.name)
    {
      i := i + 1;
    }
    r := sorted[..i] + [x] + sorted[i..];
    assert sorted == sorted[..i] + sorted[i..];
    InsertSorted(sorted, x, i);
  }

  lemma InsertSorted(s: seq<Item>, x: Item, i: nat)
    requires Sorted(s) && i <= |s| && (forall j | 0 <= j < i :: LessEq(s[j].name, x.name))
    requires i < |s| ==> !LessEq(s[i].name, x.name)
    ensures Sorted(s[..i] + [x] + s[i..])
  {
    hide LessEq;
    forall j | i <= j < |s| ensures LessEq(x.name, s[j].name) {
      LessEqTotal(x.name, s[i].name);
      if i < j { LessEqTransitive(x.name, s[i].name, s[j].name); }
    }
  }

  /** With distinct names there is only one sorted order, whatever order the map was read in. */
  lemma {:induction false} SortedListUnique(a: seq<Item>, b: seq<Item>, items: set<Item>)
    requires DistinctNames(items) && SortedList(a, items) && SortedList(b, items)
    ensures a == b
    decreases |a|
  {
    assert |a| == |multiset(items)| == |b|;
    if a != [] {
      FirstIsLeast(a, b, items);
      DropFirst(a, items);
      DropFirst(b, items);
      SortedListUnique(a[1..], b[1..], items - {a[0]});
      assert a == [a[0]] + a[1..] && b == [b[0]] + b[1..];
    }
  }

  lemma FirstIsLeast(a: seq<Item>, b: seq<Item>, items: set<Item>)
    requires DistinctNames(items) && SortedList(a, items) && SortedList(b, items) && a != [] && b != []
    ensures a[0] == b[0]
  {
    hide LessEq;
    assert a[0] in multiset(a) && b[0] in multiset(b);
    assert b[0] in multiset(a) && a[0] in multiset(b);
    var i :| 0 <= i < |a| && a[i] == b[0];
    var j :| 0 <= j < |b| && b[j] == a[0];
    LessEqTotal(a[0].name, b[0].name);
    LessEqTotal(a[0].name, a[0].name);
  }

  lemma DropFirst(a: seq<Item>, items: set<Item>)
    requires SortedList(a, items) && a != []
    ensures SortedList(a[1..], items - {a[0]})
  {
    hide LessEq, Sorted;
    assert a == [a[0]] + a[1..];
    assert a[0] in multiset(a);
    assert multiset(items - {a[0]}) == multiset(items) - multiset{a[0]};
    TailSorted(a);
  }

  lemma TailSorted(a: seq<Item>)
    requires Sorted(a) && a != []
    ensures Sorted(a[1..])
  {
    hide LessEq;
    forall i, j | 0 <= i < j < |a[1..]| ensures LessEq(a[1..][i].name, a[1..][j].name) {
      assert a[1..][i] == a[i + 1] && a[1..][j] == a[j + 1];
    }
  }

  /** Exactly then: two torrents of the same name can be sorted either way. */
  lemma OnlyOrderIffDistinctNames(a: seq<Item>, items: set<Item>)
    requires SortedList(a, items)
    ensures DistinctNames(items) <==> forall b :: SortedList(b, items) ==> b == a
  {
    hide LessEq, Sorted;
    if DistinctNames(items) {
      forall b | SortedList(b, items) ensures b == a { SortedListUnique(b, a, items); }
    } else {
      var x, y :| x in items && y in items && x != y && x.name == y.name;
      assert x in multiset(a) && y in multiset(a);
      var i :| 0 <= i < |a| && a[i] == x;
      var j :| 0 <= j < |a| && a[j] == y;
      var b := Swapped(a, i, j);
      SwapSorted(a, i, j, items);
      assert b[i] != a[i];
    }
  }

  function Swapped(a: seq<Item>, i: nat, j: nat): seq<Item>
    requires i < |a| && j < |a|
  {
    a[i := a[j]][j := a[i]]
  }

  lemma SwapSorted(a: seq<Item>, i: nat, j: nat, items: set<Item>)
    requires i < |a| && j < |a| && i != j && a[i].name == a[j].name && SortedList(a, items)
    ensures SortedList(Swapped(a, i, j), items)
  {
    hide LessEq;
    assert multiset(Swapped(a, i, j)) == multiset(a);
    var b := Swapped(a, i, j);
    assert forall k | 0 <= k < |a| :: b[k].name == a[k].name;
  }

  // ---------- Cutting pages ----------

  function PageOf(page: int): int {
    if page < 1 then 1 else page
  }

  function SizeOf(size: int): int {
    if size <= 0 then 25 else size
  }

  /** The slice bounds a page uses, in 64-bit arithmetic; None where slicing panics. */
  function Bounds(page: int, size: int, total: nat): (r: Option<(nat, nat)>)
    ensures r.Some? ==> r.value.0 <= r.value.1 <= total
  {
    var start := Wrap((PageOf(page) - 1) * SizeOf(size));
    var start1 := if start > total then total else start;
    var end := Wrap(start1 + SizeOf(size));
    var end1 := if end > total then total else end;
    if 0 <= start1 <= end1 then Some((start1, end1)) else None
  }

  /** A page panics exactly when its start or its end overflows. */
  lemma BoundsValidIff(page: int, size: int, total: nat)
    requires InRange(page) && InRange(size) && InRange(total)
    ensures var start := Wrap((PageOf(page) - 1) * SizeOf(size));
            Bounds(page, size, total).Some? <==>
            start >= 0 && InRange((if start > total then total else start) + SizeOf(size))
  {
    var z, start := SizeOf(size), Wrap((PageOf(page) - 1) * SizeOf(size));
    var start1 := if start > total then total else start;
    if start >= 0 && !InRange(start1 + z) {
      WrapsNegative(start1 + z);
    }
  }

  lemma WrapsNegative(x: int)
    requires TWO_63 <= x < TWO_64
    ensures Wrap(x) < 0
  {
  }

  /** While page times size fits, a page is the slice its number says. */
  lemma BoundsOfPage(page: int, size: int, total: nat)
    requires page >= 1 && size > 0 && InRange(total) && InRange((page - 1) * size + size)
    ensures var from := (page - 1) * size;
            0 <= from && Bounds(page, size, total) == Some((Min(from, total), Min(from + size, total)))
  {
    hide Wrap, InRange;
    MulNonNegative(page - 1, size);
    PageFits(page, size, total);
  }

  lemma MulNonNegative(a: int, b: int)
    requires a >= 0 && b >= 0
    ensures a * b >= 0
  {
  }

  /** Nothing wraps on the way to a page that fits. */
  lemma PageFits(page: int, size: int, total: nat)
    requires page >= 1 && size > 0 && InRange(total) && (page - 1) * size >= 0 && InRange((page - 1) * size + size)
    ensures var from := (page - 1) * size;
            var start := if from > total then total else from;
            Wrap(from) == from && Wrap(start + size) == start + size
  {
  }

  datatype RoutePage = RoutePage(name: string, page: int, size: int, total: nat, items: seq<Item>)

  /** The page cut out of one sorted order; None where slicing panics. */
  function PageFrom(route: string, all: seq<Item>, page: int, size: int): Option<RoutePage> {
    match Bounds(page, size, |all|)
    case None => None
    case Some((start, end)) => Some(RoutePage(route, PageOf(page), SizeOf(size), |all|, all[start..end]))
  }

  /** What a call may answer when the route's rows are `rows`. */
  ghost predicate IsPage(r: Option<RoutePage>, route: string, rows: set<Item>, page: int, size: int) {
    exists all :: SortedList(all, rows) && r == PageFrom(route, all, page, size)
  }

  /** A page below 1 is page 1, and a size that is not positive is 25. */
  lemma PageDefaults(r: Option<RoutePage>, route: string, rows: set<Item>, page: int, size: int)
    ensures IsPage(r, route, rows, page, size) <==>
            IsPage(r, route, rows, if page >= 1 then page else 1, if size > 0 then size else 25)
    ensures IsPage(r, route, rows, page, size) && r.Some? ==>
              r.value.name == route && r.value.total == |rows|
              && (page >= 1 ==> r.value.page == page) && (page < 1 ==> r.value.page == 1)
              && (size > 0 ==> r.value.size == size) && (size <= 0 ==> r.value.size == 25)
  {
    hide PageFrom, Sorted;
    forall all { PageFromDefaults(route, all, page, size); }
    if IsPage(r, route, rows, page, size) {
      var all :| SortedList(all, rows) && r == PageFrom(route, all, page, size);
      assert |all| == |multiset(rows)|;
    }
  }

  lemma PageFromDefaults(route: string, all: seq<Item>, page: int, size: int)
    ensures var r := PageFrom(route, all, page, size);
            && r == PageFrom(route, all, if page >= 1 then page else 1, if size > 0 then size else 25)
            && (r.Some? ==> r.value.name == route && r.value.total == |all|
                            && r.value.page == (if page >= 1 then page else 1)
                            && r.value.size == if size > 0 then size else 25)
  {
    hide Wrap;
  }

  // ---------- All pages together ----------

  /** The items of pages 1 to `n`, one after the other. */
  ghost function Items(pages: seq<RoutePage>, n: nat): seq<Item>
    requires n <= |pages|
  {
    if n == 0 then [] else Items(pages, n - 1) + pages[n - 1].items
  }

  /** Pages from separate calls, each reading and sorting the map anew, make up the one sorted list
      with no gap and no repeat. */
  lemma {:induction false} PagesPartition(pages: seq<RoutePage>, route: string, sorted: seq<Item>, rows: set<Item>,
                                          size: nat, n: nat)
    requires DistinctNames(rows) && SortedList(sorted, rows) && InRange(|sorted|)
    requires size > 0 && n <= |pages| && InRange(n * size)
    requires forall k | 0 <= k < n :: IsPage(Some(pages[k]), route, rows, k + 1, size)
    ensures Items(pages, n) == sorted[..Min(n * size, |sorted|)]
    ensures n * size >= |sorted| ==> Items(pages, n) == sorted
  {
    hide SortedList, DistinctNames, IsPage;
    if n > 0 {
      MulStep(n, size);
      PagesPartition(pages, route, sorted, rows, size, n - 1);
      PageIsCut(pages[n - 1], route, sorted, rows, size, n);
      var lo, hi := Min((n - 1) * size, |sorted|), Min(n * size, |sorted|);
      assert lo <= hi;
      assert sorted[..lo] + sorted[lo..hi] == sorted[..hi];
    }
    if n * size >= |sorted| { assert sorted[..|sorted|] == sorted; }
  }

  /** With distinct names page `n` is the `n`th slice of the one sorted list, in whatever order the
      map was read. */
  lemma PageIsCut(r: RoutePage, route: string, sorted: seq<Item>, rows: set<Item>, size: nat, n: nat)
    requires DistinctNames(rows) && SortedList(sorted, rows) && InRange(|sorted|)
    requires size > 0 && n > 0 && InRange((n - 1) * size + size) && IsPage(Some(r), route, rows, n, size)
    ensures n * size == (n - 1) * size + size && (n - 1) * size >= 0
    ensures r == RoutePage(route, n, size, |sorted|, sorted[Min((n - 1) * size, |sorted|)..Min(n * size, |sorted|)])
  {
    hide SortedList, DistinctNames, Bounds;
    MulStep(n, size);
    var all :| SortedList(all, rows) && Some(r) == PageFrom(route, all, n, size);
    SortedListUnique(all, sorted, rows);
    BoundsOfPage(n, size, |sorted|);
  }

  lemma MulStep(n: nat, size: nat)
    requires n > 0
    ensures n * size == (n - 1) * size + size && (n - 1) * size >= 0
  {
  }

  /** With two torrents of one name, two calls can show the same torrent on two pages. */
  lemma SameNameRepeats(route: string, a: seq<Item>, rows: set<Item>, i: nat)
    requires SortedList(a, rows) && i + 1 < |a| && a[i].name == a[i + 1].name && InRange(|a| + 1)
    ensures IsPage(Some(RoutePage(route, i + 1, 1, |a|, [a[i]])), route, rows, i + 1, 1)
    ensures IsPage(Some(RoutePage(route, i + 2, 1, |a|, [a[i]])), route, rows, i + 2, 1)
  {
    hide SortedList, Bounds;
    var b := Swapped(a, i, i + 1);
    SwapSorted(a, i, i + 1, rows);
    BoundsOfPage(i + 1, 1, |a|);
    BoundsOfPage(i + 2, 1, |a|);
    assert a[i..i + 1] == [a[i]] && b[i + 1..i + 2] == [a[i]];
    assert PageFrom(route, a, i + 1, 1) == Some(RoutePage(route, i + 1, 1, |a|, [a[i]]));
    assert PageFrom(route, b, i + 2, 1) == Some(RoutePage(route, i + 2, 1, |a|, [a[i]]));
  }
}

/** torrent/stats.go: the running torrents of each route; torrent/service.go: their union with the
    cached ones. */
module RouteStats {
  import opened Int64
  import opened Pages
  import opened Wrappers

  datatype Torrent = Torrent(hash: string, name: string)

  datatype Cached = Cached(hash: string, name: string, route: string)

  predicate KeyedByHash(tl: map<string, Torrent>) {
    forall h | h in tl :: tl[h].hash == h
  }

  predicate CacheKeyedByHash(cached: map<string, Cached>) {
    forall h | h in cached :: cached[h].hash == h
  }

  function Row(t: Torrent): Item {
    Item(t.name, t.hash, true)
  }

  function CachedRow(c: Cached): Item {
    Item(c.name, c.hash, false)
  }

  ghost function LiveRows(tl: map<string, Torrent>): set<Item> {
    set h | h in tl :: Row(tl[h])
  }

  /** Live rows, and the cached rows of the route that fill the gaps. */
  ghost function MergedRows(tl: map<string, Torrent>, cached: map<string, Cached>, route: string): set<Item> {
    LiveRows(tl) + set h | h in cached && cached[h].route == route && h !in tl :: CachedRow(cached[h])
  }

  /** The merged list shows each hash of the route once, live whenever it is running. */
  lemma MergedOnce(tl: map<string, Torrent>, cached: map<string, Cached>, route: string)
    requires KeyedByHash(tl) && CacheKeyedByHash(cached)
    ensures forall x, y | x in MergedRows(tl, cached, route) && y in MergedRows(tl, cached, route) ::
            x.hash == y.hash ==> x == y
    ensures forall h :: (exists x :: x in MergedRows(tl, cached, route) && x.hash == h)
                        <==> h in tl || (h in cached && cached[h].route == route)
    ensures forall x | x in MergedRows(tl, cached, route) :: x.live <==> x.hash in tl
  {
    forall h | h in tl || (h in cached && cached[h].route == route)
      ensures exists x :: x in MergedRows(tl, cached, route) && x.hash == h
    {
      var x := if h in tl then Row(tl[h]) else CachedRow(cached[h]);
      assert x in MergedRows(tl, cached, route);
    }
  }

  /** A torrent that starts running replaces its cached row, if that has its name, one for one. */
  lemma LoadingKeepsTheHashes(tl: map<string, Torrent>, cached: map<string, Cached>, route: string, t: Torrent)
    requires KeyedByHash(tl) && CacheKeyedByHash(cached)
    requires t.hash !in tl && t.hash in cached && cached[t.hash] == Cached(t.hash, t.name, route)
    ensures MergedRows(tl[t.hash := t], cached, route)
            == MergedRows(tl, cached, route) - {Item(t.name, t.hash, false)} + {Item(t.name, t.hash, true)}
  {
    var after := tl[t.hash := t];
    forall x ensures x in LiveRows(after) <==> x in LiveRows(tl) || x == Row(t) {
      if x in LiveRows(tl) {
        var h :| h in tl && x == Row(tl[h]);
        assert after[h] == tl[h];
      }
      if x == Row(t) { assert after[t.hash] == t; }
    }
  }

  method CollectLive(tl: map<string, Torrent>) returns (all: seq<Item>, hashes: set<string>)
    requires KeyedByHash(tl)
    ensures multiset(all) == multiset(LiveRows(tl)) && hashes == tl.Keys
  {
    all, hashes := [], {};
    var todo := tl.Keys;
    ghost var done: set<Item> := {};
    while todo != {}
      invariant todo <= tl.Keys && hashes == tl.Keys - todo
      invariant done == set h | h in tl && h !in todo :: Row(tl[h])
      invariant multiset(all) == multiset(done)
      decreases |todo|
    {
      var h :| h in todo;
      assert Row(tl[h]) !in done;
      all, hashes := all + [Row(tl[h])], hashes + {tl[h].hash};
      done, todo := done + {Row(tl[h])}, todo - {h};
    }
    assert done == LiveRows(tl);
  }

  method AppendCached(live: seq<Item>, tl: map<string, Torrent>, cached: map<string, Cached>, route: string,
                      hashes: set<string>)
    returns (all: seq<Item>)
    requires CacheKeyedByHash(cached) && multiset(live) == multiset(LiveRows(tl)) && hashes == tl.Keys
    ensures multiset(all) == multiset(MergedRows(tl, cached, route))
  {
    hide MergedRows, LiveRows;
    all := live;
    var todo := cached.Keys;
    ghost var done := LiveRows(tl);
    MergedWithNothing(tl, cached, route);
    while todo != {}
      invariant todo <= cached.Keys && done == MergedRows(tl, cached - todo, route)
      invariant multiset(all) == multiset(done)
      decreases |todo|
    {
      var h :| h in todo;
      MergedStep(tl, cached, route, todo, h);
      if cached[h].route == route && cached[h].hash !in hashes {
        all := all + [CachedRow(cached[h])];
        done := done + {CachedRow(cached[h])};
      }
      todo := todo - {h};
    }
    assert cached - todo == cached;
  }

  lemma MergedWithNothing(tl: map<string, Torrent>, cached: map<string, Cached>, route: string)
    ensures MergedRows(tl, cached - cached.Keys, route) == LiveRows(tl)
  {
  }

  lemma MergedStep(tl: map<string, Torrent>, cached: map<string, Cached>, route: string, todo: set<string>, h: string)
    requires CacheKeyedByHash(cached) && h in todo && todo <= cached.Keys
    ensures var before, after := MergedRows(tl, cached - todo, route), MergedRows(tl, cached - (todo - {h}), route);
            if cached[h].route == route && h !in tl then
              CachedRow(cached[h]) !in before && after == before + {CachedRow(cached[h])}
            else after == before
  {
  }

  class Stats {
    var torrents: map<string, Torrent>
    var torrentsByRoute: map<string, map<string, Torrent>>

    ghost predicate Valid()
      reads this
    {
      forall r | r in torrentsByRoute :: KeyedByHash(torrentsByRoute[r])
    }

    function On(route: string): (tl: map<string, Torrent>)
      reads this
    {
      if route in torrentsByRoute then torrentsByRoute[route] else map[]
    }

    constructor ()
      ensures Valid() && torrents == map[] && torrentsByRoute == map[]
    {
      torrents, torrentsByRoute := map[], map[];
    }

    method AddRoute(route: string)
      requires Valid()
      modifies this`torrentsByRoute
      ensures Valid() && torrentsByRoute == old(torrentsByRoute)[route := old(On(route))]
    {
      if route !in torrentsByRoute {
        torrentsByRoute := torrentsByRoute[route := map[]];
      }
    }

    method Add(route: string, t: Torrent)
      requires Valid()
      modifies this
      ensures Valid() && torrents == old(torrents)[t.hash := t]
      ensures torrentsByRoute == old(torrentsByRoute)[route := old(On(route))[t.hash := t]]
    {
      torrents := torrents[t.hash := t];
      if route !in torrentsByRoute {
        torrentsByRoute := torrentsByRoute[route := map[]];
      }
      torrentsByRoute := torrentsByRoute[route := torrentsByRoute[route][t.hash := t]];
    }

    method Del(route: string, hash: string)
      requires Valid()
      modifies this
      ensures Valid() && torrents == old(torrents) - {hash}
      ensures torrentsByRoute.Keys == old(torrentsByRoute).Keys && On(route) == old(On(route)) - {hash}
      ensures forall r | r != route :: On(r) == old(On(r))
    {
      torrents := torrents - {hash};
      if route !in torrentsByRoute {
        return;
      }
      torrentsByRoute := torrentsByRoute[route := torrentsByRoute[route] - {hash}];
    }

    method RemoveRoute(route: string)
      requires Valid()
      modifies this`torrentsByRoute
      ensures Valid() && torrentsByRoute == old(torrentsByRoute) - {route}
    {
      torrentsByRoute := torrentsByRoute - {route};
    }

    /** One page of the running torrents, out of some sorted order of all of them. */
    method RouteStatsPage(route: string, page: int, size: int) returns (r: Option<RoutePage>)
      requires Valid() && InRange(page) && InRange(size)
      ensures IsPage(r, route, LiveRows(On(route)), page, size)
    {
      var all, _ := CollectLive(On(route));
      all := SortByName(all);
      r := PageFrom(route, all, page, size);
    }

    /** One page of the running torrents together with those only the cache knows. */
    method MergedRoutePage(cached: map<string, Cached>, route: string, page: int, size: int)
      returns (r: Option<RoutePage>)
      requires Valid() && CacheKeyedByHash(cached) && InRange(page) && InRange(size)
      ensures IsPage(r, route, MergedRows(On(route), cached, route), page, size)
    {
      var live, hashes := CollectLive(On(route));
      var all := AppendCached(live, On(route), cached, route, hashes);
      all := SortByName(all);
      r := PageFrom(route, all, page, size);
    }
  }

  // ---------- The two maps ----------

  /** Every torrent a route lists is one the global map knows. */
  ghost predicate ListedKnown(torrents: map<string, Torrent>, byRoute: map<string, map<string, Torrent>>) {
    forall r, h | r in byRoute && h in byRoute[r] :: h in torrents
  }

  /** Del leaves a torrent listed but unknown exactly when another route lists it too. */
  lemma DelKeepsKnownIff(torrents: map<string, Torrent>, byRoute: map<string, map<string, Torrent>>, route: string,
                         hash: string)
    requires ListedKnown(torrents, byRoute)
    ensures var after := if route in byRoute then byRoute[route := byRoute[route] - {hash}] else byRoute;
            ListedKnown(torrents - {hash}, after) <==> forall r | r in byRoute && r != route :: hash !in byRoute[r]
  {
    var after := if route in byRoute then byRoute[route := byRoute[route] - {hash}] else byRoute;
    if ListedKnown(torrents - {hash}, after) {
      forall r | r in byRoute && r != route ensures hash !in byRoute[r] {
        assert hash in after[r] ==> hash in torrents - {hash};
      }
    }
  }
}
