/** fs/overlay.go over a storage without mounts and a route's cached index. */
module Overlay {
  import opened Files
  import opened MountLaws
  import opened OverlayIndex
  import opened OverlayLister
  import opened Paths
  import opened PathTrees
  import opened Storage
  import opened StoragePaths
  import opened StorageTree
  import opened TreeLaws
  import opened Wrappers

  /** The File an overlay hands out for a cached entry. */
  ghost predicate Shows(f: File, ph: Placeholder)
    reads f
  {
    f.kind == (if ph.InfoFile? then Leaf else Info) && f.size == ph.size
  }

  /** A cached file is shown as a file and a cached directory as a directory, each with its size. */
  lemma ShowsIff(f: File, ph: Placeholder)
    requires !f.kind.Dir?
    ensures Shows(f, ph) <==> f.size == ph.size && (f.IsDir() <==> ph.InfoDir?)
  {
  }

  method FilesFor(entries: map<string, Placeholder>) returns (l: Listing)
    ensures fresh(l) && l.entries.Keys == entries.Keys
    ensures forall n | n in l.entries :: Shows(l.entries[n], entries[n])
  {
    l := new Listing();
    var names := entries.Keys;
    while names != {}
      invariant names <= entries.Keys && fresh(l) && l.entries.Keys == entries.Keys - names
      invariant forall n | n in l.entries :: Shows(l.entries[n], entries[n])
      decreases |names|
    {
      var n :| n in names;
      var f := new File(if entries[n].InfoFile? then Leaf else Info, entries[n].size);
      l.entries := l.entries[n := f];
      names := names - {n};
    }
  }

  /** The merge loop of ReadDir: add the cached entries whose names are free. */
  method MergeCached(entries: Listing, cached: Listing)
    requires entries != cached
    modifies entries
    ensures entries.entries == cached.entries + old(entries.entries)
  {
    var names := cached.entries.Keys;
    while names != {}
      invariant names <= cached.entries.Keys
      invariant entries.entries == (cached.entries - names) + old(entries.entries)
      decreases |names|
    {
      var n :| n in names;
      if n !in entries.entries {
        entries.entries := entries.entries[n := cached.entries[n]];
      }
      names := names - {n};
    }
  }

  class Overlay {
    const base: Storage
    const lister: Option<Index>
    const materialize: bool

    constructor (base: Storage, lister: Option<Index>, materialize: bool)
      ensures this.base == base && this.lister == lister && this.materialize == materialize
    {
      this.base := base;
      this.lister := lister;
      this.materialize := materialize;
    }

    /** What the cached index lists under `path`. */
    ghost function Cached(path: string): map<string, Placeholder> {
      match lister
      case None => map[]
      case Some(oi) => RouteListing(oi, path)
    }

    /** The lister with its placeholders made into Files. */
    method ListCached(path: string) returns (l: Listing)
      ensures fresh(l) && l.entries.Keys == Cached(path).Keys
      ensures forall n | n in l.entries :: Shows(l.entries[n], Cached(path)[n])
    {
      hide RouteListing;
      var entries := map[];
      if lister.Some? { entries := List(lister.value, path); }
      l := FilesFor(entries);
    }

    /** ReadDir: the base's entries, and the cached ones whose names the base does not have. */
    method ReadDir(path: string) returns (r: Result<Listing>)
      requires base.Valid() && base.mounts == []
      ensures r.Ok? && fresh(r.value)
      ensures r.value.entries.Keys == base.ListedAt(CleanKey(path)).Keys + Cached(path).Keys
      ensures forall n | n in base.ListedAt(CleanKey(path)) :: r.value.entries[n] == base.ListedAt(CleanKey(path))[n]
      ensures forall n | n in Cached(path) && n !in base.ListedAt(CleanKey(path)) ::
                Shows(r.value.entries[n], Cached(path)[n])
    {
      hide CleanKey, Cached, Shows;
      r := base.Children(path);
      assert r.Ok? && r.value.entries == base.ListedAt(CleanKey(path));
      hide *;
      if lister.Some? {
        var cached := ListCached(path);
        MergeCached(r.value, cached);
      } else {
        NothingCached(path);
      }
    }

    lemma NothingCached(path: string)
      requires lister.None?
      ensures Cached(path) == map[]
    {
    }

    /** Whether Open of `filename` succeeds. */
    ghost predicate Opens(filename: string)
      reads base
    {
      CleanKey(filename) in base.files || Split(filename).1 in Cached(Clean(Split(filename).0))
    }

    /** Open: the base's file, else, for a cached entry, what a retry of the base gives or the
        cached placeholder. `retries` are the answers of the base to the retries. */
    method Open(filename: string, retries: seq<Result<File>>) returns (r: Result<File>)
      requires base.Valid() && base.mounts == [] && |retries| == 5
      ensures r.Ok? <==> Opens(filename)
      ensures r.Err? ==> r.error == NotExist
      ensures CleanKey(filename) in base.files ==> r == Ok(base.files[CleanKey(filename)])
      ensures r.Ok? && CleanKey(filename) !in base.files ==>
                || (materialize
                    && exists i :: 0 <= i < 5 && retries[i] == r && forall j | 0 <= j < i :: retries[j].Err?)
                || ((materialize ==> forall i | 0 <= i < 5 :: retries[i].Err?)
                    && Shows(r.value, Cached(Clean(Split(filename).0))[Split(filename).1]))
    {
      hide CleanKey, Cached, Clean;
      assert Probe(base.Space(), CleanKey(filename)).Some? <==> CleanKey(filename) in base.files;
      r := base.Get(filename);
      if r.Ok? { return; }
      if lister.None? {
        NothingCached(Clean(Split(filename).0));
        return;
      }
      var dir, name := Split(filename).0, Split(filename).1;
      var entries := ListCached(Clean(dir));
      if name !in entries.entries { return; }
      if materialize {
        var i := 0;
        while i < 5
          invariant 0 <= i <= 5 && forall j | 0 <= j < i :: retries[j].Err?
        {
          if retries[i].Ok? { return retries[i]; }
          i := i + 1;
        }
      }
      return Ok(entries.entries[name]);
    }

    /** Whether ReadDir of `d` names `n`. */
    ghost predicate Lists(d: string, n: string)
      reads base, base.children.Values
    {
      n in base.ListedAt(CleanKey(d)) || n in Cached(d)
    }

    /** Whatever a listing names can be opened: with any index where cleaning the directory changes
        nothing the index sees, and in any directory with an index of clean paths. */
    lemma ListedOpens(d: string, n: string)
      requires Coherent(base.Tree()) && Lists(d, n)
      requires Stable(d) || (lister.Some? ==> CleanIndex(lister.value))
      ensures Opens(d + "/" + n)
    {
      hide CleanKey, Clean, RouteListing, IsName;
      if n in base.ListedAt(CleanKey(d)) {
        CleanKeyIsKey(d);
        assert n in base.Tree().listed[CleanKey(d)];
        assert IsName(n);
        ListingIsChildren(base.Tree(), CleanKey(d), n);
        CleanKeyOfChild(d, n);
      } else {
        CachedOpens(lister.value, d, n);
      }
    }

    /** With any index, where cleaning the directory changes nothing the index sees, a listing names
        exactly what can be opened. */
    lemma ListsIffOpens(d: string, n: string)
      requires Coherent(base.Tree()) && IsName(n)
      requires Stable(d)
      ensures Lists(d, n) <==> Opens(d + "/" + n)
    {
      hide CleanKey, Clean, IsName, TrimSlash;
      assert base.Tree().listed == base.Listed();
      CleanKeyIsKey(d);
      NameHasNoSlash(n);
      SplitUnique(d + "/", n);
      CleanKeyOfChild(d, n);
      ListingIsChildren(base.Tree(), CleanKey(d), n);
      CachedByTrim(d);
    }

    lemma CachedByTrim(d: string)
      requires Stable(d)
      ensures Cached(Clean(d + "/")) == Cached(d)
    {
      hide Clean, TrimSlash, ListingOf;
    }

    /** A torrent named a//b, files unknown, is listed as b under "a/", and does not open there unless the
        base has it. */
    lemma UncleanNameListsUnopenable()
      requires lister.Some? && BuiltFrom(lister.value, RawName("a//b"), "r") && CleanKey("a//b") !in base.files
      ensures Lists("a/", "b") && !Opens("a/" + "/" + "b")
    {
      hide CleanKey, Clean, RouteListing;
      UncleanNameMissed(lister.value);
      SplitUnique("a//", "b");
      assert "a/" + "/" + "b" == "a//" + "b" == "a//b";
    }
  }

  // ---------- Paths ----------

  /** Cleaning the directory changes nothing but a leading slash. */
  predicate Stable(d: string) {
    TrimSlash(Clean(d + "/")) == TrimSlash(d)
  }

  /** The root and every key are such directories. */
  lemma KeysAreStable(d: string)
    requires d == "" || IsKey(d)
    ensures Stable(d)
  {
    if d == "" {
      CleanOfSlashes();
    } else {
      hide JoinSegments, Segments, PushAll, CleanKey;
      KeyIsRender(d);
      NamesCanonical(KeySteps(d));
      StepsOfRender(true, KeySteps(d));
      CleanTrailingSlash(d);
    }
  }

  lemma KeySegments(p: string)
    requires IsKey(p) && p != "/"
    ensures KeySteps(p) != [] && Segments(p) == [""] + KeySteps(p) && Names(KeySteps(p))
  {
    hide JoinSegments, Segments, PushAll, CleanKey, Names;
    var st := KeySteps(p);
    KeyIsRender(p);
    NoNames(st);
    NamesHaveNoSlash(st);
    SegmentsOfJoin(st);
    SegmentsOfName("");
    SegmentsConcat("", JoinSegments(st));
    assert p == "" + "/" + JoinSegments(st);
  }

  lemma NoNames(st: seq<string>)
    ensures st == [] ==> Render(true, st) == "/"
  {
  }

  lemma NamesHaveNoSlash(st: seq<string>)
    requires Names(st)
    ensures forall i | 0 <= i < |st| :: '/' !in st[i]
  {
  }

  /** So is what a mount is asked to list when its match stops at a segment boundary: the rest of a key. */
  lemma SuffixIsStable(m: string, p: string)
    requires IsKey(m) && IsKey(p) && m <= p && AtBoundary(m, p)
    ensures Stable(p[|m|..])
  {
    hide CleanKey, Segments, JoinSegments, PushAll, Stable, Names, Base;
    var s := p[|m|..];
    if s == "" {
      KeysAreStable(s);
    } else if m == "/" {
      assert p == "" + "/" + s && p != "/";
      KeySegments(p);
      SegmentsOfName("");
      SegmentsConcat("", s);
      SuffixNames(KeySteps(p), [""], Segments(s));
      RelativeIsStable(s);
    } else {
      var rest := s[1..];
      RootSplit(m);
      assert p == m + "/" + rest && s == "/" + rest;
      KeySegments(p);
      SegmentsConcat(m, rest);
      SuffixNames(KeySteps(p), Segments(m), Segments(rest));
      RestIsKey(rest);
      KeysAreStable(s);
    }
  }

  lemma SuffixNames(st: seq<string>, a: seq<string>, b: seq<string>)
    requires Names(st) && [""] + st == a + b && a != []
    ensures Names(b)
  {
    hide IsName;
    forall i | 0 <= i < |b| ensures IsName(b[i]) {
      assert b[i] == (a + b)[|a| + i] == ([""] + st)[|a| + i];
    }
  }

  lemma RestIsKey(rest: string)
    requires Names(Segments(rest))
    ensures IsKey("/" + rest)
  {
    hide Segments, JoinSegments, CleanKey, Names;
    JoinOfSegments(rest);
    KeyOfNames(Segments(rest));
  }

  /** A relative path of proper names is stable. */
  lemma RelativeIsStable(s: string)
    requires Names(Segments(s)) && s != ""
    ensures Stable(s)
  {
    hide Segments, JoinSegments, PushAll, Names;
    var st := Segments(s);
    JoinOfSegments(s);
    NamesAreRelative(st);
    StepsOfRender(false, st);
    CleanTrailingSlash(s);
  }

  /** Cleaning a path with one more proper step cleans the path and keeps the step. */
  lemma CleanKeyOfChild(d: string, n: string)
    requires IsName(n)
    ensures CleanKey(d + "/" + n) == Child(CleanKey(d), n)
  {
    hide Steps, Slashes, Render, Names, IsName;
    SlashesOfChild(d, n);
    StepsOfChild("/" + Slashes(d), n);
    RenderChild(KeySteps(d), n);
    KeyStepsAreNames(d);
    RenderNotRoot(KeySteps(d));
  }

  lemma SlashesOfChild(d: string, n: string)
    requires IsName(n)
    ensures "/" + Slashes(d + "/" + n) == "/" + Slashes(d) + "/" + n
  {
    hide Slashes;
    SlashesConcat(d + "/", n);
    SlashesConcat(d, "/");
    SlashesOfClean(n);
    SlashesOfClean("/");
  }

  lemma StepsOfChild(a: string, n: string)
    requires IsName(n) && IsRooted(a)
    ensures IsRooted(a + "/" + n) && Steps(a + "/" + n) == Steps(a) + [n]
  {
    hide Segments, PushAll;
    SegmentsConcat(a, n);
    SegmentsOfName(n);
    PushAllAppend(true, [], Segments(a), [n]);
    PushOne(true, PushAll(true, [], Segments(a)), n);
  }

  lemma RenderNotRoot(st: seq<string>)
    requires Names(st)
    ensures st != [] ==> Render(true, st) != "/"
  {
    if st != [] { JoinNonEmpty(st); }
  }

  lemma {:induction false} SlashesConcat(a: string, b: string)
    ensures Slashes(a + b) == Slashes(a) + Slashes(b)
  {
    assert |Slashes(a + b)| == |Slashes(a) + Slashes(b)|;
    forall i | 0 <= i < |a + b| ensures Slashes(a + b)[i] == (Slashes(a) + Slashes(b))[i] {}
  }

  lemma NameHasNoSlash(n: string)
    requires IsName(n)
    ensures '/' !in n
  {
  }

  /** Indexed paths that are clean, relative and stay inside the route. */
  ghost predicate CleanIndex(oi: Index) {
    forall k | k in oi.files :: IsClean(k) && !IsRooted(k) && k != "." && Steps(k) != [] && Steps(k)[0] != ".."
  }

  lemma ListedKey(oi: Index, d: string, n: string)
    ensures n in RouteListing(oi, d) <==> exists k :: k in oi.files && Contribution(TrimSlash(d), k) != Nothing
                                                     && Contribution(TrimSlash(d), k).name == n
  {
    hide Contribution;
  }

  lemma ContributionName(base: string, k: string)
    requires Contribution(base, k) != Nothing
    ensures '/' !in Contribution(base, k).name
  {
  }

  lemma CleanOfSlashes()
    ensures Clean("/") == "/" && Clean("//") == "/"
  {
    StepsOfRender(true, []);
    assert Render(true, []) == "/";
    assert "//" == "/" + "/";
    CleanTrailingSlash("/");
  }

  lemma {:induction false} NoDotDot(st: seq<string>)
    requires Canonical(false, st) && st != [] && st[0] != ".."
    ensures Canonical(true, st)
  {
  }

  /** A directory that has indexed paths below it is named the same after cleaning. */
  lemma CleanOfListed(oi: Index, d: string, k: string)
    requires CleanIndex(oi) && k in oi.files && Contribution(TrimSlash(d), k) != Nothing
    ensures Stable(d)
  {
    hide Clean, Segments, JoinSegments, PushAll, Steps;
    var base := TrimSlash(d);
    if base == "" {
      CleanOfSlashes();
      assert d + "/" == "/" || d + "/" == "//";
    } else {
      assert base + "/" <= k;
      var rest := k[|base| + 1..];
      assert k == base + "/" + rest && k[0] == base[0];
      StepsOfCut(base, rest);
      assert Steps(k)[0] == Steps(base)[0];
      CleanIsRender(base);
      if d == base {
        CleanTrailingSlash(d);
      } else {
        assert d == "/" + base;
        NoDotDot(Steps(base));
        assert Render(true, Steps(base)) == d;
        StepsOfRender(true, Steps(base));
        CleanTrailingSlash(d);
      }
    }
  }

  /** A name the index lists under `d` is found again by Open, which cleans the directory. */
  lemma CachedOpens(oi: Index, d: string, n: string)
    requires (CleanIndex(oi) || Stable(d)) && n in RouteListing(oi, d)
    ensures Split(d + "/" + n).1 == n && n in RouteListing(oi, Clean(Split(d + "/" + n).0))
  {
    hide Contribution, Clean, TrimSlash;
    ListedKey(oi, d, n);
    var k :| k in oi.files && Contribution(TrimSlash(d), k) != Nothing && Contribution(TrimSlash(d), k).name == n;
    ContributionName(TrimSlash(d), k);
    SplitUnique(d + "/", n);
    if !Stable(d) { CleanOfListed(oi, d, k); }
    ListedKey(oi, Clean(d + "/"), n);
  }

  // ---------- Directories that cleaning changes ----------

  /** What Open looks a name of `d` up in: path.Split and path.Clean of the joined name. */
  lemma OpenLooksIn(oi: Index, d: string, n: string)
    requires n in RouteListing(oi, d)
    ensures Split(d + "/" + n) == (d + "/", n)
  {
    hide Contribution, TrimSlash;
    ListedKey(oi, d, n);
    var k :| k in oi.files && Contribution(TrimSlash(d), k) != Nothing && Contribution(TrimSlash(d), k).name == n;
    ContributionName(TrimSlash(d), k);
    SplitUnique(d + "/", n);
  }

  /** The indexes buildOverlayIndexes can make, as far as names go. */
  ghost predicate BuiltFrom(oi: Index, cached: Cache, route: string) {
    oi.files.Keys == KeysOf(cached, route, cached.Keys)
  }

  /** Whatever an index that can be built lists under `d` is found again by Open. */
  ghost predicate AlwaysFoundAgain(d: string) {
    forall oi, cached, route, n | BuiltFrom(oi, cached, route) && n in RouteListing(oi, d) ::
      n in RouteListing(oi, Clean(d + "/"))
  }

  /** Every name listed under `d` can be opened, whatever was cached, exactly when cleaning `d` changes
      nothing but a leading slash. */
  lemma FoundAgainIff(d: string)
    ensures AlwaysFoundAgain(d) <==> Stable(d)
  {
    hide Clean, TrimSlash, KeysOf, ListingOf;
    var b, c := TrimSlash(d), TrimSlash(Clean(d + "/"));
    if b != c {
      var n := LongName(|b| + 1);
      var cached := RawName(KeyOf(b, n));
      var oi := Index(map[KeyOf(b, n) := InfoDir(0)], map[]);
      RawNameKeys(oi, KeyOf(b, n));
      ToldApart(b, c, n);
      ListedKey(oi, d, n);
      ListedKey(oi, Clean(d + "/"), n);
      assert BuiltFrom(oi, cached, "r") && n in RouteListing(oi, d) && n !in RouteListing(oi, Clean(d + "/"));
    }
  }

  /** A cached torrent whose files are not known yet: its raw name becomes a path of the index. */
  function RawName(name: string): Cache {
    map["h" := Summary("r", name, 0, 0, 0, [])]
  }

  lemma RawNameKeys(oi: Index, name: string)
    requires name != "" && oi.files.Keys == {name}
    ensures BuiltFrom(oi, RawName(name), "r")
  {
    hide EntryOf;
    var cached := RawName(name);
    assert EntriesOf(cached, "r", cached.Keys) == map[];
    assert InRoute(cached, "r", "h");
  }

  function LongName(n: nat): (s: string)
    ensures |s| == n && '/' !in s
  {
    seq(n, i => 'x')
  }

  /** The path of a long name in `b` shows that name in `b` and in no other directory. */
  lemma ToldApart(b: string, c: string, n: string)
    requires b != c && '/' !in n && |n| > |b|
    ensures KeyOf(b, n) != "" && Contribution(b, KeyOf(b, n)) == Explicit(n)
    ensures Contribution(c, KeyOf(b, n)) != Nothing ==> Contribution(c, KeyOf(b, n)).name != n
  {
    hide IndexSlash;
    var k := KeyOf(b, n);
    PrefixEndsAtSlash(c, k);
    SlashesIn(b, n);
    if b != "" {
      assert b + "/" <= k && k[|b| + 1..] == n && k[|b|] == '/';
      FirstSlashBy(k, |b|);
      if c != "" && c + "/" <= k {
        assert |c| < |b| && k[|c| + 1..][|b| - |c| - 1] == '/';
        FirstSlashBy(k[|c| + 1..], |b| - |c| - 1);
      }
    }
  }

  lemma PrefixEndsAtSlash(c: string, k: string)
    ensures c + "/" <= k ==> |c| < |k| && k[|c|] == '/' && c == k[..|c|]
  {
    assert (c + "/")[|c|] == '/' && (c + "/")[..|c|] == c;
  }

  /** The slashes of a path with a plain last name are those of its directory, and the one between. */
  lemma SlashesIn(b: string, n: string)
    requires '/' !in n
    ensures b == "" ==> '/' !in KeyOf(b, n)
    ensures b != "" ==> KeyOf(b, n)[..|b|] == b && forall m | |b| < m < |KeyOf(b, n)| :: KeyOf(b, n)[m] != '/'
  {
    if b != "" {
      forall m | |b| < m < |KeyOf(b, n)| ensures KeyOf(b, n)[m] != '/' {
        assert KeyOf(b, n)[m] == n[m - |b| - 1];
      }
    }
  }

  lemma FirstSlashBy(s: string, i: nat)
    requires i < |s| && s[i] == '/'
    ensures 0 <= IndexSlash(s) <= i
  {
    forall r | i < r <= |s| ensures '/' in s[..r] { assert s[..r][i] == '/'; }
  }

  lemma UncleanNameMissed(oi: Index)
    requires BuiltFrom(oi, RawName("a//b"), "r")
    ensures "b" in RouteListing(oi, "a/") && "b" !in RouteListing(oi, Clean("a/" + "/"))
  {
    hide KeysOf, ListingOf, Clean, Contribution;
    RawNameKeys(Index(map["a//b" := InfoDir(0)], map[]), "a//b");
    assert oi.files.Keys == {"a//b"};
    CleanOfTwoSlashes();
    UncleanContributions();
    ListedKey(oi, "a/", "b");
    ListedKey(oi, "a", "b");
  }

  lemma UncleanContributions()
    ensures Contribution("a/", "a//b") == Explicit("b") && Contribution("a", "a//b") == Derived("")
  {
    assert "a/" + "/" <= "a//b" && "a//b"[3..] == "b";
    assert "a" + "/" <= "a//b" && "a//b"[2..] == "/b" && "/b"[..0] == "";
  }

  lemma CleanOfTwoSlashes()
    ensures Clean("a/" + "/") == "a"
  {
    hide Steps, Segments, PushAll, Render, JoinSegments;
    RenderedName("a");
    assert "a/" == "a" + "/";
    CleanTrailingSlash("a");
    CleanTrailingSlash("a/");
  }

  lemma RenderedName(n: string)
    requires IsName(n)
    ensures Clean(n) == n
  {
    hide Segments, PushAll, Steps, Clean;
    JoinOne(n);
    StepsOfRender(false, [n]);
  }
}
