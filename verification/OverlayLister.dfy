/** torrent/overlay_lister.go: listing one directory out of a route's index. */
module OverlayLister {
  import opened Int64
  import opened OverlayIndex
  import opened Paths
  import opened PathTrees
  import opened Totals

  /** What one indexed path adds to the listing of `base`. */
  datatype Found = Nothing | Explicit(name: string) | Derived(name: string)

  function TrimSlash(prefix: string): string {
    if prefix != "" && prefix[0] == '/' then prefix[1..] else prefix
  }

  function Contribution(base: string, p: string): Found {
    if base == "" then
      var i := IndexSlash(p);
      if i >= 0 then Derived(p[..i]) else Explicit(p)
    else if base + "/" <= p + "/" then
      var rest := if base + "/" <= p then p[|base| + 1..] else p;
      if rest == p then Nothing
      else
        var j := IndexSlash(rest);
        if j >= 0 then Derived(rest[..j]) else if rest != "" then Explicit(rest) else Nothing
    else Nothing
  }

  function KeyOf(base: string, n: string): string {
    if base == "" then n else base + "/" + n
  }

  function SubOf(base: string, n: string): string {
    if base == "" then n else Join(base, n)
  }

  ghost function NamesIn(keys: set<string>, base: string): set<string> {
    set p | p in keys && Contribution(base, p) != Nothing :: Contribution(base, p).name
  }

  /** The entry shown for `n` once the paths `keys` were seen: an explicit one if there is one. */
  ghost function Shown(oi: Index, keys: set<string>, base: string, n: string): Placeholder
    requires keys <= oi.files.Keys
  {
    if KeyOf(base, n) in keys && Contribution(base, KeyOf(base, n)) == Explicit(n) then oi.files[KeyOf(base, n)]
    else InfoDir(SizeAt(oi.dirSize, SubOf(base, n)))
  }

  ghost function ListingOf(oi: Index, keys: set<string>, base: string): map<string, Placeholder>
    requires keys <= oi.files.Keys
  {
    map n | n in NamesIn(keys, base) :: Shown(oi, keys, base, n)
  }

  /** The listing of `prefix`, independent of any order. */
  ghost function RouteListing(oi: Index, prefix: string): map<string, Placeholder> {
    ListingOf(oi, oi.files.Keys, TrimSlash(prefix))
  }

  /** A leading slash makes no difference. */
  lemma RootedListing(oi: Index, d: string)
    requires !IsRooted(d)
    ensures RouteListing(oi, "/" + d) == RouteListing(oi, d)
  {
    hide ListingOf;
    assert ("/" + d)[1..] == d;
  }

  /** `prefix` names the directory `d`, with or without a leading slash. */
  predicate AsksFor(prefix: string, d: string) {
    prefix == d || prefix == "/" + d
  }

  lemma NamedListing(oi: Index, prefix: string, d: string)
    requires !IsRooted(d) && AsksFor(prefix, d)
    ensures RouteListing(oi, prefix) == RouteListing(oi, d)
  {
    RootedListing(oi, d);
  }

  lemma ExplicitKey(base: string, p: string)
    ensures match Contribution(base, p) case Explicit(n) => p == KeyOf(base, n) case _ => true
  {
  }

  /** routeLister: whatever order the map yields its paths in, the listing is the same. */
  method List(oi: Index, prefix: string) returns (out: map<string, Placeholder>)
    ensures out == RouteListing(oi, prefix)
  {
    hide Contribution, SubOf, KeyOf, SizeAt, ListingOf;
    var base := TrimSlash(prefix);
    out := map[];
    var rest := oi.files.Keys;
    ghost var seen: set<string> := {};
    NothingSeen(oi, base);
    while rest != {}
      invariant rest <= oi.files.Keys && seen == oi.files.Keys - rest
      invariant out == ListingOf(oi, seen, base)
      decreases |rest|
    {
      var p :| p in rest;
      ListingStep(oi, seen, base, p);
      match Contribution(base, p) {
        case Nothing =>
        case Explicit(n) =>
          out := out[n := oi.files[p]];
        case Derived(n) =>
          if n !in out {
            out := out[n := InfoDir(SizeAt(oi.dirSize, SubOf(base, n)))];
          }
      }
      rest := rest - {p};
      seen := seen + {p};
    }
    assert seen == oi.files.Keys;
  }

  lemma NothingSeen(oi: Index, base: string)
    ensures ListingOf(oi, {}, base) == map[]
  {
  }

  lemma ListingStep(oi: Index, seen: set<string>, base: string, p: string)
    requires seen <= oi.files.Keys && p in oi.files && p !in seen
    ensures ListingOf(oi, seen + {p}, base) ==
            var before := ListingOf(oi, seen, base);
            match Contribution(base, p)
            case Nothing => before
            case Explicit(n) => before[n := oi.files[p]]
            case Derived(n) => if n in before then before else before[n := InfoDir(SizeAt(oi.dirSize, SubOf(base, n)))]
  {
    hide Contribution, SubOf, KeyOf, SizeAt, NamesIn, Shown;
    ShownSkips(oi, seen, base, p);
    DerivedKey(oi, seen, base, p);
  }

  /** Seeing one more path changes only the entry it is explicit for. */
  lemma ShownSkips(oi: Index, seen: set<string>, base: string, p: string)
    requires seen <= oi.files.Keys && p in oi.files && p !in seen
    ensures NamesIn(seen + {p}, base) ==
            NamesIn(seen, base) + if Contribution(base, p) == Nothing then {} else {Contribution(base, p).name}
    ensures forall n | Contribution(base, p) != Explicit(n) ::
            Shown(oi, seen + {p}, base, n) == Shown(oi, seen, base, n)
    ensures match Contribution(base, p)
            case Explicit(n) => Shown(oi, seen + {p}, base, n) == oi.files[p]
            case _ => true
  {
    hide Contribution, SubOf, SizeAt;
    ExplicitKey(base, p);
  }

  /** A name met first through a deeper path is shown as a directory. */
  lemma DerivedKey(oi: Index, seen: set<string>, base: string, p: string)
    requires seen <= oi.files.Keys && p in oi.files
    ensures match Contribution(base, p)
            case Derived(n) =>
              n !in NamesIn(seen, base) ==> Shown(oi, seen, base, n) == InfoDir(SizeAt(oi.dirSize, SubOf(base, n)))
            case _ => true
  {
    hide Contribution, SubOf, KeyOf, SizeAt;
  }

  // ---------- The listing is the next level of the tree ----------

  lemma {:induction false} JoinConcat(a: seq<string>, b: seq<string>)
    requires |a| > 0 && |b| > 0
    ensures JoinSegments(a + b) == JoinSegments(a) + "/" + JoinSegments(b)
  {
    var init, last := b[..|b| - 1], b[|b| - 1];
    assert (a + b)[..|a + b| - 1] == a + init;
    JoinSegmentsInit(a + b);
    if init == [] {
      assert a + init == a;
      JoinOne(last);
      assert b == [last];
    } else {
      JoinConcat(a, init);
      JoinSegmentsInit(b);
      hide JoinSegments;
      assert JoinSegments(a) + "/" + JoinSegments(init) + "/" + last
             == JoinSegments(a) + "/" + (JoinSegments(init) + "/" + last);
    }
  }

  /** At the top of a route every clean path shows its first step. */
  lemma TopContribution(p: string)
    requires IsClean(p) && !IsRooted(p) && p != "."
    ensures |Steps(p)| >= 1
    ensures Contribution("", p) == if |Steps(p)| == 1 then Explicit(Steps(p)[0]) else Derived(Steps(p)[0])
  {
    StepsOfRelative(p);
    FirstSegment(p);
    hide Segments, Steps;
    if |Segments(p)| == 1 { assert IndexSlash(p) < 0; }
  }

  /** Below a directory exactly the paths below it contribute, each with its next step. */
  lemma DeepContribution(base: string, p: string)
    requires IsClean(p) && !IsRooted(p) && base != "" && !IsRooted(base)
    ensures Contribution(base, p) != Nothing <==> ProperlyAbove(base, p)
    ensures ProperlyAbove(base, p) ==>
              |Steps(base)| < |Steps(p)| &&
              var n := Steps(p)[|Steps(base)|];
              Contribution(base, p) == if |Steps(p)| == |Steps(base)| + 1 then Explicit(n) else Derived(n)
  {
    if base + "/" <= p {
      var rest := p[|base| + 1..];
      assert p == base + "/" + rest;
      CutContribution(base, p, rest);
    } else {
      assert Contribution(base, p) == Nothing;
      if ProperlyAbove(base, p) { AboveIsCut(base, p); }
    }
  }

  lemma CutContribution(base: string, p: string, rest: string)
    requires IsClean(p) && !IsRooted(p) && base != "" && !IsRooted(base) && p == base + "/" + rest
    ensures ProperlyAbove(base, p) && |Steps(base)| < |Steps(p)|
    ensures var n := Steps(p)[|Steps(base)|];
            Contribution(base, p) == if |Steps(p)| == |Steps(base)| + 1 then Explicit(n) else Derived(n)
  {
    hide Segments, Steps, Clean, Render, JoinSegments;
    StepsOfCut(base, rest);
    FirstSegment(rest);
    AboveIsPrefix(base, p);
    assert base + "/" <= p + "/" && p[|base| + 1..] == rest;
  }

  lemma AboveIsCut(base: string, p: string)
    requires ProperlyAbove(base, p) && IsClean(p) && !IsRooted(p)
    ensures base + "/" <= p
  {
    hide Steps, Clean, JoinSegments;
    AboveIsClean(base, p);
    AboveIsPrefix(base, p);
    CleanIsRender(base);
    CleanIsRender(p);
    var sb, sp := Steps(base), Steps(p);
    assert sp == sb + sp[|sb|..];
    JoinConcat(sb, sp[|sb|..]);
  }

  /** The top of a route, asked for as "" or "/", lists exactly the first steps of its paths. */
  lemma TopNames(oi: Index, prefix: string, n: string)
    requires forall k | k in oi.files :: IsClean(k) && !IsRooted(k) && k != "."
    requires AsksFor(prefix, "")
    ensures n in RouteListing(oi, prefix) <==> exists k :: k in oi.files && Steps(k) != [] && Steps(k)[0] == n
    ensures n in RouteListing(oi, prefix) ==>
              RouteListing(oi, prefix)[n]
              == if n in oi.files && |Steps(n)| == 1 then oi.files[n] else InfoDir(SizeAt(oi.dirSize, n))
  {
    hide Contribution, Steps, Clean;
    NamedListing(oi, prefix, "");
    NamesListed(oi, "");
    forall k | k in oi.files { TopContribution(k); }
    if n in oi.files { OneStepIsName(n); }
  }

  lemma OneStepIsName(n: string)
    requires IsClean(n) && !IsRooted(n) && n != "."
    ensures |Steps(n)| == 1 ==> Steps(n)[0] == n
  {
    CleanIsRender(n);
    if |Steps(n)| == 1 {
      JoinOne(Steps(n)[0]);
      assert Steps(n) == [Steps(n)[0]];
    }
  }

  // ---------- Conservation of sizes, level by level ----------

  /** An index whose entries are tidy: the entries are clean, apart, and recorded with their
      lengths, and whatever else is recorded is a torrent's root. */
  ghost predicate TidyIndex(oi: Index, entries: Entries) {
    && Apart(entries) && SumsOf(oi.dirSize, entries)
    && (forall e | e in entries :: IsClean(entries[e].path) && !IsRooted(entries[e].path) && entries[e].path != ".")
    && (forall e | e in entries :: InRange(entries[e].length))
    && (forall e | e in entries ::
          entries[e].path in oi.files && oi.files[entries[e].path] == InfoFile(entries[e].length))
    && (forall k | k in oi.files :: OneStep(k) || exists e :: e in entries && entries[e].path == k)
  }

  /** The child of `d` that `p`, somewhere below `d`, lies in or is. */
  function StepBelow(d: string, p: string): string {
    if |Steps(d)| < |Steps(p)| then Steps(p)[|Steps(d)|] else ""
  }

  ghost function StepsBelow(entries: Entries, d: string): map<(string, nat), string> {
    map e | e in entries && ProperlyAbove(d, entries[e].path) :: StepBelow(d, entries[e].path)
  }

  ghost function SizesOf(listing: map<string, Placeholder>): map<string, int> {
    map n | n in listing :: listing[n].size
  }

  lemma OneStepNotBelow(d: string, k: string)
    requires OneStep(k)
    ensures !ProperlyAbove(d, k)
  {
  }

  /** Below the root a directory lists exactly the next steps of the entries under it. */
  lemma ListedNames(oi: Index, entries: Entries, prefix: string, d: string)
    requires TidyIndex(oi, entries) && IsClean(d) && !IsRooted(d) && d != "." && d != "" && AsksFor(prefix, d)
    ensures forall n :: n in RouteListing(oi, prefix) <==> n in StepsBelow(entries, d).Values
  {
    hide Contribution, Steps, Clean, SumsOf, Apart, OneStep, ProperlyAbove;
    NamedListing(oi, prefix, d);
    forall k | k in oi.files
      ensures Contribution(d, k) != Nothing ==>
                Contribution(d, k).name == StepBelow(d, k)
                && exists e :: e in entries && ProperlyAbove(d, entries[e].path) && entries[e].path == k
      ensures (exists e :: e in entries && ProperlyAbove(d, entries[e].path) && entries[e].path == k) ==>
                Contribution(d, k) != Nothing
    {
      if OneStep(k) { OneStepNotBelow(d, k); OneStepIsClean(k); }
      DeepContribution(d, k);
    }
    NamesListed(oi, d);
    forall n | n in RouteListing(oi, d) ensures n in StepsBelow(entries, d).Values {
      var k :| k in oi.files && Contribution(d, k) != Nothing && Contribution(d, k).name == n;
      var e :| e in entries && ProperlyAbove(d, entries[e].path) && entries[e].path == k;
      assert StepsBelow(entries, d)[e] == n;
    }
    forall n | n in StepsBelow(entries, d).Values ensures n in RouteListing(oi, d) {
      var e :| e in StepsBelow(entries, d) && StepsBelow(entries, d)[e] == n;
      assert Contribution(d, entries[e].path) != Nothing;
    }
  }

  lemma OneStepIsClean(k: string)
    requires OneStep(k)
    ensures IsClean(k) && !IsRooted(k)
  {
  }

  lemma NamesListed(oi: Index, d: string)
    requires !IsRooted(d)
    ensures forall n :: n in RouteListing(oi, d) <==>
                        exists k :: k in oi.files && Contribution(d, k) != Nothing && Contribution(d, k).name == n
  {
    hide Contribution;
    assert TrimSlash(d) == d;
  }

  /** The child of `d` on the way to `p`, as a path. */
  lemma ChildPath(d: string, p: string)
    requires IsClean(d) && !IsRooted(d) && IsClean(p) && ProperlyAbove(d, p)
    ensures var c := d + "/" + StepBelow(d, p);
            IsClean(c) && !IsRooted(c) && c != "." && Steps(c) == Steps(d) + [StepBelow(d, p)]
              && Join(d, StepBelow(d, p)) == c
    ensures d != "" && |Steps(d)| >= 1
  {
    hide Steps, Clean, JoinSegments, Segments;
    AboveIsPrefix(d, p);
    CleanIsRender(d);
    CleanIsRender(p);
    var k := |Steps(d)| + 1;
    UptoSteps(p, k);
    assert Steps(p)[..k][..k - 1] == Steps(d) && Steps(p)[..k] == Steps(d) + [StepBelow(d, p)];
    JoinSegmentsInit(Steps(p)[..k]);
    assert Upto(p, k) == d + "/" + StepBelow(d, p);
    assert StepBelow(d, p) == Steps(p)[k - 1] != "";
    TopOfUpto(p, k);
  }

  /** Lying below `d` through the step to `c` means being `c` or lying below it. */
  lemma BelowChild(d: string, c: string, n: string, q: string)
    requires IsClean(d) && IsClean(c) && IsClean(q) && !IsRooted(d) && !IsRooted(c) && !IsRooted(q)
    requires |Steps(d)| >= 1 && Steps(c) == Steps(d) + [n]
    ensures ProperlyAbove(d, q) && StepBelow(d, q) == n <==> q == c || ProperlyAbove(c, q)
  {
    hide Steps, Clean, Render, ProperlyAbove;
    AboveIsPrefix(d, q);
    AboveIsPrefix(c, q);
    CleanIsRender(c);
    CleanIsRender(q);
    var sd, sc, sq := Steps(d), Steps(c), Steps(q);
    if |sd| < |sq| && sd == sq[..|sd|] && sq[|sd|] == n {
      assert sq[..|sc|] == sc;
      if |sq| == |sc| { assert sq == sc; }
    }
    if |sc| <= |sq| && sc == sq[..|sc|] {
      assert sq[..|sd|] == sc[..|sd|] == sd && sq[|sd|] == sc[|sd|] == n;
    }
    if q == c { assert sq[..|sc|] == sc; }
  }

  lemma SharedStep(oi: Index, entries: Entries, d: string, n: string, c: string)
    requires TidyIndex(oi, entries) && IsClean(d) && !IsRooted(d) && IsClean(c) && !IsRooted(c)
    requires |Steps(d)| >= 1 && Steps(c) == Steps(d) + [n]
    ensures var group := Group(Below(entries, d), StepsBelow(entries, d), n);
            if c in oi.files
            then oi.files[c].InfoFile? && InRange(oi.files[c].size) && exists e :: group == map[e := oi.files[c].size]
            else group == Below(entries, c)
  {
    hide Steps, Clean, Apart, SumsOf, OneStep, StepBelow, ProperlyAbove;
    var b, g := Below(entries, d), StepsBelow(entries, d);
    var group := Group(b, g, n);
    forall e | e in entries
      ensures e in group <==> entries[e].path == c || ProperlyAbove(c, entries[e].path)
    {
      BelowChild(d, c, n, entries[e].path);
    }
    if c in oi.files {
      assert !OneStep(c) by { NotOneStep(c); }
      var e0 :| e0 in entries && entries[e0].path == c;
      forall e | e in group ensures e == e0 { OnlyOne(entries, e0, e); }
      assert group == map[e0 := oi.files[c].size];
    }
  }

  lemma NotOneStep(c: string)
    requires |Steps(c)| >= 2
    ensures !OneStep(c)
  {
  }

  lemma OnlyOne(entries: Entries, e0: (string, nat), e: (string, nat))
    requires Apart(entries) && e0 in entries && e in entries
    requires entries[e].path == entries[e0].path || ProperlyAbove(entries[e0].path, entries[e].path)
    ensures e == e0
  {
  }

  lemma SingleTotal<K>(m: map<K, int>, k: K, v: int)
    requires m == map[k := v]
    ensures Total(m) == v
  {
    TotalAt(m, k);
    assert m - {k} == map[];
  }

  /** Each listed child shows the size of the entries it stands for. */
  lemma ListedSize(oi: Index, entries: Entries, prefix: string, d: string, n: string)
    requires TidyIndex(oi, entries) && IsClean(d) && !IsRooted(d) && d != "." && d != "" && AsksFor(prefix, d)
    requires n in StepsBelow(entries, d).Values && n in RouteListing(oi, prefix)
    ensures RouteListing(oi, prefix)[n].size == Wrap(Total(Group(Below(entries, d), StepsBelow(entries, d), n)))
  {
    hide Steps, Clean, Apart, OneStep, Wrap, Total, Contribution, Group, ProperlyAbove, StepBelow, Join;
    NamedListing(oi, prefix, d);
    var e :| e in StepsBelow(entries, d) && StepsBelow(entries, d)[e] == n;
    var p := entries[e].path;
    ChildPath(d, p);
    var c := d + "/" + n;
    SharedStep(oi, entries, d, n, c);
    ShownBelow(oi, d, n, c);
    var group := Group(Below(entries, d), StepsBelow(entries, d), n);
    if c in oi.files {
      var e0 :| group == map[e0 := oi.files[c].size];
      SingleTotal(group, e0, oi.files[c].size);
    }
  }

  lemma ShownBelow(oi: Index, d: string, n: string, c: string)
    requires IsClean(d) && !IsRooted(d) && d != "" && IsClean(c) && !IsRooted(c) && c == d + "/" + n && Join(d, n) == c
    requires |Steps(d)| >= 1 && Steps(c) == Steps(d) + [n] && n in RouteListing(oi, d)
    ensures RouteListing(oi, d)[n] == if c in oi.files then oi.files[c] else InfoDir(SizeAt(oi.dirSize, c))
  {
    hide Steps, Clean, Contribution, Join;
    assert TrimSlash(d) == d;
    AboveIsPrefix(d, c);
    assert Steps(c)[..|Steps(d)|] == Steps(d);
    DeepContribution(d, c);
  }

  /** Conservation: in a tidy index the sizes listed for the children of any directory below the
      root add up to the size recorded for it. */
  lemma ChildSizesAddUp(oi: Index, entries: Entries, prefix: string, d: string)
    requires TidyIndex(oi, entries) && IsClean(d) && !IsRooted(d) && d != "." && d != "" && AsksFor(prefix, d)
    ensures Wrap(Total(SizesOf(RouteListing(oi, prefix)))) == SizeAt(oi.dirSize, d)
  {
    hide Steps, Clean, Apart, OneStep, Wrap, Total, Contribution, ProperlyAbove, StepBelow, RouteListing, Group, SizeAt;
    var b, g, listing := Below(entries, d), StepsBelow(entries, d), RouteListing(oi, prefix);
    ListedNames(oi, entries, prefix, d);
    forall n | n in listing { ListedSize(oi, entries, prefix, d, n); }
    var totals := GroupTotals(b, g, listing.Keys);
    assert SizesOf(listing) == Wrapped(totals);
    assert forall e | e in g :: g[e] in g.Values;
    TotalByGroups(b, g, listing.Keys);
    TotalOfWrapped(totals);
    assert SumsOf(oi.dirSize, entries);
  }

  // ---------- What buildOverlayIndexes makes of a tidy route ----------

  /** The index built for an orderly route is tidy, torrents of one name included. */
  lemma BuiltIndexIsTidy(oi: Index, cached: Cache, route: string)
    requires Orderly(cached, route)
    requires forall h, i: nat | InRoute(cached, route, h) && i < |cached[h].files| :: InRange(cached[h].files[i].length)
    requires SumsOf(oi.dirSize, EntriesOf(cached, route, cached.Keys))
    requires oi.files.Keys == KeysOf(cached, route, cached.Keys)
    requires FilesRecorded(oi.files, cached, route, cached.Keys)
    ensures TidyIndex(oi, EntriesOf(cached, route, cached.Keys))
  {
    hide SumsOf, Apart, OneStep, Wrap, EntriesOf, Join, ProperlyAbove;
    var entries := EntriesOf(cached, route, cached.Keys);
    forall e | e in entries
      ensures IsClean(entries[e].path) && !IsRooted(entries[e].path) && entries[e].path != "."
      ensures InRange(entries[e].length)
      ensures entries[e].path in oi.files && oi.files[entries[e].path] == InfoFile(entries[e].length)
    {
      EntryIsClean(cached[e.0], e.1);
      assert FilesAt(oi.files, cached[e.0]);
      DotHasNothingAbove(cached[e.0].name);
    }
  }

  lemma DotHasNothingAbove(d: string)
    ensures !ProperlyAbove(d, ".")
  {
  }

  /** Whatever order the cache is walked in, a tidy route lists the same. */
  lemma TidyRouteIgnoresOrder(a: Index, b: Index, cached: Cache, route: string, prefix: string)
    requires Tidy(cached, route)
    requires SumsOf(a.dirSize, EntriesOf(cached, route, cached.Keys))
             && SumsOf(b.dirSize, EntriesOf(cached, route, cached.Keys))
    requires a.files.Keys == KeysOf(cached, route, cached.Keys) == b.files.Keys
    requires FilesRecorded(a.files, cached, route, cached.Keys) && RootsRecorded(a.files, cached, route, cached.Keys)
    requires FilesRecorded(b.files, cached, route, cached.Keys) && RootsRecorded(b.files, cached, route, cached.Keys)
    ensures RouteListing(a, prefix) == RouteListing(b, prefix)
  {
    hide Tidy, Orderly, StateTotal, RootSize, Wrap, Contribution, Below, Total, EntryOf, Usable, KeyOf, SubOf, SizeAt,
         TrimSlash;
    forall k | k in a.files ensures a.files[k] == b.files[k] {
      var entries := EntriesOf(cached, route, cached.Keys);
      if h :| h in cached.Keys && InRoute(cached, route, h) && cached[h].name == k {
        assert RootAt(a.files, h, cached[h]) && RootAt(b.files, h, cached[h]);
      } else {
        var e :| e in entries && entries[e].path == k;
        assert FilesAt(a.files, cached[e.0]) && FilesAt(b.files, cached[e.0]);
      }
    }
    assert a.files == b.files;
    forall d ensures SizeAt(a.dirSize, d) == SizeAt(b.dirSize, d) {}
  }
}
