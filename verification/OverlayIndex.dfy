/** torrent/overlay_lister.go: the cached index of a route. */
module OverlayIndex {
  import opened Int64
  import opened Paths
  import opened PathTrees
  import opened Totals

  datatype FileSummary = FileSummary(path: string, length: int)

  datatype Summary = Summary(route: string, name: string, sizeBytes: int, pieceBytes: int, totalPieces: int,
                             files: seq<FileSummary>)

  datatype Placeholder = InfoFile(size: int) | InfoDir(size: int)

  datatype Index = Index(files: map<string, Placeholder>, dirSize: map<string, int>)

  /** A Go map read: absent keys read as zero. */
  function SizeAt(dirSize: map<string, int>, d: string): int {
    if d in dirSize then dirSize[d] else 0
  }

  predicate Usable(st: Summary) {
    st.route != "" && st.name != ""
  }

  /** One cached file: where it goes and how long it is. */
  datatype Entry = Entry(path: string, length: int)

  function EntryOf(st: Summary, i: nat): Entry
    requires i < |st.files|
  {
    Entry(Join(st.name, st.files[i].path), st.files[i].length)
  }

  /** Entries are told apart by the hash they come from and their number in it. */
  type Entries = map<(string, nat), Entry>

  ghost function Below(entries: Entries, d: string): map<(string, nat), int> {
    map e | e in entries && ProperlyAbove(d, entries[e].path) :: entries[e].length
  }

  /** Every directory's recorded size is the sum of the entries below it, in 64-bit arithmetic. */
  ghost predicate SumsOf(dirSize: map<string, int>, entries: Entries) {
    forall d :: SizeAt(dirSize, d) == Wrap(Total(Below(entries, d)))
  }

  // ---------- Building ----------

  /** The inner loop of buildOverlayIndexes: credit `length` to every directory above `path`. */
  method CreditParents(dirSize: map<string, int>, path: string, length: int) returns (credited: map<string, int>)
    requires IsClean(path)
    ensures forall d :: SizeAt(credited, d) ==
              if ProperlyAbove(d, path) then Wrap(SizeAt(dirSize, d) + length) else SizeAt(dirSize, d)
  {
    hide Clean, Steps, Render, Dir, Wrap;
    credited := dirSize;
    var d := path;
    ghost var k: nat := |Steps(path)|;
    WholeUpto(path);
    while true
      invariant k <= |Steps(path)| && d == Upto(path, k)
      invariant forall x :: SizeAt(credited, x) ==
                  if exists j: nat :: k <= j < |Steps(path)| && 1 <= j && x == Upto(path, j)
                  then Wrap(SizeAt(dirSize, x) + length) else SizeAt(dirSize, x)
      decreases k
    {
      if k > 0 { DirOfUpto(path, k); } else { DirOfTop(path); }
      d := Dir(d);
      if k > 0 { TopOfUpto(path, k - 1); } else { TopOfUpto(path, 0); }
      if d == "." || d == "/" { break; }
      k := k - 1;
      forall j: nat | k <= j < |Steps(path)| && Upto(path, j) == d ensures j == k { UptoInjective(path, j, k); }
      credited := credited[d := Wrap(SizeAt(credited, d) + length)];
    }
  }

  lemma WholeUpto(p: string)
    requires IsClean(p)
    ensures p == Upto(p, |Steps(p)|)
  {
    assert Steps(p)[..|Steps(p)|] == Steps(p);
  }

  lemma DirOfTop(p: string)
    ensures Dir(Upto(p, 0)) == Upto(p, 0)
  {
    assert Steps(p)[..0] == [];
    assert Split("/") == ("/", "");
    SplitUnique("", ".");
    assert "" + "." == ".";
    StepsOfEmpty(true);
    StepsOfEmpty(false);
    SegmentsOfName("");
  }

  lemma CreditSums(before: map<string, int>, after: map<string, int>, entries: Entries, e: (string, nat), entry: Entry)
    requires SumsOf(before, entries) && e !in entries
    requires forall d :: SizeAt(after, d) ==
               if ProperlyAbove(d, entry.path) then Wrap(SizeAt(before, d) + entry.length) else SizeAt(before, d)
    ensures SumsOf(after, entries[e := entry])
  {
    hide Wrap, Total, SizeAt, ProperlyAbove;
    forall d ensures SizeAt(after, d) == Wrap(Total(Below(entries[e := entry], d))) {
      if ProperlyAbove(d, entry.path) {
        assert Below(entries[e := entry], d) == Below(entries, d)[e := entry.length];
        TotalInsert(Below(entries, d), e, entry.length);
        WrapAdd(Total(Below(entries, d)), entry.length);
      } else {
        assert Below(entries[e := entry], d) == Below(entries, d);
      }
    }
  }

  /** The size shown for a torrent's root: what its files add up to, or what its summary says. */
  function RootSize(st: Summary, total: int): int {
    if total != 0 then total
    else if st.sizeBytes > 0 then st.sizeBytes
    else if st.pieceBytes > 0 && st.totalPieces > 0 then Wrap(st.pieceBytes * st.totalPieces)
    else 0
  }

  /** The entries of `st`, recorded under hash `h`, up to number `n`. */
  function StateEntries(h: string, st: Summary, n: nat): (r: Entries)
    requires n <= |st.files|
    ensures forall e :: e in r <==> e.0 == h && e.1 < n
    ensures forall i: nat | i < n :: r[(h, i)] == EntryOf(st, i)
  {
    if n == 0 then map[] else StateEntries(h, st, n - 1)[(h, n - 1) := EntryOf(st, n - 1)]
  }

  /** The placeholders after the first `n` files of `st` were recorded over `files`. */
  function FilesAfter(files: map<string, Placeholder>, st: Summary, n: nat): map<string, Placeholder>
    requires n <= |st.files|
  {
    if n == 0 then files
    else FilesAfter(files, st, n - 1)[EntryOf(st, n - 1).path := InfoFile(EntryOf(st, n - 1).length)]
  }

  lemma EntryIsClean(st: Summary, i: nat)
    requires Usable(st) && i < |st.files|
    ensures IsClean(EntryOf(st, i).path)
  {
    CleanIdempotent(st.name);
    CleanIdempotent(st.name + "/" + st.files[i].path);
  }

  /** A file is indexed under its torrent's name, followed by the segments of its own path, with its own
      length. */
  lemma EntryPlaced(st: Summary, i: nat, segs: seq<string>)
    requires i < |st.files| && segs != [] && st.files[i].path == JoinSegments(segs)
    requires Canonical(false, [st.name] + segs) && st.name != ".." && segs[0] != ""
    ensures EntryOf(st, i).path == st.name + "/" + st.files[i].path && EntryOf(st, i).length == st.files[i].length
    ensures Steps(EntryOf(st, i).path) == [st.name] + segs && !IsRooted(EntryOf(st, i).path)
  {
    hide Segments, PushAll, JoinSegments, Steps;
    var all := [st.name] + segs;
    assert st.name == all[0] && segs[0] == all[1];
    StepsOfRender(false, all);
    JoinNonEmpty(segs);
    JoinFirst(all);
    assert all[1..] == segs;
  }

  /** Recording one file of a summary. */
  method AddEntry(oi: Index, ghost entries: Entries, ghost e: (string, nat), entry: Entry) returns (oi': Index)
    requires IsClean(entry.path) && SumsOf(oi.dirSize, entries) && e !in entries
    ensures SumsOf(oi'.dirSize, entries[e := entry])
    ensures oi'.files == oi.files[entry.path := InfoFile(entry.length)]
  {
    hide SumsOf, IsClean, ProperlyAbove, Wrap;
    var credited := CreditParents(oi.dirSize, entry.path, entry.length);
    CreditSums(oi.dirSize, credited, entries, e, entry);
    oi' := Index(oi.files[entry.path := InfoFile(entry.length)], credited);
  }

  lemma NextEntry(h: string, st: Summary, entries: Entries, n: nat)
    requires n < |st.files| && forall e | e in entries :: e.0 != h
    ensures (h, n) !in entries + StateEntries(h, st, n)
    ensures (entries + StateEntries(h, st, n))[(h, n) := EntryOf(st, n)] == entries + StateEntries(h, st, n + 1)
  {
    hide EntryOf, StateEntries;
    assert StateEntries(h, st, n + 1) == StateEntries(h, st, n)[(h, n) := EntryOf(st, n)] by {
      NextStateEntry(h, st, n);
    }
  }

  lemma NextStateEntry(h: string, st: Summary, n: nat)
    requires n < |st.files|
    ensures StateEntries(h, st, n + 1) == StateEntries(h, st, n)[(h, n) := EntryOf(st, n)]
  {
  }

  lemma NextFile(files: map<string, Placeholder>, st: Summary, n: nat)
    requires n < |st.files|
    ensures FilesAfter(files, st, n + 1)
            == FilesAfter(files, st, n)[EntryOf(st, n).path := InfoFile(EntryOf(st, n).length)]
  {
  }

  /** The body of buildOverlayIndexes' outer loop. */
  method AddState(oi: Index, ghost entries: Entries, ghost h: string, st: Summary) returns (oi': Index)
    requires Usable(st) && SumsOf(oi.dirSize, entries) && forall e | e in entries :: e.0 != h
    ensures SumsOf(oi'.dirSize, entries + StateEntries(h, st, |st.files|))
    ensures oi'.files == FilesAfter(oi.files, st, |st.files|)
                           [st.name := InfoDir(RootSize(st, SizeAt(oi'.dirSize, st.name)))]
    ensures st.name in oi'.files && oi'.files[st.name].InfoDir?
    ensures var total, shown := SizeAt(oi'.dirSize, st.name), oi'.files[st.name].size;
            && (total != 0 ==> shown == total)
            && (total == 0 && st.sizeBytes > 0 ==> shown == st.sizeBytes)
            && (total == 0 && st.sizeBytes <= 0 && st.pieceBytes > 0 && st.totalPieces > 0 ==>
                  shown == Wrap(st.pieceBytes * st.totalPieces))
            && (total == 0 && st.sizeBytes <= 0 && (st.pieceBytes <= 0 || st.totalPieces <= 0) ==> shown == 0)
  {
    hide SumsOf, EntryOf, IsClean, Wrap;
    var acc := oi;
    assert entries + StateEntries(h, st, 0) == entries;
    var i := 0;
    while i < |st.files|
      invariant 0 <= i <= |st.files|
      invariant acc.files == FilesAfter(oi.files, st, i)
      invariant SumsOf(acc.dirSize, entries + StateEntries(h, st, i))
    {
      hide FilesAfter, StateEntries;
      EntryIsClean(st, i);
      NextEntry(h, st, entries, i);
      NextFile(oi.files, st, i);
      acc := AddEntry(acc, entries + StateEntries(h, st, i), (h, i), EntryOf(st, i));
      i := i + 1;
    }
    var total := SizeAt(acc.dirSize, st.name);
    if total == 0 {
      if st.sizeBytes > 0 {
        total := st.sizeBytes;
      } else if st.pieceBytes > 0 && st.totalPieces > 0 {
        total := Wrap(st.pieceBytes * st.totalPieces);
      }
    }
    oi' := Index(acc.files[st.name := InfoDir(total)], acc.dirSize);
  }

  // ---------- The whole cache ----------

  type Cache = map<string, Summary>

  predicate InRoute(cached: Cache, route: string, h: string) {
    h in cached && Usable(cached[h]) && cached[h].route == route
  }

  /** The entries of `route` under the hashes `done`. */
  ghost function EntriesOf(cached: Cache, route: string, done: set<string>): (r: Entries)
    ensures forall e :: e in r <==> e.0 in done && InRoute(cached, route, e.0) && e.1 < |cached[e.0].files|
    ensures forall e | e in r :: e.0 in cached && e.1 < |cached[e.0].files| && r[e] == EntryOf(cached[e.0], e.1)
  {
    hide EntryOf, Usable;
    map h, i: nat | h in done && InRoute(cached, route, h) && i < |cached[h].files| :: (h, i) := EntryOf(cached[h], i)
  }

  /** The keys the hashes `done` put into the files of `route`. */
  ghost function KeysOf(cached: Cache, route: string, done: set<string>): set<string> {
    (set h | h in done && InRoute(cached, route, h) :: cached[h].name) +
    (set e | e in EntriesOf(cached, route, done) :: EntriesOf(cached, route, done)[e].path)
  }

  ghost function StateTotal(h: string, st: Summary): int {
    Total(map e | e in StateEntries(h, st, |st.files|) :: StateEntries(h, st, |st.files|)[e].length)
  }

  /** A route whose files can be told apart: torrents have one-segment names, their files lie below
      their own name, and no file is another or lies below another. Names may be shared. */
  ghost predicate Orderly(cached: Cache, route: string) {
    && (forall h | InRoute(cached, route, h) :: OneStep(cached[h].name))
    && (forall h, i: nat | InRoute(cached, route, h) && i < |cached[h].files| ::
          !IsRooted(EntryOf(cached[h], i).path) && ProperlyAbove(cached[h].name, EntryOf(cached[h], i).path))
    && Apart(EntriesOf(cached, route, cached.Keys))
  }

  /** An orderly route in which no two torrents share a name. */
  ghost predicate Tidy(cached: Cache, route: string) {
    && Orderly(cached, route)
    && forall h, k | InRoute(cached, route, h) && InRoute(cached, route, k) && h != k ::
      cached[h].name != cached[k].name
  }

  predicate OneStep(name: string) {
    IsClean(name) && !IsRooted(name) && |Steps(name)| == 1
  }

  /** No entry is another or lies below another. */
  ghost predicate Apart(entries: Entries) {
    forall e, f | e in entries && f in entries && e != f ::
      entries[e].path != entries[f].path && !ProperlyAbove(entries[e].path, entries[f].path)
  }

  /** In a tidy route every torrent is recorded with the size of its own files or, without any, the
      size its summary gives. */
  ghost predicate RootsRecorded(files: map<string, Placeholder>, cached: Cache, route: string, done: set<string>) {
    forall h | h in done && InRoute(cached, route, h) :: RootAt(files, h, cached[h])
  }

  ghost predicate RootAt(files: map<string, Placeholder>, h: string, st: Summary) {
    st.name in files && files[st.name] == InfoDir(RootSize(st, Wrap(StateTotal(h, st))))
  }

  /** In an orderly route every file is recorded with its length. */
  ghost predicate FilesRecorded(files: map<string, Placeholder>, cached: Cache, route: string, done: set<string>) {
    forall h | h in done && InRoute(cached, route, h) :: FilesAt(files, cached[h])
  }

  ghost predicate FilesAt(files: map<string, Placeholder>, st: Summary) {
    forall i: nat | i < |st.files| ::
      EntryOf(st, i).path in files && files[EntryOf(st, i).path] == InfoFile(EntryOf(st, i).length)
  }

  method BuildOverlayIndexes(cached: Cache) returns (out: map<string, Index>)
    ensures forall r :: r in out <==> exists h :: InRoute(cached, r, h)
    ensures forall r :: r in out <==> r != "" && exists h :: h in cached && cached[h].route == r && cached[h].name != ""
    ensures forall r | r in out :: SumsOf(out[r].dirSize, EntriesOf(cached, r, cached.Keys))
    ensures forall r | r in out :: out[r].files.Keys == KeysOf(cached, r, cached.Keys)
    ensures forall r | r in out && Orderly(cached, r) :: FilesRecorded(out[r].files, cached, r, cached.Keys)
    ensures forall r | r in out && Tidy(cached, r) :: RootsRecorded(out[r].files, cached, r, cached.Keys)
  {
    hide SumsOf, EntriesOf, KeysOf, FilesRecorded, RootsRecorded, Tidy, Orderly, InRoute, RouteDone, RootSize,
         FilesAfter, StateEntries, SizeAt;
    out := map[];
    var rest := cached.Keys;
    NoneDone(cached);
    while rest != {}
      invariant rest <= cached.Keys
      invariant Progress(out, cached, cached.Keys - rest)
      decreases |rest|
    {
      hide Progress;
      var h :| h in rest;
      var st := cached[h];
      ghost var done := cached.Keys - rest;
      assert cached.Keys - (rest - {h}) == done + {h} && h !in done;
      if Usable(st) {
        var oi := if st.route in out then out[st.route] else Index(map[], map[]);
        RouteSoFar(out, cached, done, st.route);
        EntriesUnder(cached, st.route, done, h);
        var oi' := AddState(oi, EntriesOf(cached, st.route, done), h, st);
        UsableInRoute(cached, h);
        RouteAdds(oi, oi', cached, done, h, st.route);
        ProgressUsable(out, cached, done, h, oi');
        out := out[st.route := oi'];
      } else {
        ProgressUnusable(out, cached, done, h);
      }
      rest := rest - {h};
    }
    assert cached.Keys - rest == cached.Keys;
    ProgressDone(out, cached);
    forall r
      ensures r in out <==> r != "" && exists h :: h in cached && cached[h].route == r && cached[h].name != ""
    {
      RoutesInUse(cached, r);
    }
  }

  lemma RoutesInUse(cached: Cache, r: string)
    ensures (exists h :: InRoute(cached, r, h))
            <==> r != "" && exists h :: h in cached && cached[h].route == r && cached[h].name != ""
  {
    if r != "" && exists h :: h in cached && cached[h].route == r && cached[h].name != "" {
      var h :| h in cached && cached[h].route == r && cached[h].name != "";
      assert InRoute(cached, r, h);
    }
  }

  lemma UsableInRoute(cached: Cache, h: string)
    requires h in cached && Usable(cached[h])
    ensures InRoute(cached, cached[h].route, h)
  {
  }

  /** What buildOverlayIndexes has reached when it has seen the hashes `done`. */
  ghost predicate Progress(out: map<string, Index>, cached: Cache, done: set<string>) {
    && (forall r :: r in out <==> exists h :: h in done && InRoute(cached, r, h))
    && forall r | r in out :: RouteDone(out[r], cached, done, r)
  }

  /** The index of one route when the hashes `done` were seen. */
  ghost predicate RouteDone(oi: Index, cached: Cache, done: set<string>, route: string) {
    && SumsOf(oi.dirSize, EntriesOf(cached, route, done)) && oi.files.Keys == KeysOf(cached, route, done)
    && (Orderly(cached, route) ==> FilesRecorded(oi.files, cached, route, done))
    && (Tidy(cached, route) ==> RootsRecorded(oi.files, cached, route, done))
  }

  lemma NoneDone(cached: Cache)
    ensures Progress(map[], cached, {})
  {
  }

  lemma ProgressDone(out: map<string, Index>, cached: Cache)
    requires Progress(out, cached, cached.Keys)
    ensures forall r :: r in out <==> exists h :: InRoute(cached, r, h)
    ensures forall r | r in out :: SumsOf(out[r].dirSize, EntriesOf(cached, r, cached.Keys))
    ensures forall r | r in out :: out[r].files.Keys == KeysOf(cached, r, cached.Keys)
    ensures forall r | r in out && Orderly(cached, r) :: FilesRecorded(out[r].files, cached, r, cached.Keys)
    ensures forall r | r in out && Tidy(cached, r) :: RootsRecorded(out[r].files, cached, r, cached.Keys)
  {
    hide SumsOf, EntriesOf, KeysOf, FilesRecorded, RootsRecorded, Tidy, Orderly;
  }

  lemma EntriesUnder(cached: Cache, route: string, done: set<string>, h: string)
    requires h !in done
    ensures forall e | e in EntriesOf(cached, route, done) :: e.0 != h
  {
  }

  /** A route that has no index yet has no entries either. */
  lemma RouteSoFar(out: map<string, Index>, cached: Cache, done: set<string>, r: string)
    requires Progress(out, cached, done)
    ensures var oi := if r in out then out[r] else Index(map[], map[]);
            RouteDone(oi, cached, done, r) && SumsOf(oi.dirSize, EntriesOf(cached, r, done))
  {
    hide SumsOf, EntriesOf, InRoute;
    if r !in out { EmptyRoute(cached, done, r); }
  }

  lemma EmptyRoute(cached: Cache, done: set<string>, r: string)
    requires forall h | h in done :: !InRoute(cached, r, h)
    ensures RouteDone(Index(map[], map[]), cached, done, r)
  {
    hide SumsOf, Wrap, Tidy, Orderly;
    assert EntriesOf(cached, r, done) == map[];
    assert KeysOf(cached, r, done) == {};
    EmptySums();
  }

  lemma EmptySums()
    ensures SumsOf(map[], map[])
  {
    forall d ensures Below(map[], d) == map[] {}
    assert Total<(string, nat)>(map[]) == 0;
  }

  /** The entries of the routes once one more hash is done. */
  lemma EntriesGrow(cached: Cache, route: string, done: set<string>, h: string)
    requires h !in done && h in cached
    ensures EntriesOf(cached, route, done + {h}) ==
            if InRoute(cached, route, h)
            then EntriesOf(cached, route, done) + StateEntries(h, cached[h], |cached[h].files|)
            else EntriesOf(cached, route, done)
  {
    hide EntriesOf, EntryOf, StateEntries, Usable;
    var before, after := EntriesOf(cached, route, done), EntriesOf(cached, route, done + {h});
    if InRoute(cached, route, h) {
      var mine := StateEntries(h, cached[h], |cached[h].files|);
      var both: Entries := before + mine;
      forall e ensures e in after <==> e in both {}
      forall e | e in after ensures after[e] == both[e] {
        if e.0 == h { assert e == (h, e.1); }
      }
    } else {
      forall e ensures e in after <==> e in before {}
    }
  }

  /** The keys the files of one summary go to. */
  ghost function PathsOf(st: Summary, n: nat): set<string>
    requires n <= |st.files|
  {
    set i: nat | i < n :: EntryOf(st, i).path
  }

  lemma {:induction false} FilesAfterKeys(files: map<string, Placeholder>, st: Summary, n: nat)
    requires n <= |st.files|
    ensures FilesAfter(files, st, n).Keys == files.Keys + PathsOf(st, n)
    ensures forall k | k in files && k !in PathsOf(st, n) :: FilesAfter(files, st, n)[k] == files[k]
  {
    hide EntryOf;
    if n > 0 {
      FilesAfterKeys(files, st, n - 1);
      assert PathsOf(st, n) == PathsOf(st, n - 1) + {EntryOf(st, n - 1).path};
    }
  }

  lemma {:induction false} FilesAfterAt(files: map<string, Placeholder>, st: Summary, n: nat, i: nat)
    requires i < n <= |st.files|
    requires forall j: nat | j < |st.files| && j != i :: EntryOf(st, j).path != EntryOf(st, i).path
    ensures EntryOf(st, i).path in FilesAfter(files, st, n)
    ensures FilesAfter(files, st, n)[EntryOf(st, i).path] == InfoFile(EntryOf(st, i).length)
  {
    hide EntryOf;
    if i < n - 1 { FilesAfterAt(files, st, n - 1, i); }
  }

  lemma KeysGrow(cached: Cache, route: string, done: set<string>, h: string)
    requires h !in done && h in cached
    ensures KeysOf(cached, route, done + {h}) ==
            if InRoute(cached, route, h)
            then KeysOf(cached, route, done) + {cached[h].name} + PathsOf(cached[h], |cached[h].files|)
            else KeysOf(cached, route, done)
  {
    hide EntriesOf, EntryOf, StateEntries, Usable, InRoute, PathsOf;
    NamesOfGrow(cached, route, done, h);
    EntriesGrow(cached, route, done, h);
    if InRoute(cached, route, h) {
      EntriesUnder(cached, route, done, h);
      PathsOfGrow(EntriesOf(cached, route, done), h, cached[h]);
    }
    KeysOfParts(cached, route, done);
    KeysOfParts(cached, route, done + {h});
  }

  ghost function NamesOf(cached: Cache, route: string, done: set<string>): set<string> {
    set h | h in done && InRoute(cached, route, h) :: cached[h].name
  }

  ghost function EntryPaths(entries: Entries): set<string> {
    set e | e in entries :: entries[e].path
  }

  lemma KeysOfParts(cached: Cache, route: string, done: set<string>)
    ensures KeysOf(cached, route, done) == NamesOf(cached, route, done) + EntryPaths(EntriesOf(cached, route, done))
  {
    hide EntriesOf;
  }

  lemma NamesOfGrow(cached: Cache, route: string, done: set<string>, h: string)
    requires h in cached
    ensures NamesOf(cached, route, done + {h}) ==
            NamesOf(cached, route, done) + if InRoute(cached, route, h) then {cached[h].name} else {}
  {
    hide InRoute;
  }

  lemma PathsOfGrow(entries: Entries, h: string, st: Summary)
    requires forall e | e in entries :: e.0 != h
    ensures EntryPaths(entries + StateEntries(h, st, |st.files|)) == EntryPaths(entries) + PathsOf(st, |st.files|)
  {
    hide EntryOf, StateEntries;
    var mine := StateEntries(h, st, |st.files|);
    var both: Entries := entries + mine;
    forall p ensures p in EntryPaths(both) <==> p in EntryPaths(entries) || p in PathsOf(st, |st.files|) {
      if p in EntryPaths(entries) {
        var e :| e in entries && entries[e].path == p;
        assert e in both && both[e] == entries[e];
      }
      if p in PathsOf(st, |st.files|) {
        var i: nat :| i < |st.files| && EntryOf(st, i).path == p;
        assert (h, i) in both && both[(h, i)] == EntryOf(st, i);
      }
      if p in EntryPaths(both) {
        var e :| e in both && both[e].path == p;
        if e in mine { assert e == (h, e.1) && p == EntryOf(st, e.1).path; }
      }
    }
  }

  lemma RouteUnchanged(oi: Index, cached: Cache, route: string, done: set<string>, h: string)
    requires h !in done && h in cached && !InRoute(cached, route, h) && RouteDone(oi, cached, done, route)
    ensures RouteDone(oi, cached, done + {h}, route)
  {
    hide EntriesOf, KeysOf, EntryOf, FilesAt, RootAt, InRoute, SumsOf, Orderly, Tidy;
    EntriesGrow(cached, route, done, h);
    KeysGrow(cached, route, done, h);
  }

  lemma ProgressUnusable(out: map<string, Index>, cached: Cache, done: set<string>, h: string)
    requires Progress(out, cached, done) && h !in done && h in cached && !Usable(cached[h])
    ensures Progress(out, cached, done + {h})
  {
    hide RouteDone;
    forall r | r in out ensures RouteDone(out[r], cached, done + {h}, r) {
      RouteUnchanged(out[r], cached, r, done, h);
    }
  }

  // ---------- Tidy routes ----------

  /** No torrent's name is the path of a file. */
  lemma NameIsNoPath(cached: Cache, route: string, h: string, k: string, i: nat)
    requires Orderly(cached, route) && InRoute(cached, route, h) && InRoute(cached, route, k) && i < |cached[k].files|
    ensures cached[h].name != EntryOf(cached[k], i).path
  {
    hide EntryOf, Apart, Steps, Clean;
    var p := EntryOf(cached[k], i).path;
    assert IsClean(p) by { EntryIsClean(cached[k], i); }
    AboveIsPrefix(cached[k].name, p);
  }

  lemma TidyNames(cached: Cache, route: string, h: string, k: string, i: nat)
    requires Tidy(cached, route) && InRoute(cached, route, h) && InRoute(cached, route, k) && i < |cached[k].files|
    ensures ProperlyAbove(cached[h].name, EntryOf(cached[k], i).path) <==> h == k
  {
    hide EntryOf, Apart, Steps, Clean;
    var p := EntryOf(cached[k], i).path;
    assert IsClean(p) by { EntryIsClean(cached[k], i); }
    AboveIsPrefix(cached[k].name, p);
    AboveIsPrefix(cached[h].name, p);
    OneStepEqual(cached[h].name, cached[k].name);
  }

  lemma OneStepEqual(m: string, n: string)
    requires OneStep(m) && OneStep(n)
    ensures m == n <==> Steps(m)[0] == Steps(n)[0]
  {
    CleanIsRender(m);
    CleanIsRender(n);
    hide Steps;
    if Steps(m)[0] == Steps(n)[0] { assert Steps(m) == Steps(n); }
  }

  lemma OrderlyPaths(cached: Cache, route: string, h: string, i: nat, k: string, j: nat)
    requires Orderly(cached, route) && InRoute(cached, route, h) && InRoute(cached, route, k)
    requires i < |cached[h].files| && j < |cached[k].files| && (h, i) != (k, j)
    ensures EntryOf(cached[h], i).path != EntryOf(cached[k], j).path
  {
    hide EntryOf, EntriesOf, Usable, OneStep, IsRooted, ProperlyAbove;
    var all := EntriesOf(cached, route, cached.Keys);
    assert (h, i) in all && (k, j) in all;
    assert all[(h, i)] == EntryOf(cached[h], i) && all[(k, j)] == EntryOf(cached[k], j);
  }

  /** In a tidy route what is recorded below a torrent's name is that torrent's own files. */
  lemma TidyTotal(cached: Cache, route: string, done: set<string>, h: string)
    requires Tidy(cached, route) && InRoute(cached, route, h) && h !in done
    ensures var st := cached[h];
            Below(EntriesOf(cached, route, done) + StateEntries(h, st, |st.files|), st.name) ==
            map e | e in StateEntries(h, st, |st.files|) :: StateEntries(h, st, |st.files|)[e].length
  {
    hide EntryOf, Tidy, ProperlyAbove, EntriesOf, StateEntries, Usable;
    var st := cached[h];
    var mine, others := StateEntries(h, st, |st.files|), EntriesOf(cached, route, done);
    var both: Entries := others + mine;
    forall e | e in both ensures ProperlyAbove(st.name, both[e].path) <==> e in mine {
      if e in mine {
        TidyNames(cached, route, h, h, e.1);
      } else {
        TidyNames(cached, route, h, e.0, e.1);
      }
    }
  }

  lemma RootsGrow(oi: Index, oi': Index, cached: Cache, route: string, done: set<string>, h: string)
    requires Tidy(cached, route) && InRoute(cached, route, h) && h !in done
    requires RootsRecorded(oi.files, cached, route, done)
    requires SumsOf(oi'.dirSize, EntriesOf(cached, route, done) + StateEntries(h, cached[h], |cached[h].files|))
    requires oi'.files == FilesAfter(oi.files, cached[h], |cached[h].files|)
                            [cached[h].name := InfoDir(RootSize(cached[h], SizeAt(oi'.dirSize, cached[h].name)))]
    ensures RootsRecorded(oi'.files, cached, route, done + {h})
  {
    hide Orderly, EntriesOf, FilesAfter, RootSize, Usable, StateEntries;
    var st := cached[h];
    assert SizeAt(oi'.dirSize, st.name) == Wrap(StateTotal(h, st)) by { TidyTotal(cached, route, done, h); }
    hide SumsOf, SizeAt, StateTotal, Wrap;
    forall k | k in done && InRoute(cached, route, k) ensures RootAt(oi'.files, k, cached[k]) {
      FilesAfterKeys(oi.files, st, |st.files|);
      NotAPath(cached, route, h, cached[k].name, k);
    }
  }

  lemma NotAPath(cached: Cache, route: string, h: string, name: string, k: string)
    requires Orderly(cached, route) && InRoute(cached, route, h) && InRoute(cached, route, k) && name == cached[k].name
    ensures name !in PathsOf(cached[h], |cached[h].files|)
  {
    hide Orderly, EntryOf, Usable;
    forall j: nat | j < |cached[h].files| ensures EntryOf(cached[h], j).path != name {
      NameIsNoPath(cached, route, k, h, j);
    }
  }

  /** Recording one more summary of an orderly route keeps the files recorded. */
  lemma FilesGrow(files: map<string, Placeholder>, files': map<string, Placeholder>, root: Placeholder, cached: Cache,
                  route: string, done: set<string>, h: string)
    requires Orderly(cached, route) && InRoute(cached, route, h) && h !in done
    requires FilesRecorded(files, cached, route, done)
    requires files' == FilesAfter(files, cached[h], |cached[h].files|)[cached[h].name := root]
    ensures FilesRecorded(files', cached, route, done + {h})
  {
    hide Orderly, FilesAt, FilesAfter, Usable;
    forall k | k in done + {h} && InRoute(cached, route, k) ensures FilesAt(files', cached[k]) {
      if k == h {
        OwnFilesAt(files, files', root, cached, route, h);
      } else {
        OtherFilesAt(files, files', root, cached, route, h, k);
      }
    }
  }

  lemma OwnFilesAt(files: map<string, Placeholder>, files': map<string, Placeholder>, root: Placeholder, cached: Cache,
                   route: string, h: string)
    requires Orderly(cached, route) && InRoute(cached, route, h)
    requires files' == FilesAfter(files, cached[h], |cached[h].files|)[cached[h].name := root]
    ensures FilesAt(files', cached[h])
  {
    hide Orderly, EntryOf, FilesAfter, Usable;
    var st := cached[h];
    forall i: nat | i < |st.files|
      ensures EntryOf(st, i).path in files' && files'[EntryOf(st, i).path] == InfoFile(EntryOf(st, i).length)
    {
      NameIsNoPath(cached, route, h, h, i);
      forall j: nat | j < |st.files| && j != i { OrderlyPaths(cached, route, h, i, h, j); }
      FilesAfterAt(files, st, |st.files|, i);
    }
  }

  lemma OtherFilesAt(files: map<string, Placeholder>, files': map<string, Placeholder>, root: Placeholder,
                     cached: Cache, route: string, h: string, k: string)
    requires Orderly(cached, route) && InRoute(cached, route, h) && InRoute(cached, route, k) && h != k
    requires FilesAt(files, cached[k])
    requires files' == FilesAfter(files, cached[h], |cached[h].files|)[cached[h].name := root]
    ensures FilesAt(files', cached[k])
  {
    hide Orderly, EntryOf, FilesAfter, Usable;
    FilesAfterKeys(files, cached[h], |cached[h].files|);
    forall i: nat | i < |cached[k].files|
      ensures EntryOf(cached[k], i).path in files'
      ensures files'[EntryOf(cached[k], i).path] == InfoFile(EntryOf(cached[k], i).length)
    {
      NameIsNoPath(cached, route, h, k, i);
      forall j: nat | j < |cached[h].files| { OrderlyPaths(cached, route, k, i, h, j); }
    }
  }

  /** The index of a route once one more of its summaries is recorded. */
  lemma RouteAdds(oi: Index, oi': Index, cached: Cache, done: set<string>, h: string, route: string)
    requires h !in done && InRoute(cached, route, h) && RouteDone(oi, cached, done, route)
    requires SumsOf(oi'.dirSize, EntriesOf(cached, route, done) + StateEntries(h, cached[h], |cached[h].files|))
    requires oi'.files == FilesAfter(oi.files, cached[h], |cached[h].files|)
                            [cached[h].name := InfoDir(RootSize(cached[h], SizeAt(oi'.dirSize, cached[h].name)))]
    ensures RouteDone(oi', cached, done + {h}, route)
  {
    hide SumsOf, EntriesOf, KeysOf, FilesRecorded, RootsRecorded, Tidy, Orderly, RootSize, FilesAfter, StateEntries,
         PathsOf, SizeAt;
    var st := cached[h];
    EntriesGrow(cached, route, done, h);
    KeysGrow(cached, route, done, h);
    FilesAfterKeys(oi.files, st, |st.files|);
    if Orderly(cached, route) { FilesGrow(oi.files, oi'.files, oi'.files[st.name], cached, route, done, h); }
    if Tidy(cached, route) {
      TidyIsOrderly(cached, route);
      RootsGrow(oi, oi', cached, route, done, h);
    }
  }

  lemma TidyIsOrderly(cached: Cache, route: string)
    requires Tidy(cached, route)
    ensures Orderly(cached, route)
  {
  }

  lemma ProgressUsable(out: map<string, Index>, cached: Cache, done: set<string>, h: string, oi': Index)
    requires Progress(out, cached, done) && h !in done && h in cached && Usable(cached[h])
    requires RouteDone(oi', cached, done + {h}, cached[h].route)
    ensures Progress(out[cached[h].route := oi'], cached, done + {h})
  {
    hide RouteDone;
    forall r | r in out && r != cached[h].route ensures RouteDone(out[r], cached, done + {h}, r) {
      RouteUnchanged(out[r], cached, r, done, h);
    }
  }
}
