/** fs/torrent.go: a route's torrents as one storage tree, filled when it is first looked at. */
module TorrentFs {
  import opened Files
  import opened Paths
  import opened StoragePaths
  import opened StorageTree
  import OverlayLister
  import PathTrees
  import Storage
  import TreeLaws
  import opened Wrappers

  /** What the torrent client knows of a torrent: nothing but its hash, or also its files. */
  datatype Content = NoInfo | Content(name: string, files: seq<FileInfo>)

  datatype FileInfo = FileInfo(path: string, length: int)

  /** The path a torrent's `i`th file gets: a lone file is put in a directory named after its torrent. */
  function PathAt(c: Content, i: nat): string
    requires c.Content? && i < |c.files|
  {
    if |c.files| == 1 then Join(c.name, c.files[i].path) else c.files[i].path
  }

  function KeyAt(c: Content, i: nat): string
    requires c.Content? && i < |c.files|
  {
    CleanKey(PathAt(c, i))
  }

  /** A file to be put into the tree: its key and its length. */
  datatype Slot = Slot(key: string, length: int)

  /** The first `n` files of a torrent. */
  ghost function SlotsOf(c: Content, n: nat): set<Slot>
    requires c.Content? && n <= |c.files|
  {
    if n == 0 then {} else SlotsOf(c, n - 1) + {Slot(KeyAt(c, n - 1), c.files[n - 1].length)}
  }

  lemma {:induction false} SlotsOfAt(c: Content, n: nat, s: Slot)
    requires c.Content? && n <= |c.files|
    ensures s in SlotsOf(c, n) <==> exists i :: 0 <= i < n && s == Slot(KeyAt(c, i), c.files[i].length)
  {
    hide KeyAt;
    if n > 0 { SlotsOfAt(c, n - 1, s); }
  }

  ghost function AllFiles(c: Content): set<Slot> {
    if c.NoInfo? then {} else SlotsOf(c, |c.files|)
  }

  /** The files of the torrents `hashes`. */
  ghost function Slots(ts: map<string, Content>, hashes: set<string>): set<Slot> {
    set h, s | h in hashes && h in ts && s in AllFiles(ts[h]) :: s
  }

  /** The torrents the next load will add. */
  ghost function Waiting(ts: map<string, Content>, registered: set<string>): set<string> {
    set h | h in ts && ts[h].Content? && h !in registered
  }

  ghost predicate AtOrAbove(q: string, slots: set<Slot>) {
    exists s :: s in slots && Above(q, s.key)
  }

  ghost predicate BelowAny(q: string, slots: set<Slot>) {
    exists s :: s in slots && StrictlyAbove(q, s.key)
  }

  /** What loading `slots` does to a tree: nothing stored changes, exactly the keys at and above the
      slots become stored, archives apart, and what is new is one of the slots, with its length, or a
      directory above one. Slots that fit keep a good tree good: listings, objects and directory sizes. */
  ghost predicate Loaded(t: Tree, t': Tree, archives: set<string>, slots: set<Slot>) {
    && t.sizes.Keys == t.files.Keys && t'.sizes.Keys == t'.files.Keys
    && (forall q | q in t.files ::
          q in t'.files && t'.files[q] == t.files[q] && (t.files[q].kind.Leaf? ==> t'.sizes[q] == t.sizes[q]))
    && (forall q :: q in t'.files <==> q in t.files || (Ext(q) !in archives && AtOrAbove(q, slots)))
    && (forall q | q in t'.files && q !in t.files ::
          if t'.files[q].kind.Leaf? then Slot(q, t'.sizes[q]) in slots else BelowAny(q, slots))
    && (slots == {} ==> t' == t)
    && (TreeLaws.GoodTree(t) && Fits(t, archives, slots) ==> TreeLaws.GoodTree(t'))
  }

  /** No file stands in the way of a slot: none is stored above one, no slot is above another, and
      nothing on the way to a slot has an archive's extension. */
  ghost predicate Fits(t: Tree, archives: set<string>, slots: set<Slot>) {
    && (forall s, q | s in slots && Above(q, s.key) :: Ext(q) !in archives)
    && (forall s, q | s in slots && StrictlyAbove(q, s.key) && q in t.files :: t.files[q].IsDir())
    && (forall s, o | s in slots && o in slots :: !StrictlyAbove(s.key, o.key))
    && forall s | s in slots :: s.key != "/"
  }

  /** The slot's file is in the tree, with its length. */
  ghost predicate Shown(t: Tree, s: Slot)
    requires t.sizes.Keys == t.files.Keys
  {
    s.key in t.files && t.files[s.key].kind.Leaf? && t.sizes[s.key] == s.length
  }

  // ---------- Adding one file ----------

  /** What the new keys of one Add hold. */
  lemma AddedContents(t: Tree, t': Tree, archives: set<string>, s: Space, p: string, f: File, ok: bool, size: int)
    requires s.mounts == [] && s.files == t.files && IsKey(p) && f.kind.Leaf? && t.sizes.Keys == t.files.Keys
    requires AddEffect(t, t', Missing(s, p), archives, p, f, ok, size)
    ensures t'.sizes.Keys == t'.files.Keys
    ensures forall q | q in t.files ::
              q in t'.files && t'.files[q] == t.files[q] && (t.files[q].kind.Leaf? ==> t'.sizes[q] == t.sizes[q])
    ensures forall q | q in t'.files && q !in t.files ::
              if q == p then t'.files[q].kind.Leaf? && t'.sizes[q] == size
              else t'.files[q].kind.Dir? && StrictlyAbove(q, p)
  {
    hide Ext, Linked, Above, Missing, IsKey;
    MissingKeys(s, p);
  }

  lemma OneMoreSlot(was: Tree, t: Tree, t': Tree, archives: set<string>, slots: set<Slot>, s: Space, p: string, f: File,
                    ok: bool, size: int)
    requires Loaded(was, t, archives, slots) && TreeLaws.Closed(t.files, archives) && IsKey(p) && f.kind.Leaf?
    requires s.mounts == [] && s.files == t.files && ok == Accepts(s, p, f)
    requires AddEffect(t, t', Missing(s, p), archives, p, f, ok, size)
    ensures Loaded(was, t', archives, slots + {Slot(p, size)}) && TreeLaws.Closed(t'.files, archives)
  {
    hide AddEffect, Ext, Missing, IsKey, Above, TreeLaws.Closed, AtOrAbove, BelowAny, Fits, Accepts, TreeLaws.GoodTree;
    SlotFits(was, t, t', archives, slots, s, p, f, size);
    TreeLaws.AddedChain(t, t', archives, s, p, f, ok, size);
    AddedContents(t, t', archives, s, p, f, ok, size);
    var more := slots + {Slot(p, size)};
    forall q
      ensures AtOrAbove(q, more) <==> AtOrAbove(q, slots) || Above(q, p)
      ensures BelowAny(q, more) <==> BelowAny(q, slots) || StrictlyAbove(q, p)
    {
      EitherSlots(q, slots, {Slot(p, size)});
      OneSlot(q, Slot(p, size));
    }
  }

  /** A slot that fits is accepted, and keeps the tree good. */
  lemma SlotFits(was: Tree, t: Tree, t': Tree, archives: set<string>, slots: set<Slot>, s: Space, p: string, f: File,
                 size: int)
    requires Loaded(was, t, archives, slots) && IsKey(p) && f.kind.Leaf? && s.mounts == [] && s.files == t.files
    requires AddEffect(t, t', Missing(s, p), archives, p, f, Accepts(s, p, f), size)
    ensures TreeLaws.GoodTree(was) && Fits(was, archives, slots + {Slot(p, size)}) ==> TreeLaws.GoodTree(t')
  {
    var more := slots + {Slot(p, size)};
    if TreeLaws.GoodTree(was) && Fits(was, archives, more) {
      hide AddEffect, Missing, Accepts, IsKey, TreeLaws.GoodTree, Loaded, Fits, Ext, TreeLaws.Added;
      FewerFit(was, archives, slots, more);
      LoadedGood(was, t, archives, slots);
      OnlyDirsAbove(was, t, archives, slots, p, size);
      DirsAccept(s, p, f);
      forall q | q in Missing(s, p) ensures Ext(q) !in archives { MissingAbove(s, p, q); }
      TreeLaws.PlainAdd(s, t, t', archives, p, f, size);
      TreeLaws.UnmountedFrame(s, t, p);
      TreeLaws.AddLaw(t, t', p, f, size);
    }
  }

  lemma NewLeafIsSlot(t: Tree, t': Tree, archives: set<string>, slots: set<Slot>, q: string)
    requires Loaded(t, t', archives, slots) && q in t'.files
    ensures q !in t.files && t'.files[q].kind.Leaf? ==> exists s :: s in slots && s.key == q
  {
    hide Ext, AtOrAbove, BelowAny, TreeLaws.GoodTree, Fits;
  }

  lemma LoadedGood(t: Tree, t': Tree, archives: set<string>, slots: set<Slot>)
    requires Loaded(t, t', archives, slots) && TreeLaws.GoodTree(t) && Fits(t, archives, slots)
    ensures TreeLaws.GoodTree(t')
  {
    hide TreeLaws.GoodTree, Fits, AtOrAbove, BelowAny, Ext;
  }

  /** What the slots loaded so far leave above another one that fits. */
  lemma OnlyDirsAbove(was: Tree, t: Tree, archives: set<string>, slots: set<Slot>, p: string, size: int)
    requires Loaded(was, t, archives, slots) && Fits(was, archives, slots + {Slot(p, size)})
    ensures p != "/" && (forall q | Above(q, p) :: Ext(q) !in archives)
    ensures forall q | StrictlyAbove(q, p) && q in t.files :: t.files[q].IsDir()
  {
    hide Ext, AtOrAbove, BelowAny, TreeLaws.GoodTree, Above;
    var more := slots + {Slot(p, size)};
    assert Slot(p, size) in more;
    forall q | StrictlyAbove(q, p) && q in t.files ensures t.files[q].IsDir() {
      NewLeafIsSlot(was, t, archives, slots, q);
    }
  }

  lemma FewerFit(t: Tree, archives: set<string>, slots: set<Slot>, more: set<Slot>)
    requires Fits(t, archives, more) && slots <= more
    ensures Fits(t, archives, slots)
  {
    hide Above, Ext;
  }

  /** With only directories above it a new file is accepted. */
  lemma DirsAccept(s: Space, p: string, f: File)
    requires s.mounts == [] && IsKey(p) && forall q | StrictlyAbove(q, p) && q in s.files :: s.files[q].IsDir()
    ensures Accepts(s, p, f) || p in s.files || p == "/"
  {
    if p !in s.files && p != "/" {
      hide Parent, Above, Anchor;
      AboveSteps(p);
      KeyParent(p);
      AnchorIsDir(s, Parent(p), p);
    }
  }

  lemma {:induction false} AnchorIsDir(s: Space, d: string, p: string)
    requires s.mounts == [] && IsKey(d) && StrictlyAbove(d, p) && IsKey(p)
    requires forall q | StrictlyAbove(q, p) && q in s.files :: s.files[q].IsDir()
    ensures Anchor(s, d) != Some(false)
    decreases |d|
  {
    if d !in s.files && d != "/" {
      hide Anchor, Above, Parent;
      AboveSteps(d);
      KeyParent(d);
      ParentStrictlyAbove(d, p);
      AnchorIsDir(s, Parent(d), p);
      AnchorUp(s, d);
    }
  }

  lemma ParentStrictlyAbove(d: string, p: string)
    requires IsKey(d) && d != "/" && StrictlyAbove(d, p)
    ensures StrictlyAbove(Parent(d), p)
  {
    KeyParent(d);
    AboveSteps(d);
    AboveTransitive(Parent(d), d, p);
    AboveIsShorter(d, p);
  }

  lemma AnchorUp(s: Space, d: string)
    requires s.mounts == [] && d !in s.files && d != "/"
    ensures Anchor(s, d) == None || Anchor(s, d) == Anchor(s, Parent(d))
  {
  }

  lemma OneSlot(q: string, s: Slot)
    ensures AtOrAbove(q, {s}) <==> Above(q, s.key)
    ensures BelowAny(q, {s}) <==> StrictlyAbove(q, s.key)
  {
    hide Above;
  }

  // ---------- Adding several torrents ----------

  lemma NothingLoaded(t: Tree, archives: set<string>)
    requires t.sizes.Keys == t.files.Keys
    ensures Loaded(t, t, archives, {})
  {
  }

  lemma NextSlot(c: Content, i: nat)
    requires c.Content? && i < |c.files|
    ensures SlotsOf(c, i + 1) == SlotsOf(c, i) + {Slot(KeyAt(c, i), c.files[i].length)}
    ensures IsKey(KeyAt(c, i)) && KeyAt(c, i) == CleanKey(PathAt(c, i))
  {
    CleanKeyIsKey(PathAt(c, i));
  }

  lemma NoSlots(c: Content, slots: set<Slot>)
    requires c.Content?
    ensures slots + SlotsOf(c, 0) == slots && slots + SlotsOf(c, |c.files|) == slots + AllFiles(c)
  {
  }

  /** The torrents of `ts` that were waiting and are no longer to do. */
  ghost function Turned(ts: map<string, Content>, before: set<string>, todo: set<string>): set<string> {
    Waiting(ts, before) - todo
  }

  lemma NoneTurned(ts: map<string, Content>, before: set<string>)
    ensures Turned(ts, before, ts.Keys) == {} && Slots(ts, {}) == {} && before + {} == before
  {
  }

  lemma AllTurned(ts: map<string, Content>, before: set<string>)
    ensures Turned(ts, before, {}) == Waiting(ts, before)
  {
  }

  lemma WaitingAll(ts: map<string, Content>, before: set<string>)
    ensures forall h :: h in before + Waiting(ts, before) <==> h in before || (h in ts && ts[h].Content?)
  {
  }

  lemma NextTurn(ts: map<string, Content>, before: set<string>, todo: set<string>, h: string)
    requires h in todo && todo <= ts.Keys
    ensures var turned, next := Turned(ts, before, todo), Turned(ts, before, todo - {h});
            if ts[h].NoInfo? || h in before + turned then next == turned
            else next == turned + {h} && Slots(ts, next) == Slots(ts, turned) + AllFiles(ts[h])
                 && before + next == before + turned + {h}
  {
    hide AllFiles;
    var turned, next := Turned(ts, before, todo), Turned(ts, before, todo - {h});
    if ts[h].Content? && h !in before {
      assert next == turned + {h};
      SlotsGrow(ts, turned, h);
    } else {
      assert next == turned;
    }
  }

  lemma SlotsGrow(ts: map<string, Content>, hashes: set<string>, h: string)
    requires h in ts
    ensures Slots(ts, hashes + {h}) == Slots(ts, hashes) + AllFiles(ts[h])
  {
    hide AllFiles;
  }

  // ---------- What loading and removing amount to ----------

  /** A file whose key was free, that is no archive and shares no path with another waiting file, is
      shown after loading, in every order. */
  lemma LoadShows(t: Tree, t': Tree, archives: set<string>, slots: set<Slot>, s: Slot)
    requires Loaded(t, t', archives, slots) && s in slots && s.key !in t.files && Ext(s.key) !in archives
    requires forall o | o in slots && Above(s.key, o.key) :: o == s
    ensures Shown(t', s)
  {
    hide Ext;
    assert Above(s.key, s.key);
    assert AtOrAbove(s.key, slots);
  }

  // ---------- Where files go ----------

  /** A relative path of proper names is the key of those names. */
  lemma NamesKey(st: seq<string>)
    requires Names(st) && st != []
    ensures CleanKey(JoinSegments(st)) == Render(true, st) && Canonical(true, st)
  {
    hide Segments, PushAll, JoinSegments, Names;
    NamesCanonical(st);
    JoinWithoutBackslash(st);
    SlashesOfClean(JoinSegments(st));
    StepsOfRender(true, st);
    assert "/" + JoinSegments(st) == Render(true, st);
  }

  lemma JoinWithoutBackslash(st: seq<string>)
    requires Names(st)
    ensures '\\' !in JoinSegments(st)
  {
    JoinWithout(st, '\\');
  }

  /** Joining a name and a relative path of proper names joins their names. */
  lemma JoinNames(m: string, st: seq<string>)
    requires IsName(m) && Names(st) && st != []
    ensures Join(m, JoinSegments(st)) == JoinSegments([m] + st) && Names([m] + st)
  {
    hide Segments, PushAll, JoinSegments, Steps;
    FirstOfNames(st);
    PathTrees.JoinOne(m);
    OverlayLister.JoinConcat([m], st);
    NamesAreRelative([m] + st);
    StepsOfRender(false, [m] + st);
  }

  lemma FirstOfNames(st: seq<string>)
    requires Names(st) && st != []
    ensures JoinSegments(st) != ""
  {
    JoinNonEmpty(st);
  }

  /** After a load a torrent's lone file is shown in a directory named after the torrent, if nothing
      else is in its way. */
  lemma LoneFileShown(t: Tree, t': Tree, archives: set<string>, ts: map<string, Content>, registered: set<string>,
                      h: string, m: string, st: seq<string>, length: int)
    requires Loaded(t, t', archives, Slots(ts, Waiting(ts, registered)))
    requires h in ts && h !in registered && ts[h] == Content(m, [FileInfo(JoinSegments(st), length)])
    requires IsName(m) && Names(st) && st != []
    requires var key := Render(true, [m] + st);
             && key !in t.files && Ext(key) !in archives
             && forall s | s in Slots(ts, Waiting(ts, registered)) && Above(key, s.key) :: s == Slot(key, length)
    ensures Shown(t', Slot(Render(true, [m] + st), length))
  {
    hide Loaded, Names, IsName, Ext, Above, Shown, JoinSegments, Render;
    JoinNames(m, st);
    NamesKey([m] + st);
    WaitingSlot(ts, registered, h, 0);
    LoadShows(t, t', archives, Slots(ts, Waiting(ts, registered)), Slot(Render(true, [m] + st), length));
  }

  /** A file named n of a torrent m, alone, is at /m/n. */
  lemma LoneNameKey(m: string, n: string)
    requires IsName(m) && IsName(n)
    ensures Render(true, [m] + [n]) == Child(Child("/", m), n)
  {
    PathTrees.JoinOne(m);
    assert ([m] + [n])[..1] == [m];
    JoinSegmentsInit([m] + [n]);
  }

  /** Each file of a torrent with several is shown where its own path says, likewise. */
  lemma FileOfManyShown(t: Tree, t': Tree, archives: set<string>, ts: map<string, Content>, registered: set<string>,
                        h: string, i: nat, st: seq<string>)
    requires Loaded(t, t', archives, Slots(ts, Waiting(ts, registered)))
    requires h in ts && h !in registered && ts[h].Content? && |ts[h].files| != 1 && i < |ts[h].files|
    requires ts[h].files[i].path == JoinSegments(st) && Names(st) && st != []
    requires var key := Render(true, st);
             && key !in t.files && Ext(key) !in archives
             && forall s | s in Slots(ts, Waiting(ts, registered)) && Above(key, s.key) ::
                  s == Slot(key, ts[h].files[i].length)
    ensures Shown(t', Slot(Render(true, st), ts[h].files[i].length))
  {
    hide Loaded, Names, IsName, Ext, Above, Shown, JoinSegments, Render;
    NamesKey(st);
    WaitingSlot(ts, registered, h, i);
    LoadShows(t, t', archives, Slots(ts, Waiting(ts, registered)), Slot(Render(true, st), ts[h].files[i].length));
  }

  lemma WaitingSlot(ts: map<string, Content>, registered: set<string>, h: string, i: nat)
    requires h in ts && h !in registered && ts[h].Content? && i < |ts[h].files|
    ensures Slot(KeyAt(ts[h], i), ts[h].files[i].length) in Slots(ts, Waiting(ts, registered))
  {
    hide KeyAt, SlotsOf;
    var s := Slot(KeyAt(ts[h], i), ts[h].files[i].length);
    SlotsOfAt(ts[h], |ts[h].files|, s);
    assert h in Waiting(ts, registered) && s in AllFiles(ts[h]);
  }

  // ---------- Loads after loads ----------

  /** What was shown stays shown, and two loads make one. */
  lemma LoadedTwice(t: Tree, t': Tree, t'': Tree, archives: set<string>, first: set<Slot>, second: set<Slot>)
    requires Loaded(t, t', archives, first) && Loaded(t', t'', archives, second)
    ensures Loaded(t, t'', archives, first + second)
    ensures forall s | Shown(t', s) :: Shown(t'', s)
  {
    hide Ext, AtOrAbove, BelowAny, TreeLaws.GoodTree, Fits;
    FitsTwice(t, t', archives, first, second);
    forall q { EitherSlots(q, first, second); }
  }

  lemma FitsTwice(t: Tree, t': Tree, archives: set<string>, first: set<Slot>, second: set<Slot>)
    requires Loaded(t, t', archives, first)
    ensures Fits(t, archives, first + second) ==> Fits(t, archives, first) && Fits(t', archives, second)
  {
    hide Ext, AtOrAbove, BelowAny, Above, TreeLaws.GoodTree;
    var both := first + second;
    if Fits(t, archives, both) {
      FewerFit(t, archives, first, both);
      forall s, q | s in second && StrictlyAbove(q, s.key) && q in t'.files ensures t'.files[q].IsDir() {
        assert s in both;
        NewLeafIsSlot(t, t', archives, first, q);
      }
    }
  }

  lemma EitherSlots(q: string, first: set<Slot>, second: set<Slot>)
    ensures AtOrAbove(q, first + second) <==> AtOrAbove(q, first) || AtOrAbove(q, second)
    ensures BelowAny(q, first + second) <==> BelowAny(q, first) || BelowAny(q, second)
  {
    hide Above;
    var both := first + second;
    forall s ensures s in both <==> s in first || s in second {}
    if s :| s in first && Above(q, s.key) { assert s in both; }
    if s :| s in second && Above(q, s.key) { assert s in both; }
    if s :| s in first && StrictlyAbove(q, s.key) { assert s in both; }
    if s :| s in second && StrictlyAbove(q, s.key) { assert s in both; }
  }

  /** Every file of the torrents `hashes`, archives apart, is shown. */
  ghost predicate AllShown(t: Tree, archives: set<string>, ts: map<string, Content>, hashes: set<string>)
    requires t.sizes.Keys == t.files.Keys
  {
    forall s | s in Slots(ts, hashes) && Ext(s.key) !in archives :: Shown(t, s)
  }

  /** The tree holds nothing but what the torrents `hashes` put there. */
  ghost predicate OnlyFrom(t: Tree, ts: map<string, Content>, hashes: set<string>) {
    forall q | q in t.files :: q == "/" || AtOrAbove(q, Slots(ts, hashes))
  }

  /** While no two files known share a path, a load that finds the registered torrents shown, and nothing
      else stored, leaves every file of every torrent shown, and nothing else stored. */
  lemma LoadingCompletes(t: Tree, t': Tree, archives: set<string>, ts: map<string, Content>, registered: set<string>)
    requires Loaded(t, t', archives, Slots(ts, Waiting(ts, registered)))
    requires AllShown(t, archives, ts, registered) && OnlyFrom(t, ts, registered)
    requires Apart(Slots(ts, ts.Keys)) && forall s | s in Slots(ts, ts.Keys) :: s.key != "/"
    ensures AllShown(t', archives, ts, ts.Keys) && OnlyFrom(t', ts, registered + Waiting(ts, registered))
  {
    hide Ext, Above, AllFiles, Slots;
    var waiting, all := Waiting(ts, registered), Slots(ts, ts.Keys);
    SlotsSplit(ts, registered);
    forall s | s in all && Ext(s.key) !in archives ensures Shown(t', s) {
      if s !in Slots(ts, registered) {
        assert s.key !in t.files;
        LoadShows(t, t', archives, Slots(ts, waiting), s);
      }
    }
  }

  lemma SlotsSplit(ts: map<string, Content>, registered: set<string>)
    ensures Slots(ts, ts.Keys) == Slots(ts, registered) + Slots(ts, Waiting(ts, registered))
    ensures Slots(ts, registered + Waiting(ts, registered)) == Slots(ts, ts.Keys)
  {
    forall s
      ensures s in Slots(ts, ts.Keys) <==> s in Slots(ts, registered) || s in Slots(ts, Waiting(ts, registered))
    {
      if s in Slots(ts, ts.Keys) {
        var h :| h in ts && s in AllFiles(ts[h]);
        assert h in registered || h in Waiting(ts, registered);
      }
    }
  }

  /** A second load changes nothing. */
  lemma LoadedOnce(t: Tree, t': Tree, archives: set<string>, ts: map<string, Content>, registered: set<string>)
    requires var again := Waiting(ts, registered + Waiting(ts, registered)); Loaded(t, t', archives, Slots(ts, again))
    ensures Waiting(ts, registered + Waiting(ts, registered)) == {} && t' == t
  {
    hide Ext, Above, TreeLaws.GoodTree, Fits;
    assert Waiting(ts, registered + Waiting(ts, registered)) == {};
    assert Slots(ts, {}) == {};
  }

  /** What RemoveTorrent leaves: an empty root. */
  ghost predicate Emptied(t: Tree) {
    t.files.Keys == {"/"} && t.sizes.Keys == {"/"} && t.files["/"].IsDir()
  }

  /** After a removal and the next load a key is stored exactly if it is the root or lies at or above a
      file of a torrent that was not registered. */
  lemma StoredAfterRemovalIff(t: Tree, t': Tree, archives: set<string>, ts: map<string, Content>,
                              registered: set<string>, h: string, q: string)
    requires Emptied(t) && Loaded(t, t', archives, Slots(ts - {h}, Waiting(ts - {h}, registered - {h})))
    ensures q in t'.files <==>
            q == "/" || (Ext(q) !in archives && AtOrAbove(q, Slots(ts, Waiting(ts, registered) - {h})))
  {
    hide Ext, Above;
    RemovedSlots(ts, registered, h);
  }

  lemma RemovedSlots(ts: map<string, Content>, registered: set<string>, h: string)
    ensures Slots(ts - {h}, Waiting(ts - {h}, registered - {h})) == Slots(ts, Waiting(ts, registered) - {h})
  {
    hide AllFiles;
    var waiting := Waiting(ts, registered) - {h};
    assert Waiting(ts - {h}, registered - {h}) == waiting;
    assert forall g | g in waiting :: g in ts - {h} && (ts - {h})[g] == ts[g];
  }

  /** What is shown after a removal and the next load is a file of a torrent that was not registered: all
      others are lost. */
  lemma RemovalLosesOthers(t: Tree, t': Tree, archives: set<string>, ts: map<string, Content>, registered: set<string>,
                           h: string)
    requires Emptied(t) && Loaded(t, t', archives, Slots(ts - {h}, Waiting(ts - {h}, registered - {h})))
    ensures forall s | Shown(t', s) :: s in Slots(ts, Waiting(ts, registered) - {h})
  {
    hide Ext, Above, AllFiles, Slots;
    RemovedSlots(ts, registered, h);
  }

  /** Removing `h` leaves another torrent whole after the next load exactly when every file of it, that is
      not an archive, is a file of a torrent that was not registered: every registered torrent that shares
      no file with such a one has vanished. Told for waiting files that share no path with each other. */
  lemma RemovalKeepsWholeIff(t: Tree, t': Tree, archives: set<string>, ts: map<string, Content>,
                             registered: set<string>, h: string, g: string)
    requires Emptied(t) && Loaded(t, t', archives, Slots(ts - {h}, Waiting(ts - {h}, registered - {h})))
    requires Apart(Slots(ts, Waiting(ts, registered) - {h})) && g in ts
    ensures (forall s | s in AllFiles(ts[g]) && Ext(s.key) !in archives :: Shown(t', s)) <==>
            forall s | s in AllFiles(ts[g]) && Ext(s.key) !in archives ::
              s.key != "/" && s in Slots(ts, Waiting(ts, registered) - {h})
  {
    hide Ext, Above, AllFiles, Slots;
    RemovedSlots(ts, registered, h);
    var slots := Slots(ts, Waiting(ts, registered) - {h});
    forall s | s in AllFiles(ts[g]) && Ext(s.key) !in archives
      ensures Shown(t', s) <==> s.key != "/" && s in slots
    {
      if s.key != "/" && s in slots { LoadShows(t, t', archives, slots, s); }
    }
  }

  /** No file is another's, or lies below another. */
  ghost predicate Apart(slots: set<Slot>) {
    forall s, o | s in slots && o in slots && Above(s.key, o.key) :: o == s
  }

  class Torrents {
    const s: Storage.Storage
    var ts: map<string, Content>
    var registered: set<string>

    /** NewTorrent: `archives` are the extensions of SupportedFactories. */
    constructor (archives: set<string>, openArchive: File -> Filesystem)
      requires "" !in archives
      ensures fresh(s) && Valid() && s.files == map[] && s.archives == archives && ts == map[] && registered == {}
    {
      s := new Storage.Storage(archives, openArchive);
      ts, registered := map[], {};
    }

    ghost predicate Valid()
      reads this, s, s.children.Values, s.files.Values
    {
      s.Valid() && s.mounts == [] && TreeLaws.Closed(s.files, s.archives)
    }

    lemma ValidParts()
      ensures Valid() <==> s.Valid() && s.mounts == [] && TreeLaws.Closed(s.files, s.archives)
    {
    }

    lemma LeafIsNoDir(f: File)
      requires f.kind.Leaf?
      ensures f !in s.Dirs()
    {
    }

    method AddTorrent(h: string, t: Content)
      requires Valid()
      modifies this`ts
      ensures Valid() && ts == old(ts)[h := t]
    {
      ts := ts[h := t];
    }

    /** Empties the whole tree, but forgets to have loaded only `h`. */
    method RemoveTorrent(h: string)
      requires Valid()
      modifies this, s
      ensures Valid() && Emptied(s.Tree())
      ensures ts == old(ts) - {h} && registered == old(registered) - {h}
    {
      hide *;
      ValidParts();
      s.Clear();
      s.TreeParts();
      ClearedIsEmptied(s.Tree(), s.archives);
      ValidParts();
      ts, registered := ts - {h}, registered - {h};
      ValidParts();
      s.TreeParts();
    }

    method Load()
      requires Valid()
      modifies this`registered, s, s.children.Values, s.Dirs()
      ensures forall h :: h in registered <==> h in old(registered) || (h in ts && ts[h].Content?)
      ensures Valid() && registered == old(registered) + Waiting(ts, old(registered))
      ensures Loaded(old(s.Tree()), s.Tree(), s.archives, Slots(ts, Waiting(ts, old(registered))))
      ensures fresh(s.children.Values - old(s.children.Values))
      ensures forall g | g in s.Dirs() :: g in old(s.Dirs()) || fresh(g)
    {
      hide *;
      var todo := ts.Keys;
      ghost var was, before := s.Tree(), registered;
      s.TreeParts();
      NothingLoaded(was, s.archives);
      NoneTurned(ts, before);
      while todo != {}
        invariant Valid() && todo <= ts.Keys && registered == before + Turned(ts, before, todo)
        invariant Loaded(was, s.Tree(), s.archives, Slots(ts, Turned(ts, before, todo)))
        invariant fresh(s.children.Values - old(s.children.Values))
        invariant forall g | g in s.Dirs() :: g in old(s.Dirs()) || fresh(g)
        decreases |todo|
      {
        var h :| h in todo;
        NextTurn(ts, before, todo, h);
        LoadOne(h, was, Slots(ts, Turned(ts, before, todo)));
        todo := todo - {h};
      }
      AllTurned(ts, before);
      WaitingAll(ts, before);
    }

    /** One torrent of the loop in load; `slots` are those loaded so far. */
    method LoadOne(h: string, ghost was: Tree, ghost slots: set<Slot>)
      requires Valid() && h in ts && Loaded(was, s.Tree(), s.archives, slots)
      modifies this`registered, s, s.children.Values, s.Dirs()
      ensures Valid()
      ensures if ts[h].NoInfo? || h in old(registered)
              then registered == old(registered) && Loaded(was, s.Tree(), s.archives, slots)
              else registered == old(registered) + {h} && Loaded(was, s.Tree(), s.archives, slots + AllFiles(ts[h]))
      ensures fresh(s.children.Values - old(s.children.Values))
      ensures forall g | g in s.Dirs() :: g in old(s.Dirs()) || fresh(g)
    {
      hide *;
      if h in registered || ts[h].NoInfo? {
        return;
      }
      AddFiles(ts[h], was, slots);
      ValidParts();
      registered := registered + {h};
      ValidParts();
      s.TreeParts();
    }

    /** Adds a torrent's files in turn, ignoring the ones the storage refuses. */
    method AddFiles(c: Content, ghost was: Tree, ghost slots: set<Slot>)
      requires Valid() && c.Content? && Loaded(was, s.Tree(), s.archives, slots)
      modifies s, s.children.Values, s.Dirs()
      ensures Valid() && Loaded(was, s.Tree(), s.archives, slots + AllFiles(c))
      ensures fresh(s.children.Values - old(s.children.Values))
      ensures forall g | g in s.Dirs() :: g in old(s.Dirs()) || fresh(g)
    {
      hide *;
      var i := 0;
      NoSlots(c, slots);
      while i < |c.files|
        invariant Valid() && i <= |c.files| && Loaded(was, s.Tree(), s.archives, slots + SlotsOf(c, i))
        invariant fresh(s.children.Values - old(s.children.Values))
        invariant forall g | g in s.Dirs() :: g in old(s.Dirs()) || fresh(g)
      {
        AddFile(c, i, was, slots + SlotsOf(c, i));
        NextSlot(c, i);
        assert slots + SlotsOf(c, i) + {Slot(KeyAt(c, i), c.files[i].length)} == slots + SlotsOf(c, i + 1);
        i := i + 1;
      }
    }

    method AddFile(c: Content, i: nat, ghost was: Tree, ghost slots: set<Slot>)
      requires Valid() && c.Content? && i < |c.files| && Loaded(was, s.Tree(), s.archives, slots)
      modifies s, s.children.Values, s.Dirs()
      ensures Valid()
      ensures Loaded(was, s.Tree(), s.archives, slots + {Slot(KeyAt(c, i), c.files[i].length)})
      ensures fresh(s.children.Values - old(s.children.Values))
      ensures forall g | g in s.Dirs() :: g in old(s.Dirs()) || fresh(g)
    {
      hide *;
      var f := new File(Leaf, c.files[i].length);
      ghost var tree, space, length := s.Tree(), s.Space(), f.size;
      s.TreeParts();
      ValidParts();
      LeafIsNoDir(f);
      NextSlot(c, i);
      var r := s.Add(f, PathAt(c, i));
      s.TreeParts();
      OneMoreSlot(was, tree, s.Tree(), s.archives, slots, space, KeyAt(c, i), f, r.Ok?, length);
      ValidParts();
    }

    method Open(filename: string) returns (r: Result<File>)
      requires Valid()
      modifies this`registered, s, s.children.Values, s.Dirs()
      ensures Valid() && registered == old(registered) + Waiting(ts, old(registered))
      ensures Loaded(old(s.Tree()), s.Tree(), s.archives, Slots(ts, Waiting(ts, old(registered))))
      ensures r == if CleanKey(filename) in s.files then Ok(s.files[CleanKey(filename)]) else Err(NotExist)
    {
      hide Loaded, Slots, Waiting, TreeLaws.Closed, CleanKey;
      Load();
      r := s.Get(filename);
    }

    /** Loads, then lists what the storage lists, in a map of its own. */
    method ReadDir(path: string) returns (r: Result<Listing>)
      requires Valid()
      modifies this`registered, s, s.children.Values, s.Dirs()
      ensures Valid() && registered == old(registered) + Waiting(ts, old(registered))
      ensures Loaded(old(s.Tree()), s.Tree(), s.archives, Slots(ts, Waiting(ts, old(registered))))
      ensures r.Ok? && fresh(r.value) && r.value.entries == s.ListedAt(CleanKey(path))
    {
      hide Loaded, Slots, Waiting, TreeLaws.Closed, CleanKey;
      Load();
      r := s.Children(path);
    }
  }

  lemma ClearedIsEmptied(t: Tree, archives: set<string>)
    requires TreeLaws.GoodTree(t) && t.files.Keys == {"/"} && t.sizes == map["/" := 0]
    ensures Emptied(t) && TreeLaws.Closed(t.files, archives)
  {
    RootIsKey();
  }
}
