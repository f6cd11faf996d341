/** The laws the file tree of fs/storage.go keeps while nothing is mounted in it: the files, the
    listings and the incrementally kept directory sizes describe one and the same tree. */
module TreeLaws {
  import opened Files
  import opened Int64
  import opened Paths
  import opened StoragePaths
  import opened StorageTree
  import opened Totals
  import opened Wrappers

  ghost predicate KeysStored(t: Tree) {
    && t.sizes.Keys == t.files.Keys
    && (forall p | p in t.files :: IsKey(p))
    && ("/" in t.files ==> t.files["/"].IsDir())
  }

  /** Every stored key hangs from a stored directory whose listing names the very same object. */
  ghost predicate Hanging(t: Tree) {
    forall p | p in t.files && p != "/" ::
      Parent(p) in t.files && t.files[Parent(p)].IsDir() && Entry(t.listed, p) == Some(t.files[p])
  }

  /** Listings belong to stored directories and name only what is stored. */
  ghost predicate ListsStored(t: Tree) {
    && (forall d | d in t.listed :: d in t.files && t.files[d].IsDir())
    && (forall q | IsKey(q) && q != "/" && Entry(t.listed, q).Some? :: q in t.files)
  }

  /** Files and listings agree. */
  ghost predicate Coherent(t: Tree) {
    KeysStored(t) && Hanging(t) && ListsStored(t) && ProperNames(t.listed)
  }

  /** The files below `d` with their sizes. */
  ghost function LeavesBelow(t: Tree, d: string): map<string, int>
    requires t.sizes.Keys == t.files.Keys
  {
    map p | p in t.files && t.files[p].kind.Leaf? && StrictlyAbove(d, p) :: t.sizes[p]
  }

  /** Every Dir has the size of the files below it, in 64-bit arithmetic. */
  ghost predicate SizesExact(t: Tree)
    requires t.sizes.Keys == t.files.Keys
  {
    forall d | d in t.files && t.files[d].kind.Dir? :: t.sizes[d] == Wrap(Total(LeavesBelow(t, d)))
  }

  function Bare(t: Tree): Space {
    Space(t.files, map[], [])
  }

  // ---------- Existence ----------

  lemma {:induction false} AncestorsStored(t: Tree, d: string, p: string)
    requires Coherent(t) && p in t.files && Above(d, p)
    ensures d in t.files
    decreases |p|
  {
    if d != p { AncestorsStored(t, d, Parent(p)); }
  }

  /** Without mounts, what is missing for `p` is every unstored key at or above it. */
  lemma {:induction false} MissingIsUnstored(t: Tree, p: string)
    requires Coherent(t) && IsKey(p)
    ensures forall q :: q in Missing(Bare(t), p) <==> Above(q, p) && q !in t.files
    decreases |p|
  {
    hide CleanKey, Parent;
    AboveSteps(p);
    if p in t.files {
      forall q | Above(q, p) ensures q in t.files { AncestorsStored(t, q, p); }
    } else if p != "/" {
      KeyParent(p);
      MissingIsUnstored(t, Parent(p));
    }
  }

  /** The stored parent of a missing key is the anchor. */
  lemma {:induction false} AnchorHolds(s: Space, p: string, q: string)
    requires IsKey(p) && q in Missing(s, p) && q != "/" && Probe(s, Parent(q)).Some?
    ensures Anchor(s, p) == Probe(s, Parent(q))
    decreases |p|
  {
    KeyParent(p);
    if q != p { AnchorHolds(s, Parent(p), q); }
  }

  // ---------- The laws of Add ----------

  ghost predicate Added(t: Tree, t': Tree, p: string, f: File, size: int) {
    AddEffect(t, t', Missing(Bare(t), p), {}, p, f, Accepts(Bare(t), p, f), size)
  }

  /** What an Add leaves behind: the keys stored before, and all of the key's ancestors. */
  lemma AddedKeys(t: Tree, t': Tree, p: string, f: File, size: int)
    requires Coherent(t) && IsKey(p) && Added(t, t', p, f, size)
    ensures forall q :: q in t'.files <==> q in t.files || Above(q, p)
    ensures forall q | q in t.files :: t'.files[q] == t.files[q]
    ensures p !in t.files ==> t'.files[p] == f
    ensures forall q | q in t'.files && q !in t.files && q != p :: t'.files[q].kind.Dir?
  {
    MissingIsUnstored(t, p);
    AboveSteps(p);
    if p in t.files {
      forall q | Above(q, p) ensures q in t.files { AncestorsStored(t, q, p); }
    }
  }

  lemma AcceptedParents(t: Tree, t': Tree, p: string, f: File, size: int, q: string)
    requires Coherent(t) && IsKey(p) && Added(t, t', p, f, size) && Accepts(Bare(t), p, f)
    requires q in Missing(Bare(t), p)
    ensures Parent(q) in t'.files && t'.files[Parent(q)].IsDir()
  {
    AddedKeys(t, t', p, f, size);
    MissingIsUnstored(t, p);
    MissingKeys(Bare(t), p);
    if q == "/" {
      RootIsKey();
      if p != "/" { AboveSteps(p); RootNotBelow(p); }
    } else {
      KeyParent(q);
      AboveSteps(q);
      AboveTransitive(Parent(q), q, p);
      AboveIsShorter(q, p);
      if Parent(q) in t.files { AnchorHolds(Bare(t), p, q); AcceptsAnchor(Bare(t), p, f); }
    }
  }

  lemma RootNotBelow(p: string)
    requires IsKey(p) && p != "/"
    ensures !Above(p, "/")
  {
  }

  lemma AcceptsAnchor(s: Space, p: string, f: File)
    requires IsKey(p) && p != "/" && Probe(s, p).None?
    ensures Anchor(s, p) == Anchor(s, Parent(p))
  {
    KeyParent(p);
  }

  /** After an accepted Add every stored key hangs from a stored directory that lists it. */
  lemma AddedHangs(t: Tree, t': Tree, p: string, f: File, size: int, q: string)
    requires Coherent(t) && IsKey(p) && Added(t, t', p, f, size) && Accepts(Bare(t), p, f)
    requires q in t'.files && q != "/"
    ensures Parent(q) in t'.files && t'.files[Parent(q)].IsDir() && Entry(t'.listed, q) == Some(t'.files[q])
  {
    hide CleanKey, Parent, Base, Missing, Accepts, Above, Entry, ProperNames, IsKey, FilesGrow, SizesGrow, ListsStored;
    AddedKeys(t, t', p, f, size);
    MissingIsUnstored(t, p);
    MissingKeys(Bare(t), p);
    if q in Missing(Bare(t), p) { AcceptedParents(t, t', p, f, size, q); }
  }

  lemma AddedKeysStored(t: Tree, t': Tree, p: string, f: File, size: int)
    requires Coherent(t) && IsKey(p) && Added(t, t', p, f, size) && Accepts(Bare(t), p, f)
    ensures KeysStored(t') && ProperNames(t'.listed)
  {
    hide CleanKey, Parent, Base, Missing, Anchor, Entry, IsKey, Hanging, ListsStored, ProperNames, FilesGrow, Above;
    AddedKeys(t, t', p, f, size);
    forall q | q in t'.files ensures IsKey(q) { if q !in t.files { AboveIsKey(q, p); } }
  }

  /** After an accepted Add listings belong to directories and list only what is stored. */
  lemma AddedListings(t: Tree, t': Tree, p: string, f: File, size: int)
    requires Coherent(t) && IsKey(p) && Added(t, t', p, f, size) && Accepts(Bare(t), p, f)
    ensures ListsStored(t')
  {
    hide CleanKey, Parent, Base, Missing, Accepts, Above, Entry, ProperNames, IsKey, Hanging, FilesGrow, SizesGrow;
    var missing := Missing(Bare(t), p);
    AddedKeys(t, t', p, f, size);
    MissingIsUnstored(t, p);
    forall q | q in missing ensures Parent(q) in t'.files && t'.files[Parent(q)].IsDir() {
      AcceptedParents(t, t', p, f, size, q);
    }
  }

  /** An accepted Add keeps files and listings in agreement. */
  lemma AddKeepsCoherence(t: Tree, t': Tree, p: string, f: File, size: int)
    requires Coherent(t) && IsKey(p) && Added(t, t', p, f, size) && Accepts(Bare(t), p, f)
    ensures Coherent(t')
  {
    hide KeysStored, ListsStored, ProperNames, Added, Accepts, Parent, Base, Entry, IsKey;
    AddedKeysStored(t, t', p, f, size);
    AddedListings(t, t', p, f, size);
    forall q | q in t'.files && q != "/"
      ensures Parent(q) in t'.files && t'.files[Parent(q)].IsDir() && Entry(t'.listed, q) == Some(t'.files[q])
    {
      AddedHangs(t, t', p, f, size, q);
    }
  }

  /** A refused Add at a new key leaves that key stored and unlisted. */
  lemma RefusedAddOrphans(t: Tree, t': Tree, p: string, f: File, size: int)
    requires Coherent(t) && IsKey(p) && Added(t, t', p, f, size) && !Accepts(Bare(t), p, f) && p !in t.files
    ensures p in t'.files && t'.files[p] == f
    ensures p != "/" ==> Entry(t'.listed, p) == None
    ensures !Coherent(t')
  {
  }

  /** Add keeps the tree coherent exactly when it reports success or finds its key stored. */
  lemma AddCoherentIff(t: Tree, t': Tree, p: string, f: File, size: int)
    requires Coherent(t) && IsKey(p) && Added(t, t', p, f, size)
    ensures Coherent(t') <==> Accepts(Bare(t), p, f) || p in t.files
  {
    if Accepts(Bare(t), p, f) {
      AddKeepsCoherence(t, t', p, f, size);
    } else if p !in t.files {
      RefusedAddOrphans(t, t', p, f, size);
    } else {
      PresentAdd(t, t', p, f, size);
    }
  }

  lemma PresentAdd(t: Tree, t': Tree, p: string, f: File, size: int)
    requires Coherent(t) && p in t.files && Added(t, t', p, f, size) && !Accepts(Bare(t), p, f)
    ensures t' == t
  {
    hide CleanKey, Parent, Base, Above, Entry, Hanging, ListsStored, ProperNames, Linked, Ext, IsKey;
    assert Missing(Bare(t), p) == {};
    assert t'.files == t.files;
    assert t'.sizes == t.sizes;
    assert t' == t;
  }

  // ---------- Sizes ----------

  lemma NothingBelowUnstored(t: Tree, d: string)
    requires Coherent(t) && d !in t.files
    ensures LeavesBelow(t, d) == map[]
  {
    forall p | p in t.files && StrictlyAbove(d, p) ensures false { AncestorsStored(t, d, p); }
  }

  /** An accepted Add puts a new file below exactly the directories above it. */
  lemma AddedLeaves(t: Tree, t': Tree, p: string, f: File, size: int, d: string)
    requires Coherent(t) && IsKey(p) && Added(t, t', p, f, size)
    requires t'.sizes.Keys == t'.files.Keys && d in t'.files
    ensures LeavesBelow(t', d) ==
            if p !in t.files && f.kind.Leaf? && StrictlyAbove(d, p)
            then LeavesBelow(t, d)[p := size]
            else LeavesBelow(t, d)
    ensures p !in LeavesBelow(t, d) || p in t.files
  {
    hide Coherent, Added, Above, StrictlyAbove, IsKey;
    CoherentSizes(t);
    AddedLeafSizes(t, t', p, f, size);
    var grows := p !in t.files && f.kind.Leaf? && StrictlyAbove(d, p);
    assert forall q :: q in LeavesBelow(t', d) <==> q in LeavesBelow(t, d) || (q == p && grows);
  }

  lemma CoherentSizes(t: Tree)
    requires Coherent(t)
    ensures t.sizes.Keys == t.files.Keys
  {
  }

  /** The files after an Add, with their sizes: those before, and the new one. */
  lemma AddedLeafSizes(t: Tree, t': Tree, p: string, f: File, size: int)
    requires Coherent(t) && IsKey(p) && Added(t, t', p, f, size) && t'.sizes.Keys == t'.files.Keys
    ensures p in t'.files && (p !in t.files ==> t'.files[p] == f)
    ensures forall q | q in t.files :: q in t'.files && t'.files[q] == t.files[q]
    ensures forall q | q in t'.files && q !in t.files && q != p :: t'.files[q].kind.Dir?
    ensures forall q | q in t'.files && t'.files[q].kind.Leaf? ::
              t'.sizes[q] == if q in t.files then t.sizes[q] else size
  {
    hide CleanKey, Parent, Base, Above, Entry, Linked, Missing, Accepts, Hanging, ListsStored, FilesGrow, Ext, IsKey;
    AddedKeys(t, t', p, f, size);
    AboveSteps(p);
  }

  lemma AddedSize(t: Tree, t': Tree, p: string, f: File, size: int, d: string)
    requires Coherent(t) && IsKey(p) && Added(t, t', p, f, size) && Accepts(Bare(t), p, f)
    requires f.kind.Dir? ==> size == 0
    requires t'.sizes.Keys == t'.files.Keys && d in t'.files && t'.files[d].kind.Dir?
    requires d in t.files ==> t.sizes[d] == Wrap(Total(LeavesBelow(t, d)))
    ensures t'.sizes[d] == Wrap(Total(LeavesBelow(t', d)))
  {
    hide CleanKey, Base, Entry, Linked, Hanging, ListsStored, FilesGrow, Ext, IsKey, LeavesBelow, Total, Wrap;
    AddedKeys(t, t', p, f, size);
    AddedLeaves(t, t', p, f, size, d);
    AboveSteps(p);
    if d !in t.files { NothingBelowUnstored(t, d); EmptyTotal(); }
    var leaves := LeavesBelow(t, d);
    if p !in t.files && f.kind.Leaf? && StrictlyAbove(d, p) {
      assert p in Missing(Bare(t), p) by { MissingIsUnstored(t, p); }
      TotalInsert(leaves, p, size);
      WrapAdd(Total(leaves), size);
    }
  }

  lemma EmptyTotal()
    ensures Total<string>(map[]) == 0 && Wrap(0) == 0
  {
  }

  /** Size conservation: an accepted Add of a file, or of an empty Dir, keeps every directory's
      size equal to the sum of the files below it. */
  lemma AddKeepsSizes(t: Tree, t': Tree, p: string, f: File, size: int)
    requires Coherent(t) && SizesExact(t) && IsKey(p) && Added(t, t', p, f, size) && Accepts(Bare(t), p, f)
    requires f.kind.Dir? ==> size == 0
    ensures Coherent(t') && SizesExact(t')
  {
    hide Added, Accepts, LeavesBelow, Total, Wrap, Hanging, ListsStored, ProperNames, IsKey;
    AddKeepsCoherence(t, t', p, f, size);
    forall d | d in t'.files && t'.files[d].kind.Dir? ensures t'.sizes[d] == Wrap(Total(LeavesBelow(t', d))) {
      if d in t.files { AddedKeys(t, t', p, f, size); }
      AddedSize(t, t', p, f, size, d);
    }
  }

  ghost predicate GoodTree(t: Tree) {
    Coherent(t) && SizesExact(t)
  }

  /** The law of Add: it keeps a good tree good exactly when it reports success or finds its key
      stored. */
  lemma AddLaw(t: Tree, t': Tree, p: string, f: File, size: int)
    requires IsKey(p) && Added(t, t', p, f, size)
    ensures GoodTree(t) && (f.kind.Dir? ==> size == 0) ==> (GoodTree(t') <==> Accepts(Bare(t), p, f) || p in t.files)
  {
    hide Added, Accepts, LeavesBelow, Total, Wrap, Hanging, ListsStored, ProperNames, IsKey;
    if GoodTree(t) && (f.kind.Dir? ==> size == 0) {
      AddCoherentIff(t, t', p, f, size);
      if Accepts(Bare(t), p, f) {
        AddKeepsSizes(t, t', p, f, size);
      } else if p in t.files {
        PresentAdd(t, t', p, f, size);
      }
    }
  }

  /** AddLaw for a storage whose space is `s`. */
  lemma AddedIf(t: Tree, t': Tree, s: Space, archives: set<string>, p: string, f: File, size: int, ok: bool)
    requires IsKey(p) && ok == Accepts(s, p, f) && AddEffect(t, t', Missing(s, p), archives, p, f, ok, size)
    ensures s == Bare(t) && archives == {} ==>
              Added(t, t', p, f, size) &&
              (GoodTree(t) && (f.kind.Dir? ==> size == 0) ==> (GoodTree(t') <==> ok || p in t.files))
  {
    hide AddEffect, Accepts, Missing, GoodTree, IsKey;
    if s == Bare(t) && archives == {} { AddLaw(t, t', p, f, size); }
  }

  // ---------- Archives ----------

  /** Without mounts nothing but the files decides what exists, whatever filesystems are recorded. */
  lemma UnmountedFrame(s: Space, t: Tree, p: string)
    requires s.files == t.files && s.mounts == []
    ensures Missing(s, p) == Missing(Bare(t), p) && forall f :: Accepts(s, p, f) == Accepts(Bare(t), p, f)
  {
    forall q ensures Probe(s, q) == Probe(Bare(t), q) {}
    MissingFrame(s, Bare(t), p);
    MissingFrame(s, Bare(t), Parent(p));
  }

  /** An Add that opens no archive does what it does in a storage without factories. */
  lemma PlainAdd(s: Space, t: Tree, t': Tree, archives: set<string>, p: string, f: File, size: int)
    requires s.files == t.files && s.mounts == []
    requires AddEffect(t, t', Missing(s, p), archives, p, f, Accepts(s, p, f), size)
    requires forall q | q in Missing(s, p) :: Ext(q) !in archives
    ensures Added(t, t', p, f, size)
  {
    hide Linked, SizesGrow, Missing, Accepts, Ext;
    UnmountedFrame(s, t, p);
    var missing := Missing(s, p);
    assert (set q | q in missing && Ext(q) !in archives) == missing == (set q | q in missing && Ext(q) !in {});
  }

  /** With factories an accepted Add keeps the tree coherent exactly when it opens no archive, be it the
      new file or a directory above it that has an archive's extension. */
  lemma ArchiveCoherentIff(s: Space, t: Tree, t': Tree, archives: set<string>, p: string, f: File, size: int)
    requires s.files == t.files && s.mounts == [] && Coherent(t) && IsKey(p) && "" !in archives
    requires Accepts(s, p, f) && AddEffect(t, t', Missing(s, p), archives, p, f, true, size)
    ensures Coherent(t') <==> forall q | q in Missing(s, p) :: Ext(q) !in archives
  {
    hide Hanging, SizesGrow, Missing, Accepts, Ext, IsKey, ProperNames;
    UnmountedFrame(s, t, p);
    if forall q | q in Missing(s, p) :: Ext(q) !in archives {
      PlainAdd(s, t, t', archives, p, f, size);
      AddKeepsCoherence(t, t', p, f, size);
    } else {
      var q :| q in Missing(s, p) && Ext(q) in archives;
      ArchiveListed(s, t, t', archives, p, f, size, q);
    }
  }

  /** Every directory above a stored key is stored, unless it has an archive's extension. */
  ghost predicate Closed(files: map<string, File>, archives: set<string>) {
    AllKeys(files.Keys) && forall q, a | q in files && Above(a, q) :: a in files || Ext(a) in archives
  }

  /** Everything at or above `p` is missing, stored, or an archive. */
  lemma {:induction false} ChainKnown(s: Space, archives: set<string>, p: string, a: string)
    requires s.mounts == [] && Closed(s.files, archives) && IsKey(p) && Above(a, p)
    ensures a in Missing(s, p) || a in s.files || Ext(a) in archives
    decreases |p|
  {
    hide Ext, IsKey, Parent;
    AboveSteps(p);
    if p !in s.files && p != "/" {
      KeyParent(p);
      if a != p { ChainKnown(s, archives, Parent(p), a); }
    }
  }

  /** Adding a file stores exactly the unarchived keys at and above it that were not stored. */
  lemma AddedChain(t: Tree, t': Tree, archives: set<string>, s: Space, p: string, f: File, ok: bool, size: int)
    requires s.mounts == [] && s.files == t.files && Closed(t.files, archives) && IsKey(p)
    requires AddEffect(t, t', Missing(s, p), archives, p, f, ok, size)
    ensures forall q :: q in t'.files <==> q in t.files || (Ext(q) !in archives && Above(q, p))
    ensures Closed(t'.files, archives)
  {
    hide Ext, Linked, SizesGrow, Above, Missing, IsKey;
    MissingKeys(s, p);
    forall q | Above(q, p) && q !in t.files && Ext(q) !in archives ensures q in Missing(s, p) {
      ChainKnown(s, archives, p, q);
    }
    forall q, a | q in t'.files && q !in t.files && Above(a, q) ensures a in t'.files || Ext(a) in archives {
      AboveTransitive(a, q, p);
      if a !in t.files && Ext(a) !in archives { ChainKnown(s, archives, p, a); }
    }
  }

  /** An opened archive is listed but not stored. */
  lemma ArchiveListed(s: Space, t: Tree, t': Tree, archives: set<string>, p: string, f: File, size: int, q: string)
    requires IsKey(p) && s.files == t.files && "" !in archives && q in Missing(s, p) && Ext(q) in archives
    requires AddEffect(t, t', Missing(s, p), archives, p, f, true, size)
    ensures IsKey(q) && q != "/" && Entry(t'.listed, q).Some? && q !in t'.files
    ensures !ListsStored(t')
  {
    hide SizesGrow, Missing, IsKey, ProperNames, Entry;
    MissingKeys(s, p);
    NothingListed();
  }

  /** A lone empty Dir at the root, which is what Clear leaves. */
  lemma RootAlone(t: Tree)
    requires t.files.Keys == {"/"} && t.files["/"].kind.Dir? && t.sizes == map["/" := 0]
    requires t.listed.Keys == {"/"} && ProperNames(t.listed)
    requires forall q | IsKey(q) && q != "/" :: Entry(t.listed, q) == None
    ensures GoodTree(t) && t.listed == map["/" := map[]]
  {
    hide CleanKey, Parent, Base, IsName, Above, Total, Wrap;
    RootIsKey();
    assert LeavesBelow(t, "/") == map[];
    EmptyTotal();
    forall n | n in t.listed["/"] ensures false { KeyChild("/", n); }
  }

  lemma NothingListed()
    ensures Ext("/") == "" && ProperNames(map[]) && forall q :: Entry(map[], q) == None
  {
  }

  /** Adding a Dir at the root of an empty storage. */
  lemma FirstRoot(t': Tree, archives: set<string>, dir: File)
    requires "" !in archives && dir.kind.Dir?
    requires var s := Space(map[], map[], []);
             AddEffect(Tree(map[], map[], map[]), t', Missing(s, "/"), archives, "/", dir,
               Anchor(s, "/") != Some(false), 0)
    ensures t'.files.Keys == {"/"} && t'.listed == map["/" := map[]] && t'.sizes == map["/" := 0] && GoodTree(t')
    ensures Anchor(Space(map[], map[], []), "/") != Some(false)
  {
    hide CleanKey, Above, Parent, Base, Ext, GoodTree, Entry, ProperNames, IsKey;
    RootIsKey();
    NothingListed();
    assert Missing(Space(map[], map[], []), "/") == {"/"};
    assert t'.sizes == map["/" := 0];
    RootAlone(t');
  }

  lemma FirstRootArchives(filesystems: map<string, Filesystem>, archives: set<string>)
    requires "" !in archives
    requires ArchivesGrow(map[], filesystems, Missing(Space(map[], map[], []), "/"), archives)
    ensures filesystems == map[]
  {
  }

  // ---------- Whole runs ----------

  datatype Move = Adds(p: string, f: File, size: int) | Clears

  /** One call of Add, of a file or an empty Dir, or of Clear. */
  ghost predicate Moved(t: Tree, t': Tree, move: Move) {
    match move
    case Adds(p, f, size) => IsKey(p) && (f.kind.Dir? ==> size == 0) && Added(t, t', p, f, size)
    case Clears => GoodTree(t') && t'.files.Keys == {"/"}
  }

  /** The call is not an Add refused at a new key. */
  ghost predicate Succeeds(t: Tree, move: Move) {
    move.Clears? || Accepts(Bare(t), move.p, move.f) || move.p in t.files
  }

  /** Along every run the tree stays good as long as no Add is refused at a new key, and the first
      that is breaks it. */
  lemma {:induction false} RunsStayGood(trees: seq<Tree>, moves: seq<Move>, n: nat)
    requires |trees| == |moves| + 1 && GoodTree(trees[0]) && n <= |moves|
    requires forall i | 0 <= i < |moves| :: Moved(trees[i], trees[i + 1], moves[i])
    requires forall i | 0 <= i < n :: Succeeds(trees[i], moves[i])
    ensures GoodTree(trees[n])
    ensures n < |moves| ==> (GoodTree(trees[n + 1]) <==> Succeeds(trees[n], moves[n]))
  {
    hide GoodTree, Added, Accepts, IsKey;
    if n > 0 { RunsStayGood(trees, moves, n - 1); }
    if n < |moves| && moves[n].Adds? { AddLaw(trees[n], trees[n + 1], moves[n].p, moves[n].f, moves[n].size); }
  }

  // ---------- What a good tree means to its readers ----------

  /** A listing names exactly the stored keys one step below it, as the objects stored there. */
  lemma ListingIsChildren(t: Tree, d: string, n: string)
    requires Coherent(t) && IsKey(d) && IsName(n)
    ensures (d in t.listed && n in t.listed[d]) <==> Child(d, n) in t.files
    ensures d in t.listed && n in t.listed[d] ==> t.listed[d][n] == t.files[Child(d, n)]
  {
    KeyChild(d, n);
  }

  /** The root's size accounts for every file. */
  lemma RootAccountsForAll(t: Tree)
    requires GoodTree(t) && "/" in t.files && t.files["/"].kind.Dir?
    ensures t.sizes["/"] == Wrap(Total(map p | p in t.files && t.files[p].kind.Leaf? :: t.sizes[p]))
  {
    hide CleanKey, Parent, Above, Hanging, ListsStored, ProperNames, Total;
    forall p | p in t.files ensures Above("/", p) { RootAbove(p); }
    assert LeavesBelow(t, "/") == map p | p in t.files && t.files[p].kind.Leaf? :: t.sizes[p];
  }
}
