/** What a storage holds, as a value: the file map, the per-directory listings and the sizes;
    and the properties its tree is meant to have. */
module StorageTree {
  import opened Files
  import opened Int64
  import opened Paths
  import opened StoragePaths
  import opened Wrappers

  // ---------- Lookup ----------

  /** The part of a storage that decides what exists. */
  datatype Space = Space(files: map<string, File>, filesystems: map<string, Filesystem>, mounts: seq<string>)

  /** The first cached mount that is a string prefix of `p`. */
  function FirstMount(mounts: seq<string>, p: string): (r: Option<string>)
    ensures r.Some? ==> r.value in mounts && r.value <= p
    ensures r.None? ==> forall m | m in mounts :: !(m <= p)
  {
    if mounts == [] then None
    else if mounts[0] <= p then Some(mounts[0])
    else
      assert forall m | m in mounts :: m == mounts[0] || m in mounts[1..];
      FirstMount(mounts[1..], p)
  }

  /** What getFileFromFs finds: nothing, or something that is or is not a directory. */
  function MountProbe(s: Space, p: string): Option<bool> {
    match FirstMount(s.mounts, p)
    case None => None
    case Some(m) =>
      if p == m then Some(true)
      else if m !in s.filesystems then None
      else
        match s.filesystems[m].open("/" + p[|m|..])
        case Ok(f) => Some(f.IsDir())
        case Err(_) => None
  }

  function Probe(s: Space, p: string): Option<bool> {
    if p in s.files then Some(s.files[p].IsDir()) else MountProbe(s, p)
  }

  /** `p` and the directories above it that do not exist, up to the nearest one that does. */
  ghost function Missing(s: Space, p: string): set<string>
    decreases |p|
  {
    if Probe(s, p).Some? then {}
    else if p == "/" || |Parent(p)| >= |p| then {p}
    else {p} + Missing(s, Parent(p))
  }

  /** The nearest directory at or above `p` that exists, if any: is it a directory? */
  ghost function Anchor(s: Space, p: string): Option<bool>
    decreases |p|
  {
    if Probe(s, p).Some? then Probe(s, p)
    else if p == "/" || |Parent(p)| >= |p| then None
    else Anchor(s, Parent(p))
  }

  /** Whether Add of `f` at `p` reports success. */
  ghost predicate Accepts(s: Space, p: string, f: File) {
    match Probe(s, p)
    case Some(isDir) => isDir
    case None => if p == "/" then f.IsDir() else Anchor(s, Parent(p)) != Some(false)
  }

  /** A directory is accepted unless what it would hang from is a file. */
  lemma AcceptsDir(s: Space, p: string, dir: File)
    requires IsKey(p) && dir.IsDir()
    ensures Accepts(s, p, dir) <==> Anchor(s, p) != Some(false)
  {
    if p != "/" { KeyParent(p); }
  }

  lemma {:induction false} MissingFrame(s: Space, s': Space, p: string)
    requires forall q :: |q| <= |p| ==> Probe(s, q) == Probe(s', q)
    ensures Missing(s, p) == Missing(s', p) && Anchor(s, p) == Anchor(s', p)
    decreases |p|
  {
    if Probe(s, p).None? && p != "/" && |Parent(p)| < |p| {
      MissingFrame(s, s', Parent(p));
    }
  }

  lemma {:induction false} MissingAbove(s: Space, p: string, q: string)
    requires q in Missing(s, p)
    ensures Above(q, p) && Probe(s, q).None?
    decreases |p|
  {
    if q != p { MissingAbove(s, Parent(p), q); }
  }

  lemma MissingKeys(s: Space, p: string)
    requires IsKey(p)
    ensures forall q | q in Missing(s, p) :: IsKey(q) && q != "" && q !in s.files && Above(q, p)
  {
    forall q | q in Missing(s, p)
      ensures IsKey(q) && q != "" && q !in s.files && Above(q, p)
    {
      MissingAbove(s, p, q);
      AboveIsKey(q, p);
      RootSplit(q);
    }
  }

  /** `mounts` holds `keys`, longest first, without repetition. */
  ghost predicate MountList(mounts: seq<string>, keys: set<string>) {
    && (forall i | 0 <= i < |mounts| :: mounts[i] in keys)
    && forall i, j | 0 <= i < j < |mounts| :: |mounts[i]| >= |mounts[j]| && mounts[i] != mounts[j]
  }

  /** `s` is `keys` in some order, each once. */
  ghost predicate Enumerates(s: seq<string>, keys: set<string>) {
    && (forall i | 0 <= i < |s| :: s[i] in keys)
    && (forall k | k in keys :: k in s)
    && forall i, j | 0 <= i < j < |s| :: s[i] != s[j]
  }

  lemma SwapEnumerates(s: seq<string>, i: nat, j: nat, keys: set<string>)
    requires i < j < |s| && Enumerates(s, keys)
    ensures Enumerates(s[i := s[j]][j := s[i]], keys)
  {
    var t := s[i := s[j]][j := s[i]];
    forall k | k in keys ensures k in t {
      var a :| 0 <= a < |s| && s[a] == k;
      assert t[if a == i then j else if a == j then i else a] == k;
    }
  }

  lemma SortedEnumeration(s: seq<string>, keys: set<string>)
    requires Enumerates(s, keys)
    requires forall a, b | 0 <= a < |s| - 1 && a < b < |s| :: |s[a]| >= |s[b]|
    ensures MountList(s, keys)
  {
  }

  lemma {:induction false} MountFindsItself(mounts: seq<string>, keys: set<string>, p: string)
    requires MountList(mounts, keys) && p in mounts
    ensures FirstMount(mounts, p) == Some(p)
  {
    var i :| 0 <= i < |mounts| && mounts[i] == p;
    if i > 0 {
      assert |mounts[0]| >= |p| && mounts[0] != p;
      assert p == mounts[1..][i - 1];
      MountFindsItself(mounts[1..], keys, p);
    }
  }

  /** The space once `f` is recorded at `p`: as an archive, or as a file. */
  function Stored(s: Space, archives: set<string>, p: string, f: File, fs: Filesystem): Space {
    if Ext(p) in archives then s.(filesystems := s.filesystems[p := fs]) else s.(files := s.files[p := f])
  }

  lemma StoredIs(s: Space, archives: set<string>, p: string, f: File, fs: Filesystem)
    ensures Ext(p) in archives ==> Stored(s, archives, p, f, fs) == Space(s.files, s.filesystems[p := fs], s.mounts)
    ensures Ext(p) !in archives ==> Stored(s, archives, p, f, fs) == Space(s.files[p := f], s.filesystems, s.mounts)
  {
  }

  /** Recording at a key that does not exist changes no other answer. */
  lemma ProbeStored(s: Space, archives: set<string>, p: string, f: File, fs: Filesystem)
    requires Probe(s, p).None? && MountList(s.mounts, s.filesystems.Keys) && "" !in archives
    ensures p !in s.files
    ensures forall q | q != p :: Probe(Stored(s, archives, p, f, fs), q) == Probe(s, q)
    ensures p == "/" ==> Probe(Stored(s, archives, p, f, fs), p) == Some(f.IsDir())
  {
    assert Ext("/") == "";
    assert p !in s.mounts by {
      if p in s.mounts { MountFindsItself(s.mounts, s.filesystems.Keys, p); }
    }
  }

  /** What is missing above `p` once it is stored, from what was missing before. */
  lemma MissingStored(s: Space, archives: set<string>, p: string, f: File, fs: Filesystem)
    requires IsKey(p) && Probe(s, p).None? && MountList(s.mounts, s.filesystems.Keys) && "" !in archives
    ensures p !in s.files
    ensures var s1 := Stored(s, archives, p, f, fs); var missing := Missing(s1, Parent(p));
            && Missing(s, p) == missing + {p} && p !in missing && "" !in missing
            && (Accepts(s, p, f) <==> Anchor(s1, Parent(p)) != Some(false))
            && if p == "/" then Probe(s1, p).Some? && (f.kind.Leaf? ==> Anchor(s1, Parent(p)) == Some(false))
               else |Parent(p)| < |p|
  {
    hide Ext, CleanKey, Probe, Base, Parent, Stored;
    var s1 := Stored(s, archives, p, f, fs);
    ProbeStored(s, archives, p, f, fs);
    AboveSteps(p);
    if p == "/" {
      RootIsKey();
    } else {
      KeyParent(p);
      MissingFrame(s, s1, Parent(p));
      MissingKeys(s1, Parent(p));
    }
  }

  /** What createParent relies on about the keys missing above `p`. */
  lemma MissingParent(s: Space, p: string, f: File)
    requires IsKey(p) && (p == "/" ==> Probe(s, p).Some?)
    ensures CleanKey(Split(p).0) == Parent(p) && Split(p).1 == Base(p) && f.IsDir() == !f.kind.Leaf?
    ensures var missing := Missing(s, Parent(p)); p !in missing && "" !in missing && missing !! s.files.Keys
    ensures IsKey(Parent(p)) && CleanKey(Parent(p)) == Parent(p)
    ensures if p == "/" then Parent(p) == "/" && Probe(s, Parent(p)).Some? else |Parent(p)| < |p|
    ensures Base(p) != "" <==> p != "/"
  {
    RootSplit(p);
    AboveSteps(p);
    if p == "/" {
      RootIsKey();
    } else {
      KeyParent(p);
      MissingKeys(s, Parent(p));
    }
  }

  /** The keys of a chain that become archives instead of files. */
  function Archived(missing: set<string>, archives: set<string>): set<string> {
    set q | q in missing && Ext(q) in archives
  }

  /** The filesystems change only by opening archives at missing keys. */
  ghost predicate ArchivesGrow(before: map<string, Filesystem>, after: map<string, Filesystem>, missing: set<string>,
                               archives: set<string>)
  {
    && after.Keys == before.Keys + Archived(missing, archives)
    && forall q | q in before && q !in missing :: after[q] == before[q]
  }

  lemma ArchivesGrowCompose(s: Space, after: map<string, Filesystem>, missing: set<string>, archives: set<string>,
                            p: string, f: File, fs: Filesystem)
    requires ArchivesGrow(Stored(s, archives, p, f, fs).filesystems, after, missing, archives)
    ensures ArchivesGrow(s.filesystems, after, missing + {p}, archives)
    ensures Ext(p) in archives && p !in missing ==> p in after && after[p] == fs
  {
    hide Ext, Stored, Archived;
    StoredIs(s, archives, p, f, fs);
    ArchivedMore(missing, archives, p);
  }

  lemma ArchivedMore(missing: set<string>, archives: set<string>, p: string)
    ensures Archived(missing + {p}, archives) == Archived(missing, archives) + if Ext(p) in archives then {p} else {}
    ensures p !in missing ==> p !in Archived(missing, archives)
  {
    hide Ext;
  }

  // ---------- Contents ----------

  datatype Tree = Tree(files: map<string, File>, listed: map<string, map<string, File>>, sizes: map<string, int>)

  /** What the listing of its parent says about `q`. */
  function Entry(listed: map<string, map<string, File>>, q: string): Option<File> {
    if Parent(q) in listed && Base(q) in listed[Parent(q)]
    then Some(listed[Parent(q)][Base(q)])
    else None
  }

  /** No Dir object is stored under two keys. */
  ghost predicate DistinctDirs(files: map<string, File>) {
    forall p, q | p in files && q in files && p != q && files[p].kind.Dir? :: files[p] != files[q]
  }

  /** No listing object serves two directories. */
  ghost predicate DistinctListings(children: map<string, Listing>) {
    forall k, l | k in children && l in children && k != l :: children[k] != children[l]
  }

  ghost predicate AllKeys(paths: set<string>) {
    forall p | p in paths :: IsKey(p)
  }

  lemma AllKeysMore(keys: set<string>, p: string)
    requires AllKeys(keys) && IsKey(p)
    ensures AllKeys(keys + {p})
  {
    hide IsKey;
  }

  lemma MountListMore(mounts: seq<string>, keys: set<string>, p: string)
    requires MountList(mounts, keys)
    ensures MountList(mounts, keys + {p})
  {
  }

  lemma DistinctDirsStore(files: map<string, File>, p: string, f: File)
    requires DistinctDirs(files) && (f.kind.Dir? ==> f !in files.Values)
    ensures DistinctDirs(files[p := f])
  {
  }

  /** Every name listed under a key is a single proper step. */
  ghost predicate ProperNames(listed: map<string, map<string, File>>) {
    forall d, n {:trigger n in listed[d]} | d in listed && n in listed[d] :: IsKey(d) && IsName(n)
  }

  /** The files `after` are the files `before` and, at the `added` keys outside `archives`, new
      Dirs; at `p`, if it is among them, `f`. */
  ghost predicate FilesGrow(before: map<string, File>, after: map<string, File>, added: set<string>,
                            archives: set<string>, p: string, f: File)
  {
    && after.Keys == before.Keys + (set q | q in added && Ext(q) !in archives)
    && (forall q | q in before :: after[q] == before[q])
    && forall q | q in added && Ext(q) !in archives ::
         q !in before && if q == p then after[q] == f else after[q].kind.Dir? && after[q] !in before.Values
  }

  /** The listings change exactly by naming every key of `linked` in its parent's listing: `p` as
      `f`, the others as the object stored there. */
  ghost predicate Linked(before: map<string, map<string, File>>, after: map<string, map<string, File>>,
                         files: map<string, File>, linked: set<string>, p: string, f: File)
  {
    && after.Keys == before.Keys + (set q | q in linked :: Parent(q))
    && (ProperNames(before) ==> ProperNames(after))
    && forall q | IsKey(q) && q != "/" ::
         if q !in linked then Entry(after, q) == Entry(before, q)
         else Entry(after, q).Some? &&
              if q == p then Entry(after, q).value == f
              else if q in files then Entry(after, q).value == files[q]
              else Entry(after, q).value.kind.Dir?
  }

  /** Every Dir at or above `base` has grown by `size` if `grow`; a new Dir starts at 0, the new
      key `p` at `size`, and nothing else changes. */
  ghost predicate SizesGrow(before: map<string, int>, files: map<string, File>, after: map<string, int>,
                            p: string, base: string, grow: bool, size: int)
  {
    && after.Keys == files.Keys
    && forall q | q in files ::
         var was := if q in before then before[q] else if q == p then size else 0;
         after[q] == if grow && files[q].kind.Dir? && Above(q, base) then Wrap(was + size) else was
  }

  /** The sizes once every Dir at or above `base` has grown by `size`. */
  ghost function Grown(files: map<string, File>, sizes: map<string, int>, base: string, size: int): map<string, int>
    requires sizes.Keys == files.Keys
  {
    map q | q in files :: if files[q].kind.Dir? && Above(q, base) then Wrap(sizes[q] + size) else sizes[q]
  }

  /** The listings once `p` is named `f` in its parent's. */
  function Named(listed: map<string, map<string, File>>, p: string, f: File): map<string, map<string, File>> {
    var listing: map<string, File> := if Parent(p) in listed then listed[Parent(p)] else map[];
    listed[Parent(p) := if Base(p) == "" then listing else listing[Base(p) := f]]
  }

  // ---------- How the steps of Add compose ----------

  /** Storing `f` at `p` first and its missing parents after is the same as growing by all of them. */
  lemma StoreCompose(before: map<string, File>, mid: map<string, File>, after: map<string, File>,
                     missing: set<string>, archives: set<string>, p: string, f: File)
    requires p !in before && p !in missing && "" !in missing
    requires mid == if Ext(p) in archives then before else before[p := f]
    requires FilesGrow(mid, after, missing, archives, "", f)
    ensures FilesGrow(before, after, missing + {p}, archives, p, f)
  {
    hide Ext;
    forall g | g in before.Values ensures g in mid.Values {
      var q :| q in before && before[q] == g;
      assert mid[q] == g;
    }
  }

  lemma StoreSizes(before: map<string, int>, files: map<string, File>, mid: map<string, int>, after: map<string, int>,
                   p: string, base: string, grow: bool, size: int)
    requires p !in before && (mid == before || mid == before[p := size])
    requires SizesGrow(mid, files, after, p, base, grow, size)
    ensures SizesGrow(before, files, after, p, base, grow, size)
  {
    hide Parent, CleanKey, Above;
  }

  /** The new Dirs of a chain that ends in the fresh Dir `dir` are all fresh Dirs. */
  lemma FilesGrowDirs(before: map<string, File>, after: map<string, File>, missing: set<string>, archives: set<string>,
                      base: string, dir: File, f: File)
    requires FilesGrow(before, after, missing, archives, base, dir)
    requires dir.kind.Dir? && dir !in before.Values
    requires "" !in missing && missing !! before.Keys
    ensures FilesGrow(before, after, missing, archives, "", f)
    ensures base in missing && base in after ==> after[base] == dir
    ensures forall q | q in after && q !in before :: q in missing
  {
    hide Ext;
  }

  lemma NamedProper(listed: map<string, map<string, File>>, p: string, f: File)
    requires IsKey(p) && ProperNames(listed)
    ensures ProperNames(Named(listed, p, f))
  {
    hide CleanKey, Base, Parent, IsName;
    RootSplit(p);
    if p != "/" { KeyParent(p); }
    var named := Named(listed, p, f);
    forall d, n | d in named && n in named[d] ensures IsKey(d) && IsName(n) {
      if d in listed && n in listed[d] {
        assert IsKey(d) && IsName(n);
      } else {
        assert d == Parent(p) && n == Base(p);
      }
    }
  }

  lemma NamedEntry(listed: map<string, map<string, File>>, p: string, f: File, q: string)
    requires IsKey(p) && IsKey(q) && q != "/"
    ensures Entry(Named(listed, p, f), q) == if q == p then Some(f) else Entry(listed, q)
  {
    hide CleanKey, Base, Parent, IsKey;
    RootSplit(q);
    if Parent(p) == Parent(q) && Base(p) == Base(q) { KeyDetermined(p, q); }
  }

  /** Naming one key links it and nothing else. */
  lemma NamedLinks(listed: map<string, map<string, File>>, files: map<string, File>, p: string, f: File)
    requires IsKey(p)
    ensures Linked(listed, Named(listed, p, f), files, {p}, p, f)
  {
    hide CleanKey, Base, Parent, ProperNames, Named, Entry, IsKey;
    if ProperNames(listed) { NamedProper(listed, p, f); }
    NamedKeys(listed, p, f);
    assert Named(listed, p, f).Keys == listed.Keys + (set q | q in {p} :: Parent(q));
    forall q | IsKey(q) && q != "/" { NamedEntry(listed, p, f, q); }
  }

  lemma NamedKeys(listed: map<string, map<string, File>>, p: string, f: File)
    ensures Named(listed, p, f).Keys == listed.Keys + {Parent(p)}
  {
  }

  /** Linking the missing parents and then `p` itself. */
  lemma LinkedCompose(l: map<string, map<string, File>>, l1: map<string, map<string, File>>,
                      l': map<string, map<string, File>>,
                      files: map<string, File>, missing: set<string>, base: string, dir: File, p: string, f: File)
    requires p !in missing && dir.kind.Dir?
    requires base in missing && base in files ==> files[base] == dir
    requires Linked(l, l1, files, missing, base, dir)
    requires Linked(l1, l', files, {p}, p, f)
    ensures Linked(l, l', files, missing + {p}, p, f)
  {
    hide Ext, Parent, CleanKey, Entry, ProperNames;
  }

  /** Sizes after the missing parents were added at 0 and the Dirs above `base` grew. */
  lemma SizesGrowCompose(before: map<string, int>, files: map<string, File>, mid: map<string, int>,
                         after: map<string, int>, p: string, base: string, grow: bool, size: int)
    requires SizesGrow(before, files, mid, base, Parent(base), false, 0)
    requires after == if grow then Grown(files, mid, base, size) else mid
    requires p in files ==> p in before
    ensures SizesGrow(before, files, after, p, base, grow, size)
  {
    hide Parent, CleanKey, Above;
  }

  /** What Add of `f` at `p` does to a tree in which `missing` is missing, and whether it was `ok`. */
  ghost predicate AddEffect(t: Tree, t': Tree, missing: set<string>, archives: set<string>, p: string, f: File,
                            ok: bool, size: int)
  {
    && FilesGrow(t.files, t'.files, missing, archives, p, f)
    && (if ok then Linked(t.listed, t'.listed, t'.files, missing, p, f) else t'.listed == t.listed)
    && SizesGrow(t.sizes, t'.files, t'.sizes, p, Parent(p), ok && f.kind.Leaf? && p in missing, size)
  }

  /** What createParent of `f` at `p` does once `f` is stored, with `missing` missing above it. */
  ghost predicate ParentEffect(t: Tree, t': Tree, missing: set<string>, archives: set<string>, p: string, f: File,
                               ok: bool, size: int)
  {
    && FilesGrow(t.files, t'.files, missing, archives, "", f)
    && (if ok then Linked(t.listed, t'.listed, t'.files, missing + {p}, p, f) else t'.listed == t.listed)
    && SizesGrow(t.sizes, t'.files, t'.sizes, p, Parent(p), ok && f.kind.Leaf? && p != "/", size)
  }

  lemma ParentEffectCompose(t: Tree, t1: Tree, missing: set<string>, archives: set<string>, dir: File, p: string,
                            f: File, ok: bool, size: int)
    requires IsKey(p) && dir.kind.Dir? && dir !in t.files.Values
    requires p !in missing && "" !in missing && missing !! t.files.Keys && t.sizes.Keys == t.files.Keys
    requires AddEffect(t, t1, missing, archives, Parent(p), dir, ok, 0)
    ensures t1.sizes.Keys == t1.files.Keys
    ensures var named := t1.(listed := Named(t1.listed, p, f));
            var t' := if !ok then t1
                      else if p == "/" || !f.kind.Leaf? then named
                      else named.(sizes := Grown(t1.files, t1.sizes, Parent(p), size));
            ParentEffect(t, t', missing, archives, p, f, ok, size)
  {
    var listed' := if ok then Named(t1.listed, p, f) else t1.listed;
    var grow := ok && f.kind.Leaf? && p != "/";
    var sizes' := if grow then Grown(t1.files, t1.sizes, Parent(p), size) else t1.sizes;
    FilesGrowDirs(t.files, t1.files, missing, archives, Parent(p), dir, f);
    if ok {
      NamedLinks(t1.listed, t1.files, p, f);
      LinkedCompose(t.listed, t1.listed, listed', t1.files, missing, Parent(p), dir, p, f);
    }
    SizesGrowCompose(t.sizes, t1.files, t1.sizes, sizes', p, Parent(p), grow, size);
    hide FilesGrow, Linked, SizesGrow, Grown, Named, Parent;
  }

  lemma AddEffectCompose(t: Tree, t1: Tree, t': Tree, missing: set<string>, archives: set<string>, p: string, f: File,
                         ok: bool, size: int)
    requires p !in t.files && p !in missing && "" !in missing && t.sizes.Keys == t.files.Keys
    requires t1 == if Ext(p) in archives then t else t.(files := t.files[p := f], sizes := t.sizes[p := size])
    requires ParentEffect(t1, t', missing, archives, p, f, ok, size)
    requires p == "/" && f.kind.Leaf? ==> !ok
    ensures AddEffect(t, t', missing + {p}, archives, p, f, ok, size)
  {
    StoreCompose(t.files, t1.files, t'.files, missing, archives, p, f);
    StoreSizes(t.sizes, t'.files, t1.sizes, t'.sizes, p, Parent(p), ok && f.kind.Leaf? && p != "/", size);
  }

  /** Adding at a key that exists changes nothing. */
  lemma AddEffectNothing(s: Space, t: Tree, archives: set<string>, p: string, f: File, size: int)
    requires t.sizes.Keys == t.files.Keys && Probe(s, p).Some?
    ensures Missing(s, p) == {} && ArchivesGrow(s.filesystems, s.filesystems, {}, archives)
    ensures Accepts(s, p, f) == Probe(s, p).value
    ensures forall ok :: AddEffect(t, t, {}, archives, p, f, ok, size)
  {
  }
}
