/** fs/storage.go: the file tree, its listings, its directory sizes and its mounts. */
module Storage {
  import opened Files
  import opened Int64
  import opened Paths
  import opened StoragePaths
  import opened StorageTree
  import opened TreeLaws
  import opened MountLaws
  import opened Wrappers

  class Storage {
    // The extensions in `factories`, and what their factories make of a file.
    const archives: set<string>
    const openArchive: File -> Filesystem

    var files: map<string, File>
    var filesystems: map<string, Filesystem>
    var children: map<string, Listing>
    var mounts: seq<string>

    ghost function Space(): Space
      reads this
    {
      StorageTree.Space(files, filesystems, mounts)
    }

    ghost function Listed(): map<string, map<string, File>>
      reads this, children.Values
    {
      map k | k in children :: children[k].entries
    }

    ghost function Sizes(): map<string, int>
      reads this, files.Values
    {
      map p | p in files :: files[p].size
    }

    ghost function Tree(): Tree
      reads this, children.Values, files.Values
    {
      StorageTree.Tree(files, Listed(), Sizes())
    }

    lemma TreeParts()
      ensures Tree().files == files && Tree().listed == Listed() && Tree().sizes == Sizes()
      ensures Sizes().Keys == files.Keys && Space() == StorageTree.Space(files, filesystems, mounts)
    {
    }

    /** Nothing is mounted and nothing can be: newStorage(nil), used for files only. */
    ghost predicate Unmounted()
      reads this
    {
      archives == {} && filesystems == map[] && mounts == []
    }

    lemma UnmountedSpace()
      ensures Unmounted() ==> Space() == Bare(Tree()) && archives == {} && filesystems == map[] && mounts == []
    {
    }

    lemma StaysUnmounted(before: map<string, Filesystem>, missing: set<string>)
      requires ArchivesGrow(before, filesystems, missing, archives)
      ensures before == map[] && archives == {} && mounts == [] ==> Unmounted()
    {
    }

    lemma MountsListed()
      requires Valid()
      ensures "" !in archives && MountList(Space().mounts, Space().filesystems.Keys)
    {
    }

    ghost function Dirs(): set<File>
      reads this
    {
      set f | f in files.Values && f.kind.Dir?
    }

    ghost predicate Valid()
      reads this
    {
      && "" !in archives
      && AllKeys(files.Keys) && AllKeys(filesystems.Keys)
      && MountList(mounts, filesystems.Keys)
      && DistinctListings(children)
      && DistinctDirs(files)
    }

    /** newStorage */
    constructor (archives: set<string>, openArchive: File -> Filesystem)
      requires "" !in archives
      ensures Valid() && this.archives == archives && this.openArchive == openArchive
      ensures files == map[] && filesystems == map[] && children == map[] && mounts == []
    {
      this.archives := archives;
      this.openArchive := openArchive;
      files := map[];
      filesystems := map[];
      children := map[];
      mounts := [];
    }

    /** getFileFromFs: ask the first mount that prefixes `p`. */
    method GetFileFromFs(p: string) returns (r: Result<File>)
      requires Valid()
      ensures r.Ok? <==> MountProbe(Space(), p).Some?
      ensures r.Ok? ==> MountProbe(Space(), p) == Some(r.value.IsDir())
      ensures match FirstMount(mounts, p)
              case None => r == Err(NotExist)
              case Some(m) => if p == m then r.Ok? && fresh(r.value) && r.value.kind.Dir? && r.value.size == 0
                              else r == filesystems[m].open("/" + p[|m|..])
    {
      var i := 0;
      while i < |mounts|
        invariant 0 <= i <= |mounts|
        invariant FirstMount(mounts, p) == FirstMount(mounts[i..], p)
      {
        assert mounts[i..][1..] == mounts[i + 1..];
        var fsp := mounts[i];
        if fsp <= p {
          if p == fsp {
            var dir := new File(Dir, 0);
            return Ok(dir);
          }
          return filesystems[fsp].open("/" + p[|fsp|..]);
        }
        i := i + 1;
      }
      return Err(NotExist);
    }

    method Has(path: string) returns (r: bool)
      requires Valid()
      ensures r <==> Probe(Space(), CleanKey(path)).Some?
    {
      var p := CleanKey(path);
      if p in files { return true; }
      var f := GetFileFromFs(p);
      return f.Ok?;
    }

    method Get(path: string) returns (r: Result<File>)
      requires Valid()
      ensures r.Ok? <==> Probe(Space(), CleanKey(path)).Some?
      ensures r.Ok? ==> Probe(Space(), CleanKey(path)) == Some(r.value.IsDir())
      ensures r.Err? ==> r.error == NotExist
      ensures CleanKey(path) in files ==> r == Ok(files[CleanKey(path)])
      ensures var p := CleanKey(path);
              p !in files && Enumerates(mounts, filesystems.Keys) ==>
                match LongestPrefix(filesystems.Keys, p)
                case None => r == Err(NotExist)
                case Some(m) =>
                  if p == m then r.Ok? && fresh(r.value) && r.value.kind.Dir? && r.value.size == 0
                  else match filesystems[m].open("/" + p[|m|..])
                       case Ok(f) => r == Ok(f)
                       case Err(_) => r == Err(NotExist)
    {
      hide CleanKey, Enumerates, LongestPrefix;
      var p := CleanKey(path);
      var has := Has(p);
      CleanKeyIsKey(path);
      if Enumerates(mounts, filesystems.Keys) { LookupIsLongestPrefix(mounts, filesystems.Keys, p); }
      if !has { return Err(NotExist); }
      if p in files { return Ok(files[p]); }
      r := GetFileFromFs(p);
    }

    /** addSizeToAncestors: walk from `start` to the root, growing every Dir met. */
    method AddSizeToAncestors(start: string, size: int)
      requires Valid() && IsKey(start)
      modifies Dirs()
      ensures forall k | k in children :: children[k].entries == old(children[k].entries)
      ensures forall q | q in files ::
                files[q].size == if files[q].kind.Dir? && Above(q, start) then Wrap(old(files[q].size) + size)
                                 else old(files[q].size)
    {
      hide CleanKey, IsKey, Parent, Base, Above, Wrap, MountList, DistinctListings, AllKeys;
      ghost var was := Sizes();
      AboveSteps(start);
      var cur := start;
      while true
        invariant IsKey(cur) && Above(cur, start)
        invariant forall k | k in children :: children[k].entries == old(children[k].entries)
        invariant forall q | q in files ::
                    files[q].size == if files[q].kind.Dir? && Above(q, start) && !Above(q, cur)
                                     then Wrap(was[q] + size) else was[q]
        decreases |cur|
      {
        AboveSteps(cur);
        if cur in files && files[cur].kind.Dir? {
          files[cur].size := Wrap(files[cur].size + size);
        }
        if cur == "/" { break; }
        KeyParent(cur);
        AboveTransitive(Parent(cur), cur, start);
        cur := Parent(cur);
      }
    }

    /** addSizeToAncestors, seen from createParent. */
    method GrowAncestors(start: string, size: int)
      requires Valid() && IsKey(start)
      modifies Dirs()
      ensures Listed() == old(Listed()) && files == old(files) && Dirs() == old(Dirs())
      ensures Sizes() == Grown(files, old(Sizes()), start, size)
    {
      hide CleanKey, IsKey, Parent, Base, Above, Wrap, Valid;
      AddSizeToAncestors(start, size);
    }

    method Add(f: File, path: string) returns (r: Result<()>)
      requires Valid() && f !in Dirs()
      modifies this`files, this`filesystems, this`children, children.Values
      modifies if f.kind.Leaf? then Dirs() else {}
      ensures Valid() && mounts == old(mounts)
      ensures fresh(children.Values - old(children.Values))
      ensures forall g | g in Dirs() :: g in old(Dirs()) || g == f || fresh(g)
      ensures r.Ok? == old(Accepts(Space(), CleanKey(path), f)) && (r.Err? ==> r.error == Exist)
      ensures AddEffect(old(Tree()), Tree(), old(Missing(Space(), CleanKey(path))), archives, CleanKey(path), f,
              r.Ok?, old(f.size))
      ensures ArchivesGrow(old(filesystems), filesystems, old(Missing(Space(), CleanKey(path))), archives)
      ensures old(Probe(Space(), CleanKey(path))).None? ==>
                (Probe(Space(), CleanKey(path)).Some? <==> Ext(CleanKey(path)) !in archives)
      ensures var was := old(Probe(Space(), CleanKey(path))); was.Some? ==>
                Tree() == old(Tree()) && Space() == old(Space()) && r == if was.value then Ok(()) else Err(Exist)
      ensures old(Probe(Space(), CleanKey(path))).None? && Ext(CleanKey(path)) in archives ==>
                CleanKey(path) in filesystems && filesystems[CleanKey(path)] == openArchive(f)
      ensures old(Unmounted()) ==> Unmounted() && Added(old(Tree()), Tree(), CleanKey(path), f, old(f.size))
      ensures old(Unmounted()) && GoodTree(old(Tree())) && (f.kind.Dir? ==> old(f.size) == 0) ==>
                (GoodTree(Tree()) <==> r.Ok? || CleanKey(path) in old(files))
      decreases |CleanKey(path)|, if Probe(Space(), CleanKey(path)).Some? then 0 else 3, 0
    {
      hide *;
      var p := CleanKey(path);
      CleanKeyIsKey(path);
      TreeParts();
      var has := Has(p);
      UnmountedSpace();
      ghost var t, s, size := Tree(), Space(), f.size;
      if has {
        AddEffectNothing(s, t, archives, p, f, size);
        AddedIf(t, t, s, archives, p, f, size, Accepts(s, p, f));
        var dir := Get(p);
        if dir.Ok? && !dir.value.IsDir() { return Err(Exist); }
        return Ok(());
      }
      r := Insert(f, p);
      AddedIf(t, Tree(), s, archives, p, f, size, r.Ok?);
      StaysUnmounted(old(filesystems), Missing(s, p));
    }

    /** The rest of Add, for a key that does not exist yet. */
    method Insert(f: File, p: string) returns (r: Result<()>)
      requires Valid() && f !in Dirs() && IsKey(p) && Probe(Space(), p).None?
      modifies this`files, this`filesystems, this`children, children.Values
      modifies if f.kind.Leaf? then Dirs() else {}
      ensures Valid() && mounts == old(mounts)
      ensures fresh(children.Values - old(children.Values))
      ensures forall g | g in Dirs() :: g in old(Dirs()) || g == f || fresh(g)
      ensures r.Ok? == old(Accepts(Space(), p, f)) && (r.Err? ==> r.error == Exist)
      ensures AddEffect(old(Tree()), Tree(), old(Missing(Space(), p)), archives, p, f, r.Ok?, old(f.size))
      ensures ArchivesGrow(old(filesystems), filesystems, old(Missing(Space(), p)), archives)
      ensures Probe(Space(), p).Some? <==> Ext(p) !in archives
      ensures Ext(p) in archives ==> p in filesystems && filesystems[p] == openArchive(f)
      decreases |p|, 2
    {
      hide *;
      ghost var t, s := Tree(), Space();
      var size := f.size;
      TreeParts();
      MountsListed();
      Store(f, p);
      ghost var t1 := Tree();
      ghost var missing := Missing(Space(), Parent(p));
      MissingStored(s, archives, p, f, openArchive(f));
      r := CreateParent(p, f, size);
      AddEffectCompose(t, t1, Tree(), missing, archives, p, f, r.Ok?, size);
      ArchivesGrowCompose(s, filesystems, missing, archives, p, f, openArchive(f));
      TreeParts();
      AddReachableIff(s, t, Space(), Tree(), archives, p, f, r.Ok?, size);
    }

    /** The step of Add that records a new key, as an archive to open or as a file. */
    method Store(f: File, p: string)
      requires Valid() && IsKey(p) && Probe(Space(), p).None? && f !in Dirs()
      modifies this`files, this`filesystems
      ensures Valid() && filesystems == Space().filesystems
      ensures Space() == Stored(old(Space()), archives, p, f, openArchive(f))
      ensures Tree() == if Ext(p) in archives then old(Tree())
                        else old(Tree()).(files := old(Tree()).files[p := f], sizes := old(Tree()).sizes[p := f.size])
      ensures Dirs() <= old(Dirs()) + (if f.kind.Leaf? then {} else {f})
    {
      hide Ext, CleanKey, Probe, Stored, MountList, AllKeys, DistinctDirs, DistinctListings, IsKey;
      StoredIs(Space(), archives, p, f, openArchive(f));
      DistinctDirsStore(files, p, f);
      AllKeysMore(files.Keys, p);
      AllKeysMore(filesystems.Keys, p);
      MountListMore(mounts, filesystems.Keys, p);
      if Ext(p) in archives {
        assert filesystems[p := openArchive(f)].Keys == filesystems.Keys + {p};
        filesystems := filesystems[p := openArchive(f)];
        assert Listed() == old(Listed()) && Sizes() == old(Sizes());
      } else {
        assert files[p := f].Keys == files.Keys + {p};
        files := files[p := f];
        assert Listed() == old(Listed()) && Sizes() == old(Sizes())[p := f.size];
      }
    }

    /** The step of createParent that names `f` in the listing of its parent. */
    method NameInParent(p: string, base: string, filename: string, f: File)
      requires Valid() && base == Parent(p) && filename == Base(p)
      modifies this`children, children.Values
      ensures Valid() && mounts == old(mounts)
      ensures fresh(children.Values - old(children.Values))
      ensures Listed() == Named(old(Listed()), p, f) && files == old(files) && Dirs() == old(Dirs())
      ensures Sizes() == old(Sizes())
    {
      hide MountList, DistinctDirs, DistinctListings, AllKeys, CleanKey, Base, Parent, Listed, Sizes, Dirs, Valid;
      EnsureListing(base);
      if filename != "" {
        SetEntry(base, filename, f);
      }
    }

    method SetEntry(base: string, filename: string, f: File)
      requires Valid() && base in children
      modifies children[base]
      ensures Valid() && Sizes() == old(Sizes()) && Dirs() == old(Dirs())
      ensures base in old(Listed()) && Listed() == old(Listed())[base := old(Listed())[base][filename := f]]
    {
      hide MountList, DistinctDirs, AllKeys;
      children[base].entries := children[base].entries[filename := f];
    }

    /** The step of createParent that makes the parent's listing if there is none. */
    method EnsureListing(base: string)
      requires Valid()
      modifies this`children
      ensures Valid() && mounts == old(mounts) && base in children
      ensures fresh(children.Values - old(children.Values))
      ensures Listed() == old(Listed())[base := if base in old(Listed()) then old(Listed())[base] else map[]]
      ensures files == old(files) && Dirs() == old(Dirs()) && Sizes() == old(Sizes())
    {
      hide CleanKey, IsKey, Parent, Base, MountList, DistinctDirs, AllKeys;
      if base !in children {
        var listing := new Listing();
        children := children[base := listing];
      }
    }

    /** Add(&Dir{}, base). */
    method AddNewDir(base: string) returns (r: Result<()>, ghost dir: File)
      requires Valid() && IsKey(base)
      modifies this`files, this`filesystems, this`children, children.Values
      ensures Valid() && mounts == old(mounts)
      ensures fresh(children.Values - old(children.Values))
      ensures forall g | g in Dirs() :: g in old(Dirs()) || fresh(g)
      ensures dir.kind.Dir? && dir !in old(files).Values
      ensures r.Ok? == (old(Anchor(Space(), base)) != Some(false)) && (r.Err? ==> r.error == Exist)
      ensures AddEffect(old(Tree()), Tree(), old(Missing(Space(), base)), archives, base, dir, r.Ok?, 0)
      ensures ArchivesGrow(old(filesystems), filesystems, old(Missing(Space(), base)), archives)
      decreases |base|, if Probe(Space(), base).Some? then 0 else 3, 1
    {
      hide CleanKey, Missing, Anchor, Accepts, Probe, AddEffect;
      ghost var s, t, d := Space(), Tree(), Dirs();
      var newDir := new File(Dir, 0);
      dir := newDir;
      assert Space() == s && Tree() == t && Dirs() == d && newDir !in Dirs();
      AcceptsDir(s, base, dir);
      assert CleanKey(base) == base;
      r := Add(newDir, base);
    }

    method CreateParent(p: string, f: File, size: int) returns (r: Result<()>)
      requires Valid() && IsKey(p) && size == f.size
      requires p == "/" ==> Probe(Space(), p).Some?
      modifies this`files, this`filesystems, this`children, children.Values
      modifies if f.kind.Leaf? then Dirs() else {}
      ensures Valid() && mounts == old(mounts)
      ensures fresh(children.Values - old(children.Values))
      ensures forall g | g in Dirs() :: g in old(Dirs()) || fresh(g)
      ensures r.Ok? == (old(Anchor(Space(), Parent(p))) != Some(false)) && (r.Err? ==> r.error == Exist)
      ensures ParentEffect(old(Tree()), Tree(), old(Missing(Space(), Parent(p))), archives, p, f, r.Ok?, size)
      ensures ArchivesGrow(old(filesystems), filesystems, old(Missing(Space(), Parent(p))), archives)
      decreases |p|, 1
    {
      hide *;
      var base, filename := CleanKey(Split(p).0), Split(p).1;
      ghost var s, t := Space(), Tree();
      TreeParts();
      MissingParent(s, p, f);
      ghost var dir: File;
      r, dir := AddNewDir(base);
      ParentEffectCompose(t, Tree(), Missing(s, base), archives, dir, p, f, r.Ok?, size);
      if r.Err? { return; }
      TreeParts();
      NameInParent(p, base, filename, f);
      TreeParts();
      if filename != "" {
        if !f.IsDir() {
          GrowAncestors(base, size);
          TreeParts();
        }
      }
    }

    /** Clear: forget everything, then add an empty root. */
    method Clear()
      requires Valid()
      modifies this`files, this`filesystems, this`children, this`mounts
      ensures Valid() && fresh(children.Values) && forall g | g in Dirs() :: fresh(g)
      ensures files.Keys == {"/"} && Listed() == map["/" := map[]] && Sizes() == map["/" := 0]
      ensures filesystems == map[] && mounts == []
      ensures GoodTree(Tree())
    {
      hide *;
      Forget();
      RootIsKey();
      ghost var dir: File;
      var r;
      r, dir := AddNewDir("/");
      FirstRoot(Tree(), archives, dir);
      FirstRootArchives(filesystems, archives);
      TreeParts();
    }

    method Forget()
      requires Valid()
      modifies this`files, this`filesystems, this`children, this`mounts
      ensures Valid() && "" !in archives && Dirs() == {} && children == map[] && mounts == [] && filesystems == map[]
      ensures Space() == StorageTree.Space(map[], map[], []) && Tree() == StorageTree.Tree(map[], map[], map[])
    {
      files := map[];
      children := map[];
      filesystems := map[];
      mounts := [];
    }

    /** getDirFromFs: the listing the first prefixing mount gives. */
    method GetDirFromFs(p: string) returns (r: Result<Listing>)
      requires Valid()
      ensures match FirstMount(mounts, p)
              case None => r == Err(NotExist)
              case Some(m) =>
                match filesystems[m].list(p[|m|..])
                case Ok(entries) => r.Ok? && fresh(r.value) && r.value.entries == entries
                case Err(e) => r == Err(e)
    {
      var i := 0;
      while i < |mounts|
        invariant 0 <= i <= |mounts|
        invariant FirstMount(mounts, p) == FirstMount(mounts[i..], p)
      {
        assert mounts[i..][1..] == mounts[i + 1..];
        var fsp := mounts[i];
        if fsp <= p {
          match filesystems[fsp].list(p[|fsp|..]) {
            case Ok(entries) =>
              var listing := new Listing();
              listing.entries := entries;
              return Ok(listing);
            case Err(e) =>
              return Err(e);
          }
        }
        i := i + 1;
      }
      return Err(NotExist);
    }

    /** What the storage itself lists at `p`. */
    ghost function ListedAt(p: string): map<string, File>
      reads this, children.Values
    {
      if p in children then children[p].entries else map[]
    }

    /** Children: a mount's listing, or a copy of the storage's own. */
    method Children(path: string) returns (r: Result<Listing>)
      requires Valid()
      ensures r.Ok? ==> fresh(r.value)
      ensures var p := CleanKey(path);
              match FirstMount(mounts, p)
              case None => r.Ok? && r.value.entries == ListedAt(p)
              case Some(m) =>
                match filesystems[m].list(p[|m|..])
                case Ok(entries) => r.Ok? && r.value.entries == entries
                case Err(NotExist) => r.Ok? && r.value.entries == ListedAt(p)
                case Err(e) => r == Err(e)
    {
      hide CleanKey, FirstMount, Valid;
      var p := CleanKey(path);
      r := GetDirFromFs(p);
      if r.Ok? || r.error != NotExist { return; }
      var l := new Listing();
      if p in children {
        var names := children[p].entries.Keys;
        while names != {}
          invariant names <= children[p].entries.Keys
          invariant l.entries == map n | n in children[p].entries && n !in names :: children[p].entries[n]
          decreases |names|
        {
          var n :| n in names;
          l.entries := l.entries[n := children[p].entries[n]];
          names := names - {n};
        }
      }
      r := Ok(l);
    }

    /** refreshMounts: collect the mounted keys in whatever order the map gives them, then sort
        them in place, longest first. */
    method RefreshMounts()
      modifies this`mounts
      ensures Enumerates(mounts, filesystems.Keys) && MountList(mounts, filesystems.Keys)
    {
      CollectMounts();
      SortMounts();
    }

    method CollectMounts()
      modifies this`mounts
      ensures Enumerates(mounts, filesystems.Keys)
    {
      mounts := mounts[..0];
      var rest := filesystems.Keys;
      while rest != {}
        invariant rest <= filesystems.Keys && Enumerates(mounts, filesystems.Keys - rest)
        decreases |rest|
      {
        var k :| k in rest;
        mounts := mounts + [k];
        rest := rest - {k};
      }
    }

    method SortMounts()
      requires Enumerates(mounts, filesystems.Keys)
      modifies this`mounts
      ensures Enumerates(mounts, filesystems.Keys) && MountList(mounts, filesystems.Keys)
    {
      hide Enumerates;
      var i := 0;
      while i < |mounts| - 1
        invariant 0 <= i && Enumerates(mounts, filesystems.Keys) && |mounts| == |old(mounts)|
        invariant forall a, b | 0 <= a < i && a < b < |mounts| :: |mounts[a]| >= |mounts[b]|
      {
        var j := i + 1;
        while j < |mounts|
          invariant i < j <= |mounts| && Enumerates(mounts, filesystems.Keys) && |mounts| == |old(mounts)|
          invariant forall a, b | 0 <= a < i && a < b < |mounts| :: |mounts[a]| >= |mounts[b]|
          invariant forall b | i < b < j :: |mounts[i]| >= |mounts[b]|
        {
          if |mounts[i]| < |mounts[j]| {
            SwapEnumerates(mounts, i, j, filesystems.Keys);
            mounts := mounts[i := mounts[j]][j := mounts[i]];
          }
          j := j + 1;
        }
        i := i + 1;
      }
      SortedEnumeration(mounts, filesystems.Keys);
    }

    /** AddFS: mount `fs`, unless something answers at its path already. */
    method AddFS(fs: Filesystem, path: string) returns (r: Result<()>, ghost dir: File?)
      requires Valid()
      modifies this`files, this`filesystems, this`children, this`mounts, children.Values
      ensures Valid()
      ensures fresh(children.Values - old(children.Values))
      ensures forall g | g in Dirs() :: g in old(Dirs()) || fresh(g)
      ensures var p := CleanKey(path); var was := old(Probe(Space(), p)); was.Some? ==>
                Space() == old(Space()) && Tree() == old(Tree()) && r == if was.value then Ok(()) else Err(Exist)
      ensures old(Probe(Space(), CleanKey(path))).None? ==>
                dir != null && MountEffect(old(Space()), old(Tree()), Space(), Tree(), archives, CleanKey(path), fs,
                  dir, r.Ok?)
      ensures old(Probe(Space(), CleanKey(path))).None? && old(Enumerates(mounts, filesystems.Keys)) ==>
                (r.Ok? <==> old(CanHang(Space(), CleanKey(path))))
      ensures dir != null ==> fresh(dir) && dir.kind.Dir? && dir.size == 0
    {
      hide *;
      var p := CleanKey(path);
      CleanKeyIsKey(path);
      MountsListed();
      TreeParts();
      ghost var s, t := Space(), Tree();
      dir := null;
      var has := Has(p);
      if has {
        var file := Get(p);
        if file.Ok? && !file.value.IsDir() { return Err(Exist), null; }
        return Ok(()), null;
      }
      r, dir := Mount(fs, p);
      MountResult(s, t, Space(), Tree(), archives, p, fs, dir, r.Ok?);
    }

    /** The rest of AddFS, for a path at which nothing answers. */
    method Mount(fs: Filesystem, p: string) returns (r: Result<()>, ghost dir: File)
      requires Valid() && IsKey(p) && Probe(Space(), p).None?
      modifies this`files, this`filesystems, this`children, this`mounts, children.Values
      ensures Valid()
      ensures fresh(children.Values - old(children.Values))
      ensures forall g | g in Dirs() :: g in old(Dirs()) || fresh(g)
      ensures MountEffect(old(Space()), old(Tree()), Space(), Tree(), archives, p, fs, dir, r.Ok?)
      ensures fresh(dir) && dir.kind.Dir? && dir.size == 0
    {
      hide *;
      ghost var s, t := Space(), Tree();
      RecordMount(fs, p);
      ghost var mid := Space();
      var newDir := new File(Dir, 0);
      r := CreateParent(p, newDir, 0);
      dir := newDir;
      TreeParts();
      MountEffectHolds(s, t, mid, Space(), Tree(), archives, p, fs, newDir, r.Ok?);
    }

    method RecordMount(fs: Filesystem, p: string)
      requires Valid() && IsKey(p) && Probe(Space(), p).None?
      modifies this`filesystems, this`mounts
      ensures Valid() && Tree() == old(Tree()) && Dirs() == old(Dirs())
      ensures Space() == StorageTree.Space(old(Space()).files, old(Space()).filesystems[p := fs], mounts)
              && filesystems == Space().filesystems
      ensures MountList(mounts, filesystems.Keys) && Enumerates(mounts, filesystems.Keys)
      ensures Probe(Space(), p).Some?
    {
      hide CleanKey, DistinctDirs, DistinctListings;
      filesystems := filesystems[p := fs];
      RefreshMounts();
      assert p in mounts;
      MountFindsItself(mounts, filesystems.Keys, p);
    }

    /** RemoveFS: unmount whatever is mounted at the path and drop its name from the listing. */
    method RemoveFS(path: string)
      requires Valid()
      modifies this`filesystems, this`mounts, children.Values
      ensures Valid() && children == old(children) && files == old(files) && Sizes() == old(Sizes())
      ensures filesystems == old(filesystems) - {CleanKey(path)} && Enumerates(mounts, filesystems.Keys)
      ensures Listed() == Unnamed(old(Listed()), CleanKey(path))
    {
      var p := CleanKey(path);
      hide CleanKey, DistinctDirs, MountList;
      filesystems := filesystems - {p};
      RefreshMounts();
      var base, filename := CleanKey(Split(p).0), Split(p).1;
      assert base == Parent(p) && filename == Base(p);
      hide Parent;
      if base in children {
        children[base].entries := children[base].entries - {filename};
      }
    }

    /** How AttachOverlays replaces what is mounted at a path. */
    method Remount(fs: Filesystem, path: string) returns (r: Result<()>)
      requires Valid()
      modifies this`files, this`filesystems, this`children, this`mounts, children.Values
      ensures Valid()
      ensures var p := CleanKey(path);
              (p in filesystems && FirstMount(mounts, p) == Some(p)) <==>
              CurrentProbe(old(files), old(filesystems) - {p}, p).None?
      ensures var p := CleanKey(path); p in filesystems ==> filesystems[p] == fs
    {
      hide *;
      RemoveFS(path);
      ghost var s, t := Space(), Tree();
      TreeParts();
      MountsListed();
      ProbeIsCurrent(s, CleanKey(path));
      ghost var dir;
      r, dir := AddFS(fs, path);
      TreeParts();
      if Probe(s, CleanKey(path)).None? {
        MountFound(s, t, Space(), Tree(), archives, CleanKey(path), fs, dir, r.Ok?);
      }
    }
  }
}
