/** How fs/storage.go resolves a path among its mounts. */
module MountLaws {
  import opened Files
  import opened Paths
  import opened StoragePaths
  import opened StorageTree
  import opened TreeLaws
  import opened Wrappers

  /** Reference definition, with no list and no order: `m` is the longest of `keys` that is a
      string prefix of `p`. */
  ghost predicate IsLongestPrefix(keys: set<string>, p: string, m: string) {
    m in keys && m <= p && forall k | k in keys && k <= p :: |k| <= |m|
  }

  ghost function LongestPrefix(keys: set<string>, p: string): Option<string> {
    if m :| IsLongestPrefix(keys, p, m) then Some(m) else None
  }

  /** Two prefixes of one path with the same length are the same prefix. */
  lemma LongestPrefixUnique(keys: set<string>, p: string, m: string, m': string)
    requires IsLongestPrefix(keys, p, m) && IsLongestPrefix(keys, p, m')
    ensures m == m'
  {
  }

  lemma {:induction false} FirstIsLongest(mounts: seq<string>, keys: set<string>, p: string)
    requires MountList(mounts, keys)
    ensures match FirstMount(mounts, p)
            case None => forall m | m in mounts :: !(m <= p)
            case Some(m) => m in mounts && m <= p && forall k | k in mounts && k <= p :: |k| <= |m|
  {
    if mounts != [] && !(mounts[0] <= p) {
      FirstIsLongest(mounts[1..], keys, p);
      assert forall k | k in mounts :: k == mounts[0] || k in mounts[1..];
    } else if mounts != [] {
      forall k | k in mounts ensures |k| <= |mounts[0]| {
        var i :| 0 <= i < |mounts| && mounts[i] == k;
      }
    }
  }

  /** The cached list finds exactly the longest mounted prefix, whatever order built it. */
  lemma LookupIsLongestPrefix(mounts: seq<string>, keys: set<string>, p: string)
    requires Enumerates(mounts, keys) && MountList(mounts, keys)
    ensures FirstMount(mounts, p) == LongestPrefix(keys, p)
  {
    FirstIsLongest(mounts, keys, p);
    match FirstMount(mounts, p) {
      case None =>
      case Some(m) =>
        assert IsLongestPrefix(keys, p, m);
        LongestPrefixUnique(keys, p, m, LongestPrefix(keys, p).value);
    }
  }

  /** Two lists built from the same mounts in different map orders answer every path alike. */
  lemma LookupIgnoresOrder(a: seq<string>, b: seq<string>, keys: set<string>, p: string)
    requires Enumerates(a, keys) && MountList(a, keys)
    requires Enumerates(b, keys) && MountList(b, keys)
    ensures FirstMount(a, p) == FirstMount(b, p)
  {
    LookupIsLongestPrefix(a, keys, p);
    LookupIsLongestPrefix(b, keys, p);
  }

  /** What a storage answers at `p` when its mount list is up to date. */
  ghost function CurrentProbe(files: map<string, File>, filesystems: map<string, Filesystem>, p: string): Option<bool> {
    if p in files then Some(files[p].IsDir())
    else
      match LongestPrefix(filesystems.Keys, p)
      case None => None
      case Some(m) =>
        if p == m then Some(true)
        else
          match filesystems[m].open("/" + p[|m|..])
          case Ok(f) => Some(f.IsDir())
          case Err(_) => None
  }

  lemma ProbeIsCurrent(s: Space, p: string)
    requires Enumerates(s.mounts, s.filesystems.Keys) && MountList(s.mounts, s.filesystems.Keys)
    ensures Probe(s, p) == CurrentProbe(s.files, s.filesystems, p)
  {
    LookupIsLongestPrefix(s.mounts, s.filesystems.Keys, p);
  }

  // ---------- Segment boundaries ----------

  /** The mount that owns `p` in the tree of keys: the deepest one at or above it. */
  ghost predicate Owns(keys: set<string>, p: string, m: string) {
    m in keys && Above(m, p) && forall k | k in keys && Above(k, p) :: |k| <= |m|
  }

  /** The prefix match stops at a segment boundary of `p`. */
  predicate AtBoundary(m: string, p: string) {
    m == "/" || |m| == |p| || (|m| < |p| && p[|m|] == '/')
  }

  /** Matching by string prefix finds the mount that owns the path exactly when the match stops at
      a segment boundary. */
  lemma PrefixOwnsIff(keys: set<string>, p: string, m: string)
    requires IsKey(p) && (forall k | k in keys :: IsKey(k)) && IsLongestPrefix(keys, p, m)
    ensures Owns(keys, p, m) <==> AtBoundary(m, p)
  {
    PrefixIsAbove(m, p);
    forall k | k in keys && Above(k, p) ensures |k| <= |m| { PrefixIsAbove(k, p); }
  }

  /** Without a match no mount owns the path. */
  lemma NoPrefixNoOwner(keys: set<string>, p: string, m: string)
    requires IsKey(p) && (forall k | k in keys :: IsKey(k)) && LongestPrefix(keys, p) == None && m in keys
    ensures !Above(m, p)
  {
    if Above(m, p) {
      PrefixIsAbove(m, p);
      LongestExists(keys, p, m);
    }
  }

  lemma {:induction false} LongestExists(keys: set<string>, p: string, m: string)
    requires m in keys && m <= p
    ensures exists k :: IsLongestPrefix(keys, p, k)
    decreases |p| - |m|
  {
    if k :| k in keys && k <= p && |k| > |m| {
      LongestExists(keys, p, k);
    } else {
      assert IsLongestPrefix(keys, p, m);
    }
  }

  /** A mount at the key /ab answers for the key /abc, which is not below it. */
  lemma PrefixCrossesBoundary()
    ensures IsKey("/ab") && IsKey("/abc")
    ensures IsLongestPrefix({"/ab"}, "/abc", "/ab") && !AtBoundary("/ab", "/abc") && !Above("/ab", "/abc")
  {
    hide CleanKey, Above, Parent;
    OneNameKey("ab");
    OneNameKey("abc");
    assert "/" + "ab" == "/ab" && "/" + "abc" == "/abc";
    PrefixOwnsIff({"/ab"}, "/abc", "/ab");
  }

  lemma OneNameKey(n: string)
    requires IsName(n)
    ensures IsKey("/" + n)
  {
    KeyOfNames([n]);
    assert JoinSegments([n]) == n;
  }

  // ---------- Archives ----------

  /** After Add at a path where nothing answered, something answers there exactly when the path does
      not have an archive's extension: an archive is recorded, but the mount list is not rebuilt. */
  lemma AddReachableIff(s: Space, t: Tree, s': Space, t': Tree, archives: set<string>, p: string, f: File, ok: bool,
                        size: int)
    requires IsKey(p) && Probe(s, p).None? && MountList(s.mounts, s.filesystems.Keys)
    requires s.files == t.files && s'.files == t'.files && s'.mounts == s.mounts
    requires AddEffect(t, t', Missing(s, p), archives, p, f, ok, size)
    requires ArchivesGrow(s.filesystems, s'.filesystems, Missing(s, p), archives)
    ensures Probe(s', p).Some? <==> Ext(p) !in archives
  {
    hide Linked, SizesGrow, Ext, Missing;
    OwnKeyMissing(s, p);
    match FirstMount(s.mounts, p) {
      case None =>
      case Some(m) => MountNotMissing(s, p, m);
    }
  }

  lemma OwnKeyMissing(s: Space, p: string)
    requires Probe(s, p).None?
    ensures p in Missing(s, p) && p !in s.files
  {
  }

  /** A listed mount answers at its own path, so it is never missing. */
  lemma MountNotMissing(s: Space, p: string, m: string)
    requires MountList(s.mounts, s.filesystems.Keys) && m in s.mounts
    ensures Probe(s, m).Some? && m in s.filesystems && m !in Missing(s, p)
  {
    MountFindsItself(s.mounts, s.filesystems.Keys, m);
    if m in Missing(s, p) { MissingAbove(s, p, m); }
  }

  /** The next time the list is rebuilt, everything recorded as a filesystem answers. */
  lemma RebuiltListReaches(s: Space, p: string)
    requires MountList(s.mounts, s.filesystems.Keys) && Enumerates(s.mounts, s.filesystems.Keys)
    requires p in s.filesystems
    ensures Probe(s, p).Some? && FirstMount(s.mounts, p) == Some(p)
  {
    assert p in s.mounts;
    MountFindsItself(s.mounts, s.filesystems.Keys, p);
  }

  // ---------- Mounting ----------

  /** What AddFS of `fs` at `p` does when nothing answers there: the mount is recorded in an up to
      date list, its parents are created, and it is named in its parent's listing. */
  ghost predicate MountEffect(s: Space, t: Tree, s': Space, t': Tree, archives: set<string>, p: string, fs: Filesystem,
                              dir: File, ok: bool)
  {
    var mounted := s.filesystems[p := fs];
    var mid := Space(s.files, mounted, s'.mounts);
    var missing := Missing(mid, Parent(p));
    && Enumerates(s'.mounts, mounted.Keys) && MountList(s'.mounts, mounted.Keys)
    && FirstMount(s'.mounts, p) == Some(p)
    && p in s'.filesystems && s'.filesystems[p] == fs
    && ArchivesGrow(mounted, s'.filesystems, missing, archives)
    && ok == (Anchor(mid, Parent(p)) != Some(false))
    && ParentEffect(t, t', missing, archives, p, dir, ok, 0)
  }

  lemma MountEffectHolds(s: Space, t: Tree, mid: Space, s': Space, t': Tree, archives: set<string>, p: string,
                         fs: Filesystem, dir: File, ok: bool)
    requires IsKey(p) && mid == Space(s.files, s.filesystems[p := fs], s'.mounts)
    requires Enumerates(mid.mounts, mid.filesystems.Keys) && MountList(mid.mounts, mid.filesystems.Keys)
    requires Probe(mid, p).Some?
    requires ArchivesGrow(mid.filesystems, s'.filesystems, Missing(mid, Parent(p)), archives)
    requires ok == (Anchor(mid, Parent(p)) != Some(false))
    requires ParentEffect(t, t', Missing(mid, Parent(p)), archives, p, dir, ok, 0)
    ensures MountEffect(s, t, s', t', archives, p, fs, dir, ok)
  {
    MissingParent(mid, p, dir);
    assert p in mid.mounts;
    MountFindsItself(mid.mounts, mid.filesystems.Keys, p);
    hide ParentEffect, Missing, Anchor, CleanKey, Parent;
  }

  /** A new mount changes no answer at a path it does not prefix. */
  lemma ProbeBeside(s: Space, mid: Space, p: string, fs: Filesystem, q: string)
    requires mid == Space(s.files, s.filesystems[p := fs], mid.mounts) && !(p <= q)
    requires Enumerates(s.mounts, s.filesystems.Keys) && MountList(s.mounts, s.filesystems.Keys)
    requires Enumerates(mid.mounts, mid.filesystems.Keys) && MountList(mid.mounts, mid.filesystems.Keys)
    ensures Probe(mid, q) == Probe(s, q)
  {
    hide Enumerates, MountList;
    LookupIsLongestPrefix(s.mounts, s.filesystems.Keys, q);
    LookupIsLongestPrefix(mid.mounts, mid.filesystems.Keys, q);
    LongestBeside(s.filesystems.Keys, mid.filesystems.Keys, p, q);
  }

  lemma LongestBeside(keys: set<string>, more: set<string>, p: string, q: string)
    requires more == keys + {p} && !(p <= q)
    ensures LongestPrefix(more, q) == LongestPrefix(keys, q)
  {
    forall m ensures IsLongestPrefix(more, q, m) <==> IsLongestPrefix(keys, q, m) {}
    if m :| IsLongestPrefix(keys, q, m) {
      LongestPrefixUnique(keys, q, LongestPrefix(keys, q).value, LongestPrefix(more, q).value);
    }
  }

  /** So the directories AddFS finds and misses above its path are those of the storage before the call. */
  lemma ParentsBeforeMount(s: Space, mid: Space, p: string, fs: Filesystem)
    requires IsKey(p) && p != "/" && mid == Space(s.files, s.filesystems[p := fs], mid.mounts)
    requires Enumerates(s.mounts, s.filesystems.Keys) && MountList(s.mounts, s.filesystems.Keys)
    requires Enumerates(mid.mounts, mid.filesystems.Keys) && MountList(mid.mounts, mid.filesystems.Keys)
    ensures Missing(mid, Parent(p)) == Missing(s, Parent(p)) && Anchor(mid, Parent(p)) == Anchor(s, Parent(p))
  {
    hide Enumerates, MountList, Missing, Anchor, Probe, IsKey, Parent;
    KeyParent(p);
    forall q | |q| <= |Parent(p)| ensures Probe(mid, q) == Probe(s, q) { ProbeBeside(s, mid, p, fs, q); }
    MissingFrame(mid, s, Parent(p));
  }

  /** Whether AddFS at `p`, where nothing answers, can hang its mount from something: the nearest thing
      above that exists, if any, is a directory. */
  ghost predicate CanHang(s: Space, p: string) {
    p == "/" || Anchor(s, Parent(p)) != Some(false)
  }

  /** The directories missing above the path. */
  ghost function MissingAbovePath(s: Space, p: string): set<string> {
    if p == "/" then {} else Missing(s, Parent(p))
  }

  /** What AddFS returns, and which parents it makes, told from the storage before the call. */
  lemma MountForeseen(s: Space, mid: Space, p: string, fs: Filesystem)
    requires IsKey(p) && mid == Space(s.files, s.filesystems[p := fs], mid.mounts) && p !in s.files
    requires Enumerates(s.mounts, s.filesystems.Keys) && MountList(s.mounts, s.filesystems.Keys)
    requires Enumerates(mid.mounts, mid.filesystems.Keys) && MountList(mid.mounts, mid.filesystems.Keys)
    requires FirstMount(mid.mounts, p) == Some(p)
    ensures Missing(mid, Parent(p)) == MissingAbovePath(s, p)
    ensures Anchor(mid, Parent(p)) != Some(false) <==> CanHang(s, p)
  {
    if p == "/" {
      RootIsKey();
      assert Probe(mid, "/") == Some(true);
    } else {
      hide Missing, Anchor, Enumerates, MountList, IsKey, Parent;
      ParentsBeforeMount(s, mid, p, fs);
    }
  }

  lemma MountResult(s: Space, t: Tree, s': Space, t': Tree, archives: set<string>, p: string, fs: Filesystem, dir: File,
                    ok: bool)
    requires IsKey(p) && Probe(s, p).None? && MountList(s.mounts, s.filesystems.Keys)
    requires MountEffect(s, t, s', t', archives, p, fs, dir, ok)
    ensures Enumerates(s.mounts, s.filesystems.Keys) ==> (ok <==> CanHang(s, p))
  {
    hide Missing, Anchor, ParentEffect, MountList, IsKey, Enumerates, ArchivesGrow, Parent, CanHang;
    if Enumerates(s.mounts, s.filesystems.Keys) {
      MountForeseen(s, Space(s.files, s.filesystems[p := fs], s'.mounts), p, fs);
    }
  }

  lemma MountFound(s: Space, t: Tree, s': Space, t': Tree, archives: set<string>, p: string, fs: Filesystem, dir: File,
                   ok: bool)
    requires MountEffect(s, t, s', t', archives, p, fs, dir, ok)
    ensures p in s'.filesystems && s'.filesystems[p] == fs && FirstMount(s'.mounts, p) == Some(p)
  {
  }

  /** The listings once `p` is taken out of its parent's. */
  function Unnamed(listed: map<string, map<string, File>>, p: string): map<string, map<string, File>> {
    if Parent(p) in listed then listed[Parent(p) := listed[Parent(p)] - {Base(p)}] else listed
  }

  /** The list stays current after AddFS exactly when creating the parents opened no new archive. */
  lemma MountListCurrentIff(s: Space, t: Tree, s': Space, t': Tree, archives: set<string>, p: string, fs: Filesystem,
                            dir: File, ok: bool)
    requires MountEffect(s, t, s', t', archives, p, fs, dir, ok)
    ensures Enumerates(s'.mounts, s'.filesystems.Keys) <==>
            var mid := Space(s.files, s.filesystems[p := fs], s'.mounts);
            Archived(Missing(mid, Parent(p)), archives) <= s.filesystems.Keys + {p}
  {
    hide Missing, Anchor, CleanKey, Parent, ParentEffect, MountList, Archived;
    var mounted := s.filesystems[p := fs];
    assert forall k :: k in s'.mounts <==> k in mounted;
    if s'.filesystems.Keys == mounted.Keys {
    } else {
      var k :| k in s'.filesystems && k !in mounted;
      assert k !in s'.mounts;
    }
  }

  lemma UnnamedEntry(listed: map<string, map<string, File>>, p: string, q: string)
    requires IsKey(p) && IsKey(q) && q != "/"
    ensures Entry(Unnamed(listed, p), q) == if q == p then None else Entry(listed, q)
  {
    if Parent(q) == Parent(p) && Base(q) == Base(p) { KeyDetermined(p, q); }
    hide CleanKey, Parent, Base;
  }

  lemma UnnamedProper(listed: map<string, map<string, File>>, p: string)
    requires ProperNames(listed)
    ensures ProperNames(Unnamed(listed, p))
  {
    hide CleanKey, Parent, Base, IsName;
    forall d, n | d in Unnamed(listed, p) && n in Unnamed(listed, p)[d] ensures IsKey(d) && IsName(n) {
      assert d in listed && n in listed[d];
    }
  }

  /** RemoveFS at any path but the root keeps every stored key hanging from a stored directory that lists
      it exactly when no file is stored at the path: it takes a file's name away, but not the file. */
  lemma RemoveKeepsHangingIff(t: Tree, t': Tree, p: string)
    requires IsKey(p) && p != "/" && AllKeys(t.files.Keys)
    requires t' == t.(listed := Unnamed(t.listed, p))
    ensures Hanging(t') <==> Hanging(t) && p !in t.files
  {
    hide CleanKey, IsName, Parent, Base, Entry, IsKey, Unnamed;
    forall q | q in t.files && q != "/"
      ensures Entry(t'.listed, q) == if q == p then None else Entry(t.listed, q)
    {
      UnnamedEntry(t.listed, p, q);
    }
  }
}
