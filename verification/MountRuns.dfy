/** What the four structures of fs/storage.go agree on while filesystems are mounted and unmounted in
    it, call by call and over whole runs. */
module MountRuns {
  import opened Files
  import opened MountLaws
  import opened Paths
  import opened StoragePaths
  import opened StorageTree
  import opened TreeLaws
  import opened Wrappers

  /** A storage at one moment. */
  datatype Moment = Moment(t: Tree, filesystems: map<string, Filesystem>, mounts: seq<string>)

  ghost function SpaceOf(m: Moment): Space {
    Space(m.t.files, m.filesystems, m.mounts)
  }

  /** The cached list holds exactly the mounted keys, longest first. */
  ghost predicate Current(m: Moment) {
    Enumerates(m.mounts, m.filesystems.Keys) && MountList(m.mounts, m.filesystems.Keys)
  }

  /** The listings name exactly what is stored or mounted; what is stored, as the object stored. */
  ghost predicate AllNamed(t: Tree, filesystems: map<string, Filesystem>) {
    && AllKeys(t.files.Keys) && AllKeys(filesystems.Keys) && ProperNames(t.listed)
    && ("/" in t.files ==> t.files["/"].IsDir())
    && forall q | IsKey(q) && q != "/" ::
         (Entry(t.listed, q).Some? <==> q in t.files || q in filesystems)
         && (q in t.files ==> Entry(t.listed, q) == Some(t.files[q]))
  }

  ghost predicate Agreed(m: Moment) {
    Current(m) && AllNamed(m.t, m.filesystems)
  }

  lemma NewStorageAgreed()
    ensures Agreed(Moment(Tree(map[], map[], map[]), map[], []))
  {
    NothingListed();
  }

  // ---------- Add ----------

  /** What Add of `f` at `p` does. */
  ghost predicate AddCall(a: Moment, b: Moment, archives: set<string>, p: string, f: File, size: int) {
    var missing := Missing(SpaceOf(a), p);
    && IsKey(p) && b.mounts == a.mounts
    && AddEffect(a.t, b.t, missing, archives, p, f, Accepts(SpaceOf(a), p, f), size)
    && ArchivesGrow(a.filesystems, b.filesystems, missing, archives)
  }

  /** Nothing that answers is missing, mounts least of all. */
  lemma MissingUnknown(s: Space, p: string, k: string)
    requires Enumerates(s.mounts, s.filesystems.Keys) && MountList(s.mounts, s.filesystems.Keys)
    requires k in Missing(s, p)
    ensures k !in s.filesystems && k !in s.files
  {
    MissingAbove(s, p, k);
    if k in s.filesystems { MountNotMissing(s, p, k); }
  }

  /** The list stays current exactly when no archive is opened. */
  lemma AddCurrentIff(a: Moment, b: Moment, archives: set<string>, p: string, f: File, size: int)
    requires Current(a) && AddCall(a, b, archives, p, f, size)
    ensures Current(b) <==> Archived(Missing(SpaceOf(a), p), archives) == {}
  {
    hide AddEffect, Missing, Accepts, MountList, IsKey;
    var opened' := Archived(Missing(SpaceOf(a), p), archives);
    if opened' == {} {
      assert b.filesystems.Keys == a.filesystems.Keys;
    } else {
      var k :| k in opened';
      MissingUnknown(SpaceOf(a), p, k);
      assert k in b.filesystems && k !in b.mounts;
    }
  }

  /** Naming new keys along with storing or mounting them keeps everything named. */
  lemma NamesGrow(t: Tree, t': Tree, filesystems: map<string, Filesystem>, filesystems': map<string, Filesystem>,
                  linked: set<string>, p: string, f: File)
    requires AllNamed(t, filesystems) && Linked(t.listed, t'.listed, t'.files, linked, p, f)
    requires AllKeys(linked) && linked !! t.files.Keys && linked !! filesystems.Keys
    requires t'.files.Keys + filesystems'.Keys == t.files.Keys + filesystems.Keys + linked
    requires forall q | q in t.files :: q in t'.files && t'.files[q] == t.files[q]
    requires t'.files.Keys <= t.files.Keys + linked && (p in linked && p in t'.files ==> t'.files[p] == f)
    requires "/" in t'.files ==> t'.files["/"].IsDir()
    ensures AllNamed(t', filesystems')
  {
    hide Entry, IsKey, ProperNames;
    forall q ensures q in t'.files || q in filesystems' <==> q in t.files || q in filesystems || q in linked {
      assert q in t'.files.Keys + filesystems'.Keys <==> q in t.files.Keys + filesystems.Keys + linked;
    }
  }

  /** Without archives what is missing is stored. */
  lemma PlainGrowth(before: map<string, File>, after: map<string, File>, missing: set<string>, archives: set<string>,
                    p: string, f: File)
    requires FilesGrow(before, after, missing, archives, p, f) && Archived(missing, archives) == {}
    ensures after.Keys == before.Keys + missing && missing !! before.Keys
    ensures forall q | q in before :: q in after && after[q] == before[q]
    ensures forall q | q in missing :: if q == p then after[q] == f else after[q].kind.Dir?
  {
    hide Ext;
    forall q | q in missing ensures Ext(q) !in archives { assert q !in Archived(missing, archives); }
  }

  lemma MissingAllUnknown(s: Space, p: string)
    requires IsKey(p) && Enumerates(s.mounts, s.filesystems.Keys) && MountList(s.mounts, s.filesystems.Keys)
    ensures AllKeys(Missing(s, p)) && Missing(s, p) !! s.filesystems.Keys && Missing(s, p) !! s.files.Keys
  {
    hide Missing, MountList, Enumerates, IsKey;
    MissingKeys(s, p);
    forall k | k in Missing(s, p) ensures k !in s.filesystems { MissingUnknown(s, p, k); }
  }

  /** After an Add that opens no archive everything is named exactly if it succeeds or finds its key. */
  lemma AddNamedIff(a: Moment, b: Moment, archives: set<string>, p: string, f: File, size: int)
    requires Agreed(a) && AddCall(a, b, archives, p, f, size) && Archived(Missing(SpaceOf(a), p), archives) == {}
    ensures AllNamed(b.t, b.filesystems) <==> Probe(SpaceOf(a), p).Some? || Accepts(SpaceOf(a), p, f)
  {
    hide Missing, Linked, SizesGrow, MountList, Enumerates, IsKey, FilesGrow, Accepts, Archived, AllNamed, Probe;
    NamedFacts(a.t, a.filesystems);
    var s, missing := SpaceOf(a), Missing(SpaceOf(a), p);
    MissingAllUnknown(s, p);
    PlainGrowth(a.t.files, b.t.files, missing, archives, p, f);
    assert b.filesystems.Keys == a.filesystems.Keys;
    if Accepts(s, p, f) {
      if p in missing { AcceptedRoot(s, p, f); }
      NamesGrow(a.t, b.t, a.filesystems, b.filesystems, missing, p, f);
    } else if Probe(s, p).Some? {
      NothingMissing(s, p);
      NamesStay(a.t, b.t, a.filesystems, b.filesystems);
    } else {
      OwnKeyMissing(s, p);
      if p == "/" { RefusedRoot(s, f); }
      RecordedUnnamed(a, b, p);
    }
  }

  lemma RecordedUnnamed(a: Moment, b: Moment, p: string)
    requires AllNamed(a.t, a.filesystems) && IsKey(p) && p !in a.t.files && p !in a.filesystems
    requires b.t.listed == a.t.listed && (p in b.t.files || p in b.filesystems)
    requires p == "/" ==> p in b.t.files && !b.t.files[p].IsDir()
    ensures !AllNamed(b.t, b.filesystems)
  {
    hide Entry, ProperNames;
  }

  lemma AcceptedRoot(s: Space, p: string, f: File)
    requires Accepts(s, p, f) && p in Missing(s, p)
    ensures p == "/" ==> f.IsDir()
  {
  }

  lemma RefusedRoot(s: Space, f: File)
    requires !Accepts(s, "/", f) && Probe(s, "/").None?
    ensures !f.IsDir()
  {
  }

  lemma NothingMissing(s: Space, p: string)
    requires Probe(s, p).Some?
    ensures Missing(s, p) == {}
  {
  }

  lemma NamesStay(t: Tree, t': Tree, filesystems: map<string, Filesystem>, filesystems': map<string, Filesystem>)
    requires AllNamed(t, filesystems) && t'.files == t.files && t'.listed == t.listed
    requires filesystems'.Keys == filesystems.Keys
    ensures AllNamed(t', filesystems')
  {
    hide Entry, IsKey, ProperNames;
  }

  /** Add keeps the four structures in agreement exactly when its key answers already, or when it succeeds
      and opens no archive. */
  lemma AddAgreesIff(a: Moment, b: Moment, archives: set<string>, p: string, f: File, size: int)
    requires Agreed(a) && AddCall(a, b, archives, p, f, size)
    ensures Agreed(b) <==> Probe(SpaceOf(a), p).Some?
                           || (Accepts(SpaceOf(a), p, f) && Archived(Missing(SpaceOf(a), p), archives) == {})
  {
    hide AddCall, AllNamed, Missing, Accepts, MountList;
    AddCurrentIff(a, b, archives, p, f, size);
    if Probe(SpaceOf(a), p).Some? { NothingMissing(SpaceOf(a), p); }
    if Archived(Missing(SpaceOf(a), p), archives) == {} { AddNamedIff(a, b, archives, p, f, size); }
  }

  // ---------- AddFS ----------

  /** What AddFS of `fs` at `p` does; `ok` is whether it returns nil. */
  ghost predicate MountCall(a: Moment, b: Moment, archives: set<string>, p: string, fs: Filesystem, dir: File,
                            ok: bool) {
    IsKey(p) &&
    if Probe(SpaceOf(a), p).Some? then b == a && ok == Probe(SpaceOf(a), p).value
    else MountEffect(SpaceOf(a), a.t, SpaceOf(b), b.t, archives, p, fs, dir, ok)
  }

  /** The parents AddFS has to create, once its mount is recorded. */
  ghost function ParentsMissing(a: Moment, b: Moment, p: string, fs: Filesystem): set<string> {
    Missing(Space(a.t.files, a.filesystems[p := fs], b.mounts), Parent(p))
  }

  /** The condition of AddFS on the storage before the call. */
  lemma MountCallForeseen(a: Moment, b: Moment, archives: set<string>, p: string, fs: Filesystem, dir: File, ok: bool)
    requires Current(a) && Probe(SpaceOf(a), p).None? && MountCall(a, b, archives, p, fs, dir, ok)
    ensures ok <==> CanHang(SpaceOf(a), p)
    ensures ParentsMissing(a, b, p, fs) == MissingAbovePath(SpaceOf(a), p)
  {
    hide Missing, Anchor, ParentEffect, MountList, IsKey, Enumerates, ArchivesGrow, Parent, CanHang, MissingAbovePath;
    Unanswered(a, p);
    MountForeseen(SpaceOf(a), Space(a.t.files, a.filesystems[p := fs], b.mounts), p, fs);
  }

  lemma MountCurrentIff(a: Moment, b: Moment, archives: set<string>, p: string, fs: Filesystem, dir: File, ok: bool)
    requires Probe(SpaceOf(a), p).None? && MountCall(a, b, archives, p, fs, dir, ok)
    ensures Current(b) <==> Archived(ParentsMissing(a, b, p, fs), archives) == {}
  {
    hide Missing, Anchor, ParentEffect, MountList, IsKey, Enumerates;
    var mid := Space(a.t.files, a.filesystems[p := fs], b.mounts);
    var opened' := Archived(Missing(mid, Parent(p)), archives);
    MountListCurrentIff(SpaceOf(a), a.t, SpaceOf(b), b.t, archives, p, fs, dir, ok);
    forall k | k in opened' ensures k !in mid.filesystems { MissingUnknown(mid, Parent(p), k); }
    assert opened' <= a.filesystems.Keys + {p} <==> opened' == {};
    ListGrows(b.mounts, mid.filesystems.Keys, b.filesystems.Keys);
  }

  lemma ListGrows(mounts: seq<string>, keys: set<string>, more: set<string>)
    requires MountList(mounts, keys) && keys <= more
    ensures MountList(mounts, more)
  {
  }

  /** The keys AddFS adds: its mount and the parents it stores. */
  lemma MountGrowth(a: Moment, b: Moment, archives: set<string>, p: string, fs: Filesystem, dir: File, ok: bool)
    requires Current(a) && Probe(SpaceOf(a), p).None? && MountCall(a, b, archives, p, fs, dir, ok)
    requires Archived(ParentsMissing(a, b, p, fs), archives) == {}
    ensures var missing := ParentsMissing(a, b, p, fs);
            && AllKeys(missing + {p}) && missing + {p} !! a.t.files.Keys && missing + {p} !! a.filesystems.Keys
            && b.t.files.Keys == a.t.files.Keys + missing && b.filesystems.Keys == a.filesystems.Keys + {p}
            && p !in missing && (forall q | q in a.t.files :: q in b.t.files && b.t.files[q] == a.t.files[q])
            && ("/" in missing ==> b.t.files["/"].IsDir())
  {
    hide Missing, Anchor, Linked, SizesGrow, MountList, IsKey, Parent, Enumerates, FilesGrow, Archived;
    var mid := Space(a.t.files, a.filesystems[p := fs], b.mounts);
    ParentIsKey(p);
    MissingAllUnknown(mid, Parent(p));
    Unanswered(a, p);
    KeysNotEmpty(p);
    PlainGrowth(a.t.files, b.t.files, ParentsMissing(a, b, p, fs), archives, "", dir);
  }

  lemma MountNamedIff(a: Moment, b: Moment, archives: set<string>, p: string, fs: Filesystem, dir: File, ok: bool)
    requires Agreed(a) && Probe(SpaceOf(a), p).None? && MountCall(a, b, archives, p, fs, dir, ok)
    requires Archived(ParentsMissing(a, b, p, fs), archives) == {}
    ensures AllNamed(b.t, b.filesystems) <==> ok
  {
    hide Missing, Anchor, Linked, SizesGrow, MountList, IsKey, AllKeys, Parent, Enumerates, FilesGrow, ArchivesGrow,
         Archived, AllNamed, Probe;
    MountGrowth(a, b, archives, p, fs, dir, ok);
    NamedFacts(a.t, a.filesystems);
    if ok {
      NamesGrow(a.t, b.t, a.filesystems, b.filesystems, ParentsMissing(a, b, p, fs) + {p}, p, dir);
    } else {
      MountedRoot(Space(a.t.files, a.filesystems[p := fs], b.mounts), p);
      RecordedUnnamed(a, b, p);
    }
  }

  lemma NamedFacts(t: Tree, filesystems: map<string, Filesystem>)
    requires AllNamed(t, filesystems)
    ensures "/" in t.files ==> t.files["/"].IsDir()
  {
  }

  lemma KeysNotEmpty(p: string)
    ensures IsKey(p) ==> p != ""
  {
    CleanKeyIsKey(p);
  }

  lemma ParentIsKey(p: string)
    requires IsKey(p)
    ensures IsKey(Parent(p))
  {
    CleanKeyIsKey(Split(p).0);
  }

  /** What does not answer is neither stored nor mounted. */
  lemma Unanswered(a: Moment, p: string)
    requires Current(a) && Probe(SpaceOf(a), p).None?
    ensures p !in a.t.files && p !in a.filesystems
  {
    if p in a.filesystems { RebuiltListReaches(SpaceOf(a), p); }
  }

  lemma MountedRoot(mid: Space, p: string)
    requires FirstMount(mid.mounts, p) == Some(p) && p !in mid.files
    ensures p == "/" ==> Anchor(mid, Parent(p)) == Some(true)
  {
    RootIsKey();
  }

  /** AddFS keeps the four structures in agreement exactly when something answers already, or when the
      nearest thing above its path is a directory and no directory missing there has an archive's
      extension; refused, it leaves a mount that no listing names. */
  lemma MountAgreesIff(a: Moment, b: Moment, archives: set<string>, p: string, fs: Filesystem, dir: File, ok: bool)
    requires Agreed(a) && MountCall(a, b, archives, p, fs, dir, ok)
    ensures Agreed(b) <==>
            Probe(SpaceOf(a), p).Some?
            || (CanHang(SpaceOf(a), p) && Archived(MissingAbovePath(SpaceOf(a), p), archives) == {})
  {
    hide AllNamed, Missing, MountList, MountEffect, Archived, Probe, Enumerates, CanHang, MissingAbovePath,
         ParentsMissing;
    if Probe(SpaceOf(a), p).None? {
      MountCallForeseen(a, b, archives, p, fs, dir, ok);
      MountCurrentIff(a, b, archives, p, fs, dir, ok);
      if Archived(ParentsMissing(a, b, p, fs), archives) == {} { MountNamedIff(a, b, archives, p, fs, dir, ok); }
    }
  }

  // ---------- RemoveFS ----------

  /** What RemoveFS of `p` does. */
  ghost predicate UnmountCall(a: Moment, b: Moment, p: string) {
    && IsKey(p) && Current(b) && b.filesystems == a.filesystems - {p}
    && b.t == a.t.(listed := Unnamed(a.t.listed, p))
  }

  /** RemoveFS keeps the four structures in agreement exactly when no file is stored at its path: it takes
      the name of a file away, but not the file. */
  lemma UnmountAgreesIff(a: Moment, b: Moment, p: string)
    requires Agreed(a) && UnmountCall(a, b, p)
    ensures Agreed(b) <==> p !in a.t.files || p == "/"
  {
    hide Entry, IsKey, ProperNames, Unnamed, MountList, Enumerates;
    UnnamedProper(a.t.listed, p);
    forall q | IsKey(q) && q != "/"
      ensures Entry(b.t.listed, q) == if q == p then None else Entry(a.t.listed, q)
    {
      UnnamedEntry(a.t.listed, p, q);
    }
  }

  // ---------- Whole runs ----------

  datatype Call =
    | Adds(p: string, f: File, size: int)
    | Mounts(p: string, fs: Filesystem, dir: File, ok: bool)
    | Unmounts(p: string)
    | Clears
    | Answers

  /** A call, or a moment at which mounted filesystems change what they answer. */
  ghost predicate Called(a: Moment, b: Moment, archives: set<string>, call: Call) {
    match call
    case Adds(p, f, size) => AddCall(a, b, archives, p, f, size)
    case Mounts(p, fs, dir, ok) => MountCall(a, b, archives, p, fs, dir, ok)
    case Unmounts(p) => UnmountCall(a, b, p)
    case Clears =>
      && b.filesystems == map[] && b.mounts == [] && b.t.listed == map["/" := map[]]
      && b.t.files.Keys == {"/"} && b.t.files["/"].IsDir()
    case Answers => b.t == a.t && b.mounts == a.mounts && b.filesystems.Keys == a.filesystems.Keys
  }

  /** The archives a call opens on the way, told from the moment before it. */
  ghost function Opened(a: Moment, archives: set<string>, call: Call): set<string> {
    match call
    case Adds(p, _, _) => Archived(Missing(SpaceOf(a), p), archives)
    case Mounts(p, _, _, _) =>
      if Probe(SpaceOf(a), p).Some? then {} else Archived(MissingAbovePath(SpaceOf(a), p), archives)
    case _ => {}
  }

  /** The call finds its path answering, or can do what it is asked to, told from the moment before it. */
  ghost predicate Serves(a: Moment, call: Call) {
    match call
    case Adds(p, f, _) => Probe(SpaceOf(a), p).Some? || Accepts(SpaceOf(a), p, f)
    case Mounts(p, _, _, _) => Probe(SpaceOf(a), p).Some? || CanHang(SpaceOf(a), p)
    case Unmounts(p) => p !in a.t.files || p == "/"
    case _ => true
  }

  lemma ClearedAgreed(b: Moment)
    requires b.filesystems == map[] && b.mounts == [] && b.t.listed == map["/" := map[]]
    requires b.t.files.Keys == {"/"} && b.t.files["/"].IsDir()
    ensures Agreed(b)
  {
    hide IsKey, MountList, Enumerates, Parent, Base;
    RootIsKey();
    NoMountsCurrent();
    ProperRoot();
    assert forall q :: Entry(b.t.listed, q) == None;
  }

  lemma ProperRoot()
    ensures ProperNames(map["/" := map[]])
  {
  }

  /** Every call keeps the agreement exactly when it serves and opens no archive. */
  lemma CallAgreesIff(a: Moment, b: Moment, archives: set<string>, call: Call)
    requires Agreed(a) && Called(a, b, archives, call)
    ensures Agreed(b) <==> Serves(a, call) && Opened(a, archives, call) == {}
  {
    hide Agreed, AddCall, MountCall, UnmountCall, Archived, Missing, Accepts, Probe, CanHang, MissingAbovePath;
    match call {
      case Adds(p, f, size) =>
        AddAgreesIff(a, b, archives, p, f, size);
        if Probe(SpaceOf(a), p).Some? { NothingOpened(a, archives, p); }
      case Mounts(p, fs, dir, ok) => MountAgreesIff(a, b, archives, p, fs, dir, ok);
      case Unmounts(p) => UnmountAgreesIff(a, b, p);
      case Clears => ClearedAgreed(b);
      case Answers => AnswersAgree(a, b);
    }
  }

  /** What filesystems answer is no part of the agreement. */
  lemma AnswersAgree(a: Moment, b: Moment)
    requires b.t == a.t && b.mounts == a.mounts && b.filesystems.Keys == a.filesystems.Keys
    ensures Agreed(b) <==> Agreed(a)
  {
    hide MountList, Enumerates, Entry, IsKey, ProperNames;
    assert forall q :: q in b.filesystems <==> q in a.filesystems;
  }

  lemma NothingOpened(a: Moment, archives: set<string>, p: string)
    requires Probe(SpaceOf(a), p).Some?
    ensures Archived(Missing(SpaceOf(a), p), archives) == {}
  {
  }

  /** Over every run of Add, AddFS, RemoveFS and Clear, whatever mounted filesystems answer in between,
      files, listings, filesystems and mounts agree as long as every call serves and opens no archive, and
      the first that does not breaks it. */
  lemma {:induction false} RunsAgree(moments: seq<Moment>, archives: set<string>, calls: seq<Call>, n: nat)
    requires |moments| == |calls| + 1 && Agreed(moments[0]) && n <= |calls|
    requires forall i | 0 <= i < |calls| :: Called(moments[i], moments[i + 1], archives, calls[i])
    requires forall i | 0 <= i < n ::
               Serves(moments[i], calls[i]) && Opened(moments[i], archives, calls[i]) == {}
    ensures Agreed(moments[n])
    ensures n < |calls| ==>
              (Agreed(moments[n + 1]) <==>
               Serves(moments[n], calls[n]) && Opened(moments[n], archives, calls[n]) == {})
  {
    hide Agreed, Called, Serves, Opened;
    if n > 0 { RunsAgree(moments, archives, calls, n - 1); }
    if n < |calls| { CallAgreesIff(moments[n], moments[n + 1], archives, calls[n]); }
  }

  /** A call leaves a current list current exactly when it opens no archive. */
  lemma CallCurrentIff(a: Moment, b: Moment, archives: set<string>, call: Call)
    requires Current(a) && Called(a, b, archives, call)
    ensures Current(b) <==> Opened(a, archives, call) == {}
  {
    hide Archived, Missing, Accepts, Probe, MountEffect, MountList, Enumerates, AddCall, CanHang, MissingAbovePath,
         ParentsMissing;
    match call {
      case Adds(p, f, size) => AddCurrentIff(a, b, archives, p, f, size);
      case Mounts(p, fs, dir, ok) =>
        if Probe(SpaceOf(a), p).None? {
          MountCallForeseen(a, b, archives, p, fs, dir, ok);
          MountCurrentIff(a, b, archives, p, fs, dir, ok);
        }
      case Unmounts(p) =>
      case Clears => NoMountsCurrent();
      case Answers =>
    }
  }

  lemma NoMountsCurrent()
    ensures var none: map<string, Filesystem> := map[]; Enumerates([], none.Keys) && MountList([], none.Keys)
  {
  }

  /** After any history of mounts and unmounts, refused ones included, lookup finds the longest mounted
      prefix of every path, if no directory on the way has an archive's extension. */
  lemma {:induction false} RunsLookUpLongest(moments: seq<Moment>, archives: set<string>, calls: seq<Call>, n: nat,
                                             q: string)
    requires |moments| == |calls| + 1 && Current(moments[0]) && n <= |calls|
    requires forall i | 0 <= i < |calls| :: Called(moments[i], moments[i + 1], archives, calls[i])
    requires forall i | 0 <= i < n :: Opened(moments[i], archives, calls[i]) == {}
    ensures Current(moments[n])
    ensures FirstMount(moments[n].mounts, q) == LongestPrefix(moments[n].filesystems.Keys, q)
  {
    hide Called, Opened;
    if n > 0 {
      RunsLookUpLongest(moments, archives, calls, n - 1, q);
      CallCurrentIff(moments[n - 1], moments[n], archives, calls[n - 1]);
    }
    LookupIsLongestPrefix(moments[n].mounts, moments[n].filesystems.Keys, q);
  }
}
