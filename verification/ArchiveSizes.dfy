/** Directory sizes in a storage with factories: an archive that Add opens is counted in the directories
    above it without being stored. */
module ArchiveSizes {
  import opened Files
  import opened Int64
  import opened Paths
  import opened StoragePaths
  import opened StorageTree
  import opened Totals
  import opened TreeLaws
  import opened Wrappers

  /** A tree together with the archives opened in it: `counted` gives, at each of their keys, the sizes of
      the files opened there, added up. */
  datatype Account = Account(t: Tree, counted: map<string, int>)

  /** Stored keys have no archive's extension, counted ones do, and whatever is above one of either is
      stored or has one. */
  ghost predicate Enclosed(a: Account, archives: set<string>) {
    && a.t.sizes.Keys == a.t.files.Keys && Closed(a.t.files, archives)
    && (forall q | q in a.t.files :: Ext(q) !in archives)
    && (forall q | q in a.counted :: IsKey(q) && Ext(q) in archives)
    && forall q, d | q in a.counted && Above(d, q) :: d in a.t.files || Ext(d) in archives
  }

  ghost function CountedBelow(counted: map<string, int>, d: string): map<string, int> {
    map p | p in counted && StrictlyAbove(d, p) :: counted[p]
  }

  /** The sizes of the files and archives below `d`, together. */
  ghost function SizeBelow(a: Account, d: string): int
    requires a.t.sizes.Keys == a.t.files.Keys
  {
    Total(LeavesBelow(a.t, d)) + Total(CountedBelow(a.counted, d))
  }

  /** Every Dir has the size of the stored files and the opened archives below it. */
  ghost predicate Balanced(a: Account, archives: set<string>) {
    && Enclosed(a, archives)
    && forall d | d in a.t.files && a.t.files[d].kind.Dir? :: a.t.sizes[d] == Wrap(SizeBelow(a, d))
  }

  /** The archives once a missing `p` is added. */
  function CountedAfter(counted: map<string, int>, archives: set<string>, p: string, f: File, size: int):
    map<string, int>
  {
    if f.kind.Leaf? && Ext(p) in archives then counted[p := size + if p in counted then counted[p] else 0] else counted
  }

  /** One accepted Add of `f` at `p` in a storage without mounts. */
  ghost predicate Step(a: Account, b: Account, archives: set<string>, s: Space, p: string, f: File, size: int) {
    && IsKey(p) && s.mounts == [] && s.files == a.t.files && Accepts(s, p, f) && (f.kind.Dir? ==> size == 0)
    && AddEffect(a.t, b.t, Missing(s, p), archives, p, f, true, size)
    && b.counted == if p in a.t.files then a.counted else CountedAfter(a.counted, archives, p, f, size)
  }

  // ---------- Keys ----------

  lemma StepEncloses(a: Account, b: Account, archives: set<string>, s: Space, p: string, f: File, size: int)
    requires Enclosed(a, archives) && Step(a, b, archives, s, p, f, size)
    ensures Enclosed(b, archives)
    ensures forall q :: q in b.t.files <==> q in a.t.files || (Ext(q) !in archives && Above(q, p))
  {
    hide Ext, Above, Missing, Accepts, IsKey, Linked, Closed;
    AddedChain(a.t, b.t, archives, s, p, f, true, size);
  }

  /** Nothing lies below an unstored key that could be stored. */
  lemma NothingBelow(a: Account, archives: set<string>, d: string)
    requires Enclosed(a, archives) && d !in a.t.files && Ext(d) !in archives
    ensures SizeBelow(a, d) == 0
  {
    hide Ext, Above, IsKey;
    assert LeavesBelow(a.t, d) == map[];
    assert CountedBelow(a.counted, d) == map[];
    EmptyTotal();
  }

  // ---------- Sizes ----------

  /** What a step adds to the files below `d`. */
  lemma LeavesStep(a: Account, b: Account, archives: set<string>, s: Space, p: string, f: File, size: int, d: string)
    requires Enclosed(a, archives) && Step(a, b, archives, s, p, f, size) && p !in a.t.files
    requires b.t.sizes.Keys == b.t.files.Keys
    ensures var below := LeavesBelow(a.t, d);
            && p !in below
            && LeavesBelow(b.t, d) ==
               if f.kind.Leaf? && Ext(p) !in archives && StrictlyAbove(d, p) then below[p := size] else below
  {
    hide Ext, Above, Step, Enclosed, StrictlyAbove;
    EnclosedSizes(a, archives);
    StepLeaves(a, b, archives, s, p, f, size);
    forall q ensures q in LeavesBelow(b.t, d) <==>
                     q in LeavesBelow(a.t, d) || (q == p && f.kind.Leaf? && Ext(p) !in archives && StrictlyAbove(d, p))
    {
    }
  }

  /** The stored files after a step. */
  lemma StepLeaves(a: Account, b: Account, archives: set<string>, s: Space, p: string, f: File, size: int)
    requires Enclosed(a, archives) && Step(a, b, archives, s, p, f, size) && p !in a.t.files
    ensures b.t.sizes.Keys == b.t.files.Keys
    ensures forall q | q in a.t.files :: q in b.t.files && b.t.files[q] == a.t.files[q]
    ensures forall q | q in b.t.files && b.t.files[q].kind.Leaf? ::
              b.t.sizes[q] == if q in a.t.files then a.t.sizes[q] else size
    ensures forall q | q in b.t.files && q !in a.t.files :: b.t.files[q].kind.Leaf? ==> q == p && f.kind.Leaf?
    ensures f.kind.Leaf? ==> (p in b.t.files <==> Ext(p) !in archives) && (p in b.t.files ==> b.t.files[p].kind.Leaf?)
  {
    hide Ext, Above, Missing, Accepts, IsKey, Linked, Closed, Parent;
    OwnMissing(s, p);
  }

  lemma OwnMissing(s: Space, p: string)
    requires s.mounts == [] && p !in s.files
    ensures p in Missing(s, p)
  {
  }

  /** What a step adds to the archives below `d`. */
  lemma CountedStep(counted: map<string, int>, archives: set<string>, p: string, f: File, size: int, d: string)
    ensures Total(CountedBelow(CountedAfter(counted, archives, p, f, size), d)) ==
            Total(CountedBelow(counted, d))
            + if f.kind.Leaf? && Ext(p) in archives && StrictlyAbove(d, p) then size else 0
  {
    hide Ext, StrictlyAbove, Total, CountedBelow;
    if f.kind.Leaf? && Ext(p) in archives {
      var v := size + if p in counted then counted[p] else 0;
      CountedBelowAt(counted, p, v, d);
      var below := CountedBelow(counted, d);
      if StrictlyAbove(d, p) {
        if p in below { TotalUpdate(below, p, v); } else { TotalInsert(below, p, v); }
      }
    }
  }

  lemma CountedBelowAt(counted: map<string, int>, p: string, v: int, d: string)
    ensures CountedBelow(counted[p := v], d)
            == if StrictlyAbove(d, p) then CountedBelow(counted, d)[p := v] else CountedBelow(counted, d)
    ensures StrictlyAbove(d, p) ==> (p in CountedBelow(counted, d) <==> p in counted)
    ensures p in CountedBelow(counted, d) ==> CountedBelow(counted, d)[p] == counted[p]
  {
    hide StrictlyAbove;
  }

  /** A step lets the sizes below `d` grow by the new file's, if it comes to lie below `d`. */
  lemma SizeStep(a: Account, b: Account, archives: set<string>, s: Space, p: string, f: File, size: int, d: string)
    requires Enclosed(a, archives) && Step(a, b, archives, s, p, f, size) && p !in a.t.files
    requires b.t.sizes.Keys == b.t.files.Keys
    ensures SizeBelow(b, d) == SizeBelow(a, d) + if f.kind.Leaf? && StrictlyAbove(d, p) then size else 0
  {
    hide Ext, Above, Enclosed, AddEffect, Accepts, IsKey, Total, LeavesBelow, CountedBelow, CountedAfter;
    EnclosedSizes(a, archives);
    LeavesStep(a, b, archives, s, p, f, size, d);
    CountedStep(a.counted, archives, p, f, size, d);
    if f.kind.Leaf? && Ext(p) !in archives && StrictlyAbove(d, p) { TotalInsert(LeavesBelow(a.t, d), p, size); }
  }

  /** What a step does to the size of a stored directory. */
  lemma DirGrows(a: Account, b: Account, archives: set<string>, s: Space, p: string, f: File, size: int, d: string)
    requires Enclosed(a, archives) && Step(a, b, archives, s, p, f, size) && p !in a.t.files
    requires d in b.t.files && b.t.files[d].kind.Dir?
    ensures d in b.t.sizes && var was := if d in a.t.files then a.t.sizes[d] else 0;
            b.t.sizes[d] == if f.kind.Leaf? && StrictlyAbove(d, p) then Wrap(was + size) else was
  {
    hide Ext, Above, Missing, IsKey, Linked, Closed, Parent, Accepts, Wrap;
    OwnMissing(s, p);
    AboveSteps(p);
    LeafNotRoot(s, p, f);
  }

  lemma LeafNotRoot(s: Space, p: string, f: File)
    requires s.mounts == [] && p !in s.files && Accepts(s, p, f)
    ensures f.kind.Leaf? ==> p != "/"
  {
  }

  /** An accepted Add keeps every directory's size equal to the files and archives below it. */
  lemma StepBalances(a: Account, b: Account, archives: set<string>, s: Space, p: string, f: File, size: int)
    requires Balanced(a, archives) && Step(a, b, archives, s, p, f, size)
    ensures Balanced(b, archives)
  {
    hide Ext, Above, Enclosed, AddEffect, Accepts, IsKey, Wrap, SizeBelow, Step;
    StepEncloses(a, b, archives, s, p, f, size);
    EnclosedSizes(b, archives);
    EnclosedSizes(a, archives);
    forall d | d in b.t.files && b.t.files[d].kind.Dir? ensures b.t.sizes[d] == Wrap(SizeBelow(b, d)) {
      if p in a.t.files {
        PresentStep(a, b, archives, s, p, f, size);
      } else {
        DirGrows(a, b, archives, s, p, f, size, d);
        SizeStep(a, b, archives, s, p, f, size, d);
        OldDir(a, b, archives, s, p, f, size, d);
        if d !in a.t.files { NothingBelow(a, archives, d); WrapZero(); }
        WrapAdd(SizeBelow(a, d), size);
      }
    }
  }

  lemma EnclosedSizes(a: Account, archives: set<string>)
    requires Enclosed(a, archives)
    ensures a.t.sizes.Keys == a.t.files.Keys && forall q | q in a.t.files :: Ext(q) !in archives
  {
  }

  lemma WrapZero()
    ensures Wrap(0) == 0
  {
  }

  lemma OldDir(a: Account, b: Account, archives: set<string>, s: Space, p: string, f: File, size: int, d: string)
    requires Enclosed(a, archives) && Step(a, b, archives, s, p, f, size)
    ensures forall q | q in a.t.files :: q in b.t.files && b.t.files[q] == a.t.files[q]
  {
    hide Ext, Above, Missing, IsKey, Linked, Closed, Parent, Accepts;
  }

  /** A key that is stored already is left as it is. */
  lemma PresentStep(a: Account, b: Account, archives: set<string>, s: Space, p: string, f: File, size: int)
    requires Enclosed(a, archives) && Step(a, b, archives, s, p, f, size) && p in a.t.files
    ensures b.t.files == a.t.files && b.t.sizes == a.t.sizes && b.counted == a.counted
    ensures forall d :: SizeBelow(b, d) == SizeBelow(a, d)
  {
    hide Ext, Above, IsKey, Linked, Closed, Parent, Accepts, Total;
    assert Missing(s, p) == {};
    assert b.t.files == a.t.files;
    assert b.t.sizes == a.t.sizes;
  }

  // ---------- Whole runs ----------

  datatype Move = Adds(s: Space, p: string, f: File, size: int) | Clears

  /** An accepted Add, an Add that finds a file at its key and changes nothing, or a Clear. */
  ghost predicate Moved(a: Account, b: Account, archives: set<string>, move: Move) {
    match move
    case Adds(s, p, f, size) => Step(a, b, archives, s, p, f, size) || (p in a.t.files && b == a)
    case Clears =>
      && b.counted == map[] && b.t.files.Keys == {"/"} && b.t.files["/"].kind.Dir? && b.t.sizes == map["/" := 0]
  }

  lemma ClearBalances(b: Account, archives: set<string>)
    requires "" !in archives && b.counted == map[] && b.t.files.Keys == {"/"} && b.t.sizes == map["/" := 0]
    ensures Balanced(b, archives)
  {
    hide Above, Wrap, Total;
    RootIsKey();
    NothingListed();
    AboveSteps("/");
    assert LeavesBelow(b.t, "/") == map[];
    assert CountedBelow(b.counted, "/") == map[];
    EmptyTotal();
  }

  /** Over every run of Clear and of Adds that are not refused at a new key, archives opened and opened
      again on the way, every Dir keeps the size of the files and archives below it. */
  lemma {:induction false} RunsStayBalanced(accounts: seq<Account>, archives: set<string>, moves: seq<Move>, n: nat)
    requires |accounts| == |moves| + 1 && "" !in archives && Balanced(accounts[0], archives) && n <= |moves|
    requires forall i | 0 <= i < |moves| :: Moved(accounts[i], accounts[i + 1], archives, moves[i])
    ensures Balanced(accounts[n], archives)
  {
    hide Balanced, Step;
    if n > 0 {
      RunsStayBalanced(accounts, archives, moves, n - 1);
      var a, b, move := accounts[n - 1], accounts[n], moves[n - 1];
      assert Moved(a, b, archives, move);
      if move.Clears? {
        ClearBalances(b, archives);
      } else if b != a {
        StepBalances(a, b, archives, move.s, move.p, move.f, move.size);
      }
    }
  }

  /** Without archives this is the exactness of a good tree. */
  lemma BalancedIsExact(a: Account)
    requires a.counted == map[] && Balanced(a, {})
    ensures SizesExact(a.t)
  {
    hide Wrap, Closed, LeavesBelow;
    forall d ensures CountedBelow(a.counted, d) == map[] {}
    EmptyTotal();
  }
}
