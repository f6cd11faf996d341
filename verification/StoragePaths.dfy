/** The paths fs/storage.go uses as keys: what its `clean` produces, and the tree they form. */
module StoragePaths {
  import opened Paths

  function Slashes(s: string): (r: string)
    ensures |r| == |s|
    ensures forall i | 0 <= i < |s| :: r[i] == if s[i] == '\\' then '/' else s[i]
  {
    if s == "" then "" else Slashes(s[..|s| - 1]) + [if s[|s| - 1] == '\\' then '/' else s[|s| - 1]]
  }

  /** clean: root the path, turn backslashes into slashes, and path.Clean it. */
  function CleanKey(s: string): string {
    Clean("/" + Slashes(s))
  }

  /** A name that can stand for one step of a key. */
  predicate IsName(n: string) {
    n != "" && '/' !in n && '\\' !in n && n != "." && n != ".."
  }

  ghost predicate Names(st: seq<string>) {
    forall i | 0 <= i < |st| :: IsName(st[i])
  }

  /** The keys themselves: the fixed points of `clean`. */
  predicate IsKey(p: string) {
    CleanKey(p) == p
  }

  function Parent(p: string): string {
    CleanKey(Split(p).0)
  }

  function Child(d: string, n: string): string {
    if d == "/" then "/" + n else d + "/" + n
  }

  // ---------- Keys are exactly the rendered name lists ----------

  lemma {:induction false} SegmentsWithout(s: string, c: char)
    requires c !in s
    ensures forall i | 0 <= i < |Segments(s)| :: c !in Segments(s)[i]
  {
    if s != "" {
      SegmentsWithout(s[..|s| - 1], c);
    }
  }

  lemma {:induction false} PushAllWithout(rooted: bool, st: seq<string>, segs: seq<string>, c: char)
    requires c != '.'
    requires forall i | 0 <= i < |st| :: c !in st[i]
    requires forall i | 0 <= i < |segs| :: c !in segs[i]
    ensures forall i | 0 <= i < |PushAll(rooted, st, segs)| :: c !in PushAll(rooted, st, segs)[i]
  {
    if segs != [] {
      PushAllWithout(rooted, st, segs[..|segs| - 1], c);
    }
  }

  lemma {:induction false} JoinWithout(segs: seq<string>, c: char)
    requires c != '/'
    requires forall i | 0 <= i < |segs| :: c !in segs[i]
    ensures c !in JoinSegments(segs)
  {
    if |segs| > 1 {
      JoinWithout(segs[..|segs| - 1], c);
    }
  }

  function KeySteps(s: string): seq<string> {
    Steps("/" + Slashes(s))
  }

  lemma KeyStepsAreNames(s: string)
    ensures Names(KeySteps(s))
  {
    var t := "/" + Slashes(s);
    StepsCanonical(t);
    SegmentsWithout(t, '\\');
    PushAllWithout(true, [], Segments(t), '\\');
  }

  lemma {:induction false} SlashesOfClean(s: string)
    requires '\\' !in s
    ensures Slashes(s) == s
  {
  }

  /** Every name list renders to a key, and the key gives the list back. */
  lemma KeyOfNames(st: seq<string>)
    requires Names(st)
    ensures IsKey(Render(true, st)) && KeySteps(Render(true, st)) == st
  {
    var p := Render(true, st);
    JoinWithout(st, '\\');
    SlashesOfClean(p);
    StepsOfRender(true, st);
    SegmentsConcat("", p);
    assert "/" + p == "" + "/" + p;
    PushAllAppend(true, [], [""], Segments(p));
    PushOne(true, [], "");
  }

  /** What `clean` makes of a key with one more segment that is no name: nothing, or a step up. */
  lemma CleanKeyOfDots(p: string)
    requires IsKey(p)
    ensures CleanKey(p + "/") == p && CleanKey(p + "/.") == p && CleanKey(p + "/..") == Parent(p)
  {
    KeyPlusSegment(p, "");
    KeyPlusSegment(p, ".");
    KeyPlusSegment(p, "..");
    assert p + "/" + "" == p + "/" && p + "/" + "." == p + "/." && p + "/" + ".." == p + "/..";
    KeyIsRender(p);
    RenderNone([]);
    RootIsKey();
    if KeySteps(p) != [] { ParentOfNames(KeySteps(p)); }
  }

  /** Backslashes separate like slashes, and none is left. */
  lemma CleanKeyOfBackslash(a: string, b: string)
    ensures CleanKey(a + "\\" + b) == CleanKey(a + "/" + b) && '\\' !in CleanKey(a)
  {
    hide Clean;
    var s, t := Slashes(a + "\\" + b), Slashes(a + "/" + b);
    assert |s| == |t| && forall i | 0 <= i < |s| :: s[i] == t[i];
    assert s == t;
    KeyStepsAreNames(a);
    NamesWithoutBackslash(KeySteps(a));
    CleanKeyIsSteps(a);
  }

  lemma CleanKeyIsSteps(s: string)
    ensures CleanKey(s) == Render(true, KeySteps(s))
  {
  }

  lemma KeyPlusSegment(p: string, seg: string)
    requires IsKey(p) && '/' !in seg && '\\' !in seg
    ensures CleanKey(p + "/" + seg) == Render(true, Push(true, KeySteps(p), seg))
  {
    hide Segments, PushAll;
    KeyIsRender(p);
    NamesWithoutBackslash(KeySteps(p));
    SlashesOfClean(p);
    SlashesOfClean(p + "/" + seg);
    assert "/" + (p + "/" + seg) == ("/" + p) + "/" + seg;
    SegmentsConcat("/" + p, seg);
    SegmentsOfName(seg);
    PushAllAppend(true, [], Segments("/" + p), [seg]);
    PushOne(true, KeySteps(p), seg);
  }

  lemma KeyIsRender(p: string)
    requires IsKey(p)
    ensures Names(KeySteps(p)) && p == Render(true, KeySteps(p))
  {
    KeyStepsAreNames(p);
  }

  lemma CleanKeyIsKey(s: string)
    ensures IsKey(CleanKey(s)) && CleanKey(CleanKey(s)) == CleanKey(s)
  {
    KeyStepsAreNames(s);
    KeyOfNames(KeySteps(s));
  }

  lemma RootIsKey()
    ensures IsKey("/") && Parent("/") == "/" && Base("/") == ""
  {
    KeyOfNames([]);
    assert Split("/") == ("/", "");
  }

  // ---------- The tree of keys ----------

  lemma ParentOfNames(st: seq<string>)
    requires Names(st) && |st| > 0
    ensures Parent(Render(true, st)) == Render(true, st[..|st| - 1])
    ensures Base(Render(true, st)) == st[|st| - 1]
  {
    hide Segments, PushAll, JoinSegments, Steps, Canonical, CleanKey, Clean, Names, IsName;
    var init := st[..|st| - 1];
    NamesInit(st);
    NamesCanonical(st);
    DirOfRender(true, st);
    KeyOfNames(init);
    if |st| > 1 {
      NamesWithoutBackslash(init);
      KeyWithSlash(Render(true, init));
    } else {
      RenderNone(init);
    }
  }

  lemma NamesInit(st: seq<string>)
    requires Names(st) && |st| > 0
    ensures Names(st[..|st| - 1])
  {
  }

  lemma NamesCanonical(st: seq<string>)
    requires Names(st)
    ensures Canonical(true, st)
  {
  }

  lemma NamesAreRelative(st: seq<string>)
    requires Names(st)
    ensures Canonical(false, st)
  {
  }

  lemma NamesWithoutBackslash(st: seq<string>)
    requires Names(st)
    ensures '\\' !in Render(true, st)
  {
    JoinWithout(st, '\\');
  }

  lemma KeyWithSlash(p: string)
    requires IsKey(p) && '\\' !in p
    ensures CleanKey(p + "/") == p
  {
    hide Clean;
    SlashesOfClean(p);
    SlashesOfClean(p + "/");
    assert "/" + (p + "/") == ("/" + p) + "/";
    CleanTrailingSlash("/" + p);
  }

  lemma RenderNone(st: seq<string>)
    requires st == []
    ensures Render(true, st) == "/" && CleanKey("/") == "/"
  {
    RootIsKey();
  }

  lemma RenderChild(st: seq<string>, n: string)
    ensures Render(true, st + [n]) == Child(Render(true, st), n) || (st != [] && Render(true, st) == "/")
  {
    assert (st + [n])[..|st|] == st;
  }

  /** A key other than the root has a shorter parent and a proper name, which determine it. */
  lemma KeyParent(p: string)
    requires IsKey(p) && p != "/"
    ensures IsKey(Parent(p)) && |Parent(p)| < |p|
    ensures IsName(Base(p)) && p == Child(Parent(p), Base(p))
  {
    KeyIsRender(p);
    var st := KeySteps(p);
    assert st != [];
    var init := st[..|st| - 1];
    ParentOfNames(st);
    KeyOfNames(init);
    assert st == init + [st[|st| - 1]];
    RenderChild(init, st[|st| - 1]);
    if init != [] { JoinNonEmpty(init); }
  }

  /** Child is the inverse of taking a key apart. */
  lemma KeyChild(d: string, n: string)
    requires IsKey(d) && IsName(n)
    ensures IsKey(Child(d, n)) && Child(d, n) != "/"
    ensures Parent(Child(d, n)) == d && Base(Child(d, n)) == n
  {
    KeyIsRender(d);
    var st := KeySteps(d);
    RenderChild(st, n);
    if st != [] { JoinNonEmpty(st); }
    KeyOfNames(st + [n]);
    ParentOfNames(st + [n]);
    assert (st + [n])[..|st|] == st;
  }

  /** A key is determined by its parent and its name. */
  lemma KeyDetermined(p: string, q: string)
    requires IsKey(p) && IsKey(q) && q != "/"
    requires Parent(p) == Parent(q) && Base(p) == Base(q)
    ensures p == q
  {
    RootSplit(p);
    KeyParent(q);
    if p != "/" { KeyParent(p); }
  }

  lemma RootSplit(p: string)
    requires IsKey(p)
    ensures Base(p) == "" <==> p == "/"
    ensures |p| >= 1
  {
    RootIsKey();
    if p != "/" { KeyParent(p); }
  }

  /** `d` is `p` or one of the directories above it. */
  ghost predicate Above(d: string, p: string)
    decreases |p|
  {
    d == p || (p != "/" && |Parent(p)| < |p| && Above(d, Parent(p)))
  }

  ghost predicate StrictlyAbove(d: string, p: string) {
    d != p && Above(d, p)
  }

  lemma {:induction false} AboveIsShorter(d: string, p: string)
    requires Above(d, p)
    ensures |d| <= |p| && (|d| == |p| ==> d == p)
    decreases |p|
  {
    if d != p { AboveIsShorter(d, Parent(p)); }
  }

  lemma {:induction false} AboveTransitive(a: string, b: string, c: string)
    requires Above(a, b) && Above(b, c)
    ensures Above(a, c)
    decreases |c|
  {
    if b != c { AboveTransitive(a, b, Parent(c)); }
  }

  lemma {:induction false} RootAbove(p: string)
    requires IsKey(p)
    ensures Above("/", p)
    decreases |p|
  {
    if p != "/" {
      KeyParent(p);
      RootAbove(Parent(p));
    }
  }

  lemma {:induction false} AboveIsKey(d: string, p: string)
    requires IsKey(p) && Above(d, p)
    ensures IsKey(d)
    decreases |p|
  {
    if d != p {
      KeyParent(p);
      AboveIsKey(d, Parent(p));
    }
  }

  /** One step of the chain from a key up to the root. */
  lemma AboveParent(d: string, p: string)
    requires IsKey(p) && p != "/"
    ensures Above(d, p) <==> d == p || Above(d, Parent(p))
    ensures !Above(p, Parent(p))
  {
    KeyParent(p);
    if Above(p, Parent(p)) { AboveIsShorter(p, Parent(p)); }
  }

  /** The keys at or above `p` are `p` and those at or above its parent; the root has only itself. */
  lemma AboveSteps(p: string)
    requires IsKey(p)
    ensures p == "/" ==> forall d :: Above(d, p) <==> d == p
    ensures p != "/" ==> forall d :: Above(d, p) <==> d == p || Above(d, Parent(p))
    ensures p != "/" ==> !Above(p, Parent(p)) && Above(Parent(p), p)
    ensures Above(p, p)
  {
    if p != "/" {
      assert Above(Parent(p), Parent(p));
      forall d ensures Above(d, p) <==> d == p || Above(d, Parent(p)) { AboveParent(d, p); }
      AboveParent(p, p);
    }
  }

  /** A string prefix of a key is a directory above it exactly when it stops at a segment
      boundary. */
  lemma {:induction false} PrefixIsAbove(m: string, p: string)
    requires IsKey(m) && IsKey(p)
    ensures Above(m, p) <==> m <= p && (m == "/" || |m| == |p| || p[|m|] == '/')
    decreases |p|
  {
    hide CleanKey, Parent, Base, IsKey;
    RootSplit(m);
    if m == "/" { RootAbove(p); }
    AboveSteps(p);
    if p == "/" {
      RootIsKey();
    } else {
      KeyParent(p);
      RootSplit(Parent(p));
      PrefixIsAbove(m, Parent(p));
      ChildPrefix(m, Parent(p), Base(p));
    }
  }

  /** The prefixes of a child that end at a boundary are the child and such prefixes of the parent. */
  lemma ChildPrefix(m: string, d: string, n: string)
    requires IsName(n) && |d| >= 1 && |m| >= 1 && (m == "/" ==> m <= d)
    ensures var p := Child(d, n);
            (m <= p && (m == "/" || |m| == |p| || p[|m|] == '/')) <==>
            m == p || (m <= d && (m == "/" || |m| == |d| || d[|m|] == '/'))
  {
    var p := Child(d, n);
    assert d <= p && forall i | |p| - |n| <= i < |p| :: p[i] == n[i - (|p| - |n|)];
    assert forall i | |p| - |n| <= i < |p| :: p[i] in n;
  }
}
