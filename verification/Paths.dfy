/** Slash-separated paths, after the functions of Go's package `path` that the repository
    calls, and the cleaning that fs/storage.go applies to every path it is given. */
module Paths {

  // ---------- Segments ----------

  /** The pieces of `s` between slashes; there is always at least one. */
  function Segments(s: string): (segs: seq<string>)
    ensures |segs| > 0
    ensures forall i | 0 <= i < |segs| :: '/' !in segs[i]
  {
    if s == "" then [""] else AppendChar(Segments(s[..|s| - 1]), s[|s| - 1])
  }

  function AppendChar(segs: seq<string>, c: char): (r: seq<string>)
    requires |segs| > 0 && forall i | 0 <= i < |segs| :: '/' !in segs[i]
    ensures |r| > 0 && forall i | 0 <= i < |r| :: '/' !in r[i]
  {
    if c == '/' then segs + [""] else segs[..|segs| - 1] + [segs[|segs| - 1] + [c]]
  }

  function JoinSegments(segs: seq<string>): string {
    if |segs| == 0 then ""
    else if |segs| == 1 then segs[0]
    else JoinSegments(segs[..|segs| - 1]) + "/" + segs[|segs| - 1]
  }

  lemma {:induction false} SegmentsOfName(n: string)
    requires '/' !in n
    ensures Segments(n) == [n]
  {
    if n != "" {
      var init, c := n[..|n| - 1], n[|n| - 1];
      assert n == init + [c] && c != '/' && '/' !in init;
      SegmentsOfName(init);
      assert AppendChar([init], c) == [][..0] + [init + [c]];
    }
  }

  lemma SegmentsSnoc(s: string, c: char)
    ensures Segments(s + [c]) == AppendChar(Segments(s), c)
  {
    assert (s + [c])[..|s + [c]| - 1] == s;
  }

  lemma AppendCharConcat(a: seq<string>, b: seq<string>, c: char)
    requires |b| > 0 && (forall i | 0 <= i < |a| :: '/' !in a[i]) && forall i | 0 <= i < |b| :: '/' !in b[i]
    ensures AppendChar(a + b, c) == a + AppendChar(b, c)
  {
  }

  lemma SegmentsTrailing(a: string)
    ensures Segments(a + "/") == Segments(a) + Segments("")
  {
    SegmentsSnoc(a, '/');
  }

  lemma {:induction false} SegmentsConcat(a: string, b: string)
    ensures Segments(a + "/" + b) == Segments(a) + Segments(b)
  {
    hide Segments, AppendChar;
    if b == "" {
      SegmentsTrailing(a);
      assert a + "/" + b == a + "/";
    } else {
      var init, c := b[..|b| - 1], b[|b| - 1];
      var left := a + "/" + init;
      SegmentsConcat(a, init);
      SegmentsSnoc(left, c);
      SegmentsSnoc(init, c);
      assert init + [c] == b;
      assert left + [c] == a + "/" + b;
      AppendCharConcat(Segments(a), Segments(init), c);
    }
  }

  lemma {:induction false} SegmentsOfJoin(segs: seq<string>)
    requires |segs| > 0
    requires forall i | 0 <= i < |segs| :: '/' !in segs[i]
    ensures Segments(JoinSegments(segs)) == segs
  {
    var init, last := segs[..|segs| - 1], segs[|segs| - 1];
    SegmentsOfName(last);
    if |segs| > 1 {
      SegmentsConcat(JoinSegments(init), last);
      SegmentsOfJoin(init);
    } else {
      assert segs == [last];
    }
  }

  // ---------- path.Clean ----------

  /** One segment met by path.Clean while `st` is what it has kept so far. */
  function Push(rooted: bool, st: seq<string>, seg: string): seq<string> {
    if seg == "" || seg == "." then st
    else if seg == ".." then
      if |st| > 0 && st[|st| - 1] != ".." then st[..|st| - 1]
      else if rooted then st
      else st + [".."]
    else st + [seg]
  }

  function PushAll(rooted: bool, st: seq<string>, segs: seq<string>): seq<string> {
    if segs == [] then st
    else Push(rooted, PushAll(rooted, st, segs[..|segs| - 1]), segs[|segs| - 1])
  }

  predicate IsRooted(s: string) {
    s != "" && s[0] == '/'
  }

  /** The segments that survive path.Clean. */
  function Steps(s: string): seq<string> {
    PushAll(IsRooted(s), [], Segments(s))
  }

  function Render(rooted: bool, st: seq<string>): string {
    if rooted then "/" + JoinSegments(st)
    else if st == [] then "."
    else JoinSegments(st)
  }

  function Clean(s: string): string {
    Render(IsRooted(s), Steps(s))
  }

  /** The segment lists path.Clean can leave behind: no empty or "." segment, and ".." only at
      the front of a relative path. */
  ghost predicate Canonical(rooted: bool, st: seq<string>) {
    forall i | 0 <= i < |st| ::
      st[i] != "" && '/' !in st[i] && st[i] != "." &&
      (st[i] == ".." ==> !rooted && forall j | 0 <= j < i :: st[j] == "..")
  }

  lemma {:induction false} PushAllCanonical(rooted: bool, st: seq<string>, segs: seq<string>)
    requires Canonical(rooted, st)
    requires forall i | 0 <= i < |segs| :: '/' !in segs[i]
    ensures Canonical(rooted, PushAll(rooted, st, segs))
  {
    if segs != [] {
      PushAllCanonical(rooted, st, segs[..|segs| - 1]);
      var kept := PushAll(rooted, st, segs[..|segs| - 1]);
      if |kept| > 0 && kept[|kept| - 1] == ".." {
        assert forall j | 0 <= j < |kept| :: kept[j] == "..";
      }
    }
  }

  lemma {:induction false} PushAllAppend(rooted: bool, st: seq<string>, a: seq<string>, b: seq<string>)
    ensures PushAll(rooted, st, a + b) == PushAll(rooted, PushAll(rooted, st, a), b)
  {
    if b == [] {
      assert a + b == a;
    } else {
      assert (a + b)[..|a + b| - 1] == a + b[..|b| - 1];
      PushAllAppend(rooted, st, a, b[..|b| - 1]);
    }
  }

  lemma {:induction false} PushAllKeepsCanonical(rooted: bool, st: seq<string>)
    requires Canonical(rooted, st)
    ensures PushAll(rooted, [], st) == st
  {
    if st != [] {
      var init := st[..|st| - 1];
      PushAllKeepsCanonical(rooted, init);
      if st[|st| - 1] == ".." && init != [] {
        assert init[|init| - 1] == st[|st| - 2] == "..";
      }
    }
  }

  lemma StepsCanonical(s: string)
    ensures Canonical(IsRooted(s), Steps(s))
  {
    PushAllCanonical(IsRooted(s), [], Segments(s));
  }

  lemma PushOne(rooted: bool, st: seq<string>, seg: string)
    ensures PushAll(rooted, st, [seg]) == Push(rooted, st, seg)
  {
    assert [seg][..0] == [];
  }

  lemma {:induction false} JoinNonEmpty(st: seq<string>)
    requires |st| > 0 && st[0] != "" && '/' !in st[0]
    ensures JoinSegments(st) != "" && JoinSegments(st)[0] == st[0][0]
  {
    if |st| > 1 {
      JoinNonEmpty(st[..|st| - 1]);
    }
  }

  lemma StepsOfEmpty(rooted: bool)
    ensures IsRooted(Render(rooted, [])) == rooted && Steps(Render(rooted, [])) == []
  {
    if rooted {
      assert "/" == "" + "/" + "";
      SegmentsConcat("", "");
      PushAllAppend(true, [], [""], [""]);
      PushOne(true, [], "");
    } else {
      SegmentsOfName(".");
      PushOne(false, [], ".");
    }
  }

  lemma StepsOfNonEmpty(rooted: bool, st: seq<string>)
    requires Canonical(rooted, st) && st != []
    ensures IsRooted(Render(rooted, st)) == rooted && Steps(Render(rooted, st)) == st
  {
    hide Segments, JoinSegments, PushAll;
    SegmentsOfJoin(st);
    JoinNonEmpty(st);
    PushAllKeepsCanonical(rooted, st);
    if rooted {
      SegmentsOfName("");
      SegmentsConcat("", JoinSegments(st));
      assert Render(true, st) == "" + "/" + JoinSegments(st);
      PushAllAppend(true, [], [""], st);
      PushOne(true, [], "");
    } else {
      assert st[0][0] in st[0];
    }
  }

  /** Rendering a canonical list loses nothing. */
  lemma StepsOfRender(rooted: bool, st: seq<string>)
    requires Canonical(rooted, st)
    ensures IsRooted(Render(rooted, st)) == rooted
    ensures Steps(Render(rooted, st)) == st
    ensures Clean(Render(rooted, st)) == Render(rooted, st)
  {
    hide Canonical, Steps, Render;
    if st == [] { StepsOfEmpty(rooted); } else { StepsOfNonEmpty(rooted, st); }
  }

  /** path.Clean is idempotent. */
  lemma CleanIdempotent(s: string)
    ensures Clean(Clean(s)) == Clean(s)
  {
    StepsCanonical(s);
    StepsOfRender(IsRooted(s), Steps(s));
  }

  // ---------- path.Split, path.Dir, path.Ext, path.Join ----------

  /** path.Split: everything up to and including the last slash, and what follows it. */
  function Split(p: string): (r: (string, string))
    ensures r.0 + r.1 == p
    ensures '/' !in r.1
    ensures r.0 == "" || r.0[|r.0| - 1] == '/'
  {
    if p == "" || p[|p| - 1] == '/' then (p, "")
    else
      var (dir, file) := Split(p[..|p| - 1]);
      assert p == p[..|p| - 1] + [p[|p| - 1]];
      (dir, file + [p[|p| - 1]])
  }

  lemma {:induction false} SplitUnique(dir: string, file: string)
    requires '/' !in file
    requires dir == "" || dir[|dir| - 1] == '/'
    ensures Split(dir + file) == (dir, file)
  {
    if file == "" {
      assert dir + file == dir;
    } else {
      assert (dir + file)[..|dir + file| - 1] == dir + file[..|file| - 1];
      SplitUnique(dir, file[..|file| - 1]);
      assert file == file[..|file| - 1] + [file[|file| - 1]];
    }
  }

  function Dir(p: string): string {
    Clean(Split(p).0)
  }

  function Base(p: string): string {
    Split(p).1
  }

  /** path.Ext: the last dot of the last element and what follows it. */
  function Ext(p: string): string {
    if p == "" || p[|p| - 1] == '/' then ""
    else if p[|p| - 1] == '.' then "."
    else
      var e := Ext(p[..|p| - 1]);
      if e == "" then "" else e + [p[|p| - 1]]
  }

  /** The extension of a name with a dot starts at its last one. */
  lemma {:induction false} ExtOfDotted(d: string, e: string)
    requires '.' !in e && '/' !in e
    ensures Ext(d + "." + e) == "." + e
  {
    var p := d + "." + e;
    if e != "" {
      var init := e[..|e| - 1];
      assert p[..|p| - 1] == d + "." + init && e == init + [e[|e| - 1]];
      ExtOfDotted(d, init);
      assert p[|p| - 1] == e[|e| - 1];
    }
  }

  /** A name without a dot has none, whatever its directories are called. */
  lemma {:induction false} ExtOfPlain(d: string, n: string)
    requires '.' !in n && '/' !in n && (d == "" || d[|d| - 1] == '/')
    ensures Ext(d + n) == ""
  {
    if n != "" {
      var init := n[..|n| - 1];
      assert (d + n)[..|d + n| - 1] == d + init && n == init + [n[|n| - 1]];
      ExtOfPlain(d, init);
      assert (d + n)[|d + n| - 1] == n[|n| - 1];
    } else {
      assert d + n == d;
    }
  }

  /** path.Join of two elements: empty elements are skipped. */
  function Join(a: string, b: string): string {
    if a == "" && b == "" then ""
    else if a == "" then Clean(b)
    else if b == "" then Clean(a)
    else Clean(a + "/" + b)
  }

  lemma JoinSegmentsInit(st: seq<string>)
    requires |st| > 1
    ensures JoinSegments(st) == JoinSegments(st[..|st| - 1]) + "/" + st[|st| - 1]
  {
  }

  /** Cleaning does not see a trailing slash. */
  lemma CleanTrailingSlash(p: string)
    requires p != ""
    ensures Clean(p + "/") == Clean(p)
  {
    SegmentsConcat(p, "");
    assert p + "/" + "" == p + "/";
    PushAllAppend(IsRooted(p), [], Segments(p), [""]);
    PushOne(IsRooted(p), PushAll(IsRooted(p), [], Segments(p)), "");
  }

  /** On clean paths path.Dir drops the last segment and path.Base returns it. */
  lemma DirOfRender(rooted: bool, st: seq<string>)
    requires Canonical(rooted, st) && |st| > 0
    ensures Dir(Render(rooted, st)) == Render(rooted, st[..|st| - 1])
    ensures Base(Render(rooted, st)) == st[|st| - 1]
    ensures Split(Render(rooted, st)).0 ==
            if |st| > 1 then Render(rooted, st[..|st| - 1]) + "/" else if rooted then "/" else ""
  {
    var p, init, last := Render(rooted, st), st[..|st| - 1], st[|st| - 1];
    assert Canonical(rooted, init);
    var dir := if |st| > 1 then Render(rooted, init) + "/" else if rooted then "/" else "";
    if |st| > 1 {
      JoinSegmentsInit(st);
    }
    assert p == dir + last;
    SplitUnique(dir, last);
    StepsOfRender(rooted, init);
    if |st| > 1 {
      JoinNonEmpty(init);
      CleanTrailingSlash(Render(rooted, init));
    } else {
      assert init == [];
      SegmentsOfName("");
    }
  }
}
