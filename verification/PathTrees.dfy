/** Clean paths as positions in a tree, and how string prefixes relate to it. */
module PathTrees {
  import opened Paths

  predicate IsClean(p: string) {
    Clean(p) == p
  }

  lemma CleanIsRender(p: string)
    requires IsClean(p)
    ensures Canonical(IsRooted(p), Steps(p)) && p == Render(IsRooted(p), Steps(p))
  {
    StepsCanonical(p);
  }

  /** The prefix of `p` with `k` segments. */
  function Upto(p: string, k: nat): string
    requires k <= |Steps(p)|
  {
    Render(IsRooted(p), Steps(p)[..k])
  }

  lemma UptoSteps(p: string, k: nat)
    requires k <= |Steps(p)|
    ensures IsClean(Upto(p, k)) && IsRooted(Upto(p, k)) == IsRooted(p) && Steps(Upto(p, k)) == Steps(p)[..k]
  {
    StepsCanonical(p);
    StepsOfRender(IsRooted(p), Steps(p)[..k]);
  }

  /** `d` is a directory above `p`, the root "/" and "." not counted. */
  ghost predicate ProperlyAbove(d: string, p: string) {
    exists k :: 1 <= k < |Steps(p)| && d == Upto(p, k)
  }

  /** Steps decide: above means a strict, non-empty prefix of the steps. */
  lemma AboveIsPrefix(d: string, p: string)
    requires IsClean(d) && IsClean(p)
    ensures ProperlyAbove(d, p) <==>
            IsRooted(d) == IsRooted(p) && 1 <= |Steps(d)| < |Steps(p)| && Steps(d) == Steps(p)[..|Steps(d)|]
  {
    CleanIsRender(d);
    if ProperlyAbove(d, p) {
      var k :| 1 <= k < |Steps(p)| && d == Upto(p, k);
      UptoSteps(p, k);
    }
    if IsRooted(d) == IsRooted(p) && 1 <= |Steps(d)| < |Steps(p)| && Steps(d) == Steps(p)[..|Steps(d)|] {
      assert d == Upto(p, |Steps(d)|);
    }
  }

  lemma AboveIsClean(d: string, p: string)
    requires ProperlyAbove(d, p)
    ensures IsClean(d)
  {
    var k :| 1 <= k < |Steps(p)| && d == Upto(p, k);
    UptoSteps(p, k);
  }

  /** path.Dir moves one step up. */
  lemma DirOfUpto(p: string, k: nat)
    requires 1 <= k <= |Steps(p)|
    ensures Dir(Upto(p, k)) == Upto(p, k - 1)
  {
    StepsCanonical(p);
    DirOfRender(IsRooted(p), Steps(p)[..k]);
    assert Steps(p)[..k][..k - 1] == Steps(p)[..k - 1];
  }

  /** Going up stops at "." or "/" exactly when no segment is left. */
  lemma TopOfUpto(p: string, k: nat)
    requires k <= |Steps(p)|
    ensures Upto(p, k) == "." || Upto(p, k) == "/" <==> k == 0
  {
    UptoSteps(p, k);
    StepsOfEmpty(true);
    StepsOfEmpty(false);
  }

  lemma UptoInjective(p: string, j: nat, k: nat)
    requires j <= |Steps(p)| && k <= |Steps(p)| && Upto(p, j) == Upto(p, k)
    ensures j == k
  {
    UptoSteps(p, j);
    UptoSteps(p, k);
  }

  // ---------- First segments of strings ----------

  /** strings.Index(s, "/"). */
  function IndexSlash(s: string): (r: int)
    ensures -1 <= r < |s|
    ensures r >= 0 ==> s[r] == '/' && '/' !in s[..r]
    ensures r < 0 ==> '/' !in s
  {
    if s == "" then -1
    else if s[0] == '/' then 0
    else
      var r := IndexSlash(s[1..]);
      assert s == [s[0]] + s[1..];
      if r < 0 then -1
      else
        assert s[..r + 1] == [s[0]] + s[1..][..r];
        r + 1
  }

  /** What stands before the first slash is the first segment. */
  lemma FirstSegment(s: string)
    ensures Segments(s)[0] == if IndexSlash(s) < 0 then s else s[..IndexSlash(s)]
    ensures |Segments(s)| == 1 <==> IndexSlash(s) < 0
  {
    hide Segments, IndexSlash;
    var i := IndexSlash(s);
    if i < 0 {
      SegmentsOfName(s);
    } else {
      assert s == s[..i] + "/" + s[i + 1..];
      SegmentsConcat(s[..i], s[i + 1..]);
      SegmentsOfName(s[..i]);
    }
  }

  lemma StepsOfRelative(p: string)
    requires IsClean(p) && !IsRooted(p) && p != "."
    ensures Steps(p) == Segments(p)
  {
    CleanIsRender(p);
    StepsOfEmpty(false);
    SegmentsOfJoin(Steps(p));
  }

  lemma CutCanonical(p: string, a: string, rest: string)
    requires IsClean(p) && !IsRooted(p) && p != "." && p == a + "/" + rest
    ensures Steps(p) == Segments(a) + Segments(rest) && Canonical(false, Segments(a)) && Segments(rest)[0] != ""
  {
    hide Segments, JoinSegments, PushAll, Render;
    StepsOfRelative(p);
    SegmentsConcat(a, rest);
    CleanIsRender(p);
    var sa, sp := Segments(a), Steps(p);
    assert sp[..|sa|] == sa && sp[|sa|] == Segments(rest)[0];
    forall i | 0 <= i < |sa|
      ensures sa[i] != "" && sa[i] != "." && (sa[i] == ".." ==> forall j | 0 <= j < i :: sa[j] == "..")
    {
      assert sa[i] == sp[i];
      assert forall j | 0 <= j < i :: sa[j] == sp[j];
    }
  }

  /** Cutting a clean relative path after a slash cuts its steps. */
  lemma StepsOfCut(a: string, rest: string)
    requires a != "" && IsClean(a + "/" + rest) && !IsRooted(a)
    ensures IsClean(a) && a != "." && Steps(a + "/" + rest) == Steps(a) + Segments(rest) && Steps(a) == Segments(a)
    ensures rest != ""
  {
    hide Segments, JoinSegments, PushAll, Steps, Canonical;
    var p := a + "/" + rest;
    assert p[0] == a[0] && p != ".";
    CutCanonical(p, a, rest);
    SegmentsOfName("");
    JoinOfSegments(a);
    StepsOfRender(false, Segments(a));
    StepsOfEmpty(false);
    SegmentsOfName(".");
  }

  /** Joining the segments of a string gives it back. */
  lemma {:induction false} JoinOfSegments(s: string)
    ensures JoinSegments(Segments(s)) == s
  {
    if s != "" {
      var init, c := s[..|s| - 1], s[|s| - 1];
      JoinOfSegments(init);
      JoinAppend(Segments(init), c);
      assert s == init + [c];
    }
  }

  lemma JoinAppend(segs: seq<string>, c: char)
    requires |segs| > 0 && forall i | 0 <= i < |segs| :: '/' !in segs[i]
    ensures JoinSegments(AppendChar(segs, c)) == JoinSegments(segs) + [c]
  {
    hide JoinSegments, AppendChar;
    if c == '/' {
      AppendSlash(segs);
      JoinSlash(segs);
    } else {
      InitLast(segs);
      AppendOther(segs, c);
      JoinLonger(segs[..|segs| - 1], segs[|segs| - 1], c);
    }
  }

  lemma InitLast<T>(s: seq<T>)
    requires |s| > 0
    ensures s == s[..|s| - 1] + [s[|s| - 1]]
  {
  }

  lemma AppendSlash(segs: seq<string>)
    requires |segs| > 0 && forall i | 0 <= i < |segs| :: '/' !in segs[i]
    ensures AppendChar(segs, '/') == segs + [""]
  {
  }

  lemma AppendOther(segs: seq<string>, c: char)
    requires |segs| > 0 && c != '/' && forall i | 0 <= i < |segs| :: '/' !in segs[i]
    ensures AppendChar(segs, c) == segs[..|segs| - 1] + [segs[|segs| - 1] + [c]]
  {
  }

  /** An empty last segment makes a path end in a slash. */
  lemma JoinSlash(segs: seq<string>)
    requires |segs| > 0
    ensures JoinSegments(segs + [""]) == JoinSegments(segs) + ['/']
  {
    hide JoinSegments;
    JoinSegmentsInit(segs + [""]);
    assert (segs + [""])[..|segs|] == segs;
    assert JoinSegments(segs) + "/" + "" == JoinSegments(segs) + ['/'];
  }

  /** A longer last segment makes a longer path. */
  lemma JoinLonger(init: seq<string>, last: string, c: char)
    ensures JoinSegments(init + [last + [c]]) == JoinSegments(init + [last]) + [c]
  {
    hide JoinSegments;
    if init == [] {
      JoinOne(last);
      JoinOne(last + [c]);
      assert init + [last] == [last] && init + [last + [c]] == [last + [c]];
    } else {
      assert (init + [last])[..|init|] == init && (init + [last + [c]])[..|init|] == init;
      JoinSegmentsInit(init + [last]);
      JoinSegmentsInit(init + [last + [c]]);
      assert JoinSegments(init) + "/" + (last + [c]) == JoinSegments(init) + "/" + last + [c];
    }
  }

  lemma {:induction false} JoinFirst(st: seq<string>)
    requires |st| >= 2
    ensures JoinSegments(st) == st[0] + "/" + JoinSegments(st[1..])
  {
    hide JoinSegments;
    JoinSegmentsInit(st);
    var init, last := st[..|st| - 1], st[|st| - 1];
    if |st| == 2 {
      JoinOne(st[0]);
      JoinOne(st[1]);
      assert init == [st[0]] && st[1..] == [last];
    } else {
      JoinFirst(init);
      JoinSegmentsInit(st[1..]);
      assert st[1..][..|st| - 2] == init[1..];
    }
  }

  lemma JoinNone(segs: seq<string>)
    requires segs == []
    ensures JoinSegments(segs) == ""
  {
  }

  lemma JoinOne(n: string)
    ensures JoinSegments([n]) == n
  {
  }
}
