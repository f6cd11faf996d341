/** fuse/mount.go: the table of open files behind the mounted filesystem. */
module HandleTable {
  import opened Int64
  import opened Wrappers

  datatype Result<+T> = Ok(value: T) | BadIndex | Empty | CloseFailed | LookupFailed | Panicked

  /** The handle that stands for no handle. */
  const FH_NONE: nat := TWO_64 - 1

  /** int(fhi) for an unsigned 64-bit handle. */
  function AsInt(fhi: nat): (r: int)
    ensures fhi < TWO_63 ==> r == fhi
    ensures TWO_63 <= fhi < TWO_64 ==> r < 0
  {
    Wrap(fhi)
  }

  // ---------- The table ----------

  /** The first free place, or one past the end. */
  function FreePlace<F>(holders: seq<Option<F>>): (i: nat)
    ensures i <= |holders|
    ensures i < |holders| ==> holders[i].None?
    ensures forall j | 0 <= j < i :: holders[j].Some?
  {
    if holders == [] || holders[0].None? then 0
    else
      var i := FreePlace(holders[1..]);
      assert forall j | 1 <= j < |holders| :: holders[j] == holders[1..][j - 1];
      i + 1
  }

  function Put<F>(holders: seq<Option<F>>, i: nat, f: F): seq<Option<F>>
    requires i <= |holders|
  {
    if i < |holders| then holders[i := Some(f)] else holders + [Some(f)]
  }

  function At<F>(holders: seq<Option<F>>, h: nat): Option<F> {
    if h < |holders| then holders[h] else None
  }

  class FileHandler<F(!new)> {
    var holders: seq<Option<F>>

    constructor ()
      ensures holders == []
    {
      holders := [];
    }

    /** `found` is what the filesystem answers for the path; a missing file is an error too. */
    method OpenHolder(found: Option<F>) returns (r: Result<nat>)
      requires |holders| < TWO_63 - 1
      modifies this
      ensures found.None? ==> r == LookupFailed && holders == old(holders)
      ensures found.Some? ==> r == Ok(FreePlace(old(holders))) && holders == Put(old(holders), r.value, found.value)
    {
      if found.None? {
        return LookupFailed;
      }
      var i := 0;
      while i < |holders|
        invariant i <= |holders|
        invariant forall j | 0 <= j < i :: holders[j].Some?
      {
        if holders[i].None? {
          holders := holders[i := found];
          return Ok(i);
        }
        i := i + 1;
      }
      holders := holders + [found];
      return Ok(|holders| - 1);
    }

    method Get(fhi: nat) returns (r: Result<F>)
      requires fhi < TWO_64 && |holders| < TWO_63
      ensures r == if fhi >= TWO_63 then Panicked
                   else if fhi >= |holders| then BadIndex
                   else if holders[fhi].None? then Empty
                   else Ok(holders[fhi].value)
    {
      var i := AsInt(fhi);
      if i >= |holders| {
        return BadIndex;
      }
      if i < 0 {
        return Panicked;
      }
      if holders[i].None? {
        return Empty;
      }
      return Ok(holders[i].value);
    }

    /** Without a handle the file is looked up by its path again. */
    method GetFile(found: Option<F>, fhi: nat) returns (r: Result<F>)
      requires fhi < TWO_64 && |holders| < TWO_63
      ensures r == if fhi == FH_NONE then (if found.Some? then Ok(found.value) else LookupFailed)
                   else if fhi >= TWO_63 then Panicked
                   else if fhi >= |holders| then BadIndex
                   else if holders[fhi].None? then Empty
                   else Ok(holders[fhi].value)
    {
      if fhi == FH_NONE {
        return if found.Some? then Ok(found.value) else LookupFailed;
      }
      r := Get(fhi);
    }

    /** `closes` tells whether closing the file succeeds. */
    method Remove(fhi: nat, closes: bool) returns (r: Result<()>)
      requires fhi < TWO_64 && |holders| < TWO_63
      modifies this
      ensures holders == Removed(old(holders), fhi, closes)
      ensures r == if fhi == FH_NONE then Ok(())
                   else if fhi >= |old(holders)| then Panicked
                   else if old(holders)[fhi].None? then Empty
                   else if closes then Ok(()) else CloseFailed
    {
      if fhi == FH_NONE {
        return Ok(());
      }
      var i := AsInt(fhi);
      if i < 0 || i >= |holders| {
        return Panicked;
      }
      if holders[i].None? {
        return Empty;
      }
      if !closes {
        return CloseFailed;
      }
      holders := holders[i := None];
      return Ok(());
    }
  }

  function Removed<F>(holders: seq<Option<F>>, fhi: nat, closes: bool): seq<Option<F>> {
    if fhi < |holders| && closes then holders[fhi := None] else holders
  }

  // ---------- Whole runs ----------

  datatype Op<F> = Open(file: F) | Close(fhi: nat, closes: bool)

  function Step<F>(holders: seq<Option<F>>, op: Op<F>): seq<Option<F>> {
    match op
    case Open(f) => Put(holders, FreePlace(holders), f)
    case Close(h, closes) => Removed(holders, h, closes)
  }

  /** The table after the operations, starting empty. */
  function Run<F>(ops: seq<Op<F>>): seq<Option<F>> {
    if ops == [] then [] else Step(Run(ops[..|ops| - 1]), ops[|ops| - 1])
  }

  /** The handle the `i`th operation returns when it opens. */
  function HandleOf<F>(ops: seq<Op<F>>, i: nat): nat
    requires i < |ops|
  {
    FreePlace(Run(ops[..i]))
  }

  /** The file opened by operation `i` has not been removed by the end of the run. */
  ghost predicate StillOpen<F(!new)>(ops: seq<Op<F>>, i: nat) {
    && i < |ops| && ops[i].Open?
    && forall j | i < j < |ops| :: ops[j] != Close(HandleOf(ops, i), true)
  }

  /** A handle yields the file it was opened with until a Remove of it succeeds. */
  lemma {:induction false} HandleYieldsItsFile<F(!new)>(ops: seq<Op<F>>, i: nat)
    requires StillOpen(ops, i)
    ensures At(Run(ops), HandleOf(ops, i)) == Some(ops[i].file)
  {
    var init, last := ops[..|ops| - 1], ops[|ops| - 1];
    if i < |ops| - 1 {
      assert init[..i] == ops[..i];
      HandleYieldsItsFile(init, i);
    }
  }

  /** Files open at the same time never share a handle. */
  lemma {:induction false} LiveHandlesDistinct<F(!new)>(ops: seq<Op<F>>, i: nat, k: nat)
    requires i < k && StillOpen(ops, i) && StillOpen(ops, k)
    ensures HandleOf(ops, i) != HandleOf(ops, k)
  {
    var before := ops[..k];
    assert before[..i] == ops[..i];
    HandleYieldsItsFile(before, i);
  }

  /** And only then: what a handle yields is a file opened with it and not removed since. */
  lemma {:induction false} HandleYieldsOnlyOpen<F(!new)>(ops: seq<Op<F>>, h: nat) returns (i: nat)
    requires At(Run(ops), h).Some?
    ensures StillOpen(ops, i) && HandleOf(ops, i) == h && ops[i].file == At(Run(ops), h).value
  {
    hide FreePlace;
    var n := |ops| - 1;
    var init, last := ops[..n], ops[n];
    if last.Open? && FreePlace(Run(init)) == h {
      i := n;
    } else {
      i := HandleYieldsOnlyOpen(init, h);
      assert init[..i] == ops[..i];
    }
  }

  /** A handle yields a file exactly while it is the handle of an open of that file not removed since. */
  lemma HandleYieldsIff<F(!new)>(ops: seq<Op<F>>, h: nat, f: F)
    ensures At(Run(ops), h) == Some(f) <==>
            exists i: nat :: StillOpen(ops, i) && HandleOf(ops, i) == h && ops[i].file == f
  {
    hide Run, At, HandleOf;
    if At(Run(ops), h) == Some(f) {
      var i := HandleYieldsOnlyOpen(ops, h);
    }
    if i: nat :| StillOpen(ops, i) && HandleOf(ops, i) == h && ops[i].file == f {
      HandleYieldsItsFile(ops, i);
    }
  }

  /** The opens not removed by the end of the run. */
  ghost function OpenSet<F(!new)>(ops: seq<Op<F>>, n: nat): set<nat>
    requires n <= |ops|
  {
    if n == 0 then {} else OpenSet(ops, n - 1) + if StillOpen(ops, n - 1) then {n - 1} else {}
  }

  lemma {:induction false} OpenSetMembers<F(!new)>(ops: seq<Op<F>>, n: nat, i: nat)
    requires n <= |ops|
    ensures i in OpenSet(ops, n) <==> i < n && StillOpen(ops, i)
  {
    if n > 0 { OpenSetMembers(ops, n - 1, i); }
  }

  // ---------- The length of the table ----------

  /** How many handles are open. */
  function Live<F>(holders: seq<Option<F>>): (n: nat)
    ensures n <= |holders|
  {
    if holders == [] then 0
    else Live(holders[..|holders| - 1]) + if holders[|holders| - 1].Some? then 1 else 0
  }

  /** The handles that are open. */
  ghost function Places<F>(holders: seq<Option<F>>): (s: set<nat>)
    ensures forall h: nat :: h in s <==> h < |holders| && holders[h].Some?
    ensures |s| == Live(holders)
  {
    if holders == [] then {}
    else
      var n := |holders| - 1;
      var s := Places(holders[..n]);
      if holders[n].Some? then s + {n} else s
  }

  /** The live count is the number of files opened and not removed since. */
  lemma LiveCountsOpen<F(!new)>(ops: seq<Op<F>>)
    ensures Live(Run(ops)) == |OpenSet(ops, |ops|)|
  {
    hide Run, Live, OpenSet, Places, StillOpen, HandleOf;
    var kept := OpenSet(ops, |ops|);
    forall i: nat ensures i in kept <==> i < |ops| && StillOpen(ops, i) {
      OpenSetMembers(ops, |ops|, i);
    }
    var handles := map i | i in kept && i < |ops| :: HandleOf(ops, i);
    assert handles.Keys == kept;
    forall h: nat ensures h in handles.Values <==> h in Places(Run(ops)) {
      if h in Places(Run(ops)) {
        var i := HandleYieldsOnlyOpen(ops, h);
        StillOpenIsOp(ops, i);
        assert i in kept && handles[i] == h;
      }
      if h in handles.Values {
        var i :| i in handles && handles[i] == h;
        HandleYieldsItsFile(ops, i);
      }
    }
    assert handles.Values == Places(Run(ops));
    forall i, k | i in handles && k in handles && i < k ensures handles[i] != handles[k] {
      LiveHandlesDistinct(ops, i, k);
    }
    InjectiveSize(handles);
  }

  lemma StillOpenIsOp<F(!new)>(ops: seq<Op<F>>, i: nat)
    ensures StillOpen(ops, i) ==> i < |ops|
  {
  }

  lemma {:induction false} InjectiveSize(m: map<nat, nat>)
    requires forall i, k | i in m && k in m && i < k :: m[i] != m[k]
    ensures |m.Values| == |m.Keys|
    decreases |m|
  {
    if k :| k in m {
      var rest := m - {k};
      InjectiveSize(rest);
      assert m.Keys == rest.Keys + {k};
      assert m[k] !in rest.Values;
      forall v ensures v in m.Values <==> v in rest.Values + {m[k]} {
        if v in rest.Values { var i :| i in rest && rest[i] == v; assert i in m && m[i] == v; }
        if v in m.Values { var i :| i in m && m[i] == v; assert i == k || rest[i] == v; }
      }
      assert m.Values == rest.Values + {m[k]};
    }
  }

  lemma {:induction false} LiveWhenFull<F>(holders: seq<Option<F>>)
    requires forall j | 0 <= j < |holders| :: holders[j].Some?
    ensures Live(holders) == |holders|
  {
    if holders != [] {
      LiveWhenFull(holders[..|holders| - 1]);
    }
  }

  lemma PeakStep<F>(ops: seq<Op<F>>)
    requires ops != []
    ensures var before := Peak(ops[..|ops| - 1]);
            Peak(ops) == if Live(Run(ops)) > before then Live(Run(ops)) else before
  {
  }

  lemma RunStep<F>(ops: seq<Op<F>>)
    requires ops != []
    ensures Run(ops) == Step(Run(ops[..|ops| - 1]), ops[|ops| - 1])
  {
  }

  /** The most handles that were open at once at any point of the run. */
  function Peak<F>(ops: seq<Op<F>>): nat {
    if ops == [] then 0
    else
      var before := Peak(ops[..|ops| - 1]);
      if Live(Run(ops)) > before then Live(Run(ops)) else before
  }

  lemma {:induction false} PeakIsPeak<F(!new)>(ops: seq<Op<F>>)
    ensures forall n | 0 <= n <= |ops| :: Live(Run(ops[..n])) <= Peak(ops)
    ensures exists n :: 0 <= n <= |ops| && Live(Run(ops[..n])) == Peak(ops)
  {
    hide Live, Run, Peak;
    if ops == [] {
      NoPeak(ops);
      assert ops[..0] == ops;
      assert Live(Run(ops[..0])) == Peak(ops);
    } else {
      var init := ops[..|ops| - 1];
      PeakIsPeak(init);
      PeakStep(ops);
      assert ops[..|ops|] == ops;
      forall n | 0 <= n <= |init| ensures Live(Run(ops[..n])) <= Peak(init) {
        assert init[..n] == ops[..n];
      }
      var m :| 0 <= m <= |init| && Live(Run(init[..m])) == Peak(init);
      assert init[..m] == ops[..m];
      assert Live(Run(ops[..m])) == Peak(init);
    }
  }

  lemma NoPeak<F>(ops: seq<Op<F>>)
    requires ops == []
    ensures Run(ops) == [] && Live(Run(ops)) == 0 && Peak(ops) == 0
  {
  }

  /** The table is never longer than it ever had to be: a closed file's place is used again before
      the table grows. */
  lemma {:induction false} LengthIsPeak<F(!new)>(ops: seq<Op<F>>)
    ensures |Run(ops)| == Peak(ops)
  {
    hide Live, Run, Peak, FreePlace;
    if ops == [] {
      NoPeak(ops);
    } else {
      var holders, op := Run(ops[..|ops| - 1]), ops[|ops| - 1];
      LengthIsPeak(ops[..|ops| - 1]);
      RunStep(ops);
      PeakStep(ops);
      if op.Open? && FreePlace(holders) == |holders| {
        LiveWhenFull(Step(holders, op));
      }
    }
  }
}
