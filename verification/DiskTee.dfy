/** iio/disk.go and iio/wrapper.go: random access to a one-way stream through a temporary file,
    and a cursor over it. */
module DiskTee {
  import opened Int64
  import opened Wrappers

  datatype IoError = EOF | Failed

  type byte = bv8

  /** A reader's bookkeeping: the whole source, the bytes returned so far (`fo`) and the bytes
      written to the temporary file so far (`to`). */
  datatype Tee = Tee(src: seq<byte>, fo: int, to: int)

  datatype Outcome = Outcome(n: int, err: Option<IoError>)

  ghost predicate Sound(s: Tee) {
    0 <= s.to <= |s.src| && 0 <= s.fo
  }

  /** How many of `want` bytes can be pulled from the source if it fails after `fault` bytes. */
  function Pulled(s: Tee, want: nat, fault: Option<nat>): nat
    requires s.to <= |s.src|
  {
    var have := Min(want, |s.src| - s.to);
    match fault
    case None => have
    case Some(w) => Min(have, w)
  }

  /** io.CopyN into the void, through the tee: the source's own failure, or EOF if it ends first. */
  function CopyError(s: Tee, want: nat, fault: Option<nat>): Option<IoError>
    requires s.to <= |s.src|
  {
    var w := Pulled(s, want, fault);
    if w == want then None else if fault == Some(w) then Some(Failed) else Some(EOF)
  }

  /** ReadAt of `len` bytes at `off`. */
  function ReadAtStep(s: Tee, len: nat, off: int, fault: Option<nat>): (r: (Tee, Outcome))
    requires Sound(s)
  {
    var want := off + len - s.fo;
    var s1 := if want > 0 then s.(to := s.to + Pulled(s, want, fault)) else s;
    if want > 0 && CopyError(s, want, fault) == Some(Failed) then (s1, Outcome(0, Some(Failed)))
    else if off < 0 then (s1, Outcome(0, Some(Failed)))
    else
      var n := if off >= s1.to then 0 else Min(len, s1.to - off);
      (s1.(fo := s1.fo + n), Outcome(n, if n < len then Some(EOF) else None))
  }

  /** The same, with the bytes pulled and the error of pulling them given. */
  lemma ReadAtParts(s: Tee, len: nat, off: int, fault: Option<nat>, s1: Tee, err: Option<IoError>)
    requires Sound(s)
    requires var want := off + len - s.fo;
             && s1 == s.(to := s.to + if want > 0 then Pulled(s, want, fault) else 0)
             && err == if want > 0 then CopyError(s, want, fault) else None
    ensures var n := if off >= s1.to then 0 else Min(len, s1.to - off);
            ReadAtStep(s, len, off, fault) ==
            if err == Some(Failed) || off < 0 then (s1, Outcome(0, Some(Failed)))
            else (s1.(fo := s1.fo + n), Outcome(n, if n < len then Some(EOF) else None))
  {
    hide Pulled, CopyError, Min, Sound;
  }

  /** Read, which takes the next `got` bytes straight from the tee. */
  function ReadStep(s: Tee, got: nat): Tee
    requires Sound(s) && s.to + got <= |s.src|
  {
    s.(to := s.to + got)
  }

  // ---------- One read ----------

  /** A ReadAt keeps the reader sound, never leaves the source, and counts what it returns. */
  lemma ReadAtSound(s: Tee, len: nat, off: int, fault: Option<nat>)
    requires Sound(s)
    ensures var (s', o) := ReadAtStep(s, len, off, fault);
            Sound(s') && s'.src == s.src && s'.to >= s.to && s'.fo == s.fo + o.n
            && 0 <= o.n <= len && (o.n > 0 ==> 0 <= off && off + o.n <= s'.to)
  {
  }

  /** Exactly when a ReadAt inside the source comes back full: when the bytes are already in the
      file, or when no more bytes were returned than are in it. */
  lemma ReadAtFullIff(s: Tee, len: nat, off: nat)
    requires Sound(s) && off + len <= |s.src| && len > 0
    ensures ReadAtStep(s, len, off, None).1.n == len <==> off + len <= s.to || s.fo <= s.to
  {
  }

  /** Exactly when a ReadAt fails: before the start, or when the source fails before what is pulled for it
      and before its end, or right after its last byte. A failure is never taken for the end. */
  lemma ReadAtFailsIff(s: Tee, len: nat, off: int, fault: Option<nat>)
    requires Sound(s)
    ensures var o := ReadAtStep(s, len, off, fault).1;
            && (o.err == Some(Failed) <==>
                off < 0 || (fault.Some? && fault.value < off + len - s.fo && fault.value <= |s.src| - s.to))
            && (o.err == Some(Failed) ==> o.n == 0) && (o.err == None <==> o.n == len && o.err != Some(Failed))
  {
  }

  /** With no more bytes returned than teed, a read is short only at the end of the source. */
  lemma ReadAtShortAtEnd(s: Tee, len: nat, off: nat)
    requires Sound(s) && s.fo <= s.to
    ensures var (s', o) := ReadAtStep(s, len, off, None);
            o.n == (if off >= |s.src| then 0 else Min(len, |s.src| - off)) && (o.err == None <==> o.n == len)
            && (o.n < len ==> s'.to == |s.src|)
  {
  }

  /** Reading the same bytes twice starves the third read, although the source has its byte. */
  lemma RereadStarves(src: seq<byte>)
    requires |src| == 3
    ensures var s1 := ReadAtStep(Tee(src, 0, 0), 2, 0, None).0;
            var s2 := ReadAtStep(s1, 2, 0, None).0;
            s2.fo == 4 && s2.to == 2 && ReadAtStep(s2, 1, 2, None).1 == Outcome(0, Some(EOF))
  {
  }

  // ---------- Runs ----------

  datatype Op = At(len: nat, off: int, fault: Option<nat>) | Next(got: nat)

  ghost function Apply(s: Tee, op: Op): Tee
    requires Sound(s)
  {
    match op
    case At(len, off, fault) => ReadAtStep(s, len, off, fault).0
    case Next(got) => if s.to + got <= |s.src| then ReadStep(s, got) else s
  }

  function Interval(lo: int, n: nat): (r: set<int>)
    ensures |r| == n && forall i :: i in r <==> lo <= i < lo + n
  {
    if n == 0 then {} else Interval(lo, n - 1) + {lo + n - 1}
  }

  /** The offsets whose bytes `op` returns. */
  ghost function Returned(s: Tee, op: Op): set<int>
    requires Sound(s)
  {
    match op
    case At(len, off, fault) => Interval(off, ReadAtStep(s, len, off, fault).1.n)
    case Next(_) => {}
  }

  lemma ApplySound(s: Tee, op: Op)
    requires Sound(s)
    ensures Sound(Apply(s, op)) && Apply(s, op).src == s.src && Apply(s, op).to >= s.to
  {
  }

  ghost function Run(s: Tee, ops: seq<Op>): (r: Tee)
    requires Sound(s)
    ensures Sound(r) && r.src == s.src && r.to >= s.to
  {
    if ops == [] then s
    else
      ApplySound(Run(s, ops[..|ops| - 1]), ops[|ops| - 1]);
      Apply(Run(s, ops[..|ops| - 1]), ops[|ops| - 1])
  }

  /** Everything returned over a run. */
  ghost function AllReturned(s: Tee, ops: seq<Op>): set<int>
    requires Sound(s)
  {
    if ops == [] then {} else AllReturned(s, ops[..|ops| - 1]) + Returned(Run(s, ops[..|ops| - 1]), ops[|ops| - 1])
  }

  /** No byte is returned twice over a run. */
  ghost predicate Disjoint(s: Tee, ops: seq<Op>)
    requires Sound(s)
  {
    ops == [] ||
    (Disjoint(s, ops[..|ops| - 1])
     && AllReturned(s, ops[..|ops| - 1]) !! Returned(Run(s, ops[..|ops| - 1]), ops[|ops| - 1]))
  }

  lemma BoundedSize(n: nat, s: set<int>)
    requires forall i | i in s :: 0 <= i < n
    ensures |s| <= n
  {
    SubsetSize(s, Interval(0, n));
  }

  lemma {:induction false} SubsetSize<T>(a: set<T>, b: set<T>)
    requires a <= b
    ensures |a| <= |b|
    decreases |a|
  {
    if |a| > 0 {
      var x :| x in a;
      SubsetSize(a - {x}, b - {x});
      assert b == (b - {x}) + {x};
    }
  }

  /** What was returned lies in the temporary file; `fo` counts it, with repetitions. */
  lemma {:induction false} ReturnedCounted(src: seq<byte>, ops: seq<Op>)
    ensures var s := Tee(src, 0, 0);
            && (forall i | i in AllReturned(s, ops) :: 0 <= i < Run(s, ops).to)
            && |AllReturned(s, ops)| <= Run(s, ops).fo
            && (Disjoint(s, ops) <==> |AllReturned(s, ops)| == Run(s, ops).fo)
    decreases |ops|
  {
    hide Apply, Returned;
    if ops != [] {
      var s, init, op := Tee(src, 0, 0), ops[..|ops| - 1], ops[|ops| - 1];
      ReturnedCounted(src, init);
      var mid := Run(s, init);
      var before, more := AllReturned(s, init), Returned(mid, op);
      ReturnedOnce(mid, op);
      ApplySound(mid, op);
      UnionSize(before, more);
    }
  }

  lemma ReturnedOnce(s: Tee, op: Op)
    requires Sound(s)
    ensures |Returned(s, op)| == Apply(s, op).fo - s.fo
    ensures forall i | i in Returned(s, op) :: 0 <= i < Apply(s, op).to
  {
    match op
    case At(len, off, fault) =>
      ReadAtSound(s, len, off, fault);
    case Next(_) =>
  }

  lemma UnionSize(a: set<int>, b: set<int>)
    ensures |a + b| <= |a| + |b|
    ensures a !! b <==> |a + b| == |a| + |b|
  {
    assert |a + b| == |a| + |b - a| by { assert a + b == a + (b - a); }
    SubsetSize(b - a, b);
    assert |b| == |b - a| + |b * a| by { assert b == (b - a) + (b * a); }
    if |b * a| == 0 { assert b * a == {}; }
  }

  /** Over any run that returns no byte twice, no more bytes are returned than teed. */
  lemma DisjointRunKeepsUp(src: seq<byte>, ops: seq<Op>)
    requires Disjoint(Tee(src, 0, 0), ops)
    ensures Run(Tee(src, 0, 0), ops).fo <= Run(Tee(src, 0, 0), ops).to
  {
    ReturnedCounted(src, ops);
    BoundedSize(Run(Tee(src, 0, 0), ops).to, AllReturned(Tee(src, 0, 0), ops));
  }

  /** So every read at the end of such a run is short only at the end of the source. */
  lemma DisjointRunReadsFully(src: seq<byte>, ops: seq<Op>, len: nat, off: nat)
    requires Disjoint(Tee(src, 0, 0), ops)
    ensures ReadAtStep(Run(Tee(src, 0, 0), ops), len, off, None).1.n
            == if off >= |src| then 0 else Min(len, |src| - off)
  {
    DisjointRunKeepsUp(src, ops);
    ReadAtShortAtEnd(Run(Tee(src, 0, 0), ops), len, off);
  }

  // ---------- The reader itself ----------

  class DiskTeeReader {
    ghost const src: seq<byte>
    var file: seq<byte>
    var fo: int
    var to: int
    var rest: seq<byte>

    ghost function State(): Tee
      reads this
    {
      Tee(src, fo, to)
    }

    /** The temporary file is a prefix of the source, and `rest` is what the source still holds. */
    ghost predicate Valid()
      reads this
    {
      Sound(State()) && file == src[..to] && rest == src[to..]
    }

    constructor (source: seq<byte>)
      ensures Valid() && src == source && fo == 0 && to == 0
    {
      src := source;
      rest := source;
      file := [];
      fo := 0;
      to := 0;
    }

    /** The tee: `w` bytes leave the source and enter the file. */
    method Pull(w: nat)
      requires Valid() && w <= |rest|
      modifies this
      ensures Valid() && to == old(to) + w && fo == old(fo)
    {
      file := file + rest[..w];
      rest := rest[w..];
      to := to + w;
    }

    /** ReadAt: pull what is missing, then read the temporary file. */
    method ReadAt(p: array<byte>, off: int, fault: Option<nat>) returns (n: int, err: Option<IoError>)
      requires Valid()
      modifies this, p
      ensures Valid()
      ensures (State(), Outcome(n, err)) == ReadAtStep(old(State()), p.Length, off, fault)
      ensures 0 <= n <= p.Length && (n > 0 ==> 0 <= off && off + n <= |src|)
      ensures forall j | 0 <= j < n :: p[j] == src[off + j]
      ensures forall j | n <= j < p.Length :: p[j] == old(p[j])
    {
      hide Pulled, CopyError, Valid, Sound, ReadAtStep, Min;
      StateIsSound();
      var err0 := Fill(off + p.Length, fault);
      ReadAtParts(old(State()), p.Length, off, fault, State(), err0);
      if err0 == Some(Failed) || off < 0 { return 0, Some(Failed); }
      StateIsSound();
      n := ReadTemp(p, off);
      err := if n < p.Length then Some(EOF) else None;
    }

    lemma StateIsSound()
      requires Valid()
      ensures Sound(State()) && 0 <= fo && 0 <= to <= |src|
    {
    }

    /** The step of ReadAt that reads the temporary file and counts what it returns. */
    method ReadTemp(p: array<byte>, off: nat) returns (n: nat)
      requires Valid()
      modifies this`fo, p
      ensures Valid() && fo == old(fo) + n && n == if off >= to then 0 else Min(p.Length, to - off)
      ensures forall j | 0 <= j < n :: off + j < |src| && p[j] == src[off + j]
      ensures forall j | n <= j < p.Length :: p[j] == old(p[j])
    {
      hide Min;
      n := ReadFile(p, off);
      forall j | 0 <= j < n ensures off + j < |src| && p[j] == src[off + j] {
        assert file[off + j] == src[off + j];
      }
      fo := fo + n;
    }

    /** The step of ReadAt that pulls what is missing up to `tb`. */
    method Fill(tb: int, fault: Option<nat>) returns (err: Option<IoError>)
      requires Valid()
      modifies this
      ensures Valid() && fo == old(fo)
      ensures var want := tb - old(fo);
              && to == old(to) + (if want > 0 then Pulled(old(State()), want, fault) else 0)
              && err == if want > 0 then CopyError(old(State()), want, fault) else None
    {
      hide Pulled, CopyError;
      err := None;
      if tb > fo {
        err := CopyN(tb - fo, fault);
      }
    }

    /** io.CopyN of `want` bytes through the tee into nothing. */
    method CopyN(want: nat, fault: Option<nat>) returns (err: Option<IoError>)
      requires Valid() && want > 0
      modifies this
      ensures Valid() && fo == old(fo) && to == old(to) + Pulled(old(State()), want, fault)
      ensures err == CopyError(old(State()), want, fault)
    {
      var w := if want < |rest| then want else |rest|;
      if fault.Some? && fault.value < w { w := fault.value; }
      Pull(w);
      err := if w == want then None else if fault == Some(w) then Some(Failed) else Some(EOF);
    }

    /** Reading the temporary file at `off`. */
    method ReadFile(p: array<byte>, off: nat) returns (n: nat)
      modifies p
      ensures n == if off >= |file| then 0 else Min(p.Length, |file| - off)
      ensures off + n <= |file| || n == 0
      ensures forall j | 0 <= j < n :: p[j] == file[off + j]
      ensures forall j | n <= j < p.Length :: p[j] == old(p[j])
    {
      n := if off >= |file| then 0 else Min(p.Length, |file| - off);
      var i := 0;
      while i < n
        invariant 0 <= i <= n
        invariant forall j | 0 <= j < i :: p[j] == file[off + j]
        invariant forall j | i <= j < p.Length :: p[j] == old(p[j])
      {
        p[i] := file[off + i];
        i := i + 1;
      }
    }

    /** Read: the next bytes of the source, however many it gives. */
    method Read(p: array<byte>, gives: nat) returns (n: int, err: Option<IoError>)
      requires Valid()
      modifies this, p
      ensures Valid() && n == Min(Min(gives, p.Length), |src| - old(to)) && State() == ReadStep(old(State()), n)
      ensures forall j | 0 <= j < n :: p[j] == src[old(to) + j]
      ensures forall j | n <= j < p.Length :: p[j] == old(p[j])
      ensures err == if n == 0 && p.Length > 0 && old(to) == |src| then Some(EOF) else None
    {
      n := Min(Min(gives, p.Length), |rest|);
      err := if n == 0 && p.Length > 0 && rest == [] then Some(EOF) else None;
      var got := rest[..n];
      Pull(n);
      var i := 0;
      while i < n
        invariant 0 <= i <= n
        invariant forall j | 0 <= j < i :: p[j] == got[j]
        invariant forall j | i <= j < p.Length :: p[j] == old(p[j])
        modifies p
      {
        p[i] := got[i];
        i := i + 1;
      }
    }
  }

  // ---------- The cursor ----------

  datatype Whence = Start | Current | End

  class SeekerWrapper {
    const reader: DiskTeeReader
    const size: int
    var pos: int

    constructor (reader: DiskTeeReader, size: int)
      ensures this.reader == reader && this.size == size && pos == 0
    {
      this.reader := reader;
      this.size := size;
      pos := 0;
    }

    method Seek(offset: int, whence: Whence) returns (r: int)
      modifies this
      ensures r == pos
      ensures whence.Start? ==> pos == offset
      ensures whence.Current? ==> pos - old(pos) == offset
      ensures whence.End? ==> pos - size == offset
    {
      match whence {
        case Start => pos := offset;
        case Current => pos := pos + offset;
        case End => pos := size + offset;
      }
      r := pos;
    }

    /** Read at the cursor and move it past what was read. */
    method Read(p: array<byte>, fault: Option<nat>) returns (n: int, err: Option<IoError>)
      requires reader.Valid()
      modifies this, reader, p
      ensures reader.Valid() && pos == old(pos) + n && 0 <= n <= p.Length
      ensures (reader.State(), Outcome(n, err)) == ReadAtStep(old(reader.State()), p.Length, old(pos), fault)
      ensures n > 0 ==> 0 <= old(pos) && pos <= |reader.src|
      ensures forall j | 0 <= j < n :: p[j] == reader.src[old(pos) + j]
    {
      n, err := reader.ReadAt(p, pos, fault);
      pos := pos + n;
    }
  }

  /** One sequential read: the size of its buffer, and where the source fails during it, if it does. */
  datatype Ask = Ask(len: nat, fault: Option<nat>)

  /** A reader and its cursor after sequential reads. */
  ghost function ReadAll(s: Tee, pos: int, asks: seq<Ask>): (Tee, int)
    requires Sound(s)
    decreases |asks|
  {
    if asks == [] then (s, pos)
    else
      ReadAtSound(s, asks[0].len, pos, asks[0].fault);
      var (s1, o) := ReadAtStep(s, asks[0].len, pos, asks[0].fault);
      ReadAll(s1, pos + o.n, asks[1..])
  }

  /** The bytes those reads return, one after the other. */
  ghost function Output(s: Tee, pos: int, asks: seq<Ask>): seq<byte>
    requires Sound(s)
    decreases |asks|
  {
    if asks == [] then []
    else
      ReadAtSound(s, asks[0].len, pos, asks[0].fault);
      var (s1, o) := ReadAtStep(s, asks[0].len, pos, asks[0].fault);
      (if o.n > 0 then s.src[pos..pos + o.n] else []) + Output(s1, pos + o.n, asks[1..])
  }

  function Wanted(asks: seq<Ask>): nat {
    if asks == [] then 0 else asks[0].len + Wanted(asks[1..])
  }

  ghost predicate NoFaults(asks: seq<Ask>) {
    forall i | 0 <= i < |asks| :: asks[i].fault == None
  }

  /** From a position where nothing was skipped or repeated, sequential reads return the source from
      there on, failing ones in between or not; without failures they return all that was asked for, up
      to the end of the source, and what was in step stays in step. */
  lemma {:induction false} SequentialFrom(s: Tee, asks: seq<Ask>)
    requires Sound(s) && s.fo <= s.to
    ensures var (s', pos) := ReadAll(s, s.fo, asks);
            && Sound(s') && s'.src == s.src && s.fo <= pos == s'.fo <= s'.to
            && Output(s, s.fo, asks) == s.src[s.fo..pos]
            && (NoFaults(asks) ==> pos == Min(|s.src|, s.fo + Wanted(asks)) && (s.fo == s.to ==> pos == s'.to))
    decreases |asks|
  {
    hide ReadAtStep;
    if asks != [] {
      NextInSequence(s, asks[0].len, asks[0].fault);
      var (s1, o) := ReadAtStep(s, asks[0].len, s.fo, asks[0].fault);
      SequentialFrom(s1, asks[1..]);
      SliceJoin(s.src, s.fo, s1.fo, ReadAll(s1, s1.fo, asks[1..]).1);
    }
  }

  /** One more sequential read. */
  lemma NextInSequence(s: Tee, len: nat, fault: Option<nat>)
    requires Sound(s) && s.fo <= s.to
    ensures var (s1, o) := ReadAtStep(s, len, s.fo, fault);
            && Sound(s1) && s1.src == s.src && 0 <= o.n && s1.fo == s.fo + o.n <= s1.to
            && (fault == None ==> o.n == Min(len, |s.src| - s.fo) && (s.fo == s.to ==> s1.fo == s1.to))
  {
  }

  lemma SliceJoin(src: seq<byte>, a: nat, b: nat, c: nat)
    requires a <= b <= c <= |src|
    ensures src[a..b] + src[b..c] == src[a..c]
  {
  }

  /** Composition: sequential reads through the cursor, whatever the buffer sizes and wherever the
      source fails on the way, return exactly the source up to the cursor; without failures the cursor
      reaches what was asked for. */
  lemma SequentialReadsAreTheSource(src: seq<byte>, asks: seq<Ask>)
    ensures var (s, pos) := ReadAll(Tee(src, 0, 0), 0, asks);
            && 0 <= pos == s.fo <= s.to <= |src| && Output(Tee(src, 0, 0), 0, asks) == src[..pos]
            && (NoFaults(asks) ==> pos == s.to == Min(|src|, Wanted(asks)))
  {
    SequentialFrom(Tee(src, 0, 0), asks);
  }
}
