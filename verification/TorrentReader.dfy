/** fs/torrent.go: what each pooled reader does for one ReadAt. */
module TorrentReader {
  import opened DiskTee
  import opened Int64
  import opened Wrappers

  datatype ReadError = Eof | UnexpectedEof | ShortBuffer | Cancelled

  /** One answer of ReadContext: it offers `got` bytes, and maybe an error. */
  datatype Chunk = Chunk(got: nat, err: Option<ReadError>)

  /** The bytes one answer moves, given the room left and the source left. */
  function Moved(c: Chunk, room: nat, left: nat): nat {
    Min(c.got, Min(room, left))
  }

  /** The bytes the first `k` answers offer. */
  ghost function Offered(answers: seq<Chunk>, k: nat): nat
    requires k <= |answers|
  {
    if k == 0 then 0 else Offered(answers, k - 1) + answers[k - 1].got
  }

  /** The bytes there are and there is room for. */
  function Room(src: seq<byte>, pos: nat, len: nat): nat {
    Min(len, if pos <= |src| then |src| - pos else 0)
  }

  /** `n` bytes were moved out of the first `k` answers: all they offer, as far as there is `room`; each was
      asked for because fewer than `min` had come before it, without an error. */
  ghost predicate Took(answers: seq<Chunk>, room: nat, min: nat, k: nat, n: nat) {
    && k <= |answers| && n == Min(Offered(answers, k), room)
    && forall i | 0 <= i < k :: Min(Offered(answers, i), room) < min && (i + 1 < k ==> answers[i].err == None)
  }

  lemma TookNone(answers: seq<Chunk>, room: nat, min: nat)
    ensures Took(answers, room, min, 0, 0)
  {
  }

  lemma TookMore(answers: seq<Chunk>, room: nat, min: nat, k: nat, n: nat, nn: nat)
    requires Took(answers, room, min, k, n) && k < |answers| && n < min && (k > 0 ==> answers[k - 1].err == None)
    requires nn == Min(answers[k].got, room - n)
    ensures Took(answers, room, min, k + 1, n + nn)
  {
  }

  /** readAtLeast, given what ReadContext answers. `waiting` says the answers ran out before the loop
      did: the call has not returned yet. `k` answers were taken. */
  method ReadAtLeast(src: seq<byte>, pos: nat, buf: array<byte>, min: nat, answers: seq<Chunk>)
    returns (n: nat, err: Option<ReadError>, waiting: bool, ghost k: nat)
    modifies buf
    ensures buf.Length < min ==> n == 0 && err == Some(ShortBuffer) && !waiting
    ensures n <= buf.Length && (n == 0 || pos + n <= |src|)
    ensures forall j | 0 <= j < n :: buf[j] == src[pos + j]
    ensures forall j | n <= j < buf.Length :: buf[j] == old(buf[j])
    ensures min <= buf.Length && !waiting ==> (err == None <==> n >= min)
    ensures min <= buf.Length && !waiting && err == Some(UnexpectedEof) ==>
              exists i :: 0 <= i < |answers| && (answers[i].err == Some(Eof) || answers[i].err == Some(UnexpectedEof))
    ensures min <= buf.Length && !waiting && err == Some(Eof) ==> n == 0
    ensures waiting ==> n < min && k == |answers| && forall i | 0 <= i < |answers| :: answers[i].err == None
    ensures min <= buf.Length ==> Took(answers, Room(src, pos, buf.Length), min, k, n)
    ensures min <= buf.Length && !waiting && n < min ==>
              && k > 0 && answers[k - 1].err != None
              && err == if n > 0 && answers[k - 1].err == Some(Eof) then Some(UnexpectedEof) else answers[k - 1].err
  {
    hide Took, Min;
    n, err, waiting, k := 0, None, false, 0;
    if buf.Length < min { return 0, Some(ShortBuffer), false, 0; }
    var next := 0;
    TookNone(answers, Room(src, pos, buf.Length), min);
    while n < min && err == None && next < |answers|
      invariant 0 <= next == k <= |answers| && Took(answers, Room(src, pos, buf.Length), min, k, n)
      invariant err == if k == 0 then None else answers[k - 1].err
      invariant n <= buf.Length && (n == 0 || pos + n <= |src|)
      invariant forall j | 0 <= j < n :: buf[j] == src[pos + j]
      invariant forall j | n <= j < buf.Length :: buf[j] == old(buf[j])
      invariant err == None ==> forall i | 0 <= i < k :: answers[i].err == None
      invariant err != None ==> exists i :: 0 <= i < |answers| && answers[i].err == err
      decreases |answers| - next
    {
      var c := answers[next];
      var nn := Moved(c, buf.Length - n, if pos + n <= |src| then |src| - (pos + n) else 0);
      TookMore(answers, Room(src, pos, buf.Length), min, k, n, nn);
      if nn > 0 { Copy(src, pos + n, buf, n, nn); }
      n := n + nn;
      err := c.err;
      next := next + 1;
      k := next;
    }
    if n < min && err == None { return n, None, true, k; }
    if n >= min {
      err := None;
    } else if n > 0 && err == Some(Eof) {
      err := Some(UnexpectedEof);
    }
  }

  method Copy(src: seq<byte>, from: nat, buf: array<byte>, at: nat, count: nat)
    requires from + count <= |src| && at + count <= buf.Length
    modifies buf
    ensures forall k | at <= k < at + count :: buf[k] == src[from + (k - at)]
    ensures forall k | 0 <= k < buf.Length && !(at <= k < at + count) :: buf[k] == old(buf[k])
  {
    var i := 0;
    while i < count
      invariant 0 <= i <= count
      invariant forall k | at <= k < at + i :: buf[k] == src[from + (k - at)]
      invariant forall k | 0 <= k < buf.Length && !(at <= k < at + i) :: buf[k] == old(buf[k])
    {
      buf[at + i] := src[from + i];
      i := i + 1;
    }
  }

  /** readAtWrapper.ReadAt: seek, then read the whole buffer; `seek` is the error of a seek that fails.
      However the answers are cut, success means the buffer holds the source from `off` on. */
  method ReadAt(src: seq<byte>, p: array<byte>, off: nat, seek: Option<ReadError>, answers: seq<Chunk>)
    returns (n: nat, err: Option<ReadError>, waiting: bool)
    modifies p
    ensures n <= p.Length && forall j | 0 <= j < n :: off + j < |src| && p[j] == src[off + j]
    ensures !waiting && err == None ==>
              n == p.Length && (p.Length == 0 || (off + p.Length <= |src| && p[..] == src[off..off + p.Length]))
    ensures !waiting && seek == None && n == p.Length ==> err == None
    ensures seek.Some? ==> n == 0 && err == seek && !waiting && p[..] == old(p[..])
  {
    if seek.Some? { return 0, seek, false; }
    ghost var k;
    n, err, waiting, k := ReadAtLeast(src, off, p, p.Length, answers);
  }

  /** The window prefetchAt reads after a read that ended at `next`: its length, 0 for none. */
  function PrefetchSize(len: int, readahead: int, next: int): int {
    if readahead <= 0 || next >= len then 0
    else if len - next < readahead then len - next
    else readahead
  }

  /** A prefetch stays inside the file, is no longer than asked for, and is cut short only by the
      end of the file. */
  lemma PrefetchInside(len: int, readahead: int, next: int)
    requires 0 <= next
    ensures readahead <= 0 ==> PrefetchSize(len, readahead, next) == 0
    ensures var size := PrefetchSize(len, readahead, next);
            readahead > 0 ==>
              && 0 <= size <= readahead && (size > 0 ==> next + size <= len)
              && (0 < size < readahead ==> next + size == len) && (size == 0 <==> next >= len)
  {
  }
}
