/** torrent/watchers/manager.go: the goroutine that counts file events and the loop that syncs when
    the counter is not zero. Each atomic operation and each plain read of the counter is one step. */
module EventCounter {
  import opened Int64

  /** atomic.AddUint64. */
  function AddU64(a: int, b: int): nat {
    (a + b) % TWO_64
  }

  /** ^x on uint64. */
  function Complement(x: int): int {
    TWO_64 - 1 - x
  }

  /** x - 1 on uint64. */
  function Pred(x: int): int {
    (x - 1) % TWO_64
  }

  /** The sync loop: asleep; past the test for zero; or syncing, having read `ec` when `start` events
      had been counted. */
  datatype Phase = Sleeping | Awake | Syncing(ec: nat, start: nat)

  /** `count` is the shared counter. `seen` events were counted so far, in order; the first `acked`
      of them were taken off the counter again; the last finished sync began when `covered` had been
      counted, the last successful one when `synced` had. */
  datatype State = State(count: nat, phase: Phase, seen: nat, acked: nat, covered: nat, synced: nat)

  datatype Step = Event | Wake | Read | Finish(ok: bool)

  const Start := State(0, Sleeping, 0, 0, 0, 0)

  predicate Enabled(s: State, step: Step) {
    match step
    case Event => true
    case Wake => s.phase.Sleeping?
    case Read => s.phase.Awake?
    case Finish(_) => s.phase.Syncing?
  }

  /** Finish comes after the sync. A sync that failed is logged, and acknowledged like any other. */
  function Next(s: State, step: Step): State
    requires Enabled(s, step)
  {
    match step
    case Event => s.(count := AddU64(s.count, 1), seen := s.seen + 1)
    case Wake => if s.count == 0 then s else s.(phase := Awake)
    case Read => s.(phase := Syncing(s.count, s.seen))
    case Finish(ok) =>
      s.(count := AddU64(s.count, Complement(Pred(s.phase.ec))), phase := Sleeping,
         acked := s.acked + s.phase.ec, covered := s.phase.start,
         synced := if ok then s.phase.start else s.synced)
  }

  /** Adding the complement of `ec - 1` subtracts `ec`, without underflow when `ec` is counted. */
  lemma ComplementSubtracts(c: int, ec: int)
    requires 0 <= c < TWO_64 && 0 <= ec < TWO_64
    ensures AddU64(c, Complement(Pred(ec))) == (c - ec) % TWO_64
    ensures ec <= c ==> AddU64(c, Complement(Pred(ec))) == c - ec
  {
    if ec > 0 {
      assert Pred(ec) == ec - 1;
      assert c + Complement(Pred(ec)) == c - ec + TWO_64;
    } else {
      assert Pred(0) == TWO_64 - 1;
      assert Complement(Pred(0)) == 0;
    }
  }

  /** The counter holds what was seen and not acknowledged; an acknowledgement never gets ahead of
      the start of its sync. */
  ghost predicate Inv(s: State) {
    && s.acked <= s.covered <= s.seen && s.synced <= s.covered
    && s.count == (s.seen - s.acked) % TWO_64
    && (s.phase.Syncing? ==>
          s.covered <= s.phase.start <= s.seen && s.phase.ec == (s.phase.start - s.acked) % TWO_64)
  }

  lemma StepKeepsInv(s: State, step: Step)
    requires Inv(s) && Enabled(s, step)
    ensures Inv(Next(s, step))
  {
    match step {
      case Event => ModAdd(s.seen - s.acked, 1);
      case Wake =>
      case Read =>
      case Finish(_) =>
        ComplementSubtracts(s.count, s.phase.ec);
        var minus: int := 0 - s.phase.ec;
        ModAdd(s.seen - s.acked, minus);
        ModBelow(s.phase.start - s.acked);
    }
  }

  lemma ModBelow(a: nat)
    ensures a % TWO_64 <= a
  {
  }

  ghost predicate Legal(s: State, steps: seq<Step>)
    decreases |steps|
  {
    steps == [] || (Enabled(s, steps[0]) && Legal(Next(s, steps[0]), steps[1..]))
  }

  ghost function Run(s: State, steps: seq<Step>): State
    requires Legal(s, steps)
    decreases |steps|
  {
    if steps == [] then s else Run(Next(s, steps[0]), steps[1..])
  }

  lemma {:induction false} RunKeepsInv(s: State, steps: seq<Step>)
    requires Inv(s) && Legal(s, steps)
    ensures Inv(Run(s, steps))
    decreases |steps|
  {
    if steps != [] {
      StepKeepsInv(s, steps[0]);
      RunKeepsInv(Next(s, steps[0]), steps[1..]);
    }
  }

  // ---------- Over whole runs ----------

  /** In every interleaving from the start the counter is the events seen minus those acknowledged,
      in 64-bit arithmetic, and every acknowledged event had been counted when the finished sync that
      acknowledged it began. */
  lemma CounterOverRuns(steps: seq<Step>)
    requires Legal(Start, steps)
    ensures var s := Run(Start, steps);
            s.count == (s.seen - s.acked) % TWO_64 && s.acked <= s.covered <= s.seen && s.synced <= s.covered
  {
    RunKeepsInv(Start, steps);
  }

  /** The counter is exact precisely while fewer than 2^64 events are outstanding. */
  lemma CounterExactIff(s: State)
    requires Inv(s)
    ensures s.count == s.seen - s.acked <==> s.seen - s.acked < TWO_64
  {
  }

  /** Then a sync, failed or not, subtracts exactly what it read: afterwards the counter holds the
      events counted since its start. */
  lemma FinishLeavesLaterEvents(s: State, ok: bool)
    requires Inv(s) && s.phase.Syncing? && s.seen - s.acked < TWO_64
    ensures s.phase.ec <= s.count
    ensures Next(s, Finish(ok)).count == s.count - s.phase.ec == s.seen - s.phase.start
    ensures Next(s, Finish(ok)).acked == Next(s, Finish(ok)).covered == s.phase.start
  {
    hide AddU64, Complement, Pred;
    ModSmall(s.seen - s.acked);
    ModSmall(s.phase.start - s.acked);
    ComplementSubtracts(s.count, s.phase.ec);
  }

  lemma ModSmall(a: int)
    requires 0 <= a < TWO_64
    ensures a % TWO_64 == a
  {
  }

  /** At 2^64 outstanding events the counter reads zero and they would be skipped. */
  lemma WrapSkips(s: State)
    requires Inv(s) && s.phase.Sleeping? && s.seen - s.acked == TWO_64
    ensures s.count == 0 && Next(s, Wake) == s
  {
  }

  // ---------- Lost events ----------

  /** Fewer than 2^64 events are outstanding at every moment of the run. */
  ghost predicate Bounded(s: State, steps: seq<Step>)
    requires Legal(s, steps)
    decreases |steps|
  {
    s.seen - s.acked < TWO_64 && (steps == [] || Bounded(Next(s, steps[0]), steps[1..]))
  }

  /** How the last sync that finished ended; `last` if none did. */
  function LastOk(steps: seq<Step>, last: bool): bool {
    if steps == [] then last else LastOk(steps[1..], if steps[0].Finish? then steps[0].ok else last)
  }

  /** What holds while the counter has not wrapped; `ok` tells how the last finished sync ended. A
      sync starts only when something new was counted, so each one covers more than the one before. */
  ghost predicate Exact(s: State, ok: bool) {
    && s.synced <= s.covered == s.acked <= s.seen && s.count == s.seen - s.acked < TWO_64
    && (s.phase.Awake? ==> s.covered < s.seen)
    && (s.phase.Syncing? ==> s.covered < s.phase.start <= s.seen && s.phase.ec == s.phase.start - s.acked)
    && (ok <==> s.synced == s.covered)
  }

  lemma StepKeepsExact(s: State, step: Step, ok: bool)
    requires Exact(s, ok) && Enabled(s, step) && Next(s, step).seen - Next(s, step).acked < TWO_64
    ensures Exact(Next(s, step), if step.Finish? then step.ok else ok)
  {
    hide AddU64, Complement, Pred;
    match step {
      case Event => AddSmall(s.count);
      case Wake =>
      case Read =>
      case Finish(_) => ComplementSubtracts(s.count, s.phase.ec);
    }
  }

  lemma AddSmall(c: nat)
    requires c + 1 < TWO_64
    ensures AddU64(c, 1) == c + 1
  {
  }

  lemma {:induction false} RunKeepsExact(s: State, steps: seq<Step>, ok: bool)
    requires Exact(s, ok) && Legal(s, steps) && Bounded(s, steps)
    ensures Exact(Run(s, steps), LastOk(steps, ok))
    decreases |steps|
  {
    if steps != [] {
      assert Bounded(Next(s, steps[0]), steps[1..]);
      StepKeepsExact(s, steps[0], ok);
      RunKeepsExact(Next(s, steps[0]), steps[1..], if steps[0].Finish? then steps[0].ok else ok);
    }
  }

  /** In every interleaving the counter reads zero although no successful sync covers every event
      exactly when the last sync to finish failed and nothing was counted since it began. */
  lemma EventsLostIff(steps: seq<Step>)
    requires Legal(Start, steps) && Bounded(Start, steps)
    ensures var s := Run(Start, steps);
            s.synced < s.seen && s.count == 0 <==> !LastOk(steps, true) && s.covered == s.seen
  {
    hide Run, Legal, Bounded, LastOk;
    RunKeepsExact(Start, steps, true);
  }

  /** So without failures an event that no sync covers keeps the counter positive, and the loop does
      not skip it. */
  lemma UncoveredKeepsPositive(steps: seq<Step>)
    requires Legal(Start, steps) && Bounded(Start, steps)
    requires forall i | 0 <= i < |steps| && steps[i].Finish? :: steps[i].ok
    ensures var s := Run(Start, steps);
            s.synced == s.covered
            && (s.synced < s.seen <==> s.count > 0)
            && (s.synced < s.seen && s.phase.Sleeping? ==> Next(s, Wake).phase.Awake?)
  {
    hide Run, Legal, Bounded, LastOk;
    RunKeepsExact(Start, steps, true);
    AllOk(steps);
  }

  lemma {:induction false} AllOk(steps: seq<Step>)
    requires forall i | 0 <= i < |steps| && steps[i].Finish? :: steps[i].ok
    ensures LastOk(steps, true)
  {
    if steps != [] {
      AllOk(steps[1..]);
    }
  }

  /** One event and one failed sync: nothing was synced, and the loop sleeps on. */
  lemma FailedSyncLosesEvents()
    ensures var steps := [Event, Wake, Read, Finish(false)];
            Legal(Start, steps) &&
            var s := Run(Start, steps);
            s.seen == 1 && s.synced == 0 && s.count == 0 && s.phase.Sleeping? && Next(s, Wake) == s
  {
    var s1 := Next(Start, Event);
    var s2 := Next(s1, Wake);
    var s3 := Next(s2, Read);
    var steps := [Event, Wake, Read, Finish(false)];
    assert steps[1..] == [Wake, Read, Finish(false)] && steps[1..][1..] == [Read, Finish(false)];
    assert steps[1..][1..][1..] == [Finish(false)] && [Finish(false)][1..] == [];
    ComplementSubtracts(1, 1);
    assert Legal(s3, [Finish(false)]) && Run(s3, [Finish(false)]) == Next(s3, Finish(false));
    assert Legal(s2, steps[1..][1..]) && Legal(s1, steps[1..]);
  }

  /** Whatever happens in between, once a sync that had not yet read the counter succeeds, every event
      counted before is covered by a successful sync, lost ones included. */
  lemma {:induction false} SuccessfulSyncCovers(s: State, steps: seq<Step>, n: nat)
    requires Inv(s) && Legal(s, steps) && Finish(true) in steps
    requires n <= s.seen && (s.phase.Syncing? ==> n <= s.phase.start)
    ensures Run(s, steps).synced >= n
    decreases |steps|
  {
    StepKeepsInv(s, steps[0]);
    var s1 := Next(s, steps[0]);
    assert steps == [steps[0]] + steps[1..];
    if steps[0] == Finish(true) {
      SyncedGrows(s1, steps[1..]);
    } else {
      SuccessfulSyncCovers(s1, steps[1..], n);
    }
  }

  lemma {:induction false} SyncedGrows(s: State, steps: seq<Step>)
    requires Inv(s) && Legal(s, steps)
    ensures Run(s, steps).synced >= s.synced
    decreases |steps|
  {
    if steps != [] {
      StepKeepsInv(s, steps[0]);
      SyncedGrows(Next(s, steps[0]), steps[1..]);
    }
  }
}
