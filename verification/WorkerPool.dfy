/** torrent/service.go: runWithConcurrency, the semaphore-limited worker pool inside load. Every
    channel operation, goroutine start and call of `fn` that returns is one step. */
module WorkerPool {
  import opened Wrappers

  type Failure = int

  /** A job: not launched; running `fn`; result sent, token held; token given back. */
  datatype Job = Idle | Running | Reported | Released

  /** `launched` is the loop variable of the launching loop, `token` whether it holds a token it has
      not yet passed on; `sent` are the results in the order sent, of which `received` were read. */
  datatype State = State(limit: nat, jobs: seq<Job>, runs: seq<nat>, launched: nat, token: bool, sem: nat,
                         sent: seq<nat>, received: nat, firstErr: Option<Failure>)

  datatype Step = Acquire | Launch | Report(k: nat) | Release(k: nat) | Receive

  function Begin(concurrency: int, jobs: nat): State {
    State(if concurrency <= 0 then 16 else concurrency, seq(jobs, i => Idle), seq(jobs, i => 0), 0, false, 0, [], 0,
      None)
  }

  predicate Enabled(s: State, step: Step) {
    match step
    case Acquire => s.launched < |s.jobs| && !s.token && s.sem < s.limit
    case Launch => s.token && s.launched < |s.jobs| && s.launched < |s.runs|
    case Report(k) => k < |s.jobs| && s.jobs[k] == Running && |s.sent| - s.received < |s.jobs|
    case Release(k) => k < |s.jobs| && s.jobs[k] == Reported && s.sem > 0
    case Receive => s.launched == |s.jobs| && !s.token && s.received < |s.jobs| && s.received < |s.sent|
  }

  function Next(s: State, outcome: nat -> Option<Failure>, step: Step): State
    requires Enabled(s, step)
  {
    match step
    case Acquire => s.(sem := s.sem + 1, token := true)
    case Launch =>
      s.(jobs := s.jobs[s.launched := Running], runs := s.runs[s.launched := s.runs[s.launched] + 1],
         launched := s.launched + 1, token := false)
    case Report(k) => s.(jobs := s.jobs[k := Reported], sent := s.sent + [k])
    case Release(k) => s.(jobs := s.jobs[k := Released], sem := s.sem - 1)
    case Receive =>
      s.(received := s.received + 1, firstErr := if s.firstErr.None? then outcome(s.sent[s.received]) else s.firstErr)
  }

  predicate Finished(s: State) {
    s.launched == |s.jobs| && s.received == |s.jobs|
  }

  // ---------- Counting jobs ----------

  ghost function Count(jobs: seq<Job>, which: set<Job>): nat {
    if jobs == [] then 0 else Count(jobs[..|jobs| - 1], which) + if jobs[|jobs| - 1] in which then 1 else 0
  }

  lemma {:induction false} CountUpdate(jobs: seq<Job>, k: nat, j: Job, which: set<Job>)
    requires k < |jobs|
    ensures Count(jobs[k := j], which)
            == Count(jobs, which) - (if jobs[k] in which then 1 else 0) + if j in which then 1 else 0
  {
    var init := jobs[..|jobs| - 1];
    if k < |jobs| - 1 {
      CountUpdate(init, k, j, which);
      assert jobs[k := j][..|jobs| - 1] == init[k := j];
    } else {
      assert jobs[k := j][..|jobs| - 1] == init;
    }
  }

  lemma {:induction false} CountIdle(n: nat, which: set<Job>)
    requires Idle !in which
    ensures Count(seq(n, i => Idle), which) == 0
  {
    if n > 0 {
      assert seq(n, i => Idle)[..n - 1] == seq(n - 1, i => Idle);
      CountIdle(n - 1, which);
    }
  }

  lemma {:induction false} CountBounds(jobs: seq<Job>, which: set<Job>, more: set<Job>)
    requires which <= more
    ensures Count(jobs, which) <= Count(jobs, more) <= |jobs|
    ensures Count(jobs, which) > 0 ==> exists k :: 0 <= k < |jobs| && jobs[k] in which
    ensures Count(jobs, which) == |jobs| <==> forall k | 0 <= k < |jobs| :: jobs[k] in which
  {
    if jobs != [] {
      var init := jobs[..|jobs| - 1];
      CountBounds(init, which, more);
      assert forall k | 0 <= k < |init| :: jobs[k] == init[k];
      if Count(init, which) > 0 {
        var k :| 0 <= k < |init| && init[k] in which;
        assert jobs[k] in which;
      }
    }
  }

  const HOLDING: set<Job> := {Running, Reported}
  const SENT: set<Job> := {Reported, Released}

  // ---------- The invariant ----------

  ghost function FirstOf(outcome: nat -> Option<Failure>, ks: seq<nat>): Option<Failure> {
    if ks == [] then None
    else
      var before := FirstOf(outcome, ks[..|ks| - 1]);
      if before.Some? then before else outcome(ks[|ks| - 1])
  }

  ghost predicate Inv(s: State, outcome: nat -> Option<Failure>) {
    && s.limit > 0 && |s.runs| == |s.jobs| && s.launched <= |s.jobs| && (s.token ==> s.launched < |s.jobs|)
    && (forall k | 0 <= k < |s.jobs| :: s.jobs[k] == Idle <==> k >= s.launched)
    && (forall k | 0 <= k < |s.jobs| :: s.runs[k] == if k < s.launched then 1 else 0)
    && s.sem == Count(s.jobs, HOLDING) + (if s.token then 1 else 0) && s.sem <= s.limit
    && |s.sent| == Count(s.jobs, SENT) && s.received <= |s.sent|
    && (forall i | 0 <= i < |s.sent| :: s.sent[i] < |s.jobs| && s.jobs[s.sent[i]] in SENT)
    && (forall i, j | 0 <= i < j < |s.sent| :: s.sent[i] != s.sent[j])
    && s.firstErr == FirstOf(outcome, s.sent[..s.received])
  }

  lemma BeginInv(concurrency: int, jobs: nat, outcome: nat -> Option<Failure>)
    ensures Inv(Begin(concurrency, jobs), outcome)
  {
    CountIdle(jobs, HOLDING);
    CountIdle(jobs, SENT);
  }

  lemma StepKeepsInv(s: State, outcome: nat -> Option<Failure>, step: Step)
    requires Inv(s, outcome) && Enabled(s, step)
    ensures Inv(Next(s, outcome, step), outcome)
  {
    hide Count, FirstOf;
    var s' := Next(s, outcome, step);
    match step {
      case Acquire =>
      case Launch => CountUpdate(s.jobs, s.launched, Running, HOLDING); CountUpdate(s.jobs, s.launched, Running, SENT);
      case Report(k) =>
        CountUpdate(s.jobs, k, Reported, HOLDING);
        CountUpdate(s.jobs, k, Reported, SENT);
        assert s'.sent[..s.received] == s.sent[..s.received];
        assert k !in s.sent;
      case Release(k) => CountUpdate(s.jobs, k, Released, HOLDING); CountUpdate(s.jobs, k, Released, SENT);
      case Receive => FirstOfNext(outcome, s.sent, s.received);
    }
  }

  lemma FirstOfNext(outcome: nat -> Option<Failure>, ks: seq<nat>, i: nat)
    requires i < |ks|
    ensures FirstOf(outcome, ks[..i + 1]) ==
            if FirstOf(outcome, ks[..i]).Some? then FirstOf(outcome, ks[..i]) else outcome(ks[i])
  {
    assert ks[..i + 1][..i] == ks[..i];
  }

  ghost predicate Legal(s: State, outcome: nat -> Option<Failure>, steps: seq<Step>)
    decreases |steps|
  {
    steps == [] || (Enabled(s, steps[0]) && Legal(Next(s, outcome, steps[0]), outcome, steps[1..]))
  }

  ghost function Run(s: State, outcome: nat -> Option<Failure>, steps: seq<Step>): State
    requires Legal(s, outcome, steps)
    decreases |steps|
  {
    if steps == [] then s else Run(Next(s, outcome, steps[0]), outcome, steps[1..])
  }

  lemma {:induction false} RunKeepsInv(s: State, outcome: nat -> Option<Failure>, steps: seq<Step>)
    requires Inv(s, outcome) && Legal(s, outcome, steps)
    ensures Inv(Run(s, outcome, steps), outcome)
    ensures |Run(s, outcome, steps).jobs| == |s.jobs| && Run(s, outcome, steps).limit == s.limit
    decreases |steps|
  {
    hide Inv;
    if steps != [] {
      StepKeepsInv(s, outcome, steps[0]);
      RunKeepsInv(Next(s, outcome, steps[0]), outcome, steps[1..]);
    }
  }

  // ---------- What it means ----------

  /** In every schedule at most `concurrency` jobs run at once and no job runs twice. */
  lemma LimitHolds(concurrency: int, jobs: nat, outcome: nat -> Option<Failure>, steps: seq<Step>)
    requires Legal(Begin(concurrency, jobs), outcome, steps)
    ensures var s := Run(Begin(concurrency, jobs), outcome, steps);
            && Count(s.jobs, {Running}) <= (if concurrency <= 0 then 16 else concurrency)
            && |s.runs| == jobs && forall k | 0 <= k < jobs :: s.runs[k] <= 1
  {
    BeginInv(concurrency, jobs, outcome);
    RunKeepsInv(Begin(concurrency, jobs), outcome, steps);
    CountBounds(Run(Begin(concurrency, jobs), outcome, steps).jobs, {Running}, HOLDING);
  }

  lemma {:induction false} FirstOfNone(outcome: nat -> Option<Failure>, ks: seq<nat>)
    ensures FirstOf(outcome, ks) == None <==> forall i | 0 <= i < |ks| :: outcome(ks[i]) == None
    ensures FirstOf(outcome, ks).Some? ==> exists i :: 0 <= i < |ks| && FirstOf(outcome, ks) == outcome(ks[i])
  {
    if ks != [] {
      var init := ks[..|ks| - 1];
      FirstOfNone(outcome, init);
      assert forall i | 0 <= i < |init| :: ks[i] == init[i];
      if FirstOf(outcome, init).Some? {
        var i :| 0 <= i < |init| && FirstOf(outcome, init) == outcome(init[i]);
        assert FirstOf(outcome, ks) == outcome(ks[i]);
      } else {
        assert FirstOf(outcome, ks) == outcome(ks[|ks| - 1]);
      }
    }
  }

  /** When all results are received every job ran exactly once, and the result is nil exactly when
      every job succeeded. */
  lemma FinishedResult(s: State, outcome: nat -> Option<Failure>)
    requires Inv(s, outcome) && Finished(s)
    ensures forall k | 0 <= k < |s.jobs| :: s.runs[k] == 1 && s.jobs[k] in SENT
    ensures s.firstErr == None <==> forall k: nat | k < |s.jobs| :: outcome(k) == None
    ensures s.firstErr.Some? ==> exists k: nat :: k < |s.jobs| && s.firstErr == outcome(k)
  {
    CountBounds(s.jobs, SENT, SENT);
    FirstOfNone(outcome, s.sent);
    assert s.sent[..s.received] == s.sent;
    forall k: nat | k < |s.jobs|
      ensures exists i :: 0 <= i < |s.sent| && s.sent[i] == k && outcome(s.sent[i]) == outcome(k)
    {
      AllSent(s.sent, |s.jobs|, k);
      var i :| 0 <= i < |s.sent| && s.sent[i] == k;
    }
  }

  /** As many different numbers below `n` as there are leave none out. */
  lemma {:induction false} AllSent(sent: seq<nat>, n: nat, k: nat)
    requires |sent| == n && k < n
    requires forall i | 0 <= i < |sent| :: sent[i] < n
    requires forall i, j | 0 <= i < j < |sent| :: sent[i] != sent[j]
    ensures k in sent
  {
    if k !in sent {
      DistinctFits(sent, Below(n) - {k});
    }
  }

  function Below(n: nat): (s: set<nat>)
    ensures |s| == n && forall x: nat :: x in s <==> x < n
  {
    if n == 0 then {}
    else
      var s: set<nat> := Below(n - 1);
      assert n - 1 !in s;
      s + {n - 1}
  }

  lemma {:induction false} DistinctFits(a: seq<nat>, s: set<nat>)
    requires forall i | 0 <= i < |a| :: a[i] in s
    requires forall i, j | 0 <= i < j < |a| :: a[i] != a[j]
    ensures |a| <= |s|
  {
    if a != [] {
      var last, init := a[|a| - 1], a[..|a| - 1];
      forall i | 0 <= i < |init| ensures init[i] in s - {last} {}
      DistinctFits(init, s - {last});
    }
  }

  // ---------- Progress ----------

  /** No reachable state is stuck before all results are received. */
  lemma NeverStuck(s: State, outcome: nat -> Option<Failure>)
    requires Inv(s, outcome) && !Finished(s)
    ensures exists step :: Enabled(s, step)
  {
    if s.token {
      assert Enabled(s, Launch);
    } else if s.launched < |s.jobs| {
      if s.sem < s.limit {
        assert Enabled(s, Acquire);
      } else {
        CountBounds(s.jobs, HOLDING, HOLDING);
        var k: nat :| k < |s.jobs| && s.jobs[k] in HOLDING;
        HolderMoves(s, outcome, k);
      }
    } else if s.received < |s.sent| {
      assert s.received < |s.jobs| by { CountBounds(s.jobs, SENT, SENT); }
      assert Enabled(s, Receive);
    } else {
      CountBounds(s.jobs, SENT, SENT);
      var k: nat :| k < |s.jobs| && s.jobs[k] !in SENT;
      HolderMoves(s, outcome, k);
    }
  }

  lemma HolderMoves(s: State, outcome: nat -> Option<Failure>, k: nat)
    requires Inv(s, outcome) && k < |s.jobs| && s.jobs[k] in HOLDING
    ensures Enabled(s, Report(k)) || Enabled(s, Release(k))
  {
    CountBounds(s.jobs, SENT, SENT);
    CountUpdate(s.jobs, k, Idle, HOLDING);
    assert s.jobs[k] == Running ==> Count(s.jobs, SENT) != |s.jobs|;
  }

  ghost function Weight(jobs: seq<Job>): nat {
    2 * Count(jobs, {Running}) + Count(jobs, {Reported})
  }

  /** A bound on how much longer any run can be. */
  ghost function Rank(s: State): int {
    4 * (|s.jobs| - s.launched) - (if s.token then 1 else 0) + Weight(s.jobs) + (|s.jobs| - s.received)
  }

  lemma StepLowersRank(s: State, outcome: nat -> Option<Failure>, step: Step)
    requires Inv(s, outcome) && Enabled(s, step)
    ensures 0 <= Rank(Next(s, outcome, step)) < Rank(s)
  {
    var s' := Next(s, outcome, step);
    match step {
      case Launch =>
        CountUpdate(s.jobs, s.launched, Running, {Running});
        CountUpdate(s.jobs, s.launched, Running, {Reported});
      case Report(k) => CountUpdate(s.jobs, k, Reported, {Running}); CountUpdate(s.jobs, k, Reported, {Reported});
      case Release(k) => CountUpdate(s.jobs, k, Released, {Running}); CountUpdate(s.jobs, k, Released, {Reported});
      case _ =>
    }
    StepKeepsInv(s, outcome, step);
    CountBounds(s'.jobs, SENT, SENT);
  }

  /** Every schedule ends, within five steps a job. */
  lemma {:induction false} RunsEnd(s: State, outcome: nat -> Option<Failure>, steps: seq<Step>)
    requires Inv(s, outcome) && Legal(s, outcome, steps)
    ensures |steps| <= Rank(s) || steps == []
    decreases |steps|
  {
    hide Inv, Rank;
    if steps != [] {
      StepLowersRank(s, outcome, steps[0]);
      StepKeepsInv(s, outcome, steps[0]);
      RunsEnd(Next(s, outcome, steps[0]), outcome, steps[1..]);
    }
  }
}
