/** fs/torrent.go: the pool of readers behind a torrent file, with its prefetching goroutines.
    The file is opened lazily, read concurrently, and not closed; every channel operation is one
    atomic step. */
module ReaderPool {
  import opened Totals

  type Reader = nat
  type Call = nat

  /** Where a foreground ReadAt is. */
  datatype Fore = Waiting | Reading(r: Reader) | Prefetching(r: Reader) | Returning(r: Reader) | Done

  /** Where a prefetching goroutine is. */
  datatype Back = Fetching(r: Reader) | Giving(r: Reader)

  datatype State = State(size: nat, pool: seq<Reader>, fore: map<Call, Fore>, back: map<Call, Back>)

  datatype Step =
    | Start(t: Call)
    | Acquire(t: Call)
    | Finish(t: Call, prefetch: bool)
    | TryPrefetch(t: Call, b: Call)
    | Return(t: Call)
    | Fetched(b: Call)
    | Give(b: Call)

  /** load(): `size` fresh readers in the channel; a non-positive target means 4. */
  function Loaded(target: int): (s: State)
    ensures s.size > 0
  {
    var size := if target <= 0 then 4 else target;
    State(size, seq(size, i => i), map[], map[])
  }

  /** Whether a step can be taken: a receive needs a reader in the channel, a send needs room. */
  predicate Enabled(s: State, step: Step) {
    match step
    case Start(t) => t !in s.fore
    case Acquire(t) => t in s.fore && s.fore[t].Waiting? && s.pool != []
    case Finish(t, _) => t in s.fore && s.fore[t].Reading?
    case TryPrefetch(t, b) => t in s.fore && s.fore[t].Prefetching? && b !in s.back
    case Return(t) => t in s.fore && s.fore[t].Returning? && |s.pool| < s.size
    case Fetched(b) => b in s.back && s.back[b].Fetching?
    case Give(b) => b in s.back && s.back[b].Giving? && |s.pool| < s.size
  }

  function Next(s: State, step: Step): State
    requires Enabled(s, step)
  {
    match step
    case Start(t) => s.(fore := s.fore[t := Waiting])
    case Acquire(t) => s.(fore := s.fore[t := Reading(s.pool[0])], pool := s.pool[1..])
    case Finish(t, prefetch) =>
      var r := s.fore[t].r;
      s.(fore := s.fore[t := if prefetch then Prefetching(r) else Returning(r)])
    case TryPrefetch(t, b) =>
      var s' := s.(fore := s.fore[t := Returning(s.fore[t].r)]);
      if s.pool == [] then s' else s'.(pool := s.pool[1..], back := s.back[b := Fetching(s.pool[0])])
    case Return(t) => s.(pool := s.pool + [s.fore[t].r], fore := s.fore[t := Done])
    case Fetched(b) => s.(back := s.back[b := Giving(s.back[b].r)])
    case Give(b) => s.(pool := s.pool + [s.back[b].r], back := s.back - {b})
  }

  predicate Holds(f: Fore) {
    f.Reading? || f.Prefetching? || f.Returning?
  }

  datatype Holder = ByCall(t: Call) | ByPrefetch(b: Call)

  /** Who holds which reader. */
  ghost function Holders(s: State): map<Holder, Reader> {
    HoldersIn(s.fore, s.back)
  }

  ghost function HoldersIn(fore: map<Call, Fore>, back: map<Call, Back>): map<Holder, Reader> {
    CallHolders(fore) + PrefetchHolders(back)
  }

  ghost function CallHolders(fore: map<Call, Fore>): map<Holder, Reader> {
    map t | t in fore && Holds(fore[t]) :: ByCall(t) := fore[t].r
  }

  ghost function PrefetchHolders(back: map<Call, Back>): map<Holder, Reader> {
    map b | b in back :: ByPrefetch(b) := back[b].r
  }

  lemma CallMoves(fore: map<Call, Fore>, t: Call, f: Fore)
    ensures CallHolders(fore[t := f]) ==
            if Holds(f) then CallHolders(fore)[ByCall(t) := f.r] else CallHolders(fore) - {ByCall(t)}
    ensures ByCall(t) in CallHolders(fore) <==> t in fore && Holds(fore[t])
    ensures t in fore && Holds(fore[t]) ==> CallHolders(fore)[ByCall(t)] == fore[t].r
    ensures forall b :: ByPrefetch(b) !in CallHolders(fore)
  {
    hide CallHolders;
    CallLookup(fore);
    CallLookup(fore[t := f]);
    var before, after := CallHolders(fore), CallHolders(fore[t := f]);
    var expected := if Holds(f) then before[ByCall(t) := f.r] else before - {ByCall(t)};
    forall x ensures x in after <==> x in expected
             ensures x in after ==> after[x] == expected[x]
    {
      match x
      case ByCall(u) =>
      case ByPrefetch(_) =>
    }
    assert after == expected;
  }

  lemma CallLookup(fore: map<Call, Fore>)
    ensures forall t :: ByCall(t) in CallHolders(fore) <==> t in fore && Holds(fore[t])
    ensures forall t | t in fore && Holds(fore[t]) :: CallHolders(fore)[ByCall(t)] == fore[t].r
    ensures forall b :: ByPrefetch(b) !in CallHolders(fore)
  {
  }

  lemma PrefetchMoves(back: map<Call, Back>, b: Call, k: Back)
    ensures PrefetchHolders(back[b := k]) == PrefetchHolders(back)[ByPrefetch(b) := k.r]
    ensures PrefetchHolders(back - {b}) == PrefetchHolders(back) - {ByPrefetch(b)}
    ensures ByPrefetch(b) in PrefetchHolders(back) <==> b in back
    ensures b in back ==> PrefetchHolders(back)[ByPrefetch(b)] == back[b].r
    ensures forall t :: ByCall(t) !in PrefetchHolders(back)
  {
    hide PrefetchHolders;
    PrefetchStarts(back, b, k);
    PrefetchEnds(back, b);
    PrefetchLookup(back);
  }

  lemma PrefetchStarts(back: map<Call, Back>, b: Call, k: Back)
    ensures PrefetchHolders(back[b := k]) == PrefetchHolders(back)[ByPrefetch(b) := k.r]
  {
  }

  lemma PrefetchEnds(back: map<Call, Back>, b: Call)
    ensures PrefetchHolders(back - {b}) == PrefetchHolders(back) - {ByPrefetch(b)}
  {
  }

  lemma PrefetchLookup(back: map<Call, Back>)
    ensures forall b :: ByPrefetch(b) in PrefetchHolders(back) <==> b in back
    ensures forall b | b in back :: PrefetchHolders(back)[ByPrefetch(b)] == back[b].r
    ensures forall t :: ByCall(t) !in PrefetchHolders(back)
  {
  }

  /** The values of a map, with repetitions. */
  ghost function Bag<K, V>(m: map<K, V>): multiset<V> {
    if m == map[] then multiset{}
    else
      var k :| k in m;
      multiset{m[k]} + Bag(m - {k})
  }

  lemma BagPick<K, V>(m: map<K, V>) returns (k: K)
    requires m != map[]
    ensures k in m && Bag(m) == multiset{m[k]} + Bag(m - {k})
  {
    k :| k in m && Bag(m) == multiset{m[k]} + Bag(m - {k});
  }

  lemma {:induction false} BagAt<K, V>(m: map<K, V>, k: K)
    requires k in m
    ensures Bag(m) == multiset{m[k]} + Bag(m - {k})
    decreases |m|
  {
    hide Bag;
    var j := BagPick(m);
    if j != k {
      BagAt(m - {j}, k);
      BagAt(m - {k}, j);
      assert m - {j} - {k} == m - {k} - {j};
    }
  }

  lemma BagInsert<K, V>(m: map<K, V>, k: K, r: V)
    requires k !in m
    ensures Bag(m[k := r]) == Bag(m) + multiset{r}
  {
    BagAt(m[k := r], k);
    assert m[k := r] - {k} == m;
  }

  lemma ValuesSplit<K, V>(m: map<K, V>, k: K)
    requires k in m
    ensures m.Values == {m[k]} + (m - {k}).Values
  {
    forall x | x in m.Values ensures x == m[k] || x in (m - {k}).Values {
      var j :| j in m && m[j] == x;
      if j != k { assert (m - {k})[j] == x; }
    }
    forall x | x in (m - {k}).Values ensures x in m.Values {
      var j :| j in m - {k} && (m - {k})[j] == x;
      assert m[j] == x;
    }
  }

  lemma {:induction false} BagContains<K, V>(m: map<K, V>, r: V)
    ensures r in Bag(m) <==> r in m.Values
    decreases |m|
  {
    if m == map[] {
      assert Bag(m) == multiset{};
    } else {
      var k := BagPick(m);
      BagContains(m - {k}, r);
      ValuesSplit(m, k);
    }
  }

  /** Each of the initial readers, once. */
  ghost function Initial(size: nat): multiset<Reader> {
    multiset(seq(size, i => i))
  }

  /** Conservation: the channel and the holders together have every initial reader exactly once. */
  ghost predicate Inv(s: State) {
    s.size > 0 && multiset(s.pool) + Bag(Holders(s)) == Initial(s.size)
  }

  /** load() makes as many readers as it is asked for, 4 if it is asked for none, all different, and puts
      them all in the channel. */
  lemma LoadedReaders(target: int)
    ensures var s := Loaded(target);
            && (target > 0 ==> s.size == target) && (target <= 0 ==> s.size == 4)
            && |s.pool| == s.size && s.fore == map[] && s.back == map[]
            && forall i, j | 0 <= i < j < |s.pool| :: s.pool[i] != s.pool[j]
  {
  }

  lemma LoadedInv(target: int)
    ensures Inv(Loaded(target))
  {
  }

  /** How a step changes who holds which reader. */
  ghost predicate HoldersMove(s: State, step: Step, h: map<Holder, Reader>, h': map<Holder, Reader>)
    requires Enabled(s, step)
  {
    match step
    case Acquire(t) => ByCall(t) !in h && h' == h[ByCall(t) := s.pool[0]]
    case TryPrefetch(t, b) => ByPrefetch(b) !in h && h' == if s.pool == [] then h else h[ByPrefetch(b) := s.pool[0]]
    case Return(t) => ByCall(t) in h && h[ByCall(t)] == s.fore[t].r && h' == h - {ByCall(t)}
    case Give(b) => ByPrefetch(b) in h && h[ByPrefetch(b)] == s.back[b].r && h' == h - {ByPrefetch(b)}
    case _ => h' == h
  }

  lemma StepHolders(s: State, step: Step)
    requires Enabled(s, step)
    ensures HoldersMove(s, step, Holders(s), Holders(Next(s, step)))
  {
    hide HoldersMove;
    match step {
      case TryPrefetch(_, _) => PrefetchStep(s, step);
      case Fetched(_) => PrefetchStep(s, step);
      case Give(_) => PrefetchStep(s, step);
      case _ => CallStep(s, step);
    }
  }

  /** What one call's change does to the holders. */
  lemma HoldersCall(fore: map<Call, Fore>, back: map<Call, Back>, t: Call, f: Fore)
    ensures var h := HoldersIn(fore, back);
            HoldersIn(fore[t := f], back) == if Holds(f) then h[ByCall(t) := f.r] else h - {ByCall(t)}
    ensures ByCall(t) in HoldersIn(fore, back) <==> t in fore && Holds(fore[t])
    ensures t in fore && Holds(fore[t]) ==> HoldersIn(fore, back)[ByCall(t)] == fore[t].r
  {
    hide CallHolders, PrefetchHolders;
    CallMoves(fore, t, f);
    PrefetchLookup(back);
    SumLeft(CallHolders(fore), PrefetchHolders(back), ByCall(t), if Holds(f) then f.r else 0);
  }

  /** What one prefetch's change does to the holders. */
  lemma HoldersPrefetch(fore: map<Call, Fore>, back: map<Call, Back>, b: Call, k: Back)
    ensures HoldersIn(fore, back[b := k]) == HoldersIn(fore, back)[ByPrefetch(b) := k.r]
    ensures HoldersIn(fore, back - {b}) == HoldersIn(fore, back) - {ByPrefetch(b)}
    ensures ByPrefetch(b) in HoldersIn(fore, back) <==> b in back
    ensures b in back ==> HoldersIn(fore, back)[ByPrefetch(b)] == back[b].r
  {
    hide CallHolders, PrefetchHolders;
    CallLookup(fore);
    PrefetchMoves(back, b, k);
    SumRight(CallHolders(fore), PrefetchHolders(back), ByPrefetch(b), k.r);
  }

  lemma SumLeft<K, V>(a: map<K, V>, b: map<K, V>, k: K, v: V)
    requires k !in b
    ensures a[k := v] + b == (a + b)[k := v] && (a - {k}) + b == (a + b) - {k}
  {
  }

  lemma SumRight<K, V>(a: map<K, V>, b: map<K, V>, k: K, v: V)
    requires k !in a
    ensures a + b[k := v] == (a + b)[k := v] && a + (b - {k}) == (a + b) - {k}
  {
  }

  lemma CallStep(s: State, step: Step)
    requires Enabled(s, step) && (step.Start? || step.Acquire? || step.Finish? || step.Return?)
    ensures HoldersMove(s, step, Holders(s), Holders(Next(s, step)))
  {
    hide HoldersIn;
    match step {
      case Start(t) => HoldersCall(s.fore, s.back, t, Waiting);
      case Acquire(t) => HoldersCall(s.fore, s.back, t, Reading(s.pool[0]));
      case Finish(t, prefetch) =>
        var r := s.fore[t].r;
        HoldersCall(s.fore, s.back, t, if prefetch then Prefetching(r) else Returning(r));
        assert Holders(s)[ByCall(t) := r] == Holders(s);
      case Return(t) => HoldersCall(s.fore, s.back, t, Done);
    }
  }

  lemma PrefetchStep(s: State, step: Step)
    requires Enabled(s, step) && (step.TryPrefetch? || step.Fetched? || step.Give?)
    ensures HoldersMove(s, step, Holders(s), Holders(Next(s, step)))
  {
    hide HoldersIn;
    match step {
      case TryPrefetch(t, b) =>
        var r := s.fore[t].r;
        HoldersCall(s.fore, s.back, t, Returning(r));
        assert Holders(s)[ByCall(t) := r] == Holders(s);
        HoldersPrefetch(s.fore[t := Returning(r)], s.back, b, Fetching(if s.pool == [] then 0 else s.pool[0]));
      case Fetched(b) =>
        HoldersPrefetch(s.fore, s.back, b, Giving(s.back[b].r));
        assert Holders(s)[ByPrefetch(b) := s.back[b].r] == Holders(s);
      case Give(b) => HoldersPrefetch(s.fore, s.back, b, s.back[b]);
    }
  }

  /** Every step of every goroutine keeps the pool. */
  lemma StepKeepsInv(s: State, step: Step)
    requires Inv(s) && Enabled(s, step)
    ensures Inv(Next(s, step))
  {
    hide Holders, Bag, Initial;
    StepHolders(s, step);
    match step {
      case Acquire(t) => TakeKeeps(s.pool, Holders(s), ByCall(t));
      case TryPrefetch(t, b) => if s.pool != [] { TakeKeeps(s.pool, Holders(s), ByPrefetch(b)); }
      case Return(t) => GiveKeeps(s.pool, Holders(s), ByCall(t));
      case Give(b) => GiveKeeps(s.pool, Holders(s), ByPrefetch(b));
      case _ =>
    }
  }

  /** Taking a reader out of the channel moves it to its holder. */
  lemma TakeKeeps(pool: seq<Reader>, h: map<Holder, Reader>, k: Holder)
    requires pool != [] && k !in h
    ensures multiset(pool[1..]) + Bag(h[k := pool[0]]) == multiset(pool) + Bag(h)
  {
    hide Bag;
    assert pool == [pool[0]] + pool[1..];
    BagInsert(h, k, pool[0]);
  }

  /** Giving a reader back moves it to the channel. */
  lemma GiveKeeps(pool: seq<Reader>, h: map<Holder, Reader>, k: Holder)
    requires k in h
    ensures multiset(pool + [h[k]]) + Bag(h - {k}) == multiset(pool) + Bag(h)
  {
    hide Bag;
    BagAt(h, k);
  }

  ghost predicate Legal(s: State, steps: seq<Step>)
    decreases |steps|
  {
    steps == [] || (Enabled(s, steps[0]) && Legal(Next(s, steps[0]), steps[1..]))
  }

  ghost function Run(s: State, steps: seq<Step>): State
    requires Legal(s, steps)
    decreases |steps|
  {
    if steps == [] then s else Run(Next(s, steps[0]), steps[1..])
  }

  lemma {:induction false} RunKeepsInv(s: State, steps: seq<Step>)
    requires Inv(s) && Legal(s, steps)
    ensures Inv(Run(s, steps)) && Run(s, steps).size == s.size
    decreases |steps|
  {
    hide Inv;
    if steps != [] {
      StepKeepsInv(s, steps[0]);
      RunKeepsInv(Next(s, steps[0]), steps[1..]);
    }
  }

  /** In every interleaving from load on, the readers in the channel and with holders are exactly
      the initial ones and no reader is in two places. */
  lemma PoolIsConserved(target: int, steps: seq<Step>)
    requires Legal(Loaded(target), steps)
    ensures Inv(Run(Loaded(target), steps))
  {
    LoadedInv(target);
    RunKeepsInv(Loaded(target), steps);
  }

  // ---------- What conservation means ----------

  lemma {:induction false} InitialOnce(size: nat, r: Reader)
    ensures Initial(size)[r] == if r < size then 1 else 0
    ensures |Initial(size)| == size
  {
    var all := seq(size, i => i);
    if size > 0 {
      InitialOnce(size - 1, r);
      assert all == seq(size - 1, i => i) + [size - 1];
    } else {
      assert all == [];
    }
  }

  /** No reader is in two places. */
  lemma NoReaderTwice(s: State, h: Holder, k: Holder)
    requires Inv(s) && h in Holders(s)
    ensures Holders(s)[h] !in s.pool
    ensures k in Holders(s) && k != h ==> Holders(s)[k] != Holders(s)[h]
    ensures Holders(s)[h] < s.size
  {
    hide Holders;
    var m := Holders(s);
    BagAt(m, h);
    InitialOnce(s.size, m[h]);
    if k in m && k != h { BagAt(m - {h}, k); }
    assert m[h] in s.pool <==> multiset(s.pool)[m[h]] >= 1;
  }

  /** No reader is lost. */
  lemma NoReaderLost(s: State, r: Reader)
    requires Inv(s) && r < s.size
    ensures r in s.pool || exists h :: h in Holders(s) && Holders(s)[h] == r
  {
    hide Holders;
    InitialOnce(s.size, r);
    BagContains(Holders(s), r);
    assert multiset(s.pool)[r] + Bag(Holders(s))[r] == 1;
  }

  /** Returning a reader never blocks: while someone holds one, the channel has room. */
  lemma ReturnNeverBlocks(s: State, h: Holder)
    requires Inv(s) && h in Holders(s)
    ensures |s.pool| < s.size
  {
    hide Holders;
    BagAt(Holders(s), h);
    InitialOnce(s.size, 0);
    assert |multiset(s.pool)| == |s.pool|;
    assert |multiset(s.pool) + Bag(Holders(s))| == |s.pool| + |Bag(Holders(s))|;
  }

  // ---------- Progress ----------

  /** How many steps a call or a prefetch can still take. */
  function ForeRank(f: Fore): nat {
    match f
    case Waiting => 7
    case Reading(_) => 6
    case Prefetching(_) => 5
    case Returning(_) => 1
    case Done => 0
  }

  function BackRank(b: Back): nat {
    if b.Fetching? then 2 else 1
  }

  ghost function ForeRanks(fore: map<Call, Fore>): map<Call, int> {
    map t | t in fore :: ForeRank(fore[t])
  }

  ghost function BackRanks(back: map<Call, Back>): map<Call, int> {
    map b | b in back :: BackRank(back[b])
  }

  ghost function Rank(s: State): int {
    Total(ForeRanks(s.fore)) + Total(BackRanks(s.back))
  }

  lemma ForeRankMoves(fore: map<Call, Fore>, t: Call, f: Fore)
    requires t in fore
    ensures Total(ForeRanks(fore[t := f])) == Total(ForeRanks(fore)) - ForeRank(fore[t]) + ForeRank(f)
  {
    assert ForeRanks(fore[t := f]) == ForeRanks(fore)[t := ForeRank(f)];
    TotalUpdate(ForeRanks(fore), t, ForeRank(f));
  }

  lemma BackRankMoves(back: map<Call, Back>, b: Call, k: Back)
    ensures Total(BackRanks(back[b := k])) == Total(BackRanks(back)) - (if b in back then BackRank(back[b]) else 0)
            + BackRank(k)
    ensures b in back ==> Total(BackRanks(back - {b})) == Total(BackRanks(back)) - BackRank(back[b])
  {
    assert BackRanks(back[b := k]) == BackRanks(back)[b := BackRank(k)];
    if b in back {
      TotalUpdate(BackRanks(back), b, BackRank(k));
      assert BackRanks(back - {b}) == BackRanks(back) - {b};
      TotalAt(BackRanks(back), b);
    } else {
      TotalInsert(BackRanks(back), b, BackRank(k));
    }
  }

  /** Every step but the start of a new call lowers the rank, so without new calls every run ends. */
  lemma StepLowersRank(s: State, step: Step)
    requires Enabled(s, step) && !step.Start?
    ensures Rank(Next(s, step)) < Rank(s)
  {
    hide Total, ForeRanks, BackRanks;
    var s' := Next(s, step);
    match step {
      case Acquire(t) => ForeRankMoves(s.fore, t, s'.fore[t]);
      case Finish(t, _) => ForeRankMoves(s.fore, t, s'.fore[t]);
      case TryPrefetch(t, b) =>
        ForeRankMoves(s.fore, t, s'.fore[t]);
        if s.pool != [] { BackRankMoves(s.back, b, s'.back[b]); }
      case Return(t) => ForeRankMoves(s.fore, t, Done);
      case Fetched(b) => BackRankMoves(s.back, b, s'.back[b]);
      case Give(b) => BackRankMoves(s.back, b, s.back[b]);
    }
  }

  lemma {:induction false} TotalNonNegative<K>(m: map<K, int>)
    requires forall k | k in m :: m[k] >= 0
    ensures Total(m) >= 0
    decreases |m|
  {
    if k :| k in m {
      TotalAt(m, k);
      TotalNonNegative(m - {k});
    }
  }

  lemma RankNonNegative(s: State)
    ensures Rank(s) >= 0
  {
    TotalNonNegative(ForeRanks(s.fore));
    TotalNonNegative(BackRanks(s.back));
  }

  /** No more than `Rank` steps follow before a new call has to start. */
  lemma {:induction false} RunsEnd(s: State, steps: seq<Step>)
    requires Legal(s, steps) && forall i | 0 <= i < |steps| :: !steps[i].Start?
    ensures |steps| <= Rank(s)
    decreases |steps|
  {
    RankNonNegative(s);
    hide Rank;
    if steps != [] {
      StepLowersRank(s, steps[0]);
      RunsEnd(Next(s, steps[0]), steps[1..]);
    }
  }

  /** The pool never deadlocks: in every kept state with unfinished work some goroutine can move. */
  lemma NeverStuck(s: State)
    requires Inv(s) && ((exists t :: t in s.fore && !s.fore[t].Done?) || s.back != map[])
    ensures exists step: Step :: !step.Start? && Enabled(s, step)
  {
    if b :| b in s.back {
      BackCanMove(s, b);
    } else {
      assert s.back == map[];
      var t :| t in s.fore && !s.fore[t].Done?;
      ForeCanMove(s, t);
    }
  }

  lemma BackCanMove(s: State, b: Call)
    requires Inv(s) && b in s.back
    ensures Enabled(s, Fetched(b)) || Enabled(s, Give(b))
  {
    hide Bag, Initial, CallHolders, PrefetchHolders;
    PrefetchMoves(s.back, b, s.back[b]);
    ReturnNeverBlocks(s, ByPrefetch(b));
  }

  lemma HolderCanMove(s: State, t: Call)
    requires Inv(s) && t in s.fore && Holds(s.fore[t]) && s.back == map[]
    ensures exists step: Step :: !step.Start? && Enabled(s, step)
  {
    hide Bag, Initial, CallHolders, PrefetchHolders;
    CallMoves(s.fore, t, s.fore[t]);
    ReturnNeverBlocks(s, ByCall(t));
    match s.fore[t] {
      case Reading(_) => assert Enabled(s, Finish(t, false));
      case Prefetching(_) => assert Enabled(s, TryPrefetch(t, 0));
      case Returning(_) => assert Enabled(s, Return(t));
    }
  }

  /** A waiting ReadAt gets a reader or another call, holding one, can move towards giving it back. */
  lemma ForeCanMove(s: State, t: Call)
    requires Inv(s) && t in s.fore && !s.fore[t].Done? && s.back == map[]
    ensures exists step: Step :: !step.Start? && Enabled(s, step)
  {
    if Holds(s.fore[t]) {
      HolderCanMove(s, t);
    } else if s.pool != [] {
      assert Enabled(s, Acquire(t));
    } else {
      NoReaderLost(s, 0);
      var h :| h in Holders(s) && Holders(s)[h] == 0;
      HolderCanMove(s, h.t);
    }
  }

  /** When nothing can move any more, every call is done and every reader is back in the channel. */
  lemma QuietMeansWhole(s: State)
    requires Inv(s) && forall step: Step | !step.Start? :: !Enabled(s, step)
    ensures s.back == map[] && (forall t | t in s.fore :: s.fore[t] == Done)
    ensures multiset(s.pool) == Initial(s.size)
  {
    if (exists t :: t in s.fore && !s.fore[t].Done?) || s.back != map[] {
      NeverStuck(s);
    }
    assert Holders(s) == map[];
  }
}
