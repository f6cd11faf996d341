/** torrent/service.go: reconciling the torrents loaded from a route's folder with its .torrent files. */
module FolderSync {
  import opened Paths
  import PathTrees

  /** What AddTorrentPath may meet: the file cannot be read, or the client takes its torrent but the
      route refuses it, or all goes well. */
  datatype Outcome = Unreadable | Refused(hash: string) | Loaded(hash: string)

  /** How the file system and the client behave during one sync. */
  datatype World = World(disk: set<string>, load: string -> Outcome, drops: string -> bool)

  // ---------- What a sync is about ----------

  /** The tracked paths taken to be in the folder: those with its path as a string prefix. */
  function Current(tracked: map<string, string>, folder: string): set<string> {
    set p | p in tracked && folder <= p
  }

  function Missing(tracked: map<string, string>, folder: string, disk: set<string>): set<string> {
    disk - Current(tracked, folder)
  }

  function Stale(tracked: map<string, string>, folder: string, disk: set<string>): set<string> {
    Current(tracked, folder) - disk
  }

  /** Where the tracked paths and the disk disagree. */
  function Difference(tracked: map<string, string>, folder: string, disk: set<string>): set<string> {
    Missing(tracked, folder, disk) + Stale(tracked, folder, disk)
  }

  /** The paths of `ps` that load, with their hashes. */
  ghost function Loads(ps: set<string>, w: World): map<string, string> {
    map p | p in ps && w.load(p).Loaded? :: w.load(p).hash
  }

  ghost function Drops(ps: set<string>, w: World): set<string> {
    set p | p in ps && w.drops(p)
  }

  ghost function AfterSync(tracked: map<string, string>, folder: string, w: World): map<string, string> {
    (tracked + Loads(Missing(tracked, folder, w.disk), w)) - Drops(Stale(tracked, folder, w.disk), w)
  }

  /** The torrents the client takes on while loading `ps`. */
  ghost function Taken(ps: set<string>, w: World): set<string> {
    set p | p in ps && !w.load(p).Unreadable? :: w.load(p).hash
  }

  ghost function Hashes(tracked: map<string, string>, ps: set<string>): set<string> {
    set p | p in ps && p in tracked :: tracked[p]
  }

  ghost function ClientAfter(tracked: map<string, string>, client: set<string>, folder: string, w: World): set<string> {
    client + Taken(Missing(tracked, folder, w.disk), w)
      - Hashes(tracked, Drops(Stale(tracked, folder, w.disk), w))
  }

  // ---------- The service ----------

  class Service {
    /** Path of each .torrent file in use, with the hash of its torrent. */
    var pathToHash: map<string, string>
    /** Hashes of the torrents in the client. */
    var client: set<string>

    constructor ()
      ensures pathToHash == map[] && client == {}
    {
      pathToHash, client := map[], {};
    }

    method AddTorrentPath(p: string, outcome: Outcome) returns (ok: bool)
      modifies this
      ensures ok == outcome.Loaded?
      ensures client == if outcome.Unreadable? then old(client) else old(client) + {outcome.hash}
      ensures pathToHash == if ok then old(pathToHash)[p := outcome.hash] else old(pathToHash)
    {
      if outcome.Unreadable? {
        return false;
      }
      client := client + {outcome.hash};
      if outcome.Refused? {
        return false;
      }
      pathToHash := pathToHash[p := outcome.hash];
      return true;
    }

    /** `served` tells whether the route has a filesystem and the hash parses, without which the client
        keeps the torrent. */
    method RemoveFromHashLocal(h: string, served: bool) returns (ok: bool)
      modifies this`client
      ensures ok == served
      ensures client == if ok then old(client) - {h} else old(client)
    {
      if !served {
        return false;
      }
      client := client - {h};
      return true;
    }

    /** Loads what is on disk and not tracked, then drops what is tracked and not on disk; `tried`
        are the paths it acted on, in whatever order the two maps were read. */
    method SyncRouteFolder(folder: string, walked: bool, w: World) returns (ok: bool, tried: set<string>)
      modifies this
      ensures ok == walked
      ensures !ok ==> pathToHash == old(pathToHash) && client == old(client) && tried == {}
      ensures ok ==> tried == Difference(old(pathToHash), folder, w.disk)
      ensures ok ==> pathToHash == AfterSync(old(pathToHash), folder, w)
      ensures ok ==> client == ClientAfter(old(pathToHash), old(client), folder, w)
    {
      hide AfterSync, ClientAfter, Loads, Drops, Taken, Hashes;
      if !walked {
        return false, {};
      }
      var current := map p | p in pathToHash && folder <= p :: pathToHash[p];
      assert current.Keys == Current(pathToHash, folder);
      Finished(pathToHash, current, client, folder, w);
      AddMissing(w.disk - current.Keys, w);
      DropStale(current, current.Keys - w.disk, w);
      return true, (w.disk - current.Keys) + (current.Keys - w.disk);
    }

    method AddMissing(missing: set<string>, w: World)
      modifies this
      ensures pathToHash == old(pathToHash) + Loads(missing, w) && client == old(client) + Taken(missing, w)
    {
      hide Loads, Taken;
      var todo := missing;
      ghost var done: set<string> := {};
      LoadsOfNone(pathToHash, w);
      while todo != {}
        invariant todo + done == missing
        invariant pathToHash == old(pathToHash) + Loads(done, w) && client == old(client) + Taken(done, w)
        decreases |todo|
      {
        var p :| p in todo;
        LoadsOneMore(old(pathToHash), old(client), done, p, w);
        var _ := AddTorrentPath(p, w.load(p));
        todo, done := todo - {p}, done + {p};
      }
      assert done == missing;
    }

    method DropStale(current: map<string, string>, stale: set<string>, w: World)
      requires stale <= current.Keys
      modifies this
      ensures pathToHash == old(pathToHash) - Drops(stale, w)
      ensures client == old(client) - Hashes(current, Drops(stale, w))
    {
      hide Drops, Hashes;
      var todo := stale;
      ghost var gone: set<string> := {};
      DropsNone(current, w);
      while todo != {}
        invariant todo + gone == stale
        invariant pathToHash == old(pathToHash) - Drops(gone, w)
                  && client == old(client) - Hashes(current, Drops(gone, w))
        decreases |todo|
      {
        var p :| p in todo;
        DropsOneMore(current, gone, p, w);
        MinusMore(old(pathToHash), Drops(gone, w), p);
        var removed := RemoveFromHashLocal(current[p], w.drops(p));
        if removed {
          pathToHash := pathToHash - {p};
        }
        todo, gone := todo - {p}, gone + {p};
      }
      assert gone == stale;
    }

    /** Drops the torrent of one tracked file. */
    method MaybeRemoveByPath(p: string, served: bool) returns (removed: bool)
      modifies this
      ensures removed == (p in old(pathToHash) && served)
      ensures pathToHash == if removed then old(pathToHash) - {p} else old(pathToHash)
      ensures client == if removed then old(client) - {old(pathToHash)[p]} else old(client)
    {
      if p !in pathToHash {
        return false;
      }
      removed := RemoveFromHashLocal(pathToHash[p], served);
      if removed {
        pathToHash := pathToHash - {p};
      }
    }
  }

  lemma LoadsOfNone(tracked: map<string, string>, w: World)
    ensures tracked + Loads({}, w) == tracked && Taken({}, w) == {}
  {
  }

  lemma LoadsOneMore(tracked: map<string, string>, client: set<string>, done: set<string>, p: string, w: World)
    ensures tracked + Loads(done + {p}, w)
            == if w.load(p).Loaded? then (tracked + Loads(done, w))[p := w.load(p).hash] else tracked + Loads(done, w)
    ensures client + Taken(done + {p}, w)
            == if w.load(p).Unreadable? then client + Taken(done, w) else client + Taken(done, w) + {w.load(p).hash}
  {
  }

  lemma DropsNone(tracked: map<string, string>, w: World)
    ensures Drops({}, w) == {} && Hashes(tracked, {}) == {}
  {
  }

  lemma DropsOneMore(tracked: map<string, string>, gone: set<string>, p: string, w: World)
    requires p in tracked
    ensures Drops(gone + {p}, w) == if w.drops(p) then Drops(gone, w) + {p} else Drops(gone, w)
    ensures Hashes(tracked, Drops(gone, w) + {p}) == Hashes(tracked, Drops(gone, w)) + {tracked[p]}
  {
  }

  lemma MinusMore<K, V>(m: map<K, V>, s: set<K>, k: K)
    ensures m - (s + {k}) == (m - s) - {k}
  {
  }

  lemma Finished(tracked: map<string, string>, current: map<string, string>, client: set<string>, folder: string,
                 w: World)
    requires current == map p | p in Current(tracked, folder) :: tracked[p]
    ensures AfterSync(tracked, folder, w)
            == (tracked + Loads(w.disk - current.Keys, w)) - Drops(current.Keys - w.disk, w)
    ensures ClientAfter(tracked, client, folder, w)
            == client + Taken(w.disk - current.Keys, w) - Hashes(current, Drops(current.Keys - w.disk, w))
  {
  }

  // ---------- What a sync achieves ----------

  ghost predicate AllSucceed(tracked: map<string, string>, folder: string, w: World) {
    && (forall p | p in Missing(tracked, folder, w.disk) :: w.load(p).Loaded?)
    && forall p | p in Stale(tracked, folder, w.disk) :: w.drops(p)
  }

  ghost predicate Under(folder: string, disk: set<string>) {
    forall p | p in disk :: folder <= p
  }

  /** What is still different afterwards is exactly what failed. */
  lemma OnlyFailuresRemain(tracked: map<string, string>, folder: string, w: World)
    requires Under(folder, w.disk)
    ensures Difference(AfterSync(tracked, folder, w), folder, w.disk)
            == set p | p in Difference(tracked, folder, w.disk)
                       && if p in w.disk then !w.load(p).Loaded? else !w.drops(p)
  {
    var after := AfterSync(tracked, folder, w);
    forall p ensures p in after && folder <= p <==>
                     (p in tracked && folder <= p && (p in w.disk || !w.drops(p)))
                     || (p in w.disk && (p !in tracked || !(folder <= p)) && w.load(p).Loaded?)
    {
    }
  }

  /** When every step succeeds, the folder's tracked paths become the files on disk exactly if the
      walk names files under the folder's own spelling. */
  lemma SyncConvergesIff(tracked: map<string, string>, folder: string, w: World)
    requires AllSucceed(tracked, folder, w)
    ensures Current(AfterSync(tracked, folder, w), folder) == w.disk <==> Under(folder, w.disk)
  {
  }

  /** Paths of other folders stay tracked with their hashes, and so do the files that stay. */
  lemma SyncLeavesTheRest(tracked: map<string, string>, folder: string, w: World, p: string)
    requires p !in Difference(tracked, folder, w.disk)
    ensures p in AfterSync(tracked, folder, w) <==> p in tracked
    ensures p in tracked ==> AfterSync(tracked, folder, w)[p] == tracked[p]
  {
  }

  /** Loading one missing file removes it from the difference and touches nothing else there. */
  lemma EachLoadShrinks(tracked: map<string, string>, folder: string, disk: set<string>, p: string, h: string)
    requires Under(folder, disk) && p in Missing(tracked, folder, disk)
    ensures p in Difference(tracked, folder, disk)
    ensures Difference(tracked[p := h], folder, disk) == Difference(tracked, folder, disk) - {p}
  {
  }

  /** So does dropping one stale file. */
  lemma EachDropShrinks(tracked: map<string, string>, folder: string, disk: set<string>, p: string)
    requires p in Stale(tracked, folder, disk)
    ensures p in Difference(tracked, folder, disk)
    ensures Difference(tracked - {p}, folder, disk) == Difference(tracked, folder, disk) - {p}
  {
  }

  /** After a sync without failures, a second one on the same disk tries nothing and changes nothing,
      whatever would happen if it tried. */
  lemma SecondSyncDoesNothing(tracked: map<string, string>, client: set<string>, folder: string, w: World, again: World)
    requires AllSucceed(tracked, folder, w) && Under(folder, w.disk) && again.disk == w.disk
    ensures var after := AfterSync(tracked, folder, w);
            && Difference(after, folder, again.disk) == {}
            && AfterSync(after, folder, again) == after
            && ClientAfter(after, client, folder, again) == client
  {
    OnlyFailuresRemain(tracked, folder, w);
    var after := AfterSync(tracked, folder, w);
    assert Missing(after, folder, again.disk) == {} && Stale(after, folder, again.disk) == {};
    LoadsOfNone(after, again);
    DropsNone(after, again);
    assert client + {} - {} == client;
  }

  // ---------- Torrents behind the tracked paths ----------

  /** Every tracked file's torrent is in the client. */
  ghost predicate AllServed(tracked: map<string, string>, client: set<string>) {
    forall p | p in tracked :: tracked[p] in client
  }

  /** `p` is on disk, not tracked for the folder, and loading it gives torrent `h`. */
  predicate Brings(tracked: map<string, string>, folder: string, w: World, p: string, h: string) {
    p in w.disk && (p in tracked ==> !(folder <= p)) && w.load(p) == Loaded(h)
  }

  /** `p` is tracked for torrent `h`, and is neither dropped nor loaded anew. */
  predicate Keeps(tracked: map<string, string>, folder: string, w: World, p: string, h: string) {
    && p in tracked && tracked[p] == h
    && if folder <= p then p in w.disk || !w.drops(p) else p in w.disk ==> !w.load(p).Loaded?
  }

  /** A file of torrent `h` stays tracked, or a file that is loaded brings it. */
  ghost predicate StillHeld(tracked: map<string, string>, folder: string, w: World, h: string) {
    exists p :: Brings(tracked, folder, w, p, h) || Keeps(tracked, folder, w, p, h)
  }

  /** A sync keeps every tracked torrent in the client exactly when no file it drops holds the same
      torrent as a file that stays tracked or that it loads. */
  lemma SyncKeepsServedIff(tracked: map<string, string>, client: set<string>, folder: string, w: World)
    requires AllServed(tracked, client)
    ensures AllServed(AfterSync(tracked, folder, w), ClientAfter(tracked, client, folder, w)) <==>
            forall q | q in tracked && folder <= q && q !in w.disk && w.drops(q) ::
              !StillHeld(tracked, folder, w, tracked[q])
  {
    var after, gone := AfterSync(tracked, folder, w), Drops(Stale(tracked, folder, w.disk), w);
    TakenServes(tracked, client, folder, w);
    forall h ensures StillHeld(tracked, folder, w, h) <==> exists p :: p in after && after[p] == h {
      HeldAfter(tracked, folder, w, h);
    }
    hide AfterSync, ClientAfter, Taken, StillHeld;
    forall h ensures h in Hashes(tracked, gone) <==> exists q :: q in gone && tracked[q] == h {
    }
    forall q ensures q in gone <==> q in tracked && folder <= q && q !in w.disk && w.drops(q) {
    }
  }

  lemma TakenServes(tracked: map<string, string>, client: set<string>, folder: string, w: World)
    requires AllServed(tracked, client)
    ensures forall p | p in AfterSync(tracked, folder, w) ::
              AfterSync(tracked, folder, w)[p] in ClientAfter(tracked, client, folder, w) <==>
              AfterSync(tracked, folder, w)[p] !in Hashes(tracked, Drops(Stale(tracked, folder, w.disk), w))
  {
    var after := AfterSync(tracked, folder, w);
    forall p | p in after ensures after[p] in client + Taken(Missing(tracked, folder, w.disk), w) {
      if p in Missing(tracked, folder, w.disk) && w.load(p).Loaded? {
        assert w.load(p).hash in Taken(Missing(tracked, folder, w.disk), w);
      }
    }
  }

  lemma HeldAfter(tracked: map<string, string>, folder: string, w: World, h: string)
    ensures StillHeld(tracked, folder, w, h) <==>
            exists p :: p in AfterSync(tracked, folder, w) && AfterSync(tracked, folder, w)[p] == h
  {
    forall p
      ensures Brings(tracked, folder, w, p, h) || Keeps(tracked, folder, w, p, h) <==>
              p in AfterSync(tracked, folder, w) && AfterSync(tracked, folder, w)[p] == h
    {
    }
  }

  /** Renaming a .torrent file drops its torrent, and later syncs do not bring it back. */
  lemma RenameDropsTheTorrent(folder: string, a: string, b: string, h: string, w: World)
    requires a != b && folder <= a && folder <= b && w.disk == {b} && w.load(b) == Loaded(h) && w.drops(a)
    ensures var after := AfterSync(map[a := h], folder, w);
            after == map[b := h] && h !in ClientAfter(map[a := h], {h}, folder, w)
            && Difference(after, folder, w.disk) == {}
  {
    var tracked := map[a := h];
    assert Missing(tracked, folder, w.disk) == {b} && Stale(tracked, folder, w.disk) == {a};
    assert Loads({b}, w) == map[b := h] && Drops({a}, w) == {a};
    assert tracked[a] in Hashes(tracked, {a});
    assert AfterSync(tracked, folder, w) == map[b := h];
    assert Current(map[b := h], folder) == {b};
  }

  // ---------- Folders as paths and folders as prefixes ----------

  /** `p` is the folder or lies in it. */
  predicate Inside(p: string, folder: string) {
    p == folder || (if folder == "/" then "/" <= p else folder + "/" <= p)
  }

  /** With the disk inside the folder, a sync that meets no failure leaves the files of all other
      folders alone exactly when none of them has the folder as a string prefix. */
  lemma OtherFoldersKeptIff(tracked: map<string, string>, folder: string, w: World)
    requires AllSucceed(tracked, folder, w) && forall p | p in w.disk :: Inside(p, folder)
    ensures (forall p | p in tracked && !Inside(p, folder) :: p in AfterSync(tracked, folder, w))
            <==> forall p | p in tracked && !Inside(p, folder) :: !(folder <= p)
  {
  }

  /** The path filepath.WalkDir gives to what it finds below `folder` along `names`. */
  function Walked(folder: string, names: seq<string>): string {
    if names == [] then folder else Join(Walked(folder, names[..|names| - 1]), names[|names| - 1])
  }

  ghost predicate FileNames(names: seq<string>) {
    forall i | 0 <= i < |names| :: names[i] != "" && '/' !in names[i] && names[i] != "." && names[i] != ".."
  }

  lemma {:induction false} WalkedSteps(folder: string, names: seq<string>)
    requires PathTrees.IsClean(folder) && FileNames(names)
    ensures Walked(folder, names) == Render(IsRooted(folder), Steps(folder) + names)
    ensures Canonical(IsRooted(folder), Steps(folder) + names)
  {
    hide Canonical, Steps, Render, Join;
    PathTrees.CleanIsRender(folder);
    if names == [] {
      assert Steps(folder) + names == Steps(folder);
    } else {
      var init, last := names[..|names| - 1], names[|names| - 1];
      var rooted, st := IsRooted(folder), Steps(folder) + init;
      WalkedSteps(folder, init);
      JoinAddsStep(rooted, st, last);
      assert st + [last] == Steps(folder) + names;
    }
  }

  /** Joining a name to a clean path appends it. */
  lemma JoinAddsStep(rooted: bool, st: seq<string>, n: string)
    requires Canonical(rooted, st) && FileNames([n])
    ensures Canonical(rooted, st + [n]) && Join(Render(rooted, st), n) == Render(rooted, st + [n])
  {
    hide Segments, JoinSegments, PushAll, Render;
    var p := Render(rooted, st);
    assert [n][0] == n;
    StepsOfRender(rooted, st);
    SegmentsOfName(n);
    SegmentsConcat(p, n);
    PushAllAppend(rooted, [], Segments(p), [n]);
    PushOne(rooted, st, n);
    RenderNotEmpty(rooted, st);
    assert (p + "/" + n)[0] == p[0];
  }

  lemma RenderNotEmpty(rooted: bool, st: seq<string>)
    requires Canonical(rooted, st)
    ensures Render(rooted, st) != ""
  {
  }

  /** Walking a clean folder other than "." names every file inside it, so it starts with the folder;
      walking "." never does, unless the name itself starts with a dot. */
  lemma WalkStaysInside(folder: string, names: seq<string>)
    requires PathTrees.IsClean(folder) && FileNames(names) && names != []
    ensures folder != "." ==> Inside(Walked(folder, names), folder) && folder <= Walked(folder, names)
    ensures folder == "." ==> (folder <= Walked(folder, names) <==> names[0][0] == '.')
  {
    hide Canonical, Steps, Walked, JoinSegments;
    WalkedSteps(folder, names);
    PathTrees.CleanIsRender(folder);
    StepsOfEmpty(false);
    StepsOfEmpty(true);
    RenderEmpty();
    if Steps(folder) == [] {
      assert Steps(folder) + names == names;
      JoinNonEmpty(names);
    } else {
      RenderNotDot(IsRooted(folder), Steps(folder));
      JoinExtends(Steps(folder), names);
    }
  }

  lemma RenderEmpty()
    ensures Render(true, []) == "/" && Render(false, []) == "."
  {
  }

  lemma RenderNotDot(rooted: bool, st: seq<string>)
    requires Canonical(rooted, st) && st != []
    ensures Render(rooted, st) != "." && Render(rooted, st) != "/"
  {
  }

  lemma {:induction false} JoinExtends(a: seq<string>, b: seq<string>)
    requires a != [] && b != []
    ensures JoinSegments(a) + "/" <= JoinSegments(a + b)
  {
    var init := b[..|b| - 1];
    JoinSegmentsInit(a + b);
    assert (a + b)[..|a + b| - 1] == a + init;
    if init == [] {
      assert a + init == a;
    } else {
      JoinExtends(a, init);
    }
  }
}
