/** torrent/loader/db.go: three namespaces of records in one key-value store. */
module KeyStore {
  import opened Paths
  import PathTrees
  import opened Wrappers

  const ROUTE_ROOT := "/route/"
  const META_ROOT := "/meta/"
  const FILE_ROOT := "/file/"

  // ---------- Keys ----------

  /** path.Join of a root, a hash and a route. */
  function EntryKey(root: string, hash: string, route: string): string {
    Clean(root + "/" + hash + "/" + route)
  }

  function MetaKey(hash: string): string {
    Clean(META_ROOT + "/" + hash)
  }

  function RouteIn(key: string): string {
    Split(key).1
  }

  function HashIn(key: string): string {
    Split(Dir(key)).1
  }

  /** One whole path segment that cleaning keeps. */
  predicate IsSegment(s: string) {
    s != "" && '/' !in s && s != "." && s != ".."
  }

  predicate IsHexDigit(c: char) {
    '0' <= c <= '9' || 'a' <= c <= 'f' || 'A' <= c <= 'F'
  }

  /** What metainfo.Hash.FromHexString accepts. */
  predicate IsHexHash(h: string) {
    |h| == 40 && forall i | 0 <= i < |h| :: IsHexDigit(h[i])
  }

  lemma HexHashIsSegment(h: string)
    requires IsHexHash(h)
    ensures IsSegment(h)
  {
  }

  /** The root "/n/". */
  function RootOf(n: string): string {
    "/" + n + "/"
  }

  lemma PushTwo(rooted: bool, st: seq<string>, a: string, b: string)
    ensures PushAll(rooted, st, [a, b]) == Push(rooted, Push(rooted, st, a), b)
  {
    hide Push;
    assert [a, b] == [a] + [b];
    PushAllAppend(rooted, st, [a], [b]);
    PushOne(rooted, st, a);
    PushOne(rooted, Push(rooted, st, a), b);
  }

  lemma RootSegments(n: string)
    requires IsSegment(n)
    ensures Segments(RootOf(n)) == ["", n, ""] && PushAll(true, [], ["", n, ""]) == [n]
  {
    hide Segments, PushAll;
    SegmentsOfName("");
    SegmentsOfName(n);
    SegmentsConcat("", n);
    SegmentsTrailing("" + "/" + n);
    assert RootOf(n) == "" + "/" + n + "/";
    PushTwo(true, [], "", n);
    PushAllAppend(true, [], ["", n], [""]);
    PushOne(true, [n], "");
    assert ["", n, ""] == ["", n] + [""] && [] + [n] == [n];
  }

  lemma EntrySteps(n: string, hash: string, route: string)
    requires IsSegment(n) && IsSegment(hash)
    ensures IsRooted(RootOf(n) + "/" + hash + "/" + route)
    ensures Steps(RootOf(n) + "/" + hash + "/" + route) == PushAll(true, [n, hash], Segments(route))
  {
    hide Segments, PushAll;
    var head := RootOf(n) + "/" + hash;
    RootSegments(n);
    SegmentsOfName(hash);
    SegmentsConcat(RootOf(n), hash);
    SegmentsConcat(head, route);
    PushAllAppend(true, [], Segments(head), Segments(route));
    PushAllAppend(true, [], ["", n, ""], [hash]);
    PushOne(true, [n], hash);
    assert [n] + [hash] == [n, hash];
  }

  /** What EntryKey makes of proper parts. */
  lemma ProperEntry(n: string, hash: string, route: string)
    requires IsSegment(n) && IsSegment(hash) && IsSegment(route)
    ensures EntryKey(RootOf(n), hash, route) == RootOf(n) + hash + "/" + route
    ensures RouteIn(EntryKey(RootOf(n), hash, route)) == route && HashIn(EntryKey(RootOf(n), hash, route)) == hash
  {
    hide Segments, PushAll, JoinSegments;
    var st := [n, hash, route];
    EntrySteps(n, hash, route);
    SegmentsOfName(route);
    PushOne(true, [n, hash], route);
    assert st == [n, hash] + [route] && st[..2] == [n, hash] && st[..2][..1] == [n];
    JoinSegmentsInit(st);
    JoinSegmentsInit([n, hash]);
    PathTrees.JoinOne(n);
    assert EntryKey(RootOf(n), hash, route) == Render(true, st);
    DirOfRender(true, st);
    DirOfRender(true, [n, hash]);
  }

  lemma MetaSteps(x: string)
    requires IsSegment(x)
    ensures IsRooted(META_ROOT + "/" + x) && Steps(META_ROOT + "/" + x) == ["meta", x]
  {
    hide Segments, PushAll;
    assert META_ROOT == RootOf("meta");
    RootSegments("meta");
    SegmentsOfName(x);
    SegmentsConcat(META_ROOT, x);
    PushAllAppend(true, [], ["", "meta", ""], [x]);
    PushOne(true, ["meta"], x);
    assert ["meta"] + [x] == ["meta", x];
  }

  lemma ProperMeta(hash: string)
    requires IsSegment(hash)
    ensures MetaKey(hash) == META_ROOT + hash && RouteIn(MetaKey(hash)) == hash
  {
    hide Segments, PushAll, JoinSegments, Steps;
    var st := ["meta", hash];
    MetaSteps(hash);
    assert st[..1] == ["meta"];
    JoinSegmentsInit(st);
    PathTrees.JoinOne("meta");
    DirOfRender(true, st);
  }

  /** A route can be read back from its key exactly when it is one proper segment; then the hash can
      too. */
  lemma DecodesIffSegment(n: string, hash: string, route: string)
    requires IsSegment(n) && IsSegment(hash)
    ensures RouteIn(EntryKey(RootOf(n), hash, route)) == route <==> IsSegment(route)
    ensures IsSegment(route) ==> HashIn(EntryKey(RootOf(n), hash, route)) == hash
  {
    hide Segments, PushAll, JoinSegments;
    if IsSegment(route) {
      ProperEntry(n, hash, route);
    } else if '/' !in route {
      EntrySteps(n, hash, route);
      SegmentsOfName(route);
      PushOne(true, [n, hash], route);
      assert [n, hash][..1] == [n];
      DirOfRender(true, if route == ".." then [n] else [n, hash]);
    }
  }

  // ---------- Namespaces ----------

  /** How many ".." a relative path starts with. */
  function Ups(rel: seq<string>): (k: nat)
    ensures k <= |rel| && (forall i | 0 <= i < k :: rel[i] == "..") && (k < |rel| ==> rel[k] != "..")
  {
    if rel == [] || rel[0] != ".." then 0
    else
      var k := Ups(rel[1..]);
      assert forall i | 1 <= i < k + 1 :: rel[i] == rel[1..][i - 1];
      k + 1
  }

  /** What is left of `st` after going up `k` times. */
  function Up(st: seq<string>, k: nat): seq<string> {
    st[..if k < |st| then |st| - k else 0]
  }

  /** Going along a path from `st` is going up as often as the path's relative form does, and then down. */
  lemma {:induction false} UpThenDown(st: seq<string>, segs: seq<string>)
    requires Canonical(true, st) && forall i | 0 <= i < |segs| :: '/' !in segs[i]
    ensures var rel := PushAll(false, [], segs);
            PushAll(true, st, segs) == Up(st, Ups(rel)) + rel[Ups(rel)..]
  {
    hide Canonical, Up;
    if segs == [] {
      UpNone(st);
    } else {
      var init := segs[..|segs| - 1];
      UpThenDown(st, init);
      NothingCanonical();
      PushAllCanonical(false, [], init);
      OneStep(st, PushAll(false, [], init), segs[|segs| - 1]);
    }
  }

  lemma NothingCanonical()
    ensures Canonical(false, [])
  {
  }

  lemma UpNone(st: seq<string>)
    ensures Up(st, 0) + [] == st
  {
  }

  lemma UpsOf(rel: seq<string>, k: nat)
    requires k <= |rel| && (forall i | 0 <= i < k :: rel[i] == "..") && (k < |rel| ==> rel[k] != "..")
    ensures Ups(rel) == k
  {
  }

  /** The same for one more segment. */
  lemma OneStep(st: seq<string>, rel: seq<string>, seg: string)
    requires Canonical(true, st) && Canonical(false, rel)
    ensures var rel' := Push(false, rel, seg);
            Push(true, Up(st, Ups(rel)) + rel[Ups(rel)..], seg) == Up(st, Ups(rel')) + rel'[Ups(rel')..]
  {
    hide Canonical, Up, Ups;
    var k := Ups(rel);
    if seg == ".." {
      LastUp(rel);
      if k < |rel| {
        UpsOf(rel[..|rel| - 1], k);
        DropLast(Up(st, k), rel, k);
      } else {
        AllUps(rel);
        OneUp(st, k);
        assert rel[k..] == [] && (rel + [".."])[k + 1..] == [];
      }
    } else if seg != "" && seg != "." {
      UpsOf(rel + [seg], k);
      AddLast(Up(st, k), rel, k, seg);
    }
  }

  lemma DropLast(a: seq<string>, rel: seq<string>, k: nat)
    requires k < |rel|
    ensures var all := a + rel[k..];
            all[|all| - 1] == rel[|rel| - 1] && all[..|all| - 1] == a + rel[..|rel| - 1][k..]
  {
  }

  lemma AddLast(a: seq<string>, rel: seq<string>, k: nat, seg: string)
    requires k <= |rel|
    ensures a + rel[k..] + [seg] == a + (rel + [seg])[k..]
  {
  }

  lemma AllUps(rel: seq<string>)
    requires Ups(rel) == |rel|
    ensures Ups(rel + [".."]) == |rel| + 1 && (rel != [] ==> rel[|rel| - 1] == "..")
  {
    hide Ups;
    UpsOf(rel + [".."], |rel| + 1);
  }

  lemma OneUp(st: seq<string>, k: nat)
    requires Canonical(true, st)
    ensures Push(true, Up(st, k) + [], "..") == Up(st, k + 1) && Up(st, k + 1) + [] == Up(st, k + 1)
  {
  }

  /** A canonical relative path ends in ".." only if it is nothing else. */
  lemma LastUp(rel: seq<string>)
    requires Canonical(false, rel)
    ensures rel != [] && rel[|rel| - 1] == ".." ==> Ups(rel) == |rel|
  {
    hide Ups;
    if rel != [] && rel[|rel| - 1] == ".." {
      UpsOf(rel, |rel|);
    }
  }

  /** A rendered key lies under the root "/m/" exactly when it has a first segment m and another one. */
  lemma UnderRootIff(m: string, st: seq<string>)
    requires IsSegment(m) && Canonical(true, st)
    ensures RootOf(m) <= Render(true, st) <==> |st| >= 2 && st[0] == m
  {
    hide JoinSegments;
    if st == [] {
      assert Render(true, st) == "/" by { PathTrees.JoinNone(st); }
    } else if |st| == 1 {
      PathTrees.JoinOne(st[0]);
      assert st == [st[0]];
      NoSlashIn(m, "/" + st[0]);
    } else {
      PathTrees.JoinFirst(st);
      FirstSlash(m, st[0], JoinSegments(st[1..]));
    }
  }

  lemma NoSlashIn(m: string, key: string)
    requires forall i | 1 <= i < |key| :: key[i] != '/'
    ensures !(RootOf(m) <= key)
  {
    assert RootOf(m)[|m| + 1] == '/';
  }

  lemma FirstSlash(m: string, n: string, rest: string)
    requires '/' !in m && '/' !in n
    ensures RootOf(m) <= "/" + (n + "/" + rest) <==> m == n
  {
    var key := "/" + (n + "/" + rest);
    assert key[|n| + 1] == '/' && key[1..|n| + 1] == n;
    assert RootOf(m)[|m| + 1] == '/' && RootOf(m)[1..|m| + 1] == m;
    forall j | 1 <= j <= |n| ensures key[j] != '/' { assert key[j] == n[j - 1]; }
    forall j | 1 <= j <= |m| ensures RootOf(m)[j] != '/' { assert RootOf(m)[j] == m[j - 1]; }
    assert RootOf(m) <= key ==> |m| == |n|;
    if m == n { assert key == RootOf(m) + rest; }
  }

  /** Whether the key of an entry of namespace `n` lies in namespace `m`, told from the route alone. */
  predicate Lands(n: string, route: string, m: string) {
    var rel := PushAll(false, [], Segments(route));
    var k := Ups(rel);
    if k == 0 then m == n
    else if k == 1 then m == n && |rel| > 1
    else |rel| >= k + 2 && rel[k] == m
  }

  /** A key lies in a namespace exactly when its route stays below the hash, or climbs out of the hash and
      goes on, or climbs out of its own namespace and into that one. */
  lemma KeyLandsIff(n: string, m: string, hash: string, route: string)
    requires IsSegment(n) && IsSegment(m) && IsSegment(hash)
    ensures RootOf(m) <= EntryKey(RootOf(n), hash, route) <==> Lands(n, route, m)
  {
    hide Segments, PushAll, JoinSegments, Canonical, Ups;
    var st, rel := [n, hash], PushAll(false, [], Segments(route));
    TwoCanonical(n, hash);
    EntrySteps(n, hash, route);
    UpThenDown(st, Segments(route));
    PushAllCanonical(true, st, Segments(route));
    UnderRootIff(m, PushAll(true, st, Segments(route)));
    var k := Ups(rel);
    assert Up(st, k) == if k == 0 then [n, hash] else if k == 1 then [n] else [];
  }

  lemma TwoCanonical(n: string, hash: string)
    requires IsSegment(n) && IsSegment(hash)
    ensures Canonical(true, [n, hash])
  {
  }

  /** The family of routes that makes a magnet's key the key of one hash's metadata. */
  lemma RouteEscapes(hash: string, x: string)
    requires IsSegment(hash) && IsSegment(x)
    ensures EntryKey(ROUTE_ROOT, hash, "../../meta/" + x) == MetaKey(x)
  {
    hide Segments, PushAll, Steps;
    assert RootOf("route") == ROUTE_ROOT;
    EntrySteps("route", hash, "../../meta/" + x);
    EscapeSegments(x);
    EscapeSteps(hash, x);
    MetaSteps(x);
  }

  lemma EscapeSegments(x: string)
    requires IsSegment(x)
    ensures Segments("../../meta/" + x) == ["..", "..", "meta", x]
  {
    hide Segments;
    assert "../../meta/" + x == ".." + "/" + (".." + "/" + ("meta" + "/" + x));
    SegmentsConcat("..", ".." + "/" + ("meta" + "/" + x));
    SegmentsConcat("..", "meta" + "/" + x);
    SegmentsConcat("meta", x);
    SegmentsOfName("..");
    SegmentsOfName("meta");
    SegmentsOfName(x);
  }

  lemma EscapeSteps(hash: string, x: string)
    requires IsSegment(hash) && IsSegment(x)
    ensures PushAll(true, ["route", hash], ["..", "..", "meta", x]) == ["meta", x]
  {
    hide PushAll;
    PushAllAppend(true, ["route", hash], ["..", ".."], ["meta", x]);
    PushTwo(true, ["route", hash], "..", "..");
    PushTwo(true, [], "meta", x);
    assert ["..", ".."] + ["meta", x] == ["..", "..", "meta", x];
    assert ["route", hash][..1] == ["route"] && ["route"][..0] == [];
    assert [] + ["meta"] + [x] == ["meta", x];
  }

  // ---------- Records ----------

  /** What the keys stand for. */
  datatype Record = Magnet(hash: string, route: string) | TorrentFile(hash: string, route: string) | Meta(hash: string)

  predicate Proper(rec: Record) {
    IsSegment(rec.hash) && (rec.Meta? || IsSegment(rec.route))
  }

  function KeyOf(rec: Record): string {
    match rec
    case Magnet(h, r) => EntryKey(ROUTE_ROOT, h, r)
    case TorrentFile(h, r) => EntryKey(FILE_ROOT, h, r)
    case Meta(h) => MetaKey(h)
  }

  /** Reading a key the way the listings do. */
  function RecordOf(key: string): Record {
    if ROUTE_ROOT <= key then Magnet(HashIn(key), RouteIn(key))
    else if FILE_ROOT <= key then TorrentFile(HashIn(key), RouteIn(key))
    else Meta(RouteIn(key))
  }

  /** Encoding and decoding undo each other, so distinct records never share a key; a key has its
      own namespace's prefix and no other. */
  lemma KeyRoundTrip(rec: Record)
    requires Proper(rec)
    ensures RecordOf(KeyOf(rec)) == rec
    ensures ROUTE_ROOT <= KeyOf(rec) <==> rec.Magnet?
    ensures FILE_ROOT <= KeyOf(rec) <==> rec.TorrentFile?
    ensures META_ROOT <= KeyOf(rec) <==> rec.Meta?
    ensures KeyOf(rec) == match rec
                          case Magnet(h, r) => "/route/" + h + "/" + r
                          case TorrentFile(h, r) => "/file/" + h + "/" + r
                          case Meta(h) => "/meta/" + h
  {
    hide EntryKey, MetaKey, HashIn, RouteIn;
    match rec
    case Magnet(h, r) =>
      assert RootOf("route") == ROUTE_ROOT;
      ProperEntry("route", h, r);
      assert KeyOf(rec)[1] == 'r' && ROUTE_ROOT <= KeyOf(rec);
    case TorrentFile(h, r) =>
      assert RootOf("file") == FILE_ROOT;
      ProperEntry("file", h, r);
      assert KeyOf(rec)[1] == 'f' && FILE_ROOT <= KeyOf(rec);
    case Meta(h) =>
      ProperMeta(h);
      assert KeyOf(rec)[1] == 'm' && META_ROOT <= KeyOf(rec);
  }

  // ---------- The store and what it stands for ----------

  /** The store holds exactly the records, each under its key. */
  ghost predicate Represents(store: map<string, string>, recs: map<Record, string>) {
    && (forall rec | rec in recs :: Proper(rec) && KeyOf(rec) in store && store[KeyOf(rec)] == recs[rec])
    && forall k | k in store :: RecordOf(k) in recs && KeyOf(RecordOf(k)) == k
  }

  lemma NothingRepresentsNothing()
    ensures Represents(map[], map[])
  {
  }

  /** Writing a key writes its record. */
  lemma SetRefines(store: map<string, string>, recs: map<Record, string>, rec: Record, v: string)
    requires Represents(store, recs) && Proper(rec)
    ensures Represents(store[KeyOf(rec) := v], recs[rec := v])
  {
    hide KeyOf, RecordOf, Proper;
    KeyRoundTrip(rec);
    forall other | other in recs ensures KeyOf(other) == KeyOf(rec) ==> other == rec {
      KeyRoundTrip(other);
    }
  }

  /** Deleting a key deletes its record and no other. */
  lemma DeleteRefines(store: map<string, string>, recs: map<Record, string>, rec: Record)
    requires Represents(store, recs) && Proper(rec)
    ensures Represents(store - {KeyOf(rec)}, recs - {rec})
  {
    hide KeyOf, RecordOf, Proper;
    KeyRoundTrip(rec);
    forall other | other in recs ensures KeyOf(other) == KeyOf(rec) ==> other == rec {
      KeyRoundTrip(other);
    }
  }

  lemma GetRefines(store: map<string, string>, recs: map<Record, string>, rec: Record)
    requires Represents(store, recs) && Proper(rec)
    ensures KeyOf(rec) in store <==> rec in recs
    ensures rec in recs ==> store[KeyOf(rec)] == recs[rec]
  {
    KeyRoundTrip(rec);
  }

  datatype Op = Put(rec: Record, value: string) | Drop(rec: Record)

  function StoreAfter(ops: seq<Op>): map<string, string> {
    if ops == [] then map[]
    else
      var store := StoreAfter(ops[..|ops| - 1]);
      match ops[|ops| - 1]
      case Put(rec, v) => store[KeyOf(rec) := v]
      case Drop(rec) => store - {KeyOf(rec)}
  }

  function RecordsAfter(ops: seq<Op>): map<Record, string> {
    if ops == [] then map[]
    else
      var recs := RecordsAfter(ops[..|ops| - 1]);
      match ops[|ops| - 1]
      case Put(rec, v) => recs[rec := v]
      case Drop(rec) => recs - {rec}
  }

  /** After any writes and deletes of proper records the store holds exactly the records that a map
      of records would hold. */
  lemma {:induction false} RunsRefine(ops: seq<Op>)
    requires forall i | 0 <= i < |ops| :: Proper(ops[i].rec)
    ensures Represents(StoreAfter(ops), RecordsAfter(ops))
  {
    hide Represents, Proper, KeyOf;
    if ops == [] {
      NothingRepresentsNothing();
    } else {
      var init, last := ops[..|ops| - 1], ops[|ops| - 1];
      RunsRefine(init);
      if last.Put? {
        SetRefines(StoreAfter(init), RecordsAfter(init), last.rec, last.value);
      } else {
        DeleteRefines(StoreAfter(init), RecordsAfter(init), last.rec);
      }
    }
  }

  function KeysUnder(store: map<string, string>, root: string): set<string> {
    set k | k in store && root <= k
  }

  /** `groups` sorts the keys `ks` by the route they end in: each key once, in any order. */
  ghost predicate GroupsKeys(groups: map<string, seq<string>>, ks: set<string>) {
    && (forall r | r in groups :: groups[r] != [] && Distinct(groups[r]))
    && (forall r, k | r in groups && k in groups[r] :: k in ks && RouteIn(k) == r)
    && forall k | k in ks :: RouteIn(k) in groups && k in groups[RouteIn(k)]
  }

  predicate Distinct<T(==)>(s: seq<T>) {
    forall i, j | 0 <= i < j < |s| :: s[i] != s[j]
  }

  /** The values of a grouped listing. */
  ghost predicate Answers(out: map<string, seq<string>>, groups: map<string, seq<string>>, value: map<string, string>) {
    && out.Keys == groups.Keys
    && forall r | r in groups ::
         |out[r]| == |groups[r]| && forall i | 0 <= i < |groups[r]| ::
           groups[r][i] in value && out[r][i] == value[groups[r][i]]
  }

  // ---------- What the listings mean ----------

  function Entry(magnet: bool, hash: string, route: string): Record {
    if magnet then Magnet(hash, route) else TorrentFile(hash, route)
  }

  function EntryRoot(magnet: bool): string {
    if magnet then ROUTE_ROOT else FILE_ROOT
  }

  /** `hashes` gives each route that has entries the hashes of those entries, each once. */
  ghost predicate GroupsHashes(hashes: map<string, seq<string>>, recs: map<Record, string>, magnet: bool) {
    && (forall r | r in hashes :: hashes[r] != [] && Distinct(hashes[r]))
    && (forall r, h | r in hashes && h in hashes[r] :: Entry(magnet, h, r) in recs)
    && forall r, h | Entry(magnet, h, r) in recs :: r in hashes && h in hashes[r]
  }

  /** `out` gives the values of those entries, in the same places. */
  ghost predicate ListsValues(out: map<string, seq<string>>, hashes: map<string, seq<string>>,
                              recs: map<Record, string>, magnet: bool)
  {
    && out.Keys == hashes.Keys
    && forall r | r in hashes ::
         |out[r]| == |hashes[r]|
         && forall i | 0 <= i < |hashes[r]| ::
              Entry(magnet, hashes[r][i], r) in recs && out[r][i] == recs[Entry(magnet, hashes[r][i], r)]
  }

  function HashesOf(keys: seq<string>): (r: seq<string>)
    ensures |r| == |keys| && forall i | 0 <= i < |r| :: r[i] == HashIn(keys[i])
  {
    seq(|keys|, i requires 0 <= i < |keys| => HashIn(keys[i]))
  }

  ghost function HashesIn(groups: map<string, seq<string>>): map<string, seq<string>> {
    map r | r in groups :: HashesOf(groups[r])
  }

  /** A key found under a root is the key of the entry it is read as. */
  lemma KeyIsEntry(store: map<string, string>, recs: map<Record, string>, magnet: bool, k: string)
    requires Represents(store, recs) && k in KeysUnder(store, EntryRoot(magnet))
    ensures Entry(magnet, HashIn(k), RouteIn(k)) in recs && KeyOf(Entry(magnet, HashIn(k), RouteIn(k))) == k
    ensures recs[Entry(magnet, HashIn(k), RouteIn(k))] == store[k]
  {
    hide KeyOf, HashIn, RouteIn;
    assert k[1] == if magnet then 'r' else 'f';
  }

  lemma EntryHasKey(store: map<string, string>, recs: map<Record, string>, magnet: bool, h: string, r: string)
    requires Represents(store, recs) && Entry(magnet, h, r) in recs
    ensures var k := KeyOf(Entry(magnet, h, r));
            k in KeysUnder(store, EntryRoot(magnet)) && HashIn(k) == h && RouteIn(k) == r
  {
    hide KeyOf, HashIn, RouteIn;
    KeyRoundTrip(Entry(magnet, h, r));
  }

  lemma GroupingRefines(store: map<string, string>, recs: map<Record, string>, groups: map<string, seq<string>>,
                        magnet: bool)
    requires Represents(store, recs) && GroupsKeys(groups, KeysUnder(store, EntryRoot(magnet)))
    ensures GroupsHashes(HashesIn(groups), recs, magnet)
  {
    hide Represents, KeyOf, HashIn, RouteIn, KeysUnder, HashesOf;
    var hashes := HashesIn(groups);
    forall r | r in hashes ensures hashes[r] != [] && Distinct(hashes[r]) {
      forall i, j | 0 <= i < j < |hashes[r]| ensures hashes[r][i] != hashes[r][j] {
        assert groups[r][i] in groups[r] && groups[r][j] in groups[r];
        KeyIsEntry(store, recs, magnet, groups[r][i]);
        KeyIsEntry(store, recs, magnet, groups[r][j]);
      }
    }
    forall r, h | r in hashes && h in hashes[r] ensures Entry(magnet, h, r) in recs {
      var i :| 0 <= i < |hashes[r]| && hashes[r][i] == h;
      assert groups[r][i] in groups[r];
      KeyIsEntry(store, recs, magnet, groups[r][i]);
    }
    forall r, h | Entry(magnet, h, r) in recs ensures r in hashes && h in hashes[r] {
      EntryHasKey(store, recs, magnet, h, r);
      var k := KeyOf(Entry(magnet, h, r));
      var i :| 0 <= i < |groups[r]| && groups[r][i] == k;
      assert hashes[r][i] == h;
    }
  }

  lemma ValuesRefine(store: map<string, string>, recs: map<Record, string>, groups: map<string, seq<string>>,
                     out: map<string, seq<string>>, magnet: bool)
    requires Represents(store, recs) && GroupsKeys(groups, KeysUnder(store, EntryRoot(magnet)))
             && Answers(out, groups, store)
    ensures ListsValues(out, HashesIn(groups), recs, magnet)
  {
    hide Represents, KeyOf, HashIn, RouteIn, KeysUnder, HashesOf;
    forall r, i | r in groups && 0 <= i < |groups[r]|
      ensures Entry(magnet, HashesIn(groups)[r][i], r) in recs
      ensures out[r][i] == recs[Entry(magnet, HashesIn(groups)[r][i], r)]
    {
      assert groups[r][i] in groups[r];
      KeyIsEntry(store, recs, magnet, groups[r][i]);
    }
  }

  lemma ListsHashes(groups: map<string, seq<string>>, out: map<string, seq<string>>, ks: set<string>)
    requires Answers(out, groups, map k | k in ks :: HashIn(k))
    ensures out == HashesIn(groups)
  {
    hide HashIn, HashesOf;
    forall r | r in groups ensures out[r] == HashesOf(groups[r]) {
    }
  }

  function Grown(groups: map<string, seq<string>>, r: string, x: string): map<string, seq<string>> {
    groups[r := (if r in groups then groups[r] else []) + [x]]
  }

  lemma CollectOne(groups: map<string, seq<string>>, done: set<string>, k: string)
    requires GroupsKeys(groups, done) && k !in done
    ensures GroupsKeys(Grown(groups, RouteIn(k), k), done + {k})
  {
    hide RouteIn;
    var r := RouteIn(k);
    var after := Grown(groups, r, k);
    assert r in groups ==> k !in groups[r];
    assert after[r][|after[r]| - 1] == k;
    forall q | q in done + {k} ensures RouteIn(q) in after && q in after[RouteIn(q)] {
      if q != k { assert q in groups[RouteIn(q)]; }
    }
  }

  lemma AnswerOne(out: map<string, seq<string>>, groups: map<string, seq<string>>, value: map<string, string>,
                  r: string, k: string)
    requires Answers(out, groups, value) && k in value
    ensures Answers(Grown(out, r, value[k]), Grown(groups, r, k), value)
  {
  }

  class DB {
    var store: map<string, string>

    constructor ()
      ensures store == map[]
    {
      store := map[];
    }

    /** `hash` is what parsing the magnet gives, if it parses. */
    method AddMagnet(route: string, magnet: string, hash: Option<string>) returns (ok: bool)
      modifies this
      ensures ok == hash.Some?
      ensures store == if ok then old(store)[KeyOf(Magnet(hash.value, route)) := magnet] else old(store)
    {
      if hash.None? {
        return false;
      }
      store := store[EntryKey(ROUTE_ROOT, hash.value, route) := magnet];
      return true;
    }

    /** Deleting a key that is not there succeeds as well. */
    method RemoveFromHash(route: string, h: string) returns (deleted: Option<bool>)
      modifies this
      ensures deleted == if IsHexHash(h) then Some(true) else None
      ensures deleted.Some? <==> |h| == 40 && forall i | 0 <= i < |h| :: h[i] in "0123456789abcdefABCDEF"
      ensures store == if IsHexHash(h) then old(store) - {KeyOf(Magnet(h, route))} else old(store)
    {
      if !IsHexHash(h) {
        return None;
      }
      store := store - {EntryKey(ROUTE_ROOT, h, route)};
      return Some(true);
    }

    method SetMeta(hash: string, meta: string)
      modifies this
      ensures store == old(store)[KeyOf(Meta(hash)) := meta]
    {
      store := store[MetaKey(hash) := meta];
    }

    method GetMeta(hash: string) returns (meta: Option<string>)
      ensures meta == if KeyOf(Meta(hash)) in store then Some(store[KeyOf(Meta(hash))]) else None
    {
      if MetaKey(hash) !in store {
        return None;
      }
      return Some(store[MetaKey(hash)]);
    }

    method DeleteMeta(hash: string)
      modifies this
      ensures store == old(store) - {KeyOf(Meta(hash))}
    {
      store := store - {MetaKey(hash)};
    }

    method AddTorrentFile(route: string, hash: string, file: string)
      modifies this
      ensures store == old(store)[KeyOf(TorrentFile(hash, route)) := file]
    {
      store := store[EntryKey(FILE_ROOT, hash, route) := file];
    }

    method RemoveTorrentFile(route: string, hash: string)
      modifies this
      ensures store == old(store) - {KeyOf(TorrentFile(hash, route))}
    {
      store := store - {EntryKey(FILE_ROOT, hash, route)};
    }

    method ListMagnets() returns (out: map<string, seq<string>>)
      ensures exists groups :: GroupsKeys(groups, KeysUnder(store, ROUTE_ROOT)) && Answers(out, groups, store)
      ensures forall recs | Represents(store, recs) :: exists hashes ::
                GroupsHashes(hashes, recs, true) && ListsValues(out, hashes, recs, true)
    {
      hide GroupsKeys, Answers, GroupsHashes, ListsValues, Represents, HashesIn, KeysUnder;
      KeysUnderStored(store, ROUTE_ROOT);
      ghost var groups;
      out, groups := Collect(KeysUnder(store, ROUTE_ROOT), store);
      forall recs | Represents(store, recs)
        ensures exists hashes :: GroupsHashes(hashes, recs, true) && ListsValues(out, hashes, recs, true)
      {
        GroupingRefines(store, recs, groups, true);
        ValuesRefine(store, recs, groups, out, true);
      }
    }

    method ListTorrentPaths() returns (out: map<string, seq<string>>)
      ensures exists groups :: GroupsKeys(groups, KeysUnder(store, FILE_ROOT)) && Answers(out, groups, store)
      ensures forall recs | Represents(store, recs) :: exists hashes ::
                GroupsHashes(hashes, recs, false) && ListsValues(out, hashes, recs, false)
    {
      hide GroupsKeys, Answers, GroupsHashes, ListsValues, Represents, HashesIn, KeysUnder;
      KeysUnderStored(store, FILE_ROOT);
      ghost var groups;
      out, groups := Collect(KeysUnder(store, FILE_ROOT), store);
      forall recs | Represents(store, recs)
        ensures exists hashes :: GroupsHashes(hashes, recs, false) && ListsValues(out, hashes, recs, false)
      {
        GroupingRefines(store, recs, groups, false);
        ValuesRefine(store, recs, groups, out, false);
      }
    }

    method ListMagnetHashesByRoute() returns (out: map<string, seq<string>>)
      ensures exists groups :: GroupsKeys(groups, KeysUnder(store, EntryRoot(true))) && out == HashesIn(groups)
      ensures forall recs | Represents(store, recs) :: GroupsHashes(out, recs, true)
    {
      out := ListHashes(true);
    }

    method ListFileHashesByRoute() returns (out: map<string, seq<string>>)
      ensures exists groups :: GroupsKeys(groups, KeysUnder(store, EntryRoot(false))) && out == HashesIn(groups)
      ensures forall recs | Represents(store, recs) :: GroupsHashes(out, recs, false)
    {
      out := ListHashes(false);
    }

    /** The loop both hash listings run. */
    method ListHashes(magnet: bool) returns (out: map<string, seq<string>>)
      ensures exists groups :: GroupsKeys(groups, KeysUnder(store, EntryRoot(magnet))) && out == HashesIn(groups)
      ensures forall recs | Represents(store, recs) :: GroupsHashes(out, recs, magnet)
    {
      hide GroupsKeys, Answers, GroupsHashes, Represents, HashesIn, KeysUnder;
      var ks := KeysUnder(store, EntryRoot(magnet));
      ghost var groups;
      out, groups := Collect(ks, map k | k in ks :: HashIn(k));
      ListsHashes(groups, out, ks);
      forall recs | Represents(store, recs) ensures GroupsHashes(out, recs, magnet) {
        GroupingRefines(store, recs, groups, magnet);
      }
    }

    /** The iterator loop: every key in turn, its value appended under its route. */
    method Collect(ks: set<string>, value: map<string, string>)
      returns (out: map<string, seq<string>>, ghost groups: map<string, seq<string>>)
      requires ks <= value.Keys
      ensures GroupsKeys(groups, ks) && Answers(out, groups, value)
    {
      hide GroupsKeys, Answers, RouteIn, Grown;
      out, groups := map[], map[];
      var todo := ks;
      ghost var done: set<string> := {};
      StartCollecting(value);
      while todo != {}
        invariant todo <= ks && done == ks - todo && GroupsKeys(groups, done) && Answers(out, groups, value)
        decreases |todo|
      {
        var k :| k in todo;
        CollectOne(groups, done, k);
        AnswerOne(out, groups, value, RouteIn(k), k);
        out, groups := Grown(out, RouteIn(k), value[k]), Grown(groups, RouteIn(k), k);
        todo, done := todo - {k}, done + {k};
      }
      assert done == ks;
    }

    /** Each hash with its metadata. */
    method GetAllMeta() returns (out: map<string, string>)
      ensures forall k | k in KeysUnder(store, META_ROOT) :: RouteIn(k) in out
      ensures forall h | h in out ::
                exists k :: k in KeysUnder(store, META_ROOT) && k in store && RouteIn(k) == h && out[h] == store[k]
      ensures forall recs | Represents(store, recs) :: IsMetaOf(out, recs)
    {
      hide KeysUnder, RouteIn, Represents, IsMetaOf;
      var ks := KeysUnder(store, META_ROOT);
      KeysUnderStored(store, META_ROOT);
      out := map[];
      var todo := ks;
      ghost var from: map<string, string> := map[];
      while todo != {}
        invariant todo <= ks && out.Keys == from.Keys
        invariant forall h | h in from :: from[h] in ks && RouteIn(from[h]) == h && out[h] == store[from[h]]
        invariant forall k | k in ks && k !in todo :: RouteIn(k) in out
        decreases |todo|
      {
        var k :| k in todo;
        out := out[RouteIn(k) := store[k]];
        from := from[RouteIn(k) := k];
        todo := todo - {k};
      }
      forall recs | Represents(store, recs) ensures IsMetaOf(out, recs) {
        MetaRefines(store, recs, out, from);
      }
    }
  }

  ghost predicate IsMetaOf(out: map<string, string>, recs: map<Record, string>) {
    && (forall h | h in out :: Meta(h) in recs && out[h] == recs[Meta(h)])
    && forall h | Meta(h) in recs :: h in out
  }

  lemma KeysUnderStored(store: map<string, string>, root: string)
    ensures KeysUnder(store, root) <= store.Keys
  {
  }

  lemma StartCollecting(value: map<string, string>)
    ensures GroupsKeys(map[], {}) && Answers(map[], map[], value)
  {
  }

  lemma KeyIsMeta(store: map<string, string>, recs: map<Record, string>, k: string)
    requires Represents(store, recs) && k in KeysUnder(store, META_ROOT)
    ensures k in store && Meta(RouteIn(k)) in recs && recs[Meta(RouteIn(k))] == store[k]
  {
    hide KeyOf, HashIn, RouteIn;
    assert k[1] == 'm';
  }

  lemma MetaHasKey(store: map<string, string>, recs: map<Record, string>, h: string)
    requires Represents(store, recs) && Meta(h) in recs
    ensures KeyOf(Meta(h)) in KeysUnder(store, META_ROOT) && RouteIn(KeyOf(Meta(h))) == h
  {
    hide KeyOf, HashIn, RouteIn;
    KeyRoundTrip(Meta(h));
  }

  lemma MetaRefines(store: map<string, string>, recs: map<Record, string>, out: map<string, string>,
                    from: map<string, string>)
    requires Represents(store, recs) && out.Keys == from.Keys
    requires forall h | h in from ::
               from[h] in KeysUnder(store, META_ROOT) && RouteIn(from[h]) == h && out[h] == store[from[h]]
    requires forall k | k in KeysUnder(store, META_ROOT) :: RouteIn(k) in out
    ensures IsMetaOf(out, recs)
  {
    hide RouteIn, HashIn, KeyOf, Represents, RecordOf, KeysUnder;
    forall h | h in out ensures Meta(h) in recs && out[h] == recs[Meta(h)] {
      KeyIsMeta(store, recs, from[h]);
    }
    forall h | Meta(h) in recs ensures h in out {
      MetaHasKey(store, recs, h);
    }
  }
}
