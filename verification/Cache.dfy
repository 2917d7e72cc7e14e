/**
 `ResponseCache` of gateway/middleware/cache.py. The md5 digest is taken to be injective, so
 a cache key is the string it is computed from. The monotonic clock is an argument.
 */
module ResponseCaching {
  import opened Wrappers
  import opened Sequences

  datatype Path = Path(text: string) {
    /** The requests the gateway serves have no '?' left in the path. */
    predicate Plain() {
      '?' !in text
    }
    predicate StartsWith(prefix: Path) {
      prefix.text <= text
    }
  }

  datatype CacheKey = CacheKey(raw: string)

  datatype Entry = Entry(body: seq<int>, status: int, headers: map<string, string>, createdAt: real) {
    predicate Expired(ttl: real, now: real) {
      now - createdAt > ttl
    }
  }

  function MakeKey(path: Path, query: string): CacheKey {
    if query != "" then CacheKey("GET:" + path.text + "?" + query) else CacheKey("GET:" + path.text)
  }

  // ---------------------------------------------------------------------------
  // Keys
  // ---------------------------------------------------------------------------

  /** The text before the first '?', which is all of it when there is none. */
  ghost function BeforeQuery(raw: string): string {
    if raw == "" || raw[0] == '?' then "" else [raw[0]] + BeforeQuery(raw[1..])
  }

  lemma {:induction false} BeforeQueryOf(path: string, rest: string)
    requires '?' !in path && (rest == "" || rest[0] == '?')
    ensures BeforeQuery(path + rest) == path
  {
    if path == "" {
      assert path + rest == rest;
    } else {
      assert path == [path[0]] + path[1..];
      assert (path + rest)[1..] == path[1..] + rest;
      BeforeQueryOf(path[1..], rest);
    }
  }

  lemma {:induction false} BeforeQuerySplits(raw: string)
    ensures
      var before := BeforeQuery(raw);
      && '?' !in before && |before| <= |raw| && raw[..|before|] == before
      && ('?' in raw <==> |before| < |raw|)
      && (|before| < |raw| ==> raw[|before|] == '?')
  {
    if raw != "" && raw[0] != '?' {
      BeforeQuerySplits(raw[1..]);
      assert raw == [raw[0]] + raw[1..];
    }
  }

  /** What the request line holds after the path. */
  function Suffix(query: string): string {
    if query != "" then "?" + query else ""
  }

  lemma SameKeyIff(p1: Path, q1: string, p2: Path, q2: string)
    ensures MakeKey(p1, q1) == MakeKey(p2, q2) <==> p1.text + Suffix(q1) == p2.text + Suffix(q2)
  {
    assert MakeKey(p1, q1).raw == "GET:" + (p1.text + Suffix(q1));
    assert MakeKey(p2, q2).raw == "GET:" + (p2.text + Suffix(q2));
    assert MakeKey(p1, q1).raw[4..] == p1.text + Suffix(q1);
    assert MakeKey(p2, q2).raw[4..] == p2.text + Suffix(q2);
  }

  lemma SuffixDetermines(q1: string, q2: string)
    requires Suffix(q1) == Suffix(q2)
    ensures q1 == q2
  {
    assert q1 != "" ==> q1 == Suffix(q1)[1..];
    assert q2 != "" ==> q2 == Suffix(q2)[1..];
  }

  /** Two '?'-free requests share a key only when they are the same request. */
  lemma KeysDiffer(p1: Path, q1: string, p2: Path, q2: string)
    requires p1.Plain() && p2.Plain() && MakeKey(p1, q1) == MakeKey(p2, q2)
    ensures p1 == p2 && q1 == q2
  {
    SameKeyIff(p1, q1, p2, q2);
    BeforeQueryOf(p1.text, Suffix(q1));
    BeforeQueryOf(p2.text, Suffix(q2));
    assert Suffix(q1) == (p1.text + Suffix(q1))[|p1.text|..] == Suffix(q2);
    SuffixDetermines(q1, q2);
  }

  /** With a '?' in the path, different requests collide. */
  lemma KeysCollide()
    ensures MakeKey(Path("/a?b"), "") == MakeKey(Path("/a"), "b")
  {
  }

  /** A different request, with a '?'-free path, that is cached under the same key. */
  ghost predicate Impersonates(p2: Path, q2: string, p: Path, q: string) {
    p2.Plain() && (p2 != p || q2 != q) && MakeKey(p2, q2) == MakeKey(p, q)
  }

  lemma CutAtQuery(text: string, suffix: string)
    requires '?' in text
    ensures |BeforeQuery(text)| < |text|
    ensures
      var query := text[|BeforeQuery(text)| + 1..] + suffix;
      query != "" ==> text + suffix == BeforeQuery(text) + Suffix(query)
  {
    BeforeQuerySplits(text);
    CutAt(text, |BeforeQuery(text)|, suffix);
  }

  lemma CutAt(text: string, k: nat, suffix: string)
    requires k < |text|
    ensures text + suffix == text[..k] + ([text[k]] + (text[k + 1..] + suffix))
  {
  }

  lemma Impersonator(p: Path, q: string)
    requires '?' in p.text && (q != "" || |BeforeQuery(p.text)| + 1 < |p.text|)
    ensures exists p2, q2 :: Impersonates(p2, q2, p, q)
  {
    CutAtQuery(p.text, Suffix(q));
    BeforeQuerySplits(p.text);
    var p2, q2 := Path(BeforeQuery(p.text)), p.text[|BeforeQuery(p.text)| + 1..] + Suffix(q);
    SameKeyIff(p2, q2, p, q);
    assert Impersonates(p2, q2, p, q);
  }

  lemma ImpersonatedOnlyIf(p2: Path, q2: string, p: Path, q: string)
    requires Impersonates(p2, q2, p, q)
    ensures '?' in p.text && (q != "" || |BeforeQuery(p.text)| + 1 < |p.text|)
  {
    SameKeyIff(p2, q2, p, q);
    if p.Plain() {
      KeysDiffer(p2, q2, p, q);
    } else if q == "" {
      BeforeQuerySplits(p.text);
      BeforeQueryOf(p2.text, Suffix(q2));
      assert p.text + Suffix(q) == p.text;
    }
  }

  /** Exactly the requests with a '?' in the path, and something after it, collide with a '?'-free request. */
  lemma CollidesIff(p: Path, q: string)
    ensures (exists p2, q2 :: Impersonates(p2, q2, p, q)) <==>
            '?' in p.text && (q != "" || |BeforeQuery(p.text)| + 1 < |p.text|)
  {
    if p2, q2 :| Impersonates(p2, q2, p, q) {
      ImpersonatedOnlyIf(p2, q2, p, q);
    }
    if '?' in p.text && (q != "" || |BeforeQuery(p.text)| + 1 < |p.text|) {
      Impersonator(p, q);
    }
  }

  // ---------------------------------------------------------------------------
  // The plain history
  // ---------------------------------------------------------------------------

  datatype Op =
    | Put(path: Path, query: string, entry: Entry)
    | InvalidateAll
    | InvalidatePrefix(prefix: Path)
    | Evict(key: CacheKey)
    | Lapse(key: CacheKey, at: real)

  datatype Origin = Origin(path: Path, query: string) {
    function Key(): CacheKey {
      MakeKey(path, query)
    }
  }

  /** What became of a request's response: kept, evicted for room, or dropped as expired at some time. */
  datatype Standing = Absent | Kept(entry: Entry) | Evicted(entry: Entry) | Lapsed(entry: Entry, at: real)

  ghost function Next(standing: Standing, op: Op, o: Origin): Standing {
    match op
    case Put(path, query, entry) => if Origin(path, query) == o then Kept(entry) else standing
    case InvalidateAll => Absent
    case InvalidatePrefix(prefix) => if o.path.StartsWith(prefix) then Absent else standing
    case Evict(key) => if key == o.Key() && standing.Kept? then Evicted(standing.entry) else standing
    case Lapse(key, at) => if key == o.Key() && standing.Kept? then Lapsed(standing.entry, at) else standing
  }

  ghost function StandingOf(history: seq<Op>, o: Origin): Standing {
    if history == [] then Absent else Next(StandingOf(history[..|history| - 1], o), history[|history| - 1], o)
  }

  lemma StandingSnoc(history: seq<Op>, op: Op, o: Origin)
    ensures StandingOf(history + [op], o) == Next(StandingOf(history, o), op, o)
  {
    assert (history + [op])[..|history|] == history;
  }

  /** The operation is about the request: its put, an invalidation that covers its path, or the removal of its key. */
  ghost predicate Concerns(op: Op, o: Origin) {
    match op
    case Put(path, query, _) => path == o.path && query == o.query
    case InvalidateAll => true
    case InvalidatePrefix(prefix) => |prefix.text| <= |o.path.text| && o.path.text[..|prefix.text|] == prefix.text
    case Evict(key) => key == o.Key()
    case Lapse(key, _) => key == o.Key()
  }

  /** `entry` was put for the request, and nothing that concerns the request happened since. */
  ghost predicate LatestPut(history: seq<Op>, o: Origin, entry: Entry) {
    exists i: nat :: PutAt(history, o, entry, i) && forall j :: i < j < |history| ==> !Concerns(history[j], o)
  }

  ghost predicate PutAt(history: seq<Op>, o: Origin, entry: Entry, i: nat) {
    i < |history| && history[i] == Put(o.path, o.query, entry)
  }

  lemma OwnersKnown(cache: Entries, origins: Origins, history: seq<Op>)
    ensures Coherent(cache, origins, history) ==> forall k :: k in cache ==> k in origins
  {
    if Coherent(cache, origins, history) {
      forall k | k in cache ensures k in origins {
        assert Current(cache, origins, history, k);
      }
    }
  }

  lemma PrefixText(o: Origin, prefix: Path)
    ensures o.path.StartsWith(prefix) <==> |prefix.text| <= |o.path.text| && o.path.text[..|prefix.text|] == prefix.text
  {
  }

  lemma LatestSnoc(history: seq<Op>, op: Op, o: Origin, entry: Entry)
    ensures LatestPut(history + [op], o, entry) <==>
            op == Put(o.path, o.query, entry) || (LatestPut(history, o, entry) && !Concerns(op, o))
  {
    var longer := history + [op];
    if i: nat :| PutAt(longer, o, entry, i) && forall j :: i < j < |longer| ==> !Concerns(longer[j], o) {
      if i < |history| {
        assert !Concerns(longer[|history|], o);
        assert PutAt(history, o, entry, i);
        forall j | i < j < |history| ensures !Concerns(history[j], o) {
          assert longer[j] == history[j];
        }
      }
    }
    if op == Put(o.path, o.query, entry) {
      assert PutAt(longer, o, entry, |history|);
    } else if LatestPut(history, o, entry) && !Concerns(op, o) {
      var i: nat :| PutAt(history, o, entry, i) && forall j :: i < j < |history| ==> !Concerns(history[j], o);
      assert PutAt(longer, o, entry, i);
    }
  }

  lemma NextConcerns(standing: Standing, op: Op, o: Origin, entry: Entry)
    ensures Next(standing, op, o) == Kept(entry) <==>
            op == Put(o.path, o.query, entry) || (standing == Kept(entry) && !Concerns(op, o))
  {
    if op.InvalidatePrefix? {
      PrefixText(o, op.prefix);
    }
  }

  /** A response is kept exactly when it was the latest put of its request and nothing touched the request since. */
  lemma {:induction false} KeptIffLatest(history: seq<Op>, o: Origin, entry: Entry)
    ensures StandingOf(history, o) == Kept(entry) <==> LatestPut(history, o, entry)
  {
    if history != [] {
      var front, op := history[..|history| - 1], history[|history| - 1];
      KeptIffLatest(front, o, entry);
      LatestSnoc(front, op, o, entry);
      NextConcerns(StandingOf(front, o), op, o, entry);
      assert history == front + [op];
    }
  }

  type Entries = map<CacheKey, Entry>
  type Index = map<Path, set<CacheKey>>
  type Origins = map<CacheKey, Origin>

  /** Every cached entry is the latest one of the request it belongs to. */
  ghost predicate Coherent(cache: Entries, origins: Origins, history: seq<Op>) {
    forall k :: Current(cache, origins, history, k)
  }

  ghost predicate Current(cache: Entries, origins: Origins, history: seq<Op>, k: CacheKey) {
    k in cache ==>
      && k in origins
      && origins[k].path.Plain()
      && k == origins[k].Key()
      && cache[k].status < 400
      && StandingOf(history, origins[k]) == Kept(cache[k])
  }

  /** Every response that should be kept is cached, and none was dropped as expired before its time. */
  ghost predicate Complete(cache: Entries, history: seq<Op>, ttl: real) {
    forall o: Origin :: o.path.Plain() ==> Accounted(cache, history, ttl, o)
  }

  ghost predicate Accounted(cache: Entries, history: seq<Op>, ttl: real, o: Origin) {
    match StandingOf(history, o)
    case Kept(_) => o.Key() in cache
    case Lapsed(entry, at) => entry.Expired(ttl, at)
    case _ => true
  }

  /** The path index is the partition of the cached keys by path, with no empty class. */
  ghost predicate Partitioned(cache: Entries, origins: Origins, index: Index) {
    forall p :: ClassExact(cache, origins, index, p)
  }

  ghost predicate ClassExact(cache: Entries, origins: Origins, index: Index, p: Path) {
    ClassOf(index, p) == KeysOf(cache, origins, p) && (p in index ==> index[p] != {})
  }

  function ClassOf(index: Index, path: Path): set<CacheKey> {
    if path in index then index[path] else {}
  }

  /** The cached keys of a path. */
  ghost function KeysOf(cache: Entries, origins: Origins, p: Path): set<CacheKey> {
    set k | k in cache && k in origins && origins[k].path == p
  }

  /** What every operation keeps. */
  ghost predicate Sound(cache: Entries, index: Index, origins: Origins, history: seq<Op>, ttl: real, maxEntries: int) {
    && Coherent(cache, origins, history)
    && Complete(cache, history, ttl)
    && Partitioned(cache, origins, index)
    && |cache| <= if maxEntries > 0 then maxEntries else 0
  }

  /** `_remove_from_index` as a value: the key is gone, and so are classes it leaves empty. */
  ghost function IndexWithout(index: Index, key: CacheKey): Index {
    map p | p in index && Discard(index[p], key) != {} :: Discard(index[p], key)
  }

  lemma RemoveKeepsPartition(cache: Entries, origins: Origins, index: Index, key: CacheKey)
    requires Partitioned(cache, origins, index)
    ensures Partitioned(cache - {key}, origins, IndexWithout(index, key))
  {
    var rest, without := cache - {key}, IndexWithout(index, key);
    forall p ensures ClassExact(rest, origins, without, p) {
      assert ClassExact(cache, origins, index, p);
      assert KeysOf(rest, origins, p) == Discard(KeysOf(cache, origins, p), key);
      assert ClassOf(without, p) == Discard(ClassOf(index, p), key);
    }
  }

  lemma StoreKeepsPartition(cache: Entries, origins: Origins, index: Index, key: CacheKey, entry: Entry, o: Origin)
    requires Partitioned(cache, origins, index)
    requires key in cache ==> key in origins && origins[key].path == o.path
    ensures Partitioned(cache[key := entry], origins[key := o], index[o.path := ClassOf(index, o.path) + {key}])
  {
    var grown, owned, larger := cache[key := entry], origins[key := o], index[o.path := ClassOf(index, o.path) + {key}];
    forall p ensures ClassExact(grown, owned, larger, p) {
      assert ClassExact(cache, origins, index, p);
      if p == o.path {
        assert KeysOf(grown, owned, p) == KeysOf(cache, origins, p) + {key};
      } else {
        assert KeysOf(grown, owned, p) == KeysOf(cache, origins, p);
      }
    }
  }

  lemma PutKeepsCoherent(cache: Entries, origins: Origins, history: seq<Op>, path: Path, query: string, entry: Entry)
    requires Coherent(cache, origins, history) && path.Plain() && entry.status < 400
    ensures
      var key := MakeKey(path, query);
      Coherent(cache[key := entry], origins[key := Origin(path, query)], history + [Put(path, query, entry)])
  {
    var key, op := MakeKey(path, query), Put(path, query, entry);
    StandingSnoc(history, op, Origin(path, query));
    var grown, owned := cache[key := entry], origins[key := Origin(path, query)];
    forall k ensures Current(grown, owned, history + [op], k) {
      assert Current(cache, origins, history, k);
      if k in cache && k != key {
        StandingSnoc(history, op, origins[k]);
      }
    }
  }

  lemma PutKeepsComplete(cache: Entries, history: seq<Op>, ttl: real, path: Path, query: string, entry: Entry)
    requires Complete(cache, history, ttl)
    ensures Complete(cache[MakeKey(path, query) := entry], history + [Put(path, query, entry)], ttl)
  {
    var grown, op := cache[MakeKey(path, query) := entry], Put(path, query, entry);
    forall o: Origin | o.path.Plain() ensures Accounted(grown, history + [op], ttl, o) {
      assert Accounted(cache, history, ttl, o);
      StandingSnoc(history, op, o);
    }
  }

  lemma StoreIsSound(cache: Entries, index: Index, origins: Origins, history: seq<Op>, ttl: real, maxEntries: int,
                     path: Path, query: string, entry: Entry)
    requires Sound(cache, index, origins, history, ttl, maxEntries) && path.Plain() && entry.status < 400
    requires MakeKey(path, query) in cache || |cache| < maxEntries
    ensures
      var key := MakeKey(path, query);
      Sound(cache[key := entry], index[path := ClassOf(index, path) + {key}], origins[key := Origin(path, query)],
            history + [Put(path, query, entry)], ttl, maxEntries)
  {
    var key := MakeKey(path, query);
    PutKeepsCoherent(cache, origins, history, path, query, entry);
    PutKeepsComplete(cache, history, ttl, path, query, entry);
    if key in cache {
      assert Current(cache, origins, history, key);
      KeysDiffer(path, query, origins[key].path, origins[key].query);
    }
    StoreKeepsPartition(cache, origins, index, key, entry, Origin(path, query));
    assert cache[key := entry].Keys == cache.Keys + {key};
  }

  /** A removal that the history may record: an eviction, or the dropping of an expired entry. */
  ghost predicate Removes(op: Op, key: CacheKey, entry: Entry, ttl: real) {
    op == Evict(key) || (op.Lapse? && op.key == key && entry.Expired(ttl, op.at))
  }

  lemma RemoveKeepsCoherent(cache: Entries, origins: Origins, history: seq<Op>, ttl: real, key: CacheKey, op: Op)
    requires Coherent(cache, origins, history) && key in cache && Removes(op, key, cache[key], ttl)
    ensures Coherent(cache - {key}, origins, history + [op])
  {
    forall k ensures Current(cache - {key}, origins, history + [op], k) {
      assert Current(cache, origins, history, k);
      if k in cache && k != key {
        StandingSnoc(history, op, origins[k]);
      }
    }
  }

  /** The standing of a plain request whose key is cached is the cached entry. */
  lemma CachedIsKept(cache: Entries, origins: Origins, history: seq<Op>, o: Origin)
    requires Coherent(cache, origins, history) && o.path.Plain() && o.Key() in cache
    ensures StandingOf(history, o) == Kept(cache[o.Key()])
    ensures o.Key() in origins && origins[o.Key()] == o
  {
    var k := o.Key();
    assert Current(cache, origins, history, k);
    KeysDiffer(o.path, o.query, origins[k].path, origins[k].query);
  }

  lemma RemoveKeepsComplete(cache: Entries, origins: Origins, history: seq<Op>, ttl: real, key: CacheKey, op: Op)
    requires Coherent(cache, origins, history) && Complete(cache, history, ttl)
    requires key in cache && Removes(op, key, cache[key], ttl)
    ensures Complete(cache - {key}, history + [op], ttl)
  {
    forall o: Origin | o.path.Plain() ensures Accounted(cache - {key}, history + [op], ttl, o) {
      assert Accounted(cache, history, ttl, o);
      StandingSnoc(history, op, o);
      if o.Key() == key {
        CachedIsKept(cache, origins, history, o);
      }
    }
  }

  lemma RemoveIsSound(cache: Entries, index: Index, origins: Origins, history: seq<Op>, ttl: real, maxEntries: int,
                      key: CacheKey, op: Op)
    requires Sound(cache, index, origins, history, ttl, maxEntries) && key in cache && Removes(op, key, cache[key], ttl)
    ensures Sound(cache - {key}, IndexWithout(index, key), origins, history + [op], ttl, maxEntries)
  {
    RemoveKeepsCoherent(cache, origins, history, ttl, key, op);
    RemoveKeepsComplete(cache, origins, history, ttl, key, op);
    RemoveKeepsPartition(cache, origins, index, key);
    RemovalCounts(cache, {key});
  }

  lemma InvalidateIsSound(cache: Entries, index: Index, origins: Origins, history: seq<Op>, ttl: real, maxEntries: int,
                          prefix: Path, keys: set<CacheKey>, paths: set<Path>)
    requires Sound(cache, index, origins, history, ttl, maxEntries)
    requires Scanned(index, prefix, keys, paths)
    ensures keys == Covered(cache, origins, prefix) && |cache - keys| == |cache| - |keys|
    ensures Sound(cache - keys, index - paths, origins, history + [InvalidatePrefix(prefix)], ttl, maxEntries)
  {
    ScannedIsCovered(cache, origins, index, prefix, keys, paths);
    InvalidateKeepsCoherent(cache, origins, history, prefix);
    InvalidateKeepsComplete(cache, origins, history, ttl, prefix);
    InvalidateKeepsPartition(cache, origins, index, prefix, keys, paths);
    RemovalCounts(cache, keys);
  }

  /** The keys whose path begins with `prefix`. */
  ghost function Covered(cache: Entries, origins: Origins, prefix: Path): set<CacheKey> {
    set k | k in cache && k in origins && origins[k].path.StartsWith(prefix)
  }

  lemma InvalidateKeepsCoherent(cache: Entries, origins: Origins, history: seq<Op>, prefix: Path)
    requires Coherent(cache, origins, history)
    ensures Coherent(cache - Covered(cache, origins, prefix), origins, history + [InvalidatePrefix(prefix)])
  {
    var op := InvalidatePrefix(prefix);
    forall k ensures Current(cache - Covered(cache, origins, prefix), origins, history + [op], k) {
      assert Current(cache, origins, history, k);
      if k in cache && k in origins {
        StandingSnoc(history, op, origins[k]);
      }
    }
  }

  lemma InvalidateKeepsComplete(cache: Entries, origins: Origins, history: seq<Op>, ttl: real, prefix: Path)
    requires Coherent(cache, origins, history) && Complete(cache, history, ttl)
    ensures Complete(cache - Covered(cache, origins, prefix), history + [InvalidatePrefix(prefix)], ttl)
  {
    var op, rest := InvalidatePrefix(prefix), cache - Covered(cache, origins, prefix);
    forall o: Origin | o.path.Plain() ensures Accounted(rest, history + [op], ttl, o) {
      assert Accounted(cache, history, ttl, o);
      StandingSnoc(history, op, o);
      if o.Key() in cache {
        CachedIsKept(cache, origins, history, o);
      }
    }
  }

  lemma ClearIsSound(origins: Origins, history: seq<Op>, ttl: real, maxEntries: int)
    ensures Sound(map[], map[], origins, history + [InvalidateAll], ttl, maxEntries)
  {
    forall o: Origin ensures StandingOf(history + [InvalidateAll], o) == Absent {
      StandingSnoc(history, InvalidateAll, o);
    }
  }

  lemma RemovalCounts(cache: Entries, gone: set<CacheKey>)
    requires gone <= cache.Keys
    ensures |cache - gone| == |cache| - |gone|
  {
  }

  function Discard(keys: set<CacheKey>, key: CacheKey): set<CacheKey> {
    keys - {key}
  }

  /** The classes outside `todo` have lost the key, and `emptyPaths` are those that it leaves empty. */
  ghost predicate Discarded(index: Index, key: CacheKey, todo: set<Path>, discarded: Index, emptyPaths: set<Path>) {
    && discarded.Keys == index.Keys
    && (forall p :: p in index ==> discarded[p] == if p in todo then index[p] else Discard(index[p], key))
    && (forall p :: p in emptyPaths <==> p in index && p !in todo && Discard(index[p], key) == {})
  }

  lemma DiscardStep(index: Index, key: CacheKey, todo: set<Path>, discarded: Index, emptyPaths: set<Path>, p: Path)
    requires Discarded(index, key, todo, discarded, emptyPaths) && p in todo && p in index
    ensures
      var rest := Discard(discarded[p], key);
      Discarded(index, key, todo - {p}, discarded[p := rest], if rest == {} then emptyPaths + {p} else emptyPaths)
  {
  }

  method DiscardKey(index: Index, key: CacheKey) returns (discarded: Index, emptyPaths: set<Path>)
    ensures discarded - emptyPaths == IndexWithout(index, key)
  {
    var todo := index.Keys;
    discarded, emptyPaths := index, {};
    while todo != {}
      invariant todo <= index.Keys && Discarded(index, key, todo, discarded, emptyPaths)
      decreases |todo|
    {
      var p :| p in todo;
      DiscardStep(index, key, todo, discarded, emptyPaths, p);
      todo := todo - {p};
      var rest := Discard(discarded[p], key);
      discarded := discarded[p := rest];
      if rest == {} {
        emptyPaths := emptyPaths + {p};
      }
    }
  }

  datatype PutOutcome = Ignored | Stored | NothingToEvict

  /** `order[i]` is the first of the entries with the least creation time. */
  ghost predicate IsOldestAt(cache: Entries, order: seq<CacheKey>, i: nat) {
    && i < |order| && order[i] in cache
    && (forall k :: k in cache ==> cache[order[i]].createdAt <= cache[k].createdAt)
    && (forall j :: 0 <= j < i && order[j] in cache ==> cache[order[i]].createdAt < cache[order[j]].createdAt)
  }

  ghost predicate IsOldest(cache: Entries, order: seq<CacheKey>, key: CacheKey) {
    exists i: nat :: IsOldestAt(cache, order, i) && order[i] == key
  }

  /** What a lookup finds in a response of that standing. */
  ghost function Fresh(standing: Standing, ttl: real, now: real): Option<Entry> {
    if standing.Kept? && !standing.entry.Expired(ttl, now) then Some(standing.entry) else None
  }

  /** Why a lookup finds nothing: nothing is stored, it was evicted, or it is or was expired. */
  ghost predicate Excused(standing: Standing, ttl: real, now: real) {
    match standing
    case Absent => true
    case Evicted(_) => true
    case Lapsed(entry, at) => entry.Expired(ttl, at)
    case Kept(entry) => entry.Expired(ttl, now)
  }

  ghost function Evictions(keys: seq<CacheKey>): seq<Op> {
    seq(|keys|, i requires 0 <= i < |keys| => Evict(keys[i]))
  }

  lemma EvictedOne(cache: Entries, history: seq<Op>, evicted: seq<CacheKey>)
    ensures evicted == [] ==> cache - ToSet(evicted) == cache && history + Evictions(evicted) == history
    ensures |evicted| == 1 ==>
              cache - ToSet(evicted) == cache - {evicted[0]} && history + Evictions(evicted) == history + [Evict(evicted[0])]
  {
    if |evicted| == 1 {
      assert evicted == [evicted[0]];
      assert ToSet(evicted) == {evicted[0]};
    }
  }

  ghost function Lapses(keys: seq<CacheKey>, now: real): seq<Op> {
    seq(|keys|, i requires 0 <= i < |keys| => Lapse(keys[i], now))
  }

  class ResponseCache {
    const ttl: real
    const maxEntries: int
    /** A dictionary and the order of its keys. */
    var cache: Entries
    var order: seq<CacheKey>
    var pathIndex: Index
    ghost var origins: Origins
    ghost var history: seq<Op>

    ghost predicate Dict()
      reads this
    {
      InOrder(order, cache.Keys)
    }

    ghost predicate Valid()
      reads this
    {
      Sound(cache, pathIndex, origins, history, ttl, maxEntries)
    }

    constructor (ttl: real, maxEntries: int)
      ensures Valid() && Dict() && cache == map[] && history == [] && this.ttl == ttl && this.maxEntries == maxEntries
    {
      this.ttl, this.maxEntries := ttl, maxEntries;
      cache, order, pathIndex, origins, history := map[], [], map[], map[], [];
    }

    /** Discards the key from every class, then deletes the classes that became empty. */
    method RemoveFromIndex(key: CacheKey)
      modifies this`pathIndex
      ensures pathIndex == IndexWithout(old(pathIndex), key)
    {
      var discarded, emptyPaths := DiscardKey(pathIndex, key);
      pathIndex := discarded - emptyPaths;
    }

    /**
     A lookup finds exactly the response that the history says is kept, if it is no older than
     `ttl`; when it finds nothing, the history says why. An expired entry is removed.
     */
    method Get(path: Path, query: string, now: real) returns (hit: Option<Entry>)
      requires Dict()
      modifies this`cache, this`order, this`pathIndex, this`history
      ensures Dict() && (old(Valid()) ==> Valid())
      ensures old(Valid()) && path.Plain() ==>
                var standing := StandingOf(old(history), Origin(path, query));
                hit == Fresh(standing, ttl, now) && (hit.None? ==> Excused(standing, ttl, now))
      ensures old(Valid()) && path.Plain() ==> forall entry ::
                hit == Some(entry) <==> LatestPut(old(history), Origin(path, query), entry) && now - entry.createdAt <= ttl
      ensures hit.Some? <==> MakeKey(path, query) in old(cache) && now - old(cache)[MakeKey(path, query)].createdAt <= ttl
      ensures hit.Some? ==> hit.value == old(cache)[MakeKey(path, query)]
      ensures hit.Some? ==> cache == old(cache) && order == old(order) && pathIndex == old(pathIndex)
      ensures hit.None? ==> cache == old(cache) - {MakeKey(path, query)} && order == Restrict(old(order), cache.Keys)
      ensures history == if hit.None? && MakeKey(path, query) in old(cache)
                         then old(history) + [Lapse(MakeKey(path, query), now)] else old(history)
    {
      var key := MakeKey(path, query);
      LookupIsFresh(cache, origins, history, ttl, Origin(path, query), now);
      forall entry ensures StandingOf(history, Origin(path, query)) == Kept(entry) <==>
                           LatestPut(history, Origin(path, query), entry) {
        KeptIffLatest(history, Origin(path, query), entry);
      }
      if key !in cache {
        assert cache - {key} == cache;
        RestrictToAll(order, cache.Keys);
        return None;
      }
      var entry := cache[key];
      if entry.Expired(ttl, now) {
        Drop(key, Lapse(key, now));
        return None;
      }
      hit := Some(entry);
    }

    /** `min(self._cache, key=created_at)`, which takes the first of several. */
    method OldestKey() returns (oldest: CacheKey)
      requires Dict() && cache.Keys != {}
      ensures IsOldest(cache, order, oldest)
    {
      InOrderIff(order, cache.Keys);
      assert ToSet(order) != {} && order != [];
      assert forall i :: 0 <= i < |order| ==> order[i] in ToSet(order);
      var first := 0;
      for i := 1 to |order|
        invariant 0 <= first < i
        invariant forall j :: 0 <= j < i ==> cache[order[first]].createdAt <= cache[order[j]].createdAt
        invariant forall j :: 0 <= j < first ==> cache[order[first]].createdAt < cache[order[j]].createdAt
      {
        if cache[order[i]].createdAt < cache[order[first]].createdAt {
          first := i;
        }
      }
      forall k | k in cache ensures cache[order[first]].createdAt <= cache[k].createdAt {
        assert k in ToSet(order);
      }
      oldest := order[first];
      assert IsOldestAt(cache, order, first);
    }

    /** Removes one entry: the index first, then the entry. */
    method Drop(key: CacheKey, ghost op: Op)
      requires Dict() && key in cache && Removes(op, key, cache[key], ttl)
      modifies this`cache, this`order, this`pathIndex, this`history
      ensures cache == old(cache) - {key} && |cache| == |old(cache)| - 1
      ensures Dict() && order == Restrict(old(order), cache.Keys)
      ensures pathIndex == IndexWithout(old(pathIndex), key) && history == old(history) + [op]
      ensures old(Valid()) ==> Valid()
    {
      ghost var rest, index, longer := cache - {key}, IndexWithout(pathIndex, key), history + [op];
      DropValues(cache, order, pathIndex, origins, history, ttl, maxEntries, key, op, rest, index, longer);
      RemoveFromIndex(key);
      cache := cache - {key};
      order := Restrict(order, cache.Keys);
      history := history + [op];
      assert cache == rest && pathIndex == index && history == longer;
    }

    /**
     Stores a successful response. At capacity a new key first pushes out the first entry of least
     creation time; with no entry to push out, Python's `min` raises.
     */
    method Put(path: Path, query: string, body: seq<int>, status: int, headers: map<string, string>, now: real)
      returns (outcome: PutOutcome, ghost evicted: seq<CacheKey>)
      requires Dict()
      modifies this
      ensures Dict() && (old(Valid()) && path.Plain() ==> Valid())
      ensures outcome == Ignored <==> status >= 400
      ensures outcome == NothingToEvict <==> status < 400 && old(cache) == map[] && maxEntries <= 0
      ensures outcome != Stored ==>
                cache == old(cache) && order == old(order) && pathIndex == old(pathIndex) && history == old(history)
      ensures outcome == Stored ==>
                var key, entry := MakeKey(path, query), Entry(body, status, headers, now);
                && (evicted == [] <==> |old(cache)| < maxEntries || key in old(cache))
                && (evicted != [] ==> |evicted| == 1 && IsOldest(old(cache), old(order), evicted[0]))
                && cache == (old(cache) - ToSet(evicted))[key := entry]
                && order == PlusKey(Restrict(old(order), (old(cache) - ToSet(evicted)).Keys), old(cache), key)
                && history == old(history) + Evictions(evicted) + [Op.Put(path, query, entry)]
    {
      evicted := [];
      if status >= 400 {
        return Ignored, [];
      }
      var key := MakeKey(path, query);
      if |cache| == 0 && maxEntries <= 0 {
        return NothingToEvict, [];
      }
      evicted := MakeRoom(key);
      var entry := Entry(body, status, headers, now);
      Store(path, query, key, entry);
      outcome := Stored;
    }

    /** At capacity, a new key pushes out the first entry of least creation time. */
    method MakeRoom(key: CacheKey) returns (ghost evicted: seq<CacheKey>)
      requires Dict() && (|cache| > 0 || maxEntries > 0)
      modifies this`cache, this`order, this`pathIndex, this`history
      ensures evicted == [] <==> |old(cache)| < maxEntries || key in old(cache)
      ensures evicted != [] ==> |evicted| == 1 && IsOldest(old(cache), old(order), evicted[0])
      ensures cache == old(cache) - ToSet(evicted) && |cache| == |old(cache)| - |evicted|
      ensures Dict() && order == Restrict(old(order), cache.Keys)
      ensures history == old(history) + Evictions(evicted)
      ensures old(Valid()) ==> Valid()
    {
      evicted := [];
      if |cache| >= maxEntries && key !in cache {
        var oldest := OldestKey();
        Drop(oldest, Evict(oldest));
        evicted := [oldest];
      } else {
        RestrictToAll(order, cache.Keys);
      }
      EvictedOne(old(cache), old(history), evicted);
    }

    /** The insertion itself, into the cache and into the class of the path. */
    method Store(path: Path, query: string, key: CacheKey, entry: Entry)
      requires Dict() && key == MakeKey(path, query) && entry.status < 400
      modifies this
      ensures cache == old(cache)[key := entry]
      ensures Dict() && order == if key in old(cache) then old(order) else old(order) + [key]
      ensures history == old(history) + [Op.Put(path, query, entry)]
      ensures old(Valid()) && path.Plain() && (key in old(cache) || |old(cache)| < maxEntries) ==> Valid()
    {
      if Valid() && path.Plain() && (key in cache || |cache| < maxEntries) {
        StoreIsSound(cache, pathIndex, origins, history, ttl, maxEntries, path, query, entry);
      }
      PlusKeyInOrder(order, cache, key, entry);
      order := PlusKey(order, cache, key);
      cache := cache[key := entry];
      pathIndex := pathIndex[path := ClassOf(pathIndex, path) + {key}];
      origins := origins[key := Origin(path, query)];
      history := history + [Op.Put(path, query, entry)];
    }

    /** `invalidate`: everything, or exactly the entries whose path begins with `prefix`; the count is exact. */
    method Invalidate(prefix: Option<Path>) returns (count: nat)
      requires Dict()
      modifies this
      ensures Dict() && order == Restrict(old(order), cache.Keys)
      ensures history == old(history) + [if prefix.None? then InvalidateAll else InvalidatePrefix(prefix.value)]
      ensures prefix.None? ==> Valid() && cache == map[] && pathIndex == map[] && count == |old(cache)|
      ensures old(Valid()) ==> Valid() && count == |old(cache)| - |cache|
      ensures old(Valid()) && prefix.Some? ==> cache == old(cache) - Covered(old(cache), old(origins), prefix.value)
      ensures old(Valid()) ==> forall k :: k in old(cache) ==>
                && k in old(origins)
                && (k in cache <==> prefix.Some? && !(prefix.value.text <= old(origins)[k].path.text))
    {
      OwnersKnown(cache, origins, history);
      match prefix {
        case None =>
          count := |cache|;
          ClearIsSound(origins, history, ttl, maxEntries);
          RestrictInOrder(order, cache.Keys, {});
          cache, order, pathIndex := map[], Restrict(order, {}), map[];
          history := history + [InvalidateAll];
        case Some(path) =>
          count := InvalidateByPrefix(path);
      }
    }

    method InvalidateByPrefix(prefix: Path) returns (count: nat)
      requires Dict()
      modifies this
      ensures Dict() && order == Restrict(old(order), cache.Keys)
      ensures history == old(history) + [InvalidatePrefix(prefix)] && origins == old(origins)
      ensures old(Valid()) ==> Valid() && count == |old(cache)| - |cache|
      ensures old(Valid()) ==> cache == old(cache) - Covered(old(cache), old(origins), prefix)
    {
      var keysToRemove, pathsToRemove := Matching(pathIndex, prefix);
      if Valid() {
        InvalidateIsSound(cache, pathIndex, origins, history, ttl, maxEntries, prefix, keysToRemove, pathsToRemove);
      }
      RestrictInOrder(order, cache.Keys, (cache - keysToRemove).Keys);
      cache := cache - keysToRemove;
      order := Restrict(order, cache.Keys);
      pathIndex := pathIndex - pathsToRemove;
      history := history + [InvalidatePrefix(prefix)];
      count := |keysToRemove|;
    }

    /** Removes exactly the expired entries, in order, and counts them. */
    method CleanupExpired(now: real) returns (count: nat)
      requires Dict()
      modifies this`cache, this`order, this`pathIndex, this`history
      ensures Dict() && (old(Valid()) ==> Valid())
      ensures
        var expired := set k | k in old(cache) && now - old(cache)[k].createdAt > ttl;
        && cache == old(cache) - expired && count == |expired| == |old(cache)| - |cache|
        && order == Restrict(old(order), cache.Keys)
        && history == old(history) + Lapses(Restrict(old(order), expired), now)
    {
      var expired := set k | k in cache.Keys && cache[k].Expired(ttl, now);
      var keys := Restrict(order, expired);
      assert expired == set k | k in cache && now - cache[k].createdAt > ttl;
      RestrictInOrder(order, cache.Keys, expired);
      InOrderIff(keys, expired);
      DistinctSize(keys);
      RemovalCounts(cache, expired);
      assert forall i :: 0 <= i < |keys| ==> keys[i] in ToSet(keys);
      DropAll(keys, now);
      count := |keys|;
    }

    method DropAll(keys: seq<CacheKey>, now: real)
      requires Dict() && Distinct(keys)
      requires forall i :: 0 <= i < |keys| ==> keys[i] in cache && cache[keys[i]].Expired(ttl, now)
      modifies this`cache, this`order, this`pathIndex, this`history
      ensures cache == old(cache) - ToSet(keys) && Dict() && order == Restrict(old(order), cache.Keys)
      ensures history == old(history) + Lapses(keys, now)
      ensures old(Valid()) ==> Valid()
    {
      RestrictToAll(order, cache.Keys);
      for i := 0 to |keys|
        invariant cache == old(cache) - ToSet(keys[..i]) && Dict() && order == Restrict(old(order), cache.Keys)
        invariant history == old(history) + Lapses(keys[..i], now)
        invariant old(Valid()) ==> Valid()
      {
        DropNext(old(cache), old(order), old(history), keys, i, now);
        Drop(keys[i], Lapse(keys[i], now));
      }
      assert keys[..|keys|] == keys;
    }
  }

  /** The key order after an insertion: a known key keeps its place. */
  function PlusKey(order: seq<CacheKey>, cache: Entries, key: CacheKey): seq<CacheKey> {
    if key in cache then order else order + [key]
  }

  lemma PlusKeyInOrder(order: seq<CacheKey>, cache: Entries, key: CacheKey, entry: Entry)
    requires InOrder(order, cache.Keys)
    ensures InOrder(PlusKey(order, cache, key), cache[key := entry].Keys)
  {
    assert cache[key := entry].Keys == cache.Keys + {key};
    if key in cache {
      assert cache.Keys + {key} == cache.Keys;
    } else {
      AppendInOrder(order, cache.Keys, key);
    }
  }

  /** A lookup by key finds what the history says. */
  lemma LookupIsFresh(cache: Entries, origins: Origins, history: seq<Op>, ttl: real, o: Origin, now: real)
    ensures Coherent(cache, origins, history) && Complete(cache, history, ttl) && o.path.Plain() ==>
              var standing := StandingOf(history, o);
              && Fresh(standing, ttl, now) == (if o.Key() in cache && !cache[o.Key()].Expired(ttl, now)
                                               then Some(cache[o.Key()]) else None)
              && (Fresh(standing, ttl, now).None? ==> Excused(standing, ttl, now))
  {
    if Coherent(cache, origins, history) && Complete(cache, history, ttl) && o.path.Plain() {
      assert Accounted(cache, history, ttl, o);
      if o.Key() in cache {
        CachedIsKept(cache, origins, history, o);
      }
    }
  }

  lemma DropValues(cache: Entries, order: seq<CacheKey>, index: Index, origins: Origins, history: seq<Op>,
                   ttl: real, maxEntries: int, key: CacheKey, op: Op,
                   rest: Entries, indexRest: Index, longer: seq<Op>)
    requires InOrder(order, cache.Keys) && key in cache && Removes(op, key, cache[key], ttl)
    requires rest == cache - {key} && indexRest == IndexWithout(index, key) && longer == history + [op]
    ensures |rest| == |cache| - 1
    ensures InOrder(Restrict(order, rest.Keys), rest.Keys)
    ensures Sound(cache, index, origins, history, ttl, maxEntries) ==>
              Sound(rest, indexRest, origins, longer, ttl, maxEntries)
  {
    RemovalCounts(cache, {key});
    RestrictInOrder(order, cache.Keys, rest.Keys);
    if Sound(cache, index, origins, history, ttl, maxEntries) {
      RemoveIsSound(cache, index, origins, history, ttl, maxEntries, key, op);
    }
  }

  lemma DropNext(cache: Entries, order: seq<CacheKey>, history: seq<Op>, keys: seq<CacheKey>, i: nat, now: real)
    requires i < |keys| && Distinct(keys) && keys[i] in cache
    ensures
      var before, after := cache - ToSet(keys[..i]), cache - ToSet(keys[..i + 1]);
      && keys[i] in before && before - {keys[i]} == after
      && Restrict(Restrict(order, before.Keys), after.Keys) == Restrict(order, after.Keys)
    ensures history + Lapses(keys[..i], now) + [Lapse(keys[i], now)] == history + Lapses(keys[..i + 1], now)
  {
    assert keys[..i + 1] == keys[..i] + [keys[i]];
    assert ToSet(keys[..i + 1]) == ToSet(keys[..i]) + {keys[i]};
    assert keys[i] !in keys[..i];
    var before, after := cache - ToSet(keys[..i]), cache - ToSet(keys[..i + 1]);
    assert after.Keys <= before.Keys;
    RestrictTwice(order, before.Keys, after.Keys);
  }

  /** The keys and paths that a scan of the index for `prefix` collects. */
  ghost predicate Scanned(index: Index, prefix: Path, keys: set<CacheKey>, paths: set<Path>) {
    && (forall p :: p in paths <==> p in index && p.StartsWith(prefix))
    && (forall k :: k in keys ==> exists p :: p in paths && k in index[p])
    && (forall p, k :: p in paths && k in index[p] ==> k in keys)
  }

  method Matching(index: Index, prefix: Path) returns (keys: set<CacheKey>, paths: set<Path>)
    ensures Scanned(index, prefix, keys, paths)
  {
    keys, paths := {}, {};
    var todo := index.Keys;
    while todo != {}
      invariant todo <= index.Keys && paths <= index.Keys
      invariant forall p :: p in paths <==> p in index && p !in todo && p.StartsWith(prefix)
      invariant forall k :: k in keys ==> exists p :: p in paths && k in index[p]
      invariant forall p, k :: p in paths && k in index[p] ==> k in keys
      decreases |todo|
    {
      var p :| p in todo;
      todo := todo - {p};
      if p == prefix || p.StartsWith(prefix) {
        keys := keys + index[p];
        paths := paths + {p};
      }
    }
  }

  lemma ScannedIsCovered(cache: Entries, origins: Origins, index: Index, prefix: Path,
                         keys: set<CacheKey>, paths: set<Path>)
    requires Partitioned(cache, origins, index) && Scanned(index, prefix, keys, paths)
    ensures keys == Covered(cache, origins, prefix)
  {
    forall k ensures k in keys <==> k in Covered(cache, origins, prefix) {
      if k in keys {
        var p :| p in paths && k in index[p];
        assert ClassExact(cache, origins, index, p);
        assert k in KeysOf(cache, origins, p);
      }
      if k in Covered(cache, origins, prefix) {
        var p := origins[k].path;
        assert ClassExact(cache, origins, index, p);
        assert k in KeysOf(cache, origins, p);
      }
    }
  }

  lemma InvalidateKeepsPartition(cache: Entries, origins: Origins, index: Index, prefix: Path,
                                 keys: set<CacheKey>, paths: set<Path>)
    requires Partitioned(cache, origins, index)
    requires keys == Covered(cache, origins, prefix)
    requires forall p :: p in paths <==> p in index && p.StartsWith(prefix)
    ensures Partitioned(cache - keys, origins, index - paths)
  {
    forall p ensures ClassExact(cache - keys, origins, index - paths, p) {
      assert ClassExact(cache, origins, index, p);
      if p.StartsWith(prefix) {
        assert KeysOf(cache - keys, origins, p) == {};
      } else {
        assert KeysOf(cache - keys, origins, p) == KeysOf(cache, origins, p);
      }
    }
  }
}
