/**
 * `FileIndexCache` (FileIndexCache.java): the in-memory name index, which
 * maps a normalised file name to a bounded bucket of known paths, and the
 * directory-list cache, a TTL cache evicting the least recently accessed
 * listing.
 *
 * Both buckets and the list cache keep a map together with a queue of its
 * keys; the queue is a sequence whose front is evicted first. The clock is
 * a parameter of every operation that reads it.
 */
module FileIndexing {
  import opened JavaText

  // ---------------------------------------------------------------------
  // Keyed queues
  // ---------------------------------------------------------------------

  predicate Distinct<K(==)>(s: seq<K>) {
    forall i, j | 0 <= i < j < |s| :: s[i] != s[j]
  }

  /** The queue `order` holds each key of `m` exactly once. */
  predicate Tracks<K(==), V>(m: map<K, V>, order: seq<K>) {
    Distinct(order) && |order| == |m| && forall i | 0 <= i < |order| :: order[i] in m
  }

  /** The keys a queue holds. */
  function Elems<K>(s: seq<K>): set<K> {
    set i | 0 <= i < |s| :: s[i]
  }

  /** A queue of distinct keys holds as many keys as it is long. */
  lemma {:induction false} DistinctCard<K>(s: seq<K>)
    requires Distinct(s)
    ensures |Elems(s)| == |s|
    decreases |s|
  {
    if s != [] {
      DistinctCard(s[1..]);
      assert Elems(s) == Elems(s[1..]) + {s[0]};
    }
  }

  /** A subset is no larger than its superset. */
  lemma {:induction false} SubsetCard<K>(a: set<K>, b: set<K>)
    requires a <= b
    ensures |a| <= |b|
    decreases |a|
  {
    if a != {} {
      var x :| x in a;
      SubsetCard(a - {x}, b - {x});
    }
  }

  /** Every key of a tracked map is in its queue. */
  lemma TrackedKey<K, V>(m: map<K, V>, order: seq<K>, k: K)
    requires Tracks(m, order) && k in m
    ensures k in order
  {
    DistinctCard(order);
    if k !in order {
      SubsetCard(Elems(order), m.Keys - {k});
    }
  }

  /** Dropping the front key of a tracked queue, and its entry, keeps the two in step. */
  lemma DropFront<K, V>(m: map<K, V>, order: seq<K>)
    requires Tracks(m, order) && order != []
    ensures Tracks(m - {order[0]}, order[1..])
  {
  }

  /** Queueing a new key last keeps the queue in step with the extended map. */
  lemma PushBack<K, V>(m: map<K, V>, order: seq<K>, k: K, v: V)
    requires Tracks(m, order) && k !in m
    ensures Tracks(m[k := v], order + [k])
  {
  }

  /** Moving `k` to the back of the queue keeps it in step with the map that (re)files `k`. */
  lemma RequeueTracks<K, V>(m: map<K, V>, order: seq<K>, k: K, v: V)
    requires Tracks(m, order)
    ensures Tracks(m[k := v], Without(order, k) + [k])
  {
    if k in m {
      TrackedKey(m, order, k);
    }
  }

  /** `order` without `k`, the rest in order. */
  function Without<K(==)>(order: seq<K>, k: K): (r: seq<K>)
    ensures forall i | 0 <= i < |r| :: r[i] in order && r[i] != k
    ensures forall i | 0 <= i < |order| && order[i] != k :: order[i] in r
    ensures Distinct(order) ==> Distinct(r)
    ensures Distinct(order) && k in order ==> |r| == |order| - 1
    ensures k !in order ==> r == order
  {
    if order == [] then []
    else if order[0] == k then Without(order[1..], k)
    else [order[0]] + Without(order[1..], k)
  }

  /** The eviction loop: drop the front of the queue while the map holds more than `max` entries. */
  function EvictOldest<K, V>(m: map<K, V>, order: seq<K>, max: int): (r: (map<K, V>, seq<K>))
    decreases |order|
  {
    if |m| <= max || order == [] then (m, order)
    else EvictOldest(m - {order[0]}, order[1..], max)
  }

  /** The eviction loop both caches run: poll the front key and drop its entry while over `max`. */
  method EvictLoop<K, V>(m: map<K, V>, order: seq<K>, max: int) returns (m': map<K, V>, order': seq<K>)
    requires Tracks(m, order)
    ensures (m', order') == EvictOldest(m, order, max)
  {
    m', order' := m, order;
    while |m'| > max
      invariant Tracks(m', order')
      invariant EvictOldest(m', order', max) == EvictOldest(m, order, max)
      decreases |order'|
    {
      if order' == [] {
        break;
      }
      var oldest := order'[0];
      DropFront(m', order');
      order' := order'[1..];
      m' := m' - {oldest};
    }
  }

  /**
   * Over a tracked queue, eviction keeps exactly the newest
   * `min(|order|, max(0, max))` keys, in order, with their values.
   */
  lemma {:induction false} EvictKeepsNewest<K, V>(m: map<K, V>, order: seq<K>, max: int)
    requires Tracks(m, order)
    ensures var r := EvictOldest(m, order, max); var n := Min(|order|, Max(0, max));
      r.1 == order[|order| - n..] && Tracks(r.0, r.1)
      && forall k | k in r.0 :: k in m && r.0[k] == m[k]
    decreases |order|
  {
    if |m| > max && order != [] {
      DropFront(m, order);
      EvictKeepsNewest(m - {order[0]}, order[1..], max);
      var n := Max(0, max);
      assert n < |order| && Min(|order|, n) == n && Min(|order| - 1, n) == n;
      assert order[1..][|order| - 1 - n..] == order[|order| - n..];
    }
  }

  // ---------------------------------------------------------------------
  // The name index
  // ---------------------------------------------------------------------

  /** `IndexedPath`: one known path of a name. */
  datatype IndexedPath = IndexedPath(rootId: JString, name: JString, path: JString, directory: bool, file: bool, lastSeenAtMs: int)

  /** The key a bucket files a path under: root id, `|`, path. */
  function PathKey(p: IndexedPath): JString {
    p.rootId + [BAR] + p.path
  }

  /**
   * `NameBucket`: the paths known under one name, oldest first, and when
   * the bucket expires. The index replaces a bucket by its updated value.
   */
  datatype NameBucket = NameBucket(paths: map<JString, IndexedPath>, order: seq<JString>, expiresAtMs: int)
  {
    predicate Valid() {
      Tracks(paths, order)
    }

    /** `touch`: the bucket now expires `ttlMillis` after `now`. */
    function Touch(now: int, ttlMillis: int): (r: NameBucket)
      ensures r.expiresAtMs == now + ttlMillis && r.paths == paths && r.order == order
    {
      this.(expiresAtMs := now + ttlMillis)
    }

    /** `isExpired`. */
    predicate IsExpired(now: int) {
      now > expiresAtMs
    }

    /** The bucket `put` leaves: `p` filed under its key, then the oldest keys evicted down to the cap. */
    function WithPath(p: IndexedPath, maxPathsPerName: int): NameBucket {
      var key := PathKey(p);
      var e := EvictOldest(paths[key := p], if key in paths then order else order + [key], maxPathsPerName);
      NameBucket(e.0, e.1, expiresAtMs)
    }

    /**
     * `put`: files `p` under its key, replacing an entry with the same key
     * in place and queueing a new key last, then evicts from the front of
     * the queue while more than `maxPathsPerName` paths are held.
     */
    method Put(p: IndexedPath, maxPathsPerName: int) returns (r: NameBucket)
      requires Valid()
      ensures r.Valid() && r == WithPath(p, maxPathsPerName)
    {
      var key := PathKey(p);
      var isNew := key !in paths;
      var ps, ord := paths, order;
      if isNew {
        PushBack(ps, ord, key, p);
        ord := ord + [key];
      }
      ps := ps[key := p];
      assert Tracks(ps, ord);
      EvictKeepsNewest(ps, ord, maxPathsPerName);
      ps, ord := EvictLoop(ps, ord, maxPathsPerName);
      r := NameBucket(ps, ord, expiresAtMs);
    }

    /** `snapshot`: the paths of the bucket, in queue order. */
    function Snapshot(): (r: seq<IndexedPath>)
      requires Valid()
      ensures |r| == |order|
      ensures forall i | 0 <= i < |r| :: r[i] == paths[order[i]]
    {
      seq(|order|, i requires 0 <= i < |order| && order[i] in paths => paths[order[i]])
    }
  }

  /**
   * Within its bound, a bucket keeps the recorded path: a re-recorded key
   * replaces its entry in place and the bucket does not grow; a new key is
   * queued last, and only when the bucket was full is the oldest key dropped.
   */
  lemma PutWithinBound(paths: map<JString, IndexedPath>, order: seq<JString>, p: IndexedPath, max: int)
    requires Tracks(paths, order) && 1 <= max && |paths| <= max
    ensures var key := PathKey(p);
      var r := EvictOldest(paths[key := p], if key in paths then order else order + [key], max);
      |r.0| <= max && key in r.0 && r.0[key] == p
      && (key in paths ==> r == (paths[key := p], order))
      && (key !in paths && |paths| < max ==> r == (paths[key := p], order + [key]))
      && (key !in paths && |paths| == max ==> r.1 == order[1..] + [key])
  {
    var key := PathKey(p);
    if key !in paths {
      var order' := order + [key];
      PushBack(paths, order, key, p);
      EvictKeepsNewest(paths[key := p], order', max);
      assert order'[|order'| - 1] == key;
    }
  }

  // ---------------------------------------------------------------------
  // Settings
  // ---------------------------------------------------------------------

  /** `safeToMillis`: the duration in milliseconds, the fallback when absent, never below 1. */
  function SafeToMillis(duration: Option<int>, fallback: int): (r: int)
    ensures r >= 1
    ensures duration.Some? && duration.value >= 1 ==> r == duration.value
    ensures duration.None? && fallback >= 1 ==> r == fallback
  {
    Max(1, duration.GetOr(fallback))
  }

  // ---------------------------------------------------------------------
  // The directory-list cache
  // ---------------------------------------------------------------------

  /** `DirectoryListCacheKey`: the arguments of one directory listing. */
  datatype DirKey = DirKey(
    rootId: JString,
    directoryPath: JString,
    includeHidden: bool,
    glob: Option<JString>,
    onlyDirectories: bool,
    onlyFiles: bool,
    offset: int,
    limit: int)

  const DEFAULT_ROOT_ID := Str("root0")
  const CURRENT_DIRECTORY := Str(".")

  /**
   * The key's compact constructor: a missing root id is `root0`, a missing
   * path is `.`, a missing or blank glob is absent, the offset is at least
   * 0 and the limit at least 1.
   */
  function NewDirKey(lib: JavaLib, rootId: Option<JString>, directoryPath: Option<JString>, includeHidden: bool,
                     glob: Option<JString>, onlyDirectories: bool, onlyFiles: bool, offset: int, limit: int): (k: DirKey)
    ensures k.rootId == rootId.GetOr(DEFAULT_ROOT_ID) && k.directoryPath == directoryPath.GetOr(CURRENT_DIRECTORY)
    ensures k.glob.None? <==> glob.None? || IsBlank(lib, glob.value)
    ensures k.glob.Some? ==> k.glob == glob
    ensures k.offset >= 0 && (offset >= 0 ==> k.offset == offset)
    ensures k.limit >= 1 && (limit >= 1 ==> k.limit == limit)
    ensures k.includeHidden == includeHidden && k.onlyDirectories == onlyDirectories && k.onlyFiles == onlyFiles
  {
    DirKey(rootId.GetOr(DEFAULT_ROOT_ID), directoryPath.GetOr(CURRENT_DIRECTORY), includeHidden,
           if glob.None? || IsBlank(lib, glob.value) then None else glob,
           onlyDirectories, onlyFiles, Max(0, offset), Max(1, limit))
  }

  /** Constructing a key from the fields of a constructed key gives that key back. */
  lemma NewDirKeyIdempotent(lib: JavaLib, k: DirKey, rootId: Option<JString>, directoryPath: Option<JString>, includeHidden: bool,
                            glob: Option<JString>, onlyDirectories: bool, onlyFiles: bool, offset: int, limit: int)
    requires k == NewDirKey(lib, rootId, directoryPath, includeHidden, glob, onlyDirectories, onlyFiles, offset, limit)
    ensures NewDirKey(lib, Some(k.rootId), Some(k.directoryPath), k.includeHidden, k.glob,
                      k.onlyDirectories, k.onlyFiles, k.offset, k.limit) == k
  {
  }

  /** A cached listing and the instant it expires. */
  datatype CacheValue<V> = CacheValue(value: V, expiresAtMs: int)

  /** The keys `invalidateByDirectory(rootId, directoryPath)` drops. */
  predicate InDirectory(k: DirKey, rootId: JString, directoryPath: JString) {
    k.rootId == rootId && k.directoryPath == directoryPath
  }

  /** The queue without the keys of one directory. */
  function OutsideDirectory(order: seq<DirKey>, rootId: JString, directoryPath: JString): (r: seq<DirKey>)
    ensures |r| <= |order|
    ensures forall i | 0 <= i < |r| :: r[i] in order && !InDirectory(r[i], rootId, directoryPath)
    ensures forall i | 0 <= i < |order| && !InDirectory(order[i], rootId, directoryPath) :: order[i] in r
    ensures Distinct(order) ==> Distinct(r)
  {
    if order == [] then []
    else
      OutsideDirectory(order[..|order| - 1], rootId, directoryPath)
      + (if InDirectory(order[|order| - 1], rootId, directoryPath) then [] else [order[|order| - 1]])
  }

  /**
   * `TtlLruCache`: cached listings with an expiry instant each, kept in
   * access order (least recently accessed first), at most `maxEntries`.
   */
  class TtlLruCache<V> {
    const maxEntries: int
    const ttlMillis: int
    var values: map<DirKey, CacheValue<V>>
    var order: seq<DirKey>

    predicate Valid()
      reads this
    {
      Tracks(values, order) && maxEntries >= 1 && |values| <= maxEntries
    }

    /** The cap is at least 1; the time to live falls back to ten minutes. */
    constructor (maxEntries: int, ttl: Option<int>)
      ensures Valid() && values == map[] && order == []
      ensures this.maxEntries == Max(1, maxEntries) && ttlMillis == SafeToMillis(ttl, 600_000)
    {
      this.maxEntries := Max(1, maxEntries);
      this.ttlMillis := SafeToMillis(ttl, 600_000);
      values := map[];
      order := [];
    }

    /**
     * `get`: nothing for an unknown key; an entry expiring at or before
     * `now` is removed and nothing returned; otherwise its value, and the
     * key becomes the most recently accessed.
     */
    method Get(key: DirKey, now: int) returns (r: Option<V>)
      requires Valid()
      modifies this
      ensures Valid()
      ensures key !in old(values) ==> r.None? && values == old(values) && order == old(order)
      ensures key in old(values) && old(values)[key].expiresAtMs <= now ==>
        r.None? && values == old(values) - {key} && order == Without(old(order), key)
      ensures key in old(values) && old(values)[key].expiresAtMs > now ==>
        r == Some(old(values)[key].value) && values == old(values) && order == Without(old(order), key) + [key]
    {
      if key !in values {
        return None;
      }
      TrackedKey(values, order, key);
      var entry := values[key];
      order := Without(order, key);
      if entry.expiresAtMs <= now {
        values := values - {key};
        return None;
      }
      order := order + [key];
      r := Some(entry.value);
    }

    /**
     * `put`: stores the value expiring `ttlMillis` after `now` as the most
     * recently accessed entry, then evicts least recently accessed entries
     * while more than `maxEntries` are held.
     */
    method Put(key: DirKey, value: V, now: int)
      requires Valid()
      modifies this
      ensures Valid()
      ensures (values, order) == EvictOldest(old(values)[key := CacheValue(value, now + ttlMillis)],
                                             Without(old(order), key) + [key], maxEntries)
      ensures key in values && values[key] == CacheValue(value, now + ttlMillis)
    {
      var start := values[key := CacheValue(value, now + ttlMillis)];
      var queue := Without(order, key) + [key];
      RequeueTracks(values, order, key, CacheValue(value, now + ttlMillis));
      EvictKeepsNewest(start, queue, maxEntries);
      assert queue[|queue| - 1] == key;
      values, order := EvictLoop(start, queue, maxEntries);
    }

    /**
     * `invalidateByDirectory`: with both arguments present, removes
     * exactly the entries listed under that root and directory; every other
     * entry, and the access order among them, is kept.
     */
    method InvalidateByDirectory(rootId: Option<JString>, directoryPath: Option<JString>)
      requires Valid()
      modifies this
      ensures Valid()
      ensures rootId.None? || directoryPath.None? ==> values == old(values) && order == old(order)
      ensures rootId.Some? && directoryPath.Some? ==>
        values == DropDirectory(old(values), rootId.value, directoryPath.value)
        && order == OutsideDirectory(old(order), rootId.value, directoryPath.value)
    {
      if rootId.None? || directoryPath.None? {
        return;
      }
      var root, dir := rootId.value, directoryPath.value;
      ghost var start := values;
      var kept: seq<DirKey> := [];
      var i := 0;
      while i < |order|
        invariant 0 <= i <= |order| && order == old(order)
        invariant kept == OutsideDirectory(order[..i], root, dir)
        invariant values == DropAmong(start, order[..i], root, dir)
      {
        assert order[..i + 1] == order[..i] + [order[i]];
        DropAmongStep(start, order[..i], order[i], root, dir);
        if InDirectory(order[i], root, dir) {
          values := values - {order[i]};
        } else {
          kept := kept + [order[i]];
        }
        i := i + 1;
      }
      assert order[..i] == order;
      KeptTracked(start, order, root, dir);
      order := kept;
    }
  }

  /** The entries outside one directory. */
  function DropDirectory<V>(m: map<DirKey, V>, root: JString, dir: JString): (r: map<DirKey, V>)
    ensures forall k | k in r :: k in m && r[k] == m[k] && !InDirectory(k, root, dir)
    ensures forall k | k in m && !InDirectory(k, root, dir) :: k in r
  {
    map k | k in m && !InDirectory(k, root, dir) :: m[k]
  }

  /** The entries left once the keys `ks` have been visited. */
  function DropAmong<V>(m: map<DirKey, V>, ks: seq<DirKey>, root: JString, dir: JString): map<DirKey, V> {
    map k | k in m && !(k in ks && InDirectory(k, root, dir)) :: m[k]
  }

  /** Visiting one more key removes it exactly when it lies in the directory. */
  lemma DropAmongStep<V>(m: map<DirKey, V>, ks: seq<DirKey>, x: DirKey, root: JString, dir: JString)
    ensures DropAmong(m, ks + [x], root, dir)
            == if InDirectory(x, root, dir) then DropAmong(m, ks, root, dir) - {x} else DropAmong(m, ks, root, dir)
  {
  }

  /** The queue left by an invalidation still tracks the entries left. */
  lemma KeptTracked<V>(m: map<DirKey, V>, order: seq<DirKey>, root: JString, dir: JString)
    requires Tracks(m, order)
    ensures DropAmong(m, order, root, dir) == DropDirectory(m, root, dir)
    ensures Tracks(DropDirectory(m, root, dir), OutsideDirectory(order, root, dir))
    ensures |DropDirectory(m, root, dir)| <= |m|
  {
    var m' := DropDirectory(m, root, dir);
    var r := OutsideDirectory(order, root, dir);
    forall k | k in m
      ensures k in order
    {
      TrackedKey(m, order, k);
    }
    assert DropAmong(m, order, root, dir) == m';
    assert m'.Keys == Elems(r);
    DistinctCard(r);
  }

  // ---------------------------------------------------------------------
  // The cache
  // ---------------------------------------------------------------------

  const EMPTY_BUCKET := NameBucket(map[], [], 0)

  /** `normalizeNameKey`: the index key of a name, trimmed and lower-cased. */
  function NameKey(lib: JavaLib, name: JString): JString {
    lib.toLowerCase(Trim(name))
  }

  /** Every bucket of an index is well formed and holds at most `maxPaths` paths. */
  predicate IndexValid(index: map<JString, NameBucket>, maxPaths: int) {
    forall k | k in index :: index[k].Valid() && |index[k].paths| <= maxPaths
  }

  /** Within its bound, `put` keeps a bucket well formed and within the bound, and files the path. */
  lemma PutBounded(b: NameBucket, p: IndexedPath, maxPaths: int)
    requires b.Valid() && |b.paths| <= maxPaths && maxPaths >= 1
    ensures var r := b.WithPath(p, maxPaths);
      r.Valid() && |r.paths| <= maxPaths && PathKey(p) in r.paths && r.paths[PathKey(p)] == p
  {
    var pk := PathKey(p);
    var ord := if pk in b.paths then b.order else b.order + [pk];
    if pk !in b.paths {
      PushBack(b.paths, b.order, pk, p);
    }
    PutWithinBound(b.paths, b.order, p, maxPaths);
    EvictKeepsNewest(b.paths[pk := p], ord, maxPaths);
  }

  /** After `put`, the path put is in the bucket's snapshot. */
  lemma PutKeepsPath(b: NameBucket, p: IndexedPath, maxPaths: int)
    requires b.Valid() && |b.paths| <= maxPaths && maxPaths >= 1
    ensures var r := b.WithPath(p, maxPaths);
      r.Valid() && |r.paths| <= maxPaths && p in r.Snapshot()
  {
    PutBounded(b, p, maxPaths);
    var r := b.WithPath(p, maxPaths);
    var pk := PathKey(p);
    TrackedKey(r.paths, r.order, pk);
    var i :| 0 <= i < |r.order| && r.order[i] == pk;
    assert r.Snapshot()[i] == p;
  }

  /**
   * The index after `recordName` files `p` under `key` at `now`: the
   * bucket, created empty if absent, is touched and `p` is put into it.
   */
  function Indexed(index: map<JString, NameBucket>, key: JString, p: IndexedPath, now: int, ttlMillis: int, maxPaths: int)
    : (r: map<JString, NameBucket>)
    ensures r.Keys == index.Keys + {key}
    ensures forall k | k in index && k != key :: r[k] == index[k]
    ensures r[key].expiresAtMs == now + ttlMillis
  {
    var prior := if key in index then index[key] else EMPTY_BUCKET;
    index[key := prior.Touch(now, ttlMillis).WithPath(p, maxPaths)]
  }

  /**
   * Recording keeps the index well formed and within its bounds, and the
   * recorded path is in its bucket's snapshot, which has not expired at `now`.
   */
  lemma IndexedKeepsPath(index: map<JString, NameBucket>, key: JString, p: IndexedPath, now: int, ttlMillis: int, maxPaths: int)
    requires IndexValid(index, maxPaths) && maxPaths >= 1 && ttlMillis >= 0
    ensures var r := Indexed(index, key, p, now, ttlMillis, maxPaths);
      IndexValid(r, maxPaths) && p in r[key].Snapshot() && !r[key].IsExpired(now)
  {
    var prior := if key in index then index[key] else EMPTY_BUCKET;
    PutKeepsPath(prior.Touch(now, ttlMillis), p, maxPaths);
  }

  /**
   * A lookup at the instant of recording, by the recorded name and with
   * filters the path passes, finds the recorded path.
   */
  lemma RecordedIsFound(lib: JavaLib, index: map<JString, NameBucket>, p: IndexedPath, now: int, ttlMillis: int, maxPaths: int,
                        caseSensitive: bool, wantDirectory: Option<bool>, wantFile: Option<bool>)
    requires IndexValid(index, maxPaths) && maxPaths >= 1 && ttlMillis >= 0
    requires Wanted(p.name, caseSensitive, wantDirectory, wantFile, p)
    ensures var key := NameKey(lib, p.name);
      var b := Indexed(index, key, p, now, ttlMillis, maxPaths)[key];
      !b.IsExpired(now) && b.Valid()
      && p in Filtered(b.Snapshot(), p.name, caseSensitive, wantDirectory, wantFile)
  {
    var key := NameKey(lib, p.name);
    IndexedKeepsPath(index, key, p, now, ttlMillis, maxPaths);
    var all := Indexed(index, key, p, now, ttlMillis, maxPaths)[key].Snapshot();
    var i :| 0 <= i < |all| && all[i] == p;
  }

  /** The buckets that have not expired at `now`. */
  function LiveBuckets(index: map<JString, NameBucket>, now: int): (r: map<JString, NameBucket>)
    ensures forall k | k in r :: k in index && r[k] == index[k] && !index[k].IsExpired(now)
    ensures forall k | k in index && !index[k].IsExpired(now) :: k in r
  {
    map k | k in index && !index[k].IsExpired(now) :: index[k]
  }

  /** `sub` keeps some of the buckets of `index`, unchanged. */
  predicate SubIndex(sub: map<JString, NameBucket>, index: map<JString, NameBucket>) {
    sub.Keys <= index.Keys && forall k | k in sub :: sub[k] == index[k]
  }

  /** Dropping buckets keeps an index within its bounds, and never makes it larger. */
  lemma SubIndexValid(sub: map<JString, NameBucket>, index: map<JString, NameBucket>, maxPaths: int)
    requires SubIndex(sub, index)
    ensures IndexValid(index, maxPaths) ==> IndexValid(sub, maxPaths)
    ensures |sub| <= |index|
  {
    SubsetCard(sub.Keys, index.Keys);
  }

  /** Touching a bucket keeps the index within its bounds. */
  lemma TouchKeepsValid(index: map<JString, NameBucket>, key: JString, now: int, ttlMillis: int, maxPaths: int)
    requires IndexValid(index, maxPaths) && key in index
    ensures IndexValid(index[key := index[key].Touch(now, ttlMillis)], maxPaths)
  {
  }

  /**
   * What the name-index cleanup may leave: some of the live buckets,
   * unchanged, as many as fit under `maxNames`. Which ones go when too many
   * are live follows the map's iteration order, which is left open.
   */
  predicate CleanedUp(before: map<JString, NameBucket>, after: map<JString, NameBucket>, now: int, maxNames: int) {
    var live := LiveBuckets(before, now);
    SubIndex(after, live) && |after| == Min(|live|, maxNames)
  }

  /**
   * After the cleanup no bucket has expired and at most `maxNames` remain;
   * when the live buckets fit under the cap, exactly the expired ones are gone.
   */
  lemma CleanedUpBounds(before: map<JString, NameBucket>, after: map<JString, NameBucket>, now: int, maxNames: int)
    requires CleanedUp(before, after, now, maxNames)
    ensures |after| <= Max(0, maxNames)
    ensures forall k | k in after :: k in before && after[k] == before[k] && !after[k].IsExpired(now)
    ensures |LiveBuckets(before, now)| <= maxNames ==> after == LiveBuckets(before, now)
  {
    var live := LiveBuckets(before, now);
    if |live| <= maxNames {
      assert after.Keys <= live.Keys;
      if x :| x in live.Keys && x !in after.Keys {
        SubsetCard(after.Keys, live.Keys - {x});
        assert false;
      }
      assert after.Keys == live.Keys;
    }
  }

  /** A lookup keeps a path when it passes the name, directory and file filters. */
  predicate Wanted(name: JString, caseSensitive: bool, wantDirectory: Option<bool>, wantFile: Option<bool>, p: IndexedPath) {
    (caseSensitive ==> p.name == name)
    && (wantDirectory == Some(true) ==> p.directory)
    && (wantFile == Some(true) ==> p.file)
  }

  /** The wanted paths of `all`, in order. */
  function Filtered(all: seq<IndexedPath>, name: JString, caseSensitive: bool, wantDirectory: Option<bool>, wantFile: Option<bool>)
    : (r: seq<IndexedPath>)
    ensures |r| <= |all|
    ensures forall i | 0 <= i < |r| :: r[i] in all && Wanted(name, caseSensitive, wantDirectory, wantFile, r[i])
    ensures forall i | 0 <= i < |all| && Wanted(name, caseSensitive, wantDirectory, wantFile, all[i]) :: all[i] in r
  {
    if all == [] then []
    else
      Filtered(all[..|all| - 1], name, caseSensitive, wantDirectory, wantFile)
      + (if Wanted(name, caseSensitive, wantDirectory, wantFile, all[|all| - 1]) then [all[|all| - 1]] else [])
  }

  /** The filtering loop of `lookupByName`, with its shortcut when nothing is filtered. */
  method FilterPaths(all: seq<IndexedPath>, name: JString, caseSensitive: bool, wantDirectory: Option<bool>, wantFile: Option<bool>)
    returns (out: seq<IndexedPath>)
    ensures out == Filtered(all, name, caseSensitive, wantDirectory, wantFile)
  {
    if wantDirectory != Some(true) && wantFile != Some(true) && !caseSensitive {
      FilterNothing(all, name, wantDirectory, wantFile);
      return all;
    }
    out := [];
    var i := 0;
    while i < |all|
      invariant 0 <= i <= |all|
      invariant out == Filtered(all[..i], name, caseSensitive, wantDirectory, wantFile)
    {
      assert all[..i + 1][..i] == all[..i];
      if Wanted(name, caseSensitive, wantDirectory, wantFile, all[i]) {
        out := out + [all[i]];
      }
      i := i + 1;
    }
    assert all[..i] == all;
  }

  /** Without a name or kind filter every path is wanted. */
  lemma {:induction false} FilterNothing(all: seq<IndexedPath>, name: JString, wantDirectory: Option<bool>, wantFile: Option<bool>)
    requires wantDirectory != Some(true) && wantFile != Some(true)
    ensures Filtered(all, name, false, wantDirectory, wantFile) == all
    decreases |all|
  {
    if all != [] {
      FilterNothing(all[..|all| - 1], name, wantDirectory, wantFile);
      assert all == all[..|all| - 1] + [all[|all| - 1]];
    }
  }

  /** A listed entry of a directory listing, as far as the name index uses it. */
  datatype ListedEntry = ListedEntry(name: Option<JString>, path: Option<JString>, directory: bool, file: bool)

  /** `recordName` files a name only when the name and the path are there and not blank. */
  predicate Nameable(lib: JavaLib, name: Option<JString>, path: Option<JString>) {
    name.Some? && !IsBlank(lib, name.value) && path.Some? && !IsBlank(lib, path.value)
  }

  /** How many of `entries` have both a name and a path that are not blank. */
  function Recordable(lib: JavaLib, entries: seq<ListedEntry>): (n: nat)
    ensures n <= |entries|
  {
    if entries == [] then 0
    else
      var e := entries[|entries| - 1];
      Recordable(lib, entries[..|entries| - 1]) + (if Nameable(lib, e.name, e.path) then 1 else 0)
  }

  /** Counting one more entry. */
  lemma RecordableStep(lib: JavaLib, entries: seq<ListedEntry>, i: int)
    requires 0 <= i < |entries|
    ensures Recordable(lib, entries[..i + 1])
            == Recordable(lib, entries[..i]) + (if Nameable(lib, entries[i].name, entries[i].path) then 1 else 0)
  {
    assert entries[..i + 1][..i] == entries[..i];
  }

  /**
   * The name index after `recordName` for each of `entries` in order,
   * when none of those records runs the cleanup.
   */
  function RecordedAll(lib: JavaLib, index: map<JString, NameBucket>, rootId: JString, entries: seq<ListedEntry>,
                       now: int, ttlMillis: int, maxPaths: int): map<JString, NameBucket>
    decreases |entries|
  {
    if entries == [] then index
    else
      var e := entries[|entries| - 1];
      var before := RecordedAll(lib, index, rootId, entries[..|entries| - 1], now, ttlMillis, maxPaths);
      if Nameable(lib, e.name, e.path)
      then Indexed(before, NameKey(lib, e.name.value),
                   IndexedPath(rootId, e.name.value, e.path.value, e.directory, e.file, now), now, ttlMillis, maxPaths)
      else before
  }

  /** The key an entry is filed under, if `recordName` files it. */
  function EntryKeys(lib: JavaLib, e: ListedEntry): set<JString> {
    if Nameable(lib, e.name, e.path) then {NameKey(lib, e.name.value)} else {}
  }

  /** The union of `f` over the items of `s`. */
  function Gathered<T, U>(s: seq<T>, f: T -> set<U>): set<U>
    decreases |s|
  {
    if s == [] then {} else Gathered(s[..|s| - 1], f) + f(s[|s| - 1])
  }

  /** A value is gathered exactly when `f` of some item holds it. */
  lemma {:induction false} GatheredMembers<T, U>(s: seq<T>, f: T -> set<U>, x: U)
    ensures x in Gathered(s, f) <==> exists k :: 0 <= k < |s| && x in f(s[k])
    decreases |s|
  {
    if s != [] {
      var n := |s| - 1;
      var init := s[..n];
      GatheredMembers(init, f, x);
      if x in Gathered(init, f) {
        var k :| 0 <= k < |init| && x in f(init[k]);
        assert s[k] == init[k];
      }
      if exists k :: 0 <= k < |s| && x in f(s[k]) {
        var k :| 0 <= k < |s| && x in f(s[k]);
        if k < n {
          assert init[k] == s[k];
        }
      }
    }
  }

  /** The keys of the nameable entries of a listing. */
  function NamedKeys(lib: JavaLib, entries: seq<ListedEntry>): set<JString> {
    Gathered(entries, e => EntryKeys(lib, e))
  }

  /** Recording a listing adds exactly the keys of its nameable entries to the index. */
  lemma {:induction false} RecordedAllKeys(lib: JavaLib, index: map<JString, NameBucket>, rootId: JString,
                                           entries: seq<ListedEntry>, now: int, ttlMillis: int, maxPaths: int)
    ensures RecordedAll(lib, index, rootId, entries, now, ttlMillis, maxPaths).Keys == index.Keys + NamedKeys(lib, entries)
    decreases |entries|
  {
    if entries != [] {
      var n := |entries| - 1;
      var init := entries[..n];
      RecordedAllKeys(lib, index, rootId, init, now, ttlMillis, maxPaths);
    }
  }

  /**
   * Counts `a <= b <= c` in one block of 2000 never reach a multiple of
   * 2000 after `a`: the cleanup runs on no record in between.
   */
  lemma SameBlock(a: int, b: int, c: int)
    requires a <= b <= c && a / 2000 == c / 2000
    ensures a / 2000 == b / 2000 && (a < c ==> c % 2000 != 0)
  {
  }

  /** `FileIndexCache`: the name index and the directory-list cache. */
  class FileIndexCache<V> {
    const enabled: bool
    var nameIndex: map<JString, NameBucket>
    var nameKeyCount: int
    var nameRecordCounter: int
    const nameIndexTtlMillis: int
    const nameIndexMaxNames: int
    const nameIndexMaxPathsPerName: int
    const directoryListCache: TtlLruCache<V>

    /** The name index is counted, its settings are positive and its buckets are within bounds. */
    predicate IndexOk()
      reads this
    {
      nameKeyCount == |nameIndex|
      && nameIndexTtlMillis >= 1 && nameIndexMaxNames >= 1 && nameIndexMaxPathsPerName >= 1
      && IndexValid(nameIndex, nameIndexMaxPathsPerName)
    }

    predicate Valid()
      reads this, directoryListCache
    {
      IndexOk() && directoryListCache.Valid()
    }

    /**
     * The settings: the name-index time to live falls back to 30 minutes,
     * the caps are at least 1, and the directory cache's time to live falls
     * back to 30 minutes.
     */
    constructor (enabled: bool, nameTtl: Option<int>, maxNames: int, maxPathsPerName: int,
                 directoryTtl: Option<int>, directoryMaxEntries: int)
      ensures Valid() && fresh(directoryListCache) && nameIndex == map[] && nameRecordCounter == 0
      ensures this.enabled == enabled && nameIndexTtlMillis == SafeToMillis(nameTtl, 1_800_000)
      ensures nameIndexMaxNames == Max(1, maxNames) && nameIndexMaxPathsPerName == Max(1, maxPathsPerName)
      ensures directoryListCache.maxEntries == Max(1, directoryMaxEntries)
      ensures directoryListCache.ttlMillis == SafeToMillis(Some(directoryTtl.GetOr(1_800_000)), 600_000)
    {
      this.enabled := enabled;
      nameIndexTtlMillis := SafeToMillis(nameTtl, 1_800_000);
      nameIndexMaxNames := Max(1, maxNames);
      nameIndexMaxPathsPerName := Max(1, maxPathsPerName);
      directoryListCache := new TtlLruCache(directoryMaxEntries, Some(directoryTtl.GetOr(1_800_000)));
      nameIndex := map[];
      nameKeyCount := 0;
      nameRecordCounter := 0;
    }

    /** `recordName` files a path only when the index is on and the name and the path are not blank. */
    predicate Records(lib: JavaLib, name: Option<JString>, path: Option<JString>) {
      enabled && Nameable(lib, name, path)
    }

    /**
     * `recordName`: files the path under the name's key, counts the
     * record, and on every 2000th record runs the name-index cleanup.
     */
    method RecordName(lib: JavaLib, rootId: JString, name: Option<JString>, path: Option<JString>,
                      directory: bool, file: bool, now: int)
      requires IndexOk()
      modifies this
      ensures IndexOk()
      ensures !Records(lib, name, path) ==> nameIndex == old(nameIndex) && nameRecordCounter == old(nameRecordCounter)
      ensures Records(lib, name, path) ==>
        var indexed := Indexed(old(nameIndex), NameKey(lib, name.value),
                               IndexedPath(rootId, name.value, path.value, directory, file, now),
                               now, nameIndexTtlMillis, nameIndexMaxPathsPerName);
        nameRecordCounter == old(nameRecordCounter) + 1
        && (nameRecordCounter % 2000 != 0 ==> nameIndex == indexed)
        && (nameRecordCounter % 2000 == 0 ==> CleanedUp(indexed, nameIndex, now, nameIndexMaxNames))
    {
      if !Records(lib, name, path) {
        return;
      }
      var key := NameKey(lib, name.value);
      IndexPath(key, IndexedPath(rootId, name.value, path.value, directory, file, now), now);
      nameRecordCounter := nameRecordCounter + 1;
      if nameRecordCounter % 2000 == 0 {
        CleanupNameIndexIfNeeded(now);
      }
    }

    /** The `compute` step of `recordName`: touch the key's bucket, created empty if absent, then put the path. */
    method IndexPath(key: JString, p: IndexedPath, now: int)
      requires IndexOk()
      modifies this
      ensures IndexOk() && nameRecordCounter == old(nameRecordCounter)
      ensures nameIndex == Indexed(old(nameIndex), key, p, now, nameIndexTtlMillis, nameIndexMaxPathsPerName)
    {
      IndexedKeepsPath(nameIndex, key, p, now, nameIndexTtlMillis, nameIndexMaxPathsPerName);
      var b := EMPTY_BUCKET;
      if key in nameIndex {
        b := nameIndex[key];
      } else {
        nameKeyCount := nameKeyCount + 1;
      }
      b := b.Touch(now, nameIndexTtlMillis);
      b := b.Put(p, nameIndexMaxPathsPerName);
      nameIndex := nameIndex[key := b];
    }

    /**
     * `lookupByName`: nothing when the index is off, the name blank or
     * unknown; an expired bucket is removed and nothing returned; otherwise
     * the bucket is touched and its wanted paths are returned in order.
     */
    method LookupByName(lib: JavaLib, name: Option<JString>, caseSensitive: bool,
                        wantDirectory: Option<bool>, wantFile: Option<bool>, now: int)
      returns (r: seq<IndexedPath>)
      requires IndexOk()
      modifies this
      ensures IndexOk() && nameRecordCounter == old(nameRecordCounter)
      ensures !enabled || name.None? || IsBlank(lib, name.value) ==> r == [] && nameIndex == old(nameIndex)
      ensures enabled && name.Some? && !IsBlank(lib, name.value) ==>
        var key := NameKey(lib, name.value);
        var index := old(nameIndex);
        if key !in index then r == [] && nameIndex == index
        else if index[key].IsExpired(now) then r == [] && nameIndex == index - {key}
        else index[key].Valid()
             && r == Filtered(index[key].Snapshot(), name.value, caseSensitive, wantDirectory, wantFile)
             && nameIndex == index[key := index[key].Touch(now, nameIndexTtlMillis)]
    {
      if !enabled || name.None? || IsBlank(lib, name.value) {
        return [];
      }
      var key := NameKey(lib, name.value);
      if key !in nameIndex {
        return [];
      }
      var bucket := nameIndex[key];
      if bucket.IsExpired(now) {
        SubIndexValid(nameIndex - {key}, nameIndex, nameIndexMaxPathsPerName);
        nameIndex := nameIndex - {key};
        nameKeyCount := nameKeyCount - 1;
        return [];
      }
      TouchKeepsValid(nameIndex, key, now, nameIndexTtlMillis, nameIndexMaxPathsPerName);
      nameIndex := nameIndex[key := bucket.Touch(now, nameIndexTtlMillis)];
      r := FilterPaths(bucket.Snapshot(), name.value, caseSensitive, wantDirectory, wantFile);
    }

    /** `cleanupExpiredNameBuckets`: removes, one key at a time, every bucket expired at `now`. */
    method CleanupExpiredNameBuckets(now: int)
      requires nameKeyCount == |nameIndex|
      modifies this
      ensures nameKeyCount == |nameIndex| && nameRecordCounter == old(nameRecordCounter)
      ensures nameIndex == LiveBuckets(old(nameIndex), now)
    {
      ghost var before := nameIndex;
      var keys := nameIndex.Keys;
      while keys != {}
        invariant keys <= nameIndex.Keys && SubIndex(nameIndex, before)
        invariant forall k | k in before && k !in keys :: (k in nameIndex <==> !before[k].IsExpired(now))
        invariant nameKeyCount == |nameIndex| && nameRecordCounter == old(nameRecordCounter)
        decreases keys
      {
        var k :| k in keys;
        if nameIndex[k].IsExpired(now) {
          nameIndex := nameIndex - {k};
          nameKeyCount := nameKeyCount - 1;
        }
        keys := keys - {k};
      }
      assert nameIndex == LiveBuckets(before, now);
    }

    /**
     * `cleanupNameIndexIfNeeded`: drops the expired buckets, then, while
     * more than `nameIndexMaxNames` remain, drops buckets in the map's
     * iteration order until the cap is met.
     */
    method CleanupNameIndexIfNeeded(now: int)
      requires IndexOk()
      modifies this
      ensures IndexOk() && nameRecordCounter == old(nameRecordCounter)
      ensures !enabled ==> nameIndex == old(nameIndex)
      ensures enabled ==> CleanedUp(old(nameIndex), nameIndex, now, nameIndexMaxNames)
    {
      if !enabled {
        return;
      }
      ghost var live := LiveBuckets(nameIndex, now);
      SubIndexValid(live, nameIndex, nameIndexMaxPathsPerName);
      var current := nameKeyCount;
      if current <= nameIndexMaxNames {
        CleanupExpiredNameBuckets(now);
        return;
      }
      CleanupExpiredNameBuckets(now);
      current := nameKeyCount;
      if current <= nameIndexMaxNames {
        return;
      }
      DropNames(Max(1, current - nameIndexMaxNames));
      SubIndexValid(nameIndex, live, nameIndexMaxPathsPerName);
    }

    /** The last loop of `cleanupNameIndexIfNeeded`: drop `toRemove` buckets, whichever the iteration meets first. */
    method DropNames(toRemove: int)
      requires nameKeyCount == |nameIndex| && nameIndexMaxNames >= 1 && toRemove == |nameIndex| - nameIndexMaxNames >= 1
      modifies this
      ensures nameKeyCount == |nameIndex| && nameRecordCounter == old(nameRecordCounter)
      ensures SubIndex(nameIndex, old(nameIndex)) && |nameIndex| == nameIndexMaxNames
    {
      ghost var before := nameIndex;
      var left := toRemove;
      while left > 0 && nameIndex != map[]
        invariant SubIndex(nameIndex, before)
        invariant nameKeyCount == |nameIndex| && nameRecordCounter == old(nameRecordCounter)
        invariant left == |nameIndex| - nameIndexMaxNames >= 0
        decreases left
      {
        var k :| k in nameIndex;
        nameIndex := nameIndex - {k};
        nameKeyCount := nameKeyCount - 1;
        left := left - 1;
      }
    }

    /** `getDirectoryListCache`: nothing while the cache is off, otherwise the list cache's `get`. */
    method GetDirectoryListCache(key: DirKey, now: int) returns (r: Option<V>)
      requires Valid()
      modifies directoryListCache
      ensures Valid()
      ensures var values := old(directoryListCache.values);
        r.Some? <==> enabled && key in values && values[key].expiresAtMs > now
      ensures r.Some? ==> r.value == old(directoryListCache.values)[key].value
      ensures !enabled ==> directoryListCache.values == old(directoryListCache.values)
                           && directoryListCache.order == old(directoryListCache.order)
      ensures enabled && key !in old(directoryListCache.values) ==>
        directoryListCache.values == old(directoryListCache.values)
        && directoryListCache.order == old(directoryListCache.order)
      ensures enabled && key in old(directoryListCache.values)
              && old(directoryListCache.values)[key].expiresAtMs <= now ==>
        directoryListCache.values == old(directoryListCache.values) - {key}
        && directoryListCache.order == Without(old(directoryListCache.order), key)
      ensures enabled && key in old(directoryListCache.values)
              && old(directoryListCache.values)[key].expiresAtMs > now ==>
        directoryListCache.values == old(directoryListCache.values)
        && directoryListCache.order == Without(old(directoryListCache.order), key) + [key]
    {
      if !enabled {
        return None;
      }
      r := directoryListCache.Get(key, now);
    }

    /**
     * `putDirectoryListCache`: while the cache is on, stores the listing,
     * then records the name of every entry that has a name and a path.
     */
    method PutDirectoryListCache(lib: JavaLib, key: DirKey, value: V, entries: seq<ListedEntry>, now: int)
      requires Valid()
      modifies this, directoryListCache
      ensures Valid()
      ensures !enabled ==> nameIndex == old(nameIndex) && nameRecordCounter == old(nameRecordCounter)
                           && directoryListCache.values == old(directoryListCache.values)
                           && directoryListCache.order == old(directoryListCache.order)
      ensures enabled ==>
        key in directoryListCache.values && directoryListCache.values[key] == CacheValue(value, now + directoryListCache.ttlMillis)
        && nameRecordCounter == old(nameRecordCounter) + Recordable(lib, entries)
      ensures enabled ==>
        (directoryListCache.values, directoryListCache.order)
        == EvictOldest(old(directoryListCache.values)[key := CacheValue(value, now + directoryListCache.ttlMillis)],
                       Without(old(directoryListCache.order), key) + [key], directoryListCache.maxEntries)
      ensures enabled && old(nameRecordCounter) / 2000 == nameRecordCounter / 2000 ==>
        nameIndex == RecordedAll(lib, old(nameIndex), key.rootId, entries, now,
                                 nameIndexTtlMillis, nameIndexMaxPathsPerName)
    {
      if !enabled {
        return;
      }
      directoryListCache.Put(key, value, now);
      RecordEntries(lib, key.rootId, entries, now);
    }

    /** The loop of `putDirectoryListCache`: `recordName` for each listed entry, in order. */
    method RecordEntries(lib: JavaLib, rootId: JString, entries: seq<ListedEntry>, now: int)
      requires IndexOk() && enabled
      modifies this
      ensures IndexOk()
      ensures nameRecordCounter == old(nameRecordCounter) + Recordable(lib, entries)
      ensures old(nameRecordCounter) / 2000 == nameRecordCounter / 2000 ==>
        nameIndex == RecordedAll(lib, old(nameIndex), rootId, entries, now, nameIndexTtlMillis, nameIndexMaxPathsPerName)
    {
      assert entries[..0] == [];
      for i := 0 to |entries|
        invariant IndexOk()
        invariant nameRecordCounter == old(nameRecordCounter) + Recordable(lib, entries[..i])
        invariant old(nameRecordCounter) / 2000 == nameRecordCounter / 2000 ==>
          nameIndex == RecordedAll(lib, old(nameIndex), rootId, entries[..i], now, nameIndexTtlMillis, nameIndexMaxPathsPerName)
      {
        RecordableStep(lib, entries, i);
        ghost var counter := nameRecordCounter;
        RecordEntry(lib, rootId, entries[i], now);
        assert entries[..i + 1][..i] == entries[..i] && entries[..i + 1][i] == entries[i];
        if old(nameRecordCounter) / 2000 == nameRecordCounter / 2000 {
          SameBlock(old(nameRecordCounter), counter, nameRecordCounter);
        }
      }
      assert entries[..|entries|] == entries;
    }

    /** One step of that loop: `recordName` for one entry, as far as the loop needs it. */
    method RecordEntry(lib: JavaLib, rootId: JString, e: ListedEntry, now: int)
      requires IndexOk()
      modifies this
      ensures IndexOk()
      ensures nameRecordCounter == old(nameRecordCounter) + (if Records(lib, e.name, e.path) then 1 else 0)
      ensures !Records(lib, e.name, e.path) ==> nameIndex == old(nameIndex)
      ensures Records(lib, e.name, e.path) && nameRecordCounter % 2000 != 0 ==>
        nameIndex == Indexed(old(nameIndex), NameKey(lib, e.name.value),
                             IndexedPath(rootId, e.name.value, e.path.value, e.directory, e.file, now),
                             now, nameIndexTtlMillis, nameIndexMaxPathsPerName)
    {
      RecordName(lib, rootId, e.name, e.path, e.directory, e.file, now);
    }

    /** `invalidateDirectoryLists`: while the cache is on, the list cache's `invalidateByDirectory`. */
    method InvalidateDirectoryLists(rootId: Option<JString>, directoryPath: Option<JString>)
      requires Valid()
      modifies directoryListCache
      ensures Valid()
      ensures !enabled || rootId.None? || directoryPath.None? ==>
        directoryListCache.values == old(directoryListCache.values) && directoryListCache.order == old(directoryListCache.order)
      ensures enabled && rootId.Some? && directoryPath.Some? ==>
        directoryListCache.values == DropDirectory(old(directoryListCache.values), rootId.value, directoryPath.value)
        && directoryListCache.order == OutsideDirectory(old(directoryListCache.order), rootId.value, directoryPath.value)
    {
      if !enabled {
        return;
      }
      directoryListCache.InvalidateByDirectory(rootId, directoryPath);
    }
  }
}
