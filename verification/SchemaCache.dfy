/** The cache of extended schemas: bounded, each entry with its own time to live, the least recently used entry evicted.
    extended_schema.go: schemaCache, get, set, cleanupExpired. */
module SchemaCache {
  import opened Text

  datatype Cached<D> = Cached(doc: D, expiresAt: int, lastAccessed: int, accessCount: nat)

  type Schemas<D> = map<string, Cached<D>>

  /** What happened to the cache: a schema stored, or one handed out. */
  datatype Event<D> = Stored(key: string, doc: D, ttl: int, at: int) | Served(key: string, at: int)

  /** Keys are hashes of URLs, never empty. */
  datatype Step<D> =
    | Set(key: string, doc: D, ttl: int, at: int, victim: Option<string>)
    | Get(key: string, at: int)
    | Cleanup(at: int)

  // ----- The operations -----

  ghost predicate LeastRecent<D>(s: Schemas<D>, key: string) {
    key in s && forall k :: k in s ==> s[key].lastAccessed <= s[k].lastAccessed
  }

  /** What a store may evict: nothing while there is room, and otherwise an entry used least recently. */
  ghost predicate MayEvict<D>(s: Schemas<D>, maxSize: int, victim: Option<string>) {
    if |s| < maxSize || s == map[] then victim.None? else victim.Some? && LeastRecent(s, victim.value)
  }

  function Without<D>(s: Schemas<D>, victim: Option<string>): Schemas<D> {
    if victim.Some? then s - {victim.value} else s
  }

  function Fresh<D>(doc: D, ttl: int, at: int): Cached<D> {
    Cached(doc, at + ttl, at, 1)
  }

  predicate Hits<D>(s: Schemas<D>, key: string, at: int) {
    key in s && at <= s[key].expiresAt
  }

  function Touched<D>(c: Cached<D>, at: int): Cached<D> {
    c.(lastAccessed := at, accessCount := c.accessCount + 1)
  }

  function Unexpired<D>(s: Schemas<D>, at: int): Schemas<D> {
    map k | k in s && at <= s[k].expiresAt :: s[k]
  }

  ghost predicate Enabled<D>(s: Schemas<D>, maxSize: int, step: Step<D>) {
    step.Set? ==> step.key != "" && MayEvict(s, maxSize, step.victim)
  }

  function Do<D>(s: Schemas<D>, step: Step<D>): Schemas<D> {
    match step
    case Set(key, doc, ttl, at, victim) => Without(s, victim)[key := Fresh(doc, ttl, at)]
    case Get(key, at) => if Hits(s, key, at) then s[key := Touched(s[key], at)] else s
    case Cleanup(at) => Unexpired(s, at)
  }

  /** What a step adds to the log. */
  function Logged<D>(s: Schemas<D>, step: Step<D>): seq<Event<D>> {
    match step
    case Set(key, doc, ttl, at, _) => [Stored(key, doc, ttl, at)]
    case Get(key, at) => if Hits(s, key, at) then [Served(key, at)] else []
    case Cleanup(_) => []
  }

  ghost predicate Runs<D>(s: Schemas<D>, log: seq<Event<D>>, maxSize: int, steps: seq<Step<D>>, t: Schemas<D>,
                          log': seq<Event<D>>)
    decreases |steps|
  {
    if steps == [] then s == t && log == log'
    else Enabled(s, maxSize, steps[0]) && Runs(Do(s, steps[0]), log + Logged(s, steps[0]), maxSize, steps[1..], t, log')
  }

  // ----- What the log says -----

  function LastStored<D>(log: seq<Event<D>>, key: string): Option<Event<D>> {
    if log == [] then None
    else
      var last := log[|log| - 1];
      if last.Stored? && last.key == key then Some(last) else LastStored(log[..|log| - 1], key)
  }

  /** When a key was last stored or served. */
  function LastUsed<D>(log: seq<Event<D>>, key: string): Option<int> {
    if log == [] then None
    else if log[|log| - 1].key == key then Some(log[|log| - 1].at)
    else LastUsed(log[..|log| - 1], key)
  }

  function Max(a: int, b: int): int {
    if a < b then b else a
  }

  ghost predicate EntryInv<D>(c: Cached<D>, log: seq<Event<D>>, key: string) {
    var stored := LastStored(log, key);
    && stored.Some? && stored.value.Stored? && c.doc == stored.value.doc &&
        c.expiresAt == stored.value.at + stored.value.ttl
    && LastUsed(log, key) == Some(c.lastAccessed)
  }

  /** Bounded, and every entry as its last store made it, accessed when it was last used. */
  ghost predicate Inv<D>(s: Schemas<D>, log: seq<Event<D>>, maxSize: int) {
    |s| <= Max(1, maxSize) && "" !in s && forall key :: key in s ==> EntryInv(s[key], log, key)
  }

  lemma {:induction false} OneFewer<D>(s: Schemas<D>, key: string)
    ensures |s - {key}| == if key in s then |s| - 1 else |s|
  {
    assert (s - {key}).Keys == s.Keys - {key};
    assert |s - {key}| == |(s - {key}).Keys| && |s| == |s.Keys|;
  }

  lemma {:induction false} OneMore<D>(s: Schemas<D>, key: string, c: Cached<D>)
    ensures |s[key := c]| == if key in s then |s| else |s| + 1
  {
    assert s[key := c].Keys == s.Keys + {key};
    assert |s[key := c]| == |s[key := c].Keys| && |s| == |s.Keys|;
  }

  /** The size after a store: one fewer for an eviction, one more for a key that was not left. A store that replaces an
      entry of a full cache evicts one all the same. */
  lemma {:induction false} SizeAfterStore<D>(s: Schemas<D>, maxSize: int, key: string, doc: D, ttl: int, at: int,
                                             victim: Option<string>)
    requires MayEvict(s, maxSize, victim)
    ensures var full := |s| >= maxSize && s != map[];
      |Do(s, Set(key, doc, ttl, at, victim))| ==
        |s| + (if full then -1 else 0) + (if key in s && victim != Some(key) then 0 else 1)
  {
    if victim.Some? {
      OneFewer(s, victim.value);
    }
    OneMore(Without(s, victim), key, Fresh(doc, ttl, at));
  }

  /** Into whatever cache it is put, a schema is served exactly until its time to live is over. */
  lemma {:induction false} StoredIsServedIff<D>(s: Schemas<D>, key: string, doc: D, ttl: int, at: int,
                                                victim: Option<string>, now: int)
    ensures var stored := Do(s, Set(key, doc, ttl, at, victim));
      && Logged(stored, Get(key, now)) == (if now <= at + ttl then [Served(key, now)] else [])
      && key in Do(stored, Get(key, now)) && Do(stored, Get(key, now))[key].doc == doc
  {}

  lemma {:induction false} ShrunkSize<D>(s: Schemas<D>, at: int)
    ensures |Unexpired(s, at)| <= |s|
  {
    var t := Unexpired(s, at);
    SubsetSize(t.Keys, s.Keys);
    assert |t| == |t.Keys| && |s| == |s.Keys|;
  }

  lemma {:induction false} SubsetSize(a: set<string>, b: set<string>)
    requires a <= b
    ensures |a| <= |b|
  {
    assert b == a + (b - a);
  }

  lemma {:induction false} StepKeepsInv<D>(s: Schemas<D>, log: seq<Event<D>>, maxSize: int, step: Step<D>)
    requires Inv(s, log, maxSize) && Enabled(s, maxSize, step)
    ensures Inv(Do(s, step), log + Logged(s, step), maxSize)
  {
    var t, longer := Do(s, step), log + Logged(s, step);
    assert longer != log ==> longer[..|longer| - 1] == log;
    assert longer == log || |longer| == |log| + 1;
    match step
    case Set(key, doc, ttl, at, victim) =>
      SizeAfterStore(s, maxSize, key, doc, ttl, at, victim);
      forall k | k in t ensures EntryInv(t[k], longer, k) {
        assert k != key ==> EntryInv(s[k], log, k);
      }
    case Get(key, at) =>
      if Hits(s, key, at) {
        OneMore(s, key, Touched(s[key], at));
        assert EntryInv(s[key], log, key);
        forall k | k in t ensures EntryInv(t[k], longer, k) {
          assert EntryInv(s[k], log, k);
        }
      } else {
        assert longer == log;
      }
    case Cleanup(at) =>
      ShrunkSize(s, at);
      assert longer == log;
  }

  lemma {:induction false} EveryRunKeepsInv<D>(s: Schemas<D>, log: seq<Event<D>>, maxSize: int, steps: seq<Step<D>>,
                                               t: Schemas<D>, log': seq<Event<D>>)
    requires Inv(s, log, maxSize) && Runs(s, log, maxSize, steps, t, log')
    ensures Inv(t, log', maxSize)
    decreases |steps|
  {
    if steps != [] {
      StepKeepsInv(s, log, maxSize, steps[0]);
      EveryRunKeepsInv(Do(s, steps[0]), log + Logged(s, steps[0]), maxSize, steps[1..], t, log');
    }
  }

  /** After any run from the empty cache: it holds at most `maxSize` schemas, or one if that is less; a hit is the
      schema last stored for its key, not past its time to live. */
  lemma {:induction false} CacheIsSound<D>(maxSize: int, steps: seq<Step<D>>, s: Schemas<D>, log: seq<Event<D>>,
                                           key: string, at: int)
    requires Runs(map[], [], maxSize, steps, s, log)
    ensures |s| <= Max(1, maxSize)
    ensures Hits(s, key, at) ==>
      var stored := LastStored(log, key);
      stored.Some? && stored.value.Stored? && s[key].doc == stored.value.doc && at <= stored.value.at + stored.value.ttl
  {
    EveryRunKeepsInv(map[], [], maxSize, steps, s, log);
    assert key in s ==> EntryInv(s[key], log, key);
  }

  /** The other entries used no earlier than `victim`. */
  function UsedSince<D>(s: Schemas<D>, log: seq<Event<D>>, victim: string): set<string> {
    set k | k in s && k != victim && LastUsed(log, victim).Some? && LastUsed(log, k).Some?
            && LastUsed(log, victim).value <= LastUsed(log, k).value
  }

  /** What any run's next store evicts was used last no later than everything else in the cache, and the cache was full:
      at least `maxSize - 1` other schemas have been used since, or at the same time. */
  lemma {:induction false} EvictedIsLeastRecentlyUsed<D>(maxSize: int, steps: seq<Step<D>>, s: Schemas<D>,
                                                         log: seq<Event<D>>, victim: string)
    requires Runs(map[], [], maxSize, steps, s, log) && MayEvict(s, maxSize, Some(victim))
    ensures |UsedSince(s, log, victim)| == |s| - 1 >= maxSize - 1
  {
    EveryRunKeepsInv(map[], [], maxSize, steps, s, log);
    forall k | k in s ensures LastUsed(log, k) == Some(s[k].lastAccessed) { assert EntryInv(s[k], log, k); }
    assert UsedSince(s, log, victim) == s.Keys - {victim};
    assert |s| == |s.Keys|;
  }

  // ----- The cache -----

  class Cache<D> {
    const maxSize: int
    var schemas: Schemas<D>
    ghost var log: seq<Event<D>>

    ghost predicate Valid()
      reads this
    {
      Inv(schemas, log, maxSize)
    }

    constructor (maxSize: int)
      ensures Valid() && this.maxSize == maxSize && schemas == map[] && log == []
    {
      this.maxSize, schemas, log := maxSize, map[], [];
    }

    method Lookup(key: string, at: int) returns (doc: Option<D>)
      requires Valid()
      modifies this
      ensures Valid()
      ensures schemas == Do(old(schemas), Get(key, at)) && log == old(log) + Logged(old(schemas), Get(key, at))
      ensures doc == if Hits(old(schemas), key, at) then Some(old(schemas)[key].doc) else None
      ensures doc.Some? ==> LastStored(old(log), key).Some? && LastStored(old(log), key).value.Stored?
                            && doc.value == LastStored(old(log), key).value.doc
    {
      StepKeepsInv(schemas, log, maxSize, Get(key, at));
      assert key in schemas ==> EntryInv(schemas[key], log, key);
      if key !in schemas || at > schemas[key].expiresAt {
        assert log + [] == log;
        return None;
      }
      log := log + [Served(key, at)];
      schemas := schemas[key := schemas[key].(lastAccessed := at, accessCount := schemas[key].accessCount + 1)];
      return Some(schemas[key].doc);
    }

    /** The scan for the least recently used entry, in whatever order the map is visited. */
    method Oldest() returns (oldest: string)
      requires "" !in schemas
      ensures schemas == map[] ==> oldest == ""
      ensures schemas != map[] ==> LeastRecent(schemas, oldest)
    {
      oldest := "";
      var oldestTime := 0;
      var todo := schemas.Keys;
      while todo != {}
        invariant todo <= schemas.Keys
        invariant oldest == "" ==> todo == schemas.Keys
        invariant oldest != "" ==> oldest in schemas && oldestTime == schemas[oldest].lastAccessed
        invariant oldest != "" ==> forall k :: k in schemas && k !in todo ==> oldestTime <= schemas[k].lastAccessed
        decreases |todo|
      {
        var k :| k in todo;
        todo := todo - {k};
        if oldest == "" || schemas[k].lastAccessed < oldestTime {
          oldest, oldestTime := k, schemas[k].lastAccessed;
        }
      }
    }

    method Store(key: string, doc: D, ttl: int, at: int) returns (ghost victim: Option<string>)
      requires Valid() && key != ""
      modifies this
      ensures Valid() && MayEvict(old(schemas), maxSize, victim)
      ensures schemas == Do(old(schemas), Set(key, doc, ttl, at, victim)) &&
        log == old(log) + [Stored(key, doc, ttl, at)]
    {
      victim := None;
      var kept := schemas;
      if |schemas| >= maxSize {
        var oldest := Oldest();
        if oldest != "" {
          victim := Some(oldest);
          kept := schemas - {oldest};
        }
      }
      StepKeepsInv(schemas, log, maxSize, Set(key, doc, ttl, at, victim));
      schemas := kept[key := Cached(doc, at + ttl, at, 1)];
      log := log + [Stored(key, doc, ttl, at)];
    }

    method ExpiredKeys(at: int) returns (expired: seq<string>)
      ensures forall k :: k in expired <==> k in schemas && at > schemas[k].expiresAt
      ensures forall i, j :: 0 <= i < j < |expired| ==> expired[i] != expired[j]
    {
      expired := [];
      var todo := schemas.Keys;
      while todo != {}
        invariant todo <= schemas.Keys
        invariant forall k :: k in expired <==> k in schemas && k !in todo && at > schemas[k].expiresAt
        invariant forall i, j :: 0 <= i < j < |expired| ==> expired[i] != expired[j]
        decreases |todo|
      {
        var k :| k in todo;
        todo := todo - {k};
        if at > schemas[k].expiresAt {
          expired := expired + [k];
        }
      }
    }

    method DeleteAll(keys: seq<string>)
      requires forall i :: 0 <= i < |keys| ==> keys[i] in schemas
      requires forall i, j :: 0 <= i < j < |keys| ==> keys[i] != keys[j]
      modifies this`schemas
      ensures |schemas| == |old(schemas)| - |keys|
      ensures forall k :: k in schemas <==> k in old(schemas) && k !in keys
      ensures forall k :: k in schemas ==> schemas[k] == old(schemas)[k]
    {
      for n := 0 to |keys|
        invariant |schemas| == |old(schemas)| - n
        invariant forall i :: n <= i < |keys| ==> keys[i] in schemas
        invariant forall k :: k in schemas <==> k in old(schemas) && k !in keys[..n]
        invariant forall k :: k in schemas ==> schemas[k] == old(schemas)[k]
      {
        OneFewer(schemas, keys[n]);
        schemas := schemas - {keys[n]};
        assert keys[..n + 1] == keys[..n] + [keys[n]];
      }
      assert keys[..|keys|] == keys;
    }

    /** Collects the expired keys, then deletes them. */
    method CleanupExpired(at: int) returns (n: nat)
      requires Valid()
      modifies this`schemas
      ensures Valid()
      ensures schemas == Do(old(schemas), Cleanup(at)) && n == |old(schemas)| - |schemas|
    {
      StepKeepsInv(schemas, log, maxSize, Cleanup(at));
      assert log + [] == log;
      var expired := ExpiredKeys(at);
      DeleteAll(expired);
      assert schemas == Unexpired(old(schemas), at);
      n := |expired|;
    }
  }
}
