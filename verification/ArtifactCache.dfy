/** The cache of translation artifacts: first in, first out, one time to live for artifacts and one for remembered
    absences.
    schemaversionmediator.go: artifactCache, newArtifactCache, get, set. */
module ArtifactCache {
  import opened Text

  datatype Config = Config(positiveTTL: int, negativeTTL: int, maxEntries: nat)

  /** No artifact means that the registry is known to have none. */
  datatype Entry<A> = Entry(artifact: Option<A>, fetchedAt: int)

  datatype State<A> = State(entries: map<string, Entry<A>>, keys: seq<string>)

  function TTL<A>(cfg: Config, e: Entry<A>): int {
    if e.artifact.Some? then cfg.positiveTTL else cfg.negativeTTL
  }

  function Put<A>(cfg: Config, s: State<A>, key: string, e: Entry<A>): State<A>
    requires cfg.maxEntries > 0
  {
    if key in s.entries then s.(entries := s.entries[key := e])
    else
      var full := |s.keys| >= cfg.maxEntries;
      var kept := if full then s.entries - {s.keys[0]} else s.entries;
      State(kept[key := e], (if full then s.keys[1..] else s.keys) + [key])
  }

  /** The write-locked half of a read that found an expired entry: whatever is there by now is checked again, against
      the time to live of the entry that was read. */
  function Drop<A>(s: State<A>, key: string, ttl: int, now: int): State<A> {
    if key in s.entries && now - s.entries[key].fetchedAt > ttl then s.(entries := s.entries - {key}) else s
  }

  // ----- Interleaved readers and writers -----

  datatype Stored<A> = Stored(key: string, entry: Entry<A>)

  /** A read between its atomic parts. `seen` is how much had been stored when it looked. */
  datatype Reader<A> =
    | Looked(key: string, entry: Entry<A>, seen: nat)
    | Expired(key: string, ttl: int)
    | Missed
    | Hit(key: string, entry: Entry<A>, seen: nat, at: int)

  /** `arrived` says, for each key, after how many stores its entry last came in; storing again over an entry that is
      there does not bring it in anew. */
  datatype System<A> = System(state: State<A>, log: seq<Stored<A>>, arrived: map<string, nat>,
                              readers: map<nat, Reader<A>>)

  /** An empty cache and nobody reading. */
  function Start<A>(): System<A> {
    System(State(map[], []), [], map[], map[])
  }

  datatype Step<A> = Set(key: string, entry: Entry<A>) | Look(reader: nat, key: string) | Decide(reader: nat, now: int)
                   | Evict(reader: nat, now: int)

  predicate Enabled<A>(y: System<A>, step: Step<A>) {
    match step
    case Set(_, _) => true
    case Look(r, _) => r !in y.readers
    case Decide(r, _) => r in y.readers && y.readers[r].Looked?
    case Evict(r, _) => r in y.readers && y.readers[r].Expired?
  }

  function Do<A>(cfg: Config, y: System<A>, step: Step<A>): System<A>
    requires cfg.maxEntries > 0 && Enabled(y, step)
  {
    match step
    case Set(key, entry) =>
      y.(state := Put(cfg, y.state, key, entry), log := y.log + [Stored(key, entry)],
         arrived := if key in y.state.entries then y.arrived else y.arrived[key := |y.log|])
    case Look(r, key) =>
      y.(readers := y.readers[r := if key in y.state.entries then Looked(key, y.state.entries[key], |y.log|)
                              else Missed])
    case Decide(r, now) =>
      var Looked(key, entry, seen) := y.readers[r];
      y.(readers := y.readers[r := if now - entry.fetchedAt > TTL(cfg, entry) then Expired(key, TTL(cfg, entry))
                                   else Hit(key, entry, seen, now)])
    case Evict(r, now) =>
      var Expired(key, ttl) := y.readers[r];
      y.(state := Drop(y.state, key, ttl, now), readers := y.readers[r := Missed])
  }

  ghost predicate Runs<A>(cfg: Config, y: System<A>, steps: seq<Step<A>>, z: System<A>)
    requires cfg.maxEntries > 0
    decreases |steps|
  {
    if steps == [] then y == z
    else Enabled(y, steps[0]) && Runs(cfg, Do(cfg, y, steps[0]), steps[1..], z)
  }

  /** The value last stored for a key. */
  function LastSet<A>(log: seq<Stored<A>>, key: string): Option<Entry<A>> {
    if log == [] then None
    else if log[|log| - 1].key == key then Some(log[|log| - 1].entry)
    else LastSet(log[..|log| - 1], key)
  }

  /** Every entry is listed, the list is bounded, stale slots included, and every entry is the last one stored for its
      key. */
  ghost predicate StateInv<A>(cfg: Config, s: State<A>, log: seq<Stored<A>>) {
    && |s.keys| <= cfg.maxEntries
    && forall key :: key in s.entries ==> key in s.keys && LastSet(log, key) == Some(s.entries[key])
  }

  /** A hit is what was last stored for its key when the reader looked, and not past its time to live. */
  ghost predicate ReaderInv<A>(cfg: Config, r: Reader<A>, log: seq<Stored<A>>) {
    match r
    case Looked(key, entry, seen) => seen <= |log| && LastSet(log[..seen], key) == Some(entry)
    case Hit(key, entry, seen, at) =>
      seen <= |log| && LastSet(log[..seen], key) == Some(entry) && at - entry.fetchedAt <= TTL(cfg, entry)
    case _ => true
  }

  ghost predicate Inv<A>(cfg: Config, y: System<A>) {
    StateInv(cfg, y.state, y.log) && forall r :: r in y.readers ==> ReaderInv(cfg, y.readers[r], y.log)
  }

  lemma {:induction false} PutKeeps<A>(cfg: Config, s: State<A>, log: seq<Stored<A>>, key: string, e: Entry<A>)
    requires cfg.maxEntries > 0 && StateInv(cfg, s, log)
    ensures StateInv(cfg, Put(cfg, s, key, e), log + [Stored(key, e)])
  {
    var t, longer := Put(cfg, s, key, e), log + [Stored(key, e)];
    assert longer[..|log|] == log;
    forall k | k in t.entries ensures k in t.keys && LastSet(longer, k) == Some(t.entries[k]) {
      if k != key {
        var i :| 0 <= i < |s.keys| && s.keys[i] == k;
        assert k in t.keys by {
          if key !in s.entries && |s.keys| >= cfg.maxEntries {
            assert s.keys[1..][i - 1] == k;
          }
        }
      }
    }
  }

  lemma {:induction false} StepKeepsInv<A>(cfg: Config, y: System<A>, step: Step<A>)
    requires cfg.maxEntries > 0 && Inv(cfg, y) && Enabled(y, step)
    ensures Inv(cfg, Do(cfg, y, step))
  {
    match step
    case Set(key, entry) =>
      PutKeeps(cfg, y.state, y.log, key, entry);
      var longer := y.log + [Stored(key, entry)];
      assert forall n :: 0 <= n <= |y.log| ==> longer[..n] == y.log[..n];
    case Look(r, key) =>
      assert y.log[..|y.log|] == y.log;
    case Decide(r, now) =>
    case Evict(r, now) =>
  }

  /** Over every interleaving of reads, stores and expiries. */
  lemma {:induction false} EveryRunKeepsInv<A>(cfg: Config, y: System<A>, steps: seq<Step<A>>, z: System<A>)
    requires cfg.maxEntries > 0 && Inv(cfg, y) && Runs(cfg, y, steps, z)
    ensures Inv(cfg, z)
    decreases |steps|
  {
    if steps != [] {
      StepKeepsInv(cfg, y, steps[0]);
      EveryRunKeepsInv(cfg, Do(cfg, y, steps[0]), steps[1..], z);
    }
  }

  lemma {:induction false} ListedAreFew(keys: seq<string>, listed: set<string>)
    requires forall k :: k in listed ==> k in keys
    ensures |listed| <= |keys|
    decreases |keys|
  {
    if keys == [] {
      assert listed == {};
    } else {
      var n := |keys| - 1;
      forall k | k in listed - {keys[n]} ensures k in keys[..n] {
        var i :| 0 <= i < |keys| && keys[i] == k;
        assert keys[..n][i] == k;
      }
      ListedAreFew(keys[..n], listed - {keys[n]});
      assert |listed| <= |listed - {keys[n]}| + 1 by {
        if keys[n] !in listed { assert listed - {keys[n]} == listed; }
      }
    }
  }

  /** From an empty cache, every run leaves at most `maxEntries` entries and slots, and every hit handed out is the
      value last stored for its key when it was looked up, still within its positive or negative time to live. */
  lemma {:induction false} CacheIsSound<A>(cfg: Config, steps: seq<Step<A>>, y: System<A>)
    requires cfg.maxEntries > 0 && Runs(cfg, Start(), steps, y)
    ensures |y.state.keys| <= cfg.maxEntries && |y.state.entries| <= cfg.maxEntries
    ensures forall r :: r in y.readers && y.readers[r].Hit? ==>
      var Hit(key, entry, seen, at) := y.readers[r];
      && seen <= |y.log| && LastSet(y.log[..seen], key) == Some(entry)
      && at - entry.fetchedAt <= if entry.artifact.Some? then cfg.positiveTTL else cfg.negativeTTL
  {
    EveryRunKeepsInv(cfg, Start(), steps, y);
    ListedAreFew(y.state.keys, y.state.entries.Keys);
    assert |y.state.entries| == |y.state.entries.Keys|;
    assert forall r :: r in y.readers ==> ReaderInv(cfg, y.readers[r], y.log);
  }

  /** Hits do happen: whatever was there before, a reader that looks after a value has been stored gets that value,
      as long as its age is within the positive or, for a remembered absence, the negative time to live, and otherwise
      goes on to remove it. */
  lemma {:induction false} StoredIsHitIff<A>(cfg: Config, y: System<A>, key: string, entry: Entry<A>, r: nat, now: int)
    requires cfg.maxEntries > 0 && r !in y.readers
    ensures var stored := Do(cfg, y, Set(key, entry));
      && Enabled(stored, Look(r, key))
      && var looked := Do(cfg, stored, Look(r, key));
         && Enabled(looked, Decide(r, now))
         && var decided := Do(cfg, looked, Decide(r, now)).readers[r];
            && (decided == Hit(key, entry, |y.log| + 1, now) <==>
                now - entry.fetchedAt <= if entry.artifact.Some? then cfg.positiveTTL else cfg.negativeTTL)
            && (decided.Hit? || decided.Expired?)
  {}

  // ----- The order of the slots -----

  /** The slot an entry is in the list by: the last one of its key. A slot of a key that is gone, or that has come in
      again since, is stale. */
  predicate Current<A>(s: State<A>, i: nat) {
    i < |s.keys| && s.keys[i] in s.entries && s.keys[i] !in s.keys[i + 1..]
  }

  /** The first current slot from `i` on, or the length of the list. */
  function FirstCurrent<A>(s: State<A>, i: nat): (n: nat)
    requires i <= |s.keys|
    ensures i <= n <= |s.keys| && (n < |s.keys| ==> Current(s, n)) && forall k :: i <= k < n ==> !Current(s, k)
    decreases |s.keys| - i
  {
    if i == |s.keys| || Current(s, i) then i else FirstCurrent(s, i + 1)
  }

  /** Current slots stand in the order in which their entries came in. */
  ghost predicate OrderInv<A>(y: System<A>) {
    && (forall key :: key in y.state.entries ==> key in y.arrived && y.arrived[key] < |y.log|)
    && (forall i, j :: 0 <= i < j && Current(y.state, i) && Current(y.state, j) ==>
          y.arrived[y.state.keys[i]] < y.arrived[y.state.keys[j]])
  }

  /** A slot that is current after a store was current before, at the place it had then, or is the new one. */
  lemma {:induction false} CurrentAfterPut<A>(cfg: Config, s: State<A>, key: string, e: Entry<A>, i: nat)
    requires cfg.maxEntries > 0 && key !in s.entries && Current(Put(cfg, s, key, e), i)
    ensures var t, d := Put(cfg, s, key, e), if |s.keys| >= cfg.maxEntries then 1 else 0;
      if i == |t.keys| - 1 then t.keys[i] == key
      else Current(s, i + d) && t.keys[i] == s.keys[i + d] && t.keys[i] != key
  {
    var t, d := Put(cfg, s, key, e), if |s.keys| >= cfg.maxEntries then 1 else 0;
    var n := |t.keys| - 1;
    assert t.keys == s.keys[d..] + [key];
    if i < n {
      assert t.keys[i + 1..][n - i - 1] == key;
      forall j | i + d < j < |s.keys| ensures s.keys[j] != t.keys[i] {
        assert t.keys[i + 1..][j - d - i - 1] == s.keys[j];
      }
    }
  }

  lemma {:induction false} PutKeepsOrder<A>(cfg: Config, y: System<A>, key: string, e: Entry<A>)
    requires cfg.maxEntries > 0 && OrderInv(y)
    ensures OrderInv(Do(cfg, y, Set(key, e)))
  {
    var z := Do(cfg, y, Set(key, e));
    if key in y.state.entries {
      assert forall i: nat :: Current(z.state, i) ==> Current(y.state, i);
    } else {
      var d := if |y.state.keys| >= cfg.maxEntries then 1 else 0;
      forall i, j | 0 <= i < j && Current(z.state, i) && Current(z.state, j)
        ensures z.arrived[z.state.keys[i]] < z.arrived[z.state.keys[j]]
      {
        CurrentAfterPut(cfg, y.state, key, e, i);
        CurrentAfterPut(cfg, y.state, key, e, j);
        assert Current(y.state, i + d);
      }
    }
  }

  lemma {:induction false} StepKeepsOrder<A>(cfg: Config, y: System<A>, step: Step<A>)
    requires cfg.maxEntries > 0 && OrderInv(y) && Enabled(y, step)
    ensures OrderInv(Do(cfg, y, step))
  {
    if step.Set? {
      PutKeepsOrder(cfg, y, step.key, step.entry);
    } else {
      var z := Do(cfg, y, step);
      assert forall i: nat :: Current(z.state, i) ==> Current(y.state, i);
    }
  }

  lemma {:induction false} EveryRunKeepsOrder<A>(cfg: Config, y: System<A>, steps: seq<Step<A>>, z: System<A>)
    requires cfg.maxEntries > 0 && OrderInv(y) && Runs(cfg, y, steps, z)
    ensures OrderInv(z)
    decreases |steps|
  {
    if steps != [] {
      StepKeepsOrder(cfg, y, steps[0]);
      EveryRunKeepsOrder(cfg, Do(cfg, y, steps[0]), steps[1..], z);
    }
  }

  /** Over every interleaving: of two entries, the one that came in first is the one whose slot stands first. */
  lemma {:induction false} SlotOrderIsArrival<A>(cfg: Config, steps: seq<Step<A>>, y: System<A>, i: nat, j: nat)
    requires cfg.maxEntries > 0 && Runs(cfg, Start(), steps, y) && Current(y.state, i) && Current(y.state, j)
    ensures y.state.keys[i] in y.arrived && y.state.keys[j] in y.arrived
    ensures i < j <==> y.arrived[y.state.keys[i]] < y.arrived[y.state.keys[j]]
  {
    EveryRunKeepsOrder(cfg, Start(), steps, y);
  }

  // ----- First in, first out -----

  /** The entry that came in first of those that are there. */
  ghost predicate CameInFirst<A>(y: System<A>, oldest: string) {
    && oldest in y.state.entries && oldest in y.arrived
    && forall key :: key in y.state.entries && key != oldest ==> key in y.arrived && y.arrived[oldest] < y.arrived[key]
  }

  /** What storing `key` evicts. */
  function Evicted<A>(cfg: Config, s: State<A>, key: string, e: Entry<A>): set<string>
    requires cfg.maxEntries > 0
  {
    s.entries.Keys - Put(cfg, s, key, e).entries.Keys
  }

  /** Every entry has a current slot. */
  lemma {:induction false} EntryHasSlot<A>(s: State<A>, key: string, n: nat) returns (i: nat)
    requires key in s.entries && n <= |s.keys| && key in s.keys[..n] && key !in s.keys[n..]
    ensures Current(s, i) && s.keys[i] == key
    decreases n
  {
    i := n - 1;
    if s.keys[i] == key {
      assert s.keys[i + 1..] == s.keys[n..];
    } else {
      assert s.keys[..n] == s.keys[..i] + [s.keys[i]] && s.keys[i..] == [s.keys[i]] + s.keys[n..];
      i := EntryHasSlot(s, key, i);
    }
  }

  lemma {:induction false} FirstNotAfter<A>(s: State<A>, j: nat)
    requires Current(s, j)
    ensures FirstCurrent(s, 0) <= j && Current(s, FirstCurrent(s, 0))
  {
    assert j < FirstCurrent(s, 0) ==> !Current(s, j);
  }

  lemma {:induction false} EntryHasCurrent<A>(cfg: Config, s: State<A>, log: seq<Stored<A>>, key: string)
    returns (j: nat)
    requires StateInv(cfg, s, log) && key in s.entries
    ensures Current(s, j) && s.keys[j] == key
  {
    assert s.keys[..|s.keys|] == s.keys;
    j := EntryHasSlot(s, key, |s.keys|);
  }

  lemma {:induction false} FirstSlotBeats<A>(cfg: Config, y: System<A>, key: string)
    requires StateInv(cfg, y.state, y.log) && OrderInv(y) && key in y.state.entries
    ensures var s := y.state; var i := FirstCurrent(s, 0);
      i < |s.keys| && s.keys[i] in y.arrived && key in y.arrived
      && (key != s.keys[i] ==> y.arrived[s.keys[i]] < y.arrived[key])
  {
    var s := y.state;
    var j := EntryHasCurrent(cfg, s, y.log, key);
    FirstNotAfter(s, j);
    var i := FirstCurrent(s, 0);
    assert i < j ==> y.arrived[s.keys[i]] < y.arrived[s.keys[j]];
  }

  /** The first current slot carries the entry that came in first. */
  lemma {:induction false} FirstSlotIsOldest<A>(cfg: Config, y: System<A>, oldest: string)
    requires StateInv(cfg, y.state, y.log) && OrderInv(y) && CameInFirst(y, oldest)
    ensures var i := FirstCurrent(y.state, 0); i < |y.state.keys| && y.state.keys[i] == oldest
  {
    FirstSlotBeats(cfg, y, oldest);
    var j := EntryHasCurrent(cfg, y.state, y.log, oldest);
    FirstNotAfter(y.state, j);
  }

  /** While there are entries, one of them came in first: the one of the first current slot. */
  lemma {:induction false} SomeEntryCameInFirst<A>(cfg: Config, steps: seq<Step<A>>, y: System<A>)
    requires cfg.maxEntries > 0 && Runs(cfg, Start(), steps, y) && y.state.entries != map[]
    ensures var i := FirstCurrent(y.state, 0); i < |y.state.keys| && CameInFirst(y, y.state.keys[i])
  {
    EveryRunKeepsInv(cfg, Start(), steps, y);
    EveryRunKeepsOrder(cfg, Start(), steps, y);
    var some :| some in y.state.entries;
    FirstSlotBeats(cfg, y, some);
    var oldest := y.state.keys[FirstCurrent(y.state, 0)];
    forall key | key in y.state.entries && key != oldest ensures y.arrived[oldest] < y.arrived[key] {
      FirstSlotBeats(cfg, y, key);
    }
  }

  /** Over every interleaving: storing a new key in a full cache evicts the entry that came in first exactly when the
      first current slot carries the key of the front slot. Otherwise it evicts the entry of the front slot, which came
      in later, or, when that is gone, none at all. */
  lemma {:induction false} EvictsOldestIff<A>(cfg: Config, steps: seq<Step<A>>, y: System<A>, key: string, e: Entry<A>,
                                              oldest: string)
    requires cfg.maxEntries > 0 && Runs(cfg, Start(), steps, y)
    requires |y.state.keys| >= cfg.maxEntries && key !in y.state.entries && CameInFirst(y, oldest)
    ensures var s := y.state; var i, out := FirstCurrent(s, 0), Evicted(cfg, s, key, e);
      && i < |s.keys| && (out == {oldest} <==> s.keys[i] == s.keys[0])
      && (s.keys[i] != s.keys[0] ==> out == if s.keys[0] in s.entries then {s.keys[0]} else {})
  {
    EveryRunKeepsInv(cfg, Start(), steps, y);
    EveryRunKeepsOrder(cfg, Start(), steps, y);
    FirstSlotIsOldest(cfg, y, oldest);
    var s := y.state;
    assert Put(cfg, s, key, e).entries.Keys == s.entries.Keys - {s.keys[0]} + {key};
    assert oldest in Evicted(cfg, s, key, e) <==> s.keys[0] == oldest;
  }

  predicate Distinct(keys: seq<string>) {
    forall i, j :: 0 <= i < j < |keys| ==> keys[i] != keys[j]
  }

  /** The slots are exactly the entries, each once. */
  ghost predicate Queue<A>(s: State<A>) {
    Distinct(s.keys) && forall k :: k in s.keys <==> k in s.entries
  }

  lemma {:induction false} WithoutFirst(keys: seq<string>)
    requires Distinct(keys) && keys != []
    ensures Distinct(keys[1..]) && forall k :: k in keys[1..] <==> k in keys && k != keys[0]
  {
    assert keys == [keys[0]] + keys[1..];
    assert forall i :: 0 <= i < |keys[1..]| ==> keys[1..][i] == keys[i + 1];
  }

  lemma {:induction false} WithLast(keys: seq<string>, key: string)
    requires Distinct(keys) && key !in keys
    ensures Distinct(keys + [key]) && forall k :: k in keys + [key] <==> k in keys || k == key
  {}

  /** Stores keep a queue a queue, and touch no other entry but the one they evict. */
  lemma {:induction false} PutKeepsQueue<A>(cfg: Config, s: State<A>, key: string, e: Entry<A>)
    requires cfg.maxEntries > 0 && Queue(s)
    ensures var t := Put(cfg, s, key, e);
      && Queue(t)
      && (forall k :: k in t.keys <==>
          k == key || (k in s.keys && !(key !in s.keys && |s.keys| >= cfg.maxEntries && k == s.keys[0])))
      && forall k :: k in t.keys ==> t.entries[k] == if k == key then e else s.entries[k]
  {
    if key !in s.entries {
      if |s.keys| >= cfg.maxEntries {
        WithoutFirst(s.keys);
      }
      WithLast(if |s.keys| >= cfg.maxEntries then s.keys[1..] else s.keys, key);
    }
  }

  /** Only dropping an expired entry ends this: its slot stays behind. */
  lemma {:induction false} DropLeavesSlot<A>(s: State<A>, key: string, ttl: int, now: int)
    requires Queue(s)
    ensures Queue(Drop(s, key, ttl, now)) <==> !(key in s.entries && now - s.entries[key].fetchedAt > ttl)
  {
    var t := Drop(s, key, ttl, now);
    if key in s.entries && now - s.entries[key].fetchedAt > ttl {
      assert key in t.keys && key !in t.entries;
    }
  }

  /** No step of the run takes an expired entry out. */
  ghost predicate NothingDropped<A>(cfg: Config, y: System<A>, steps: seq<Step<A>>)
    requires cfg.maxEntries > 0
    decreases |steps|
  {
    steps == [] ||
    (Enabled(y, steps[0]) && (steps[0].Evict? ==> Do(cfg, y, steps[0]).state == y.state)
     && NothingDropped(cfg, Do(cfg, y, steps[0]), steps[1..]))
  }

  lemma {:induction false} RunKeepsQueue<A>(cfg: Config, y: System<A>, steps: seq<Step<A>>, z: System<A>)
    requires cfg.maxEntries > 0 && Queue(y.state) && Runs(cfg, y, steps, z) && NothingDropped(cfg, y, steps)
    ensures Queue(z.state)
    decreases |steps|
  {
    if steps != [] {
      if steps[0].Set? {
        PutKeepsQueue(cfg, y.state, steps[0].key, steps[0].entry);
      }
      RunKeepsQueue(cfg, Do(cfg, y, steps[0]), steps[1..], z);
    }
  }

  /** In every run that drops nothing, a full cache evicts exactly the entry that came in first. */
  lemma {:induction false} FifoWhileNothingDropped<A>(cfg: Config, steps: seq<Step<A>>, y: System<A>, key: string,
                                                      e: Entry<A>, oldest: string)
    requires cfg.maxEntries > 0 && Runs(cfg, Start(), steps, y) && NothingDropped(cfg, Start(), steps)
    requires |y.state.keys| >= cfg.maxEntries && key !in y.state.entries && CameInFirst(y, oldest)
    ensures Evicted(cfg, y.state, key, e) == {oldest}
  {
    RunKeepsQueue(cfg, Start(), steps, y);
    EvictsOldestIff(cfg, steps, y, key, e, oldest);
    var s := y.state;
    assert Current(s, 0) by {
      assert forall j :: 0 <= j < |s.keys[1..]| ==> s.keys[1..][j] == s.keys[j + 1];
    }
  }

  /** With three slots: `a` expires, is dropped and stored again, and the next new key evicts it, the newest entry,
      instead of `b`. */
  lemma {:induction false} StaleSlotEvictsNewest<A>(cfg: Config, a: string, b: string, c: string, stale: Entry<A>,
                                                    other: Entry<A>, renewed: Entry<A>, now: int)
    requires cfg.maxEntries == 3 && a != b && b != c && a != c && now - stale.fetchedAt > TTL(cfg, stale)
    ensures var s := Put(cfg, Put(cfg, State(map[], []), a, stale), b, other);
      var again := Put(cfg, Drop(s, a, TTL(cfg, stale), now), a, renewed);
      var last := Put(cfg, again, c, other);
      again.keys == [a, b, a] && a !in last.entries && b in last.entries
  {}

  // ----- The cache -----

  class Cache<A> {
    const cfg: Config
    var entries: map<string, Entry<A>>
    var keys: seq<string>
    ghost var log: seq<Stored<A>>

    ghost function Contents(): State<A>
      reads this
    {
      State(entries, keys)
    }

    ghost predicate Valid()
      reads this
    {
      cfg.maxEntries > 0 && StateInv(cfg, Contents(), log)
    }

    constructor (cfg: Config)
      requires cfg.maxEntries > 0
      ensures Valid() && this.cfg == cfg && entries == map[] && keys == [] && log == []
    {
      this.cfg, entries, keys, log := cfg, map[], [], [];
    }

    /** Two clock readings, one for the check under the read lock and one for the check under the write lock. */
    method Get(key: string, now: int, later: int) returns (artifact: Option<A>, found: bool)
      requires Valid() && now <= later
      modifies this`entries
      ensures Valid()
      ensures var e := old(entries);
        if key in e && now - e[key].fetchedAt <= (if e[key].artifact.Some? then cfg.positiveTTL else cfg.negativeTTL)
        then found && LastSet(log, key) == Some(e[key]) && artifact == e[key].artifact && entries == e
        else !found && artifact == None && entries == e - {key}
    {
      if key !in entries {
        assert entries - {key} == entries;
        return None, false;
      }
      var entry := entries[key];
      var ttl := if entry.artifact.None? then cfg.negativeTTL else cfg.positiveTTL;
      if now - entry.fetchedAt > ttl {
        if key in entries && later - entries[key].fetchedAt > ttl {
          entries := entries - {key};
        }
        return None, false;
      }
      return entry.artifact, true;
    }

    method Set(key: string, artifact: Option<A>, now: int)
      requires Valid()
      modifies this
      ensures Valid()
      ensures Contents() == Put(cfg, old(Contents()), key, Entry(artifact, now))
      ensures log == old(log) + [Stored(key, Entry(artifact, now))]
    {
      PutKeeps(cfg, Contents(), log, key, Entry(artifact, now));
      if key !in entries {
        if |keys| >= cfg.maxEntries {
          var oldest := keys[0];
          keys := keys[1..];
          entries := entries - {oldest};
        }
        keys := keys + [key];
      }
      entries := entries[key := Entry(artifact, now)];
      log := log + [Stored(key, Entry(artifact, now))];
    }
  }
}
