/** Looking up a subscriber's signing key in the DeDi registry, with and without the cache.
    dediregistry.go: validSegment, validPath, escapePath, lookupCacheKey, isSubscriberRecord, cachedLookup, Lookup,
    containsAny, validateMemberships, validateContextNetworkID. */
module DediLookup {
  import opened Text
  import opened UrlText
  import Utf8

  // ----- Path segments -----

  predicate ValidSegment(s: string) {
    TrimSpace(s) != "" && s != "." && s != ".."
  }

  /** `utf8` stands for the byte encoding of strings. */
  type Encoding = string -> string

  ghost predicate IsEncoding(utf8: Encoding) {
    && (forall s :: forall c :: c in utf8(s) ==> IsByte(c))
    && (forall s, t :: utf8(s) == utf8(t) ==> s == t)
    && (forall s :: (forall c :: c in s ==> c as int < 128) ==> utf8(s) == s)
  }

  /** There is such an encoding. */
  lemma {:induction false} EncodingExists()
    ensures IsEncoding(Utf8.Bytes)
  {
    forall s, t ensures Utf8.Bytes(s) == Utf8.Bytes(t) ==> s == t {
      if Utf8.Bytes(s) == Utf8.Bytes(t) { Utf8.BytesDetermine(s, t); }
    }
    forall s ensures (forall c :: c in Utf8.Bytes(s) ==> IsByte(c)) &&
        ((forall c :: c in s ==> c as int < 128) ==> Utf8.Bytes(s) == s) {
      Utf8.BytesAreBytes(s);
    }
  }

  function Escaped(utf8: Encoding, s: string): string
    requires forall c :: c in utf8(s) ==> IsByte(c)
  {
    PathEscape(utf8(s))
  }

  lemma {:induction false} EscapedHasNoSlash(utf8: Encoding, s: string)
    requires IsEncoding(utf8)
    ensures '/' !in Escaped(utf8, s)
  {
    assert !Unescaped('/') by { SlashIsEscaped('/'); }
  }

  lemma {:induction false} SlashIsEscaped(c: char)
    requires c == '/'
    ensures !Unescaped(c)
  {}

  /** `escapePath`, segment by segment in place. */
  method EscapePath(utf8: Encoding, p: string) returns (r: string)
    requires IsEncoding(utf8)
    ensures Split(r, '/') == EscapedAll(utf8, Split(p, '/'))
  {
    var segments := Split(p, '/');
    var i := 0;
    ghost var before := segments;
    while i < |segments|
      invariant 0 <= i <= |segments| == |before|
      invariant forall k :: 0 <= k < i ==> segments[k] == Escaped(utf8, before[k])
      invariant forall k :: i <= k < |before| ==> segments[k] == before[k]
    {
      segments := segments[i := Escaped(utf8, segments[i])];
      i := i + 1;
    }
    assert segments == EscapedAll(utf8, before);
    forall k | 0 <= k < |segments| ensures '/' !in segments[k] {
      EscapedHasNoSlash(utf8, before[k]);
    }
    SplitJoin(segments, '/');
    r := Join(segments, '/');
  }

  ghost function EscapedAll(utf8: Encoding, segments: seq<string>): (r: seq<string>)
    requires IsEncoding(utf8)
    ensures |r| == |segments| && forall i :: 0 <= i < |r| ==> r[i] == Escaped(utf8, segments[i])
  {
    if segments == [] then []
    else EscapedAll(utf8, segments[..|segments| - 1]) + [Escaped(utf8, segments[|segments| - 1])]
  }

  /** Different IDs have different escaped paths, whatever slashes and percent signs they hold. */
  lemma {:induction false} EscapedPathDetermines(utf8: Encoding, p: string, q: string, escapedP: string,
                                                 escapedQ: string)
    requires IsEncoding(utf8)
    requires Split(escapedP, '/') == EscapedAll(utf8, Split(p, '/')) &&
      Split(escapedQ, '/') == EscapedAll(utf8, Split(q, '/'))
    requires escapedP == escapedQ
    ensures p == q
  {
    var a, b := Split(p, '/'), Split(q, '/');
    forall i | 0 <= i < |a| ensures a[i] == b[i] {
      assert EscapedAll(utf8, a)[i] == EscapedAll(utf8, b)[i];
      PathEscapeInjective(utf8(a[i]), utf8(b[i]));
    }
    JoinSplit(p, '/');
    JoinSplit(q, '/');
    assert a == b;
  }

  /** Escaping makes no dot segment and no empty one: an escaped segment is one of those only if the segment was. */
  lemma {:induction false} EscapedDotSegments(utf8: Encoding, s: string)
    requires IsEncoding(utf8)
    ensures Escaped(utf8, s) in ["", ".", ".."] <==> s in ["", ".", ".."]
  {
    forall t | t in ["", ".", ".."] ensures Escaped(utf8, t) == t && (Escaped(utf8, s) == t <==> s == t) {
      assert utf8(t) == t;
      DotsUnescaped(t);
      if Escaped(utf8, s) == t {
        PathEscapeInjective(utf8(s), utf8(t));
      }
    }
  }

  lemma {:induction false} DotsUnescaped(t: string)
    requires forall c :: c in t ==> c == '.'
    ensures PathEscape(t) == t
  {
    if t != "" {
      assert t[0] in t && forall c :: c in t[1..] ==> c in t;
      DotIsUnescaped(t[0]);
      DotsUnescaped(t[1..]);
    }
  }

  lemma {:induction false} DotIsUnescaped(c: char)
    requires c == '.'
    ensures Unescaped(c)
  {
    assert "-_.~$&+=:@"[2] == '.';
  }

  /** `validPath`, segment by segment. */
  method ValidPath(p: string) returns (valid: bool)
    ensures valid <==> forall s :: s in Split(p, '/') ==> ValidSegment(s)
  {
    var segments := Split(p, '/');
    for i := 0 to |segments|
      invariant forall k :: 0 <= k < i ==> ValidSegment(segments[k])
    {
      if !ValidSegment(segments[i]) {
        return false;
      }
    }
    return true;
  }

  // ----- The cache key -----

  const PREFIX := "dedi_lookup_v2_"

  function LookupCacheKey(utf8: Encoding, subscriberID: string, keyID: string): string
    requires forall c :: c in utf8(subscriberID) ==> IsByte(c)
    requires forall c :: c in utf8(keyID) ==> IsByte(c)
  {
    PREFIX + (Escaped(utf8, subscriberID) + ['/'] + Escaped(utf8, keyID))
  }

  lemma {:induction false} CutAtSlash(a: string, b: string, a': string, b': string)
    requires '/' !in a && '/' !in a' && a + ['/'] + b == a' + ['/'] + b'
    ensures a == a' && b == b'
  {
    var s, s' := a + ['/'] + b, a' + ['/'] + b';
    assert s[|a|] == '/' && s'[|a'|] == '/';
    assert forall i :: 0 <= i < |a| ==> s[i] == a[i];
    assert forall i :: 0 <= i < |a'| ==> s'[i] == a'[i];
    assert |a| == |a'|;
    assert a == s[..|a|] && a' == s'[..|a'|] && b == s[|a| + 1..] && b' == s'[|a'| + 1..];
  }

  /** No two subscriber and key pairs share a cache key. */
  lemma {:induction false} CacheKeyInjective(utf8: Encoding, sub: string, key: string, sub': string, key': string)
    requires IsEncoding(utf8)
    requires LookupCacheKey(utf8, sub, key) == LookupCacheKey(utf8, sub', key')
    ensures sub == sub' && key == key'
  {
    var a, b, a', b' := Escaped(utf8, sub), Escaped(utf8, key), Escaped(utf8, sub'), Escaped(utf8, key');
    assert (PREFIX + (a + ['/'] + b))[|PREFIX|..] == a + ['/'] + b;
    assert (PREFIX + (a' + ['/'] + b'))[|PREFIX|..] == a' + ['/'] + b';
    EscapedHasNoSlash(utf8, sub);
    EscapedHasNoSlash(utf8, sub');
    CutAtSlash(a, b, a', b');
    PathEscapeInjective(utf8(sub), utf8(sub'));
    PathEscapeInjective(utf8(key), utf8(key'));
  }

  // ----- Membership -----

  /** `containsAny`: a set of the allowed entries, empty ones left out, then a scan. */
  method ContainsAny(values: seq<string>, allowed: seq<string>) returns (found: bool)
    ensures found <==> exists v :: v in values && v in allowed && v != ""
  {
    if |values| == 0 || |allowed| == 0 {
      return false;
    }
    var allowedSet: set<string> := {};
    for i := 0 to |allowed|
      invariant forall v :: v in allowedSet <==> v in allowed[..i] && v != ""
    {
      if allowed[i] != "" {
        allowedSet := allowedSet + {allowed[i]};
      }
      assert allowed[..i + 1] == allowed[..i] + [allowed[i]];
    }
    assert allowed[..|allowed|] == allowed;
    for i := 0 to |values|
      invariant forall k :: 0 <= k < i ==> values[k] !in allowedSet
    {
      if values[i] in allowedSet {
        return true;
      }
    }
    return false;
  }

  datatype Reason = NoSubscriberID | NoKeyID | BadSegment | Upstream(error: int) | NoSigningKey | OtherSubscriber
                  | NotAllowed | NotMember | NetworkNotAllowed

  /** `agnostic` are the subscribers every network shares; `sameFold` is equality of IDs but for case. */
  datatype Client = Client(utf8: Encoding, allowedNetworkIDs: seq<string>, agnostic: set<string>,
                           sameFold: (string, string) -> bool)

  predicate Shares(values: seq<string>, allowed: seq<string>) {
    exists v :: v in values && v in allowed && v != ""
  }

  /** `validateMemberships`: what is wrong with the subscriber's networks for a request under `networkID`. */
  function MembershipProblem(c: Client, memberships: seq<string>, subscriberID: string,
                             networkID: string): Option<Reason> {
    if subscriberID in c.agnostic then None
    else if c.allowedNetworkIDs != [] && !Shares(memberships, c.allowedNetworkIDs) then Some(NotAllowed)
    else if networkID == "" then None
    else if networkID !in memberships then Some(NotMember)
    else if c.allowedNetworkIDs != [] && networkID !in c.allowedNetworkIDs then Some(NetworkNotAllowed)
    else None
  }

  method ValidateMemberships(c: Client, memberships: seq<string>, subscriberID: string, networkID: string)
    returns (problem: Option<Reason>)
    ensures problem == MembershipProblem(c, memberships, subscriberID, networkID)
  {
    if subscriberID in c.agnostic {
      return None;
    }
    if |c.allowedNetworkIDs| > 0 {
      var shares := ContainsAny(memberships, c.allowedNetworkIDs);
      if |memberships| == 0 || !shares {
        return Some(NotAllowed);
      }
    }
    if networkID == "" {
      return None;
    }
    var member := ContainsAny(memberships, [networkID]);
    if !member {
      return Some(NotMember);
    }
    if |c.allowedNetworkIDs| > 0 {
      var allowed := ContainsAny([networkID], c.allowedNetworkIDs);
      if !allowed {
        return Some(NetworkNotAllowed);
      }
    }
    return None;
  }

  // ----- Looking up -----

  datatype Subscription = Subscription(subscriberID: string, keyID: string, signingPublicKey: string,
                                       memberships: seq<string>)

  /** The registry's answer for a subscriber and key; a key that is empty counts as missing. */
  datatype Answer = Fails(error: int) | Record(subscriberID: string, signingPublicKey: string, memberships: seq<string>)

  type Registry = (string, string) -> Answer

  datatype Request = Request(subscriberID: string, keyID: string, networkID: string)

  datatype Outcome = Keys(subscriptions: seq<Subscription>) | Rejected(reason: Reason)

  predicate IsSubscriberRecord(c: Client, recordSubscriberID: string, subscriberID: string) {
    recordSubscriberID == "" || c.sameFold(recordSubscriberID, subscriberID)
  }

  function Malformed(r: Request): Option<Reason> {
    if r.subscriberID == "" then Some(NoSubscriberID)
    else if r.keyID == "" then Some(NoKeyID)
    else if !ValidSegment(r.subscriberID) || !ValidSegment(r.keyID) then Some(BadSegment)
    else None
  }

  function Verdict(c: Client, s: Subscription, networkID: string): Outcome {
    var problem := MembershipProblem(c, s.memberships, s.subscriberID, networkID);
    if problem.Some? then Rejected(problem.value) else Keys([s])
  }

  /** The lookup without a cache. */
  function Uncached(c: Client, registry: Registry, r: Request): Outcome {
    if Malformed(r).Some? then Rejected(Malformed(r).value)
    else
      match registry(r.subscriberID, r.keyID)
      case Fails(error) => Rejected(Upstream(error))
      case Record(subscriberID, key, memberships) =>
        if key == "" then Rejected(NoSigningKey)
        else if !IsSubscriberRecord(c, subscriberID, r.subscriberID) then Rejected(OtherSubscriber)
        else Verdict(c, Subscription(subscriberID, r.keyID, key, memberships), r.networkID)
  }

  // ----- Whose keys are given, and why not -----

  /** The ID can stand in a path of the registry. */
  predicate Usable(id: string) {
    id != "." && id != ".." && exists i :: 0 <= i < |id| && !IsSpace(id[i])
  }

  lemma {:induction false} TrimmedAway(s: string)
    ensures TrimSpace(s) == "" <==> forall i :: 0 <= i < |s| ==> IsSpace(s[i])
  {
    var before, after := TrimSpaceMeans(s);
    if TrimSpace(s) == "" {
      assert s == before + after;
      assert forall i :: 0 <= i < |s| ==> s[i] == if i < |before| then before[i] else after[i - |before|];
    } else {
      assert s[|before|] == TrimSpace(s)[0];
    }
  }

  lemma {:induction false} SegmentIsUsableIff(id: string)
    ensures ValidSegment(id) <==> Usable(id)
  {
    TrimmedAway(id);
  }

  /** The networks of the subscriber are in order for the request: it is one that every network shares; or it is in
      some allowed network, if there is a list of those, and in the network of the request, if that names one, which is
      then an allowed one too. */
  predicate InOrder(c: Client, subscriberID: string, memberships: seq<string>, networkID: string) {
    || subscriberID in c.agnostic
    || ((c.allowedNetworkIDs == [] || exists v :: v in memberships && v in c.allowedNetworkIDs && v != "")
        && (networkID == "" ||
            (networkID in memberships && (c.allowedNetworkIDs == [] || networkID in c.allowedNetworkIDs))))
  }

  /** A lookup gives keys exactly when both IDs are given and usable, the registry has a record with a signing key, the
      record is the subscriber's, and its networks are in order; they are the key of that record. */
  lemma {:induction false} GivesKeysIff(c: Client, registry: Registry, r: Request)
    ensures var answer := registry(r.subscriberID, r.keyID);
      Uncached(c, registry, r).Keys? <==>
      && Usable(r.subscriberID) && Usable(r.keyID) && answer.Record? && answer.signingPublicKey != ""
      && (answer.subscriberID == "" || c.sameFold(answer.subscriberID, r.subscriberID))
      && InOrder(c, answer.subscriberID, answer.memberships, r.networkID)
    ensures var answer := registry(r.subscriberID, r.keyID);
      Uncached(c, registry, r).Keys? ==>
      Uncached(c, registry, r).subscriptions ==
        [Subscription(answer.subscriberID, r.keyID, answer.signingPublicKey, answer.memberships)]
  {
    SegmentIsUsableIff(r.subscriberID);
    SegmentIsUsableIff(r.keyID);
  }

  predicate InNoAllowed(c: Client, subscriberID: string, memberships: seq<string>) {
    && subscriberID !in c.agnostic && c.allowedNetworkIDs != []
    && forall v :: v in memberships && v != "" ==> v !in c.allowedNetworkIDs
  }

  predicate InOther(c: Client, subscriberID: string, memberships: seq<string>, networkID: string) {
    subscriberID !in c.agnostic && networkID != "" && networkID !in memberships
  }

  predicate InForbidden(c: Client, subscriberID: string, networkID: string) {
    && subscriberID !in c.agnostic && networkID != "" && c.allowedNetworkIDs != []
    && networkID !in c.allowedNetworkIDs
  }

  /** One objection a lookup may meet. */
  predicate Objects(c: Client, registry: Registry, r: Request, reason: Reason) {
    var answer := registry(r.subscriberID, r.keyID);
    match reason
    case NoSubscriberID => r.subscriberID == ""
    case NoKeyID => r.keyID == ""
    case BadSegment => !Usable(r.subscriberID) || !Usable(r.keyID)
    case Upstream(error) => answer == Fails(error)
    case NoSigningKey => answer.Record? && answer.signingPublicKey == ""
    case OtherSubscriber =>
      answer.Record? && answer.subscriberID != "" && !c.sameFold(answer.subscriberID, r.subscriberID)
    case NotAllowed => answer.Record? && InNoAllowed(c, answer.subscriberID, answer.memberships)
    case NotMember => answer.Record? && InOther(c, answer.subscriberID, answer.memberships, r.networkID)
    case NetworkNotAllowed => answer.Record? && InForbidden(c, answer.subscriberID, r.networkID)
  }

  function Rank(reason: Reason): nat {
    match reason
    case NoSubscriberID => 0
    case NoKeyID => 1
    case BadSegment => 2
    case Upstream(_) => 3
    case NoSigningKey => 4
    case OtherSubscriber => 5
    case NotAllowed => 6
    case NotMember => 7
    case NetworkNotAllowed => 8
  }

  /** The checks of the networks come in their order. */
  lemma {:induction false} NetworksObject(c: Client, memberships: seq<string>, subscriberID: string, networkID: string)
    ensures MembershipProblem(c, memberships, subscriberID, networkID) ==
      if InNoAllowed(c, subscriberID, memberships) then Some(NotAllowed)
      else if InOther(c, subscriberID, memberships, networkID) then Some(NotMember)
      else if InForbidden(c, subscriberID, networkID) then Some(NetworkNotAllowed)
      else None
  {
    if c.allowedNetworkIDs != [] && !InNoAllowed(c, subscriberID, memberships) && subscriberID !in c.agnostic {
      var v :| v in memberships && v != "" && v in c.allowedNetworkIDs;
      assert Shares(memberships, c.allowedNetworkIDs);
    }
  }

  /** A rejection states an objection there is, and the first of those there are. */
  lemma {:induction false} FirstObjectionIsStated(c: Client, registry: Registry, r: Request, other: Reason)
    requires Uncached(c, registry, r).Rejected?
    ensures Objects(c, registry, r, Uncached(c, registry, r).reason)
    ensures Objects(c, registry, r, other) ==> Rank(Uncached(c, registry, r).reason) <= Rank(other)
  {
    SegmentIsUsableIff(r.subscriberID);
    SegmentIsUsableIff(r.keyID);
    var answer := registry(r.subscriberID, r.keyID);
    if answer.Record? {
      NetworksObject(c, answer.memberships, answer.subscriberID, r.networkID);
    }
    match other
    case NotAllowed =>
    case NotMember =>
    case _ =>
  }

  /** What the cache may hold under a key: results, or text that does not parse as any. */
  datatype Slot = Unreadable | Results(subscriptions: seq<Subscription>)

  type Cache = map<string, Slot>

  /** The answer from the cache, if there is one for this subscriber. */
  function FromCache(c: Client, cache: Cache, r: Request): Option<Outcome>
    requires forall x :: x in c.utf8(r.subscriberID) ==> IsByte(x)
    requires forall x :: x in c.utf8(r.keyID) ==> IsByte(x)
  {
    var key := LookupCacheKey(c.utf8, r.subscriberID, r.keyID);
    if key !in cache || cache[key].Unreadable? then None
    else
      var results := cache[key].subscriptions;
      if results == [] then Some(Keys([]))
      else if !IsSubscriberRecord(c, results[0].subscriberID, r.subscriberID) then None
      else
        var problem := MembershipProblem(c, results[0].memberships, results[0].subscriberID, r.networkID);
        Some(if problem.Some? then Rejected(problem.value) else Keys(results))
  }

  /** Results in the cache are those of some accepted lookup under their key. */
  ghost predicate CacheInv(c: Client, registry: Registry, cache: Cache)
    requires IsEncoding(c.utf8)
  {
    forall key :: key in cache && cache[key].Results? ==>
        exists r :: StoredFor(c, registry, cache[key].subscriptions, r, key)
  }

  ghost predicate StoredFor(c: Client, registry: Registry, results: seq<Subscription>, r: Request, key: string)
    requires IsEncoding(c.utf8)
  {
    key == LookupCacheKey(c.utf8, r.subscriberID, r.keyID) && Uncached(c, registry, r) == Keys(results)
  }

  /** An accepted lookup's result, and the verdict on it for another request of the same keys. */
  lemma {:induction false} SameKeysOtherNetwork(c: Client, registry: Registry, r: Request, r': Request)
    requires Uncached(c, registry, r').Keys? && r.subscriberID == r'.subscriberID && r.keyID == r'.keyID
    ensures var results := Uncached(c, registry, r').subscriptions;
      |results| == 1 && IsSubscriberRecord(c, results[0].subscriberID, r.subscriberID)
      && Uncached(c, registry, r) == Verdict(c, results[0], r.networkID)
  {}

  /** A hit gives what the lookup without a cache would: the same keys, and the verdict for this request's own
      network. */
  lemma {:induction false} HitIsUncached(c: Client, registry: Registry, cache: Cache, r: Request)
    requires IsEncoding(c.utf8) && CacheInv(c, registry, cache) && Malformed(r).None?
    ensures FromCache(c, cache, r).Some? ==> FromCache(c, cache, r).value == Uncached(c, registry, r)
  {
    var key := LookupCacheKey(c.utf8, r.subscriberID, r.keyID);
    if key in cache && cache[key].Results? {
      var results := cache[key].subscriptions;
      var r' :| StoredFor(c, registry, results, r', key);
      CacheKeyInjective(c.utf8, r.subscriberID, r.keyID, r'.subscriberID, r'.keyID);
      SameKeysOtherNetwork(c, registry, r, r');
      assert results == [results[0]];
    }
  }

  /** One atomic event: an accepted lookup stores its results, or a slot is lost or overwritten with something
      unreadable. */
  datatype Step = Store(r: Request) | Lose(key: string) | Garble(key: string)

  ghost predicate Enabled(c: Client, registry: Registry, step: Step) {
    step.Store? ==> Uncached(c, registry, step.r).Keys?
  }

  function Do(c: Client, registry: Registry, cache: Cache, step: Step): Cache
    requires IsEncoding(c.utf8) && Enabled(c, registry, step)
  {
    match step
    case Store(r) => cache[LookupCacheKey(c.utf8, r.subscriberID, r.keyID) :=
                           Results(Uncached(c, registry, r).subscriptions)]
    case Lose(key) => cache - {key}
    case Garble(key) => cache[key := Unreadable]
  }

  ghost predicate Runs(c: Client, registry: Registry, cache: Cache, steps: seq<Step>, cache': Cache)
    requires IsEncoding(c.utf8)
    decreases |steps|
  {
    if steps == [] then cache == cache'
    else Enabled(c, registry, steps[0]) && Runs(c, registry, Do(c, registry, cache, steps[0]), steps[1..], cache')
  }

  lemma {:induction false} StepKeepsCacheInv(c: Client, registry: Registry, cache: Cache, step: Step)
    requires IsEncoding(c.utf8) && CacheInv(c, registry, cache) && Enabled(c, registry, step)
    ensures CacheInv(c, registry, Do(c, registry, cache, step))
  {
    var after := Do(c, registry, cache, step);
    forall key | key in after && after[key].Results?
        ensures exists r :: StoredFor(c, registry, after[key].subscriptions, r, key) {
      if step.Store? && key == LookupCacheKey(c.utf8, step.r.subscriberID, step.r.keyID) {
        assert StoredFor(c, registry, after[key].subscriptions, step.r, key);
      }
    }
  }

  lemma {:induction false} EveryRunKeepsCacheInv(c: Client, registry: Registry, cache: Cache, steps: seq<Step>,
                                                 cache': Cache)
    requires IsEncoding(c.utf8) && CacheInv(c, registry, cache) && Runs(c, registry, cache, steps, cache')
    ensures CacheInv(c, registry, cache')
    decreases |steps|
  {
    if steps != [] {
      StepKeepsCacheInv(c, registry, cache, steps[0]);
      EveryRunKeepsCacheInv(c, registry, Do(c, registry, cache, steps[0]), steps[1..], cache');
    }
  }

  /** Against a registry with fixed answers, from an empty cache, in any interleaving of lookups with losses: every hit
      is the answer of the lookup without a cache. */
  lemma {:induction false} CachedAgreesWithUncached(c: Client, registry: Registry, steps: seq<Step>, cache: Cache,
                                                    r: Request)
    requires IsEncoding(c.utf8) && Runs(c, registry, map[], steps, cache) && Malformed(r).None?
    ensures FromCache(c, cache, r).Some? ==> FromCache(c, cache, r).value == Uncached(c, registry, r)
  {
    EveryRunKeepsCacheInv(c, registry, map[], steps, cache);
    HitIsUncached(c, registry, cache, r);
  }

  /** And hits there are: an accepted lookup that is stored answers the next one for the same keys, whatever network
      that is for, as the registry would have. */
  lemma {:induction false} StoredAnswersNext(c: Client, registry: Registry, cache: Cache, r: Request, r': Request)
    requires IsEncoding(c.utf8) && CacheInv(c, registry, cache) && Enabled(c, registry, Store(r))
    requires r'.subscriberID == r.subscriberID && r'.keyID == r.keyID
    ensures FromCache(c, Do(c, registry, cache, Store(r)), r') == Some(Uncached(c, registry, r'))
  {
    StepKeepsCacheInv(c, registry, cache, Store(r));
    SameKeysOtherNetwork(c, registry, r', r);
    HitIsUncached(c, registry, Do(c, registry, cache, Store(r)), r');
  }

  // ----- The client -----

  class DeDiRegistryClient {
    const c: Client
    var cache: Cache

    ghost predicate Valid(registry: Registry)
      reads this
    {
      IsEncoding(c.utf8) && CacheInv(c, registry, cache)
    }

    constructor (c: Client, ghost registry: Registry)
      requires IsEncoding(c.utf8)
      ensures Valid(registry) && this.c == c && cache == map[]
    {
      this.c, cache := c, map[];
    }

    /** `answer` is what the registry would say to this request; `hasCache` and `stores` are whether a cache is
        configured and whether writing to it succeeds. */
    method Lookup(r: Request, answer: Answer, hasCache: bool, stores: bool, ghost registry: Registry)
      returns (outcome: Outcome)
      requires Valid(registry) && answer == registry(r.subscriberID, r.keyID)
      modifies this`cache
      ensures Valid(registry)
      ensures outcome == Uncached(c, registry, r)
    {
      if r.subscriberID == "" {
        return Rejected(NoSubscriberID);
      }
      if r.keyID == "" {
        return Rejected(NoKeyID);
      }
      if !ValidSegment(r.subscriberID) || !ValidSegment(r.keyID) {
        return Rejected(BadSegment);
      }
      var cacheKey := LookupCacheKey(c.utf8, r.subscriberID, r.keyID);
      HitIsUncached(c, registry, cache, r);
      if hasCache && cacheKey in cache && cache[cacheKey].Results? {
        var results := cache[cacheKey].subscriptions;
        if !(|results| > 0 && !IsSubscriberRecord(c, results[0].subscriberID, r.subscriberID)) {
          if |results| > 0 {
            var problem := ValidateMemberships(c, results[0].memberships, results[0].subscriberID, r.networkID);
            if problem.Some? {
              return Rejected(problem.value);
            }
          }
          return Keys(results);
        }
      }
      if answer.Fails? {
        return Rejected(Upstream(answer.error));
      }
      if answer.signingPublicKey == "" {
        return Rejected(NoSigningKey);
      }
      if !IsSubscriberRecord(c, answer.subscriberID, r.subscriberID) {
        return Rejected(OtherSubscriber);
      }
      var problem := ValidateMemberships(c, answer.memberships, answer.subscriberID, r.networkID);
      if problem.Some? {
        return Rejected(problem.value);
      }
      var results := [Subscription(answer.subscriberID, r.keyID, answer.signingPublicKey, answer.memberships)];
      if hasCache && stores {
        StepKeepsCacheInv(c, registry, cache, Store(r));
        cache := cache[cacheKey := Results(results)];
      }
      return Keys(results);
    }
  }
}
