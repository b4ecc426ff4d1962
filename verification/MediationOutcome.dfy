/** Whose manifest decides a mediation, and that nothing else does: the verdict and the body passed on do not depend on
    the order the walk reports the objects in. schemaversionmediator.go: Mediate, WalkPayload. */
module MediationOutcome {
  import opened Text
  import opened Json
  import opened Paths
  import opened PayloadWalk
  import opened Versions
  import opened Mediation
  import opened MediationSafety
  import opened Mediator
  import opened MediationExample

  // ----- The order of the walk does not matter -----

  ghost predicate Walked(root: Json, at: seq<Addr>) {
    EnumeratesAll(root, at, Reported) && AllFound(root, at, Reported)
  }

  lemma {:induction false} RefIsFound(root: Json, at: seq<Addr>, r: Ref)
    requires Walked(root, at)
    ensures r in RefsAt(root, at, "$") <==> exists a :: Found(root, a, Reported) && RefAt(root, a, "$") == r
  {
    var refs := RefsAt(root, at, "$");
    if r in refs {
      var i :| 0 <= i < |refs| && refs[i] == r;
      assert Found(root, at[i], Reported) && RefAt(root, at[i], "$") == r;
    }
    if a :| Found(root, a, Reported) && RefAt(root, a, "$") == r {
      var i :| 0 <= i < |at| && at[i] == a;
      assert refs[i] == r;
    }
  }

  function NeedsAt(root: Json, at: seq<Addr>, m: NodeManifest, w: World): seq<Need>
    requires forall i :: 0 <= i < |at| ==> Found(root, at[i], Reported)
  {
    Needs(RefsAt(root, at, "$"), m, w.acceptsHost)
  }

  lemma {:induction false} SameNeeds(root: Json, at: seq<Addr>, at': seq<Addr>, m: NodeManifest, w: World, need: Need)
    requires Walked(root, at) && Walked(root, at')
    ensures need in NeedsAt(root, at, m, w) <==> need in NeedsAt(root, at', m, w)
  {
    NeedsOfRefs(RefsAt(root, at, "$"), m, w.acceptsHost, need);
    NeedsOfRefs(RefsAt(root, at', "$"), m, w.acceptsHost, need);
    RefIsFound(root, at, need.from);
    RefIsFound(root, at', need.from);
  }

  lemma {:induction false} FetchesIff(needs: seq<Need>, w: World)
    ensures FetchAll(needs, w).Some? <==> forall need :: need in needs ==> FetchOne(need, w).Some?
  {
    if needs != [] {
      var front, last := needs[..|needs| - 1], needs[|needs| - 1];
      FetchesIff(front, w);
      assert forall need :: need in needs <==> need in front || need == last;
    }
  }

  lemma {:induction false} SameFetching(root: Json, at: seq<Addr>, at': seq<Addr>, m: NodeManifest, w: World)
    requires Walked(root, at) && Walked(root, at')
    ensures FetchAll(NeedsAt(root, at, m, w), w).Some? <==> FetchAll(NeedsAt(root, at', m, w), w).Some?
  {
    FetchesIff(NeedsAt(root, at, m, w), w);
    FetchesIff(NeedsAt(root, at', m, w), w);
    forall need ensures need in NeedsAt(root, at, m, w) <==> need in NeedsAt(root, at', m, w) {
      SameNeeds(root, at, at', m, w, need);
    }
  }

  ghost predicate HasFetched(root: Json, at: seq<Addr>, m: NodeManifest, w: World, arts: map<string, Fetched>) {
    Walked(root, at) && FetchAll(NeedsAt(root, at, m, w), w) == Some(arts)
  }

  /** Paths name objects, so a path has the same artifact in whatever order the objects were reported. */
  lemma {:induction false} SameArtifact(root: Json, at: seq<Addr>, at': seq<Addr>, m: NodeManifest, w: World,
                                        arts: map<string, Fetched>, arts': map<string, Fetched>, p: string)
    requires PrintablePayload(root) && HasFetched(root, at, m, w, arts) && HasFetched(root, at', m, w, arts')
    requires p in arts
    ensures p in arts' && arts'[p] == arts[p]
  {
    var needs, needs' := NeedsAt(root, at, m, w), NeedsAt(root, at', m, w);
    FetchedBelong(needs, w);
    FetchedBelong(needs', w);
    SameNeeds(root, at, at', m, w, arts[p].need);
    assert p in arts';
    var a := PathHasPlace(root, at, m, w, arts, p);
    var a' := PathHasPlace(root, at', m, w, arts', p);
    SamePathSameAddress(root, a, a');
  }

  lemma {:induction false} ArtifactsAmong(root: Json, at: seq<Addr>, at': seq<Addr>, m: NodeManifest, w: World,
                                          arts: map<string, Fetched>, arts': map<string, Fetched>)
    requires PrintablePayload(root) && HasFetched(root, at, m, w, arts) && HasFetched(root, at', m, w, arts')
    ensures Among(arts, arts')
  {
    forall p | p in arts ensures p in arts' && arts'[p] == arts[p] {
      SameArtifact(root, at, at', m, w, arts, arts', p);
    }
  }

  ghost predicate Among(arts: map<string, Fetched>, arts': map<string, Fetched>) {
    forall p :: p in arts ==> p in arts' && arts'[p] == arts[p]
  }

  lemma {:induction false} AmongEachOther(arts: map<string, Fetched>, arts': map<string, Fetched>)
    requires Among(arts, arts') && Among(arts', arts)
    ensures arts == arts'
  {}

  lemma {:induction false} SameArtifacts(root: Json, at: seq<Addr>, at': seq<Addr>, m: NodeManifest, w: World,
                                         arts: map<string, Fetched>, arts': map<string, Fetched>)
    requires PrintablePayload(root) && HasFetched(root, at, m, w, arts) && HasFetched(root, at', m, w, arts')
    ensures arts == arts'
  {
    ArtifactsAmong(root, at, at', m, w, arts, arts');
    ArtifactsAmong(root, at', at, m, w, arts', arts);
    AmongEachOther(arts, arts');
  }

  lemma {:induction false} LessIrreflexive(a: string)
    ensures !Less(a, a)
  {
    assert a + "" == a;
    ExtensionNotLess(a, "");
  }

  /** There is one sorted sequence of the same strings. */
  lemma {:induction false} SortedUnique(s: seq<string>, t: seq<string>)
    requires Sorted(s) && Sorted(t) && forall p :: p in s <==> p in t
    ensures s == t
  {
    assert (s == [] || s[0] in s) && (t == [] || t[0] in t);
    if s != [] {
      LeastFirst(s, t);
      forall p ensures p in s[1..] <==> p in t[1..] {
        NotAgain(s, p);
        NotAgain(t, p);
      }
      SortedUnique(s[1..], t[1..]);
      assert s == [s[0]] + s[1..] && t == [t[0]] + t[1..];
    }
  }

  lemma {:induction false} LeastFirst(s: seq<string>, t: seq<string>)
    requires Sorted(s) && Sorted(t) && s != [] && t != [] && s[0] in t && t[0] in s
    ensures s[0] == t[0]
  {
    var i :| 0 <= i < |t| && t[i] == s[0];
    var k :| 0 <= k < |s| && s[k] == t[0];
    if i > 0 && k > 0 {
      LessTransitive(s[0], t[0], s[0]);
      LessIrreflexive(s[0]);
    }
  }

  lemma {:induction false} NotAgain(s: seq<string>, p: string)
    requires Sorted(s) && s != []
    ensures p in s[1..] <==> p in s && p != s[0]
  {
    if s[0] in s[1..] {
      var i :| 1 <= i < |s| && s[i] == s[0];
      LessIrreflexive(s[0]);
    }
  }

  /** Against one manifest there is one answer: one verdict, and one body to pass on. */
  lemma {:induction false} OneAnswer(actionReject: bool, passThrough: bool, root: Json, m: NodeManifest, w: World,
                                     at: seq<Addr>, arts: map<string, Fetched>, paths: seq<string>, final: Json,
                                     verdict: Verdict, rewritten: bool, after: Option<Json>,
                                     at': seq<Addr>, arts': map<string, Fetched>, paths': seq<string>, final': Json,
                                     verdict': Verdict, rewritten': bool, after': Option<Json>)
    requires PrintablePayload(root)
    requires Answers(actionReject, passThrough, root, m, w, at, arts, paths, final, verdict, rewritten, after)
    requires Answers(actionReject, passThrough, root, m, w, at', arts', paths', final', verdict', rewritten', after')
    ensures verdict == verdict' && after == after'
  {
    SameFetching(root, at, at', m, w);
    var needs := NeedsAt(root, at, m, w);
    if needs != [] && !actionReject && FetchAll(needs, w).Some? && Decodes(root) {
      SameArtifacts(root, at, at', m, w, arts, arts');
      SortedUnique(paths, paths');
    }
  }

  // ----- Whose manifest -----

  /** One request on its way: what the mediator found out, answered, and passed on. */
  datatype Run = Run(at: seq<Addr>, arts: map<string, Fetched>, paths: seq<string>, final: Json, verdict: Verdict,
                     rewritten: bool, after: Option<Json>)

  ghost predicate Takes(cfg: Config, isCaller: bool, remoteID: string, body: Option<Json>,
                        counterparty: Option<NodeManifest>, w: World, r: Run) {
    Outcome(cfg, isCaller, remoteID, body, counterparty, w, r.at, r.arts, r.paths, r.final, r.verdict, r.rewritten,
            r.after)
  }

  /** The policies of two nodes are the same. Their own manifests need not be. */
  predicate SamePolicies(cfg: Config, cfg': Config) {
    && cfg.notOnboarded == cfg'.notOnboarded
    && cfg.actionReject == cfg'.actionReject && cfg.passThrough == cfg'.passThrough
  }

  /** For a caller, the verdict and the body passed on depend on the manifest of the counterparty and not on the node's
      own; for a receiver it is the other way round. */
  lemma {:induction false} OneManifestDecides(cfg: Config, cfg': Config, isCaller: bool, remoteID: string,
                                              body: Option<Json>, counterparty: Option<NodeManifest>,
                                              counterparty': Option<NodeManifest>, w: World, r: Run, r': Run)
    requires SamePolicies(cfg, cfg') && (body.Some? ==> PrintablePayload(body.value))
    requires if isCaller then counterparty == counterparty' else cfg.localManifest == cfg'.localManifest
    requires Takes(cfg, isCaller, remoteID, body, counterparty, w, r)
    requires Takes(cfg', isCaller, remoteID, body, counterparty', w, r')
    ensures r.verdict == r'.verdict && r.after == r'.after
  {
    if !cfg.notOnboarded && remoteID != "" && body.Some? {
      var m := if isCaller then counterparty else cfg.localManifest;
      if m.Some? {
        OneAnswer(cfg.actionReject, cfg.passThrough, body.value, m.value, w,
                  r.at, r.arts, r.paths, r.final, r.verdict, r.rewritten, r.after,
                  r'.at, r'.arts, r'.paths, r'.final, r'.verdict, r'.rewritten, r'.after);
      }
    }
  }

  // ----- Two manifests that differ -----

  lemma {:induction false} SupportedNotNeeded(ref: Ref, acceptsHost: string -> bool)
    requires ref.typ == "T" && ExtractVersion(ref.contextURL, acceptsHost) == Some(STALE)
    ensures NeedFor(ref, Listing(STALE), acceptsHost).None?
  {
    NeedForListed(ref, Listing(STALE).schemaObjects[0], acceptsHost);
  }

  /** A node that still supports version 1.0 leaves an object of it alone. */
  lemma {:induction false} LeftAlone(context: string, w: World) returns (r: Run)
    requires context != "" && ExtractVersion(context, w.acceptsHost) == Some(STALE)
    ensures Answers(false, false, OneObject(context), Listing(STALE), w, r.at, r.arts, r.paths, r.final, r.verdict,
                    r.rewritten, r.after)
    ensures r.verdict == Accepted && r.after == Some(OneObject(context))
  {
    var root, at := OneObject(context), [[Key("message")]];
    r := Run(at, map[], [], Null, Accepted, false, Some(root));
    OneRef(context);
    SupportedNotNeeded(Ref(context, "T", "$.message"), w.acceptsHost);
    OneNeed(Ref(context, "T", "$.message"), Listing(STALE), w.acceptsHost);
    NoNeedsNothingNeeded(root, at, Listing(STALE), w);
  }

  lemma {:induction false} OneNeed(ref: Ref, m: NodeManifest, acceptsHost: string -> bool)
    ensures Needs([ref], m, acceptsHost) ==
      if NeedFor(ref, m, acceptsHost).None? then [] else [NeedFor(ref, m, acceptsHost).value]
  {
    assert [ref][..0] == [] && Needs([ref][..0], m, acceptsHost) == [];
  }

  lemma {:induction false} MediatedAnswer(root: Json, at: seq<Addr>, m: NodeManifest, w: World,
                                          arts: map<string, Fetched>, paths: seq<string>, final: Json)
    requires Mediates(root, at, m, w, arts, paths, final) && NeedsAt(root, at, m, w) != []
    ensures Answers(false, false, root, m, w, at, arts, paths, final, Accepted, true, Some(Patched(root, final)))
  {
    NoNeedsNothingNeeded(root, at, m, w);
  }

  lemma {:induction false} UpMediates(context: string, target: string, w: World)
    returns (arts: map<string, Fetched>, final: Json)
    requires context != "" && w.translate == Same
    requires Outdated(Ref(context, "T", "$.message"), Listing(CURRENT), w, target)
    ensures Mediates(OneObject(context), [[Key("message")]], Listing(CURRENT), w, arts, ["$.message"], final)
    ensures final == Versioned(target)
  {
    var ref := Ref(context, "T", "$.message");
    arts := OneFetched(ref, Listing(CURRENT), w, target);
    OneRef(context);
    MessageTranslates(context, arts, w);
    final := MediatesFrom(OneObject(context), [[Key("message")]], Listing(CURRENT), w, arts, ["$.message"], [ref]);
  }

  lemma {:induction false} UpNeeded(context: string, target: string, w: World)
    requires context != "" && Outdated(Ref(context, "T", "$.message"), Listing(CURRENT), w, target)
    ensures Walked(OneObject(context), [[Key("message")]])
    ensures NeedsAt(OneObject(context), [[Key("message")]], Listing(CURRENT), w) != []
  {
    OneRef(context);
    OneNeed(Ref(context, "T", "$.message"), Listing(CURRENT), w.acceptsHost);
  }

  /** One that supports version 2.0 only has it translated. */
  lemma {:induction false} BroughtUp(context: string, target: string, w: World) returns (r: Run)
    requires context != "" && w.translate == Same
    requires Outdated(Ref(context, "T", "$.message"), Listing(CURRENT), w, target)
    ensures Answers(false, false, OneObject(context), Listing(CURRENT), w, r.at, r.arts, r.paths, r.final, r.verdict,
                    r.rewritten, r.after)
    ensures r.verdict == Accepted && r.after == Some(OneObject(target))
  {
    var root, at := OneObject(context), [[Key("message")]];
    var arts, final := UpMediates(context, target, w);
    UpNeeded(context, target, w);
    MediatedAnswer(root, at, Listing(CURRENT), w, arts, ["$.message"], final);
    Replaced(context, target, final);
    r := Run(at, arts, ["$.message"], final, Accepted, true, Some(OneObject(target)));
  }

  lemma {:induction false} Replaced(context: string, target: string, final: Json)
    requires final == Versioned(target)
    ensures Patched(OneObject(context), final) == OneObject(target)
  {}

  /** Every run of the same request answers as this one. */
  lemma {:induction false} AnswersLike(cfg: Config, isCaller: bool, body: Json, counterparty: Option<NodeManifest>,
                                       w: World, one: Run, r: Run)
    requires PrintablePayload(body) && Takes(cfg, isCaller, "r", Some(body), counterparty, w, one)
    ensures Takes(cfg, isCaller, "r", Some(body), counterparty, w, r) ==>
      r.verdict == one.verdict && r.after == one.after
  {
    if Takes(cfg, isCaller, "r", Some(body), counterparty, w, r) {
      OneManifestDecides(cfg, cfg, isCaller, "r", Some(body), counterparty, counterparty, w, r, one);
    }
  }

  ghost predicate AlwaysAnswers(cfg: Config, isCaller: bool, body: Json, counterparty: Option<NodeManifest>, w: World,
                                after: Json) {
    && (exists r :: Takes(cfg, isCaller, "r", Some(body), counterparty, w, r))
    && (forall r :: Takes(cfg, isCaller, "r", Some(body), counterparty, w, r) ==>
        r.verdict == Accepted && r.after == Some(after))
  }

  lemma {:induction false} AnswersAlways(cfg: Config, isCaller: bool, body: Json, counterparty: Option<NodeManifest>,
                                         w: World, one: Run, after: Json)
    requires PrintablePayload(body) && Takes(cfg, isCaller, "r", Some(body), counterparty, w, one)
    requires one.verdict == Accepted && one.after == Some(after)
    ensures AlwaysAnswers(cfg, isCaller, body, counterparty, w, after)
  {
    forall r | Takes(cfg, isCaller, "r", Some(body), counterparty, w, r)
      ensures r.verdict == Accepted && r.after == Some(after)
    {
      AnswersLike(cfg, isCaller, body, counterparty, w, one, r);
    }
  }

  lemma {:induction false} SentUnder(cfg: Config, root: Json, counterparty: NodeManifest, w: World, r: Run)
    requires !cfg.notOnboarded && Answers(cfg.actionReject, cfg.passThrough, root, counterparty, w, r.at, r.arts,
                                          r.paths, r.final, r.verdict, r.rewritten, r.after)
    ensures Takes(cfg, true, "r", Some(root), Some(counterparty), w, r)
  {}

  lemma {:induction false} ReceivedUnder(cfg: Config, root: Json, own: NodeManifest,
                                         counterparty: Option<NodeManifest>, w: World, r: Run)
    requires !cfg.notOnboarded && cfg.localManifest == Some(own)
    requires Answers(cfg.actionReject, cfg.passThrough, root, own, w, r.at, r.arts, r.paths, r.final, r.verdict,
                     r.rewritten, r.after)
    ensures Takes(cfg, false, "r", Some(root), counterparty, w, r)
  {}

  const HALFWAY := Config(false, Some(Listing(STALE)), false, false)

  lemma {:induction false} SentIsBroughtUp(context: string, target: string, w: World)
    requires context != "" && w.translate == Same
    requires Outdated(Ref(context, "T", "$.message"), Listing(CURRENT), w, target)
    ensures AlwaysAnswers(HALFWAY, true, OneObject(context), Some(Listing(CURRENT)), w, OneObject(target))
  {
    var r := BroughtUp(context, target, w);
    SentUnder(HALFWAY, OneObject(context), Listing(CURRENT), w, r);
    OneObjectPrintable(context);
    AnswersAlways(HALFWAY, true, OneObject(context), Some(Listing(CURRENT)), w, r, OneObject(target));
  }

  lemma {:induction false} ReceivedIsLeftAlone(context: string, w: World)
    requires context != "" && ExtractVersion(context, w.acceptsHost) == Some(STALE)
    ensures AlwaysAnswers(HALFWAY, false, OneObject(context), Some(Listing(CURRENT)), w, OneObject(context))
  {
    var r := LeftAlone(context, w);
    ReceivedUnder(HALFWAY, OneObject(context), Listing(STALE), Some(Listing(CURRENT)), w, r);
    OneObjectPrintable(context);
    AnswersAlways(HALFWAY, false, OneObject(context), Some(Listing(CURRENT)), w, r, OneObject(context));
  }

  /** It makes a difference: one body, one node and one counterparty of which the first still supports version 1.0 and
      the other supports 2.0 only. However the walk goes, sent by the node the object arrives as version 2.0, and
      received by it the object stays as it is. */
  lemma {:induction false} ManifestsDiffer() returns (w: World, older: string, newer: string)
    ensures older == ContextFor("1.0") && newer == ContextFor("2.0") && OneObject(older) != OneObject(newer)
    ensures AlwaysAnswers(HALFWAY, true, OneObject(older), Some(Listing(CURRENT)), w, OneObject(newer))
    ensures AlwaysAnswers(HALFWAY, false, OneObject(older), Some(Listing(CURRENT)), w, OneObject(older))
  {
    var m;
    older, newer, m, w := SettlingSetting();
    SentIsBroughtUp(older, newer, w);
    ReceivedIsLeftAlone(older, w);
    ObjectsDiffer(older, newer);
  }

  lemma {:induction false} ObjectsDiffer(context: string, target: string)
    requires context != target
    ensures OneObject(context) != OneObject(target)
  {
    FieldNamesDiffer();
    assert OneObject(context).fields["message"].fields["@context"] == Str(context);
    assert OneObject(target).fields["message"].fields["@context"] == Str(target);
  }
}
