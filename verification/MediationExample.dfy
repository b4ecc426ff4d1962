/** Mediations that take place: what the results about mediations require does happen, and so does what the others
    warn of. schemaversionmediator.go: Mediate. */
module MediationExample {
  import opened Text
  import opened Json
  import opened Paths
  import opened PayloadWalk
  import opened UrlText
  import opened Versions
  import opened Mediation
  import opened MediationSafety
  import opened MediationOutside
  import opened Mediator
  import MediationSettles

  // ----- Two payloads -----

  function Versioned(context: string): Json {
    Obj(map["@context" := Str(context), "@type" := Str("T")])
  }

  /** A message that is itself one object to translate. */
  function OneObject(context: string): Json {
    Obj(map["message" := Versioned(context)])
  }

  /** An object to translate inside the message and one beside it. */
  function TwoObjects(context: string): Json {
    Obj(map["message" := Obj(map["x" := Versioned(context)]), "z" := Versioned(context)])
  }

  const INSIDE: Addr := [Key("message"), Key("x")]
  const BESIDE: Addr := [Key("z")]

  lemma {:induction false} FieldNamesDiffer()
    ensures "message" != "@context" && "message" != "@type" && "@context" != "@type" && "message" != "z"
    ensures "x" != "@context" && "x" != "@type" && "z" != "@context" && "z" != "@type" && "x" != "" && "T" != ""
  {
    assert |"message"| == 7 && |"@context"| == 8 && |"@type"| == 5;
  }

  lemma {:induction false} VersionedFound(context: string, a: Addr)
    requires context != ""
    ensures Found(Versioned(context), a, Reported) <==> a == []
  {
    var j := Versioned(context);
    FieldNamesDiffer();
    if a == [] {
      assert At(j, a) == Some(j);
    } else if At(j, a).Some? {
      assert a[0].Key? && a[0].key in j.fields;
      assert !Descends(a[0]);
    }
  }

  /** In an object without a version of its own, what is found is in its fields. */
  lemma {:induction false} FoundInField(m: map<string, Json>, a: Addr)
    requires "@context" !in m
    ensures Found(Obj(m), a, Reported) <==>
      a != [] && a[0].Key? && a[0].key in m && Descends(a[0]) && Found(m[a[0].key], a[1..], Reported)
  {
    if a == [] {
      assert At(Obj(m), a) == Some(Obj(m));
    } else {
      assert a == [a[0]] + a[1..];
      FoundUnder(Obj(m), a[0], a[1..], Reported);
    }
  }

  lemma {:induction false} OneObjectFound(context: string, a: Addr)
    requires context != ""
    ensures Found(OneObject(context), a, Reported) <==> a == [Key("message")]
  {
    FieldNamesDiffer();
    FoundInField(OneObject(context).fields, a);
    if a != [] {
      VersionedFound(context, a[1..]);
    }
  }

  lemma {:induction false} TwoObjectsFound(context: string, a: Addr)
    requires context != ""
    ensures Found(TwoObjects(context), a, Reported) <==> a == INSIDE || a == BESIDE
  {
    FieldNamesDiffer();
    var root := TwoObjects(context);
    FoundInField(root.fields, a);
    if a != [] && a[0] == Key("message") {
      var b := a[1..];
      FoundInField(root.fields["message"].fields, b);
      if b != [] {
        VersionedFound(context, b[1..]);
        assert b[1..] == [] && b[0] == Key("x") ==> a == INSIDE;
      }
      assert a == INSIDE ==> b == [Key("x")] && b[1..] == [];
    } else if a != [] {
      VersionedFound(context, a[1..]);
    }
  }

  lemma {:induction false} VersionedPrintable(context: string)
    ensures PrintablePayload(Versioned(context))
  {
    var j := Versioned(context);
    KeysWithoutBracketsAreSafe("@context");
    KeysWithoutBracketsAreSafe("@type");
    assert PrintablePayload(Str(context)) && PrintablePayload(Str("T"));
  }

  lemma {:induction false} OneObjectPrintable(context: string)
    ensures PrintablePayload(OneObject(context))
  {
    KeysWithoutBracketsAreSafe("message");
    VersionedPrintable(context);
  }

  lemma {:induction false} TwoObjectsPrintable(context: string)
    ensures PrintablePayload(TwoObjects(context))
  {
    KeysWithoutBracketsAreSafe("message");
    KeysWithoutBracketsAreSafe("x");
    KeysWithoutBracketsAreSafe("z");
    VersionedPrintable(context);
    FieldPrintable("x", Versioned(context));
    FieldsPrintable("message", Obj(map["x" := Versioned(context)]), "z", Versioned(context));
    assert TwoObjects(context) == Obj(map["message" := Obj(map["x" := Versioned(context)]), "z" := Versioned(context)]);
  }

  lemma {:induction false} FieldsPrintable(k: string, j: Json, l: string, i: Json)
    requires SafeKey(k) && PrintablePayload(j) && SafeKey(l) && PrintablePayload(i)
    ensures PrintablePayload(Obj(map[k := j, l := i]))
  {}

  lemma {:induction false} FieldPrintable(k: string, j: Json)
    requires SafeKey(k) && PrintablePayload(j)
    ensures PrintablePayload(Obj(map[k := j]))
  {}

  // ----- A registry and a manifest -----

  /** The object behind `ref` is to be translated to `target`, and its artifact can be fetched. */
  ghost predicate Outdated(ref: Ref, m: NodeManifest, w: World, target: string) {
    var need := NeedFor(ref, m, w.acceptsHost);
    need.Some? && need.value.from == ref && need.value.ToContextURL() == target && FetchOne(need.value, w).Some?
  }

  lemma {:induction false} SupportedAlone(obj: SchemaObject)
    requires ':' !in obj.typ
    ensures LocalName(obj.typ) == obj.typ && Supported([obj], obj.typ) == Some(obj)
  {
    assert LastIndexChar(obj.typ, ':') == -1;
  }

  lemma {:induction false} OutdatedIsNeeded(ref: Ref, obj: SchemaObject, version: string, acceptsHost: string -> bool)
    requires ExtractVersion(ref.contextURL, acceptsHost) == Some(version) && version !in obj.supportedVersions
    requires obj.supportedVersions != [] && obj.versionPolicy == "latest"
    ensures NeedAgainst(ref, obj, "", acceptsHost) == Some(Need(ref, obj, Latest(obj.supportedVersions)))
  {}

  lemma {:induction false} NeedIsFetched(need: Need, version: string, w: World)
    requires ExtractVersion(need.from.contextURL, w.acceptsHost) == Some(version)
    requires forall url :: w.fetch(url).Some?
    ensures FetchOne(need, w).Some?
  {
    assert ArtifactURL(need, w.acceptsHost).Some?;
  }

  lemma {:induction false} NeedForListed(ref: Ref, obj: SchemaObject, acceptsHost: string -> bool)
    requires ':' !in ref.typ && obj.typ == ref.typ
    ensures NeedFor(ref, NodeManifest("", [obj]), acceptsHost) == NeedAgainst(ref, obj, "", acceptsHost)
  {
    SupportedAlone(obj);
  }

  /** A version that is not supported is outdated. */
  lemma {:induction false} UnsupportedIsOutdated(ref: Ref, obj: SchemaObject, version: string, w: World)
    requires ExtractVersion(ref.contextURL, w.acceptsHost) == Some(version) && version !in obj.supportedVersions
    requires obj.supportedVersions != [] && obj.versionPolicy == "latest" && ':' !in ref.typ && obj.typ == ref.typ
    requires forall url :: w.fetch(url).Some?
    ensures Outdated(ref, NodeManifest("", [obj]), w,
                     obj.baseURL + "/" + Latest(obj.supportedVersions) + "/" + CONTEXT_FILE)
  {
    NeedForListed(ref, obj, w.acceptsHost);
    OutdatedIsNeeded(ref, obj, version, w.acceptsHost);
    NeedIsFetched(Need(ref, obj, Latest(obj.supportedVersions)), version, w);
  }

  lemma {:induction false} LatestOfOne(v: string)
    ensures Latest([v]) == v
  {
    assert [v][..0] == [];
  }

  const BASE := AbsoluteUrl("http", "h", "")
  const STALE := "1.0"
  const CURRENT := "2.0"

  lemma {:induction false} BaseIsUnversioned()
    ensures UnversionedBase(BASE, _ => true)
  {
    assert FirstVersion(Split(BASE.path, '/')).None?;
  }

  lemma {:induction false} VersionsAreVersions()
    ensures Plain(STALE) && '/' !in STALE && IsVersionSegment(STALE)
    ensures Plain(CURRENT) && '/' !in CURRENT && IsVersionSegment(CURRENT)
    ensures STALE != CURRENT
  {
    assert STALE[0] != CURRENT[0];
  }

  function ContextFor(version: string): string {
    BASE.Text() + "/" + version + "/" + CONTEXT_FILE
  }

  lemma {:induction false} ContextsRead(acceptsHost: string -> bool)
    requires UnversionedBase(BASE, acceptsHost)
    ensures ExtractVersion(ContextFor(STALE), acceptsHost) == Some(STALE)
    ensures ExtractVersion(ContextFor(CURRENT), acceptsHost) == Some(CURRENT)
  {
    VersionsAreVersions();
    ContextVersion(BASE, STALE, acceptsHost);
    ContextVersion(BASE, CURRENT, acceptsHost);
  }

  /** A manifest that supports version 2.0 and a registry that serves every artifact make version 1.0 outdated. */
  lemma {:induction false} Setting(translate: (string, Json) -> Option<Json>)
    returns (context: string, target: string, m: NodeManifest, w: World)
    ensures w.translate == translate && context != "" && context != target
    ensures forall path :: Outdated(Ref(context, "T", path), m, w, target)
  {
    w := World(_ => true, _ => Some(""), translate);
    m, context, target := Listing(CURRENT), ContextFor(STALE), ContextFor(CURRENT);
    BaseIsUnversioned();
    ContextsRead(w.acceptsHost);
    VersionsAreVersions();
    LatestOfOne(CURRENT);
    forall path ensures Outdated(Ref(context, "T", path), m, w, target) {
      UnsupportedIsOutdated(Ref(context, "T", path), m.schemaObjects[0], STALE, w);
    }
  }

  /** A manifest that lists the type with one version. */
  function Listing(version: string): NodeManifest {
    NodeManifest("", [SchemaObject("T", BASE.Text(), [version], "latest", "")])
  }

  lemma {:induction false} ListingIsValid(version: string)
    ensures ValidSchema(Listing(version))
  {
    TrimSpaceKeeps("T");
    TrimSpaceKeeps(BASE.Text());
    assert BASE.Text()[0] == 'h';
  }

  lemma {:induction false} ListingIsShaped(w: World)
    requires UnversionedBase(BASE, w.acceptsHost)
    ensures forall obj :: obj in Listing(CURRENT).schemaObjects ==>
      MediationSettles.VersionShaped(obj, Listing(CURRENT), w.acceptsHost)
  {
    LatestOfOne(CURRENT);
    VersionsAreVersions();
  }

  /** Of that manifest, one translation is enough. */
  lemma {:induction false} SettlingSetting() returns (context: string, target: string, m: NodeManifest, w: World)
    ensures w.translate == Same && context != "" && Outdated(Ref(context, "T", "$.message"), m, w, target)
    ensures context == ContextFor(STALE) && target == ContextFor(CURRENT) && context != target
    ensures m == Listing(CURRENT) && ExtractVersion(context, w.acceptsHost) == Some(STALE)
    ensures Settling(m, w)
  {
    w := World(_ => true, _ => Some(""), Same);
    m, context, target := Listing(CURRENT), ContextFor(STALE), ContextFor(CURRENT);
    BaseIsUnversioned();
    ContextsRead(w.acceptsHost);
    VersionsAreVersions();
    LatestOfOne(CURRENT);
    UnsupportedIsOutdated(Ref(context, "T", "$.message"), m.schemaObjects[0], STALE, w);
    ListingIsValid(CURRENT);
    ListingIsShaped(w);
    SameSettles(w, m);
  }

  /** What is asked of manifest and translator for one mediation to be enough. */
  ghost predicate Settling(m: NodeManifest, w: World) {
    && ValidSchema(m)
    && (forall obj :: obj in m.schemaObjects ==> MediationSettles.VersionShaped(obj, m, w.acceptsHost))
    && MediationSettles.BringsNothing(w, m) && MediationSettles.KeepsTypes(w)
  }

  lemma {:induction false} SameSettles(w: World, m: NodeManifest)
    requires w.translate == Same
    ensures MediationSettles.BringsNothing(w, m) && MediationSettles.KeepsTypes(w)
  {}

  const WORD := "next"

  /** It happens that no translation is ever enough: the one supported version does not look like one, and an object
      that carries it is reported again. */
  lemma {:induction false} NeverCompatible() returns (ref: Ref, m: NodeManifest, w: World)
    ensures ValidSchema(m) && NeedFor(ref, m, w.acceptsHost).Some?
    ensures var need := NeedFor(ref, m, w.acceptsHost).value;
      NeedFor(ref.(contextURL := need.ToContextURL()), m, w.acceptsHost).Some?
  {
    w, m, ref := World(_ => true, _ => Some(""), Same), Listing(WORD), Ref(ContextFor(STALE), "T", "$");
    BaseIsUnversioned();
    ContextsRead(w.acceptsHost);
    ListingIsValid(WORD);
    LatestOfOne(WORD);
    WordIsNoVersion();
    UnsupportedIsOutdated(ref, m.schemaObjects[0], STALE, w);
    NeedForListed(ref, m.schemaObjects[0], w.acceptsHost);
    TranslatedIsCompatibleIff(ref, m, BASE, w.acceptsHost);
  }

  lemma {:induction false} WordIsNoVersion()
    ensures Plain(WORD) && '/' !in WORD && !IsVersionSegment(WORD) && WORD != STALE
  {
    assert WORD[0] == 'n' && STALE[0] == '1' && !IsDigit(WORD[0]);
  }


  /** A translator that hands objects back as they are. */
  function Same(artifact: string, j: Json): Option<Json> {
    if j.Obj? then Some(j) else None
  }

  lemma {:induction false} SameReturnsObjects(w: World)
    requires w.translate == Same
    ensures ReturnsObjects(w)
  {}

  ghost function ArtifactOf(ref: Ref, m: NodeManifest, w: World, target: string): Fetched
    requires Outdated(ref, m, w, target)
  {
    FetchOne(NeedFor(ref, m, w.acceptsHost).value, w).value
  }

  /** The artifacts of everything to be translated among `refs`. */
  ghost predicate Fetches(refs: seq<Ref>, m: NodeManifest, w: World, arts: map<string, Fetched>) {
    FetchAll(Needs(refs, m, w.acceptsHost), w) == Some(arts)
  }

  lemma {:induction false} NothingFetched(m: NodeManifest, w: World)
    ensures Fetches([], m, w, map[])
  {}

  /** One more outdated object is one more artifact. */
  lemma {:induction false} OneMoreFetched(refs: seq<Ref>, ref: Ref, m: NodeManifest, w: World, target: string,
                                          arts: map<string, Fetched>)
    requires Outdated(ref, m, w, target) && Fetches(refs, m, w, arts)
    ensures Fetches(refs + [ref], m, w, arts[ref.path := ArtifactOf(ref, m, w, target)])
  {
    var all, need := refs + [ref], NeedFor(ref, m, w.acceptsHost).value;
    assert all[..|all| - 1] == refs;
    var needs := Needs(refs, m, w.acceptsHost) + [need];
    assert Needs(all, m, w.acceptsHost) == needs;
    assert needs[..|needs| - 1] == Needs(refs, m, w.acceptsHost);
  }

  // ----- A mediation of the message -----

  lemma {:induction false} OneRefAt(context: string)
    requires context != ""
    ensures Found(OneObject(context), [Key("message")], Reported)
    ensures RefAt(OneObject(context), [Key("message")], "$") == Ref(context, "T", "$.message")
  {
    var root, a := OneObject(context), [Key("message")];
    OneObjectFound(context, a);
    FieldNamesDiffer();
    WholeMessagePath(a);
    assert a[1..] == [] && At(root, a) == Some(root.fields["message"]);
  }

  lemma {:induction false} OneRef(context: string)
    requires context != ""
    ensures var root, a := OneObject(context), [Key("message")];
      && EnumeratesAll(root, [a], Reported) && AllFound(root, [a], Reported)
      && RefsAt(root, [a], "$") == [Ref(context, "T", "$.message")]
  {
    var root, a := OneObject(context), [Key("message")];
    forall b ensures Found(root, b, Reported) <==> b == a { OneObjectFound(context, b); }
    OneRefAt(context);
  }

  lemma {:induction false} OneApplied(msg: Json, op: Op, w: World)
    requires msg.Obj? && op.segs == [] && w.translate(op.artifact, msg) == Some(msg)
    ensures ApplyOps(msg, msg, [op], w) == Done(Obj(msg.fields["@context" := Str(op.target)]))
  {
    assert [op][..0] == [];
    assert ApplyOps(msg, msg, [op][..0], w) == Done(msg);
    assert msg.fields + msg.fields == msg.fields;
  }

  /** The operation of the artifact for the whole message. */
  lemma {:induction false} MessageTranslates(context: string, arts: map<string, Fetched>, w: World)
    requires context != "" && "$.message" in arts && w.translate == Same
    ensures ApplyOps(Versioned(context), Versioned(context), OpsOf(["$.message"], arts), w) ==
      Done(Versioned(arts["$.message"].need.ToContextURL()))
  {
    var op := OpOf("$.message", arts["$.message"]);
    WholeMessagePath([Key("message")]);
    OneApplied(Versioned(context), op, w);
    assert OpsOf(["$.message"], arts) == [op];
    FieldNamesDiffer();
    assert Versioned(context).fields["@context" := Str(op.target)] == Versioned(op.target).fields;
  }

  lemma {:induction false} OneFetched(ref: Ref, m: NodeManifest, w: World, target: string)
    returns (arts: map<string, Fetched>)
    requires Outdated(ref, m, w, target)
    ensures Fetches([ref], m, w, arts) && arts.Keys == {ref.path} && arts[ref.path].need.ToContextURL() == target
  {
    arts := map[];
    NothingFetched(m, w);
    OneMoreFetched([], ref, m, w, target, arts);
    arts := arts[ref.path := ArtifactOf(ref, m, w, target)];
    assert [] + [ref] == [ref];
  }

  lemma {:induction false} NeededByRef(root: Json, a: Addr, m: NodeManifest, w: World, target: string)
    requires Found(root, a, Reported) && Outdated(RefAt(root, a, "$"), m, w, target)
    ensures Needed(root, a, m, w) && TargetAt(root, a, m, w) == target
  {}

  lemma {:induction false} OnlyTheMessage(context: string, m: NodeManifest, w: World)
    requires context != ""
    ensures AllNeedsInMessage(OneObject(context), m, w)
  {
    forall b | Needed(OneObject(context), b, m, w) ensures InMessage(b) {
      OneObjectFound(context, b);
    }
  }

  lemma {:induction false} FetchesRefs(root: Json, at: seq<Addr>, m: NodeManifest, w: World,
                                       arts: map<string, Fetched>, refs: seq<Ref>)
    requires AllFound(root, at, Reported) && refs == RefsAt(root, at, "$") && Fetches(refs, m, w, arts)
    ensures FetchAll(Needs(RefsAt(root, at, "$"), m, w.acceptsHost), w) == Some(arts)
  {}

  lemma {:induction false} Runs(root: Json, arts: map<string, Fetched>, paths: seq<string>, w: World, final: Json)
    requires forall p :: p in paths <==> p in arts
    requires root.Obj? && "message" in root.fields && root.fields["message"].Obj?
    requires ApplyOps(root.fields["message"], root.fields["message"], OpsOf(paths, arts), w) == Done(final)
    ensures var msg := root.fields["message"];
      Decoded(msg).Some? && ApplyOps(msg, Decoded(msg).value, OpsOf(paths, arts), w) == Done(final)
  {}

  lemma {:induction false} Assembled(root: Json, at: seq<Addr>, m: NodeManifest, w: World, arts: map<string, Fetched>,
                                     paths: seq<string>, final: Json)
    requires EnumeratesAll(root, at, Reported) && AllFound(root, at, Reported)
    requires FetchAll(Needs(RefsAt(root, at, "$"), m, w.acceptsHost), w) == Some(arts)
    requires Sorted(paths) && forall p :: p in paths <==> p in arts
    requires root.Obj? && "message" in root.fields && Decoded(root.fields["message"]).Some?
    requires ApplyOps(root.fields["message"], Decoded(root.fields["message"]).value, OpsOf(paths, arts), w) ==
      Done(final)
    ensures Mediates(root, at, m, w, arts, paths, final)
  {}

  lemma {:induction false} MediatesFrom(root: Json, at: seq<Addr>, m: NodeManifest, w: World,
                                        arts: map<string, Fetched>, paths: seq<string>, refs: seq<Ref>)
    returns (final: Json)
    requires EnumeratesAll(root, at, Reported) && AllFound(root, at, Reported) && refs == RefsAt(root, at, "$")
    requires Fetches(refs, m, w, arts) && Sorted(paths) && forall p :: p in paths <==> p in arts
    requires root.Obj? && "message" in root.fields && root.fields["message"].Obj?
    requires ApplyOps(root.fields["message"], root.fields["message"], OpsOf(paths, arts), w).Done?
    ensures ApplyOps(root.fields["message"], root.fields["message"], OpsOf(paths, arts), w) == Done(final)
    ensures Mediates(root, at, m, w, arts, paths, final)
  {
    final := ApplyOps(root.fields["message"], root.fields["message"], OpsOf(paths, arts), w).message;
    FetchesRefs(root, at, m, w, arts, refs);
    Runs(root, arts, paths, w, final);
    Assembled(root, at, m, w, arts, paths, final);
  }

  /** What the results about mediations inside the message require. */
  ghost predicate GoesThroughInside(root: Json, at: seq<Addr>, m: NodeManifest, w: World, arts: map<string, Fetched>,
                                    paths: seq<string>, final: Json) {
    && Mediates(root, at, m, w, arts, paths, final) && PrintablePayload(root) && ReturnsObjects(w)
    && AllNeedsInMessage(root, m, w) && Needed(root, [Key("message")], m, w)
  }

  ghost predicate SettledInside(root: Json, at: seq<Addr>, m: NodeManifest, w: World, arts: map<string, Fetched>,
                                paths: seq<string>, final: Json) {
    GoesThroughInside(root, at, m, w, arts, paths, final) && Settling(m, w) && NothingNeeded(Patched(root, final), m, w)
  }

  /** One mediation after which nothing is needed any more. */
  lemma {:induction false} OneMediationSettles()
    returns (root: Json, at: seq<Addr>, m: NodeManifest, w: World, arts: map<string, Fetched>, paths: seq<string>,
             final: Json)
    ensures SettledInside(root, at, m, w, arts, paths, final)
  {
    var context, target;
    context, target, m, w := SettlingSetting();
    SameReturnsObjects(w);
    root, at, paths := OneObject(context), [[Key("message")]], ["$.message"];
    var ref := Ref(context, "T", "$.message");
    arts := OneFetched(ref, m, w, target);
    OneRef(context);
    MessageTranslates(context, arts, w);
    final := MediatesFrom(root, at, m, w, arts, paths, [ref]);
    OneRefAt(context);
    NeededByRef(root, [Key("message")], m, w, target);
    OnlyTheMessage(context, m, w);
    OneObjectPrintable(context);
    MediationSettles.NothingNeededAfter(root, at, m, w, arts, paths, final);
  }

  /** It happens: a message that is one object of version 1.0, a manifest that supports 2.0, a registry that serves
      every artifact and a translator that returns objects. */
  lemma {:induction false} MediationHappens()
    returns (root: Json, at: seq<Addr>, m: NodeManifest, w: World, arts: map<string, Fetched>, paths: seq<string>,
             final: Json)
    ensures GoesThroughInside(root, at, m, w, arts, paths, final)
  {
    root, at, m, w, arts, paths, final := OneMediationSettles();
  }

  // ----- A mediation with an object beside the message -----

  const INSIDE_PATH := "$.message.x"
  const BESIDE_PATH := "$.z"

  lemma {:induction false} TwoPaths()
    ensures "$" + Suffix(INSIDE) == INSIDE_PATH && "$" + Suffix(BESIDE) == BESIDE_PATH
    ensures Less(INSIDE_PATH, BESIDE_PATH)
  {
    assert INSIDE[1..] == [Key("x")] && INSIDE[1..][1..] == [] && BESIDE[1..] == [];
    assert INSIDE_PATH == "$." + "message.x" && BESIDE_PATH == "$." + "z";
    LessAfter("$.", "message.x", "z");
  }

  lemma {:induction false} LessAfter(c: string, a: string, b: string)
    requires Less(a, b)
    ensures Less(c + a, c + b)
  {
    if c == "" {
      assert c + a == a && c + b == b;
    } else {
      assert (c + a)[1..] == c[1..] + a && (c + b)[1..] == c[1..] + b;
      LessAfter(c[1..], a, b);
    }
  }

  lemma {:induction false} TwoAt(context: string)
    ensures At(TwoObjects(context), INSIDE) == Some(Versioned(context))
    ensures At(TwoObjects(context), BESIDE) == Some(Versioned(context))
  {
    FieldNamesDiffer();
    assert INSIDE[1..][1..] == [] && BESIDE[1..] == [];
  }

  lemma {:induction false} TwoRefs(context: string)
    requires context != ""
    ensures var root, at := TwoObjects(context), [INSIDE, BESIDE];
      && EnumeratesAll(root, at, Reported) && AllFound(root, at, Reported)
      && RefsAt(root, at, "$") == [Ref(context, "T", INSIDE_PATH), Ref(context, "T", BESIDE_PATH)]
  {
    var root, at := TwoObjects(context), [INSIDE, BESIDE];
    forall b ensures Found(root, b, Reported) <==> b == INSIDE || b == BESIDE { TwoObjectsFound(context, b); }
    FieldNamesDiffer();
    TwoPaths();
    TwoAt(context);
  }

  lemma {:induction false} TwoFetched(r: Ref, s: Ref, m: NodeManifest, w: World, target: string)
    returns (arts: map<string, Fetched>)
    requires Outdated(r, m, w, target) && Outdated(s, m, w, target)
    ensures Fetches([r, s], m, w, arts) && arts.Keys == {r.path, s.path}
    ensures arts[s.path].need.ToContextURL() == target
  {
    arts := OneFetched(r, m, w, target);
    OneMoreFetched([r], s, m, w, target, arts);
    arts := arts[s.path := ArtifactOf(s, m, w, target)];
    assert [r] + [s] == [r, s];
  }

  /** Handing back the object inside goes through. */
  lemma {:induction false} PartGoesThrough(msg: Json, op: Op, v: Json, w: World)
    requires msg.Obj? && op.segs != [] && Get(msg, op.segs) == Ok(v) && v.Obj? && w.translate == Same
    ensures var r := ApplyOp(msg, msg, op, w); r.Done? && r.message.Obj?
  {
    ReadableIsWritable(msg, op.segs, WithContext(v, op.target));
  }

  /** So does handing back the whole message after it, and puts the original object back. */
  lemma {:induction false} WholePutsBack(original: Json, msg: Json, op: Op, w: World, b: Addr)
    requires original.Obj? && msg.Obj? && op.segs == [] && w.translate == Same
    requires b != [] && b[0].Key? && b[0].key != "@context" && b[0].key in original.fields
    ensures var r := ApplyOp(original, msg, op, w);
      && r.Done? && At(r.message, b) == At(original, b)
      && At(r.message, [Key("@context")]) == Some(Str(op.target))
  {
    assert w.translate(op.artifact, original) == Some(original);
    WholeOpTakes(original, msg, op, w, b);
    WholeOpStamps(original, msg, op, w);
  }

  lemma {:induction false} TwoSteps(msg: Json, ops: seq<Op>, w: World)
    requires |ops| == 2 && ApplyOp(msg, msg, ops[0], w).Done?
    ensures ApplyOps(msg, msg, ops, w) == ApplyOp(msg, ApplyOp(msg, msg, ops[0], w).message, ops[1], w)
  {
    assert ops[..1][..0] == [] && ops[..1][0] == ops[0];
    assert ApplyOps(msg, msg, ops[..1][..0], w) == Done(msg);
    assert ApplyOps(msg, msg, ops[..1], w) == ApplyOp(msg, msg, ops[0], w);
  }

  lemma {:induction false} MergedBack(msg: Json, ops: seq<Op>, w: World, a: Addr, v: Json)
    requires msg.Obj? && |ops| == 2 && ops[1].segs == [] && w.translate == Same && v.Obj?
    requires Printable(a) && StartsWithField(a) && ops[0].segs == SegmentsOf(a) && At(msg, a) == Some(v)
    ensures var r := ApplyOps(msg, msg, ops, w);
      && r.Done? && At(r.message, a) == Some(v) && At(r.message, [Key("@context")]) == Some(Str(ops[1].target))
  {
    SegmentsCons(a);
    GetFollowsAddress(msg, a);
    PartGoesThrough(msg, ops[0], v, w);
    TwoSteps(msg, ops, w);
    assert a[0].key in msg.fields;
    WholePutsBack(msg, ApplyOp(msg, msg, ops[0], w).message, ops[1], w, a);
  }

  /** The two operations: at the object inside, then on the whole message. */
  lemma {:induction false} TwoOps(context: string, arts: map<string, Fetched>)
    requires context != "" && arts.Keys == {INSIDE_PATH, BESIDE_PATH}
    ensures var ops := OpsOf([INSIDE_PATH, BESIDE_PATH], arts);
      && Printable([Key("x")]) && ops[0].segs == SegmentsOf([Key("x")]) && ops[1].segs == []
      && ops[1].target == arts[BESIDE_PATH].need.ToContextURL()
  {
    var root := TwoObjects(context);
    TwoObjectsPrintable(context);
    TwoPaths();
    TwoAt(context);
    TwoObjectsFound(context, INSIDE);
    assert INSIDE[1..] == [Key("x")];
    FieldNamesDiffer();
    OpAtPlace(root, INSIDE, arts[INSIDE_PATH]);
    OpOnWhole(root, BESIDE, arts[BESIDE_PATH]);
  }

  lemma {:induction false} SortedPair(p: string, q: string)
    requires Less(p, q)
    ensures Sorted([p, q])
  {}

  lemma {:induction false} TwoTranslate(context: string, w: World, arts: map<string, Fetched>)
    requires context != "" && w.translate == Same && arts.Keys == {INSIDE_PATH, BESIDE_PATH}
    ensures var msg, root := Obj(map["x" := Versioned(context)]), TwoObjects(context);
      && "message" in root.fields && root.fields["message"] == msg
      && var r := ApplyOps(msg, msg, OpsOf([INSIDE_PATH, BESIDE_PATH], arts), w);
      && r.Done? && At(r.message, [Key("x")]) == Some(Versioned(context))
      && At(r.message, [Key("@context")]) == Some(Str(arts[BESIDE_PATH].need.ToContextURL()))
  {
    TwoOps(context, arts);
    InsideMessage(context);
    MergedBack(Obj(map["x" := Versioned(context)]), OpsOf([INSIDE_PATH, BESIDE_PATH], arts), w,
               [Key("x")], Versioned(context));
  }

  lemma {:induction false} InsideMessage(context: string)
    ensures var root := TwoObjects(context);
      && "message" in root.fields && root.fields["message"] == Obj(map["x" := Versioned(context)])
      && At(root.fields["message"], [Key("x")]) == Some(Versioned(context)) && StartsWithField([Key("x")])
  {
    FieldNamesDiffer();
    assert [Key("x")][1..] == [];
  }

  /** An object to translate inside the message, one outside it, and a body in which the first has its old @context
      and the message, which had none and needed none, that of the second. */
  ghost predicate SentBack(root: Json, m: NodeManifest, w: World, final: Json, inside: Addr, outside: Addr) {
    && Needed(root, inside, m, w) && InMessage(inside) && Needed(root, outside, m, w) && !InMessage(outside)
    && root.Obj? && RefAt(root, inside, "$").contextURL != TargetAt(root, inside, m, w)
    && ContextIs(Patched(root, final), inside, RefAt(root, inside, "$").contextURL)
    && At(root, [Key("message")]).Some? && ContextField(At(root, [Key("message")]).value).None?
    && ContextIs(Patched(root, final), [Key("message")], TargetAt(root, outside, m, w))
  }

  lemma {:induction false} TwoRefsAt(context: string)
    requires context != ""
    ensures var root := TwoObjects(context);
      && Found(root, INSIDE, Reported) && RefAt(root, INSIDE, "$") == Ref(context, "T", INSIDE_PATH)
      && Found(root, BESIDE, Reported) && RefAt(root, BESIDE, "$") == Ref(context, "T", BESIDE_PATH)
  {
    TwoRefs(context);
    var refs := RefsAt(TwoObjects(context), [INSIDE, BESIDE], "$");
    assert refs[0] == RefAt(TwoObjects(context), INSIDE, "$") && refs[1] == RefAt(TwoObjects(context), BESIDE, "$");
  }

  lemma {:induction false} TwoSentBack(context: string, m: NodeManifest, w: World, target: string, final: Json)
    requires context != "" && context != target && Outdated(Ref(context, "T", INSIDE_PATH), m, w, target)
    requires Outdated(Ref(context, "T", BESIDE_PATH), m, w, target)
    requires At(final, [Key("x")]) == Some(Versioned(context)) && At(final, [Key("@context")]) == Some(Str(target))
    ensures SentBack(TwoObjects(context), m, w, final, INSIDE, BESIDE)
  {
    TwoRefsAt(context);
    NeededByRef(TwoObjects(context), INSIDE, m, w, target);
    NeededByRef(TwoObjects(context), BESIDE, m, w, target);
    FieldNamesDiffer();
    InsideShows(context, final);
    MessageShows(context, final, target);
  }

  lemma {:induction false} InsideShows(context: string, final: Json)
    requires At(final, [Key("x")]) == Some(Versioned(context))
    ensures ContextIs(Patched(TwoObjects(context), final), INSIDE, context) && InMessage(INSIDE) && !InMessage(BESIDE)
  {
    FieldNamesDiffer();
    assert INSIDE[1..] == [Key("x")];
    AtPatched(TwoObjects(context), final, INSIDE);
  }

  lemma {:induction false} MessageShows(context: string, final: Json, target: string)
    requires At(final, [Key("@context")]) == Some(Str(target))
    ensures ContextIs(Patched(TwoObjects(context), final), [Key("message")], target)
    ensures var message := At(TwoObjects(context), [Key("message")]);
      message.Some? && ContextField(message.value).None?
  {
    var root, a := TwoObjects(context), [Key("message")];
    FieldNamesDiffer();
    InsideMessage(context);
    assert a[1..] == [] && ContextOf([]) == [Key("@context")];
    ContextInBody(root, final, a, target);
    assert At(root, a) == Some(root.fields["message"]);
  }

  /** A mediation that goes through with an object outside the message: the object inside that was translated first is
      sent back to its old version. */
  lemma {:induction false} OutsideSendsBack()
    returns (root: Json, at: seq<Addr>, m: NodeManifest, w: World, arts: map<string, Fetched>, paths: seq<string>,
             final: Json, inside: Addr, outside: Addr)
    ensures Mediates(root, at, m, w, arts, paths, final) && PrintablePayload(root) && ReturnsObjects(w)
    ensures SentBack(root, m, w, final, inside, outside)
  {
    var context, target;
    context, target, m, w := Setting(Same);
    SameReturnsObjects(w);
    root, at, paths := TwoObjects(context), [INSIDE, BESIDE], [INSIDE_PATH, BESIDE_PATH];
    inside, outside := INSIDE, BESIDE;
    TwoObjectsPrintable(context);
    var r, s := Ref(context, "T", INSIDE_PATH), Ref(context, "T", BESIDE_PATH);
    arts := TwoFetched(r, s, m, w, target);
    TwoRefs(context);
    TwoPaths();
    SortedPair(INSIDE_PATH, BESIDE_PATH);
    TwoTranslate(context, w, arts);
    final := MediatesFrom(root, at, m, w, arts, paths, [r, s]);
    TwoSentBack(context, m, w, target, final);
  }

  /** A translator that answers null for the whole message makes the mediation of such a message panic. */
  lemma {:induction false} NullPanics(context: string, f: Fetched, w: World)
    requires w.translate(f.content, Versioned(context)) == Some(Json.Null)
    ensures ApplyOps(Versioned(context), Versioned(context), [OpOf("$.message", f)], w).Panics?
  {
    var msg, ops := Versioned(context), [OpOf("$.message", f)];
    WholeMessagePath([Key("message")]);
    assert ops[..0] == [];
    assert MeetsNull(msg, msg, ops, w, 0);
    PanicsIff(msg, msg, ops, w);
  }
}
