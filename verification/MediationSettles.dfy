/** When one mediation is enough: the body it leaves needs no translation any more.
    schemaversionmediator.go: Mediate, CheckCompatibility. */
module MediationSettles {
  import opened Text
  import opened Json
  import opened Paths
  import opened PayloadWalk
  import opened UrlText
  import opened Versions
  import opened Mediation
  import opened MediationSafety
  import opened MediationOutside
  import opened Mediator

  // ----- Objects that need translation, by their two fields -----

  /** The nonempty string in field `k` of the object at `a`. */
  function TextAt(j: Json, a: Addr, k: string): Option<string> {
    var v := At(j, a + [Key(k)]);
    if v.Some? && v.value.Str? && v.value.s != "" then Some(v.value.s) else None
  }

  /** The walk comes by this address. */
  predicate Walkable(a: Addr) {
    forall i :: 0 <= i < |a| ==> Descends(a[i])
  }

  /** An object at `a` needs translation. */
  predicate OutdatedAt(j: Json, a: Addr, m: NodeManifest, acceptsHost: string -> bool) {
    var context, typ := TextAt(j, a, "@context"), TextAt(j, a, "@type");
    Walkable(a) && context.Some? && typ.Some? && Outdated(context.value, typ.value, m, acceptsHost)
  }

  predicate Outdated(context: string, typ: string, m: NodeManifest, acceptsHost: string -> bool) {
    NeedFor(Ref(context, typ, ""), m, acceptsHost).Some?
  }

  function TargetFor(context: string, typ: string, m: NodeManifest, acceptsHost: string -> bool): string
    requires Outdated(context, typ, m, acceptsHost)
  {
    NeedFor(Ref(context, typ, ""), m, acceptsHost).value.ToContextURL()
  }

  lemma {:induction false} NeedIgnoresPath(context: string, typ: string, path: string, m: NodeManifest,
                                           acceptsHost: string -> bool)
    ensures var need := NeedFor(Ref(context, typ, path), m, acceptsHost);
      && (need.Some? <==> Outdated(context, typ, m, acceptsHost))
      && (need.Some? ==> need.value.ToContextURL() == TargetFor(context, typ, m, acceptsHost))
  {}

  lemma {:induction false} FieldText(j: Json, a: Addr, k: string)
    ensures TextAt(j, a, k) ==
      if At(j, a).Some? && At(j, a).value.Obj? then StringField(At(j, a).value.fields, k) else None
  {
    AtConcat(j, a, [Key(k)]);
    if At(j, a).Some? {
      assert [Key(k)][1..] == [];
    }
  }

  lemma {:induction false} NeededIsOutdated(root: Json, a: Addr, m: NodeManifest, w: World)
    ensures Needed(root, a, m, w) <==> OutdatedAt(root, a, m, w.acceptsHost)
    ensures Needed(root, a, m, w) ==>
      TargetAt(root, a, m, w) ==
      TargetFor(TextAt(root, a, "@context").value, TextAt(root, a, "@type").value, m, w.acceptsHost)
  {
    FieldText(root, a, "@context");
    FieldText(root, a, "@type");
    assert Found(root, a, Reported) <==>
        Walkable(a) && TextAt(root, a, "@context").Some? && TextAt(root, a, "@type").Some?;
    if Found(root, a, Reported) {
      var ref := RefAt(root, a, "$");
      NeedIgnoresPath(ref.contextURL, ref.typ, ref.path, m, w.acceptsHost);
    }
  }

  // ----- What is asked of the manifest and of the translator -----

  /** An object of this type that carries its target needs no translation. */
  ghost predicate TargetsSettle(m: NodeManifest, acceptsHost: string -> bool) {
    forall context, typ :: Outdated(context, typ, m, acceptsHost) ==>
      !Outdated(TargetFor(context, typ, m, acceptsHost), typ, m, acceptsHost)
  }

  /** The base URL is plain, and the version to translate to looks like one. */
  ghost predicate VersionShaped(obj: SchemaObject, m: NodeManifest, acceptsHost: string -> bool) {
    var canonical := CanonicalVersion(obj, m.defaultVersionPolicy);
    && (exists base: AbsoluteUrl :: obj.baseURL == base.Text() && UnversionedBase(base, acceptsHost))
    && (canonical.Some? ==>
        Plain(canonical.value) && '/' !in canonical.value && IsVersionSegment(canonical.value))
  }

  lemma {:induction false} ShapedTargetsSettle(m: NodeManifest, acceptsHost: string -> bool)
    requires ValidSchema(m) && forall obj :: obj in m.schemaObjects ==> VersionShaped(obj, m, acceptsHost)
    ensures TargetsSettle(m, acceptsHost)
  {
    forall context, typ | Outdated(context, typ, m, acceptsHost)
        ensures !Outdated(TargetFor(context, typ, m, acceptsHost), typ, m, acceptsHost) {
      var ref := Ref(context, typ, "");
      var need := NeedFor(ref, m, acceptsHost).value;
      assert VersionShaped(need.to, m, acceptsHost);
      var base: AbsoluteUrl :| need.to.baseURL == base.Text() && UnversionedBase(base, acceptsHost);
      TranslatedIsCompatibleIff(ref, m, base, acceptsHost);
    }
  }

  /** Every object that has an @type is still where it was, with that @type. */
  ghost predicate KeepsTypes(w: World) {
    forall artifact, j, a :: w.translate(artifact, j).Some? && Walkable(a) && TextAt(j, a, "@type").Some? ==>
      TextAt(w.translate(artifact, j).value, a, "@type") == TextAt(j, a, "@type")
  }

  /** What is outdated inside a translation was there before. */
  ghost predicate BringsNothing(w: World, m: NodeManifest) {
    forall artifact, j, a ::
      (w.translate(artifact, j).Some? && a != [] && OutdatedAt(w.translate(artifact, j).value, a, m, w.acceptsHost)) ==>
      SameTexts(w.translate(artifact, j).value, j, a)
  }

  predicate SameTexts(j: Json, j': Json, a: Addr) {
    TextAt(j, a, "@context") == TextAt(j', a, "@context") && TextAt(j, a, "@type") == TextAt(j', a, "@type")
  }

  // ----- One operation -----

  lemma {:induction false} FieldNotAt(r: Addr, c: Addr, k: string)
    requires Walkable(r) && !(r <= c) && (k == "@context" || k == "@type")
    ensures !(r <= c + [Key(k)]) && !(c + [Key(k)] <= r)
  {
    FieldApart(c, k, r);
    assert !Descends((c + [Key(k)])[|c|]);
  }

  /** Beside the place of an operation, nothing changes. */
  lemma {:induction false} TextApart(original: Json, msg: Json, op: Op, w: World, r: Addr, c: Addr, k: string)
    requires msg.Obj? && Printable(r) && r != [] && Walkable(r) && op.segs == SegmentsOf(r)
    requires ApplyOp(original, msg, op, w).Done? && !(r <= c) && (k == "@context" || k == "@type")
    ensures TextAt(ApplyOp(original, msg, op, w).message, c, k) == TextAt(msg, c, k)
  {
    SegmentsCons(r);
    StepsOfSegments(r);
    FieldNotAt(r, c, k);
    OpLeaves(original, msg, op, w, c + [Key(k)]);
  }

  /** What the operation at `r` is given and returns. */
  lemma {:induction false} Exchanged(original: Json, msg: Json, op: Op, w: World, r: Addr)
    returns (input: Json, returned: Json)
    requires Printable(r) && r != [] && op.segs == SegmentsOf(r) && ApplyOp(original, msg, op, w).Done?
    ensures At(msg, r) == Some(input) && w.translate(op.artifact, input) == Some(returned)
    ensures At(ApplyOp(original, msg, op, w).message, r) == Some(WithContext(returned, op.target))
  {
    SegmentsCons(r);
    GetFollowsAddress(msg, r);
    input := At(msg, r).value;
    returned := w.translate(op.artifact, input).value;
    SetThenGet(msg, op.segs, WithContext(returned, op.target));
    GetFollowsAddress(ApplyOp(original, msg, op, w).message, r);
  }

  lemma {:induction false} TextBelow(j: Json, r: Addr, v: Json, b: Addr, k: string)
    requires At(j, r) == Some(v)
    ensures TextAt(j, r + b, k) == TextAt(v, b, k)
  {
    assert (r + b) + [Key(k)] == r + (b + [Key(k)]);
    AtConcat(j, r, b + [Key(k)]);
  }

  lemma {:induction false} StampedText(v: Json, target: string, b: Addr, k: string)
    requires v.Obj? && Walkable(b) && (b != [] || k != "@context")
    ensures TextAt(WithContext(v, target), b, k) == TextAt(v, b, k)
  {
    var f := b + [Key(k)];
    assert f[0] == if b == [] then Key(k) else b[0];
    assert b != [] ==> Descends(b[0]);
  }

  lemma {:induction false} StampedContext(v: Json, target: string)
    requires v.Obj? && target != ""
    ensures TextAt(WithContext(v, target), [], "@context") == Some(target)
  {
    assert [] + [Key("@context")] == [Key("@context")] && [Key("@context")][1..] == [];
  }

  /** An operation on a part makes nothing outdated but, perhaps, its own place. */
  lemma {:induction false} PartBringsNothing(original: Json, msg: Json, op: Op, w: World, m: NodeManifest, r: Addr,
                                             c: Addr)
    requires msg.Obj? && Printable(r) && r != [] && Walkable(r) && op.segs == SegmentsOf(r)
    requires ApplyOp(original, msg, op, w).Done? && ReturnsObjects(w) && BringsNothing(w, m) && c != r
    requires OutdatedAt(ApplyOp(original, msg, op, w).message, c, m, w.acceptsHost)
    ensures OutdatedAt(msg, c, m, w.acceptsHost)
  {
    var after := ApplyOp(original, msg, op, w).message;
    if r <= c {
      var b := c[|r|..];
      assert c == r + b;
      WalkableTail(r, b);
      var input, returned := Exchanged(original, msg, op, w, r);
      BelowAfter(after, r, returned, op.target, b, "@context");
      BelowAfter(after, r, returned, op.target, b, "@type");
      assert OutdatedAt(returned, b, m, w.acceptsHost);
      assert SameTexts(returned, input, b);
      TextBelow(msg, r, input, b, "@context");
      TextBelow(msg, r, input, b, "@type");
    } else {
      TextApart(original, msg, op, w, r, c, "@context");
      TextApart(original, msg, op, w, r, c, "@type");
    }
  }

  lemma {:induction false} WalkableTail(r: Addr, b: Addr)
    requires Walkable(r + b)
    ensures Walkable(r) && Walkable(b)
  {
    assert forall i :: 0 <= i < |r| ==> (r + b)[i] == r[i];
    assert forall i :: 0 <= i < |b| ==> (r + b)[|r| + i] == b[i];
  }

  lemma {:induction false} BelowAfter(after: Json, r: Addr, returned: Json, target: string, b: Addr, k: string)
    requires At(after, r) == Some(WithContext(returned, target)) && returned.Obj? && Walkable(b)
    requires b != [] || k != "@context"
    ensures TextAt(after, r + b, k) == TextAt(returned, b, k)
  {
    TextBelow(after, r, WithContext(returned, target), b, k);
    StampedText(returned, target, b, k);
  }

  /** Objects with an @type keep it. */
  lemma {:induction false} PartKeepsType(original: Json, msg: Json, op: Op, w: World, r: Addr, c: Addr)
    requires msg.Obj? && Printable(r) && r != [] && Walkable(r) && op.segs == SegmentsOf(r)
    requires ApplyOp(original, msg, op, w).Done? && ReturnsObjects(w) && KeepsTypes(w)
    requires Walkable(c) && TextAt(msg, c, "@type").Some?
    ensures TextAt(ApplyOp(original, msg, op, w).message, c, "@type") == TextAt(msg, c, "@type")
  {
    if r <= c {
      var b := c[|r|..];
      assert c == r + b;
      WalkableTail(r, b);
      var input, returned := Exchanged(original, msg, op, w, r);
      TextBelow(msg, r, input, b, "@type");
      BelowAfter(ApplyOp(original, msg, op, w).message, r, returned, op.target, b, "@type");
    } else {
      TextApart(original, msg, op, w, r, c, "@type");
    }
  }

  /** The place itself then carries the target. */
  lemma {:induction false} PartCarriesTarget(original: Json, msg: Json, op: Op, w: World, r: Addr)
    requires Printable(r) && r != [] && op.segs == SegmentsOf(r) && op.target != ""
    requires ApplyOp(original, msg, op, w).Done? && ReturnsObjects(w)
    ensures TextAt(ApplyOp(original, msg, op, w).message, r, "@context") == Some(op.target)
  {
    var input, returned := Exchanged(original, msg, op, w, r);
    StampedContext(returned, op.target);
    TextBelow(ApplyOp(original, msg, op, w).message, r, WithContext(returned, op.target), [], "@context");
    assert r + [] == r;
  }

  // ----- The operation on the whole message, which comes first -----

  lemma {:induction false} WholeText(msg: Json, op: Op, w: World, c: Addr, k: string)
    requires msg.Obj? && op.segs == [] && ApplyOp(msg, msg, op, w).Done? && Walkable(c) && (c != [] || k != "@context")
    ensures var r, after := w.translate(op.artifact, msg).value, ApplyOp(msg, msg, op, w).message;
      TextAt(after, c, k) ==
        if (if c == [] then Key(k) else c[0]).Key? && (if c == [] then k else c[0].key) in r.fields
        then TextAt(r, c, k) else TextAt(msg, c, k)
  {
    var f := c + [Key(k)];
    assert f[0] == if c == [] then Key(k) else c[0];
    assert c != [] ==> Descends(c[0]);
  }

  lemma {:induction false} WholeBringsNothing(msg: Json, op: Op, w: World, m: NodeManifest, c: Addr)
    requires msg.Obj? && op.segs == [] && ApplyOp(msg, msg, op, w).Done? && BringsNothing(w, m) && c != []
    requires OutdatedAt(ApplyOp(msg, msg, op, w).message, c, m, w.acceptsHost)
    ensures OutdatedAt(msg, c, m, w.acceptsHost)
  {
    WholeText(msg, op, w, c, "@context");
    WholeText(msg, op, w, c, "@type");
    var returned := w.translate(op.artifact, msg).value;
    assert OutdatedAt(returned, c, m, w.acceptsHost) ==> SameTexts(returned, msg, c);
  }

  lemma {:induction false} WholeKeepsType(msg: Json, op: Op, w: World, c: Addr)
    requires msg.Obj? && op.segs == [] && ApplyOp(msg, msg, op, w).Done? && KeepsTypes(w)
    requires Walkable(c) && TextAt(msg, c, "@type").Some?
    ensures TextAt(ApplyOp(msg, msg, op, w).message, c, "@type") == TextAt(msg, c, "@type")
  {
    WholeText(msg, op, w, c, "@type");
    assert TextAt(w.translate(op.artifact, msg).value, c, "@type") == TextAt(msg, c, "@type");
  }

  lemma {:induction false} WholeCarriesTarget(original: Json, msg: Json, op: Op, w: World)
    requires op.segs == [] && ApplyOp(original, msg, op, w).Done? && op.target != ""
    ensures TextAt(ApplyOp(original, msg, op, w).message, [], "@context") == Some(op.target)
  {
    WholeOpStamps(original, msg, op, w);
    assert [] + [Key("@context")] == [Key("@context")];
  }

  // ----- The run of operations -----

  /** The operations of a mediation inside the message: at each outdated object, with its target, parents first. */
  ghost predicate Laid(msg: Json, ops: seq<Op>, rels: seq<Addr>, m: NodeManifest, acceptsHost: string -> bool) {
    && msg.Obj? && Located(ops, rels) && ParentsFirst(rels)
    && (forall k :: 0 <= k < |ops| ==> OpFits(msg, ops[k], rels[k], m, acceptsHost))
    && (forall c :: OutdatedAt(msg, c, m, acceptsHost) ==> c in rels)
  }

  ghost predicate OpFits(msg: Json, op: Op, r: Addr, m: NodeManifest, acceptsHost: string -> bool) {
    && OutdatedAt(msg, r, m, acceptsHost)
    && op.target == TargetFor(TextAt(msg, r, "@context").value, TextAt(msg, r, "@type").value, m, acceptsHost)
  }

  /** After some operations, what is outdated is among the places still to come, and those have their @type. */
  ghost predicate Pending(msg: Json, now: Json, rels: seq<Addr>, n: nat, m: NodeManifest, acceptsHost: string -> bool)
    requires n <= |rels|
  {
    && now.Obj?
    && (forall c :: OutdatedAt(now, c, m, acceptsHost) ==> c in rels[n..])
    && (forall k :: n <= k < |rels| ==> TextAt(now, rels[k], "@type") == TextAt(msg, rels[k], "@type"))
  }

  lemma {:induction false} TargetNotEmpty(msg: Json, op: Op, r: Addr, m: NodeManifest, acceptsHost: string -> bool)
    requires OpFits(msg, op, r, m, acceptsHost)
    ensures op.target != ""
  {}

  /** One more operation: nothing new is outdated, and types stay. */
  lemma {:induction false} OneMoreOp(msg: Json, now: Json, op: Op, w: World, m: NodeManifest, r: Addr, c: Addr)
    requires now.Obj? && Printable(r) && Walkable(r) && op.segs == SegmentsOf(r) && (r == [] ==> now == msg)
    requires ApplyOp(msg, now, op, w).Done? && ReturnsObjects(w) && BringsNothing(w, m) && KeepsTypes(w)
    ensures var after := ApplyOp(msg, now, op, w).message;
      && after.Obj?
      && (c != r && OutdatedAt(after, c, m, w.acceptsHost) ==> OutdatedAt(now, c, m, w.acceptsHost))
      && (Walkable(c) && TextAt(now, c, "@type").Some? ==> TextAt(after, c, "@type") == TextAt(now, c, "@type"))
  {
    var after := ApplyOp(msg, now, op, w).message;
    if r == [] {
      if c != r && OutdatedAt(after, c, m, w.acceptsHost) { WholeBringsNothing(msg, op, w, m, c); }
      if Walkable(c) && TextAt(now, c, "@type").Some? { WholeKeepsType(msg, op, w, c); }
    } else {
      SegmentsCons(r);
      if c != r && OutdatedAt(after, c, m, w.acceptsHost) { PartBringsNothing(msg, now, op, w, m, r, c); }
      if Walkable(c) && TextAt(now, c, "@type").Some? { PartKeepsType(msg, now, op, w, r, c); }
    }
  }

  /** The object translated is no longer outdated. */
  lemma {:induction false} PlaceSettled(msg: Json, now: Json, op: Op, w: World, m: NodeManifest, r: Addr)
    requires now.Obj? && Printable(r) && op.segs == SegmentsOf(r) && (r == [] ==> now == msg)
    requires ApplyOp(msg, now, op, w).Done? && ReturnsObjects(w) && BringsNothing(w, m) && KeepsTypes(w)
    requires TargetsSettle(m, w.acceptsHost) && OpFits(msg, op, r, m, w.acceptsHost)
    requires TextAt(now, r, "@type") == TextAt(msg, r, "@type")
    ensures !OutdatedAt(ApplyOp(msg, now, op, w).message, r, m, w.acceptsHost)
  {
    TargetNotEmpty(msg, op, r, m, w.acceptsHost);
    OneMoreOp(msg, now, op, w, m, r, r);
    if r == [] {
      WholeCarriesTarget(msg, now, op, w);
    } else {
      SegmentsCons(r);
      PartCarriesTarget(msg, now, op, w, r);
    }
  }

  /** What holds of one operation of the run. */
  ghost predicate StepOf(msg: Json, now: Json, op: Op, r: Addr, w: World, m: NodeManifest, after: Json) {
    && now.Obj? && Printable(r) && op.segs == SegmentsOf(r) && (r == [] ==> now == msg)
    && ApplyOp(msg, now, op, w) == Done(after)
    && OpFits(msg, op, r, m, w.acceptsHost) && TextAt(now, r, "@type") == TextAt(msg, r, "@type")
  }

  lemma {:induction false} LaidStep(msg: Json, now: Json, ops: seq<Op>, rels: seq<Addr>, w: World, m: NodeManifest,
                                    n: nat, after: Json)
    requires Laid(msg, ops, rels, m, w.acceptsHost) && n < |ops| && Pending(msg, now, rels, n, m, w.acceptsHost)
    requires (n == 0 ==> now == msg) && ApplyOp(msg, now, ops[n], w) == Done(after)
    ensures StepOf(msg, now, ops[n], rels[n], w, m, after)
  {
    WholeComesFirst(rels, n);
  }

  lemma {:induction false} PendingStep(msg: Json, now: Json, ops: seq<Op>, rels: seq<Addr>, w: World, m: NodeManifest,
                                       n: nat, after: Json)
    requires Laid(msg, ops, rels, m, w.acceptsHost) && n < |ops| && Pending(msg, now, rels, n, m, w.acceptsHost)
    requires (n == 0 ==> now == msg) && ApplyOp(msg, now, ops[n], w) == Done(after)
    requires ReturnsObjects(w) && BringsNothing(w, m) && KeepsTypes(w) && TargetsSettle(m, w.acceptsHost)
    ensures Pending(msg, after, rels, n + 1, m, w.acceptsHost)
  {
    LaidStep(msg, now, ops, rels, w, m, n, after);
    forall c | OutdatedAt(after, c, m, w.acceptsHost) ensures c in rels[n + 1..] {
      StillOutdated(msg, now, ops[n], rels[n], w, m, after, c);
      InTail(rels, n, c);
    }
    forall k | n + 1 <= k < |rels| ensures TextAt(after, rels[k], "@type") == TextAt(msg, rels[k], "@type") {
      assert OpFits(msg, ops[k], rels[k], m, w.acceptsHost);
      TypeToCome(msg, now, ops[n], rels[n], w, m, after, rels[k]);
    }
    OpsKeepObjectOnce(msg, now, ops[n], w);
  }

  lemma {:induction false} InTail(rels: seq<Addr>, n: nat, c: Addr)
    requires n < |rels| && c in rels[n..] && c != rels[n]
    ensures c in rels[n + 1..]
  {
    assert rels[n..] == [rels[n]] + rels[n + 1..];
  }

  lemma {:induction false} OpsKeepObjectOnce(msg: Json, now: Json, op: Op, w: World)
    requires now.Obj? && ApplyOp(msg, now, op, w).Done?
    ensures ApplyOp(msg, now, op, w).message.Obj?
  {}

  lemma {:induction false} StillOutdated(msg: Json, now: Json, op: Op, r: Addr, w: World, m: NodeManifest, after: Json,
                                         c: Addr)
    requires StepOf(msg, now, op, r, w, m, after) && OutdatedAt(after, c, m, w.acceptsHost)
    requires ReturnsObjects(w) && BringsNothing(w, m) && KeepsTypes(w) && TargetsSettle(m, w.acceptsHost)
    ensures c != r && OutdatedAt(now, c, m, w.acceptsHost)
  {
    PlaceSettled(msg, now, op, w, m, r);
    OneMoreOp(msg, now, op, w, m, r, c);
  }

  lemma {:induction false} TypeToCome(msg: Json, now: Json, op: Op, r: Addr, w: World, m: NodeManifest, after: Json,
                                      c: Addr)
    requires StepOf(msg, now, op, r, w, m, after) && Walkable(c)
    requires TextAt(msg, c, "@type").Some? && TextAt(now, c, "@type") == TextAt(msg, c, "@type")
    requires ReturnsObjects(w) && BringsNothing(w, m) && KeepsTypes(w)
    ensures TextAt(after, c, "@type") == TextAt(msg, c, "@type")
  {
    OneMoreOp(msg, now, op, w, m, r, c);
  }

  lemma {:induction false} WholeComesFirst(rels: seq<Addr>, n: nat)
    requires ParentsFirst(rels) && n < |rels|
    ensures rels[n] == [] ==> n == 0
  {
    if n > 0 {
      assert MayFollow(rels[0], rels[n]);
    }
  }

  lemma {:induction false} PendingFirst(msg: Json, ops: seq<Op>, rels: seq<Addr>, w: World, m: NodeManifest)
    requires Laid(msg, ops, rels, m, w.acceptsHost)
    ensures Pending(msg, msg, rels, 0, m, w.acceptsHost) && ApplyOps(msg, msg, ops[..0], w) == Done(msg)
  {
    assert rels[0..] == rels && ops[..0] == [];
  }

  lemma {:induction false} LastOfRun(msg: Json, ops: seq<Op>, w: World, n: nat)
    requires n < |ops| && ApplyOps(msg, msg, ops[..n + 1], w).Done?
    ensures ApplyOps(msg, msg, ops[..n], w).Done?
    ensures ApplyOp(msg, ApplyOps(msg, msg, ops[..n], w).message, ops[n], w) == ApplyOps(msg, msg, ops[..n + 1], w)
    ensures n == 0 ==> ApplyOps(msg, msg, ops[..n], w).message == msg
  {
    assert ops[..n + 1][..n] == ops[..n];
    assert n == 0 ==> ops[..n] == [];
  }

  /** What holds first, and after each operation if it held before, holds in the end. */
  lemma {:induction false} RunInvariant(msg: Json, ops: seq<Op>, w: World, final: Json, inv: (nat, Json) -> bool)
    requires ApplyOps(msg, msg, ops, w) == Done(final) && inv(0, msg)
    requires forall n: nat, now, after {:trigger inv(n, now), inv(n + 1, after)} ::
      n < |ops| && inv(n, now) && (n == 0 ==> now == msg) && ApplyOp(msg, now, ops[n], w) == Done(after) ==>
      inv(n + 1, after)
    ensures inv(|ops|, final)
  {
    var now := msg;
    assert ops[..0] == [];
    for n := 0 to |ops|
      invariant ApplyOps(msg, msg, ops[..n], w) == Done(now) && (n == 0 ==> now == msg) && inv(n, now)
    {
      DoneBefore(msg, msg, ops, w, n + 1);
      LastOfRun(msg, ops, w, n);
      var after := ApplyOps(msg, msg, ops[..n + 1], w).message;
      assert inv(n, now) ==> inv(n + 1, after);
      now := after;
    }
    assert ops[..|ops|] == ops;
  }

  ghost function PendingInv(msg: Json, rels: seq<Addr>, m: NodeManifest, acceptsHost: string -> bool):
      (nat, Json) -> bool {
    (n: nat, now: Json) => n <= |rels| && Pending(msg, now, rels, n, m, acceptsHost)
  }

  lemma {:induction false} InvStep(msg: Json, now: Json, ops: seq<Op>, rels: seq<Addr>, w: World, m: NodeManifest,
                                   n: nat, after: Json, inv: (nat, Json) -> bool)
    requires Laid(msg, ops, rels, m, w.acceptsHost) && n < |ops| && inv == PendingInv(msg, rels, m, w.acceptsHost)
    requires inv(n, now) && (n == 0 ==> now == msg) && ApplyOp(msg, now, ops[n], w) == Done(after)
    requires ReturnsObjects(w) && BringsNothing(w, m) && KeepsTypes(w) && TargetsSettle(m, w.acceptsHost)
    ensures inv(n + 1, after)
  {
    PendingStep(msg, now, ops, rels, w, m, n, after);
  }

  /** Every operation of the run keeps the invariant. */
  lemma {:induction false} StepsKeepPending(msg: Json, ops: seq<Op>, rels: seq<Addr>, w: World, m: NodeManifest)
    returns (inv: (nat, Json) -> bool)
    requires Laid(msg, ops, rels, m, w.acceptsHost)
    requires ReturnsObjects(w) && BringsNothing(w, m) && KeepsTypes(w) && TargetsSettle(m, w.acceptsHost)
    ensures inv == PendingInv(msg, rels, m, w.acceptsHost) && inv(0, msg)
    ensures forall n: nat, now, after {:trigger inv(n, now), inv(n + 1, after)} ::
      n < |ops| && inv(n, now) && (n == 0 ==> now == msg) && ApplyOp(msg, now, ops[n], w) == Done(after) ==>
      inv(n + 1, after)
  {
    inv := PendingInv(msg, rels, m, w.acceptsHost);
    PendingFirst(msg, ops, rels, w, m);
    forall n: nat, now, after {:trigger inv(n, now), inv(n + 1, after)} |
        n < |ops| && inv(n, now) && (n == 0 ==> now == msg) && ApplyOp(msg, now, ops[n], w) == Done(after)
        ensures inv(n + 1, after) {
      InvStep(msg, now, ops, rels, w, m, n, after, inv);
    }
  }

  lemma {:induction false} NothingPending(msg: Json, now: Json, rels: seq<Addr>, m: NodeManifest,
                                          acceptsHost: string -> bool)
    requires Pending(msg, now, rels, |rels|, m, acceptsHost)
    ensures forall c :: !OutdatedAt(now, c, m, acceptsHost)
  {
    assert rels[|rels|..] == [];
  }

  // ----- The body -----

  lemma {:induction false} BodyLaid(root: Json, at: seq<Addr>, m: NodeManifest, w: World, arts: map<string, Fetched>,
                                    paths: seq<string>, final: Json)
    returns (rels: seq<Addr>)
    requires Mediates(root, at, m, w, arts, paths, final) && PrintablePayload(root) && AllNeedsInMessage(root, m, w)
    requires root.fields["message"].Obj?
    ensures Laid(root.fields["message"], OpsOf(paths, arts), rels, m, w.acceptsHost)
    ensures ApplyOps(root.fields["message"], root.fields["message"], OpsOf(paths, arts), w) == Done(final)
  {
    var places;
    places, rels := Layout(root, at, m, w, arts, paths, final);
    var msg := root.fields["message"];
    forall k | 0 <= k < |places| ensures OpFits(msg, OpsOf(paths, arts)[k], rels[k], m, w.acceptsHost) {
      OpOfPlace(root, at, m, w, arts, paths, places, k);
      PlaceFits(root, m, w, rels[k], OpsOf(paths, arts)[k]);
    }
    forall c | OutdatedAt(msg, c, m, w.acceptsHost) ensures c in rels {
      MessageOutdated(root, c, m, w);
      var k := NeedHasOp(root, at, m, w, arts, paths, places, [Key("message")] + c);
      assert rels[k] == ([Key("message")] + rels[k])[1..] == ([Key("message")] + c)[1..] == c;
    }
  }

  lemma {:induction false} UnderMessageText(root: Json, c: Addr, k: string)
    requires root.Obj? && "message" in root.fields
    ensures TextAt(root, [Key("message")] + c, k) == TextAt(root.fields["message"], c, k)
  {
    assert [Key("message")][1..] == [];
    TextBelow(root, [Key("message")], root.fields["message"], c, k);
  }

  lemma {:induction false} MessageWalkable(c: Addr)
    ensures Walkable([Key("message")] + c) <==> Walkable(c)
  {
    var a := [Key("message")] + c;
    assert a[1..] == c;
    assert "message" != "@context" && "message" != "@type" by { assert |"message"| == 7 && |"@context"| == 8; }
    assert forall i :: 0 <= i < |c| ==> a[i + 1] == c[i];
    assert forall i :: 1 <= i < |a| ==> a[i] == c[i - 1];
  }

  lemma {:induction false} MessageOutdated(root: Json, c: Addr, m: NodeManifest, w: World)
    requires root.Obj? && "message" in root.fields
    ensures Needed(root, [Key("message")] + c, m, w) <==> OutdatedAt(root.fields["message"], c, m, w.acceptsHost)
  {
    UnderMessageText(root, c, "@context");
    UnderMessageText(root, c, "@type");
    MessageWalkable(c);
    NeededIsOutdated(root, [Key("message")] + c, m, w);
  }

  lemma {:induction false} PlaceFits(root: Json, m: NodeManifest, w: World, r: Addr, op: Op)
    requires root.Obj? && "message" in root.fields && Needed(root, [Key("message")] + r, m, w)
    requires op.target == TargetAt(root, [Key("message")] + r, m, w)
    ensures OpFits(root.fields["message"], op, r, m, w.acceptsHost)
  {
    MessageOutdated(root, r, m, w);
    NeededIsOutdated(root, [Key("message")] + r, m, w);
    UnderMessageText(root, r, "@context");
    UnderMessageText(root, r, "@type");
  }

  /** Nothing is outdated in the message that results. */
  lemma {:induction false} MessageSettles(root: Json, at: seq<Addr>, m: NodeManifest, w: World,
                                          arts: map<string, Fetched>, paths: seq<string>, final: Json, c: Addr)
    requires Mediates(root, at, m, w, arts, paths, final) && PrintablePayload(root) && AllNeedsInMessage(root, m, w)
    requires ReturnsObjects(w) && BringsNothing(w, m) && KeepsTypes(w) && TargetsSettle(m, w.acceptsHost)
    ensures !OutdatedAt(final, c, m, w.acceptsHost)
  {
    if root.fields["message"].Obj? {
      var rels := BodyLaid(root, at, m, w, arts, paths, final);
      var inv := StepsKeepPending(root.fields["message"], OpsOf(paths, arts), rels, w, m);
      RunInvariant(root.fields["message"], OpsOf(paths, arts), w, final, inv);
      NothingPending(root.fields["message"], final, rels, m, w.acceptsHost);
    } else {
      NullMessage(root, at, m, w, arts, paths, final);
      NothingInBlank(c, m, w.acceptsHost);
    }
  }

  lemma {:induction false} NothingInBlank(c: Addr, m: NodeManifest, acceptsHost: string -> bool)
    ensures !OutdatedAt(Obj(map[]), c, m, acceptsHost)
  {
    assert c + [Key("@context")] != [];
  }

  lemma {:induction false} NullMessage(root: Json, at: seq<Addr>, m: NodeManifest, w: World, arts: map<string, Fetched>,
                                       paths: seq<string>, final: Json)
    requires Mediates(root, at, m, w, arts, paths, final) && PrintablePayload(root) && AllNeedsInMessage(root, m, w)
    requires !root.fields["message"].Obj?
    ensures final == Obj(map[])
  {
    var places, rels := Layout(root, at, m, w, arts, paths, final);
    NoOps(root.fields["message"], OpsOf(paths, arts), w, final);
  }

  lemma {:induction false} NoOps(msg: Json, ops: seq<Op>, w: World, final: Json)
    requires ops == [] && Decoded(msg).Some? && !msg.Obj? && ApplyOps(msg, Decoded(msg).value, ops, w) == Done(final)
    ensures final == Obj(map[])
  {}

  lemma {:induction false} OutsideText(root: Json, final: Json, a: Addr, k: string)
    requires root.Obj? && (a == [] || a[0] != Key("message")) && (k == "@context" || k == "@type")
    ensures TextAt(Patched(root, final), a, k) == TextAt(root, a, k)
  {
    var f := a + [Key(k)];
    assert "message" != "@context" && "message" != "@type" by { assert |"message"| == 7 && |"@context"| == 8; }
    assert f[0] == if a == [] then Key(k) else a[0];
    AtPatched(root, final, f);
  }

  /** With everything to translate inside the message, version-shaped targets, and a translator that returns objects,
      keeps every @type and brings in nothing outdated, the resulting body needs no translation: a second mediation
      finds nothing to do. */
  lemma {:induction false} NothingNeededAfter(root: Json, at: seq<Addr>, m: NodeManifest, w: World,
                                              arts: map<string, Fetched>, paths: seq<string>, final: Json)
    requires Mediates(root, at, m, w, arts, paths, final) && PrintablePayload(root) && AllNeedsInMessage(root, m, w)
    requires ValidSchema(m) && forall obj :: obj in m.schemaObjects ==> VersionShaped(obj, m, w.acceptsHost)
    requires ReturnsObjects(w) && BringsNothing(w, m) && KeepsTypes(w)
    ensures NothingNeeded(Patched(root, final), m, w)
  {
    ShapedTargetsSettle(m, w.acceptsHost);
    forall a ensures !Needed(Patched(root, final), a, m, w) {
      if a != [] && a[0] == Key("message") {
        MessageSettles(root, at, m, w, arts, paths, final, a[1..]);
        InsideSettled(root, final, a, m, w);
      } else {
        OutsideSettled(root, final, a, m, w);
      }
    }
  }

  lemma {:induction false} InsideSettled(root: Json, final: Json, a: Addr, m: NodeManifest, w: World)
    requires root.Obj? && a != [] && a[0] == Key("message") && !OutdatedAt(final, a[1..], m, w.acceptsHost)
    ensures !Needed(Patched(root, final), a, m, w)
  {
    assert a == [Key("message")] + a[1..];
    MessageOutdated(Patched(root, final), a[1..], m, w);
  }

  lemma {:induction false} OutsideSettled(root: Json, final: Json, a: Addr, m: NodeManifest, w: World)
    requires root.Obj? && (a == [] || a[0] != Key("message")) && AllNeedsInMessage(root, m, w)
    ensures !Needed(Patched(root, final), a, m, w)
  {
    OutsideText(root, final, a, "@context");
    OutsideText(root, final, a, "@type");
    NeededIsOutdated(root, a, m, w);
    NeededIsOutdated(Patched(root, final), a, m, w);
    assert !InMessage(a);
  }

  /** What a mediation does with such a body, whatever its configuration. */
  lemma {:induction false} SecondMediationAccepts(actionReject: bool, passThrough: bool, body: Json, m: NodeManifest,
                                                  w: World, at: seq<Addr>, arts: map<string, Fetched>,
                                                  paths: seq<string>, final: Json, verdict: Verdict, rewritten: bool,
                                                  after: Option<Json>)
    requires NothingNeeded(body, m, w)
    requires Answers(actionReject, passThrough, body, m, w, at, arts, paths, final, verdict, rewritten, after)
    ensures verdict == Accepted && !rewritten && after == Some(body)
  {}
}
