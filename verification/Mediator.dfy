/** The mediator as it runs on a request. schemaversionmediator.go: Mediate. */
module Mediator {
  import opened Text
  import opened Json
  import opened Paths
  import opened PayloadWalk
  import opened Versions
  import opened Mediation

  /** The part of the request context mediation reads and writes. A body of None is no JSON. */
  class StepContext {
    var body: Option<Json>
    const remoteID: string
    const isCaller: bool

    constructor (body: Option<Json>, remoteID: string, isCaller: bool)
      ensures this.body == body && this.remoteID == remoteID && this.isCaller == isCaller
    {
      this.body, this.remoteID, this.isCaller := body, remoteID, isCaller;
    }
  }

  datatype Config = Config(notOnboarded: bool, localManifest: Option<NodeManifest>, actionReject: bool,
                           passThrough: bool)

  datatype Verdict = Accepted | SubscriberNotFound | AdaptationFailed | Faulty | Panicked

  /** `applyOnFailure` */
  function OnFailure(cfg: Config): Verdict {
    if cfg.passThrough then Accepted else AdaptationFailed
  }

  ghost predicate NothingNeeded(root: Json, m: NodeManifest, w: World) {
    forall a :: !Needed(root, a, m, w)
  }

  lemma {:induction false} NeedIsListed(refs: seq<Ref>, m: NodeManifest, acceptsHost: string -> bool, i: nat)
    requires i < |refs| && NeedFor(refs[i], m, acceptsHost).Some?
    ensures Needs(refs, m, acceptsHost) != []
  {
    if i < |refs| - 1 {
      NeedIsListed(refs[..|refs| - 1], m, acceptsHost, i);
    }
  }

  lemma {:induction false} ListedIsNeed(refs: seq<Ref>, m: NodeManifest, acceptsHost: string -> bool) returns (i: nat)
    requires Needs(refs, m, acceptsHost) != []
    ensures i < |refs| && NeedFor(refs[i], m, acceptsHost).Some?
  {
    i := |refs| - 1;
    if NeedFor(refs[i], m, acceptsHost).None? {
      i := ListedIsNeed(refs[..i], m, acceptsHost);
    }
  }

  lemma {:induction false} NoNeedsNothingNeeded(root: Json, at: seq<Addr>, m: NodeManifest, w: World)
    requires EnumeratesAll(root, at, Reported) && AllFound(root, at, Reported)
    ensures Needs(RefsAt(root, at, "$"), m, w.acceptsHost) == [] <==> NothingNeeded(root, m, w)
  {
    var refs := RefsAt(root, at, "$");
    if Needs(refs, m, w.acceptsHost) == [] {
      forall a ensures !Needed(root, a, m, w) {
        if Needed(root, a, m, w) {
          var i :| 0 <= i < |at| && at[i] == a;
          assert refs[i] == RefAt(root, a, "$");
          NeedIsListed(refs, m, w.acceptsHost, i);
          assert false;
        }
      }
    } else {
      var i := ListedIsNeed(refs, m, w.acceptsHost);
      assert refs[i] == RefAt(root, at[i], "$");
      assert Needed(root, at[i], m, w);
    }
  }

  /** What decides the verdict once a target manifest is there: nothing to translate is accepted, the reject policy
      rejects, a missing artifact goes by the failure policy, and otherwise the body is rewritten exactly when
      every translation step goes through. The first step that does not is a panic exactly when it is a whole-message
      step answered with null. */
  ghost predicate Decides(actionReject: bool, passThrough: bool, root: Json, m: NodeManifest, w: World, at: seq<Addr>,
                          arts: map<string, Fetched>, paths: seq<string>, verdict: Verdict, rewritten: bool) {
    && EnumeratesAll(root, at, Reported) && AllFound(root, at, Reported)
    && var needs := Needs(RefsAt(root, at, "$"), m, w.acceptsHost);
    && (NothingNeeded(root, m, w) ==> needs == [])
    && (needs == [] ==> NothingNeeded(root, m, w) && verdict == Accepted && !rewritten)
    && (needs != [] && actionReject ==> verdict == AdaptationFailed && !rewritten)
    && (needs != [] && !actionReject && FetchAll(needs, w).None? ==>
        verdict == (if passThrough then Accepted else AdaptationFailed) && !rewritten)
    && (needs != [] && !actionReject && FetchAll(needs, w).Some? ==>
        && (rewritten <==> Translates(root, arts, paths, w))
        && verdict == (if rewritten then Accepted else if MeetsNullStep(root, arts, paths, w) then Panicked else Faulty)
        && (Decodes(root) ==>
            FetchAll(needs, w) == Some(arts) && Sorted(paths) && forall p :: p in paths <==> p in arts))
  }

  /** The answer against one manifest, with the body that is passed on: the original, or a whole mediation of it. */
  ghost predicate Answers(actionReject: bool, passThrough: bool, root: Json, m: NodeManifest, w: World, at: seq<Addr>,
                          arts: map<string, Fetched>, paths: seq<string>, final: Json, verdict: Verdict,
                          rewritten: bool, after: Option<Json>) {
    && Decides(actionReject, passThrough, root, m, w, at, arts, paths, verdict, rewritten)
    && if rewritten then Mediates(root, at, m, w, arts, paths, final) && after == Some(Patched(root, final))
       else after == Some(root)
  }

  /** What becomes of a request. A caller answers to the manifest of its counterparty and a receiver to its own; where
      that is missing, the caller goes by its failure policy and the receiver fails. */
  ghost predicate Outcome(cfg: Config, isCaller: bool, remoteID: string, body: Option<Json>,
                          counterparty: Option<NodeManifest>, w: World, at: seq<Addr>, arts: map<string, Fetched>,
                          paths: seq<string>, final: Json, verdict: Verdict, rewritten: bool, after: Option<Json>) {
    if cfg.notOnboarded then verdict == SubscriberNotFound && !rewritten && after == body
    else if remoteID == "" then verdict == Accepted && !rewritten && after == body
    else if body.None? then verdict == Faulty && !rewritten && after == body
    else if isCaller then
      if counterparty.None?
      then verdict == (if cfg.passThrough then Accepted else AdaptationFailed) && !rewritten && after == body
      else Answers(cfg.actionReject, cfg.passThrough, body.value, counterparty.value, w, at, arts, paths, final,
                   verdict, rewritten, after)
    else if cfg.localManifest.None? then verdict == Faulty && !rewritten && after == body
    else Answers(cfg.actionReject, cfg.passThrough, body.value, cfg.localManifest.value, w, at, arts, paths, final,
                 verdict, rewritten, after)
  }

  predicate Decodes(root: Json) {
    root.Obj? && "message" in root.fields && Decoded(root.fields["message"]).Some?
  }

  ghost predicate Translates(root: Json, arts: map<string, Fetched>, paths: seq<string>, w: World) {
    Decodes(root) && (forall i :: 0 <= i < |paths| ==> paths[i] in arts) &&
    ApplyOps(root.fields["message"], Decoded(root.fields["message"]).value, OpsOf(paths, arts), w).Done?
  }

  /** The first step that does not go through is a whole-message step for which the translator answers null. */
  ghost predicate MeetsNullStep(root: Json, arts: map<string, Fetched>, paths: seq<string>, w: World) {
    Decodes(root) && (forall i :: 0 <= i < |paths| ==> paths[i] in arts) &&
    var message := root.fields["message"];
    exists i :: MeetsNull(message, Decoded(message).value, OpsOf(paths, arts), w, i)
  }

  /** The refs of the walk, with the addresses they were found at. */
  method ReportedRefs(root: Json) returns (refs: seq<Ref>, ghost at: seq<Addr>)
    ensures EnumeratesAll(root, at, Reported) && AllFound(root, at, Reported) && refs == RefsAt(root, at, "$")
  {
    var skipped;
    refs, skipped := WalkPayload(root);
    at :| ReportsAll(root, refs, at);
  }

  /** `Mediate`. `counterparty` is the outcome of fetching the counterparty's manifest. */
  method Mediate(cfg: Config, ctx: StepContext, counterparty: Option<NodeManifest>, w: World)
    returns (verdict: Verdict, ghost rewritten: bool, ghost at: seq<Addr>, ghost arts: map<string, Fetched>,
             ghost paths: seq<string>, ghost final: Json)
    modifies ctx
    ensures Outcome(cfg, ctx.isCaller, ctx.remoteID, old(ctx.body), counterparty, w, at, arts, paths, final, verdict,
                    rewritten, ctx.body)
  {
    rewritten, at, arts, paths, final := false, [], map[], [], Null;
    if cfg.notOnboarded {
      return SubscriberNotFound, rewritten, at, arts, paths, final;
    }
    if ctx.remoteID == "" {
      return Accepted, rewritten, at, arts, paths, final;
    }
    if ctx.body.None? {
      return Faulty, rewritten, at, arts, paths, final;
    }
    var root := ctx.body.value;
    var refs;
    refs, at := ReportedRefs(root);
    var manifest := cfg.localManifest;
    if ctx.isCaller {
      if counterparty.None? {
        return OnFailure(cfg), rewritten, at, arts, paths, final;
      }
      manifest := counterparty;
    }
    var checked := CheckCompatibility(refs, manifest, w.acceptsHost);
    if checked.None? {
      return Faulty, rewritten, at, arts, paths, final;
    }
    var adapted;
    verdict, adapted, arts, paths, final := Adapt(cfg, root, manifest.value, checked.value, w, at);
    if adapted.Some? {
      ctx.body := adapted;
      rewritten := true;
    }
  }

  /** Once the needs are known: the body to put in place of the old one, if it comes to that. */
  method Adapt(cfg: Config, root: Json, m: NodeManifest, needs: seq<Need>, w: World, ghost at: seq<Addr>)
    returns (verdict: Verdict, adapted: Option<Json>, ghost arts: map<string, Fetched>, ghost paths: seq<string>,
             ghost final: Json)
    requires EnumeratesAll(root, at, Reported) && AllFound(root, at, Reported)
    requires needs == Needs(RefsAt(root, at, "$"), m, w.acceptsHost)
    ensures Answers(cfg.actionReject, cfg.passThrough, root, m, w, at, arts, paths, final, verdict, adapted.Some?,
                    if adapted.Some? then adapted else Some(root))
  {
    adapted, arts, paths, final := None, map[], [], Null;
    NoNeedsNothingNeeded(root, at, m, w);
    if |needs| == 0 {
      return Accepted, adapted, arts, paths, final;
    }
    if cfg.actionReject {
      return AdaptationFailed, adapted, arts, paths, final;
    }
    var artifacts, failures := FetchAllArtifacts(needs, w);
    if |failures| > 0 {
      return OnFailure(cfg), adapted, arts, paths, final;
    }
    arts := artifacts;
    verdict, adapted, paths, final := TranslateWithAll(root, artifacts, w);
  }

  /** With all artifacts there: the body with its message translated in path order, if every step goes through. */
  method TranslateWithAll(root: Json, artifacts: map<string, Fetched>, w: World)
    returns (verdict: Verdict, adapted: Option<Json>, ghost paths: seq<string>, ghost final: Json)
    ensures adapted.Some? <==> Translates(root, artifacts, paths, w)
    ensures verdict ==
      if adapted.Some? then Accepted else if MeetsNullStep(root, artifacts, paths, w) then Panicked else Faulty
    ensures Decodes(root) ==> Sorted(paths) && forall p :: p in paths <==> p in artifacts
    ensures adapted.Some? ==>
      ApplyOps(root.fields["message"], Decoded(root.fields["message"]).value, OpsOf(paths, artifacts), w) ==
        Done(final) && adapted == Some(Patched(root, final))
  {
    adapted, paths, final := None, [], Null;
    if !root.Obj? || "message" !in root.fields || Decoded(root.fields["message"]).None? {
      return Faulty, adapted, paths, final;
    }
    var sortedPaths := SortedKeys(artifacts.Keys);
    paths := sortedPaths;
    var r := TranslateMessage(root.fields["message"], sortedPaths, artifacts, w);
    PanicsIff(root.fields["message"], Decoded(root.fields["message"]).value, OpsOf(sortedPaths, artifacts), w);
    if !r.Done? {
      verdict := if r.Panics? then Panicked else Faulty;
      return verdict, adapted, paths, final;
    }
    return Accepted, Some(Patched(root, r.message)), paths, r.message;
  }

  /** The loop of `Mediate`: each artifact in path order. */
  method TranslateMessage(message: Json, sortedPaths: seq<string>, artifacts: map<string, Fetched>, w: World)
    returns (r: StepResult)
    requires Decoded(message).Some? && forall i :: 0 <= i < |sortedPaths| ==> sortedPaths[i] in artifacts
    ensures r == ApplyOps(message, Decoded(message).value, OpsOf(sortedPaths, artifacts), w)
  {
    var msg := Decoded(message).value;
    ghost var start, ops := msg, OpsOf(sortedPaths, artifacts);
    for i := 0 to |sortedPaths|
      invariant msg.Obj? && ApplyOps(message, start, ops[..i], w) == Done(msg)
    {
      NextOp(message, start, msg, ops, w, i);
      r := TranslateSubtree(message, msg, sortedPaths[i], artifacts[sortedPaths[i]], w);
      if !r.Done? {
        return;
      }
      msg := r.message;
    }
    assert ops[..|ops|] == ops;
    r := Done(msg);
  }

  lemma {:induction false} NextOp(original: Json, start: Json, msg: Json, ops: seq<Op>, w: World, i: nat)
    requires i < |ops| && ApplyOps(original, start, ops[..i], w) == Done(msg)
    ensures ApplyOps(original, start, ops[..i + 1], w) == ApplyOp(original, msg, ops[i], w)
    ensures !ApplyOp(original, msg, ops[i], w).Done? ==>
      ApplyOps(original, start, ops, w) == ApplyOp(original, msg, ops[i], w)
  {
    assert ops[..i + 1][..i] == ops[..i];
    if !ApplyOp(original, msg, ops[i], w).Done? {
      NotDoneStays(original, start, ops, w, i + 1);
    }
  }

  /** One artifact against the subtree its path names. */
  method TranslateSubtree(message: Json, msgObj: Json, jsonataPath: string, fa: Fetched, w: World)
    returns (r: StepResult)
    requires msgObj.Obj?
    ensures r == ApplyOp(message, msgObj, OpOf(jsonataPath, fa), w)
    ensures r.Done? ==> r.message.Obj?
  {
    var relPath := TrimPrefix(jsonataPath, MESSAGE_PREFIX);
    if relPath == jsonataPath {
      relPath := "";
    }
    var target := fa.need.ToContextURL();
    if relPath == "" {
      var translated := w.translate(fa.content, message);
      if translated.None? {
        return Fails;
      }
      if translated.value.Null? {
        return Panics;
      }
      if !translated.value.Obj? {
        return Fails;
      }
      var merged := msgObj.fields + translated.value.fields;
      merged := merged["@context" := Str(target)];
      r := Done(Obj(merged));
    } else {
      var subtree := GetAtPath(msgObj.fields, relPath);
      if subtree.Err? {
        return Fails;
      }
      var translated := w.translate(fa.content, subtree.value);
      if translated.None? {
        return Fails;
      }
      var result := WithContext(translated.value, target);
      var written := Set(msgObj, Segments(relPath), result);
      r := if written.Ok? then Done(written.value) else Fails;
    }
  }

  /** Once a step does not go through, the whole does not. */
  lemma {:induction false} NotDoneStays(original: Json, msg: Json, ops: seq<Op>, w: World, n: nat)
    requires n <= |ops| && !ApplyOps(original, msg, ops[..n], w).Done?
    ensures ApplyOps(original, msg, ops, w) == ApplyOps(original, msg, ops[..n], w)
    decreases |ops| - n
  {
    if n == |ops| {
      assert ops[..n] == ops;
    } else {
      assert ops[..n + 1][..n] == ops[..n];
      NotDoneStays(original, msg, ops, w, n + 1);
    }
  }
}
