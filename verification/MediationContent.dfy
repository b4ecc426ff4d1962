/** What a mediation leaves of each translation: not only the @context, but the whole of what the translator returned,
    wherever no later translation reaches. schemaversionmediator.go: Mediate. */
module MediationContent {
  import opened Text
  import opened Json
  import opened Paths
  import opened PayloadWalk
  import opened Versions
  import opened Mediation
  import opened MediationSafety
  import opened MediationOutside

  // ----- One operation of a run -----

  /** Right after an operation on a part of the message, that part is what was returned, with its target. */
  lemma {:induction false} PartWritten(original: Json, msg: Json, ops: seq<Op>, rels: seq<Addr>, w: World, k: nat,
                                       b: Addr)
    requires Located(ops, rels) && k < |ops| && rels[k] != [] && ApplyOps(original, msg, ops[..k + 1], w).Done?
    ensures At(ApplyOps(original, msg, ops[..k + 1], w).message, rels[k] + b) ==
      At(WithContext(Returned(original, msg, ops[..k + 1], w), ops[k].target), b)
  {
    var run := ops[..k + 1];
    assert run[k] == ops[k];
    SegmentsCons(rels[k]);
    var before := ApplyOps(original, msg, run[..k], w).message;
    var v := WithContext(Returned(original, msg, run, w), ops[k].target);
    SetThenGet(before, ops[k].segs, v);
    GetFollowsAddress(ApplyOps(original, msg, run, w).message, rels[k]);
    AtConcat(ApplyOps(original, msg, run, w).message, rels[k], b);
  }

  /** And it stays so wherever the later operations leave it. */
  lemma {:induction false} WrittenStays(original: Json, msg: Json, ops: seq<Op>, rels: seq<Addr>, w: World, k: nat,
                                        b: Addr, c: Addr)
    requires Located(ops, rels) && k < |ops| && rels[k] != [] && msg.Obj? && ApplyOps(original, msg, ops, w).Done?
    requires c == rels[k] + b && forall j :: k < j < |ops| ==> Leaves(original, ops[j], w, c)
    ensures ApplyOps(original, msg, ops[..k + 1], w).Done?
    ensures At(ApplyOps(original, msg, ops, w).message, c) ==
      At(WithContext(Returned(original, msg, ops[..k + 1], w), ops[k].target), b)
  {
    OpsLeave(original, msg, ops, w, k + 1, c);
    PartWritten(original, msg, ops, rels, w, k, b);
  }

  /** The part of the message the operation was given. */
  lemma {:induction false} PartGiven(original: Json, msg: Json, ops: seq<Op>, rels: seq<Addr>, w: World, k: nat)
    returns (input: Json)
    requires Located(ops, rels) && k < |ops| && rels[k] != [] && ApplyOps(original, msg, ops[..k + 1], w).Done?
    ensures ApplyOps(original, msg, ops[..k], w).Done?
    ensures At(ApplyOps(original, msg, ops[..k], w).message, rels[k]) == Some(input)
    ensures w.translate(ops[k].artifact, input) == Some(Returned(original, msg, ops[..k + 1], w))
  {
    var run := ops[..k + 1];
    assert run[..k] == ops[..k] && run[k] == ops[k];
    SegmentsCons(rels[k]);
    var before := ApplyOps(original, msg, ops[..k], w).message;
    input := Get(before, ops[k].segs).value;
    GetFollowsAddress(before, rels[k]);
  }

  /** Where the earlier operations leave it, that is the original. */
  lemma {:induction false} GivenOriginal(original: Json, msg: Json, ops: seq<Op>, w: World, k: nat, b: Addr)
    requires k <= |ops| && b != [] && msg.Obj? && ApplyOps(original, msg, ops[..k], w).Done?
    requires forall j :: 0 <= j < k ==> Leaves(original, ops[j], w, b)
    ensures At(ApplyOps(original, msg, ops[..k], w).message, b) == At(msg, b)
  {
    var front := ops[..k];
    assert front[..0] == [];
    OpsLeave(original, msg, front, w, 0, b);
  }

  // ----- The objects inside the message -----

  /** What the artifact of the needed object `a` makes of `input`. */
  ghost function TranslationOf(root: Json, m: NodeManifest, w: World, a: Addr, input: Json): Option<Json>
    requires Needed(root, a, m, w)
  {
    var one := FetchOne(NeedFor(RefAt(root, a, "$"), m, w.acceptsHost).value, w);
    if one.None? then None else w.translate(one.value.content, input)
  }

  /** The translations that come after, or before, that of `a` leave an address of the message. */
  ghost predicate LaterLeave(root: Json, m: NodeManifest, w: World, a: Addr, b: Addr)
    requires root.Obj? && "message" in root.fields && |b| > 1
  {
    forall c :: Needed(root, c, m, w) && Less("$" + Suffix(a), "$" + Suffix(c)) ==> LeavesAddress(root, m, w, c, b)
  }

  ghost predicate EarlierLeave(root: Json, m: NodeManifest, w: World, a: Addr, b: Addr)
    requires root.Obj? && "message" in root.fields && |b| > 1
  {
    forall c :: Needed(root, c, m, w) && Less("$" + Suffix(c), "$" + Suffix(a)) ==> LeavesAddress(root, m, w, c, b)
  }

  lemma {:induction false} PlacesLeave(root: Json, at: seq<Addr>, m: NodeManifest, w: World, arts: map<string, Fetched>,
                                       paths: seq<string>, final: Json, places: seq<Addr>, k: nat, b: Addr, rel: Addr)
    requires Mediates(root, at, m, w, arts, paths, final) && PlacesOf(root, at, m, w, arts, paths, places)
    requires Located(OpsOf(paths, arts), RelsOf(places)) && k < |places|
    requires |b| > 1 && b[0] == Key("message") && b[1..] == rel
    ensures LaterLeave(root, m, w, places[k], b) ==>
      forall j :: k < j < |places| ==> Leaves(root.fields["message"], OpsOf(paths, arts)[j], w, rel)
    ensures EarlierLeave(root, m, w, places[k], b) ==>
      forall j :: 0 <= j < k ==> Leaves(root.fields["message"], OpsOf(paths, arts)[j], w, rel)
  {
    forall j | 0 <= j < |places| && j != k &&
        (j > k ==> LaterLeave(root, m, w, places[k], b)) && (j < k ==> EarlierLeave(root, m, w, places[k], b))
        ensures Leaves(root.fields["message"], OpsOf(paths, arts)[j], w, rel) {
      OpOfPlace(root, at, m, w, arts, paths, places, j);
      if j > k {
        PlacesInOrder(root, at, m, w, arts, paths, places, k, j);
      } else {
        PlacesInOrder(root, at, m, w, arts, paths, places, j, k);
      }
      RelLeaves(root, m, w, places[j], b, OpsOf(paths, arts)[j]);
    }
  }

  lemma {:induction false} PlacesInOrder(root: Json, at: seq<Addr>, m: NodeManifest, w: World,
                                         arts: map<string, Fetched>, paths: seq<string>, places: seq<Addr>,
                                         i: nat, j: nat)
    requires PlacesOf(root, at, m, w, arts, paths, places) && Sorted(paths) && i < j < |places|
    ensures Less("$" + Suffix(places[i]), "$" + Suffix(places[j]))
  {
    assert IsPlace(root, at, m, w, arts, paths[i], places[i]) && IsPlace(root, at, m, w, arts, paths[j], places[j]);
    assert Less(paths[i], paths[j]);
  }

  /** An object inside the message ends, at every address below it that no later translation reaches, as its artifact
      returned it, with its target. What the artifact was given is the original object, where no earlier translation
      reaches it. */
  lemma {:induction false} ContentReachesBody(root: Json, at: seq<Addr>, m: NodeManifest, w: World,
                                              arts: map<string, Fetched>, paths: seq<string>, final: Json, a: Addr)
    returns (input: Json, returned: Json)
    requires Mediates(root, at, m, w, arts, paths, final) && PrintablePayload(root)
    requires Needed(root, a, m, w) && InMessage(a) && |a| > 1
    ensures TranslationOf(root, m, w, a, input) == Some(returned)
    ensures EarlierLeave(root, m, w, a, a) ==> At(root, a) == Some(input)
    ensures forall b :: LaterLeave(root, m, w, a, a + b) ==>
      At(Patched(root, final), a + b) == At(WithContext(returned, TargetAt(root, a, m, w)), b)
  {
    var places, rels := LayoutOfAll(root, at, m, w, arts, paths, final);
    var k := NeedHasOp(root, at, m, w, arts, paths, places, a);
    FieldOf(root, a, arts[paths[k]]);
    input, returned := GivenAndReturned(root.fields["message"], OpsOf(paths, arts), rels, w, final, k);
    ArtifactOfPlace(root, at, m, w, arts, paths, places, k, input);
    if EarlierLeave(root, m, w, a, a) {
      PlacesLeave(root, at, m, w, arts, paths, final, places, k, a, a[1..]);
      InputIsOriginal(root, a, OpsOf(paths, arts), rels, w, k, input);
    }
    forall b | LaterLeave(root, m, w, a, a + b)
        ensures At(Patched(root, final), a + b) == At(WithContext(returned, TargetAt(root, a, m, w)), b) {
      PlacesLeave(root, at, m, w, arts, paths, final, places, k, a + b, (a + b)[1..]);
      ShownAt(root, final, a, OpsOf(paths, arts), rels, w, k, b, (a + b)[1..]);
    }
  }

  lemma {:induction false} GivenAndReturned(msg: Json, ops: seq<Op>, rels: seq<Addr>, w: World, final: Json, k: nat)
    returns (input: Json, returned: Json)
    requires Located(ops, rels) && k < |ops| && rels[k] != [] && ApplyOps(msg, msg, ops, w) == Done(final)
    ensures ApplyOps(msg, msg, ops[..k], w).Done? && ApplyOps(msg, msg, ops[..k + 1], w).Done?
    ensures At(ApplyOps(msg, msg, ops[..k], w).message, rels[k]) == Some(input)
    ensures returned == Returned(msg, msg, ops[..k + 1], w) && w.translate(ops[k].artifact, input) == Some(returned)
  {
    DoneBefore(msg, msg, ops, w, k + 1);
    input := PartGiven(msg, msg, ops, rels, w, k);
    returned := Returned(msg, msg, ops[..k + 1], w);
  }

  lemma {:induction false} InputIsOriginal(root: Json, a: Addr, ops: seq<Op>, rels: seq<Addr>, w: World, k: nat,
                                           input: Json)
    requires root.Obj? && "message" in root.fields && root.fields["message"].Obj?
    requires k < |ops| == |rels| && |a| > 1 && a[0] == Key("message") && rels[k] == a[1..]
    requires var msg := root.fields["message"];
      && ApplyOps(msg, msg, ops[..k], w).Done? && At(ApplyOps(msg, msg, ops[..k], w).message, rels[k]) == Some(input)
      && forall j :: 0 <= j < k ==> Leaves(msg, ops[j], w, a[1..])
    ensures At(root, a) == Some(input)
  {
    GivenOriginal(root.fields["message"], root.fields["message"], ops, w, k, rels[k]);
  }

  lemma {:induction false} ShownAt(root: Json, final: Json, a: Addr, ops: seq<Op>, rels: seq<Addr>, w: World, k: nat,
                                   b: Addr, c: Addr)
    requires root.Obj? && "message" in root.fields && root.fields["message"].Obj?
    requires Located(ops, rels) && k < |ops| && |a| > 1 && a[0] == Key("message") && rels[k] == a[1..]
    requires ApplyOps(root.fields["message"], root.fields["message"], ops, w) == Done(final)
    requires c == (a + b)[1..] && forall j :: k < j < |ops| ==> Leaves(root.fields["message"], ops[j], w, c)
    ensures ApplyOps(root.fields["message"], root.fields["message"], ops[..k + 1], w).Done?
    ensures At(Patched(root, final), a + b) ==
      At(WithContext(Returned(root.fields["message"], root.fields["message"], ops[..k + 1], w), ops[k].target), b)
  {
    assert c == rels[k] + b;
    WrittenStays(root.fields["message"], root.fields["message"], ops, rels, w, k, b, c);
    AtPatched(root, final, a + b);
  }

  lemma {:induction false} ArtifactOfPlace(root: Json, at: seq<Addr>, m: NodeManifest, w: World,
                                           arts: map<string, Fetched>, paths: seq<string>, places: seq<Addr>, k: nat,
                                           input: Json)
    requires root.Obj? && "message" in root.fields && k < |paths|
    requires AllFound(root, at, Reported) && (forall p :: p in paths ==> p in arts)
    requires FetchAll(Needs(RefsAt(root, at, "$"), m, w.acceptsHost), w) == Some(arts)
    requires PlacesOf(root, at, m, w, arts, paths, places)
    ensures Needed(root, places[k], m, w)
    ensures TranslationOf(root, m, w, places[k], input) == w.translate(OpsOf(paths, arts)[k].artifact, input)
  {
    FetchedBelong(Needs(RefsAt(root, at, "$"), m, w.acceptsHost), w);
    assert IsPlace(root, at, m, w, arts, paths[k], places[k]);
  }

  /** An object that no other translation reaches, and that reaches no other, ends as the translation of itself. */
  lemma {:induction false} TranslatedInPlace(root: Json, at: seq<Addr>, m: NodeManifest, w: World,
                                             arts: map<string, Fetched>, paths: seq<string>, final: Json, a: Addr)
    requires Mediates(root, at, m, w, arts, paths, final) && PrintablePayload(root)
    requires Needed(root, a, m, w) && InMessage(a) && |a| > 1
    requires forall c :: Needed(root, c, m, w) && c != a ==> LeavesAddress(root, m, w, c, a)
    ensures At(root, a).Some? && TranslationOf(root, m, w, a, At(root, a).value).Some?
    ensures At(Patched(root, final), a) ==
      Some(WithContext(TranslationOf(root, m, w, a, At(root, a).value).value, TargetAt(root, a, m, w)))
  {
    var input, returned := ContentReachesBody(root, at, m, w, arts, paths, final, a);
    var p := "$" + Suffix(a);
    assert p + "" == p;
    ExtensionNotLess(p, "");
    assert EarlierLeave(root, m, w, a, a);
    assert a + [] == a;
    assert LaterLeave(root, m, w, a, a + []);
  }

  /** A field of the message that a whole-message translation mentions ends as returned, wherever no later translation
      reaches. */
  lemma {:induction false} WholeContentReachesBody(root: Json, at: seq<Addr>, m: NodeManifest, w: World,
                                                   arts: map<string, Fetched>, paths: seq<string>, final: Json,
                                                   a: Addr, b: Addr)
    requires Mediates(root, at, m, w, arts, paths, final) && PrintablePayload(root)
    requires Needed(root, a, m, w) && OnWhole(a)
    requires |b| > 1 && b[0] == Key("message") && b[1].Key? && b[1].key != "@context"
    requires Mentions(root, m, w, a, b[1].key) && LaterLeave(root, m, w, a, b)
    ensures At(Patched(root, final), b) == At(OfWholeMessage(root, m, w, a).value, b[1..])
  {
    var places, rels := LayoutOfAll(root, at, m, w, arts, paths, final);
    var k := NeedHasOp(root, at, m, w, arts, paths, places, a);
    PlacesLeave(root, at, m, w, arts, paths, final, places, k, b, b[1..]);
    OpOfPlace(root, at, m, w, arts, paths, places, k);
    assert rels[k] == [];
    WholeStays(root.fields["message"], OpsOf(paths, arts), w, final, k, b[1..]);
    AtPatched(root, final, b);
  }

  lemma {:induction false} WholeStays(msg: Json, ops: seq<Op>, w: World, final: Json, k: nat, b: Addr)
    requires Decoded(msg).Some? && ApplyOps(msg, Decoded(msg).value, ops, w) == Done(final) && k < |ops|
    requires ops[k].segs == [] && b != [] && b[0].Key? && b[0].key != "@context" && b[0].key in Merged(msg, ops[k], w)
    requires forall j :: k < j < |ops| ==> Leaves(msg, ops[j], w, b)
    ensures At(final, b) == At(w.translate(ops[k].artifact, msg).value, b)
  {
    OpsLeave(msg, Decoded(msg).value, ops, w, k + 1, b);
    assert ops[..k + 1][..k] == ops[..k] && ops[..k + 1][k] == ops[k];
    WholeOpTakes(msg, ApplyOps(msg, Decoded(msg).value, ops[..k], w).message, ops[k], w, b);
  }
}
