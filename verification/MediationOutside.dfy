/** What becomes of the body when objects outside the message are translated as well. Each of their artifacts runs on
    the whole original message, and what it returns is merged over the message as translated so far.
    schemaversionmediator.go: Mediate, extractMessageSubtree, patchMessageSubtree. */
module MediationOutside {
  import opened Text
  import opened Json
  import opened Paths
  import opened PayloadWalk
  import opened Versions
  import opened Mediation
  import opened MediationSafety

  // ----- What an operation writes, and what it leaves alone -----

  /** The fields a whole-message operation merges over the message. */
  function Merged(original: Json, op: Op, w: World): map<string, Json> {
    var r := w.translate(op.artifact, original);
    if r.Some? && r.value.Obj? then r.value.fields else map[]
  }

  /** `op` writes neither above nor below address `b`; on the whole message, it mentions another field than the one
      `b` starts with. */
  predicate Leaves(original: Json, op: Op, w: World, b: Addr)
    requires b != []
  {
    if op.segs == [] then b[0].Key? ==> b[0].key != "@context" && b[0].key !in Merged(original, op, w)
    else !(Steps(op.segs) <= b) && !(b <= Steps(op.segs))
  }

  lemma {:induction false} OpLeaves(original: Json, msg: Json, op: Op, w: World, b: Addr)
    requires b != [] && msg.Obj? && Leaves(original, op, w, b) && ApplyOp(original, msg, op, w).Done?
    ensures At(ApplyOp(original, msg, op, w).message, b) == At(msg, b)
  {
    if op.segs != [] {
      var returned := w.translate(op.artifact, Input(original, msg, op).value).value;
      SetKeepsAddress(msg, op.segs, WithContext(returned, op.target), b);
    }
  }

  /** What the operations from `n` on leave alone stays as the first `n` made it. */
  lemma {:induction false} OpsLeave(original: Json, msg: Json, ops: seq<Op>, w: World, n: nat, b: Addr)
    requires n <= |ops| && b != [] && msg.Obj? && ApplyOps(original, msg, ops, w).Done?
    requires forall j :: n <= j < |ops| ==> Leaves(original, ops[j], w, b)
    ensures ApplyOps(original, msg, ops[..n], w).Done?
    ensures At(ApplyOps(original, msg, ops, w).message, b) == At(ApplyOps(original, msg, ops[..n], w).message, b)
    decreases |ops|
  {
    if n == |ops| {
      assert ops[..n] == ops;
    } else {
      var front := ops[..|ops| - 1];
      assert front[..n] == ops[..n];
      OpsLeave(original, msg, front, w, n, b);
      OpsKeepObject(original, msg, front, w);
      OpLeaves(original, ApplyOps(original, msg, front, w).message, ops[|ops| - 1], w, b);
    }
  }

  /** A run that goes through goes through up to any point. */
  lemma {:induction false} DoneBefore(original: Json, msg: Json, ops: seq<Op>, w: World, n: nat)
    requires n <= |ops| && ApplyOps(original, msg, ops, w).Done?
    ensures ApplyOps(original, msg, ops[..n], w).Done?
    decreases |ops|
  {
    if n == |ops| {
      assert ops[..n] == ops;
    } else {
      assert ops[..|ops| - 1][..n] == ops[..n];
      DoneBefore(original, msg, ops[..|ops| - 1], w, n);
    }
  }

  /** A whole-message operation takes every field it mentions from the translated original. */
  lemma {:induction false} WholeOpTakes(original: Json, msg: Json, op: Op, w: World, b: Addr)
    requires op.segs == [] && ApplyOp(original, msg, op, w).Done?
    requires b != [] && b[0].Key? && b[0].key != "@context" && b[0].key in Merged(original, op, w)
    ensures At(ApplyOp(original, msg, op, w).message, b) == At(w.translate(op.artifact, original).value, b)
  {}

  lemma {:induction false} WholeOpStamps(original: Json, msg: Json, op: Op, w: World)
    requires op.segs == [] && ApplyOp(original, msg, op, w).Done?
    ensures At(ApplyOp(original, msg, op, w).message, [Key("@context")]) == Some(Str(op.target))
  {
    var b := [Key("@context")];
    assert b[1..] == [];
  }

  /** Where the @context of the object at `a` is. */
  function ContextOf(a: Addr): Addr {
    a + [Key("@context")]
  }

  lemma {:induction false} ContextAsField(j: Json, a: Addr, target: string)
    ensures ContextIs(j, a, target) <==> At(j, ContextOf(a)) == Some(Str(target))
  {
    var b := [Key("@context")];
    AtConcat(j, a, b);
    if At(j, a).Some? {
      assert b[1..] == [];
      assert At(At(j, a).value, b) == ContextField(At(j, a).value);
    }
  }

  // ----- A run of operations, some of them on the whole message -----

  /** As in `ParentsFirst`, for the operations on a part of the message. */
  predicate PartsFollow(rels: seq<Addr>) {
    forall i, j :: 0 <= i < j < |rels| && rels[j] != [] ==> MayFollow(rels[i], rels[j])
  }

  lemma {:induction false} PartLeavesContext(original: Json, op: Op, w: World, a: Addr, b: Addr)
    requires Printable(b) && b != [] && op.segs == SegmentsOf(b) && MayFollow(a, b)
    ensures Leaves(original, op, w, ContextOf(a))
  {
    StepsOfSegments(b);
    SegmentsCons(b);
    FieldApart(a, "@context", b);
  }

  lemma {:induction false} FieldApart(a: Addr, k: string, b: Addr)
    ensures b <= a + [Key(k)] <==> b <= a || b == a + [Key(k)]
    ensures a + [Key(k)] <= b <==> a <= b && |b| > |a| && b[|a|] == Key(k)
  {
    var c := a + [Key(k)];
    assert b <= a ==> b == c[..|b|];
    assert b <= c && |b| <= |a| ==> b == a[..|b|];
    assert b <= c && |b| > |a| ==> b == c;
    assert c <= b ==> a == b[..|a|] && b[|a|] == c[|a|];
    assert a <= b && |b| > |a| && b[|a|] == Key(k) ==> b[..|a| + 1] == c;
  }

  /** No whole-message operation from `n` on mentions field `k`. */
  predicate NoneMentions(original: Json, ops: seq<Op>, w: World, n: nat, k: string) {
    forall j :: n <= j < |ops| && ops[j].segs == [] ==> k !in Merged(original, ops[j], w)
  }

  /** After operation `i`, an @context changes only through whole-message operations that mention its field. */
  lemma {:induction false} LaterLeaveContext(original: Json, ops: seq<Op>, rels: seq<Addr>, w: World,
                                             k: nat, n: nat, field: string)
    requires Located(ops, rels) && PartsFollow(rels) && k < n <= |ops|
    requires rels[k] != [] && rels[k][0] == Key(field) && field != "@context"
    requires NoneMentions(original, ops, w, n, field)
    ensures forall j :: n <= j < |ops| ==> Leaves(original, ops[j], w, ContextOf(rels[k]))
  {
    var b := ContextOf(rels[k]);
    assert b[0] == rels[k][0];
    forall j | n <= j < |ops| ensures Leaves(original, ops[j], w, b) {
      if rels[j] != [] {
        assert MayFollow(rels[k], rels[j]);
        PartLeavesContext(original, ops[j], w, rels[k], rels[j]);
      }
    }
  }

  /** The @context just written by an operation on a part of the message. */
  lemma {:induction false} PartStamps(original: Json, msg: Json, ops: seq<Op>, rels: seq<Addr>, w: World, k: nat)
    requires Located(ops, rels) && ReturnsObjects(w) && k < |ops| && rels[k] != []
    requires ApplyOps(original, msg, ops[..k + 1], w).Done?
    ensures At(ApplyOps(original, msg, ops[..k + 1], w).message, ContextOf(rels[k])) == Some(Str(ops[k].target))
  {
    var run := ops[..k + 1];
    var after := ApplyOps(original, msg, run, w).message;
    assert run[k] == ops[k];
    OpShows(original, msg, run, w);
    ReturnedIsObject(original, msg, run, w);
    GetFollowsAddress(after, rels[k]);
    ContextAsField(after, rels[k], ops[k].target);
  }

  /** An object no later whole-message operation mentions ends with its target. */
  lemma {:induction false} ContextKept(original: Json, msg: Json, ops: seq<Op>, rels: seq<Addr>, w: World,
                                       k: nat, field: string)
    requires Located(ops, rels) && PartsFollow(rels) && ReturnsObjects(w) && k < |ops|
    requires msg.Obj? && ApplyOps(original, msg, ops, w).Done?
    requires rels[k] != [] && rels[k][0] == Key(field) && field != "@context"
    requires NoneMentions(original, ops, w, k + 1, field)
    ensures At(ApplyOps(original, msg, ops, w).message, ContextOf(rels[k])) == Some(Str(ops[k].target))
  {
    LaterLeaveContext(original, ops, rels, w, k, k + 1, field);
    OpsLeave(original, msg, ops, w, k + 1, ContextOf(rels[k]));
    PartStamps(original, msg, ops, rels, w, k);
  }

  /** Otherwise it ends with what the last such operation made of the original. */
  lemma {:induction false} ContextSentBack(original: Json, msg: Json, ops: seq<Op>, rels: seq<Addr>, w: World,
                                           k: nat, n: nat, field: string)
    requires Located(ops, rels) && PartsFollow(rels) && k < n < |ops|
    requires msg.Obj? && ApplyOps(original, msg, ops, w).Done?
    requires rels[k] != [] && rels[k][0] == Key(field) && field != "@context"
    requires ops[n].segs == [] && field in Merged(original, ops[n], w)
    requires NoneMentions(original, ops, w, n + 1, field)
    ensures At(ApplyOps(original, msg, ops, w).message, ContextOf(rels[k])) ==
      At(w.translate(ops[n].artifact, original).value, ContextOf(rels[k]))
  {
    var b := ContextOf(rels[k]);
    LaterLeaveContext(original, ops, rels, w, k, n + 1, field);
    OpsLeave(original, msg, ops, w, n + 1, b);
    assert ops[..n + 1][..n] == ops[..n];
    assert b[0] == rels[k][0];
    WholeOpTakes(original, ApplyOps(original, msg, ops[..n], w).message, ops[n], w, b);
  }

  /** The message itself carries the target of the last whole-message operation. */
  lemma {:induction false} MessageStamped(original: Json, msg: Json, ops: seq<Op>, rels: seq<Addr>, w: World, n: nat)
    requires Located(ops, rels) && PartsFollow(rels) && n < |ops|
    requires msg.Obj? && ApplyOps(original, msg, ops, w).Done?
    requires rels[n] == [] && forall j :: n < j < |ops| ==> rels[j] != []
    ensures At(ApplyOps(original, msg, ops, w).message, ContextOf([])) == Some(Str(ops[n].target))
  {
    var b := ContextOf([]);
    assert b == [Key("@context")];
    forall j | n + 1 <= j < |ops| ensures Leaves(original, ops[j], w, b) {
      assert MayFollow(rels[n], rels[j]);
      PartLeavesContext(original, ops[j], w, [], rels[j]);
    }
    OpsLeave(original, msg, ops, w, n + 1, b);
    assert ops[..n + 1][..n] == ops[..n];
    WholeOpStamps(original, ApplyOps(original, msg, ops[..n], w).message, ops[n], w);
  }

  // ----- Which objects run on the whole message -----

  /** The message object and everything outside the message. */
  predicate OnWhole(a: Addr) {
    !InMessage(a) || a == [Key("message")]
  }

  function RelOf(a: Addr): Addr {
    if OnWhole(a) then [] else a[1..]
  }

  lemma {:induction false} SuffixStart(a: Addr)
    ensures Suffix(a) == "" <==> a == []
    ensures a != [] ==> Suffix(a)[0] == '.' || Suffix(a)[0] == '['
  {}

  /** A dot-free name before a separator is told apart by the text. */
  lemma {:induction false} NameBeforeDot(k: string, rest: string, name: string)
    requires '.' !in k && '.' !in name && '[' !in name && (rest == "" || rest[0] == '.' || rest[0] == '[')
    requires HasPrefix(k + rest, name + ".")
    ensures k == name
  {
    var s, p := k + rest, name + ".";
    assert s[0] == p[0];
    if k != "" && name != "" {
      assert s[1..] == k[1..] + rest && p[1..] == name[1..] + ".";
      assert s[..|p|][1..] == s[1..][..|p| - 1];
      NameBeforeDot(k[1..], rest, name[1..]);
      assert k == [k[0]] + k[1..] && name == [name[0]] + name[1..];
    }
  }

  /** Outside the message, the stripped path is empty or the path itself. */
  lemma {:induction false} OutsidePath(root: Json, a: Addr)
    requires root.Obj? && PrintablePayload(root) && At(root, a).Some? && !InMessage(a)
    ensures var path := "$" + Suffix(a);
      TrimPrefix(path, MESSAGE_PREFIX) == path || TrimPrefix(path, MESSAGE_PREFIX) == ""
  {
    var path := "$" + Suffix(a);
    if HasPrefix(path, MESSAGE_PREFIX) {
      assert a != [];
      assert a[0].Key? && SafeKey(a[0].key);
      StartsInMessage(a);
      EmptyFieldPath(a);
    }
  }

  lemma {:induction false} StartsInMessage(a: Addr)
    requires a != [] && a[0].Key? && SafeKey(a[0].key) && HasPrefix("$" + Suffix(a), MESSAGE_PREFIX)
    ensures a[0] == Key("message")
  {
    var k, rest := a[0].key, Suffix(a[1..]);
    AfterDollar(k, rest);
    SuffixStart(a[1..]);
    NameBeforeDot(k, rest, "message");
  }

  lemma {:induction false} AfterDollar(k: string, rest: string)
    requires HasPrefix("$" + ("." + k + rest), MESSAGE_PREFIX)
    ensures HasPrefix(k + rest, "message" + ".")
  {
    var s := "$" + ("." + k + rest);
    assert s[2..] == k + rest;
    assert MESSAGE_PREFIX[2..] == "message" + ".";
    assert s[..10][2..] == s[2..][..8];
  }

  lemma {:induction false} EmptyFieldPath(a: Addr)
    requires a != [] && a[0] == Key("message") && !InMessage(a)
    ensures "$" + Suffix(a) == MESSAGE_PREFIX && TrimPrefix(MESSAGE_PREFIX, MESSAGE_PREFIX) == ""
  {
    assert a == [Key("message"), Key("")];
    assert a[1..] == [Key("")] && a[1..][1..] == [];
    assert Suffix(a[1..]) == ".";
  }

  /** An object outside the message, or the message itself, is translated through the whole message. */
  lemma {:induction false} OpOnWhole(root: Json, a: Addr, f: Fetched)
    requires root.Obj? && PrintablePayload(root) && At(root, a).Some? && OnWhole(a)
    ensures OpOf("$" + Suffix(a), f).segs == []
  {
    if InMessage(a) {
      WholeMessagePath(a);
    } else {
      OutsidePath(root, a);
    }
  }

  predicate StartsWithField(a: Addr) {
    a != [] && a[0].Key? && a[0].key != "@context"
  }

  /** The operation of a needed object, told by where the object is. */
  lemma {:induction false} OpAtRel(root: Json, a: Addr, f: Fetched)
    requires root.Obj? && "message" in root.fields && Decoded(root.fields["message"]).Some?
    requires PrintablePayload(root) && Found(root, a, Reported)
    ensures Printable(RelOf(a)) && OpOf(RefAt(root, a, "$").path, f).segs == SegmentsOf(RelOf(a))
    ensures RelOf(a) != [] ==> StartsWithField(RelOf(a))
  {
    if OnWhole(a) {
      OpOnWhole(root, a, f);
    } else {
      MessageIsObject(root, a);
      OpAtPlace(root, a, f);
      assert RelOf(a)[0] == a[1] && Descends(a[1]);
    }
  }

  lemma {:induction false} RelsFollow(root: Json, a: Addr, b: Addr)
    requires Found(root, a, Reported) && Found(root, b, Reported)
    requires Less("$" + Suffix(a), "$" + Suffix(b))
    requires RelOf(b) != [] && StartsWithField(RelOf(b))
    ensures MayFollow(RelOf(a), RelOf(b))
  {
    if RelOf(a) != [] {
      SortedIsParentsFirst(root, a, b);
      UnderMessage(RelOf(a), RelOf(b));
      assert a == [Key("message")] + RelOf(a) && b == [Key("message")] + RelOf(b);
    }
  }

  /** The operations of any mediation: each on the whole message or at an address inside it, parents first. */
  lemma {:induction false} LayoutOfAll(root: Json, at: seq<Addr>, m: NodeManifest, w: World,
                                       arts: map<string, Fetched>, paths: seq<string>, final: Json)
    returns (places: seq<Addr>, rels: seq<Addr>)
    requires Mediates(root, at, m, w, arts, paths, final) && PrintablePayload(root)
    ensures PlacesOf(root, at, m, w, arts, paths, places)
    ensures rels == RelsOf(places) && Located(OpsOf(paths, arts), rels) && PartsFollow(rels)
  {
    places := FindPlaces(root, at, m, w, arts, paths);
    rels := RelsOf(places);
    RelsLocated(root, at, m, w, arts, paths, places);
    RelsPartsFollow(root, at, m, w, arts, paths, places);
  }

  function RelsOf(places: seq<Addr>): (rels: seq<Addr>)
    ensures |rels| == |places| && forall k :: 0 <= k < |places| ==> rels[k] == RelOf(places[k])
  {
    seq(|places|, k requires 0 <= k < |places| => RelOf(places[k]))
  }

  lemma {:induction false} RelsLocated(root: Json, at: seq<Addr>, m: NodeManifest, w: World, arts: map<string, Fetched>,
                                       paths: seq<string>, places: seq<Addr>)
    requires root.Obj? && "message" in root.fields && Decoded(root.fields["message"]).Some?
    requires PrintablePayload(root) && PlacesOf(root, at, m, w, arts, paths, places)
    ensures Located(OpsOf(paths, arts), RelsOf(places))
    ensures forall k :: 0 <= k < |places| && RelOf(places[k]) != [] ==> StartsWithField(RelOf(places[k]))
  {
    var rels := RelsOf(places);
    forall k | 0 <= k < |places| ensures
        && Printable(rels[k]) && OpsOf(paths, arts)[k].segs == SegmentsOf(rels[k])
        && (RelOf(places[k]) != [] ==> StartsWithField(RelOf(places[k]))) {
      assert IsPlace(root, at, m, w, arts, paths[k], places[k]);
      OpAtRel(root, places[k], arts[paths[k]]);
    }
  }

  lemma {:induction false} RelsPartsFollow(root: Json, at: seq<Addr>, m: NodeManifest, w: World,
                                           arts: map<string, Fetched>, paths: seq<string>, places: seq<Addr>)
    requires PlacesOf(root, at, m, w, arts, paths, places) && Sorted(paths)
    requires forall k :: 0 <= k < |places| && RelOf(places[k]) != [] ==> StartsWithField(RelOf(places[k]))
    ensures PartsFollow(RelsOf(places))
  {
    var rels := RelsOf(places);
    forall i, j | 0 <= i < j < |rels| && rels[j] != [] ensures MayFollow(rels[i], rels[j]) {
      assert IsPlace(root, at, m, w, arts, paths[i], places[i]) && IsPlace(root, at, m, w, arts, paths[j], places[j]);
      assert Less(paths[i], paths[j]);
      RelsFollow(root, places[i], places[j]);
    }
  }

  lemma {:induction false} IndexOrder(paths: seq<string>, i: nat, j: nat)
    requires Sorted(paths) && i < |paths| && j < |paths| && Less(paths[i], paths[j])
    ensures i < j
  {
    var p := paths[i];
    assert p + "" == p;
    ExtensionNotLess(p, "");
    if j < i {
      LessTransitive(p, paths[j], p);
    }
  }

  /** What the artifact of the object at `b` makes of the whole original message. */
  ghost function OfWholeMessage(root: Json, m: NodeManifest, w: World, b: Addr): Option<Json>
    requires root.Obj? && "message" in root.fields && Needed(root, b, m, w)
  {
    var one := FetchOne(NeedFor(RefAt(root, b, "$"), m, w.acceptsHost).value, w);
    if one.None? then None else w.translate(one.value.content, root.fields["message"])
  }

  /** That translation mentions field `k` of the message. */
  ghost predicate Mentions(root: Json, m: NodeManifest, w: World, b: Addr, k: string)
    requires root.Obj? && "message" in root.fields && Needed(root, b, m, w)
  {
    var r := OfWholeMessage(root, m, w, b);
    r.Some? && r.value.Obj? && k in r.value.fields
  }

  /** The operation at place `k`, in terms of the needed object there. */
  lemma {:induction false} OpOfPlace(root: Json, at: seq<Addr>, m: NodeManifest, w: World, arts: map<string, Fetched>,
                                     paths: seq<string>, places: seq<Addr>, k: nat)
    requires root.Obj? && "message" in root.fields && k < |paths|
    requires AllFound(root, at, Reported) && (forall p :: p in paths ==> p in arts)
    requires FetchAll(Needs(RefsAt(root, at, "$"), m, w.acceptsHost), w) == Some(arts)
    requires PlacesOf(root, at, m, w, arts, paths, places)
    ensures Needed(root, places[k], m, w) && paths[k] == "$" + Suffix(places[k])
    ensures OpsOf(paths, arts)[k].target == TargetAt(root, places[k], m, w)
    ensures w.translate(OpsOf(paths, arts)[k].artifact, root.fields["message"]) == OfWholeMessage(root, m, w, places[k])
  {
    FetchedBelong(Needs(RefsAt(root, at, "$"), m, w.acceptsHost), w);
    assert IsPlace(root, at, m, w, arts, paths[k], places[k]);
  }

  // ----- The objects inside the message -----

  /** The artifact of `b` is applied after that of `a`, to the whole message, and puts the field `a` is in back. */
  ghost predicate Overwrites(root: Json, m: NodeManifest, w: World, b: Addr, a: Addr)
    requires root.Obj? && "message" in root.fields && |a| > 1
  {
    && Needed(root, b, m, w) && OnWhole(b) && Less("$" + Suffix(a), "$" + Suffix(b))
    && a[1].Key? && Mentions(root, m, w, b, a[1].key)
  }

  ghost predicate LastOverwriter(root: Json, m: NodeManifest, w: World, b: Addr, a: Addr)
    requires root.Obj? && "message" in root.fields && |a| > 1
  {
    Overwrites(root, m, w, b, a) &&
    forall c :: Overwrites(root, m, w, c, a) ==> !Less("$" + Suffix(b), "$" + Suffix(c))
  }

  lemma {:induction false} LastMention(original: Json, ops: seq<Op>, w: World, k: nat, field: string) returns (n: nat)
    requires k < |ops|
    ensures k <= n < |ops| && NoneMentions(original, ops, w, n + 1, field)
    ensures n > k ==> ops[n].segs == [] && field in Merged(original, ops[n], w)
  {
    n := |ops| - 1;
    while n > k && !(ops[n].segs == [] && field in Merged(original, ops[n], w))
      invariant k <= n < |ops| && NoneMentions(original, ops, w, n + 1, field)
    {
      n := n - 1;
    }
  }

  /** Every object that overwrites `a` comes later and has such an operation. */
  lemma {:induction false} OverwriterComesLater(root: Json, at: seq<Addr>, m: NodeManifest, w: World,
                                                arts: map<string, Fetched>, paths: seq<string>, final: Json,
                                                places: seq<Addr>, k: nat, b: Addr)
    returns (j: nat)
    requires Mediates(root, at, m, w, arts, paths, final) && PrintablePayload(root)
    requires PlacesOf(root, at, m, w, arts, paths, places) && k < |places| && |places[k]| > 1
    requires Located(OpsOf(paths, arts), RelsOf(places)) && Overwrites(root, m, w, b, places[k])
    ensures k < j < |places| && places[j] == b && paths[j] == "$" + Suffix(b) && OpsOf(paths, arts)[j].segs == []
    ensures places[k][1].Key? && places[k][1].key in Merged(root.fields["message"], OpsOf(paths, arts)[j], w)
  {
    j := NeedHasOp(root, at, m, w, arts, paths, places, b);
    OpOfPlace(root, at, m, w, arts, paths, places, j);
    OpOfPlace(root, at, m, w, arts, paths, places, k);
    IndexOrder(paths, k, j);
    assert RelsOf(places)[j] == [];
  }

  /** And the other way round. */
  lemma {:induction false} LaterOverwrites(root: Json, at: seq<Addr>, m: NodeManifest, w: World,
                                           arts: map<string, Fetched>, paths: seq<string>, final: Json,
                                           places: seq<Addr>, k: nat, n: nat)
    requires Mediates(root, at, m, w, arts, paths, final)
    requires PlacesOf(root, at, m, w, arts, paths, places) && k < n < |places| && |places[k]| > 1
    requires Located(OpsOf(paths, arts), RelsOf(places)) && OpsOf(paths, arts)[n].segs == []
    requires places[k][1].Key? && places[k][1].key in Merged(root.fields["message"], OpsOf(paths, arts)[n], w)
    ensures Overwrites(root, m, w, places[n], places[k])
  {
    OpOfPlace(root, at, m, w, arts, paths, places, n);
    OpOfPlace(root, at, m, w, arts, paths, places, k);
    assert Less(paths[k], paths[n]);
    NoSegmentsOnWhole(OpsOf(paths, arts), places, n);
  }

  lemma {:induction false} NoSegmentsOnWhole(ops: seq<Op>, places: seq<Addr>, n: nat)
    requires Located(ops, RelsOf(places)) && n < |ops| && ops[n].segs == []
    ensures OnWhole(places[n])
  {
    var rel := RelsOf(places)[n];
    if rel != [] {
      SegmentsCons(rel);
    }
  }

  /** The last operation that mentions the field of `a` is that of its one last overwriter. */
  lemma {:induction false} LastOverwriterIs(root: Json, at: seq<Addr>, m: NodeManifest, w: World,
                                            arts: map<string, Fetched>, paths: seq<string>, final: Json,
                                            places: seq<Addr>, k: nat, n: nat, b: Addr)
    requires Mediates(root, at, m, w, arts, paths, final) && PrintablePayload(root)
    requires PlacesOf(root, at, m, w, arts, paths, places) && k < n < |places| && |places[k]| > 1
    requires Located(OpsOf(paths, arts), RelsOf(places)) && OpsOf(paths, arts)[n].segs == []
    requires places[k][1].Key? && places[k][1].key in Merged(root.fields["message"], OpsOf(paths, arts)[n], w)
    requires NoneMentions(root.fields["message"], OpsOf(paths, arts), w, n + 1, places[k][1].key)
    ensures LastOverwriter(root, m, w, b, places[k]) <==> b == places[n]
  {
    LaterOverwrites(root, at, m, w, arts, paths, final, places, k, n);
    forall c | Overwrites(root, m, w, c, places[k]) ensures NoLater(c, places[n]) {
      NoneLater(root, at, m, w, arts, paths, final, places, k, n, c);
    }
    if Less("$" + Suffix(b), "$" + Suffix(b)) { IndexOrder(["$" + Suffix(b)], 0, 0); }
  }

  ghost predicate NoLater(c: Addr, b: Addr) {
    c == b || (Less("$" + Suffix(c), "$" + Suffix(b)) && !Less("$" + Suffix(b), "$" + Suffix(c)))
  }

  lemma {:induction false} NoneLater(root: Json, at: seq<Addr>, m: NodeManifest, w: World, arts: map<string, Fetched>,
                                     paths: seq<string>, final: Json, places: seq<Addr>, k: nat, n: nat, c: Addr)
    requires Mediates(root, at, m, w, arts, paths, final) && PrintablePayload(root)
    requires PlacesOf(root, at, m, w, arts, paths, places) && k < n < |places| && |places[k]| > 1
    requires Located(OpsOf(paths, arts), RelsOf(places)) && places[k][1].Key?
    requires NoneMentions(root.fields["message"], OpsOf(paths, arts), w, n + 1, places[k][1].key)
    requires Overwrites(root, m, w, c, places[k])
    ensures NoLater(c, places[n])
  {
    var j := OverwriterComesLater(root, at, m, w, arts, paths, final, places, k, c);
    assert IsPlace(root, at, m, w, arts, paths[n], places[n]);
    PathOrder(paths, j, n);
  }

  lemma {:induction false} PathOrder(paths: seq<string>, j: nat, n: nat)
    requires Sorted(paths) && j <= n < |paths|
    ensures j == n || (Less(paths[j], paths[n]) && !Less(paths[n], paths[j]))
  {
    if Less(paths[n], paths[j]) {
      IndexOrder(paths, n, j);
    }
  }

  /** What the message holds as the @context of the object at `a`, read off the body. */
  lemma {:induction false} ContextInBody(root: Json, final: Json, a: Addr, target: string)
    requires root.Obj? && a != [] && a[0] == Key("message")
    ensures ContextIs(Patched(root, final), a, target) <==> At(final, ContextOf(a[1..])) == Some(Str(target))
  {
    AtPatched(root, final, a);
    ContextAsField(final, a[1..], target);
  }

  /** An object inside the message ends with its target exactly when the last object that overwrites it, if any,
      translates the original message into one that shows the target there. */
  lemma {:induction false} ReachesTargetIff(root: Json, at: seq<Addr>, m: NodeManifest, w: World,
                                            arts: map<string, Fetched>, paths: seq<string>, final: Json, a: Addr)
    requires Mediates(root, at, m, w, arts, paths, final) && PrintablePayload(root) && ReturnsObjects(w)
    requires Needed(root, a, m, w) && InMessage(a) && |a| > 1
    ensures ContextIs(Patched(root, final), a, TargetAt(root, a, m, w)) <==>
      forall b :: LastOverwriter(root, m, w, b, a) ==>
        ContextIs(OfWholeMessage(root, m, w, b).value, a[1..], TargetAt(root, a, m, w))
  {
    var places, rels := LayoutOfAll(root, at, m, w, arts, paths, final);
    var k := NeedHasOp(root, at, m, w, arts, paths, places, a);
    FieldOf(root, a, arts[paths[k]]);
    var n := LastMention(root.fields["message"], OpsOf(paths, arts), w, k, a[1].key);
    ContextInBody(root, final, a, TargetAt(root, a, m, w));
    if n == k {
      NotOverwritten(root, at, m, w, arts, paths, final, places, k);
      ContextKept(root.fields["message"], root.fields["message"], OpsOf(paths, arts), rels, w, k, a[1].key);
    } else {
      OneLastOverwriter(root, at, m, w, arts, paths, final, places, k, n);
      ShownInOriginal(root.fields["message"], OpsOf(paths, arts), rels, w, final, k, n, a[1].key);
    }
  }

  lemma {:induction false} FieldOf(root: Json, a: Addr, f: Fetched)
    requires root.Obj? && "message" in root.fields && Decoded(root.fields["message"]).Some?
    requires PrintablePayload(root) && Found(root, a, Reported) && InMessage(a) && |a| > 1
    ensures root.fields["message"].Obj? && RelOf(a) == a[1..] && RelOf(a)[0] == a[1]
    ensures a[1].Key? && a[1] == Key(a[1].key) && a[1].key != "@context"
  {
    MessageIsObject(root, a);
    OpAtRel(root, a, f);
  }

  lemma {:induction false} NotOverwritten(root: Json, at: seq<Addr>, m: NodeManifest, w: World,
                                          arts: map<string, Fetched>, paths: seq<string>, final: Json,
                                          places: seq<Addr>, k: nat)
    requires Mediates(root, at, m, w, arts, paths, final) && PrintablePayload(root)
    requires PlacesOf(root, at, m, w, arts, paths, places) && k < |places| && |places[k]| > 1 && places[k][1].Key?
    requires Located(OpsOf(paths, arts), RelsOf(places))
    requires NoneMentions(root.fields["message"], OpsOf(paths, arts), w, k + 1, places[k][1].key)
    ensures forall b :: !Overwrites(root, m, w, b, places[k])
  {
    forall b ensures !Overwrites(root, m, w, b, places[k]) {
      if Overwrites(root, m, w, b, places[k]) {
        var j := OverwriterComesLater(root, at, m, w, arts, paths, final, places, k, b);
        assert false;
      }
    }
  }

  lemma {:induction false} OneLastOverwriter(root: Json, at: seq<Addr>, m: NodeManifest, w: World,
                                             arts: map<string, Fetched>, paths: seq<string>, final: Json,
                                             places: seq<Addr>, k: nat, n: nat)
    requires Mediates(root, at, m, w, arts, paths, final) && PrintablePayload(root)
    requires PlacesOf(root, at, m, w, arts, paths, places) && k < n < |places| && |places[k]| > 1
    requires Located(OpsOf(paths, arts), RelsOf(places)) && OpsOf(paths, arts)[n].segs == []
    requires places[k][1].Key? && places[k][1].key in Merged(root.fields["message"], OpsOf(paths, arts)[n], w)
    requires NoneMentions(root.fields["message"], OpsOf(paths, arts), w, n + 1, places[k][1].key)
    ensures forall b :: LastOverwriter(root, m, w, b, places[k]) <==> b == places[n]
    ensures Needed(root, places[n], m, w)
    ensures w.translate(OpsOf(paths, arts)[n].artifact, root.fields["message"]) == OfWholeMessage(root, m, w, places[n])
  {
    forall b ensures LastOverwriter(root, m, w, b, places[k]) <==> b == places[n] {
      LastOverwriterIs(root, at, m, w, arts, paths, final, places, k, n, b);
    }
    OpOfPlace(root, at, m, w, arts, paths, places, n);
  }

  lemma {:induction false} ShownInOriginal(msg: Json, ops: seq<Op>, rels: seq<Addr>, w: World, final: Json,
                                           k: nat, n: nat, field: string)
    requires Located(ops, rels) && PartsFollow(rels) && k < n < |ops|
    requires msg.Obj? && ApplyOps(msg, msg, ops, w) == Done(final)
    requires rels[k] != [] && rels[k][0] == Key(field) && field != "@context"
    requires ops[n].segs == [] && field in Merged(msg, ops[n], w) && NoneMentions(msg, ops, w, n + 1, field)
    ensures w.translate(ops[n].artifact, msg).Some?
    ensures forall t :: At(final, ContextOf(rels[k])) == Some(Str(t)) <==>
      ContextIs(w.translate(ops[n].artifact, msg).value, rels[k], t)
  {
    ContextSentBack(msg, msg, ops, rels, w, k, n, field);
    forall t ensures At(final, ContextOf(rels[k])) == Some(Str(t)) <==>
        ContextIs(w.translate(ops[n].artifact, msg).value, rels[k], t) {
      ContextAsField(w.translate(ops[n].artifact, msg).value, rels[k], t);
    }
  }

  /** Among the objects translated through the whole message, the one with the greatest path decides the @context
      of the message. */
  lemma {:induction false} MessageCarries(root: Json, at: seq<Addr>, m: NodeManifest, w: World,
                                          arts: map<string, Fetched>, paths: seq<string>, final: Json, b: Addr,
                                          t: string)
    requires Mediates(root, at, m, w, arts, paths, final) && PrintablePayload(root)
    requires Needed(root, b, m, w) && OnWhole(b)
    requires forall c :: Needed(root, c, m, w) && OnWhole(c) ==> !Less("$" + Suffix(b), "$" + Suffix(c))
    ensures ContextIs(Patched(root, final), [Key("message")], t) <==> t == TargetAt(root, b, m, w)
  {
    var places, rels := LayoutOfAll(root, at, m, w, arts, paths, final);
    var n := NeedHasOp(root, at, m, w, arts, paths, places, b);
    OpOfPlace(root, at, m, w, arts, paths, places, n);
    LastOnWhole(root, at, m, w, arts, paths, places, n);
    StampedInBody(root, OpsOf(paths, arts), rels, w, final, n);
    assert TargetAt(root, b, m, w) == OpsOf(paths, arts)[n].target;
  }

  lemma {:induction false} LastOnWhole(root: Json, at: seq<Addr>, m: NodeManifest, w: World, arts: map<string, Fetched>,
                                       paths: seq<string>, places: seq<Addr>, n: nat)
    requires PlacesOf(root, at, m, w, arts, paths, places) && Sorted(paths) && n < |places|
    requires forall c :: Needed(root, c, m, w) && OnWhole(c) ==> !Less("$" + Suffix(places[n]), "$" + Suffix(c))
    ensures forall j :: n < j < |places| ==> RelsOf(places)[j] != []
  {
    assert IsPlace(root, at, m, w, arts, paths[n], places[n]);
    forall j | n < j < |places| ensures RelOf(places[j]) != [] {
      assert IsPlace(root, at, m, w, arts, paths[j], places[j]);
      assert Less(paths[n], paths[j]);
      assert Needed(root, places[j], m, w) && !OnWhole(places[j]);
    }
  }

  lemma {:induction false} StampedInBody(root: Json, ops: seq<Op>, rels: seq<Addr>, w: World, final: Json, n: nat)
    requires root.Obj? && "message" in root.fields && Decoded(root.fields["message"]).Some?
    requires Located(ops, rels) && PartsFollow(rels) && n < |ops|
    requires rels[n] == [] && forall j :: n < j < |ops| ==> rels[j] != []
    requires ApplyOps(root.fields["message"], Decoded(root.fields["message"]).value, ops, w) == Done(final)
    ensures forall t :: ContextIs(Patched(root, final), [Key("message")], t) <==> t == ops[n].target
  {
    var msg, a := root.fields["message"], [Key("message")];
    MessageStamped(msg, Decoded(msg).value, ops, rels, w, n);
    assert a[1..] == [];
    forall t ensures ContextIs(Patched(root, final), a, t) <==> t == ops[n].target {
      ContextInBody(root, final, a, t);
    }
  }

  // ----- The rest of the body -----

  /** The translation of the needed object `a` cannot reach address `b` of the message. */
  ghost predicate LeavesAddress(root: Json, m: NodeManifest, w: World, a: Addr, b: Addr)
    requires root.Obj? && "message" in root.fields && Needed(root, a, m, w) && |b| > 1
  {
    if OnWhole(a) then b[1].Key? ==> b[1].key != "@context" && !Mentions(root, m, w, a, b[1].key)
    else !(a <= b) && !(b <= a)
  }

  /** What is outside the message, or in it where no translation reaches, is as it came. */
  lemma {:induction false} RestUntouched(root: Json, at: seq<Addr>, m: NodeManifest, w: World,
                                         arts: map<string, Fetched>, paths: seq<string>, final: Json, b: Addr)
    requires Mediates(root, at, m, w, arts, paths, final) && PrintablePayload(root)
    requires b != [] && b != [Key("message")]
    requires b[0] == Key("message") ==> forall a :: Needed(root, a, m, w) ==> LeavesAddress(root, m, w, a, b)
    ensures At(Patched(root, final), b) == At(root, b)
  {
    AtPatched(root, final, b);
    if b[0] == Key("message") {
      LongerThanOne(b);
      RestOfMessage(root, at, m, w, arts, paths, final, b);
    }
  }

  lemma {:induction false} LongerThanOne(b: Addr)
    requires b != [] && b != [b[0]]
    ensures |b| > 1
  {
    var first := b[..1];
    assert first == [b[0]];
    assert |b| == 1 ==> first == b;
  }

  lemma {:induction false} RestOfMessage(root: Json, at: seq<Addr>, m: NodeManifest, w: World,
                                         arts: map<string, Fetched>, paths: seq<string>, final: Json, b: Addr)
    requires Mediates(root, at, m, w, arts, paths, final) && PrintablePayload(root) && |b| > 1 && b[0] == Key("message")
    requires forall a :: Needed(root, a, m, w) ==> LeavesAddress(root, m, w, a, b)
    ensures At(final, b[1..]) == At(root.fields["message"], b[1..])
  {
    AllLeave(root, at, m, w, arts, paths, final, b);
    MessageLeft(root.fields["message"], OpsOf(paths, arts), w, b[1..]);
  }

  lemma {:induction false} MessageLeft(msg: Json, ops: seq<Op>, w: World, b: Addr)
    requires b != [] && Decoded(msg).Some? && ApplyOps(msg, Decoded(msg).value, ops, w).Done?
    requires forall j :: 0 <= j < |ops| ==> Leaves(msg, ops[j], w, b)
    ensures At(ApplyOps(msg, Decoded(msg).value, ops, w).message, b) == At(msg, b)
  {
    assert ops[..0] == [];
    OpsLeave(msg, Decoded(msg).value, ops, w, 0, b);
  }

  lemma {:induction false} AllLeave(root: Json, at: seq<Addr>, m: NodeManifest, w: World, arts: map<string, Fetched>,
                                    paths: seq<string>, final: Json, b: Addr)
    requires Mediates(root, at, m, w, arts, paths, final) && PrintablePayload(root) && |b| > 1 && b[0] == Key("message")
    requires forall a :: Needed(root, a, m, w) ==> LeavesAddress(root, m, w, a, b)
    ensures forall j :: 0 <= j < |paths| ==> Leaves(root.fields["message"], OpsOf(paths, arts)[j], w, b[1..])
  {
    var places, rels := LayoutOfAll(root, at, m, w, arts, paths, final);
    forall j | 0 <= j < |paths| ensures Leaves(root.fields["message"], OpsOf(paths, arts)[j], w, b[1..]) {
      OpOfPlace(root, at, m, w, arts, paths, places, j);
      assert LeavesAddress(root, m, w, places[j], b);
      RelLeaves(root, m, w, places[j], b, OpsOf(paths, arts)[j]);
    }
  }

  lemma {:induction false} RelLeaves(root: Json, m: NodeManifest, w: World, a: Addr, b: Addr, op: Op)
    requires root.Obj? && "message" in root.fields && Needed(root, a, m, w) && |b| > 1 && b[0] == Key("message")
    requires LeavesAddress(root, m, w, a, b) && Printable(RelOf(a)) && op.segs == SegmentsOf(RelOf(a))
    requires w.translate(op.artifact, root.fields["message"]) == OfWholeMessage(root, m, w, a)
    ensures Leaves(root.fields["message"], op, w, b[1..])
  {
    var rel, rest := RelOf(a), b[1..];
    assert rest[0] == b[1];
    StepsOfSegments(rel);
    if rel != [] {
      SegmentsCons(rel);
      assert !OnWhole(a);
      ApartInMessage(a, b);
    }
  }

  lemma {:induction false} ApartInMessage(a: Addr, b: Addr)
    requires InMessage(a) && b != [] && b[0] == Key("message") && !(a <= b) && !(b <= a)
    ensures !(a[1..] <= b[1..]) && !(b[1..] <= a[1..])
  {
    assert a == [Key("message")] + a[1..] && b == [Key("message")] + b[1..];
    UnderMessage(a[1..], b[1..]);
    UnderMessage(b[1..], a[1..]);
  }
}
