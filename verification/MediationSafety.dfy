/** What a mediation that went through guarantees about the resulting body. */
module MediationSafety {
  import opened Text
  import opened Json
  import opened Paths
  import opened PayloadWalk
  import opened Versions
  import opened Mediation

  /** `a` is the address of the object that needs the artifact fetched for path `p`. */
  ghost predicate IsPlace(root: Json, at: seq<Addr>, m: NodeManifest, w: World, arts: map<string, Fetched>, p: string,
                          a: Addr) {
    && p in arts && a in at && Found(root, a, Reported) && RefAt(root, a, "$").path == p
    && NeedFor(RefAt(root, a, "$"), m, w.acceptsHost) == Some(arts[p].need)
  }

  /** Every artifact has such an object. */
  lemma {:induction false} PathHasPlace(root: Json, at: seq<Addr>, m: NodeManifest, w: World,
                                        arts: map<string, Fetched>, p: string)
    returns (a: Addr)
    requires AllFound(root, at, Reported) && p in arts
    requires FetchAll(Needs(RefsAt(root, at, "$"), m, w.acceptsHost), w) == Some(arts)
    ensures IsPlace(root, at, m, w, arts, p, a)
  {
    var refs := RefsAt(root, at, "$");
    var needs := Needs(refs, m, w.acceptsHost);
    FetchedBelong(needs, w);
    NeedsOfRefs(refs, m, w.acceptsHost, arts[p].need);
    var i :| 0 <= i < |refs| && refs[i] == arts[p].need.from;
    a := at[i];
  }

  /** The objects the sorted operations apply to, in that order. */
  ghost predicate PlacesOf(root: Json, at: seq<Addr>, m: NodeManifest, w: World, arts: map<string, Fetched>,
                           paths: seq<string>, places: seq<Addr>) {
    |places| == |paths| && forall k :: 0 <= k < |paths| ==> IsPlace(root, at, m, w, arts, paths[k], places[k])
  }

  lemma {:induction false} FindPlaces(root: Json, at: seq<Addr>, m: NodeManifest, w: World, arts: map<string, Fetched>,
                                      paths: seq<string>)
    returns (places: seq<Addr>)
    requires AllFound(root, at, Reported)
    requires FetchAll(Needs(RefsAt(root, at, "$"), m, w.acceptsHost), w) == Some(arts)
    requires forall path :: path in paths ==> path in arts
    ensures PlacesOf(root, at, m, w, arts, paths, places)
  {
    var ok := (path: string, a: Addr) => IsPlace(root, at, m, w, arts, path, a);
    forall path | path in paths ensures exists a :: ok(path, a) {
      var a := PathHasPlace(root, at, m, w, arts, path);
      assert ok(path, a);
    }
    places := OneForEach(paths, ok);
    forall k | 0 <= k < |paths| ensures IsPlace(root, at, m, w, arts, paths[k], places[k]) {
      assert ok(paths[k], places[k]);
    }
  }

  lemma {:induction false} OneForEach(paths: seq<string>, ok: (string, Addr) -> bool) returns (places: seq<Addr>)
    requires forall path :: path in paths ==> exists a :: ok(path, a)
    ensures |places| == |paths| && forall k :: 0 <= k < |paths| ==> ok(paths[k], places[k])
  {
    places := [];
    for k := 0 to |paths|
      invariant |places| == k && forall i :: 0 <= i < k ==> ok(paths[i], places[i])
    {
      assert paths[k] in paths;
      var a :| ok(paths[k], a);
      places := places + [a];
    }
  }

  lemma {:induction false} SuffixConcat(a: Addr, b: Addr)
    ensures Suffix(a + b) == Suffix(a) + Suffix(b)
  {
    if a == [] {
      assert a + b == b;
    } else {
      assert (a + b)[1..] == a[1..] + b;
      SuffixConcat(a[1..], b);
    }
  }

  lemma {:induction false} AncestorNotLater(a: Addr, b: Addr)
    requires b <= a
    ensures !Less("$" + Suffix(a), "$" + Suffix(b))
  {
    var rest := a[|b|..];
    assert a == b + rest;
    SuffixConcat(b, rest);
    Regrouped("$", Suffix(b), Suffix(rest));
    ExtensionNotLess("$" + Suffix(b), Suffix(rest));
  }

  /** Below a versioned object the walk goes on through a field other than @context. */
  lemma {:induction false} NextStepIsField(root: Json, a: Addr, b: Addr)
    requires Found(root, a, Reported) && Found(root, b, Reported) && a <= b && a != b
    ensures b[|a|].Key? && b[|a|].key != "@context"
  {
    var rest := b[|a|..];
    assert b == a + rest;
    AtConcat(root, a, rest);
    assert rest[0] == b[|a|];
    assert Descends(b[|a|]);
  }

  /** Sorted paths name parents before their children. */
  lemma {:induction false} SortedIsParentsFirst(root: Json, a: Addr, b: Addr)
    requires Found(root, a, Reported) && Found(root, b, Reported)
    requires Less("$" + Suffix(a), "$" + Suffix(b))
    ensures MayFollow(a, b)
  {
    if b <= a {
      AncestorNotLater(a, b);
      assert false;
    }
    if a <= b {
      NextStepIsField(root, a, b);
    }
  }

  /** An operation on an object inside the message applies at the object's address. */
  lemma {:induction false} OpAtPlace(root: Json, a: Addr, f: Fetched)
    requires PrintablePayload(root) && root.Obj? && Found(root, a, Reported) && InMessage(a)
    requires root.fields["message"].Obj?
    ensures Printable(a[1..]) && OpOf(RefAt(root, a, "$").path, f).segs == SegmentsOf(a[1..])
  {
    if |a| == 1 {
      WholeMessagePath(a);
    } else {
      StrippedPathReadsNode(root, a);
      OpOfText(RefAt(root, a, "$").path, a, f);
    }
  }

  lemma {:induction false} OpOfText(path: string, a: Addr, f: Fetched)
    requires |a| > 1 && InMessage(a) && a[1].Key? && Printable(a[1..])
    requires path == MESSAGE_PREFIX + RelText(a[1..]) && TrimPrefix(path, MESSAGE_PREFIX) == RelText(a[1..])
    ensures OpOf(path, f).segs == SegmentsOf(a[1..])
  {
    var rest := a[1..];
    SegmentsOfText(rest);
    assert a == [a[0]] + rest;
    NonEmptyText(rest);
    assert |path| > |RelText(rest)|;
  }

  lemma {:induction false} WholeMessagePath(a: Addr)
    requires a == [Key("message")]
    ensures "$" + Suffix(a) == "$.message" && TrimPrefix("$.message", MESSAGE_PREFIX) == "$.message"
  {
    assert a[1..] == [];
    assert |MESSAGE_PREFIX| == 10;
  }

  lemma {:induction false} NonEmptyText(a: Addr)
    requires a != [] && a[0].Key? && a != [Key("")]
    ensures RelText(a) != ""
  {
    if a[0].key == "" {
      assert |StepText(a[1])| > 0;
    }
  }

  lemma {:induction false} UnderTheMessage(places: seq<Addr>) returns (rels: seq<Addr>)
    requires forall k :: 0 <= k < |places| ==> InMessage(places[k])
    ensures |rels| == |places| && forall k :: 0 <= k < |places| ==> places[k] == [Key("message")] + rels[k]
  {
    rels := [];
    for n := 0 to |places|
      invariant |rels| == n && forall k :: 0 <= k < n ==> places[k] == [Key("message")] + rels[k]
    {
      assert InMessage(places[n]);
      rels := rels + [places[n][1..]];
    }
  }

  /** All operations in the message: their relative addresses, parents first. */
  lemma {:induction false} OpsAtPlaces(root: Json, at: seq<Addr>, m: NodeManifest, w: World, arts: map<string, Fetched>,
                                       paths: seq<string>, places: seq<Addr>)
    returns (rels: seq<Addr>)
    requires PrintablePayload(root) && root.Obj? && "message" in root.fields && root.fields["message"].Obj?
    requires PlacesOf(root, at, m, w, arts, paths, places) && Sorted(paths)
    requires forall k :: 0 <= k < |places| ==> InMessage(places[k])
    ensures |rels| == |places| && forall k :: 0 <= k < |places| ==> places[k] == [Key("message")] + rels[k]
    ensures Located(OpsOf(paths, arts), rels) && ParentsFirst(rels)
  {
    rels := UnderTheMessage(places);
    PlacesLocated(root, at, m, w, arts, paths, places, rels);
    PlacesParentsFirst(root, at, m, w, arts, paths, places, rels);
  }

  lemma {:induction false} PlacesLocated(root: Json, at: seq<Addr>, m: NodeManifest, w: World,
                                         arts: map<string, Fetched>, paths: seq<string>, places: seq<Addr>,
                                         rels: seq<Addr>)
    requires PrintablePayload(root) && root.Obj? && "message" in root.fields && root.fields["message"].Obj?
    requires PlacesOf(root, at, m, w, arts, paths, places) && forall k :: 0 <= k < |places| ==> InMessage(places[k])
    requires |rels| == |places| && forall k :: 0 <= k < |places| ==> places[k] == [Key("message")] + rels[k]
    ensures Located(OpsOf(paths, arts), rels)
  {
    forall k | 0 <= k < |places| ensures Printable(rels[k]) && OpsOf(paths, arts)[k].segs == SegmentsOf(rels[k]) {
      assert IsPlace(root, at, m, w, arts, paths[k], places[k]);
      assert rels[k] == places[k][1..];
      OpAtPlace(root, places[k], arts[paths[k]]);
    }
  }

  lemma {:induction false} PlacesParentsFirst(root: Json, at: seq<Addr>, m: NodeManifest, w: World,
                                              arts: map<string, Fetched>, paths: seq<string>, places: seq<Addr>,
                                              rels: seq<Addr>)
    requires PlacesOf(root, at, m, w, arts, paths, places) && Sorted(paths)
    requires |rels| == |places| && forall k :: 0 <= k < |places| ==> places[k] == [Key("message")] + rels[k]
    ensures ParentsFirst(rels)
  {
    forall i, j | 0 <= i < j < |rels| ensures MayFollow(rels[i], rels[j]) {
      assert Less(paths[i], paths[j]);
      SortedIsParentsFirst(root, places[i], places[j]);
      UnderMessage(rels[i], rels[j]);
    }
  }

  lemma {:induction false} UnderMessage(a: Addr, b: Addr)
    ensures var s := [Key("message")];
      (s + a <= s + b <==> a <= b) && (MayFollow(s + a, s + b) ==> MayFollow(a, b))
  {
    var s := [Key("message")];
    assert a <= b ==> s + a <= s + b;
    assert b <= a ==> s + b <= s + a;
    assert (s + a)[1..] == a && (s + b)[1..] == b;
    assert s + a <= s + b ==> (s + b)[..|a| + 1][1..] == a;
  }

  /** The translator returns objects, as a translation of an object should. */
  ghost predicate ReturnsObjects(w: World) {
    forall artifact, j :: w.translate(artifact, j).Some? ==> w.translate(artifact, j).value.Obj?
  }

  ghost predicate AllNeedsInMessage(root: Json, m: NodeManifest, w: World) {
    forall a :: Needed(root, a, m, w) ==> InMessage(a)
  }

  /** The operations of a mediation whose needs are all in the message. */
  lemma {:induction false} Layout(root: Json, at: seq<Addr>, m: NodeManifest, w: World, arts: map<string, Fetched>,
                                  paths: seq<string>, final: Json)
    returns (places: seq<Addr>, rels: seq<Addr>)
    requires Mediates(root, at, m, w, arts, paths, final) && PrintablePayload(root) && AllNeedsInMessage(root, m, w)
    ensures PlacesOf(root, at, m, w, arts, paths, places)
    ensures |rels| == |places| && forall k :: 0 <= k < |places| ==> places[k] == [Key("message")] + rels[k]
    ensures places != [] ==> root.fields["message"].Obj?
    ensures Located(OpsOf(paths, arts), rels) && ParentsFirst(rels)
  {
    places := FindPlaces(root, at, m, w, arts, paths);
    forall k | 0 <= k < |places| ensures InMessage(places[k]) {
      assert IsPlace(root, at, m, w, arts, paths[k], places[k]);
      assert Needed(root, places[k], m, w);
    }
    if places == [] {
      rels := [];
    } else {
      assert IsPlace(root, at, m, w, arts, paths[0], places[0]);
      MessageIsObject(root, places[0]);
      rels := OpsAtPlaces(root, at, m, w, arts, paths, places);
    }
  }

  /** A needed object is one of the places, and its operation carries its target. */
  lemma {:induction false} NeedHasOp(root: Json, at: seq<Addr>, m: NodeManifest, w: World, arts: map<string, Fetched>,
                                     paths: seq<string>, places: seq<Addr>, a: Addr)
    returns (k: nat)
    requires PrintablePayload(root) && EnumeratesAll(root, at, Reported) && AllFound(root, at, Reported)
    requires FetchAll(Needs(RefsAt(root, at, "$"), m, w.acceptsHost), w) == Some(arts)
    requires forall p :: p in paths <==> p in arts
    requires PlacesOf(root, at, m, w, arts, paths, places) && Needed(root, a, m, w)
    ensures k < |places| && places[k] == a && OpsOf(paths, arts)[k].target == TargetAt(root, a, m, w)
  {
    var refs := RefsAt(root, at, "$");
    var need := NeedFor(RefAt(root, a, "$"), m, w.acceptsHost).value;
    var i :| 0 <= i < |at| && at[i] == a;
    assert refs[i] == need.from;
    NeedsOfRefs(refs, m, w.acceptsHost, need);
    FetchedBelong(Needs(refs, m, w.acceptsHost), w);
    var p := need.from.path;
    assert p in paths;
    k :| 0 <= k < |paths| && paths[k] == p;
    assert IsPlace(root, at, m, w, arts, paths[k], places[k]);
    SamePathSameAddress(root, places[k], a);
  }

  /** The operation of a needed object, where it applies. */
  lemma {:induction false} OpOfNeed(root: Json, at: seq<Addr>, m: NodeManifest, w: World, arts: map<string, Fetched>,
                                    paths: seq<string>, final: Json, a: Addr)
    returns (rels: seq<Addr>, k: nat)
    requires Mediates(root, at, m, w, arts, paths, final) && PrintablePayload(root)
    requires AllNeedsInMessage(root, m, w) && Needed(root, a, m, w)
    ensures root.fields["message"].Obj? && Located(OpsOf(paths, arts), rels) && ParentsFirst(rels)
    ensures k < |rels| && a == [Key("message")] + rels[k] && OpsOf(paths, arts)[k].target == TargetAt(root, a, m, w)
  {
    var places;
    places, rels := Layout(root, at, m, w, arts, paths, final);
    k := NeedHasOp(root, at, m, w, arts, paths, places, a);
  }

  /** When every object to translate is in the message, each of them ends with its target @context,
      nested ones included. */
  lemma {:induction false} NeedsReachTarget(root: Json, at: seq<Addr>, m: NodeManifest, w: World,
                                            arts: map<string, Fetched>, paths: seq<string>, final: Json, a: Addr)
    requires Mediates(root, at, m, w, arts, paths, final) && PrintablePayload(root) && ReturnsObjects(w)
    requires AllNeedsInMessage(root, m, w) && Needed(root, a, m, w)
    ensures ContextIs(Patched(root, final), a, TargetAt(root, a, m, w))
  {
    var rels, k := OpOfNeed(root, at, m, w, arts, paths, final, a);
    var msg, ops := root.fields["message"], OpsOf(paths, arts);
    assert Decoded(msg) == Some(msg);
    ShownInBody(root, ops, rels, w, final, k);
  }

  lemma {:induction false} ShownInBody(root: Json, ops: seq<Op>, rels: seq<Addr>, w: World, final: Json, k: nat)
    requires root.Obj? && "message" in root.fields && ReturnsObjects(w)
    requires Located(ops, rels) && ParentsFirst(rels) && k < |ops|
    requires ApplyOps(root.fields["message"], root.fields["message"], ops, w) == Done(final)
    ensures ContextIs(Patched(root, final), [Key("message")] + rels[k], ops[k].target)
  {
    var msg := root.fields["message"];
    AllOpsShow(msg, msg, ops, rels, w, k);
    ReturnedIsObject(msg, msg, ops[..k + 1], w);
    GetFollowsAddress(final, rels[k]);
    var a := [Key("message")] + rels[k];
    AtPatched(root, final, a);
    assert a[1..] == rels[k];
  }

  /** A node inside the message means the message is an object or an array; only an object decodes. */
  lemma {:induction false} MessageIsObject(root: Json, a: Addr)
    requires Found(root, a, Reported) && InMessage(a) && root.Obj? && Decoded(root.fields["message"]).Some?
    ensures root.fields["message"].Obj?
  {
    assert At(root, a) == At(root.fields["message"], a[1..]);
    if |a| == 1 {
      assert a[1..] == [];
    }
  }

  lemma {:induction false} ReturnedIsObject(original: Json, msg: Json, ops: seq<Op>, w: World)
    requires ops != [] && ApplyOps(original, msg, ops, w).Done? && ReturnsObjects(w)
    ensures Returned(original, msg, ops, w).Obj?
  {}

  lemma {:induction false} AtPatched(root: Json, final: Json, a: Addr)
    requires root.Obj? && a != []
    ensures At(Patched(root, final), a) == if a[0] == Key("message") then At(final, a[1..]) else At(root, a)
  {}

  /** An object outside the message is never translated: it is in the resulting body as it came. */
  lemma {:induction false} OutsideMessageUntouched(root: Json, final: Json, a: Addr)
    requires root.Obj? && Found(root, a, Reported) && (a == [] || a[0] != Key("message"))
    ensures At(Patched(root, final), a).Some?
    ensures ContextField(At(Patched(root, final), a).value) == ContextField(At(root, a).value)
  {
    if a != [] {
      AtPatched(root, final, a);
    }
  }

  /** Mediation translates everything it set out to exactly when everything is in the message. */
  lemma {:induction false} AllReachTargetIff(root: Json, at: seq<Addr>, m: NodeManifest, w: World,
                                             arts: map<string, Fetched>, paths: seq<string>, final: Json)
    requires Mediates(root, at, m, w, arts, paths, final) && PrintablePayload(root) && ReturnsObjects(w)
    requires !Needed(root, [Key("message"), Key("")], m, w)
    requires forall a :: Needed(root, a, m, w) ==> RefAt(root, a, "$").contextURL != TargetAt(root, a, m, w)
    ensures (forall a :: Needed(root, a, m, w) ==> ContextIs(Patched(root, final), a, TargetAt(root, a, m, w))) <==>
      AllNeedsInMessage(root, m, w)
  {
    if AllNeedsInMessage(root, m, w) {
      forall a | Needed(root, a, m, w) ensures ContextIs(Patched(root, final), a, TargetAt(root, a, m, w)) {
        NeedsReachTarget(root, at, m, w, arts, paths, final, a);
      }
    } else {
      var a :| Needed(root, a, m, w) && !InMessage(a);
      OutsideMessageUntouched(root, final, a);
    }
  }
}
