/** Schema version mediation of a whole message. schemaversionmediator.go: Mediate, fetchAllArtifacts,
    applyOnFailure, extractMessageSubtree, patchMessageSubtree. */
module Mediation {
  import opened Text
  import opened Json
  import opened Paths
  import opened PayloadWalk
  import opened Versions

  /** What mediation asks of the outside: the authority check of the URL parser, the artifact served
      at a URL, and the translator. None is the failure of the call. */
  datatype World = World(acceptsHost: string -> bool, fetch: string -> Option<string>,
                         translate: (string, Json) -> Option<Json>)

  // ----- One translation step -----

  /** One artifact and the place it applies to. No segments stand for the whole message. */
  datatype Op = Op(segs: seq<Segment>, artifact: string, target: string)

  /** `Panics` is a write into the nil map that decoding a JSON null leaves behind. */
  datatype StepResult = Done(message: Json) | Fails | Panics

  function WithContext(j: Json, target: string): Json {
    if j.Obj? then Obj(j.fields["@context" := Str(target)]) else j
  }

  /** What the translator is given: the original message for the whole-message branch, the current subtree otherwise. */
  function Input(original: Json, msg: Json, op: Op): Result<Json> {
    if op.segs == [] then Ok(original) else Get(msg, op.segs)
  }

  function ApplyOp(original: Json, msg: Json, op: Op, w: World): StepResult {
    var input := Input(original, msg, op);
    if input.Err? then Fails
    else
      match w.translate(op.artifact, input.value)
      case None => Fails
      case Some(result) =>
        if op.segs == [] then
          // Decoding into the existing map merges: keys the translation does not mention stay.
          if result.Null? then Panics
          else if result.Obj? && msg.Obj? then Done(WithContext(Obj(msg.fields + result.fields), op.target))
          else Fails
        else
          var r := Set(msg, op.segs, WithContext(result, op.target));
          if r.Ok? then Done(r.value) else Fails
  }

  function ApplyOps(original: Json, msg: Json, ops: seq<Op>, w: World): StepResult {
    if ops == [] then Done(msg)
    else
      var n := |ops| - 1;
      var front := ApplyOps(original, msg, ops[..n], w);
      if front.Done? then ApplyOp(original, front.message, ops[n], w) else front
  }

  /** A whole-message step, with every step before it done, for which the translator answers null. */
  predicate MeetsNull(original: Json, msg: Json, ops: seq<Op>, w: World, i: nat) {
    && i < |ops| && ApplyOps(original, msg, ops[..i], w).Done?
    && ops[i].segs == [] && w.translate(ops[i].artifact, original) == Some(Json.Null)
  }

  /** The operations panic exactly when the first step that does not go through is a whole-message step whose
      translation is null. */
  lemma {:induction false} PanicsIff(original: Json, msg: Json, ops: seq<Op>, w: World)
    ensures ApplyOps(original, msg, ops, w).Panics? <==> exists i :: MeetsNull(original, msg, ops, w, i)
    decreases |ops|
  {
    if ops != [] {
      var n := |ops| - 1;
      PanicsIff(original, msg, ops[..n], w);
      if ApplyOps(original, msg, ops, w).Panics? {
        if ApplyOps(original, msg, ops[..n], w).Panics? {
          var i :| MeetsNull(original, msg, ops[..n], w, i);
          MeetsNullInFront(original, msg, ops, w, i);
        } else {
          assert MeetsNull(original, msg, ops, w, n);
        }
      } else {
        forall i: nat ensures !MeetsNull(original, msg, ops, w, i) {
          MeetsNullInFront(original, msg, ops, w, i);
        }
      }
    }
  }

  lemma {:induction false} MeetsNullInFront(original: Json, msg: Json, ops: seq<Op>, w: World, i: nat)
    requires ops != []
    ensures var n := |ops| - 1;
      MeetsNull(original, msg, ops, w, i) <==>
        MeetsNull(original, msg, ops[..n], w, i) || (i == n && MeetsNull(original, msg, ops, w, n))
  {
    if i < |ops| - 1 {
      assert ops[..|ops| - 1][..i] == ops[..i];
    }
  }

  /** What the translator returned for the last of `ops`. */
  function Returned(original: Json, msg: Json, ops: seq<Op>, w: World): Json
    requires ops != [] && ApplyOps(original, msg, ops, w).Done?
  {
    var n := |ops| - 1;
    var before := ApplyOps(original, msg, ops[..n], w).message;
    w.translate(ops[n].artifact, Input(original, before, ops[n]).value).value
  }

  // ----- Every translated object ends as it was last written -----

  function ContextField(j: Json): Option<Json> {
    if j.Obj? && "@context" in j.fields then Some(j.fields["@context"]) else None
  }

  /** The node at `p` reads as an object with that @context. */
  predicate HasContext(msg: Json, p: seq<Segment>, target: string) {
    Get(msg, p).Ok? && ContextField(Get(msg, p).value) == Some(Str(target))
  }

  /** Whatever was written at `p` shows there: an object with the target @context, or the non-object returned. */
  predicate Shows(msg: Json, p: seq<Segment>, returned: Json, target: string) {
    if returned.Obj? then HasContext(msg, p, target) else Get(msg, p) == Ok(returned)
  }

  /** A later write at `p` keeps what shows at `q`: `p` is elsewhere, or below `q` through a field other than
      @context. */
  predicate Spares(p: seq<Segment>, q: seq<Segment>) {
    && !(Steps(p) <= Steps(q))
    && (Steps(q) <= Steps(p) ==> Steps(p)[|Steps(q)|].Key? && Steps(p)[|Steps(q)|].key != "@context")
  }

  lemma {:induction false} WriteSpares(msg: Json, p: seq<Segment>, v: Json, q: seq<Segment>, returned: Json,
                                       target: string)
    requires p != [] && Get(msg, p).Ok? && Spares(p, q) && Shows(msg, q, returned, target)
    ensures Set(msg, p, v).Ok? && Shows(Set(msg, p, v).value, q, returned, target)
    decreases |p|
  {
    ReadableIsWritable(msg, p, v);
    if q == [] {
      StepsCons(p);
    } else if SameSelection(p[0], q[0]) {
      TailSpares(p, q);
      WriteSpares(Child(msg.fields, p[0]).value, p[1..], v, q[1..], returned, target);
    } else {
      OtherSelection(msg, p, v, q);
    }
  }

  lemma {:induction false} OtherSelection(msg: Json, p: seq<Segment>, v: Json, q: seq<Segment>)
    requires p != [] && q != [] && Get(msg, p).Ok? && Get(msg, q).Ok? && Spares(p, q) && !SameSelection(p[0], q[0])
    ensures Set(msg, p, v).Ok? && Get(Set(msg, p, v).value, q) == Get(msg, q)
  {
    ReadableIsWritable(msg, p, v);
    StepsCons(p);
    StepsCons(q);
    var c := Child(msg.fields, p[0]).value;
    var w := if |p| == 1 then v else Set(c, p[1..], v).value;
    assert Set(msg, p, v).value == Obj(Replace(msg.fields, p[0], w));
    var a, b := StepsOf(p[0]), StepsOf(q[0]);
    assert a[0] == Key(p[0].key) && b[0] == Key(q[0].key);
    assert Steps(p)[..|a|] == a && Steps(q)[..|b|] == b;
  }

  lemma {:induction false} TailSpares(p: seq<Segment>, q: seq<Segment>)
    requires p != [] && q != [] && Spares(p, q) && SameSelection(p[0], q[0])
    ensures |p| > 1 && Spares(p[1..], q[1..])
  {
    StepsCons(p);
    StepsCons(q);
    var a := StepsOf(p[0]);
    assert Steps(p) == a + Steps(p[1..]) && Steps(q) == a + Steps(q[1..]);
    assert Steps(p[1..]) <= Steps(q[1..]) ==> Steps(p) <= Steps(q);
    assert Steps(q[1..]) <= Steps(p[1..]) ==> Steps(q) <= Steps(p);
  }

  /** Where the operations apply, as addresses inside the message. */
  predicate Located(ops: seq<Op>, at: seq<Addr>) {
    |ops| == |at| && forall i :: 0 <= i < |ops| ==> Printable(at[i]) && ops[i].segs == SegmentsOf(at[i])
  }

  /** The order the sorted paths come in: no operation writes above, or at, the place of an earlier one,
      and those below an earlier one go on with a field other than @context. */
  predicate ParentsFirst(at: seq<Addr>) {
    forall i, j :: 0 <= i < j < |at| ==> MayFollow(at[i], at[j])
  }

  predicate MayFollow(a: Addr, b: Addr) {
    !(b <= a) && (a <= b ==> b[|a|].Key? && b[|a|].key != "@context")
  }

  lemma {:induction false} OpShows(original: Json, msg: Json, ops: seq<Op>, w: World)
    requires ops != [] && ApplyOps(original, msg, ops, w).Done?
    ensures var op := ops[|ops| - 1];
      Shows(ApplyOps(original, msg, ops, w).message, op.segs, Returned(original, msg, ops, w), op.target)
  {
    var n := |ops| - 1;
    var mid := ApplyOps(original, msg, ops[..n], w).message;
    if ops[n].segs != [] {
      SetThenGet(mid, ops[n].segs, WithContext(Returned(original, msg, ops, w), ops[n].target));
    }
  }

  /** After all operations, every one of them still shows what it wrote. */
  lemma {:induction false} AllOpsShow(original: Json, msg: Json, ops: seq<Op>, at: seq<Addr>, w: World, i: nat)
    requires Located(ops, at) && ParentsFirst(at) && i < |ops|
    requires ApplyOps(original, msg, ops, w).Done?
    ensures ApplyOps(original, msg, ops[..i + 1], w).Done?
    ensures Shows(ApplyOps(original, msg, ops, w).message, ops[i].segs, Returned(original, msg, ops[..i + 1], w),
                  ops[i].target)
    decreases |ops|
  {
    var n := |ops| - 1;
    if i == n {
      assert ops[..n + 1] == ops;
      OpShows(original, msg, ops, w);
    } else {
      assert ops[..n][..i + 1] == ops[..i + 1];
      AllOpsShow(original, msg, ops[..n], at[..n], w, i);
      StepsOfSegments(at[i]);
      StepsOfSegments(at[n]);
      assert MayFollow(at[i], at[n]);
      assert ops[n].segs != [];
      var mid := ApplyOps(original, msg, ops[..n], w).message;
      WriteSpares(mid, ops[n].segs, WithContext(Returned(original, msg, ops, w), ops[n].target),
                  ops[i].segs, Returned(original, msg, ops[..i + 1], w), ops[i].target);
    }
  }

  /** Outside the translated places nothing changes. */
  lemma {:induction false} OpsElsewhere(original: Json, msg: Json, ops: seq<Op>, w: World, b: Addr)
    requires ApplyOps(original, msg, ops, w).Done?
    requires forall i :: 0 <= i < |ops| ==> !(Steps(ops[i].segs) <= b) && !(b <= Steps(ops[i].segs))
    ensures At(ApplyOps(original, msg, ops, w).message, b) == At(msg, b)
    decreases |ops|
  {
    if ops != [] {
      var n := |ops| - 1;
      OpsElsewhere(original, msg, ops[..n], w, b);
      assert Steps([]) <= b;
      SetKeepsAddress(ApplyOps(original, msg, ops[..n], w).message, ops[n].segs,
                      WithContext(Returned(original, msg, ops, w), ops[n].target), b);
    }
  }

  /** An object that no operation reaches below or above its fields keeps being an object. */
  lemma {:induction false} OpsKeepObject(original: Json, msg: Json, ops: seq<Op>, w: World)
    requires msg.Obj? && ApplyOps(original, msg, ops, w).Done?
    ensures ApplyOps(original, msg, ops, w).message.Obj?
    decreases |ops|
  {
    if ops != [] {
      OpsKeepObject(original, msg, ops[..|ops| - 1], w);
    }
  }

  // ----- The order of the paths -----

  /** The byte order `sort.Strings` sorts by. */
  predicate Less(a: string, b: string) {
    b != "" && (a == "" || a[0] < b[0] || (a[0] == b[0] && Less(a[1..], b[1..])))
  }

  lemma {:induction false} LessTransitive(a: string, b: string, c: string)
    requires Less(a, b) && Less(b, c)
    ensures Less(a, c)
  {
    if a != "" && a[0] == b[0] && b[0] == c[0] {
      LessTransitive(a[1..], b[1..], c[1..]);
    }
  }

  lemma {:induction false} LessTotal(a: string, b: string)
    ensures a == b || Less(a, b) || Less(b, a)
  {
    if a != "" && b != "" && a[0] == b[0] {
      LessTotal(a[1..], b[1..]);
      assert a == [a[0]] + a[1..] && b == [b[0]] + b[1..];
    }
  }

  /** A path never sorts before its own ancestor. */
  lemma {:induction false} ExtensionNotLess(a: string, rest: string)
    ensures !Less(a + rest, a)
  {
    if a != "" {
      assert (a + rest)[1..] == a[1..] + rest;
      ExtensionNotLess(a[1..], rest);
    }
  }

  predicate Sorted(s: seq<string>) {
    forall i, j :: 0 <= i < j < |s| ==> Less(s[i], s[j])
  }

  function Insert(x: string, s: seq<string>): seq<string> {
    if s == [] || Less(x, s[0]) then [x] + s else [s[0]] + Insert(x, s[1..])
  }

  lemma {:induction false} InsertContents(x: string, s: seq<string>, y: string)
    ensures y in Insert(x, s) <==> y == x || y in s
  {
    if s != [] && !Less(x, s[0]) {
      InsertContents(x, s[1..], y);
      assert s == [s[0]] + s[1..];
    }
  }

  lemma {:induction false} InsertSorted(x: string, s: seq<string>)
    requires Sorted(s) && x !in s
    ensures Sorted(Insert(x, s))
  {
    if s == [] {
    } else if Less(x, s[0]) {
      forall i | 0 <= i < |s| ensures Less(x, s[i]) {
        if i > 0 { LessTransitive(x, s[0], s[i]); }
      }
    } else {
      InsertSorted(x, s[1..]);
      LessTotal(x, s[0]);
      var r := Insert(x, s[1..]);
      forall i | 0 <= i < |r| ensures Less(s[0], r[i]) {
        InsertContents(x, s[1..], r[i]);
        assert r[i] in r;
      }
    }
  }

  /** Stands for `sort.Strings` over the keys of a map. */
  method SortedKeys(keys: set<string>) returns (sorted: seq<string>)
    ensures Sorted(sorted) && forall p :: p in sorted <==> p in keys
  {
    sorted := [];
    var remaining := keys;
    while remaining != {}
      invariant remaining <= keys && Sorted(sorted)
      invariant forall p :: p in sorted <==> p in keys && p !in remaining
    {
      var p :| p in remaining;
      remaining := remaining - {p};
      forall y ensures y in Insert(p, sorted) <==> y == p || y in sorted {
        InsertContents(p, sorted, y);
      }
      InsertSorted(p, sorted);
      sorted := Insert(p, sorted);
    }
  }

  // ----- Fetching the artifacts -----

  datatype Fetched = Fetched(content: string, need: Need)

  function FetchOne(need: Need, w: World): Option<Fetched> {
    var url := ArtifactURL(need, w.acceptsHost);
    if url.None? then None
    else
      var content := w.fetch(url.value);
      if content.None? then None else Some(Fetched(content.value, need))
  }

  /** The artifacts by path; None when any is missing. */
  function FetchAll(needs: seq<Need>, w: World): Option<map<string, Fetched>> {
    if needs == [] then Some(map[])
    else
      var last := needs[|needs| - 1];
      var front, one := FetchAll(needs[..|needs| - 1], w), FetchOne(last, w);
      if front.None? || one.None? then None else Some(front.value[last.from.path := one.value])
  }

  /** `fetchAllArtifacts`: tries every need, collecting failures. */
  method FetchAllArtifacts(needs: seq<Need>, w: World) returns (artifacts: map<string, Fetched>, failures: seq<Need>)
    ensures failures == [] <==> FetchAll(needs, w).Some?
    ensures failures == [] ==> FetchAll(needs, w) == Some(artifacts)
  {
    artifacts, failures := map[], [];
    for i := 0 to |needs|
      invariant failures == [] <==> FetchAll(needs[..i], w).Some?
      invariant failures == [] ==> FetchAll(needs[..i], w) == Some(artifacts)
    {
      assert needs[..i + 1][..i] == needs[..i];
      var url := DeriveArtifactURL(needs[i], w.acceptsHost);
      if url.None? {
        failures := failures + [needs[i]];
      } else {
        var content := w.fetch(url.value);
        if content.None? {
          failures := failures + [needs[i]];
        } else {
          artifacts := artifacts[needs[i].from.path := Fetched(content.value, needs[i])];
        }
      }
    }
    assert needs[..|needs|] == needs;
  }

  /** Every artifact belongs to a need with that path, and every need's path has one. */
  lemma {:induction false} FetchedBelong(needs: seq<Need>, w: World)
    requires FetchAll(needs, w).Some?
    ensures var arts := FetchAll(needs, w).value;
      && (forall p :: p in arts ==>
          arts[p].need in needs && arts[p].need.from.path == p && FetchOne(arts[p].need, w) == Some(arts[p]))
      && (forall need :: need in needs ==> need.from.path in arts)
  {
    if needs != [] {
      FetchedBelong(needs[..|needs| - 1], w);
    }
  }

  // ----- The whole mediation -----

  /** Where a path points: nothing left after "$.message." stands for the whole message, and so does any
      path that does not start with it. */
  function OpOf(path: string, f: Fetched): Op {
    var rel := TrimPrefix(path, MESSAGE_PREFIX);
    Op(if rel == path || rel == "" then [] else Segments(rel), f.content, f.need.ToContextURL())
  }

  function OpsOf(paths: seq<string>, arts: map<string, Fetched>): (ops: seq<Op>)
    requires forall i :: 0 <= i < |paths| ==> paths[i] in arts
    ensures |ops| == |paths| && forall i :: 0 <= i < |paths| ==> ops[i] == OpOf(paths[i], arts[paths[i]])
  {
    seq(|paths|, i requires 0 <= i < |paths| => OpOf(paths[i], arts[paths[i]]))
  }

  /** The map a JSON object or null decodes into. */
  function Decoded(j: Json): Option<Json> {
    match j
    case Obj(_) => Some(j)
    case Null => Some(Obj(map[]))
    case _ => None
  }

  /** An object is itself, null is the empty object, so that a translation of the whole of it stands alone, and any
      other message cannot be decoded. */
  lemma {:induction false} MessageDecodes(j: Json, op: Op, w: World, t: map<string, Json>)
    ensures Decoded(j).Some? <==> j.Obj? || j.Null?
    ensures op.segs == [] && w.translate(op.artifact, j) == Some(Obj(t)) && (j.Obj? || j.Null?) ==>
      ApplyOp(j, Decoded(j).value, op, w) ==
        Done(Obj((if j.Obj? then j.fields else map[]) + t["@context" := Str(op.target)]))
  {
    if j.Obj? {
      assert (j.fields + t)["@context" := Str(op.target)] == j.fields + t["@context" := Str(op.target)];
    } else if j.Null? {
      assert (map[] + t)["@context" := Str(op.target)] == map[] + t["@context" := Str(op.target)];
    }
  }

  function Patched(root: Json, final: Json): Json
    requires root.Obj?
  {
    Obj(root.fields["message" := final])
  }

  /** A mediation that went through: the needs of a walk, all artifacts fetched, the operations applied in path
      order. */
  ghost predicate Mediates(root: Json, at: seq<Addr>, m: NodeManifest, w: World,
                           arts: map<string, Fetched>, paths: seq<string>, final: Json) {
    && root.Obj? && "message" in root.fields && Decoded(root.fields["message"]).Some?
    && EnumeratesAll(root, at, Reported) && AllFound(root, at, Reported)
    && FetchAll(Needs(RefsAt(root, at, "$"), m, w.acceptsHost), w) == Some(arts)
    && Sorted(paths) && (forall p :: p in paths <==> p in arts)
    && ApplyOps(root.fields["message"], Decoded(root.fields["message"]).value, OpsOf(paths, arts), w) == Done(final)
  }

  /** The address of a node in the message, other than the field named "" right under it. */
  predicate InMessage(a: Addr) {
    a != [] && a[0] == Key("message") && a != [Key("message"), Key("")]
  }

  ghost predicate Needed(root: Json, a: Addr, m: NodeManifest, w: World) {
    Found(root, a, Reported) && NeedFor(RefAt(root, a, "$"), m, w.acceptsHost).Some?
  }

  function TargetAt(root: Json, a: Addr, m: NodeManifest, w: World): string
    requires Found(root, a, Reported) && NeedFor(RefAt(root, a, "$"), m, w.acceptsHost).Some?
  {
    NeedFor(RefAt(root, a, "$"), m, w.acceptsHost).value.ToContextURL()
  }

  predicate ContextIs(root: Json, a: Addr, target: string) {
    At(root, a).Some? && ContextField(At(root, a).value) == Some(Str(target))
  }
}
