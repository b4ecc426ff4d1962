/** The walk that reports every versioned object of a payload with its path.
    schemaversionmediator.go: WalkPayload, walkNode, stringField. */
module PayloadWalk {
  import opened Text
  import opened Json
  import opened Paths

  /** A versioned object: its @context, its @type, and where the walk found it. */
  datatype Ref = Ref(contextURL: string, typ: string, path: string)

  /** An object with @context but no @type. */
  datatype SkippedRef = SkippedRef(path: string, contextURL: string)

  /** `stringField`: the value of a field that is a nonempty string. */
  function StringField(m: map<string, Json>, key: string): Option<string> {
    if key in m && m[key].Str? && m[key].s != "" then Some(m[key].s) else None
  }

  /** Which of the walk's two lists a node belongs to. */
  datatype Class = Reported | Skipped

  predicate InClass(j: Json, c: Class) {
    j.Obj? && StringField(j.fields, "@context").Some? && (StringField(j.fields, "@type").Some? <==> c == Reported)
  }

  predicate Descends(s: Step) {
    s.Key? ==> s.key != "@context" && s.key != "@type"
  }

  /** The node at `a` belongs to class `c`, and no step of `a` enters an @context or @type field. */
  predicate Found(root: Json, a: Addr, c: Class) {
    At(root, a).Some? && InClass(At(root, a).value, c) && forall i :: 0 <= i < |a| ==> Descends(a[i])
  }

  function RefAt(root: Json, a: Addr, base: string): Ref
    requires Found(root, a, Reported)
  {
    var m := At(root, a).value.fields;
    Ref(StringField(m, "@context").value, StringField(m, "@type").value, base + Suffix(a))
  }

  function SkippedAt(root: Json, a: Addr, base: string): SkippedRef
    requires Found(root, a, Skipped)
  {
    SkippedRef(base + Suffix(a), StringField(At(root, a).value.fields, "@context").value)
  }

  /** The node is an object with that text, which is not empty, under the key. */
  predicate HasText(root: Json, a: Addr, key: string, text: string) {
    var node := At(root, a);
    node.Some? && node.value.Obj? && key in node.value.fields && node.value.fields[key] == Str(text) && |text| > 0
  }

  /** No step of the address enters an @context or @type field. */
  predicate Outside(a: Addr) {
    forall i :: 0 <= i < |a| ==> a[i] != Key("@context") && a[i] != Key("@type")
  }

  /** What the walk reports: the nodes with a text for both keys, outside the values of those keys; and what it skips:
      those with a text for @context alone. */
  lemma {:induction false} FoundIff(root: Json, a: Addr, c: string, t: string)
    ensures HasText(root, a, "@context", c) && HasText(root, a, "@type", t) && Outside(a) ==>
      Found(root, a, Reported) && RefAt(root, a, "$") == Ref(c, t, "$" + Suffix(a))
    ensures Found(root, a, Reported) ==>
      && Outside(a) && HasText(root, a, "@context", RefAt(root, a, "$").contextURL)
      && HasText(root, a, "@type", RefAt(root, a, "$").typ)
    ensures HasText(root, a, "@context", c) && Outside(a) ==> Found(root, a, Reported) || Found(root, a, Skipped)
    ensures Found(root, a, Skipped) ==> Outside(a) && !HasText(root, a, "@type", t)
  {
    assert Outside(a) <==> forall i :: 0 <= i < |a| ==> Descends(a[i]);
  }

  ghost predicate Distinct<T>(s: seq<T>) {
    forall i, j :: 0 <= i < j < |s| ==> s[i] != s[j]
  }

  /** `at` enumerates without repetition the addresses of class `c` whose first step is `[]` or in `firsts`. */
  ghost predicate Enumerates(node: Json, at: seq<Addr>, firsts: iset<Step>, c: Class) {
    && Distinct(at)
    && (forall a :: a in at <==> Found(node, a, c) && (a == [] || a[0] in firsts))
  }

  function Under(s: Step, at: seq<Addr>): (r: seq<Addr>)
    ensures |r| == |at| && forall i :: 0 <= i < |at| ==> r[i] == [s] + at[i]
  {
    seq(|at|, i requires 0 <= i < |at| => [s] + at[i])
  }

  predicate HasChild(node: Json, s: Step) {
    match s
    case Key(k) => node.Obj? && k in node.fields
    case Idx(i) => node.Arr? && i < |node.items|
  }

  function ChildAt(node: Json, s: Step): Json
    requires HasChild(node, s)
  {
    match s
    case Key(k) => node.fields[k]
    case Idx(i) => node.items[i]
  }

  lemma {:induction false} FoundUnder(node: Json, s: Step, a: Addr, c: Class)
    ensures Found(node, [s] + a, c) <==> HasChild(node, s) && Descends(s) && Found(ChildAt(node, s), a, c)
  {
    var b := [s] + a;
    assert b[0] == s && b[1..] == a;
    assert forall i :: 0 <= i < |a| ==> a[i] == b[i + 1];
    assert forall i :: 1 <= i < |b| ==> b[i] == a[i - 1];
  }

  /** `at` enumerates without repetition all addresses of class `c`. */
  ghost predicate EnumeratesAll(node: Json, at: seq<Addr>, c: Class) {
    Distinct(at) && forall a :: a in at <==> Found(node, a, c)
  }

  /** Walking one more child extends the enumeration by the addresses below that child. */
  lemma {:induction false} EnumerateChild(node: Json, at: seq<Addr>, firsts: iset<Step>, s: Step, below: seq<Addr>,
                                          c: Class)
    requires s !in firsts && HasChild(node, s) && Descends(s)
    requires Enumerates(node, at, firsts, c)
    requires EnumeratesAll(ChildAt(node, s), below, c)
    ensures Enumerates(node, at + Under(s, below), firsts + iset{s}, c)
  {
    var added := Under(s, below);
    var all := at + added;
    forall a ensures a in added <==> a != [] && a[0] == s && Found(node, a, c) {
      if a != [] {
        assert a == [a[0]] + a[1..];
        FoundUnder(node, a[0], a[1..], c);
        if a[0] == s && a[1..] in below {
          var i :| 0 <= i < |below| && below[i] == a[1..];
          assert added[i] == a;
        }
      }
      if a in added {
        var i :| 0 <= i < |added| && added[i] == a;
        assert a == [s] + below[i] && a[1..] == below[i];
        assert below[i] in below;
      }
    }
    forall i, j | 0 <= i < j < |added| ensures added[i] != added[j] {
      assert added[i][1..] == below[i] && added[j][1..] == below[j];
    }
    forall i, j | 0 <= i < j < |all| ensures all[i] != all[j] {
      if i < |at| <= j {
        assert all[i] in at && all[j] in added;
      }
    }
  }

  /** A child that is not descended into contributes nothing. */
  lemma {:induction false} EnumerateSkip(node: Json, at: seq<Addr>, firsts: iset<Step>, s: Step, c: Class)
    requires !Descends(s) && Enumerates(node, at, firsts, c)
    ensures Enumerates(node, at, firsts + iset{s}, c)
  {
    forall a | a != [] && a[0] == s ensures !Found(node, a, c) {
      assert !Descends(a[0]);
    }
  }

  /** Once every child has been walked, the enumeration is complete. */
  lemma {:induction false} EnumerateAll(node: Json, at: seq<Addr>, firsts: iset<Step>, c: Class)
    requires Enumerates(node, at, firsts, c)
    requires forall s :: HasChild(node, s) ==> s in firsts
    ensures EnumeratesAll(node, at, c)
  {
    forall a | a != [] && Found(node, a, c) ensures a[0] in firsts {
      assert a == [a[0]] + a[1..];
      FoundUnder(node, a[0], a[1..], c);
    }
  }

  ghost predicate AllFound(node: Json, at: seq<Addr>, c: Class) {
    forall i :: 0 <= i < |at| ==> Found(node, at[i], c)
  }

  function RefsAt(node: Json, at: seq<Addr>, base: string): (r: seq<Ref>)
    requires AllFound(node, at, Reported)
    ensures |r| == |at| && forall i :: 0 <= i < |at| ==> r[i] == RefAt(node, at[i], base)
  {
    seq(|at|, i requires 0 <= i < |at| => RefAt(node, at[i], base))
  }

  function SkippedRefsAt(node: Json, at: seq<Addr>, base: string): (r: seq<SkippedRef>)
    requires AllFound(node, at, Skipped)
    ensures |r| == |at| && forall i :: 0 <= i < |at| ==> r[i] == SkippedAt(node, at[i], base)
  {
    seq(|at|, i requires 0 <= i < |at| => SkippedAt(node, at[i], base))
  }

  lemma {:induction false} PathUnder(base: string, s: Step, a: Addr)
    ensures base + Suffix([s] + a) == base + StepText(s) + Suffix(a)
  {
    assert ([s] + a)[1..] == a;
  }

  /** What is reported below a child is what the child reports under its own path. */
  lemma {:induction false} ReportedUnder(node: Json, s: Step, below: seq<Addr>, base: string)
    requires HasChild(node, s) && Descends(s) && AllFound(ChildAt(node, s), below, Reported)
    ensures AllFound(node, Under(s, below), Reported)
    ensures RefsAt(node, Under(s, below), base) == RefsAt(ChildAt(node, s), below, base + StepText(s))
  {
    var added := Under(s, below);
    forall i | 0 <= i < |below|
      ensures Found(node, added[i], Reported) && At(node, added[i]) == At(ChildAt(node, s), below[i])
    {
      FoundUnder(node, s, below[i], Reported);
      assert added[i][1..] == below[i];
    }
    forall i | 0 <= i < |below| ensures base + Suffix(added[i]) == base + StepText(s) + Suffix(below[i]) {
      PathUnder(base, s, below[i]);
    }
  }

  lemma {:induction false} SkippedUnder(node: Json, s: Step, below: seq<Addr>, base: string)
    requires HasChild(node, s) && Descends(s) && AllFound(ChildAt(node, s), below, Skipped)
    ensures AllFound(node, Under(s, below), Skipped)
    ensures SkippedRefsAt(node, Under(s, below), base) == SkippedRefsAt(ChildAt(node, s), below, base + StepText(s))
  {
    var added := Under(s, below);
    forall i | 0 <= i < |below|
      ensures Found(node, added[i], Skipped) && At(node, added[i]) == At(ChildAt(node, s), below[i])
    {
      FoundUnder(node, s, below[i], Skipped);
      assert added[i][1..] == below[i];
    }
    forall i | 0 <= i < |below| ensures base + Suffix(added[i]) == base + StepText(s) + Suffix(below[i]) {
      PathUnder(base, s, below[i]);
    }
  }

  /** Walking `node` under path `base` has so far covered the children `firsts`, and appended to the
      list exactly one entry for each address enumerated by `at`. */
  ghost predicate ReportedSoFar(node: Json, base: string, firsts: iset<Step>, at: seq<Addr>, before: seq<Ref>,
                                now: seq<Ref>) {
    Enumerates(node, at, firsts, Reported) && AllFound(node, at, Reported) && now == before + RefsAt(node, at, base)
  }

  ghost predicate SkippedSoFar(node: Json, base: string, firsts: iset<Step>, at: seq<Addr>,
                               before: seq<SkippedRef>, now: seq<SkippedRef>) {
    Enumerates(node, at, firsts, Skipped) && AllFound(node, at, Skipped) &&
        now == before + SkippedRefsAt(node, at, base)
  }

  lemma {:induction false} Appended<T>(a: seq<T>, b: seq<T>, c: seq<T>)
    ensures a + b + c == a + (b + c)
  {}

  lemma {:induction false} ReportedConcat(node: Json, at: seq<Addr>, more: seq<Addr>, base: string)
    requires AllFound(node, at, Reported) && AllFound(node, more, Reported)
    ensures AllFound(node, at + more, Reported)
    ensures RefsAt(node, at + more, base) == RefsAt(node, at, base) + RefsAt(node, more, base)
  {}

  lemma {:induction false} ExtendReported(node: Json, s: Step, base: string, firsts: iset<Step>, at: seq<Addr>,
                                          below: seq<Addr>,
                       before: seq<Ref>, mid: seq<Ref>, now: seq<Ref>)
    requires HasChild(node, s) && Descends(s) && s !in firsts
    requires ReportedSoFar(node, base, firsts, at, before, mid)
    requires EnumeratesAll(ChildAt(node, s), below, Reported) && AllFound(ChildAt(node, s), below, Reported)
    requires now == mid + RefsAt(ChildAt(node, s), below, base + StepText(s))
    ensures ReportedSoFar(node, base, firsts + iset{s}, at + Under(s, below), before, now)
  {
    EnumerateChild(node, at, firsts, s, below, Reported);
    ReportedUnder(node, s, below, base);
    ReportedConcat(node, at, Under(s, below), base);
    Appended(before, RefsAt(node, at, base), RefsAt(node, Under(s, below), base));
  }

  lemma {:induction false} SkippedConcat(node: Json, at: seq<Addr>, more: seq<Addr>, base: string)
    requires AllFound(node, at, Skipped) && AllFound(node, more, Skipped)
    ensures AllFound(node, at + more, Skipped)
    ensures SkippedRefsAt(node, at + more, base) == SkippedRefsAt(node, at, base) + SkippedRefsAt(node, more, base)
  {}

  lemma {:induction false} ExtendSkipped(node: Json, s: Step, base: string, firsts: iset<Step>, at: seq<Addr>,
                                         below: seq<Addr>,
                      before: seq<SkippedRef>, mid: seq<SkippedRef>, now: seq<SkippedRef>)
    requires HasChild(node, s) && Descends(s) && s !in firsts
    requires SkippedSoFar(node, base, firsts, at, before, mid)
    requires EnumeratesAll(ChildAt(node, s), below, Skipped) && AllFound(ChildAt(node, s), below, Skipped)
    requires now == mid + SkippedRefsAt(ChildAt(node, s), below, base + StepText(s))
    ensures SkippedSoFar(node, base, firsts + iset{s}, at + Under(s, below), before, now)
  {
    EnumerateChild(node, at, firsts, s, below, Skipped);
    SkippedUnder(node, s, below, base);
    SkippedConcat(node, at, Under(s, below), base);
    Appended(before, SkippedRefsAt(node, at, base), SkippedRefsAt(node, Under(s, below), base));
  }

  /** What a node itself contributes, before any of its children. */
  lemma {:induction false} SelfReported(node: Json, base: string, before: seq<Ref>, now: seq<Ref>)
    requires InClass(node, Reported) ==>
      now == before + [Ref(StringField(node.fields, "@context").value, StringField(node.fields, "@type").value, base)]
    requires !InClass(node, Reported) ==> now == before
    ensures ReportedSoFar(node, base, iset{}, if InClass(node, Reported) then [[]] else [], before, now)
  {
    EnumerateSelf(node, Reported);
    assert base + Suffix([]) == base;
  }

  lemma {:induction false} SelfSkipped(node: Json, base: string, before: seq<SkippedRef>, now: seq<SkippedRef>)
    requires InClass(node, Skipped) ==> now == before + [SkippedRef(base, StringField(node.fields, "@context").value)]
    requires !InClass(node, Skipped) ==> now == before
    ensures SkippedSoFar(node, base, iset{}, if InClass(node, Skipped) then [[]] else [], before, now)
  {
    EnumerateSelf(node, Skipped);
    assert base + Suffix([]) == base;
  }

  lemma {:induction false} EnumerateSelf(node: Json, c: Class)
    ensures Enumerates(node, if InClass(node, c) then [[]] else [], iset{}, c)
  {
    var self: Addr := [];
    assert Found(node, self, c) <==> InClass(node, c);
  }

  /** The two lists a walk appends to. */
  class Results {
    var refs: seq<Ref>
    var skipped: seq<SkippedRef>

    constructor ()
      ensures refs == [] && skipped == []
    {
      refs, skipped := [], [];
    }

    /** `walkNode`: records the node itself, then the arm for its kind walks its children. */
    method WalkNode(node: Json, nodePath: string) returns (ghost at: seq<Addr>, ghost skippedAt: seq<Addr>)
      modifies this
      ensures EnumeratesAll(node, at, Reported) && AllFound(node, at, Reported)
      ensures EnumeratesAll(node, skippedAt, Skipped) && AllFound(node, skippedAt, Skipped)
      ensures refs == old(refs) + RefsAt(node, at, nodePath)
      ensures skipped == old(skipped) + SkippedRefsAt(node, skippedAt, nodePath)
      decreases node, 1
    {
      if node.Obj? {
        var context := StringField(node.fields, "@context");
        if context.Some? {
          var typ := StringField(node.fields, "@type");
          if typ.Some? {
            refs := refs + [Ref(context.value, typ.value, nodePath)];
          } else {
            skipped := skipped + [SkippedRef(nodePath, context.value)];
          }
        }
      }
      at := if InClass(node, Reported) then [[]] else [];
      skippedAt := if InClass(node, Skipped) then [[]] else [];
      SelfReported(node, nodePath, old(refs), refs);
      SelfSkipped(node, nodePath, old(skipped), skipped);
      ghost var firsts: iset<Step> := iset{};
      if node.Obj? {
        firsts, at, skippedAt := WalkFields(node, nodePath, old(refs), old(skipped), at, skippedAt);
      } else if node.Arr? {
        firsts, at, skippedAt := WalkItems(node, nodePath, old(refs), old(skipped), at, skippedAt);
      }
      EnumerateAll(node, at, firsts, Reported);
      EnumerateAll(node, skippedAt, firsts, Skipped);
    }

    /** The object arm. The keys are visited in any order. */
    method WalkFields(node: Json, nodePath: string, ghost refs0: seq<Ref>, ghost skipped0: seq<SkippedRef>,
                      ghost at0: seq<Addr>, ghost skippedAt0: seq<Addr>)
      returns (ghost firsts: iset<Step>, ghost at: seq<Addr>, ghost skippedAt: seq<Addr>)
      requires node.Obj?
      requires ReportedSoFar(node, nodePath, iset{}, at0, refs0, refs)
      requires SkippedSoFar(node, nodePath, iset{}, skippedAt0, skipped0, skipped)
      modifies this
      ensures forall s :: HasChild(node, s) ==> s in firsts
      ensures ReportedSoFar(node, nodePath, firsts, at, refs0, refs)
      ensures SkippedSoFar(node, nodePath, firsts, skippedAt, skipped0, skipped)
      decreases node, 0
    {
      firsts, at, skippedAt := iset{}, at0, skippedAt0;
      var remaining := node.fields.Keys;
      while remaining != {}
        invariant remaining <= node.fields.Keys
        invariant firsts == iset k | k in node.fields && k !in remaining :: Key(k)
        invariant ReportedSoFar(node, nodePath, firsts, at, refs0, refs)
        invariant SkippedSoFar(node, nodePath, firsts, skippedAt, skipped0, skipped)
      {
        var key :| key in remaining;
        remaining := remaining - {key};
        if key == "@context" || key == "@type" {
          EnumerateSkip(node, at, firsts, Key(key), Reported);
          EnumerateSkip(node, skippedAt, firsts, Key(key), Skipped);
        } else {
          ghost var midRefs, midSkipped := refs, skipped;
          ghost var below, skippedBelow := WalkNode(node.fields[key], nodePath + ("." + key));
          ExtendReported(node, Key(key), nodePath, firsts, at, below, refs0, midRefs, refs);
          ExtendSkipped(node, Key(key), nodePath, firsts, skippedAt, skippedBelow, skipped0, midSkipped, skipped);
          at, skippedAt := at + Under(Key(key), below), skippedAt + Under(Key(key), skippedBelow);
        }
        firsts := firsts + iset{Key(key)};
      }
    }

    /** The array arm. */
    method WalkItems(node: Json, nodePath: string, ghost refs0: seq<Ref>, ghost skipped0: seq<SkippedRef>,
                     ghost at0: seq<Addr>, ghost skippedAt0: seq<Addr>)
      returns (ghost firsts: iset<Step>, ghost at: seq<Addr>, ghost skippedAt: seq<Addr>)
      requires node.Arr?
      requires ReportedSoFar(node, nodePath, iset{}, at0, refs0, refs)
      requires SkippedSoFar(node, nodePath, iset{}, skippedAt0, skipped0, skipped)
      modifies this
      ensures forall s :: HasChild(node, s) ==> s in firsts
      ensures ReportedSoFar(node, nodePath, firsts, at, refs0, refs)
      ensures SkippedSoFar(node, nodePath, firsts, skippedAt, skipped0, skipped)
      decreases node, 0
    {
      firsts, at, skippedAt := iset{}, at0, skippedAt0;
      for i := 0 to |node.items|
        invariant firsts == iset k: nat | k < i :: Idx(k)
        invariant ReportedSoFar(node, nodePath, firsts, at, refs0, refs)
        invariant SkippedSoFar(node, nodePath, firsts, skippedAt, skipped0, skipped)
      {
        ghost var midRefs, midSkipped := refs, skipped;
        ghost var below, skippedBelow := WalkNode(node.items[i], nodePath + ("[" + FormatInt(i) + "]"));
        ExtendReported(node, Idx(i), nodePath, firsts, at, below, refs0, midRefs, refs);
        ExtendSkipped(node, Idx(i), nodePath, firsts, skippedAt, skippedBelow, skipped0, midSkipped, skipped);
        at, skippedAt := at + Under(Idx(i), below), skippedAt + Under(Idx(i), skippedBelow);
        firsts := firsts + iset{Idx(i)};
      }
    }
  }

  /** The refs of all reported nodes, each once, at these addresses. */
  ghost predicate ReportsAll(root: Json, refs: seq<Ref>, at: seq<Addr>) {
    EnumeratesAll(root, at, Reported) && AllFound(root, at, Reported) && refs == RefsAt(root, at, "$")
  }

  ghost predicate SkipsAll(root: Json, skipped: seq<SkippedRef>, at: seq<Addr>) {
    EnumeratesAll(root, at, Skipped) && AllFound(root, at, Skipped) && skipped == SkippedRefsAt(root, at, "$")
  }

  /** `WalkPayload`: each versioned object is reported exactly once, with the text of its address. */
  method WalkPayload(root: Json) returns (refs: seq<Ref>, skipped: seq<SkippedRef>)
    ensures exists at :: ReportsAll(root, refs, at)
    ensures exists at :: SkipsAll(root, skipped, at)
  {
    var results := new Results();
    ghost var at, skippedAt := results.WalkNode(root, "$");
    refs, skipped := results.refs, results.skipped;
    assert ReportsAll(root, refs, at) && SkipsAll(root, skipped, skippedAt);
  }

  // ----- The reported path leads back to the object -----

  /** Every path of the payload can be printed: safe field names, no array directly inside an array,
      and arrays short enough to index. */
  predicate PrintablePayload(j: Json) {
    match j
    case Obj(m) => forall k :: k in m ==> SafeKey(k) && PrintablePayload(m[k])
    case Arr(items) =>
      |items| <= MAX_INT64 && forall i :: 0 <= i < |items| ==> !items[i].Arr? && PrintablePayload(items[i])
    case _ => true
  }

  lemma {:induction false} AddressesPrintable(j: Json, a: Addr)
    requires PrintablePayload(j) && !j.Arr? && At(j, a).Some?
    ensures Printable(a)
    decreases |a|
  {
    if a != [] {
      var child := j.fields[a[0].key];
      if |a| > 1 && a[1].Idx? {
        assert a[1..][0] == a[1] && a[1..][1..] == a[2..];
        AddressesPrintable(child.items[a[1].index], a[2..]);
      } else if |a| > 1 {
        assert a[1..][0] == a[1];
        AddressesPrintable(child, a[1..]);
      }
    }
  }

  /** A payload object seen as the single field "$" of a document, so that an absolute path is a path into it. */
  function Document(root: Json): Json {
    Obj(map["$" := root])
  }

  lemma {:induction false} RootPath(a: Addr)
    ensures RelText([Key("$")] + a) == "$" + Suffix(a)
  {
    assert ([Key("$")] + a)[1..] == a;
  }

  lemma {:induction false} DocumentPrintable(root: Json)
    requires PrintablePayload(root)
    ensures PrintablePayload(Document(root))
  {
    KeysWithoutBracketsAreSafe("$");
  }

  lemma {:induction false} DocumentAddress(root: Json, a: Addr)
    requires PrintablePayload(root) && At(root, a).Some?
    ensures Printable([Key("$")] + a) && At(Document(root), [Key("$")] + a) == At(root, a)
  {
    var full := [Key("$")] + a;
    assert full[1..] == a;
    DocumentPrintable(root);
    AddressesPrintable(Document(root), full);
  }

  /** Different objects of a payload get different paths. */
  lemma {:induction false} PathsDistinct(root: Json, at: seq<Addr>, i: nat, j: nat)
    requires PrintablePayload(root) && EnumeratesAll(root, at, Reported) && AllFound(root, at, Reported)
    requires i < j < |at|
    ensures RefsAt(root, at, "$")[i].path != RefsAt(root, at, "$")[j].path
  {
    if RefsAt(root, at, "$")[i].path == RefsAt(root, at, "$")[j].path {
      SamePathSameAddress(root, at[i], at[j]);
      assert false;
    }
  }

  lemma {:induction false} SamePathSameAddress(root: Json, a: Addr, b: Addr)
    requires PrintablePayload(root) && At(root, a).Some? && At(root, b).Some?
    requires "$" + Suffix(a) == "$" + Suffix(b)
    ensures a == b
  {
    var fullA, fullB := [Key("$")] + a, [Key("$")] + b;
    DocumentAddress(root, a);
    DocumentAddress(root, b);
    RootPath(a);
    RootPath(b);
    RelTextInjective(fullA, fullB);
    assert fullA[1..] == a && fullB[1..] == b;
  }

  const MESSAGE_PREFIX := "$.message."

  /** The path of a node strictly inside the message, stripped of the prefix, reads that node from the message. */
  lemma {:induction false} StrippedPathReadsNode(root: Json, a: Addr)
    requires PrintablePayload(root) && root.Obj? && |a| > 1 && a[0] == Key("message") && At(root, a).Some?
    requires root.fields["message"].Obj?
    ensures a[1].Key? && Printable(a[1..])
    ensures "$" + Suffix(a) == MESSAGE_PREFIX + RelText(a[1..])
    ensures TrimPrefix("$" + Suffix(a), MESSAGE_PREFIX) == RelText(a[1..])
    ensures Get(root.fields["message"], Segments(RelText(a[1..]))) == Ok(At(root, a).value)
  {
    var rest := a[1..];
    var message := root.fields["message"];
    assert At(root, a) == At(message, rest);
    assert rest[0] == a[1];
    AddressesPrintable(message, rest);
    SegmentsOfText(rest);
    GetFollowsAddress(message, rest);
    SuffixOfKey(rest);
    MessagePath(a);
    PrefixStripped(MESSAGE_PREFIX, RelText(rest));
  }

  lemma {:induction false} MessagePath(a: Addr)
    requires |a| > 1 && a[0] == Key("message") && a[1].Key?
    ensures "$" + Suffix(a) == MESSAGE_PREFIX + RelText(a[1..])
  {
    SuffixOfKey(a[1..]);
    var text := RelText(a[1..]);
    calc {
      "$" + Suffix(a);
      "$" + (".message" + ("." + text));
      MESSAGE_PREFIX + text;
    }
  }

  lemma {:induction false} PrefixStripped(p: string, text: string)
    ensures HasPrefix(p + text, p) && TrimPrefix(p + text, p) == text
  {}
}
