/** Masking and dropping the fields of an audited payload.
    audit_fields.go: buildKeepSet, ProcessAuditPayload, extractAction, walkMap, walkSlice. pii_mask.go: applyMask,
    maskLast4. */
module AuditWalk {
  import opened Text
  import opened Json

  // ----- Masks -----

  datatype Pattern = Pattern(maskType: string, mask: string)

  const DEFAULT_MASK := "[MASKED]"
  const LAST4 := "last4"

  function Stars(n: nat): (s: string)
    ensures |s| == n && forall i :: 0 <= i < n ==> s[i] == '*'
  {
    seq(n, _ => '*')
  }

  function MaskLast4(s: string): string {
    if |s| <= 4 then Stars(|s|) else Stars(|s| - 4) + s[|s| - 4..]
  }

  /** `format` stands for the `%v` rendering of values that are not strings. */
  datatype Config = Config(selective: bool, keyToPattern: map<string, Pattern>, pathOverrides: map<string, Pattern>,
                           keepPaths: map<string, set<string>>, format: Json -> string)

  function ApplyMask(j: Json, p: Pattern, format: Json -> string): Json {
    if p.maskType == LAST4 then Str(MaskLast4(if j.Str? then j.s else format(j)))
    else Str(if p.mask != "" then p.mask else DEFAULT_MASK)
  }

  lemma {:induction false} MaskLast4Twice(s: string)
    ensures MaskLast4(MaskLast4(s)) == MaskLast4(s)
  {
    var once := MaskLast4(s);
    var again := MaskLast4(once);
    assert |once| == |s| && |again| == |s|;
    assert forall i :: 0 <= i < |s| ==> again[i] == once[i];
  }

  /** Masking again changes nothing: the last four characters are kept, and all before them are stars already. */
  lemma {:induction false} MaskIdempotent(j: Json, p: Pattern, format: Json -> string)
    ensures ApplyMask(ApplyMask(j, p, format), p, format) == ApplyMask(j, p, format)
  {
    MaskLast4Twice(if j.Str? then j.s else format(j));
  }

  // ----- The walk -----

  /** The pattern that masks a field: by its name, else by its full path. */
  function PatternFor(cfg: Config, key: string, path: string): Option<Pattern> {
    if key in cfg.keyToPattern then Some(cfg.keyToPattern[key])
    else if path in cfg.pathOverrides then Some(cfg.pathOverrides[path])
    else None
  }

  /** Not dropped: masked, or no selection is in force, or selected. */
  predicate Stays(cfg: Config, keep: Option<set<string>>, prefix: string, key: string) {
    PatternFor(cfg, key, prefix + key).Some? || keep.None? || prefix + key in keep.value
  }

  function Walk(j: Json, prefix: string, cfg: Config, keep: Option<set<string>>): Json
    decreases j, 0
  {
    match j
    case Obj(fields) =>
      Obj(map k | k in fields && Stays(cfg, keep, prefix, k) :: WalkField(k, fields[k], prefix, cfg, keep))
    case Arr(items) => Arr(seq(|items|, i requires 0 <= i < |items| => Walk(items[i], prefix, cfg, keep)))
    case _ => j
  }

  function WalkField(k: string, j: Json, prefix: string, cfg: Config, keep: Option<set<string>>): Json
    decreases j, 1
  {
    var p := PatternFor(cfg, k, prefix + k);
    if p.Some? then ApplyMask(j, p.value, cfg.format) else Walk(j, prefix + k + ".", cfg, keep)
  }

  // ----- What becomes of each address -----

  /** The path prefix below an address: its field names, each followed by a dot; array positions do not show. */
  function PrefixAt(prefix: string, a: Addr): string
    decreases |a|
  {
    if a == [] then prefix
    else
      var before := PrefixAt(prefix, a[..|a| - 1]);
      match a[|a| - 1]
      case Key(k) => before + k + "."
      case Idx(_) => before
  }

  /** The path of the field that step `i` of the address enters. */
  function FieldPath(prefix: string, a: Addr, i: nat): string
    requires i < |a| && a[i].Key?
  {
    PrefixAt(prefix, a[..i]) + a[i].key
  }

  /** The pattern that masks the field step `i` enters. */
  function PatternAt(cfg: Config, prefix: string, a: Addr, i: nat): Option<Pattern>
    requires i < |a|
  {
    if a[i].Key? then PatternFor(cfg, a[i].key, FieldPath(prefix, a, i)) else None
  }

  /** The walk descends through step `i`: into an array element, or into a selected field that nothing masks. */
  predicate Passes(cfg: Config, keep: Option<set<string>>, prefix: string, a: Addr, i: nat)
    requires i < |a|
  {
    a[i].Key? ==> PatternAt(cfg, prefix, a, i).None? && (keep.None? || FieldPath(prefix, a, i) in keep.value)
  }

  ghost predicate Reached(cfg: Config, keep: Option<set<string>>, prefix: string, a: Addr, n: nat)
    requires n <= |a|
  {
    forall i :: 0 <= i < n ==> Passes(cfg, keep, prefix, a, i)
  }

  /** What an address holds after the walk, field by field and whatever the order of the fields. */
  ghost function Expected(j: Json, prefix: string, cfg: Config, keep: Option<set<string>>, a: Addr): Option<Json> {
    var n := |a|;
    if At(j, a).None? then None
    else if Reached(cfg, keep, prefix, a, n) then Some(Walk(At(j, a).value, PrefixAt(prefix, a), cfg, keep))
    else if Reached(cfg, keep, prefix, a, n - 1) && PatternAt(cfg, prefix, a, n - 1).Some?
    then Some(ApplyMask(At(j, a).value, PatternAt(cfg, prefix, a, n - 1).value, cfg.format))
    else None
  }

  lemma {:induction false} PrefixOfFirst(prefix: string, a: Addr)
    requires a != []
    ensures PrefixAt(prefix, a[..0]) == prefix
    ensures PrefixAt(prefix, a[..1]) == if a[0].Key? then prefix + a[0].key + "." else prefix
  {
    assert a[..1] == [a[0]] && a[..1][..0] == [];
  }

  lemma {:induction false} PrefixTail(prefix: string, a: Addr)
    requires a != []
    ensures PrefixAt(prefix, a) == PrefixAt(PrefixAt(prefix, a[..1]), a[1..])
    decreases |a|
  {
    var n := |a|;
    if n > 1 {
      PrefixTail(prefix, a[..n - 1]);
      assert a[..n - 1][..1] == a[..1] && a[..n - 1][1..] == a[1..][..n - 2];
      assert a[1..][n - 2] == a[n - 1];
    } else {
      assert a[..1] == a;
    }
  }

  /** Steps after the first, seen from below the first. */
  lemma {:induction false} PassesTail(cfg: Config, keep: Option<set<string>>, prefix: string, a: Addr, i: nat)
    requires 0 < i < |a|
    ensures var below := PrefixAt(prefix, a[..1]);
      && Passes(cfg, keep, prefix, a, i) == Passes(cfg, keep, below, a[1..], i - 1)
      && PatternAt(cfg, prefix, a, i) == PatternAt(cfg, below, a[1..], i - 1)
  {
    PrefixTail(prefix, a[..i]);
    assert a[..i][..1] == a[..1] && a[..i][1..] == a[1..][..i - 1];
  }

  lemma {:induction false} ReachedTail(cfg: Config, keep: Option<set<string>>, prefix: string, a: Addr, n: nat)
    requires 0 < n <= |a|
    ensures Reached(cfg, keep, prefix, a, n) <==>
      Passes(cfg, keep, prefix, a, 0) && Reached(cfg, keep, PrefixAt(prefix, a[..1]), a[1..], n - 1)
  {
    var below := PrefixAt(prefix, a[..1]);
    forall i | 0 < i < n ensures Passes(cfg, keep, prefix, a, i) == Passes(cfg, keep, below, a[1..], i - 1) {
      PassesTail(cfg, keep, prefix, a, i);
    }
    if Reached(cfg, keep, prefix, a, n) {
      forall i | 0 <= i < n - 1 ensures Passes(cfg, keep, below, a[1..], i) {
        assert Passes(cfg, keep, prefix, a, i + 1);
      }
    }
  }

  /** The walk agrees with the declarative reading at every address. */
  lemma {:induction false} WalkIsExpected(j: Json, prefix: string, cfg: Config, keep: Option<set<string>>, a: Addr)
    ensures At(Walk(j, prefix, cfg, keep), a) == Expected(j, prefix, cfg, keep, a)
    decreases |a|, 1
  {
    if a == [] {
      assert Reached(cfg, keep, prefix, a, 0);
    } else {
      PrefixOfFirst(prefix, a);
      match a[0]
      case Key(k) =>
        if j.Obj? && k in j.fields {
          KeyStep(j, prefix, cfg, keep, a);
        }
      case Idx(i) =>
        if j.Arr? && i < |j.items| {
          WalkIsExpected(j.items[i], prefix, cfg, keep, a[1..]);
          StepIn(j, j.items[i], prefix, cfg, keep, a);
        }
    }
  }

  /** Below a step the walk passes, what is expected is what is expected from there on. */
  lemma {:induction false} StepIn(j: Json, child: Json, prefix: string, cfg: Config, keep: Option<set<string>>, a: Addr)
    requires a != [] && At(j, a[..1]) == Some(child) && Passes(cfg, keep, prefix, a, 0)
    ensures Expected(j, prefix, cfg, keep, a) == Expected(child, PrefixAt(prefix, a[..1]), cfg, keep, a[1..])
  {
    var n := |a|;
    assert a == a[..1] + a[1..];
    AtConcat(j, a[..1], a[1..]);
    ReachedTail(cfg, keep, prefix, a, n);
    PrefixTail(prefix, a);
    if n > 1 {
      ReachedTail(cfg, keep, prefix, a, n - 1);
      PassesTail(cfg, keep, prefix, a, n - 1);
    } else {
      assert Reached(cfg, keep, prefix, a, n);
    }
  }

  lemma {:induction false} KeyStep(j: Json, prefix: string, cfg: Config, keep: Option<set<string>>, a: Addr)
    requires a != [] && a[0].Key? && j.Obj? && a[0].key in j.fields
    ensures At(Walk(j, prefix, cfg, keep), a) == Expected(j, prefix, cfg, keep, a)
    decreases |a|, 0
  {
    var k, child := a[0].key, j.fields[a[0].key];
    PrefixOfFirst(prefix, a);
    assert At(j, a[..1]) == Some(child) by { assert a[..1][1..] == []; }
    if Passes(cfg, keep, prefix, a, 0) {
      WalkIsExpected(child, prefix + k + ".", cfg, keep, a[1..]);
      StepIn(j, child, prefix, cfg, keep, a);
    } else {
      assert !Reached(cfg, keep, prefix, a, |a|);
      assert |a| > 1 ==> !Reached(cfg, keep, prefix, a, |a| - 1);
      assert |a| == 1 ==> Reached(cfg, keep, prefix, a, 0);
      assert |a| == 1 ==> a[1..] == [];
    }
  }

  // ----- What survives -----

  /** A surviving field with a mask key for its name is masked, at any depth and inside any arrays. */
  lemma {:induction false} MaskedAtEveryDepth(j: Json, prefix: string, cfg: Config, keep: Option<set<string>>, a: Addr)
    requires a != [] && a[|a| - 1].Key? && a[|a| - 1].key in cfg.keyToPattern
    requires At(Walk(j, prefix, cfg, keep), a).Some?
    ensures At(j, a).Some?
    ensures At(Walk(j, prefix, cfg, keep), a).value ==
      ApplyMask(At(j, a).value, cfg.keyToPattern[a[|a| - 1].key], cfg.format)
  {
    WalkIsExpected(j, prefix, cfg, keep, a);
    assert !Passes(cfg, keep, prefix, a, |a| - 1);
  }

  // ----- What is left to read -----

  /** The text with every character before its last four starred, and with all of them starred if it has no more than
      four. */
  predicate OnlyLast4(shown: string, text: string) {
    |shown| == |text| &&
    forall i :: 0 <= i < |text| ==> shown[i] == if 4 < |text| && |text| - 4 <= i then text[i] else '*'
  }

  /** All that a pattern lets through of a value: the last four characters of its text, or nothing of it. */
  predicate Hides(shown: Json, x: Json, p: Pattern, format: Json -> string) {
    if p.maskType == "last4" then shown.Str? && OnlyLast4(shown.s, if x.Str? then x.s else format(x))
    else shown == Str(if p.mask == "" then "[MASKED]" else p.mask)
  }

  /** Applying a mask hides what the pattern says. */
  lemma {:induction false} MaskHides(j: Json, p: Pattern, format: Json -> string)
    ensures Hides(ApplyMask(j, p, format), j, p, format)
  {
    Last4Shown(if j.Str? then j.s else format(j));
  }

  lemma {:induction false} Last4Shown(text: string)
    ensures OnlyLast4(MaskLast4(text), text)
  {}

  /** What an address of the outcome may show of the payload `j`: a field with a mask for its name, or else for its
      path, what that mask lets through; a field without one, and an array element, its value if that is a scalar, and
      an object or an array only where there was one. */
  ghost predicate ShowsNoMore(j: Json, out: Json, prefix: string, cfg: Config, a: Addr)
    requires a != []
  {
    At(out, a).Some? ==>
    At(j, a).Some? &&
    var shown, x, step := At(out, a).value, At(j, a).value, a[|a| - 1];
    if step.Key? && step.key in cfg.keyToPattern then Hides(shown, x, cfg.keyToPattern[step.key], cfg.format)
    else if step.Key? && FieldPath(prefix, a, |a| - 1) in cfg.pathOverrides
    then Hides(shown, x, cfg.pathOverrides[FieldPath(prefix, a, |a| - 1)], cfg.format)
    else if x.Obj? then shown.Obj? else if x.Arr? then shown.Arr? && |shown.items| == |x.items| else shown == x
  }

  /** At every address and whatever is selected, the walk shows no more. */
  lemma {:induction false} WalkShowsNoMore(j: Json, prefix: string, cfg: Config, keep: Option<set<string>>, a: Addr)
    requires a != []
    ensures ShowsNoMore(j, Walk(j, prefix, cfg, keep), prefix, cfg, a)
  {
    WalkIsExpected(j, prefix, cfg, keep, a);
    var p := PatternAt(cfg, prefix, a, |a| - 1);
    if p.Some? && At(j, a).Some? {
      assert !Passes(cfg, keep, prefix, a, |a| - 1);
      MaskHides(At(j, a).value, p.value, cfg.format);
    }
  }

  /** Under a selection, every other surviving field is selected or masked by its path. */
  lemma {:induction false} SurvivorsAreSelected(j: Json, prefix: string, cfg: Config, keep: set<string>, a: Addr)
    requires a != [] && a[|a| - 1].Key? && a[|a| - 1].key !in cfg.keyToPattern
    requires At(Walk(j, prefix, cfg, Some(keep)), a).Some?
    ensures var path := FieldPath(prefix, a, |a| - 1); path in keep || path in cfg.pathOverrides
  {
    WalkIsExpected(j, prefix, cfg, Some(keep), a);
    if Reached(cfg, Some(keep), prefix, a, |a|) {
      assert Passes(cfg, Some(keep), prefix, a, |a| - 1);
    }
  }

  /** Without a selection nothing is lost but what lies inside a masked value. */
  lemma {:induction false} FullModeKeepsAll(j: Json, prefix: string, cfg: Config, a: Addr)
    ensures At(Walk(j, prefix, cfg, None), a).Some? <==>
      At(j, a).Some? && forall i :: 0 <= i < |a| - 1 ==> PatternAt(cfg, prefix, a, i).None?
  {
    WalkIsExpected(j, prefix, cfg, None, a);
    if a != [] {
      assert forall i :: 0 <= i < |a| ==> (Passes(cfg, None, prefix, a, i) <==> PatternAt(cfg, prefix, a, i).None?);
    }
  }

  /** Walking the result again changes nothing. */
  lemma {:induction false} WalkIdempotent(j: Json, prefix: string, cfg: Config, keep: Option<set<string>>)
    ensures var out := Walk(j, prefix, cfg, keep); Walk(out, prefix, cfg, keep) == out
    decreases j
  {
    var out := Walk(j, prefix, cfg, keep);
    match j
    case Obj(fields) =>
      var again := Walk(out, prefix, cfg, keep);
      forall k | k in out.fields ensures again.fields[k] == out.fields[k] {
        var p := PatternFor(cfg, k, prefix + k);
        assert out.fields[k] == WalkField(k, fields[k], prefix, cfg, keep);
        assert again.fields[k] == WalkField(k, out.fields[k], prefix, cfg, keep);
        if p.Some? {
          MaskIdempotent(fields[k], p.value, cfg.format);
        } else {
          WalkIdempotent(fields[k], prefix + k + ".", cfg, keep);
        }
      }
      assert again.fields == out.fields;
    case Arr(items) =>
      forall i | 0 <= i < |items| ensures Walk(out.items[i], prefix, cfg, keep) == out.items[i] {
        WalkIdempotent(items[i], prefix, cfg, keep);
      }
      assert Walk(out, prefix, cfg, keep).items == out.items;
    case _ =>
  }

  // ----- The keep set -----

  /** `g` is `f` or what stands before one of its dots. */
  predicate IsAncestorOrSelf(g: string, f: string) {
    |g| <= |f| && f[..|g|] == g && (|g| == |f| || f[|g|] == '.')
  }

  function AncestorsOf(f: string): set<string> {
    set n | 0 <= n <= |f| && IsAncestorOrSelf(f[..n], f) :: f[..n]
  }

  /** The listed paths and all their dot-ancestors. */
  function KeepSet(fields: seq<string>): (keep: set<string>)
    ensures forall g :: g in keep <==> exists f :: f in fields && IsAncestorOrSelf(g, f)
  {
    if fields == [] then {}
    else
      assert forall f :: f in fields <==> f in fields[..|fields| - 1] || f == fields[|fields| - 1];
      KeepSet(fields[..|fields| - 1]) + AncestorsOf(fields[|fields| - 1])
  }

  /** The first parts of a dotted path, joined again: exactly what stands before one of its dots. */
  lemma {:induction false} JoinedPartsAreAncestors(f: string, i: nat)
    requires 1 <= i < |Split(f, '.')|
    ensures IsAncestorOrSelf(Join(Split(f, '.')[..i], '.'), f)
  {
    var parts := Split(f, '.');
    JoinSplit(f, '.');
    assert parts == parts[..i] + parts[i..];
    JoinConcat(parts[..i], parts[i..], '.');
  }

  lemma {:induction false} AncestorsAreJoinedParts(g: string, f: string)
    requires IsAncestorOrSelf(g, f) && g != f
    ensures var i := |Split(g, '.')|; 1 <= i < |Split(f, '.')| && Join(Split(f, '.')[..i], '.') == g
  {
    var rest := f[|g| + 1..];
    assert f == g + ['.'] + rest;
    SplitConcat(g, rest, '.');
    JoinSplit(g, '.');
    assert Split(f, '.')[..|Split(g, '.')|] == Split(g, '.');
  }

  method BuildKeepSet(fields: seq<string>) returns (keep: set<string>)
    ensures forall g :: g in keep <==> exists f :: f in fields && IsAncestorOrSelf(g, f)
  {
    keep := {};
    for k := 0 to |fields|
      invariant keep == KeepSet(fields[..k])
    {
      var f := fields[k];
      keep := keep + {f};
      var parts := Split(f, '.');
      for i := 1 to |parts|
        invariant keep == KeepSet(fields[..k]) + {f} + (set n | 1 <= n < i :: Join(parts[..n], '.'))
      {
        keep := keep + {Join(parts[..i], '.')};
      }
      AllAncestors(f);
      assert fields[..k + 1][..k] == fields[..k];
    }
    assert fields[..|fields|] == fields;
  }

  lemma {:induction false} AllAncestors(f: string)
    ensures var parts := Split(f, '.');
      {f} + (set n | 1 <= n < |parts| :: Join(parts[..n], '.')) == AncestorsOf(f)
  {
    var parts := Split(f, '.');
    var joined := set n | 1 <= n < |parts| :: Join(parts[..n], '.');
    forall g | g in joined ensures g in AncestorsOf(f) {
      var n :| 1 <= n < |parts| && g == Join(parts[..n], '.');
      JoinedPartsAreAncestors(f, n);
      assert g == f[..|g|];
    }
    forall g | g in AncestorsOf(f) && g != f ensures g in joined {
      AncestorsAreJoinedParts(g, f);
      assert 1 <= |Split(g, '.')| < |parts|;
    }
    assert f in AncestorsOf(f) by { assert f == f[..|f|] && IsAncestorOrSelf(f[..|f|], f); }
  }

  // ----- Listed fields survive -----

  lemma {:induction false} PrefixGrows(prefix: string, a: Addr, n: nat, m: nat)
    requires n <= m <= |a|
    ensures HasPrefix(PrefixAt(prefix, a[..m]), PrefixAt(prefix, a[..n]))
    decreases m
  {
    if n < m {
      PrefixGrows(prefix, a, n, m - 1);
      assert a[..m][..m - 1] == a[..m - 1];
    }
  }

  lemma {:induction false} FieldsOnTheWay(prefix: string, a: Addr, i: nat, m: nat)
    requires i < m < |a| && a[i].Key? && a[m].Key?
    ensures IsAncestorOrSelf(FieldPath(prefix, a, i), FieldPath(prefix, a, m))
  {
    assert a[..i + 1][..i] == a[..i];
    assert PrefixAt(prefix, a[..i + 1]) == FieldPath(prefix, a, i) + ".";
    PrefixGrows(prefix, a, i + 1, m);
  }

  /** A listed field that the payload has, with nothing masked above it, survives: masked if a mask applies to it, else
      with what the walk leaves of its value, which for a scalar is the value itself. */
  lemma {:induction false} ListedFieldSurvives(j: Json, prefix: string, cfg: Config, fields: seq<string>, a: Addr)
    requires a != [] && a[|a| - 1].Key? && At(j, a).Some?
    requires FieldPath(prefix, a, |a| - 1) in fields
    requires forall i :: 0 <= i < |a| - 1 ==> PatternAt(cfg, prefix, a, i).None?
    ensures var p, x := PatternAt(cfg, prefix, a, |a| - 1), At(j, a).value;
      At(Walk(j, prefix, cfg, Some(KeepSet(fields))), a) ==
        Some(if p.Some? then ApplyMask(x, p.value, cfg.format)
             else if x.Obj? || x.Arr? then Walk(x, PrefixAt(prefix, a), cfg, Some(KeepSet(fields))) else x)
  {
    var keep, m := Some(KeepSet(fields)), |a| - 1;
    WalkIsExpected(j, prefix, cfg, keep, a);
    ListedIsReached(prefix, cfg, fields, a);
    assert PatternAt(cfg, prefix, a, m).None? <==> Passes(cfg, keep, prefix, a, m);
  }

  /** The walk passes everything above a listed field. */
  lemma {:induction false} ListedIsReached(prefix: string, cfg: Config, fields: seq<string>, a: Addr)
    requires a != [] && a[|a| - 1].Key? && FieldPath(prefix, a, |a| - 1) in fields
    requires forall i :: 0 <= i < |a| - 1 ==> PatternAt(cfg, prefix, a, i).None?
    ensures Reached(cfg, Some(KeepSet(fields)), prefix, a, |a| - 1)
    ensures FieldPath(prefix, a, |a| - 1) in KeepSet(fields)
  {
    var m := |a| - 1;
    var path := FieldPath(prefix, a, m);
    assert IsAncestorOrSelf(path, path);
    forall i | 0 <= i < m ensures Passes(cfg, Some(KeepSet(fields)), prefix, a, i) {
      if a[i].Key? {
        FieldsOnTheWay(prefix, a, i, m);
        assert IsAncestorOrSelf(FieldPath(prefix, a, i), path);
      }
    }
  }

  // ----- A whole payload -----

  const DEFAULT_ACTION := "default"
  const CONTEXT := "context"
  const ACTION := "action"

  function Field(j: Json, key: string): Option<Json> {
    if j.Obj? && key in j.fields then Some(j.fields[key]) else None
  }

  function ExtractAction(root: Json): string {
    var context := Field(root, CONTEXT);
    var action := if context.Some? then Field(context.value, ACTION) else None;
    if action.Some? && action.value.Str? then TrimSpace(action.value.s) else ""
  }

  function KeepFor(cfg: Config, root: Json): Option<set<string>> {
    var action := ExtractAction(root);
    if !cfg.selective then None
    else if action in cfg.keepPaths then Some(cfg.keepPaths[action])
    else if DEFAULT_ACTION in cfg.keepPaths then Some(cfg.keepPaths[DEFAULT_ACTION])
    else None
  }

  /** `ProcessAuditPayload` on a body that parses; one that is not an object is left as it is. */
  function Process(cfg: Config, body: Json): Json {
    if body.Obj? then Walk(body, "", cfg, KeepFor(cfg, body)) else body
  }

  /** The action can still be read from the processed payload: it is selected and nothing masks it. */
  predicate ActionStays(cfg: Config, keep: Option<set<string>>) {
    && PatternFor(cfg, CONTEXT, CONTEXT).None? && PatternFor(cfg, ACTION, CONTEXT + "." + ACTION).None?
    && (keep.None? || (CONTEXT in keep.value && CONTEXT + "." + ACTION in keep.value))
  }

  lemma {:induction false} FieldWalked(j: Json, key: string, prefix: string, path: string, cfg: Config,
                                       keep: Option<set<string>>)
    requires path == prefix + key && PatternFor(cfg, key, path).None? && (keep.None? || path in keep.value)
    ensures var field := Field(j, key);
      Field(Walk(j, prefix, cfg, keep), key) ==
        if field.Some? then Some(Walk(field.value, path + ".", cfg, keep)) else None
  {}

  lemma {:induction false} ActionSurvives(cfg: Config, body: Json, keep: Option<set<string>>)
    requires ActionStays(cfg, keep)
    ensures ExtractAction(Walk(body, "", cfg, keep)) == ExtractAction(body)
  {
    assert "" + CONTEXT == CONTEXT;
    FieldWalked(body, CONTEXT, "", CONTEXT, cfg, keep);
    var context := Field(body, CONTEXT);
    if context.Some? {
      FieldWalked(context.value, ACTION, CONTEXT + ".", CONTEXT + "." + ACTION, cfg, keep);
    }
  }

  /** Processing twice is processing once, as long as the action that chose the selection is not itself lost. */
  lemma {:induction false} ProcessTwice(cfg: Config, body: Json)
    requires body.Obj? && cfg.selective ==> ActionStays(cfg, KeepFor(cfg, body))
    ensures Process(cfg, Process(cfg, body)) == Process(cfg, body)
  {
    if body.Obj? {
      var keep := KeepFor(cfg, body);
      if cfg.selective {
        ActionSurvives(cfg, body, keep);
      }
      WalkIdempotent(body, "", cfg, keep);
    }
  }

  // ----- What a record shows, and of which fields -----

  /** The path may be recorded unmasked: no selection is in force, or the one for the action, or else the default one,
      lists it. */
  predicate Selects(cfg: Config, action: string, path: string) {
    !cfg.selective ||
    if action in cfg.keepPaths then path in cfg.keepPaths[action]
    else "default" in cfg.keepPaths ==> path in cfg.keepPaths["default"]
  }

  /** The field that step `i` enters is in a selection, as far as there is one. */
  predicate SelectedAt(cfg: Config, action: string, a: Addr, i: nat)
    requires i < |a|
  {
    a[i].Key? ==> Selects(cfg, action, FieldPath("", a, i))
  }

  /** What the payload says it is about. */
  function StatedAction(body: Json): string {
    var stated := At(body, [Key("context"), Key("action")]);
    if stated.Some? && stated.value.Str? then TrimSpace(stated.value.s) else ""
  }

  lemma {:induction false} ActionStated(body: Json)
    ensures ExtractAction(body) == StatedAction(body)
  {
    var a := [Key("context"), Key("action")];
    assert a[1..] == [Key("action")] && a[1..][1..] == [];
    var context := At(body, [Key("context")]);
    assert [Key("context")][1..] == [];
  }

  lemma {:induction false} KeepsWhatIsSelected(cfg: Config, body: Json, path: string)
    ensures var keep := KeepFor(cfg, body);
      keep.None? || path in keep.value <==> Selects(cfg, StatedAction(body), path)
  {
    ActionStated(body);
  }

  /** A record holds an address exactly when the payload does, nothing above it is masked or left out of the selection
      for the stated action, and it is itself masked or not left out. */
  lemma {:induction false} RecordedIff(cfg: Config, body: Json, a: Addr)
    requires body.Obj? && a != []
    ensures var action, m := StatedAction(body), |a| - 1;
      At(Process(cfg, body), a).Some? <==>
      && At(body, a).Some?
      && (forall i :: 0 <= i < m ==> PatternAt(cfg, "", a, i).None? && SelectedAt(cfg, action, a, i))
      && (PatternAt(cfg, "", a, m).Some? || SelectedAt(cfg, action, a, m))
  {
    var keep, action := KeepFor(cfg, body), StatedAction(body);
    WalkIsExpected(body, "", cfg, keep, a);
    forall i | 0 <= i < |a|
      ensures Passes(cfg, keep, "", a, i) <==> PatternAt(cfg, "", a, i).None? && SelectedAt(cfg, action, a, i)
    {
      if a[i].Key? {
        KeepsWhatIsSelected(cfg, body, FieldPath("", a, i));
      }
    }
  }

  /** A record shows no more of its payload than the masks let through. */
  lemma {:induction false} RecordShowsNoMore(cfg: Config, body: Json, a: Addr)
    requires body.Obj? && a != []
    ensures ShowsNoMore(body, Process(cfg, body), "", cfg, a)
  {
    WalkShowsNoMore(body, "", cfg, KeepFor(cfg, body), a);
  }
}
