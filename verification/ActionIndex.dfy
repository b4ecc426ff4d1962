/** The merged index of actions over all loaded specs, replaced as a whole on every successful load.
    schemav2validator.go: loadAllSpecs, loadSingleSpec, loadSpecFromDir, reloadAllSpecs, the index lookups of
    Validate. */
module ActionIndex {
  import opened Text

  /** The action index of a document: schemas of actions with a body, and actions without one. */
  datatype Spec<S> = Spec(body: map<string, S>, bodyless: set<string>)

  /** An entry of a directory; no content when it cannot be loaded. */
  datatype File<S> = File(name: string, isDir: bool, content: Option<Spec<S>>)

  /** A document, or a directory of documents; None where it cannot be read. */
  datatype Source<S> = Document(content: Option<Spec<S>>) | Directory(files: Option<seq<File<S>>>)

  function Empty<S>(): Spec<S> {
    Spec(map[], {})
  }

  function Joined<S>(a: Spec<S>, b: Spec<S>): Spec<S> {
    Spec(a.body + b.body, a.bodyless + b.bodyless)
  }

  predicate Disjoint<S>(a: Spec<S>, b: Spec<S>) {
    a.body.Keys !! b.body.Keys && a.bodyless !! b.bodyless
  }

  function Union<S>(specs: seq<Spec<S>>): Spec<S> {
    if specs == [] then Empty() else Joined(Union(specs[..|specs| - 1]), specs[|specs| - 1])
  }

  ghost predicate PairwiseDisjoint<S>(specs: seq<Spec<S>>) {
    forall i, j :: 0 <= i < j < |specs| ==> Disjoint(specs[i], specs[j])
  }

  // ----- What a union holds -----

  lemma {:induction false} UnionKeys<S(!new)>(specs: seq<Spec<S>>, action: string)
    ensures action in Union(specs).body <==> exists i :: 0 <= i < |specs| && action in specs[i].body
    ensures action in Union(specs).bodyless <==> exists i :: 0 <= i < |specs| && action in specs[i].bodyless
  {
    if specs != [] {
      var front := specs[..|specs| - 1];
      UnionKeys(front, action);
      assert forall i :: 0 <= i < |front| ==> front[i] == specs[i];
    }
  }

  /** Without collisions the union gives an action exactly the schema of the one spec that defines it. */
  lemma {:induction false} UnionIff<S(!new)>(specs: seq<Spec<S>>, action: string, schema: S)
    requires PairwiseDisjoint(specs)
    ensures action in Union(specs).body && Union(specs).body[action] == schema <==>
            exists i :: 0 <= i < |specs| && action in specs[i].body && specs[i].body[action] == schema
  {
    if specs != [] {
      var n := |specs| - 1;
      var front := specs[..n];
      UnionIff(front, action, schema);
      UnionKeys(front, action);
      assert forall i :: 0 <= i < |front| ==> front[i] == specs[i];
      assert forall i :: 0 <= i < n && action in specs[i].body ==> action !in specs[n].body by {
        assert forall i :: 0 <= i < n ==> Disjoint(specs[i], specs[n]);
      }
    }
  }

  lemma {:induction false} OneMoreSpec<S(!new)>(specs: seq<Spec<S>>, spec: Spec<S>)
    requires PairwiseDisjoint(specs)
    ensures PairwiseDisjoint(specs + [spec]) <==> Disjoint(Union(specs), spec)
    ensures Union(specs + [spec]) == Joined(Union(specs), spec)
  {
    var longer := specs + [spec];
    assert longer[..|specs|] == specs;
    assert forall i :: 0 <= i < |specs| ==> longer[i] == specs[i];
    assert longer[|specs|] == spec;
    forall action ensures action in Union(specs).body <==> exists i :: 0 <= i < |specs| && action in specs[i].body {
      UnionKeys(specs, action);
    }
    forall action ensures action in Union(specs).bodyless <==>
        exists i :: 0 <= i < |specs| && action in specs[i].bodyless {
      UnionKeys(specs, action);
    }
    if Disjoint(Union(specs), spec) {
      forall i | 0 <= i < |specs| ensures Disjoint(specs[i], spec) {}
    }
    if PairwiseDisjoint(longer) {
      forall i | 0 <= i < |specs| ensures Disjoint(specs[i], spec) { assert Disjoint(longer[i], longer[|specs|]); }
    }
  }

  lemma {:induction false} TwoPlaces<T>(s: seq<T>, x: T)
    ensures multiset(s)[x] >= 1 <==> exists k :: 0 <= k < |s| && s[k] == x
    ensures multiset(s)[x] >= 2 <==> exists k, l :: 0 <= k < l < |s| && s[k] == x && s[l] == x
  {
    if s != [] {
      var n := |s| - 1;
      TwoPlaces(s[..n], x);
      assert s == s[..n] + [s[n]];
      assert forall k :: 0 <= k < n ==> s[..n][k] == s[k];
    }
  }

  lemma {:induction false} DisjointReordered<S(!new)>(specs: seq<Spec<S>>, specs': seq<Spec<S>>)
    requires multiset(specs) == multiset(specs') && PairwiseDisjoint(specs)
    ensures PairwiseDisjoint(specs')
  {
    forall i, j | 0 <= i < j < |specs'| ensures Disjoint(specs'[i], specs'[j]) {
      var x, y := specs'[i], specs'[j];
      TwoPlaces(specs, x);
      TwoPlaces(specs', x);
      TwoPlaces(specs, y);
      TwoPlaces(specs', y);
      if x != y {
        var k :| 0 <= k < |specs| && specs[k] == x;
        var l :| 0 <= l < |specs| && specs[l] == y;
        assert k < l ==> Disjoint(specs[k], specs[l]);
        assert l < k ==> Disjoint(specs[l], specs[k]);
      }
    }
  }

  /** The order of the specs matters neither to whether they collide nor to what they merge to. */
  lemma {:induction false} OrderIrrelevant<S(!new)>(specs: seq<Spec<S>>, specs': seq<Spec<S>>)
    requires multiset(specs) == multiset(specs')
    ensures PairwiseDisjoint(specs) <==> PairwiseDisjoint(specs')
    ensures PairwiseDisjoint(specs) ==> Union(specs) == Union(specs')
  {
    if PairwiseDisjoint(specs) {
      DisjointReordered(specs, specs');
      SameUnion(specs, specs');
    }
    if PairwiseDisjoint(specs') {
      DisjointReordered(specs', specs);
    }
  }

  lemma {:induction false} SameUnion<S(!new)>(specs: seq<Spec<S>>, specs': seq<Spec<S>>)
    requires multiset(specs) == multiset(specs') && PairwiseDisjoint(specs) && PairwiseDisjoint(specs')
    ensures Union(specs) == Union(specs')
  {
    var u, u' := Union(specs), Union(specs');
    forall i | 0 <= i < |specs| ensures specs[i] in specs' {
      assert specs[i] in multiset(specs);
    }
    forall i | 0 <= i < |specs'| ensures specs'[i] in specs {
      assert specs'[i] in multiset(specs');
    }
    forall action ensures (action in u.body <==> action in u'.body) &&
        (action in u.bodyless <==> action in u'.bodyless) {
      UnionKeys(specs, action);
      UnionKeys(specs', action);
    }
    forall action | action in u.body ensures u'.body[action] == u.body[action] {
      UnionIff(specs, action, u.body[action]);
      UnionIff(specs', action, u.body[action]);
    }
    assert u.body == u'.body;
  }

  // ----- Loading -----

  predicate IsSpecFile<S>(f: File<S>) {
    !f.isDir && (HasSuffix(f.name, ".yaml") || HasSuffix(f.name, ".yml") || HasSuffix(f.name, ".json"))
  }

  /** A spec file is told by the end of its name. */
  lemma {:induction false} SpecFileIff<S>(f: File<S>)
    ensures IsSpecFile(f) <==>
      !f.isDir && (EndsIn(f.name, ".yaml") || EndsIn(f.name, ".yml") || EndsIn(f.name, ".json"))
  {
    SuffixIff(f.name, ".yaml");
    SuffixIff(f.name, ".yml");
    SuffixIff(f.name, ".json");
  }

  lemma {:induction false} SuffixIff(name: string, extension: string)
    ensures HasSuffix(name, extension) <==> EndsIn(name, extension)
  {
    if HasSuffix(name, extension) {
      var n := |name| - |extension|;
      assert name == name[..n] + extension;
    }
    forall stem | name == stem + extension ensures HasSuffix(name, extension) {
      assert name[|stem|..] == extension;
    }
  }

  ghost predicate EndsIn(name: string, extension: string) {
    exists stem :: name == stem + extension
  }

  /** What `f` gives of each, in order; nothing where it gives None. */
  ghost function Gather<T(!new), U(!new)>(f: T -> Option<U>, xs: seq<T>): seq<U> {
    if xs == [] then []
    else
      var front, last := Gather(f, xs[..|xs| - 1]), f(xs[|xs| - 1]);
      if last.Some? then front + [last.value] else front
  }

  function FileSpec<S>(f: File<S>): Option<Spec<S>> {
    if IsSpecFile(f) then f.content else None
  }

  /** The contents of a directory's spec files that load; the others are skipped. */
  ghost function Contents<S(!new)>(files: seq<File<S>>): seq<Spec<S>> {
    Gather(FileSpec, files)
  }

  /** What a source gives: a directory gives the union of its files, unless they collide. */
  ghost function Load<S(!new)>(s: Source<S>): Option<Spec<S>> {
    match s
    case Document(content) => content
    case Directory(None) => None
    case Directory(Some(files)) =>
      if PairwiseDisjoint(Contents(files)) then Some(Union(Contents(files))) else None
  }

  /** The specs that take part in a load, in order. */
  ghost function Loaded<S(!new)>(primary: Option<Source<S>>, auxiliary: seq<Source<S>>): seq<Spec<S>> {
    (if primary.Some? && Load(primary.value).Some? then [Load(primary.value).value] else []) + Gather(Load, auxiliary)
  }

  /** All that has to load does, and nothing that loads collides. */
  ghost predicate LoadsCleanly<S(!new)>(primary: Option<Source<S>>, auxiliary: seq<Source<S>>, failOnAuxError: bool) {
    && (primary.Some? ==> Load(primary.value).Some?)
    && (failOnAuxError ==> forall s :: s in auxiliary ==> Load(s).Some?)
    && PairwiseDisjoint(Loaded(primary, auxiliary))
  }

  /** A load succeeds exactly when the primary spec loads, on a reload every auxiliary one does, no two that load
      collide, and there is some action at all. */
  ghost predicate Succeeds<S(!new)>(primary: Option<Source<S>>, auxiliary: seq<Source<S>>, failOnAuxError: bool) {
    LoadsCleanly(primary, auxiliary, failOnAuxError) && Union(Loaded(primary, auxiliary)) != Empty()
  }

  /** One attempt at loading. */
  datatype Attempt<S> = Attempt(primary: Option<Source<S>>, auxiliary: seq<Source<S>>, failOnAuxError: bool)

  ghost predicate GoesThrough<S(!new)>(a: Attempt<S>) {
    Succeeds(a.primary, a.auxiliary, a.failOnAuxError)
  }

  /** What is visible after a run of attempts: the union of the last one that succeeded. */
  ghost function Visible<S(!new)>(attempts: seq<Attempt<S>>): Option<Spec<S>> {
    if attempts == [] then None
    else
      var last := attempts[|attempts| - 1];
      if GoesThrough(last) then Some(Union(Loaded(last.primary, last.auxiliary)))
      else Visible(attempts[..|attempts| - 1])
  }

  /** Both maps come from one complete load of the run: some attempt succeeded, none after it did, and they are its
      union. */
  lemma {:induction false} VisibleIsOneLoad<S(!new)>(attempts: seq<Attempt<S>>) returns (k: nat)
    ensures Visible(attempts).None? <==> forall i :: 0 <= i < |attempts| ==> !GoesThrough(attempts[i])
    ensures Visible(attempts).Some? ==>
      && k < |attempts| && GoesThrough(attempts[k]) && (forall i :: k < i < |attempts| ==> !GoesThrough(attempts[i]))
      && Visible(attempts).value == Union(Loaded(attempts[k].primary, attempts[k].auxiliary))
  {
    k := 0;
    if attempts != [] {
      var n := |attempts| - 1;
      if GoesThrough(attempts[n]) {
        k := n;
      } else {
        k := VisibleIsOneLoad(attempts[..n]);
        assert forall i :: 0 <= i < n ==> attempts[..n][i] == attempts[i];
      }
    }
  }

  lemma {:induction false} GatherConcat<T(!new), U(!new)>(f: T -> Option<U>, a: seq<T>, b: seq<T>)
    ensures Gather(f, a + b) == Gather(f, a) + Gather(f, b)
    decreases |b|
  {
    if b == [] {
      assert a + b == a;
    } else {
      var n := |b| - 1;
      assert (a + b)[..|a + b| - 1] == a + b[..n];
      GatherConcat(f, a, b[..n]);
    }
  }

  lemma {:induction false} GatherOne<T(!new), U(!new)>(f: T -> Option<U>, x: T)
    ensures Gather(f, [x]) == if f(x).Some? then [f(x).value] else []
  {
    assert [x][..0] == [];
  }

  /** Reordering what is gathered from reorders what is gathered. */
  lemma {:induction false} GatherReordered<T(!new), U(!new)>(f: T -> Option<U>, xs: seq<T>, ys: seq<T>)
    requires multiset(xs) == multiset(ys)
    ensures multiset(Gather(f, xs)) == multiset(Gather(f, ys))
    decreases |xs|
  {
    if xs == [] {
      assert |ys| == |multiset(ys)| == 0;
    } else {
      var n := |xs| - 1;
      var x := xs[n];
      assert xs == xs[..n] + [x];
      assert x in multiset(xs);
      var k :| 0 <= k < |ys| && ys[k] == x;
      var rest := ys[..k] + ys[k + 1..];
      assert ys == ys[..k] + ([x] + ys[k + 1..]);
      assert multiset(rest) == multiset(ys) - multiset{x} == multiset(xs[..n]);
      GatherReordered(f, xs[..n], rest);
      GatherConcat(f, ys[..k], [x] + ys[k + 1..]);
      GatherConcat(f, [x], ys[k + 1..]);
      GatherConcat(f, ys[..k], ys[k + 1..]);
      GatherConcat(f, xs[..n], [x]);
    }
  }

  lemma {:induction false} ContentsAppended<S(!new)>(files: seq<File<S>>, f: File<S>)
    ensures Contents(files + [f]) == Contents(files) +
      if IsSpecFile(f) && f.content.Some? then [f.content.value] else []
  {
    GatherConcat(FileSpec, files, [f]);
    GatherOne(FileSpec, f);
  }

  /** In whatever order a directory's files come, it loads the same. */
  lemma {:induction false} FileOrderIrrelevant<S(!new)>(files: seq<File<S>>, files': seq<File<S>>)
    requires multiset(files) == multiset(files')
    ensures Load(Directory(Some(files))) == Load(Directory(Some(files')))
  {
    GatherReordered(FileSpec, files, files');
    OrderIrrelevant(Contents(files), Contents(files'));
  }

  /** In whatever order the auxiliary specs are listed, a load succeeds or fails alike, and gives the same index. */
  lemma {:induction false} AuxiliaryOrderIrrelevant<S(!new)>(primary: Option<Source<S>>, auxiliary: seq<Source<S>>,
                                                             auxiliary': seq<Source<S>>, failOnAuxError: bool)
    requires multiset(auxiliary) == multiset(auxiliary')
    ensures Succeeds(primary, auxiliary, failOnAuxError) <==> Succeeds(primary, auxiliary', failOnAuxError)
    ensures Succeeds(primary, auxiliary, failOnAuxError) ==>
      Union(Loaded(primary, auxiliary)) == Union(Loaded(primary, auxiliary'))
  {
    GatherReordered(Load, auxiliary, auxiliary');
    OrderIrrelevant(Loaded(primary, auxiliary), Loaded(primary, auxiliary'));
    forall s ensures s in auxiliary <==> s in auxiliary' {
      assert s in auxiliary <==> s in multiset(auxiliary);
      assert s in auxiliary' <==> s in multiset(auxiliary');
    }
  }

  lemma {:induction false} ContentsOfTwo<S(!new)>(f: File<S>, g: File<S>)
    requires IsSpecFile(f) && IsSpecFile(g) && f.content.Some?
    ensures Contents([f, g]) == [f.content.value] + if g.content.Some? then [g.content.value] else []
  {
    ContentsAppended([], f);
    ContentsAppended([f], g);
    assert [] + [f] == [f] && [f] + [g] == [f, g];
  }

  lemma {:induction false} JoinNotEmpty<S(!new)>(a: Spec<S>, b: Spec<S>)
    requires a != Empty()
    ensures Joined(a, b) != Empty()
  {
    if a.body != map[] {
      var action :| action in a.body;
      assert action in Joined(a, b).body;
    } else {
      var action :| action in a.bodyless;
      assert action in Joined(a, b).bodyless;
    }
  }

  /** A directory of one or two spec files, loaded alone. */
  lemma {:induction false} DirectoryLoads<S(!new)>(f: File<S>, g: File<S>, failOnAuxError: bool)
    requires IsSpecFile(f) && IsSpecFile(g) && f.content.Some? && f.content.value != Empty()
    requires g.content.Some? ==> Disjoint(f.content.value, g.content.value)
    ensures Succeeds(None, [Directory(Some([f, g]))], failOnAuxError)
    ensures Union(Loaded(None, [Directory(Some([f, g]))])) ==
            if g.content.Some? then Joined(f.content.value, g.content.value) else f.content.value
  {
    var a := f.content.value;
    ContentsOfTwo(f, g);
    UnionOfOne(a);
    if g.content.Some? {
      OneMoreSpec([a], g.content.value);
      JoinNotEmpty(a, g.content.value);
    } else {
      assert [a] + [] == [a];
    }
    LoadedDirectory([f, g], failOnAuxError);
  }

  /** A file of a directory that stops loading does not fail the reload: its actions drop out of the index. */
  lemma {:induction false} ReloadDropsUnreadableFile<S(!new)>(f: File<S>, g: File<S>, action: string)
    requires IsSpecFile(f) && IsSpecFile(g) && f.content.Some? && g.content.Some?
    requires Disjoint(f.content.value, g.content.value) && f.content.value != Empty() && action in g.content.value.body
    ensures var before := Attempt(None, [Directory(Some([f, g]))], false);
      var after := Attempt(None, [Directory(Some([f, g.(content := None)]))], true);
      && Visible([before]).Some? && action in Visible([before]).value.body
      && Visible([before, after]).Some? && action !in Visible([before, after]).value.body
  {
    DirectoryLoads(f, g, false);
    DirectoryLoads(f, g.(content := None), true);
  }

  lemma {:induction false} LoadedDirectory<S(!new)>(files: seq<File<S>>, failOnAuxError: bool)
    requires PairwiseDisjoint(Contents(files)) && Union(Contents(files)) != Empty()
    ensures Succeeds(None, [Directory(Some(files))], failOnAuxError)
    ensures Union(Loaded(None, [Directory(Some(files))])) == Union(Contents(files))
  {
    DirectoryIsLoaded(files);
    UnionOfOne(Union(Contents(files)));
    OneSourceSucceeds(Directory(Some(files)), Union(Contents(files)), failOnAuxError);
  }

  lemma {:induction false} DirectoryIsLoaded<S(!new)>(files: seq<File<S>>)
    requires PairwiseDisjoint(Contents(files))
    ensures Load(Directory(Some(files))) == Some(Union(Contents(files)))
    ensures Loaded(None, [Directory(Some(files))]) == [Union(Contents(files))]
  {
    GatherOne(Load, Directory(Some(files)));
  }

  lemma {:induction false} OneSourceSucceeds<S(!new)>(source: Source<S>, spec: Spec<S>, failOnAuxError: bool)
    requires Load(source) == Some(spec) && Loaded(None, [source]) == [spec]
    requires PairwiseDisjoint([spec]) && Union([spec]) == spec && spec != Empty()
    ensures Succeeds(None, [source], failOnAuxError)
  {}

  // ----- The validator's index -----

  method MergeBody<S>(merged: map<string, S>, body: map<string, S>) returns (ok: bool, r: map<string, S>)
    ensures ok <==> merged.Keys !! body.Keys
    ensures ok ==> r == merged + body
  {
    r := merged;
    var todo := body.Keys;
    while todo != {}
      invariant todo <= body.Keys && r.Keys == merged.Keys + (body.Keys - todo)
      invariant forall a :: a in body && a !in todo ==> a !in merged && r[a] == body[a]
      invariant forall a :: a in merged ==> r[a] == merged[a]
      decreases |todo|
    {
      var action :| action in todo;
      if action in r {
        return false, r;
      }
      r := r[action := body[action]];
      todo := todo - {action};
    }
    assert r == merged + body;
    return true, r;
  }

  method MergeBodyless(merged: set<string>, bodyless: set<string>) returns (ok: bool, r: set<string>)
    ensures ok <==> merged !! bodyless
    ensures ok ==> r == merged + bodyless
  {
    r := merged;
    var todo := bodyless;
    while todo != {}
      invariant todo <= bodyless && r == merged + (bodyless - todo) && merged !! (bodyless - todo)
      decreases |todo|
    {
      var action :| action in todo;
      if action in r {
        return false, r;
      }
      r := r + {action};
      todo := todo - {action};
    }
    return true, r;
  }

  /** Adds one spec's actions to a merged index, action by action, unless one is there already. */
  method Merge<S>(merged: Spec<S>, spec: Spec<S>) returns (ok: bool, r: Spec<S>)
    ensures ok <==> Disjoint(merged, spec)
    ensures ok ==> r == Joined(merged, spec)
  {
    var body;
    ok, body := MergeBody(merged.body, spec.body);
    if !ok {
      return false, merged;
    }
    var bodyless;
    ok, bodyless := MergeBodyless(merged.bodyless, spec.bodyless);
    return ok, Spec(body, bodyless);
  }

  method LoadSpecFromDir<S(!new)>(files: seq<File<S>>) returns (r: Option<Spec<S>>)
    ensures r == Load(Directory(Some(files)))
  {
    var merged := Empty();
    for i := 0 to |files|
      invariant PairwiseDisjoint(Contents(files[..i])) && merged == Union(Contents(files[..i]))
    {
      var file := files[i];
      assert files[..i + 1] == files[..i] + [file];
      ContentsAppended(files[..i], file);
      if IsSpecFile(file) && file.content.Some? {
        OneMoreSpec(Contents(files[..i]), file.content.value);
        var ok;
        ok, merged := Merge(merged, file.content.value);
        if !ok {
          CollisionStays(files, i + 1);
          return None;
        }
      } else {
        assert Contents(files[..i]) + [] == Contents(files[..i]);
      }
    }
    assert files[..|files|] == files;
    return Some(merged);
  }

  lemma {:induction false} CollisionStays<S(!new)>(files: seq<File<S>>, n: nat)
    requires n <= |files| && !PairwiseDisjoint(Contents(files[..n]))
    ensures !PairwiseDisjoint(Contents(files))
  {
    assert files == files[..n] + files[n..];
    GatherConcat(FileSpec, files[..n], files[n..]);
    CollisionPersists(Contents(files[..n]), Contents(files[n..]));
  }

  lemma {:induction false} CollisionPersists<S(!new)>(specs: seq<Spec<S>>, more: seq<Spec<S>>)
    requires !PairwiseDisjoint(specs)
    ensures !PairwiseDisjoint(specs + more)
  {
    var i, j :| 0 <= i < j < |specs| && !Disjoint(specs[i], specs[j]);
    assert (specs + more)[i] == specs[i] && (specs + more)[j] == specs[j];
  }

  lemma {:induction false} LoadedAppended<S(!new)>(primary: Option<Source<S>>, auxiliary: seq<Source<S>>, s: Source<S>)
    ensures Loaded(primary, auxiliary + [s]) == Loaded(primary, auxiliary) +
      if Load(s).Some? then [Load(s).value] else []
  {
    GatherConcat(Load, auxiliary, [s]);
    GatherOne(Load, s);
  }

  /** Loading cleanly so far is kept or lost with each further auxiliary. */
  lemma {:induction false} OneMoreAuxiliary<S(!new)>(primary: Option<Source<S>>, auxiliary: seq<Source<S>>,
                                                     s: Source<S>, failOnAuxError: bool)
    ensures LoadsCleanly(primary, auxiliary + [s], failOnAuxError) <==>
      && LoadsCleanly(primary, auxiliary, failOnAuxError) && (failOnAuxError ==> Load(s).Some?)
      && PairwiseDisjoint(Loaded(primary, auxiliary) + if Load(s).Some? then [Load(s).value] else [])
  {
    LoadedAppended(primary, auxiliary, s);
    if !PairwiseDisjoint(Loaded(primary, auxiliary)) {
      CollisionPersists(Loaded(primary, auxiliary), if Load(s).Some? then [Load(s).value] else []);
    }
    assert forall t :: t in auxiliary + [s] <==> t in auxiliary || t == s;
  }

  lemma {:induction false} UncleanStays<S(!new)>(primary: Option<Source<S>>, auxiliary: seq<Source<S>>,
                                                 failOnAuxError: bool, n: nat)
    requires n <= |auxiliary| && !LoadsCleanly(primary, auxiliary[..n], failOnAuxError)
    ensures !LoadsCleanly(primary, auxiliary, failOnAuxError)
    decreases |auxiliary| - n
  {
    if n == |auxiliary| {
      assert auxiliary[..n] == auxiliary;
    } else {
      OneMoreAuxiliary(primary, auxiliary[..n], auxiliary[n], failOnAuxError);
      assert auxiliary[..n + 1] == auxiliary[..n] + [auxiliary[n]];
      UncleanStays(primary, auxiliary, failOnAuxError, n + 1);
    }
  }

  method LoadSingleSpec<S(!new)>(s: Source<S>) returns (r: Option<Spec<S>>)
    ensures r == Load(s)
  {
    match s
    case Document(content) => r := content;
    case Directory(None) => r := None;
    case Directory(Some(files)) => r := LoadSpecFromDir(files);
  }

  class Validator<S(!new)> {
    var specsLoaded: bool
    var body: map<string, S>
    var bodyless: set<string>
    ghost var attempts: seq<Attempt<S>>

    ghost predicate Valid()
      reads this
    {
      Visible(attempts) == if specsLoaded then Some(Spec(body, bodyless)) else None
    }

    constructor ()
      ensures Valid() && attempts == [] && !specsLoaded
    {
      specsLoaded, body, bodyless, attempts := false, map[], {}, [];
    }

    /** Merges the primary and then the auxiliary specs; commits both maps together, or neither. */
    method LoadAllSpecs(primary: Option<Source<S>>, auxiliary: seq<Source<S>>, failOnAuxError: bool) returns (ok: bool)
      requires Valid()
      modifies this
      ensures Valid() && attempts == old(attempts) + [Attempt(primary, auxiliary, failOnAuxError)]
      ensures ok <==> Succeeds(primary, auxiliary, failOnAuxError)
      ensures ok ==> specsLoaded && Spec(body, bodyless) == Union(Loaded(primary, auxiliary))
      ensures !ok ==> specsLoaded == old(specsLoaded) && body == old(body) && bodyless == old(bodyless)
    {
      attempts := attempts + [Attempt(primary, auxiliary, failOnAuxError)];
      assert attempts[..|attempts| - 1] == old(attempts);
      var merged;
      ok, merged := MergeAll(primary, auxiliary, failOnAuxError);
      if !ok || (merged.body == map[] && merged.bodyless == {}) {
        return false;
      }
      specsLoaded, body, bodyless := true, merged.body, merged.bodyless;
    }

    /** On expiry every failure, a failed auxiliary included, keeps the previous index. */
    method ReloadAllSpecs(primary: Option<Source<S>>, auxiliary: seq<Source<S>>)
      requires Valid()
      modifies this
      ensures Valid() && attempts == old(attempts) + [Attempt(primary, auxiliary, true)]
      ensures !Succeeds(primary, auxiliary, true) ==>
        specsLoaded == old(specsLoaded) && body == old(body) && bodyless == old(bodyless)
    {
      var _ := LoadAllSpecs(primary, auxiliary, true);
    }

    /** The schema of an action with a body, from the visible index. */
    method SchemaOf(action: string) returns (schema: Option<S>)
      requires Valid()
      ensures var v := Visible(attempts);
        schema == if v.Some? && action != "" && action in v.value.body then Some(v.value.body[action]) else None
    {
      if action == "" || !specsLoaded || action !in body {
        return None;
      }
      return Some(body[action]);
    }

    method SupportsBodyless(action: string) returns (supported: bool)
      requires Valid()
      ensures supported <==> Visible(attempts).Some? && action in Visible(attempts).value.bodyless
    {
      return specsLoaded && action in bodyless;
    }
  }

  /** Loads one auxiliary spec and merges it; a spec that fails to load counts as merged unless failures are to be
      reported. */
  method MergeNext<S(!new)>(s: Source<S>, failOnAuxError: bool, merged: Spec<S>, ghost specs: seq<Spec<S>>)
    returns (ok: bool, r: Spec<S>)
    requires PairwiseDisjoint(specs) && merged == Union(specs)
    ensures var longer := specs + if Load(s).Some? then [Load(s).value] else [];
      && (ok <==> PairwiseDisjoint(longer) && (failOnAuxError ==> Load(s).Some?))
      && (ok ==> r == Union(longer))
  {
    var spec := LoadSingleSpec(s);
    if spec.None? {
      assert specs + [] == specs;
      return !failOnAuxError, merged;
    }
    OneMoreSpec(specs, spec.value);
    ok, r := Merge(merged, spec.value);
  }

  lemma {:induction false} UnionOfOne<S(!new)>(spec: Spec<S>)
    ensures Union([spec]) == spec && PairwiseDisjoint([spec])
  {
    assert [spec][..0] == [];
    assert Union([spec]) == Joined(Empty(), spec);
  }

  method MergeAll<S(!new)>(primary: Option<Source<S>>, auxiliary: seq<Source<S>>, failOnAuxError: bool)
    returns (ok: bool, merged: Spec<S>)
    ensures ok <==> LoadsCleanly(primary, auxiliary, failOnAuxError)
    ensures ok ==> merged == Union(Loaded(primary, auxiliary))
  {
    merged := Empty();
    if primary.Some? {
      var spec := LoadSingleSpec(primary.value);
      if spec.None? {
        return false, merged;
      }
      merged := spec.value;
      UnionOfOne(merged);
    }
    assert auxiliary[..0] == [];
    for i := 0 to |auxiliary|
      invariant LoadsCleanly(primary, auxiliary[..i], failOnAuxError) &&
        merged == Union(Loaded(primary, auxiliary[..i]))
    {
      assert auxiliary[..i + 1] == auxiliary[..i] + [auxiliary[i]];
      OneMoreAuxiliary(primary, auxiliary[..i], auxiliary[i], failOnAuxError);
      LoadedAppended(primary, auxiliary[..i], auxiliary[i]);
      ok, merged := MergeNext(auxiliary[i], failOnAuxError, merged, Loaded(primary, auxiliary[..i]));
      if !ok {
        UncleanStays(primary, auxiliary, failOnAuxError, i + 1);
        return false, merged;
      }
    }
    assert auxiliary[..|auxiliary|] == auxiliary;
    return true, merged;
  }
}
