/** What a reload loses, and which collisions a load reports: the two promises made about the merged index, with the
    exact conditions under which they hold.
    schemav2validator.go: loadAllSpecs, loadSpecFromDir, reloadAllSpecs. */
module ActionIndexLosses {
  import opened Text
  import opened ActionIndex

  // ----- Specs that shrink -----

  ghost predicate Within<S(!new)>(a: Spec<S>, b: Spec<S>) {
    a.body.Keys <= b.body.Keys && (forall k :: k in a.body ==> a.body[k] == b.body[k]) && a.bodyless <= b.bodyless
  }

  /** Of two disjoint specs that may each have shrunk, the join is the same only if neither has. */
  lemma {:induction false} JoinOfShrunk<S(!new)>(a: Spec<S>, b: Spec<S>, a': Spec<S>, b': Spec<S>)
    requires Disjoint(a, b) && Within(a', a) && Within(b', b)
    ensures Disjoint(a', b') && Within(Joined(a', b'), Joined(a, b))
    ensures Joined(a', b') == Joined(a, b) <==> a' == a && b' == b
  {
    if Joined(a', b') == Joined(a, b) {
      assert forall k :: k in a.body ==> k in Joined(a, b).body && k !in b'.body;
      assert forall k :: k in b.body ==> k in Joined(a, b).body && k !in a'.body;
      assert forall k :: k in a.bodyless ==> k in Joined(a, b).bodyless && k !in b'.bodyless;
      assert forall k :: k in b.bodyless ==> k in Joined(a, b).bodyless && k !in a'.bodyless;
      assert a'.body == a.body && b'.body == b.body;
    }
  }

  ghost predicate EachWithin<S(!new)>(us: seq<Spec<S>>, vs: seq<Spec<S>>) {
    |us| == |vs| && forall i :: 0 <= i < |us| ==> Within(us[i], vs[i])
  }

  /** Of specs that do not collide and may each have shrunk, the union is the same only if none has. */
  lemma {:induction false} UnionOfShrunk<S(!new)>(us: seq<Spec<S>>, vs: seq<Spec<S>>)
    requires EachWithin(us, vs) && PairwiseDisjoint(vs)
    ensures PairwiseDisjoint(us) && Within(Union(us), Union(vs))
    ensures Union(us) == Union(vs) <==> us == vs
    decreases |us|
  {
    if us != [] {
      var n := |us| - 1;
      assert us == us[..n] + [us[n]] && vs == vs[..n] + [vs[n]];
      UnionOfShrunk(us[..n], vs[..n]);
      OneMoreSpec(vs[..n], vs[n]);
      JoinOfShrunk(Union(vs[..n]), vs[n], Union(us[..n]), us[n]);
      OneMoreSpec(us[..n], us[n]);
    }
  }

  // ----- Directories that lose files -----

  /** What a directory entry contributes: nothing when it is no spec file or does not load. */
  function Part<S>(f: File<S>): Spec<S> {
    if FileSpec(f).Some? then FileSpec(f).value else Empty()
  }

  function Parts<S>(files: seq<File<S>>): (parts: seq<Spec<S>>)
    ensures |parts| == |files| && forall i :: 0 <= i < |files| ==> parts[i] == Part(files[i])
  {
    seq(|files|, i requires 0 <= i < |files| => Part(files[i]))
  }

  lemma {:induction false} PartsAreContents<S(!new)>(files: seq<File<S>>)
    ensures PairwiseDisjoint(Parts(files)) <==> PairwiseDisjoint(Contents(files))
    ensures PairwiseDisjoint(Contents(files)) ==> Union(Parts(files)) == Union(Contents(files))
  {
    if files != [] {
      var n := |files| - 1;
      var front, last := files[..n], files[n];
      assert files == front + [last] && Parts(files) == Parts(front) + [Part(last)];
      PartsAreContents(front);
      ContentsAppended(front, last);
      OneMorePart(Parts(front), Contents(front), Part(last), FileSpec(last).Some?);
    }
  }

  /** Two lists of specs give the same. */
  ghost predicate Alike<S(!new)>(us: seq<Spec<S>>, vs: seq<Spec<S>>) {
    (PairwiseDisjoint(us) <==> PairwiseDisjoint(vs)) && (PairwiseDisjoint(vs) ==> Union(us) == Union(vs))
  }

  lemma {:induction false} OneMorePart<S(!new)>(parts: seq<Spec<S>>, contents: seq<Spec<S>>, part: Spec<S>, loads: bool)
    requires Alike(parts, contents) && (loads || part == Empty())
    ensures Alike(parts + [part], contents + if loads then [part] else [])
  {
    if !PairwiseDisjoint(contents) {
      CollisionPersists(parts, [part]);
      CollisionPersists(contents, if loads then [part] else []);
    } else {
      OneMoreSpec(parts, part);
      if loads {
        OneMoreSpec(contents, part);
      } else {
        assert contents + [] == contents;
      }
    }
  }

  /** Some entries have stopped loading. */
  ghost predicate Lost<S(!new)>(files: seq<File<S>>, files': seq<File<S>>) {
    |files| == |files'| && forall i :: 0 <= i < |files| ==>
        files'[i] == files[i] || files'[i] == files[i].(content := None)
  }

  /** None of them is a spec file with an action in it. */
  ghost predicate KeepsContent<S(!new)>(files: seq<File<S>>, files': seq<File<S>>)
    requires |files| == |files'|
  {
    forall i :: 0 <= i < |files| && Part(files[i]) != Empty() ==> files'[i].content.Some?
  }

  /** A directory that loses files gives the same actions exactly when every spec file with an action still loads. */
  lemma {:induction false} DirectoryKeepsIff<S(!new)>(files: seq<File<S>>, files': seq<File<S>>)
    requires Lost(files, files') && PairwiseDisjoint(Contents(files))
    ensures PairwiseDisjoint(Contents(files')) && Within(Union(Contents(files')), Union(Contents(files)))
    ensures Union(Contents(files')) == Union(Contents(files)) <==> KeepsContent(files, files')
  {
    var us, vs := Parts(files'), Parts(files);
    PartsAreContents(files);
    assert EachWithin(us, vs);
    UnionOfShrunk(us, vs);
    PartsAreContents(files');
    assert us == vs <==> forall i :: 0 <= i < |files| ==> us[i] == vs[i];
  }

  // ----- Reloading what has become worse -----

  /** A source that has become worse: it is as it was, it does not load, or some files of a directory do not. */
  ghost predicate Degraded<S(!new)>(s: Source<S>, s': Source<S>) {
    && (Load(s).None? ==> Load(s').None?)
    && (s' == s || Load(s').None?
        || (s.Directory? && s.files.Some? && s'.Directory? && s'.files.Some? && Lost(s.files.value, s'.files.value)))
  }

  /** Every spec file with an action still loads. */
  ghost predicate KeepsFiles<S(!new)>(s: Source<S>, s': Source<S>) {
    s' == s || (s.Directory? && s.files.Some? && s'.Directory? && s'.files.Some?
                && |s.files.value| == |s'.files.value| && KeepsContent(s.files.value, s'.files.value))
  }

  lemma {:induction false} SourceKeepsIff<S(!new)>(s: Source<S>, s': Source<S>)
    requires Degraded(s, s') && Load(s').Some?
    ensures Load(s).Some? && Within(Load(s').value, Load(s).value)
    ensures Load(s').value == Load(s).value <==> KeepsFiles(s, s')
  {
    if s' != s {
      DirectoryKeepsIff(s.files.value, s'.files.value);
    }
  }

  function Sources<S>(primary: Option<Source<S>>, auxiliary: seq<Source<S>>): seq<Source<S>> {
    (if primary.Some? then [primary.value] else []) + auxiliary
  }

  ghost predicate AllLoad<S(!new)>(ss: seq<Source<S>>) {
    forall i :: 0 <= i < |ss| ==> Load(ss[i]).Some?
  }

  lemma {:induction false} LoadedIsGathered<S(!new)>(primary: Option<Source<S>>, auxiliary: seq<Source<S>>)
    ensures Loaded(primary, auxiliary) == Gather(Load, Sources(primary, auxiliary))
  {
    if primary.Some? {
      GatherConcat(Load, [primary.value], auxiliary);
      GatherOne(Load, primary.value);
    } else {
      assert Sources(primary, auxiliary) == auxiliary;
    }
  }

  lemma {:induction false} GatherAllLoad<S(!new)>(ss: seq<Source<S>>)
    requires AllLoad(ss)
    ensures |Gather(Load, ss)| == |ss| && forall i :: 0 <= i < |ss| ==> Gather(Load, ss)[i] == Load(ss[i]).value
  {
    if ss != [] {
      GatherAllLoad(ss[..|ss| - 1]);
    }
  }

  ghost predicate EachDegraded<S(!new)>(ss: seq<Source<S>>, ss': seq<Source<S>>) {
    |ss| == |ss'| && forall i :: 0 <= i < |ss| ==> Degraded(ss[i], ss'[i])
  }

  ghost predicate EachKeepsFiles<S(!new)>(ss: seq<Source<S>>, ss': seq<Source<S>>)
    requires |ss| == |ss'|
  {
    forall i :: 0 <= i < |ss| ==> KeepsFiles(ss[i], ss'[i])
  }

  /** Sources that have become worse and still all load: they collide no more than before, and give the same actions
      exactly when every spec file with an action still loads. */
  lemma {:induction false} SourcesKeepIff<S(!new)>(ss: seq<Source<S>>, ss': seq<Source<S>>)
    requires EachDegraded(ss, ss') && AllLoad(ss') && PairwiseDisjoint(Gather(Load, ss))
    ensures PairwiseDisjoint(Gather(Load, ss'))
    ensures Union(Gather(Load, ss')) == Union(Gather(Load, ss)) <==> EachKeepsFiles(ss, ss')
  {
    forall i | 0 <= i < |ss|
      ensures Load(ss[i]).Some? && Within(Load(ss'[i]).value, Load(ss[i]).value)
      ensures Load(ss'[i]).value == Load(ss[i]).value <==> KeepsFiles(ss[i], ss'[i])
    {
      SourceKeepsIff(ss[i], ss'[i]);
    }
    GatherAllLoad(ss);
    GatherAllLoad(ss');
    var us, vs := Gather(Load, ss'), Gather(Load, ss);
    UnionOfShrunk(us, vs);
    assert us == vs <==> forall i :: 0 <= i < |ss| ==> us[i] == vs[i];
  }

  lemma {:induction false} ReloadSucceedsIff<S(!new)>(primary: Option<Source<S>>, auxiliary: seq<Source<S>>)
    requires PairwiseDisjoint(Loaded(primary, auxiliary)) || !AllLoad(Sources(primary, auxiliary))
    ensures Succeeds(primary, auxiliary, true) <==>
      AllLoad(Sources(primary, auxiliary)) && Union(Loaded(primary, auxiliary)) != Empty()
  {
    var ss := Sources(primary, auxiliary);
    var d := if primary.Some? then 1 else 0;
    assert forall i :: 0 <= i < |auxiliary| ==> ss[i + d] == auxiliary[i];
    if AllLoad(ss) {
      assert primary.Some? ==> ss[0] == primary.value;
      forall s | s in auxiliary ensures Load(s).Some? {
        var i :| 0 <= i < |auxiliary| && auxiliary[i] == s;
        assert ss[i + d] == s;
      }
    } else {
      var i :| 0 <= i < |ss| && Load(ss[i]).None?;
      assert i >= d ==> auxiliary[i - d] in auxiliary && ss[i] == auxiliary[i - d];
    }
  }

  /** After a load that succeeded, a reload of sources that have become worse keeps the index exactly when some source
      does not load, no action at all is left, or every spec file with an action still loads. In all other cases it goes
      through and the actions of the files that no longer load are gone. */
  lemma {:induction false} ReloadKeepsIndexIff<S(!new)>(attempts: seq<Attempt<S>>, was: Attempt<S>, now: Attempt<S>)
    requires Succeeds(was.primary, was.auxiliary, was.failOnAuxError) && now.failOnAuxError
    requires EachDegraded(Sources(was.primary, was.auxiliary), Sources(now.primary, now.auxiliary))
    ensures var ss, ss' := Sources(was.primary, was.auxiliary), Sources(now.primary, now.auxiliary);
      Visible(attempts + [was] + [now]) == Visible(attempts + [was]) <==>
      !AllLoad(ss') || Union(Loaded(now.primary, now.auxiliary)) == Empty() || EachKeepsFiles(ss, ss')
  {
    var ss, ss' := Sources(was.primary, was.auxiliary), Sources(now.primary, now.auxiliary);
    LoadedIsGathered(was.primary, was.auxiliary);
    LoadedIsGathered(now.primary, now.auxiliary);
    var before := attempts + [was];
    assert (before + [now])[..|before|] == before && before[|before| - 1] == was;
    if AllLoad(ss') {
      SourcesKeepIff(ss, ss');
    }
    ReloadSucceedsIff(now.primary, now.auxiliary);
  }

  // ----- Collisions -----

  /** The specs of a source, file by file. */
  ghost function SourceParts<S(!new)>(s: Source<S>): seq<Spec<S>> {
    match s
    case Document(content) => if content.Some? then [content.value] else []
    case Directory(files) => if files.Some? then Contents(files.value) else []
  }

  /** The specs of all sources, file by file. */
  ghost function AllParts<S(!new)>(ss: seq<Source<S>>): seq<Spec<S>> {
    if ss == [] then [] else AllParts(ss[..|ss| - 1]) + SourceParts(ss[|ss| - 1])
  }

  lemma {:induction false} DisjointFromJoined<S(!new)>(a: Spec<S>, b: Spec<S>, c: Spec<S>)
    ensures Disjoint(Joined(a, b), c) <==> Disjoint(a, c) && Disjoint(b, c)
    ensures Disjoint(a, Joined(b, c)) <==> Disjoint(a, b) && Disjoint(a, c)
    ensures Joined(Joined(a, b), c) == Joined(a, Joined(b, c))
  {}

  lemma {:induction false} UnionConcat<S(!new)>(a: seq<Spec<S>>, b: seq<Spec<S>>)
    ensures PairwiseDisjoint(a + b) <==> PairwiseDisjoint(a) && PairwiseDisjoint(b) && Disjoint(Union(a), Union(b))
    ensures PairwiseDisjoint(a + b) ==> Union(a + b) == Joined(Union(a), Union(b))
    decreases |b|
  {
    if b == [] {
      assert a + b == a;
    } else {
      var n := |b| - 1;
      assert a + b == (a + b[..n]) + [b[n]] && b == b[..n] + [b[n]];
      UnionConcat(a, b[..n]);
      DisjointFromJoined(Union(a), Union(b[..n]), b[n]);
      UnionExtended(a + b[..n], b[n]);
      UnionExtended(b[..n], b[n]);
    }
  }

  /** One more spec, whether or not those before it collide. */
  lemma {:induction false} UnionExtended<S(!new)>(specs: seq<Spec<S>>, spec: Spec<S>)
    ensures PairwiseDisjoint(specs + [spec]) <==> PairwiseDisjoint(specs) && Disjoint(Union(specs), spec)
    ensures Union(specs + [spec]) == Joined(Union(specs), spec)
  {
    assert (specs + [spec])[..|specs|] == specs;
    if PairwiseDisjoint(specs) {
      OneMoreSpec(specs, spec);
    } else {
      CollisionPersists(specs, [spec]);
    }
  }

  lemma {:induction false} LoadIsParts<S(!new)>(s: Source<S>)
    requires Load(s).Some?
    ensures PairwiseDisjoint(SourceParts(s)) && Union(SourceParts(s)) == Load(s).value
  {
    if s.Document? {
      UnionOfOne(s.content.value);
    }
  }

  /** Where every source loads, all collisions are between sources. */
  lemma {:induction false} PartsCollideAsSources<S(!new)>(ss: seq<Source<S>>)
    requires AllLoad(ss)
    ensures PairwiseDisjoint(AllParts(ss)) <==> PairwiseDisjoint(Gather(Load, ss))
    ensures PairwiseDisjoint(AllParts(ss)) ==> Union(AllParts(ss)) == Union(Gather(Load, ss))
  {
    PartsAlike(ss);
  }

  lemma {:induction false} PartsAlike<S(!new)>(ss: seq<Source<S>>)
    requires AllLoad(ss)
    ensures Alike(AllParts(ss), Gather(Load, ss))
  {
    if ss != [] {
      var front, last := ss[..|ss| - 1], ss[|ss| - 1];
      LastOfAll(ss);
      PartsAlike(front);
      LoadIsParts(last);
      OneMoreSource(AllParts(front), Gather(Load, front), SourceParts(last), Load(last).value);
    }
  }

  lemma {:induction false} LastOfAll<S(!new)>(ss: seq<Source<S>>)
    requires ss != [] && AllLoad(ss)
    ensures var front, last := ss[..|ss| - 1], ss[|ss| - 1];
      && AllLoad(front) && Load(last).Some?
      && AllParts(ss) == AllParts(front) + SourceParts(last)
      && Gather(Load, ss) == Gather(Load, front) + [Load(last).value]
  {}

  lemma {:induction false} OneMoreSource<S(!new)>(parts: seq<Spec<S>>, specs: seq<Spec<S>>, more: seq<Spec<S>>,
                                                  spec: Spec<S>)
    requires Alike(parts, specs) && PairwiseDisjoint(more) && Union(more) == spec
    ensures Alike(parts + more, specs + [spec])
  {
    UnionConcat(parts, more);
    UnionExtended(specs, spec);
  }

  /** Two sources that load define the same action. */
  ghost predicate SourcesCollide<S(!new)>(ss: seq<Source<S>>) {
    exists i, j :: 0 <= i < j < |ss| && CollidingPair(ss[i], ss[j])
  }

  ghost predicate CollidingPair<S(!new)>(s: Source<S>, t: Source<S>) {
    Load(s).Some? && Load(t).Some? && !Disjoint(Load(s).value, Load(t).value)
  }

  lemma {:induction false} GatheredFrom<S(!new)>(ss: seq<Source<S>>, spec: Spec<S>)
    ensures spec in Gather(Load, ss) <==> exists i :: 0 <= i < |ss| && Load(ss[i]) == Some(spec)
  {
    if ss != [] {
      var n := |ss| - 1;
      GatheredFrom(ss[..n], spec);
      assert forall i :: 0 <= i < n ==> ss[..n][i] == ss[i];
      assert Load(ss[n]).Some? ==> Gather(Load, ss) == Gather(Load, ss[..n]) + [Load(ss[n]).value];
    }
  }

  lemma {:induction false} DisjointFromUnion<S(!new)>(specs: seq<Spec<S>>, spec: Spec<S>)
    ensures Disjoint(Union(specs), spec) <==> forall other :: other in specs ==> Disjoint(other, spec)
  {
    if specs != [] {
      var n := |specs| - 1;
      DisjointFromUnion(specs[..n], spec);
      assert specs == specs[..n] + [specs[n]];
      assert Disjoint(Union(specs), spec) <==> Disjoint(Union(specs[..n]), spec) && Disjoint(specs[n], spec);
    }
  }

  /** The loaded specs collide exactly when two sources that load do. */
  lemma {:induction false} LoadedCollideIff<S(!new)>(ss: seq<Source<S>>)
    ensures !PairwiseDisjoint(Gather(Load, ss)) <==> SourcesCollide(ss)
  {
    if ss != [] {
      var n := |ss| - 1;
      var front, last := ss[..n], ss[n];
      LoadedCollideIff(front);
      assert forall i :: 0 <= i < n ==> front[i] == ss[i];
      if Load(last).Some? {
        LastCollidesIff(front, Load(last).value);
        UnionExtended(Gather(Load, front), Load(last).value);
      }
      assert SourcesCollide(ss) <==> SourcesCollide(front) || exists i :: 0 <= i < n && CollidingPair(ss[i], last);
    }
  }

  lemma {:induction false} LastCollidesIff<S(!new)>(ss: seq<Source<S>>, spec: Spec<S>)
    ensures !Disjoint(Union(Gather(Load, ss)), spec) <==>
            exists i :: 0 <= i < |ss| && Load(ss[i]).Some? && !Disjoint(Load(ss[i]).value, spec)
  {
    var specs := Gather(Load, ss);
    DisjointFromUnion(specs, spec);
    forall other ensures other in specs <==> exists i :: 0 <= i < |ss| && Load(ss[i]) == Some(other) {
      GatheredFrom(ss, other);
    }
    if i :| 0 <= i < |ss| && Load(ss[i]).Some? && !Disjoint(Load(ss[i]).value, spec) {
      assert Load(ss[i]).value in specs;
    }
  }

  /** Collisions are counted over all files of all sources. A load with one fails on every reload; at startup it fails
      exactly when the primary source does not load, which a collision inside it makes it do, two sources that load
      collide, or nothing that loads has an action. A collision inside an auxiliary directory passes unnoticed. */
  lemma {:induction false} CollidingLoadFailsIff<S(!new)>(primary: Option<Source<S>>, auxiliary: seq<Source<S>>,
                                                          failOnAuxError: bool)
    requires !PairwiseDisjoint(AllParts(Sources(primary, auxiliary)))
    ensures !Succeeds(primary, auxiliary, failOnAuxError) <==>
      || failOnAuxError || (primary.Some? && Load(primary.value).None?) || SourcesCollide(Sources(primary, auxiliary))
      || Union(Loaded(primary, auxiliary)) == Empty()
  {
    var ss := Sources(primary, auxiliary);
    LoadedIsGathered(primary, auxiliary);
    LoadedCollideIff(ss);
    if AllLoad(ss) {
      PartsCollideAsSources(ss);
    } else if failOnAuxError && PairwiseDisjoint(Loaded(primary, auxiliary)) {
      ReloadSucceedsIff(primary, auxiliary);
    }
  }

  /** A document and an auxiliary directory of two files that define the same action: it starts up on the document
      alone, and fails to reload. */
  lemma {:induction false} StartupSkipsCollision<S(!new)>(doc: Spec<S>, f: File<S>, g: File<S>)
    requires doc != Empty() && IsSpecFile(f) && IsSpecFile(g) && f.content.Some? && g.content.Some?
    requires !Disjoint(f.content.value, g.content.value)
    ensures var primary, auxiliary := Some(Document(Some(doc))), [Directory(Some([f, g]))];
      && !PairwiseDisjoint(AllParts(Sources(primary, auxiliary)))
      && Succeeds(primary, auxiliary, false) && Union(Loaded(primary, auxiliary)) == doc
      && !Succeeds(primary, auxiliary, true)
  {
    var document, directory := Document(Some(doc)), Directory(Some([f, g]));
    ContentsOfTwo(f, g);
    var parts := Contents([f, g]);
    assert parts[0] == f.content.value && parts[1] == g.content.value;
    assert Load(directory).None?;
    GatherOne(Load, directory);
    assert Loaded(Some(document), [directory]) == [doc];
    UnionOfOne(doc);
    var ss := Sources(Some(document), [directory]);
    assert ss[..1] == [document];
    UnionConcat(AllParts(ss[..1]), parts);
    assert directory in [directory];
  }
}
