/** The audit walk as it runs: in place on a decoded payload, whose objects are mutable maps.
    audit_fields.go: walkMap, walkSlice, ProcessAuditPayload. */
module AuditInPlace {
  import opened Text
  import opened Json
  import opened JsonHeap
  import opened AuditWalk

  // ----- The walk on trees -----

  /** The tree the walk leaves. */
  ghost function Walked(sh: Shape, prefix: string, cfg: Config, keep: Option<set<string>>): (out: Shape)
    requires Separate(sh)
    ensures Separate(out) && Foot(out) == Foot(sh)
    decreases sh, 0
  {
    match sh
    case LeafShape(_) => sh
    case NodeShape(m, kids, foot) =>
      NodeShape(m, map k | k in kids && Stays(cfg, keep, prefix, k) :: WalkedField(k, kids[k], prefix, cfg, keep), foot)
    case ListShape(l, items, foot) =>
      ListShape(l, seq(|items|, i requires 0 <= i < |items| => Walked(items[i], prefix, cfg, keep)), foot)
  }

  ghost function WalkedField(k: string, sh: Shape, prefix: string, cfg: Config, keep: Option<set<string>>): (out: Shape)
    requires Separate(sh)
    ensures Separate(out) && Foot(out) <= Foot(sh)
    decreases sh, 1
  {
    var p := PatternFor(cfg, k, prefix + k);
    if p.Some? then LeafShape(ApplyMask(Model(sh), p.value, cfg.format)) else Walked(sh, prefix + k + ".", cfg, keep)
  }

  /** It models the walked payload. */
  lemma {:induction false} WalkedModel(sh: Shape, prefix: string, cfg: Config, keep: Option<set<string>>)
    requires Separate(sh)
    ensures Model(Walked(sh, prefix, cfg, keep)) == Walk(Model(sh), prefix, cfg, keep)
    decreases sh
  {
    var out := Walked(sh, prefix, cfg, keep);
    match sh
    case LeafShape(_) =>
    case NodeShape(m, kids, _) =>
      forall k | k in out.kids ensures Model(out.kids[k]) == WalkField(k, Model(kids[k]), prefix, cfg, keep) {
        assert out.kids[k] == WalkedField(k, kids[k], prefix, cfg, keep);
        if PatternFor(cfg, k, prefix + k).None? {
          WalkedModel(kids[k], prefix + k + ".", cfg, keep);
        }
      }
      assert Model(out).fields == Walk(Model(sh), prefix, cfg, keep).fields;
    case ListShape(_, items, _) =>
      forall i | 0 <= i < |items| ensures Model(out.items[i]) == Walk(Model(items[i]), prefix, cfg, keep) {
        WalkedModel(items[i], prefix, cfg, keep);
      }
      assert Model(out).items == Walk(Model(sh), prefix, cfg, keep).items;
  }

  // ----- The walk in place -----

  /** One key: masked, dropped, or walked below. All other keys stay as they are. */
  method WalkKey(m: MapNode, key: string, prefix: string, cfg: Config, keep: Option<set<string>>, ghost kid: Shape)
    requires key in m.fields && Separate(kid) && Holds(m.fields[key], kid) && m !in Foot(kid)
    modifies m, Foot(kid)
    ensures m.fields - {key} == old(m.fields) - {key}
    ensures key in m.fields <==> Stays(cfg, keep, prefix, key)
    ensures key in m.fields ==> Holds(m.fields[key], WalkedField(key, kid, prefix, cfg, keep))
    decreases kid, 3
  {
    var p := PatternFor(cfg, key, prefix + key);
    if p.Some? {
      var j := Read(m.fields[key], kid);
      m.fields := m.fields[key := Leaf(ApplyMask(j, p.value, cfg.format))];
    } else if keep.Some? && prefix + key !in keep.value {
      m.fields := m.fields - {key};
    } else {
      WalkValue(m.fields[key], prefix + key + ".", cfg, keep, kid);
    }
  }

  /** A child before or after its walk. */
  ghost function Child(k: string, kid: Shape, done: bool, prefix: string, cfg: Config,
                       keep: Option<set<string>>): (out: Shape)
    requires Separate(kid)
    ensures Separate(out) && Foot(out) <= Foot(kid)
  {
    if done then WalkedField(k, kid, prefix, cfg, keep) else kid
  }

  ghost predicate AllSeparate(kids: map<string, Shape>) {
    forall k :: k in kids ==> Separate(kids[k])
  }

  /** What a walk of the keys outside `todo` has left of a map. */
  ghost predicate HalfWalked(fields: map<string, Value>, todo: set<string>, kids: map<string, Shape>,
                             prefix: string, cfg: Config, keep: Option<set<string>>)
    requires forall k :: k in kids ==> Separate(kids[k])
    reads set k, n | k in kids && n in Foot(kids[k]) :: n
  {
    && todo <= fields.Keys <= kids.Keys
    && (forall k :: k in kids && k !in todo ==> (k in fields <==> Stays(cfg, keep, prefix, k)))
    && (forall k :: k in fields ==> Holds(fields[k], Child(k, kids[k], k !in todo, prefix, cfg, keep)))
  }

  /** The keys of a half-walked map but one, which is still to be walked or has just been. */
  ghost predicate OthersHalfWalked(fields: map<string, Value>, key: string, todo: set<string>, kids: map<string, Shape>,
                                   prefix: string, cfg: Config, keep: Option<set<string>>, rest: set<object>)
    requires forall k :: k in kids ==> Separate(kids[k]) && (k != key ==> Foot(kids[k]) <= rest)
    reads rest
  {
    && todo <= fields.Keys <= kids.Keys
    && (forall k :: k in kids && k !in todo ==> (k in fields <==> Stays(cfg, keep, prefix, k)))
    && (forall k :: k in fields && k != key ==> Holds(fields[k], Child(k, kids[k], k !in todo, prefix, cfg, keep)))
  }

  lemma {:induction false} KeyDone(fields: map<string, Value>, before: map<string, Value>, key: string,
                                   todo: set<string>, kids: map<string, Shape>, prefix: string, cfg: Config,
                                   keep: Option<set<string>>, rest: set<object>)
    requires forall k :: k in kids ==> Separate(kids[k]) && (k != key ==> Foot(kids[k]) <= rest)
    requires key in todo && OthersHalfWalked(before, key, todo, kids, prefix, cfg, keep, rest)
    requires fields - {key} == before - {key} && (key in fields <==> Stays(cfg, keep, prefix, key))
    requires key in fields ==> Holds(fields[key], WalkedField(key, kids[key], prefix, cfg, keep))
    ensures HalfWalked(fields, todo - {key}, kids, prefix, cfg, keep)
  {
    forall k | k != key ensures (k in fields <==> k in before) && (k in before ==> fields[k] == before[k]) {
      OtherKey(fields, before, key, k);
    }
    forall k | k in fields ensures Holds(fields[k], Child(k, kids[k], k !in todo - {key}, prefix, cfg, keep)) {
      assert k != key ==> (k !in todo - {key} <==> k !in todo);
    }
  }

  lemma {:induction false} OtherNodes(m: MapNode, key: string, kids: map<string, Shape>, foot: set<object>)
    returns (rest: set<object>)
    requires OwnNodes(m, kids, foot) && AllSeparate(kids) && key in kids
    ensures m !in rest && rest !! Foot(kids[key]) && forall k :: k in kids && k != key ==> Foot(kids[k]) <= rest
  {
    rest := set k, n | k in kids && k != key && n in Foot(kids[k]) :: n;
  }

  method WalkNext(m: MapNode, key: string, prefix: string, cfg: Config, keep: Option<set<string>>,
                  ghost todo: set<string>, ghost kids: map<string, Shape>, ghost foot: set<object>)
    requires OwnNodes(m, kids, foot) && AllSeparate(kids) && key in todo &&
      HalfWalked(m.fields, todo, kids, prefix, cfg, keep)
    modifies m, Foot(kids[key])
    ensures HalfWalked(m.fields, todo - {key}, kids, prefix, cfg, keep)
    decreases kids[key], 4
  {
    ghost var before := m.fields;
    assert Holds(m.fields[key], Child(key, kids[key], key !in todo, prefix, cfg, keep));
    ghost var rest := OtherNodes(m, key, kids, foot);
    assert OthersHalfWalked(before, key, todo, kids, prefix, cfg, keep, rest);
    WalkKey(m, key, prefix, cfg, keep, kids[key]);
    KeyDone(m.fields, before, key, todo, kids, prefix, cfg, keep, rest);
  }

  /** Visits the keys in an arbitrary order. */
  method WalkMap(m: MapNode, prefix: string, cfg: Config, keep: Option<set<string>>, ghost sh: Shape)
    requires Separate(sh) && Holds(Node(m), sh)
    modifies Foot(sh)
    ensures Holds(Node(m), Walked(sh, prefix, cfg, keep))
    decreases sh, 1
  {
    var todo := m.fields.Keys;
    NothingWalked(m, prefix, cfg, keep, sh);
    while todo != {}
      invariant OwnNodes(m, sh.kids, sh.foot) && AllSeparate(sh.kids) &&
        HalfWalked(m.fields, todo, sh.kids, prefix, cfg, keep)
      decreases |todo|
    {
      var key :| key in todo;
      WalkNext(m, key, prefix, cfg, keep, todo, sh.kids, sh.foot);
      todo := todo - {key};
    }
    AllWalked(m, prefix, cfg, keep, sh);
  }

  lemma {:induction false} NothingWalked(m: MapNode, prefix: string, cfg: Config, keep: Option<set<string>>, sh: Shape)
    requires Separate(sh) && Holds(Node(m), sh)
    ensures OwnNodes(m, sh.kids, sh.foot) && AllSeparate(sh.kids) &&
      HalfWalked(m.fields, m.fields.Keys, sh.kids, prefix, cfg, keep)
  {}

  lemma {:induction false} AllWalked(m: MapNode, prefix: string, cfg: Config, keep: Option<set<string>>, sh: Shape)
    requires Separate(sh) && sh.NodeShape? && sh.m == m && HalfWalked(m.fields, {}, sh.kids, prefix, cfg, keep)
    ensures Holds(Node(m), Walked(sh, prefix, cfg, keep))
  {
    var out := Walked(sh, prefix, cfg, keep);
    assert m.fields.Keys == out.kids.Keys;
    forall k | k in out.kids ensures Holds(m.fields[k], out.kids[k]) {
      assert Holds(m.fields[k], Child(k, sh.kids[k], true, prefix, cfg, keep));
    }
  }

  lemma {:induction false} OtherKey(fields: map<string, Value>, before: map<string, Value>, key: string, k: string)
    requires fields - {key} == before - {key} && k != key
    ensures (k in fields <==> k in before) && (k in before ==> fields[k] == before[k])
  {
    assert k in fields <==> k in fields - {key};
    assert k in before <==> k in before - {key};
    assert k in before ==> before[k] == (before - {key})[k] && fields[k] == (fields - {key})[k];
  }

  /** What a walk of the first `n` elements has left of an array. */
  ghost predicate HalfWalkedItems(values: seq<Value>, n: nat, items: seq<Shape>, prefix: string, cfg: Config,
                                  keep: Option<set<string>>)
    requires forall i :: 0 <= i < |items| ==> Separate(items[i])
    reads set i, n | 0 <= i < |items| && n in Foot(items[i]) :: n
  {
    |values| == |items| && forall i :: 0 <= i < |items| ==> Holds(values[i], Item(items[i], i < n, prefix, cfg, keep))
  }

  /** An element before or after its walk. */
  ghost function Item(item: Shape, done: bool, prefix: string, cfg: Config, keep: Option<set<string>>): (out: Shape)
    requires Separate(item)
    ensures Separate(out) && Foot(out) == Foot(item)
  {
    if done then Walked(item, prefix, cfg, keep) else item
  }

  method WalkSlice(l: ListNode, prefix: string, cfg: Config, keep: Option<set<string>>, ghost sh: Shape)
    requires Separate(sh) && Holds(List(l), sh)
    modifies Foot(sh) - {l}
    ensures Holds(List(l), Walked(sh, prefix, cfg, keep))
    decreases sh, 1
  {
    var values := l.items;
    for i := 0 to |values|
      invariant HalfWalkedItems(values, i, sh.items, prefix, cfg, keep)
    {
      WalkItem(values, i, prefix, cfg, keep, sh.items);
    }
    AllItemsWalked(l, prefix, cfg, keep, sh);
  }

  lemma {:induction false} AllItemsWalked(l: ListNode, prefix: string, cfg: Config, keep: Option<set<string>>,
                                          sh: Shape)
    requires Separate(sh) && sh.ListShape? && sh.l == l &&
      HalfWalkedItems(l.items, |sh.items|, sh.items, prefix, cfg, keep)
    ensures Holds(List(l), Walked(sh, prefix, cfg, keep))
  {
    var out := Walked(sh, prefix, cfg, keep);
    forall i | 0 <= i < |out.items| ensures Holds(l.items[i], out.items[i]) {
      assert Holds(l.items[i], Item(sh.items[i], true, prefix, cfg, keep));
    }
  }

  /** The elements of a half-walked array but the one that is next. */
  ghost predicate OtherItems(values: seq<Value>, n: nat, items: seq<Shape>, prefix: string, cfg: Config,
                             keep: Option<set<string>>, rest: set<object>)
    requires forall i :: 0 <= i < |items| ==> Separate(items[i]) && (i != n ==> Foot(items[i]) <= rest)
    reads rest
  {
    |values| == |items| && forall i :: 0 <= i < |items| && i != n ==>
        Holds(values[i], Item(items[i], i < n, prefix, cfg, keep))
  }

  lemma {:induction false} NodesOfOthers(n: nat, items: seq<Shape>) returns (rest: set<object>)
    requires forall i, i' :: 0 <= i < i' < |items| ==> Foot(items[i]) !! Foot(items[i'])
    requires n < |items|
    ensures rest !! Foot(items[n]) && forall i :: 0 <= i < |items| && i != n ==> Foot(items[i]) <= rest
  {
    rest := set i, o | 0 <= i < |items| && i != n && o in Foot(items[i]) :: o;
  }

  method WalkItem(values: seq<Value>, n: nat, prefix: string, cfg: Config, keep: Option<set<string>>,
                  ghost items: seq<Shape>)
    requires forall i :: 0 <= i < |items| ==> Separate(items[i])
    requires forall i, i' :: 0 <= i < i' < |items| ==> Foot(items[i]) !! Foot(items[i'])
    requires n < |items| && HalfWalkedItems(values, n, items, prefix, cfg, keep)
    modifies Foot(items[n])
    ensures HalfWalkedItems(values, n + 1, items, prefix, cfg, keep)
    decreases items[n], 3
  {
    assert Holds(values[n], Item(items[n], false, prefix, cfg, keep));
    ghost var rest := NodesOfOthers(n, items);
    assert OtherItems(values, n, items, prefix, cfg, keep, rest);
    WalkValue(values[n], prefix, cfg, keep, items[n]);
    ItemDone(values, n, items, prefix, cfg, keep, rest);
  }

  lemma {:induction false} ItemDone(values: seq<Value>, n: nat, items: seq<Shape>, prefix: string, cfg: Config,
                                    keep: Option<set<string>>, rest: set<object>)
    requires forall i :: 0 <= i < |items| ==> Separate(items[i]) && (i != n ==> Foot(items[i]) <= rest)
    requires n < |items| && OtherItems(values, n, items, prefix, cfg, keep, rest)
    requires Holds(values[n], Walked(items[n], prefix, cfg, keep))
    ensures HalfWalkedItems(values, n + 1, items, prefix, cfg, keep)
  {
    forall i | 0 <= i < |items| ensures Holds(values[i], Item(items[i], i < n + 1, prefix, cfg, keep)) {
      assert i != n ==> (i < n <==> i < n + 1);
    }
  }

  method WalkValue(v: Value, prefix: string, cfg: Config, keep: Option<set<string>>, ghost sh: Shape)
    requires Separate(sh) && Holds(v, sh)
    modifies Foot(sh)
    ensures Holds(v, Walked(sh, prefix, cfg, keep))
    decreases sh, 2
  {
    match v
    case Node(m) => WalkMap(m, prefix, cfg, keep, sh);
    case List(l) => WalkSlice(l, prefix, cfg, keep, sh);
    case Leaf(_) =>
  }

  // ----- A whole payload -----

  /** `extractAction`, one type assertion a level. */
  method ActionOf(root: MapNode, ghost sh: Shape) returns (action: string)
    requires Separate(sh) && Holds(Node(root), sh)
    ensures action == ExtractAction(Model(sh))
  {
    assert CONTEXT in root.fields ==> Holds(root.fields[CONTEXT], sh.kids[CONTEXT]);
    if CONTEXT !in root.fields || !root.fields[CONTEXT].Node? {
      return "";
    }
    var context := root.fields[CONTEXT].m;
    ghost var kids := sh.kids[CONTEXT].kids;
    assert ACTION in context.fields ==> Holds(context.fields[ACTION], kids[ACTION]);
    assert ExtractAction(Model(sh)) ==
        if ACTION in kids && Model(kids[ACTION]).Str? then TrimSpace(Model(kids[ACTION]).s) else "";
    if ACTION !in context.fields || !context.fields[ACTION].Leaf? {
      return "";
    }
    var leaf := context.fields[ACTION].j;
    return if leaf.Str? then TrimSpace(leaf.s) else "";
  }

  /** Decode, walk in place, encode. */
  method ProcessAuditPayload(cfg: Config, body: Json) returns (out: Json)
    ensures out == Process(cfg, body)
    ensures if body.Obj? then forall a :: a != [] ==> ShowsNoMore(body, out, "", cfg, a) else out == body
  {
    if !body.Obj? {
      return body;
    }
    forall a | a != [] ensures ShowsNoMore(body, Process(cfg, body), "", cfg, a) {
      RecordShowsNoMore(cfg, body, a);
    }
    ghost var sh;
    var v;
    v, sh := Decode(body);
    var keep: Option<set<string>> := None;
    if cfg.selective {
      var action := ActionOf(v.m, sh);
      if action in cfg.keepPaths {
        keep := Some(cfg.keepPaths[action]);
      } else if DEFAULT_ACTION in cfg.keepPaths {
        keep := Some(cfg.keepPaths[DEFAULT_ACTION]);
      }
    }
    WalkMap(v.m, "", cfg, keep, sh);
    WalkedModel(sh, "", cfg, keep);
    out := Read(v, Walked(sh, "", cfg, keep));
  }
}
