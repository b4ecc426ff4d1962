/** Decoded JSON in the heap: objects and arrays are references, as `encoding/json` makes them.
    Which node sits where is a ghost tree beside them, which also says what JSON value the heap stands for. */
module JsonHeap {
  import opened Json

  datatype Value = Leaf(j: Json) | Node(m: MapNode) | List(l: ListNode)

  class MapNode {
    var fields: map<string, Value>

    constructor (fields: map<string, Value>)
      ensures this.fields == fields
    {
      this.fields := fields;
    }
  }

  class ListNode {
    var items: seq<Value>

    constructor (items: seq<Value>)
      ensures this.items == items
    {
      this.items := items;
    }
  }

  /** Which node sits where in a tree, and the nodes each subtree owns. */
  datatype Shape =
    | LeafShape(j: Json)
    | NodeShape(m: MapNode, kids: map<string, Shape>, foot: set<object>)
    | ListShape(l: ListNode, items: seq<Shape>, foot: set<object>)

  ghost function Foot(sh: Shape): set<object> {
    if sh.LeafShape? then {} else sh.foot
  }

  /** Children with nodes of their own, all of them below one parent. */
  ghost predicate OwnNodes(parent: object, kids: map<string, Shape>, foot: set<object>) {
    && parent in foot
    && (forall k :: k in kids ==> Foot(kids[k]) <= foot - {parent})
    && (forall k, k' :: k in kids && k' in kids && k != k' ==> Foot(kids[k]) !! Foot(kids[k']))
  }

  ghost predicate OwnItems(parent: object, items: seq<Shape>, foot: set<object>) {
    && parent in foot
    && (forall i :: 0 <= i < |items| ==> Foot(items[i]) <= foot - {parent})
    && (forall i, i' :: 0 <= i < i' < |items| ==> Foot(items[i]) !! Foot(items[i']))
  }

  /** No node occurs twice. */
  ghost predicate Separate(sh: Shape)
    decreases sh
  {
    match sh
    case LeafShape(j) => !j.Obj? && !j.Arr?
    case NodeShape(m, kids, foot) => OwnNodes(m, kids, foot) && forall k :: k in kids ==> Separate(kids[k])
    case ListShape(l, items, foot) => OwnItems(l, items, foot) && forall i :: 0 <= i < |items| ==> Separate(items[i])
  }

  ghost function Model(sh: Shape): Json
    decreases sh
  {
    match sh
    case LeafShape(j) => j
    case NodeShape(_, kids, _) => Obj(map k | k in kids :: Model(kids[k]))
    case ListShape(_, items, _) => Arr(seq(|items|, i requires 0 <= i < |items| => Model(items[i])))
  }

  /** The heap holds this tree at `v`. */
  ghost predicate Holds(v: Value, sh: Shape)
    requires Separate(sh)
    reads Foot(sh)
    decreases sh
  {
    match sh
    case LeafShape(j) => v == Leaf(j)
    case NodeShape(m, kids, _) =>
      v == Node(m) && m.fields.Keys == kids.Keys && forall k :: k in kids ==> Holds(m.fields[k], kids[k])
    case ListShape(l, items, _) =>
      v == List(l) && |l.items| == |items| && forall i :: 0 <= i < |items| ==> Holds(l.items[i], items[i])
  }

  // ----- Reading a tree -----

  /** The JSON a value in the heap stands for, as marshalling and `%v` rendering see it. */
  method Read(v: Value, ghost sh: Shape) returns (j: Json)
    requires Separate(sh) && Holds(v, sh)
    ensures j == Model(sh)
    decreases sh, 1
  {
    match v
    case Leaf(leaf) =>
      j := leaf;
    case Node(m) =>
      var read := ReadMap(m, sh);
      j := Obj(read);
    case List(l) =>
      var read := [];
      for i := 0 to |l.items|
        invariant |read| == i && forall n :: 0 <= n < i ==> read[n] == Model(sh.items[n])
      {
        var child := Read(l.items[i], sh.items[i]);
        read := read + [child];
      }
      j := Arr(read);
  }

  /** What has been read of a map, with `todo` still to come. */
  ghost predicate HalfRead(read: map<string, Json>, todo: set<string>, kids: map<string, Shape>) {
    && todo <= kids.Keys && read.Keys == kids.Keys - todo
    && forall k :: k in read ==> read[k] == Model(kids[k])
  }

  method ReadMap(m: MapNode, ghost sh: Shape) returns (read: map<string, Json>)
    requires Separate(sh) && Holds(Node(m), sh)
    ensures Obj(read) == Model(sh)
    decreases sh, 0
  {
    var todo := m.fields.Keys;
    read := map[];
    while todo != {}
      invariant HalfRead(read, todo, sh.kids)
      decreases |todo|
    {
      var k :| k in todo;
      var child := Read(m.fields[k], sh.kids[k]);
      KidRead(read, todo, sh.kids, k, child);
      read, todo := read[k := child], todo - {k};
    }
    assert read == Model(sh).fields;
  }

  lemma {:induction false} KidRead(read: map<string, Json>, todo: set<string>, kids: map<string, Shape>, k: string,
                                   child: Json)
    requires HalfRead(read, todo, kids) && k in todo && child == Model(kids[k])
    ensures HalfRead(read[k := child], todo - {k}, kids)
  {}

  // ----- Building a tree -----

  /** Trees on fresh nodes for the fields decoded so far. */
  ghost predicate Decoded(values: map<string, Value>, kids: map<string, Shape>, foot: set<object>)
    reads foot
  {
    && values.Keys == kids.Keys
    && (forall k :: k in kids ==> Separate(kids[k]) && Foot(kids[k]) <= foot && Holds(values[k], kids[k]))
    && (forall k, k' :: k in kids && k' in kids && k != k' ==> Foot(kids[k]) !! Foot(kids[k']))
  }

  ghost predicate DecodedItems(values: seq<Value>, items: seq<Shape>, foot: set<object>)
    reads foot
  {
    && |values| == |items|
    && (forall i :: 0 <= i < |items| ==> Separate(items[i]) && Foot(items[i]) <= foot && Holds(values[i], items[i]))
    && (forall i, i' :: 0 <= i < i' < |items| ==> Foot(items[i]) !! Foot(items[i']))
  }

  lemma {:induction false} AddField(values: map<string, Value>, kids: map<string, Shape>, foot: set<object>,
                                    key: string, value: Value, kid: Shape)
    requires Decoded(values, kids, foot) && key !in kids
    requires Separate(kid) && Holds(value, kid) && Foot(kid) !! foot
    ensures Decoded(values[key := value], kids[key := kid], foot + Foot(kid))
  {}

  lemma {:induction false} AddItem(values: seq<Value>, items: seq<Shape>, foot: set<object>, value: Value, item: Shape)
    requires DecodedItems(values, items, foot)
    requires Separate(item) && Holds(value, item) && Foot(item) !! foot
    ensures DecodedItems(values + [value], items + [item], foot + Foot(item))
  {}

  /** What has been decoded of an object, with `todo` still to come. */
  ghost predicate HalfDecoded(fields: map<string, Json>, todo: set<string>, kids: map<string, Shape>) {
    && todo <= fields.Keys && kids.Keys == fields.Keys - todo
    && forall k :: k in kids ==> Model(kids[k]) == fields[k]
  }

  lemma {:induction false} KidDecoded(fields: map<string, Json>, todo: set<string>, kids: map<string, Shape>,
                                      k: string, kid: Shape)
    requires HalfDecoded(fields, todo, kids) && k in todo && Model(kid) == fields[k]
    ensures HalfDecoded(fields, todo - {k}, kids[k := kid])
  {}

  /** Unmarshalling builds a tree of new objects. */
  method Decode(j: Json) returns (v: Value, ghost sh: Shape)
    ensures Separate(sh) && Holds(v, sh) && Model(sh) == j && fresh(Foot(sh))
    decreases j, 1
  {
    match j
    case Obj(fields) =>
      ghost var kids, foot;
      var values;
      values, kids, foot := DecodeFields(fields, j);
      var m := new MapNode(values);
      v, sh := Node(m), NodeShape(m, kids, foot + {m});
      assert Model(sh).fields == fields;
    case Arr(items) =>
      ghost var shapes, foot;
      var values;
      values, shapes, foot := DecodeItems(items, j);
      var l := new ListNode(values);
      v, sh := List(l), ListShape(l, shapes, foot + {l});
      assert Model(sh).items == items;
    case _ =>
      v, sh := Leaf(j), LeafShape(j);
  }

  method DecodeFields(fields: map<string, Json>, ghost whole: Json)
    returns (values: map<string, Value>, ghost kids: map<string, Shape>, ghost foot: set<object>)
    requires whole == Obj(fields)
    ensures Decoded(values, kids, foot) && fresh(foot)
    ensures kids.Keys == fields.Keys && forall k :: k in fields ==> Model(kids[k]) == fields[k]
    decreases whole, 0
  {
    values, kids, foot := map[], map[], {};
    var todo := fields.Keys;
    while todo != {}
      invariant HalfDecoded(fields, todo, kids)
      invariant Decoded(values, kids, foot) && fresh(foot)
      decreases |todo|
    {
      var key :| key in todo;
      ghost var kid;
      var value;
      value, kid := Decode(fields[key]);
      AddField(values, kids, foot, key, value, kid);
      KidDecoded(fields, todo, kids, key, kid);
      values, kids, foot, todo := values[key := value], kids[key := kid], foot + Foot(kid), todo - {key};
    }
  }

  method DecodeItems(items: seq<Json>, ghost whole: Json)
    returns (values: seq<Value>, ghost shapes: seq<Shape>, ghost foot: set<object>)
    requires whole == Arr(items)
    ensures DecodedItems(values, shapes, foot) && fresh(foot)
    ensures |shapes| == |items| && forall i :: 0 <= i < |items| ==> Model(shapes[i]) == items[i]
    decreases whole, 0
  {
    values, shapes, foot := [], [], {};
    for n := 0 to |items|
      invariant |shapes| == n && forall i :: 0 <= i < n ==> Model(shapes[i]) == items[i]
      invariant DecodedItems(values, shapes, foot) && fresh(foot)
    {
      ghost var shape;
      var value;
      value, shape := Decode(items[n]);
      AddItem(values, shapes, foot, value, shape);
      values, shapes, foot := values + [value], shapes + [shape], foot + Foot(shape);
    }
  }
}
