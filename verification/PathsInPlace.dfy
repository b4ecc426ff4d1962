/** Writing at a path as it runs: a cursor goes down to the parent, and one object or array is assigned to.
    schemaversionmediator.go: setAtPath. */
module PathsInPlace {
  import opened Text
  import opened Json
  import opened JsonHeap
  import opened Paths

  // ----- Where a write lands -----

  /** What the cursor reaches by one segment; an absent field reads as nil. */
  ghost function Reached(sh: Shape, seg: Segment): Option<Shape> {
    if !sh.NodeShape? then None
    else if seg.key !in sh.kids then if seg.index < 0 then Some(LeafShape(Null)) else None
    else
      var kid := sh.kids[seg.key];
      if seg.index < 0 then Some(kid)
      else if kid.ListShape? && seg.index < |kid.items| then Some(kid.items[seg.index]) else None
  }

  /** The tree whose field or element the last segment names. */
  ghost function Parent(sh: Shape, segs: seq<Segment>): Option<Shape>
    requires segs != []
    decreases |segs|
  {
    if |segs| == 1 then Some(sh)
    else
      var next := Reached(sh, segs[0]);
      if next.None? then None else Parent(next.value, segs[1..])
  }

  /** A write by one segment is possible. */
  ghost predicate Writable(sh: Shape, seg: Segment) {
    sh.NodeShape? && (seg.index < 0 || (seg.key in sh.kids && Reached(sh, seg).Some?))
  }

  /** The object the write assigns to. */
  ghost function Assigned(sh: Shape, seg: Segment): object
    requires Writable(sh, seg)
  {
    if seg.index < 0 then sh.m else sh.kids[seg.key].l
  }

  /** The tree with the place one segment names replaced. */
  ghost function Replaced(sh: Shape, seg: Segment, v: Shape): Shape
    requires Writable(sh, seg)
  {
    var foot := sh.foot + Foot(v);
    if seg.index < 0 then NodeShape(sh.m, sh.kids[seg.key := v], foot)
    else
      var kid := sh.kids[seg.key];
      NodeShape(sh.m, sh.kids[seg.key := ListShape(kid.l, kid.items[seg.index := v], kid.foot + Foot(v))], foot)
  }

  /** The write goes through: down to a parent that it can assign to. */
  ghost predicate Placeable(sh: Shape, segs: seq<Segment>)
    requires segs != []
    decreases |segs|
  {
    if |segs| == 1 then Writable(sh, segs[0])
    else
      sh.NodeShape? && segs[0].key in sh.kids && Reached(sh, segs[0]).Some? &&
      Placeable(Reached(sh, segs[0]).value, segs[1..])
  }

  /** The tree after the write. */
  ghost function Placed(sh: Shape, segs: seq<Segment>, v: Shape): Shape
    requires segs != [] && Placeable(sh, segs)
    decreases |segs|
  {
    Replaced(sh, segs[0], if |segs| == 1 then v else Placed(Reached(sh, segs[0]).value, segs[1..], v))
  }

  lemma {:induction false} ReplacedSeparate(sh: Shape, seg: Segment, v: Shape, grown: set<object>)
    requires Separate(sh) && Writable(sh, seg) && Separate(v)
    requires Foot(v) <= grown +
      (if seg.key in sh.kids && Reached(sh, seg).Some? then Foot(Reached(sh, seg).value) else {})
    requires grown !! Foot(sh)
    ensures Separate(Replaced(sh, seg, v)) && Foot(Replaced(sh, seg, v)) <= Foot(sh) + grown
  {
  }

  lemma {:induction false} ReplacedModel(sh: Shape, seg: Segment, v: Shape)
    requires Writable(sh, seg)
    ensures Model(sh).Obj? && (seg.index < 0 || Child(Model(sh).fields, seg).Ok?)
    ensures Model(Replaced(sh, seg, v)) == Obj(Replace(Model(sh).fields, seg, Model(v)))
  {
    var out := Replaced(sh, seg, v);
    assert Model(out).fields.Keys == out.kids.Keys;
    if seg.index < 0 {
      assert Model(out).fields == Replace(Model(sh).fields, seg, Model(v));
    } else {
      assert Model(out.kids[seg.key]).items == Model(sh.kids[seg.key]).items[seg.index := Model(v)];
      assert Model(out).fields == Replace(Model(sh).fields, seg, Model(v));
    }
  }

  /** What the cursor reaches is what reading the segment gives; a field that is absent is nil. */
  lemma {:induction false} ReachedIsChild(sh: Shape, seg: Segment)
    requires Separate(sh) && sh.NodeShape?
    ensures Model(sh).Obj? && (Reached(sh, seg).Some? && seg.key in sh.kids <==> Child(Model(sh).fields, seg).Ok?)
    ensures Reached(sh, seg).Some? && seg.key in sh.kids ==>
      Separate(Reached(sh, seg).value) && Foot(Reached(sh, seg).value) <= Foot(sh)
      && Model(Reached(sh, seg).value) == Child(Model(sh).fields, seg).value
    ensures seg.key in sh.kids <==> seg.key in Model(sh).fields
  {
    if seg.key in sh.kids {
      var kid := sh.kids[seg.key];
      assert Model(sh).fields[seg.key] == Model(kid);
      assert Model(kid).Arr? <==> kid.ListShape?;
    }
  }

  /** Placing in a tree is writing in the JSON it stands for. */
  lemma {:induction false} PlacedIsSet(sh: Shape, segs: seq<Segment>, v: Shape)
    requires segs != [] && Separate(sh) && Separate(v) && Foot(v) !! Foot(sh)
    ensures Placeable(sh, segs) <==> Set(Model(sh), segs, Model(v)).Ok?
    ensures Placeable(sh, segs) ==>
      && Model(Placed(sh, segs, v)) == Set(Model(sh), segs, Model(v)).value
      && Separate(Placed(sh, segs, v)) && Foot(Placed(sh, segs, v)) <= Foot(sh) + Foot(v)
    decreases |segs|
  {
    if sh.NodeShape? {
      ReachedIsChild(sh, segs[0]);
      if |segs| == 1 {
        if Placeable(sh, segs) {
          ReplacedSeparate(sh, segs[0], v, Foot(v));
          ReplacedModel(sh, segs[0], v);
        }
      } else if segs[0].key in sh.kids && Reached(sh, segs[0]).Some? {
        var next := Reached(sh, segs[0]).value;
        PlacedIsSet(next, segs[1..], v);
        if Placeable(sh, segs) {
          PlacedDeeper(sh, segs, v);
        }
      }
    }
  }

  lemma {:induction false} PlacedDeeper(sh: Shape, segs: seq<Segment>, v: Shape)
    requires |segs| > 1 && Separate(sh) && Separate(v) && Foot(v) !! Foot(sh) && Placeable(sh, segs)
    requires var next := Reached(sh, segs[0]).value;
      && Separate(Placed(next, segs[1..], v)) && Foot(Placed(next, segs[1..], v)) <= Foot(next) + Foot(v)
      && Set(Model(next), segs[1..], Model(v)) == Ok(Model(Placed(next, segs[1..], v)))
    ensures Set(Model(sh), segs, Model(v)) == Ok(Model(Placed(sh, segs, v)))
    ensures Separate(Placed(sh, segs, v)) && Foot(Placed(sh, segs, v)) <= Foot(sh) + Foot(v)
  {
    var grownKid := Placed(Reached(sh, segs[0]).value, segs[1..], v);
    ReachedIsChild(sh, segs[0]);
    ReplacedSeparate(sh, segs[0], grownKid, Foot(v));
    ReplacedModel(sh, segs[0], grownKid);
  }

  // ----- Contents -----

  /** What the objects hold at one moment. */
  datatype Contents = Contents(maps: map<MapNode, map<string, Value>>, lists: map<ListNode, seq<Value>>)

  ghost function Snapshot(foot: set<object>): Contents
    reads foot
  {
    Contents(map m: MapNode | m in foot :: m.fields, map l: ListNode | l in foot :: l.items)
  }

  /** The tree is there by these contents. */
  ghost predicate HeldIn(c: Contents, v: Value, sh: Shape)
    decreases sh
  {
    match sh
    case LeafShape(j) => v == Leaf(j)
    case NodeShape(m, kids, _) =>
      v == Node(m) && m in c.maps && c.maps[m].Keys == kids.Keys &&
          forall k :: k in kids ==> HeldIn(c, c.maps[m][k], kids[k])
    case ListShape(l, items, _) =>
      v == List(l) && l in c.lists && |c.lists[l]| == |items| &&
          forall i :: 0 <= i < |items| ==> HeldIn(c, c.lists[l][i], items[i])
  }

  lemma {:induction false} HeldIffHolds(v: Value, sh: Shape, foot: set<object>)
    requires Separate(sh) && Foot(sh) <= foot
    ensures HeldIn(Snapshot(foot), v, sh) <==> Holds(v, sh)
    decreases sh
  {
    match sh
    case LeafShape(_) =>
    case NodeShape(m, kids, _) =>
      if m.fields.Keys == kids.Keys {
        forall k | k in kids ensures HeldIn(Snapshot(foot), m.fields[k], kids[k]) <==> Holds(m.fields[k], kids[k]) {
          HeldIffHolds(m.fields[k], kids[k], foot);
        }
      }
    case ListShape(l, items, _) =>
      if |l.items| == |items| {
        forall i | 0 <= i < |items| ensures HeldIn(Snapshot(foot), l.items[i], items[i]) <==>
            Holds(l.items[i], items[i]) {
          HeldIffHolds(l.items[i], items[i], foot);
        }
      }
  }

  ghost predicate SameOn(c: Contents, d: Contents, foot: set<object>) {
    && (forall m: MapNode :: m in foot && m in c.maps ==> m in d.maps && d.maps[m] == c.maps[m])
    && (forall l: ListNode :: l in foot && l in c.lists ==> l in d.lists && d.lists[l] == c.lists[l])
  }

  /** A tree whose nodes hold the same is still there. */
  lemma {:induction false} StillHeld(c: Contents, d: Contents, v: Value, sh: Shape, foot: set<object>)
    requires Separate(sh) && HeldIn(c, v, sh) && SameOn(c, d, foot) && Foot(sh) <= foot
    ensures HeldIn(d, v, sh)
    decreases sh
  {
    match sh
    case LeafShape(_) =>
    case NodeShape(m, kids, _) =>
      forall k | k in kids ensures HeldIn(d, d.maps[m][k], kids[k]) {
        StillHeld(c, d, c.maps[m][k], kids[k], foot);
      }
    case ListShape(l, items, _) =>
      forall i | 0 <= i < |items| ensures HeldIn(d, d.lists[l][i], items[i]) {
        StillHeld(c, d, c.lists[l][i], items[i], foot);
      }
  }

  // ----- The write in the heap -----

  /** The one object the whole write assigns to. */
  ghost function Target(sh: Shape, segs: seq<Segment>): object
    requires segs != [] && Placeable(sh, segs)
    decreases |segs|
  {
    if |segs| == 1 then Assigned(sh, segs[0]) else Target(Reached(sh, segs[0]).value, segs[1..])
  }

  lemma {:induction false} TargetInFoot(sh: Shape, segs: seq<Segment>)
    requires segs != [] && Separate(sh) && Placeable(sh, segs)
    ensures Target(sh, segs) in Foot(sh)
    decreases |segs|
  {
    if |segs| > 1 {
      ReachedIsChild(sh, segs[0]);
      TargetInFoot(Reached(sh, segs[0]).value, segs[1..]);
    }
  }

  /** One assignment, to the target, of the place the last segment names. */
  ghost predicate Assigns(c: Contents, d: Contents, sh: Shape, seg: Segment, value: Value)
    requires Writable(sh, seg)
  {
    if seg.index < 0 then sh.m in c.maps && sh.m in d.maps && d.maps[sh.m] == c.maps[sh.m][seg.key := value]
    else
      var l := sh.kids[seg.key].l;
      l in c.lists && l in d.lists && seg.index < |c.lists[l]| && d.lists[l] == c.lists[l][seg.index := value]
  }

  ghost predicate AssignsAt(c: Contents, d: Contents, sh: Shape, segs: seq<Segment>, value: Value)
    requires segs != [] && Placeable(sh, segs)
    decreases |segs|
  {
    if |segs| == 1 then Assigns(c, d, sh, segs[0], value)
        else AssignsAt(c, d, Reached(sh, segs[0]).value, segs[1..], value)
  }

  /** The value one segment down the tree. */
  ghost function Below(c: Contents, sh: Shape, seg: Segment): Value
    requires Writable(sh, seg) && seg.key in sh.kids && HeldIn(c, Node(sh.m), sh)
  {
    assert HeldIn(c, c.maps[sh.m][seg.key], sh.kids[seg.key]);
    if seg.index < 0 then c.maps[sh.m][seg.key] else c.lists[sh.kids[seg.key].l][seg.index]
  }

  /** The other fields are still there after an assignment below one of them, or to the map itself. */
  lemma {:induction false} OtherFieldsHeld(c: Contents, d: Contents, sh: Shape, key: string, t: object)
    requires Separate(sh) && sh.NodeShape? && HeldIn(c, Node(sh.m), sh) && SameOn(c, d, Foot(sh) - {t})
    requires t == sh.m || (key in sh.kids && t in Foot(sh.kids[key]))
    ensures forall k :: k in sh.kids && k != key ==> HeldIn(d, c.maps[sh.m][k], sh.kids[k])
  {
    forall k | k in sh.kids && k != key ensures HeldIn(d, c.maps[sh.m][k], sh.kids[k]) {
      assert Foot(sh.kids[k]) <= Foot(sh) - {t};
      StillHeld(c, d, c.maps[sh.m][k], sh.kids[k], Foot(sh) - {t});
    }
  }

  lemma {:induction false} OtherItemsHeld(c: Contents, d: Contents, sh: Shape, n: nat, foot: set<object>, t: object)
    requires Separate(sh) && sh.ListShape? && HeldIn(c, List(sh.l), sh) && SameOn(c, d, foot - {t}) && Foot(sh) <= foot
    requires n < |sh.items| && (t == sh.l || t in Foot(sh.items[n]))
    ensures forall i :: 0 <= i < |sh.items| && i != n ==> HeldIn(d, c.lists[sh.l][i], sh.items[i])
  {
    forall i | 0 <= i < |sh.items| && i != n ensures HeldIn(d, c.lists[sh.l][i], sh.items[i]) {
      assert Foot(sh.items[i]) <= foot - {t};
      StillHeld(c, d, c.lists[sh.l][i], sh.items[i], foot - {t});
    }
  }

  /** The assignment at its parent. */
  lemma {:induction false} LastHeld(c: Contents, d: Contents, sh: Shape, seg: Segment, value: Value, v: Shape)
    requires Separate(sh) && Writable(sh, seg) && HeldIn(c, Node(sh.m), sh) && HeldIn(d, value, v)
    requires SameOn(c, d, Foot(sh) - {Assigned(sh, seg)}) && Assigns(c, d, sh, seg, value)
    ensures HeldIn(d, Node(sh.m), Replaced(sh, seg, v))
  {
    var t := Assigned(sh, seg);
    if seg.index < 0 {
      OtherFieldsHeld(c, d, sh, seg.key, t);
    } else {
      var kid := sh.kids[seg.key];
      assert t in Foot(kid) && sh.m != t;
      OtherFieldsHeld(c, d, sh, seg.key, t);
      assert HeldIn(c, c.maps[sh.m][seg.key], kid);
      OtherItemsHeld(c, d, kid, seg.index, Foot(sh), t);
      assert d.maps[sh.m] == c.maps[sh.m];
      assert HeldIn(d, List(kid.l), Replaced(sh, seg, v).kids[seg.key]);
    }
  }

  /** An assignment further down, seen from above. */
  lemma {:induction false} DeeperHeld(c: Contents, d: Contents, sh: Shape, seg: Segment, kid': Shape, t: object)
    requires Separate(sh) && Writable(sh, seg) && seg.key in sh.kids && HeldIn(c, Node(sh.m), sh)
    requires SameOn(c, d, Foot(sh) - {t}) && t in Foot(Reached(sh, seg).value)
    requires HeldIn(d, Below(c, sh, seg), kid')
    ensures HeldIn(d, Node(sh.m), Replaced(sh, seg, kid'))
  {
    var kid := sh.kids[seg.key];
    assert t in Foot(kid) && sh.m != t;
    OtherFieldsHeld(c, d, sh, seg.key, t);
    assert d.maps[sh.m] == c.maps[sh.m];
    if seg.index >= 0 {
      assert HeldIn(c, c.maps[sh.m][seg.key], kid);
      assert kid.l != t;
      OtherItemsHeld(c, d, kid, seg.index, Foot(sh), t);
      assert d.lists[kid.l] == c.lists[kid.l];
      assert HeldIn(d, List(kid.l), Replaced(sh, seg, kid').kids[seg.key]);
    }
  }

  /** One assignment, and nothing else, leaves the placed tree. */
  lemma {:induction false} AssignedIsPlaced(c: Contents, d: Contents, cur: Value, sh: Shape, segs: seq<Segment>,
                                            value: Value, v: Shape)
    requires segs != [] && Separate(sh) && Placeable(sh, segs) && HeldIn(c, cur, sh) && HeldIn(d, value, v)
    requires SameOn(c, d, Foot(sh) - {Target(sh, segs)}) && AssignsAt(c, d, sh, segs, value)
    ensures HeldIn(d, cur, Placed(sh, segs, v))
    decreases |segs|
  {
    if |segs| == 1 {
      LastHeld(c, d, sh, segs[0], value, v);
    } else {
      var next, t := Reached(sh, segs[0]).value, Target(sh, segs);
      ReachedIsChild(sh, segs[0]);
      TargetInFoot(next, segs[1..]);
      assert HeldIn(c, c.maps[sh.m][segs[0].key], sh.kids[segs[0].key]);
      AssignedIsPlaced(c, d, Below(c, sh, segs[0]), next, segs[1..], value, v);
      DeeperHeld(c, d, sh, segs[0], Placed(next, segs[1..], v), t);
    }
  }

  // ----- The cursor -----

  function SetError(r: Result<Json>): Option<PathError> {
    if r.Err? then Some(r.error) else None
  }

  /** Writing by `segs` from `sh` is writing by `rest` from `below`: the same failure, or the same place. */
  ghost predicate SameWrite(sh: Shape, segs: seq<Segment>, below: Shape, rest: seq<Segment>, v: Json) {
    && segs != [] && rest != []
    && SetError(Set(Model(sh), segs, v)) == SetError(Set(Model(below), rest, v))
    && (Placeable(sh, segs) <==> Placeable(below, rest))
    && Parent(sh, segs) == Parent(below, rest) && segs[|segs| - 1] == rest[|rest| - 1]
  }

  /** The parent is what the assignment is at. */
  lemma {:induction false} AssignsAtParent(c: Contents, d: Contents, sh: Shape, segs: seq<Segment>, value: Value)
    requires segs != [] && Placeable(sh, segs)
    ensures var parent, last := Parent(sh, segs), segs[|segs| - 1];
      && parent.Some? && Writable(parent.value, last) && Target(sh, segs) == Assigned(parent.value, last)
      && (AssignsAt(c, d, sh, segs, value) <==> Assigns(c, d, parent.value, last, value))
    decreases |segs|
  {
    if |segs| > 1 {
      AssignsAtParent(c, d, Reached(sh, segs[0]).value, segs[1..], value);
    }
  }

  /** One step of the cursor. */
  lemma {:induction false} OneStepDown(sh: Shape, segs: seq<Segment>, v: Json)
    requires Separate(sh) && |segs| > 1 && Reached(sh, segs[0]).Some?
    ensures SameWrite(sh, segs, Reached(sh, segs[0]).value, segs[1..], v)
  {
    ReachedIsChild(sh, segs[0]);
    if segs[0].key !in sh.kids {
      assert Child(Model(sh).fields, segs[0]).error.Missing?;
    }
  }

  /** What stops a cursor at a segment. */
  ghost function Stop(sh: Shape, seg: Segment): PathError {
    if !sh.NodeShape? then NotObject(seg.key)
    else if seg.key !in sh.kids || !sh.kids[seg.key].ListShape? then NotArray(seg.key)
    else IndexTooLarge(seg.key, seg.index, |sh.kids[seg.key].items|)
  }

  /** A cursor that cannot go on fails the write as it stands there. */
  lemma {:induction false} Stuck(sh: Shape, segs: seq<Segment>, v: Json)
    requires Separate(sh) && segs != [] && (|segs| > 1 ==> Reached(sh, segs[0]).None?) &&
      (|segs| == 1 ==> !Writable(sh, segs[0]))
    ensures !Placeable(sh, segs)
    ensures var seg := segs[0];
      SetError(Set(Model(sh), segs, v)) ==
        Some(Stop(sh, seg))
  {
    if sh.NodeShape? {
      ReachedIsChild(sh, segs[0]);
      assert segs[0].key in sh.kids ==> (Model(sh.kids[segs[0].key]).Arr? <==> sh.kids[segs[0].key].ListShape?);
    }
  }

  /** Goes down all segments but the last. */
  method FindParent(obj: MapNode, path: string, ghost sh: Shape, ghost w: Json)
    returns (error: Option<PathError>, cur: Value, last: Segment, ghost below: Shape)
    requires Separate(sh) && Holds(Node(obj), sh)
    ensures error.Some? ==> error == SetError(Set(Model(sh), Segments(path), w))
    ensures error.None? ==> Separate(below) && Foot(below) <= Foot(sh) && Holds(cur, below)
    ensures error.None? ==> SameWrite(sh, Segments(path), below, [last], w)
  {
    var parts := Split(path, '.');
    ghost var segs := Segments(path);
    error, cur, below, last := None, Node(obj), sh, ParseSegment(parts[|parts| - 1]);
    assert segs[0..] == segs;
    for i := 0 to |parts| - 1
      invariant error.None? && Separate(below) && Foot(below) <= Foot(sh) && Holds(cur, below)
      invariant SameWrite(sh, segs, below, segs[i..], w)
    {
      var seg := ParseSegment(parts[i]);
      assert segs[i..][0] == seg && segs[i..][1..] == segs[i + 1..];
      error, cur := StepDown(cur, seg, below);
      if error.Some? {
        StuckBelow(sh, segs, below, segs[i..], w);
        return;
      }
      OneStepDown(below, segs[i..], w);
      SameWriteThen(sh, segs, below, segs[i..], Reached(below, seg).value, segs[i + 1..], w);
      below := Reached(below, seg).value;
    }
    assert segs[|parts| - 1..] == [last];
  }

  lemma {:induction false} StuckBelow(sh: Shape, segs: seq<Segment>, below: Shape, rest: seq<Segment>, v: Json)
    requires SameWrite(sh, segs, below, rest, v) && Separate(below)
    requires (|rest| > 1 ==> Reached(below, rest[0]).None?) && (|rest| == 1 ==> !Writable(below, rest[0]))
    ensures SetError(Set(Model(sh), segs, v)) == Some(Stop(below, rest[0]))
  {
    Stuck(below, rest, v);
  }

  /** The cursor at the parent. */
  lemma {:induction false} AtParent(sh: Shape, segs: seq<Segment>, below: Shape, last: Segment, v: Json)
    requires SameWrite(sh, segs, below, [last], v) && Writable(below, last)
    ensures segs != [] && Placeable(sh, segs) && Parent(sh, segs) == Some(below) && segs[|segs| - 1] == last
  {}

  lemma {:induction false} SameWriteThen(sh: Shape, segs: seq<Segment>, below: Shape, rest: seq<Segment>, lower: Shape,
                                         last: seq<Segment>, v: Json)
    requires SameWrite(sh, segs, below, rest, v) && SameWrite(below, rest, lower, last, v)
    ensures SameWrite(sh, segs, lower, last, v)
  {}

  method StepDown(cur: Value, seg: Segment, ghost below: Shape) returns (error: Option<PathError>, next: Value)
    requires Separate(below) && Holds(cur, below)
    ensures error == if Reached(below, seg).None? then Some(Stop(below, seg)) else None
    ensures error.None? ==> Separate(Reached(below, seg).value) && Foot(Reached(below, seg).value) <= Foot(below)
                            && Holds(next, Reached(below, seg).value)
  {
    next := cur;
    if !cur.Node? {
      return Some(NotObject(seg.key)), next;
    }
    var m := cur.m;
    assert seg.key in m.fields ==> Holds(m.fields[seg.key], below.kids[seg.key]);
    var val := if seg.key in m.fields then m.fields[seg.key] else Leaf(Null);
    if seg.index < 0 {
      return None, val;
    }
    if !val.List? {
      return Some(NotArray(seg.key)), next;
    }
    if seg.index >= |val.l.items| {
      return Some(IndexTooLarge(seg.key, seg.index, |val.l.items|)), next;
    }
    return None, val.l.items[seg.index];
  }

  /** Goes down all segments but the last, then assigns to one field or element. What is then in the heap is the JSON
      that writing at the path gives, or nothing has changed. */
  method SetAtPath(obj: MapNode, path: string, value: Value, ghost sh: Shape, ghost v: Shape)
    returns (error: Option<PathError>)
    requires Separate(sh) && Holds(Node(obj), sh) && Separate(v) && Holds(value, v) && Foot(v) !! Foot(sh)
    modifies Foot(sh)
    ensures error == SetError(Set(Model(sh), Segments(path), Model(v)))
    ensures error.Some? ==> forall o :: o in Foot(sh) ==> unchanged(o)
    ensures error.None? ==>
      && Placeable(sh, Segments(path)) && Separate(Placed(sh, Segments(path), v)) &&
          Holds(Node(obj), Placed(sh, Segments(path), v))
      && Model(Placed(sh, Segments(path), v)) == Set(Model(sh), Segments(path), Model(v)).value
  {
    ghost var segs, w := Segments(path), Model(v);
    ghost var below;
    var cur, last;
    error, cur, last, below := FindParent(obj, path, sh, w);
    if error.Some? {
      return;
    }
    error := CheckLast(cur, last, below);
    if error.Some? {
      StuckBelow(sh, segs, below, [last], w);
      return;
    }
    AtParent(sh, segs, below, last, w);
    PlacedIsSet(sh, segs, v);
    AssignInTree(obj, cur.m, last, value, below, sh, segs, v);
  }

  /** The assignment, seen from the root. */
  method AssignInTree(obj: MapNode, m: MapNode, last: Segment, value: Value, ghost below: Shape, ghost sh: Shape,
                      ghost segs: seq<Segment>, ghost v: Shape)
    requires Separate(sh) && Holds(Node(obj), sh) && Separate(v) && Holds(value, v) && Foot(v) !! Foot(sh)
    requires Separate(below) && Foot(below) <= Foot(sh) && Holds(Node(m), below) && Writable(below, last)
    requires segs != [] && Placeable(sh, segs) && Parent(sh, segs) == Some(below) && segs[|segs| - 1] == last
    requires Separate(Placed(sh, segs, v)) && Foot(Placed(sh, segs, v)) <= Foot(sh) + Foot(v)
    modifies Foot(sh)
    ensures Holds(Node(obj), Placed(sh, segs, v))
  {
    ghost var foot := Foot(sh) + Foot(v);
    ghost var c := Snapshot(foot);
    HeldIffHolds(Node(obj), sh, foot);
    AssignLast(m, last, value, below, sh, foot);
    AssignmentDone(c, Snapshot(foot), Node(obj), sh, segs, value, v, foot);
  }

  lemma {:induction false} AssignmentDone(c: Contents, d: Contents, cur: Value, sh: Shape, segs: seq<Segment>,
                                          value: Value, v: Shape, foot: set<object>)
    requires segs != [] && Separate(sh) && Separate(v) && Placeable(sh, segs) && HeldIn(c, cur, sh)
    requires foot == Foot(sh) + Foot(v) && d == Snapshot(foot) && Holds(value, v)
    requires var parent, last := Parent(sh, segs), segs[|segs| - 1];
      parent.Some? && Writable(parent.value, last)
      && SameOn(c, d, foot - {Assigned(parent.value, last)}) && Assigns(c, d, parent.value, last, value)
    requires Separate(Placed(sh, segs, v)) && Foot(Placed(sh, segs, v)) <= foot
    ensures Holds(cur, Placed(sh, segs, v))
  {
    HeldIffHolds(value, v, foot);
    AssignsAtParent(c, d, sh, segs, value);
    AssignedIsPlaced(c, d, cur, sh, segs, value, v);
    HeldIffHolds(cur, Placed(sh, segs, v), foot);
  }

  method CheckLast(cur: Value, last: Segment, ghost below: Shape) returns (error: Option<PathError>)
    requires Separate(below) && Holds(cur, below)
    ensures error == if Writable(below, last) then None else Some(Stop(below, last))
  {
    if !cur.Node? {
      return Some(NotObject(last.key));
    }
    var m := cur.m;
    if last.index >= 0 {
      if last.key !in m.fields || !m.fields[last.key].List? {
        return Some(NotArray(last.key));
      }
      if last.index >= |m.fields[last.key].l.items| {
        return Some(IndexTooLarge(last.key, last.index, |m.fields[last.key].l.items|));
      }
    }
    return None;
  }

  /** The assignment the last segment names. */
  method AssignLast(m: MapNode, last: Segment, value: Value, ghost below: Shape, ghost sh: Shape,
                    ghost foot: set<object>)
    requires Separate(below) && Foot(below) <= Foot(sh) <= foot && Holds(Node(m), below) && Writable(below, last)
    modifies Foot(sh)
    ensures SameOn(old(Snapshot(foot)), Snapshot(foot), foot - {Assigned(below, last)})
    ensures Assigns(old(Snapshot(foot)), Snapshot(foot), below, last, value)
  {
    if last.index >= 0 {
      assert Holds(m.fields[last.key], below.kids[last.key]);
      var l := m.fields[last.key].l;
      l.items := l.items[last.index := value];
      assert m.fields[last.key := List(l)] == m.fields;
      m.fields := m.fields[last.key := List(l)];
    } else {
      m.fields := m.fields[last.key := value];
    }
  }
}
