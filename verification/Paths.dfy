/** Dot-notation paths into a message: reading, writing, and the laws that tie the two together.
    schemaversionmediator.go: parsePathSegment, getAtPath, setAtPath. */
module Paths {
  import opened Text
  import opened Json

  /** A path segment: a field name and an array index. A negative index means no accessor. */
  datatype Segment = Segment(key: string, index: int)

  datatype PathError =
    | NotObject(key: string)
    | Missing(key: string)
    | NotArray(key: string)
    | IndexTooLarge(key: string, index: int, length: nat)

  datatype Result<+T> = Ok(value: T) | Err(error: PathError)

  function ParseSegment(s: string): Segment {
    var i := LastIndexChar(s, '[');
    if i >= 0 && HasSuffix(s, "]") then
      var n := ParseInt(s[i + 1..|s| - 1]);
      if n.Parsed? then Segment(s[..i], n.value) else Segment(s, -1)
    else Segment(s, -1)
  }

  function Segments(path: string): (segs: seq<Segment>)
    ensures segs != []
  {
    var parts := Split(path, '.');
    seq(|parts|, i requires 0 <= i < |parts| => ParseSegment(parts[i]))
  }

  /** What one segment selects in an object. */
  function Child(m: map<string, Json>, seg: Segment): Result<Json> {
    if seg.key !in m then Err(Missing(seg.key))
    else if seg.index < 0 then Ok(m[seg.key])
    else if !m[seg.key].Arr? then Err(NotArray(seg.key))
    else if seg.index >= |m[seg.key].items| then Err(IndexTooLarge(seg.key, seg.index, |m[seg.key].items|))
    else Ok(m[seg.key].items[seg.index])
  }

  function Get(j: Json, segs: seq<Segment>): Result<Json>
    decreases |segs|
  {
    if segs == [] then Ok(j)
    else if !j.Obj? then Err(NotObject(segs[0].key))
    else
      var c := Child(j.fields, segs[0]);
      if c.Err? then c else Get(c.value, segs[1..])
  }

  /** The field `key` of `m` with the selected place replaced by `v`. */
  function Replace(m: map<string, Json>, seg: Segment, v: Json): map<string, Json>
    requires seg.index < 0 || Child(m, seg).Ok?
  {
    if seg.index < 0 then m[seg.key := v] else m[seg.key := Arr(m[seg.key].items[seg.index := v])]
  }

  /** Writing goes down like reading, except that an absent field reads as nil on the way
      and is created at the end of the path. */
  function Set(j: Json, segs: seq<Segment>, v: Json): Result<Json>
    requires segs != []
    decreases |segs|
  {
    var seg := segs[0];
    if !j.Obj? then Err(NotObject(seg.key))
    else
      var c := Child(j.fields, seg);
      if c.Err? && c.error.Missing? then
        if seg.index >= 0 then Err(NotArray(seg.key))
        else if |segs| == 1 then Ok(Obj(Replace(j.fields, seg, v)))
        else Err(NotObject(segs[1].key))
      else if c.Err? then Err(c.error)
      else if |segs| == 1 then Ok(Obj(Replace(j.fields, seg, v)))
      else
        var r := Set(c.value, segs[1..], v);
        if r.Err? then r else Ok(Obj(Replace(j.fields, seg, r.value)))
  }

  lemma {:induction false} GetStep(cur: Json, segs: seq<Segment>, i: nat)
    requires i < |segs|
    ensures !cur.Obj? ==> Get(cur, segs[i..]) == Err(NotObject(segs[i].key))
    ensures cur.Obj? ==>
      var c := Child(cur.fields, segs[i]);
      Get(cur, segs[i..]) == if c.Err? then c else Get(c.value, segs[i + 1..])
  {
    assert segs[i..][0] == segs[i] && segs[i..][1..] == segs[i + 1..];
  }

  /** `getAtPath`: walks the segments with one moving cursor. */
  method GetAtPath(obj: map<string, Json>, path: string) returns (r: Result<Json>)
    ensures r == Get(Obj(obj), Segments(path))
  {
    var cur := Obj(obj);
    var parts := Split(path, '.');
    var segs := Segments(path);
    for i := 0 to |parts|
      invariant Get(Obj(obj), segs) == Get(cur, segs[i..])
    {
      var seg := ParseSegment(parts[i]);
      GetStep(cur, segs, i);
      if !cur.Obj? {
        return Err(NotObject(seg.key));
      }
      if seg.key !in cur.fields {
        return Err(Missing(seg.key));
      }
      var val := cur.fields[seg.key];
      if seg.index >= 0 {
        if !val.Arr? {
          return Err(NotArray(seg.key));
        }
        if seg.index >= |val.items| {
          return Err(IndexTooLarge(seg.key, seg.index, |val.items|));
        }
        cur := val.items[seg.index];
      } else {
        cur := val;
      }
    }
    r := Ok(cur);
  }

  // ----- Lens laws -----

  /** The steps a path takes through the tree. */
  function Steps(segs: seq<Segment>): Addr {
    if segs == [] then []
    else StepsOf(segs[0]) + Steps(segs[1..])
  }

  function StepsOf(seg: Segment): Addr {
    if seg.index >= 0 then [Key(seg.key), Idx(seg.index)] else [Key(seg.key)]
  }

  predicate Comparable(p: seq<Segment>, q: seq<Segment>) {
    Steps(p) <= Steps(q) || Steps(q) <= Steps(p)
  }

  /** A path that can be read can be written. */
  lemma {:induction false} ReadableIsWritable(j: Json, p: seq<Segment>, v: Json)
    requires p != [] && Get(j, p).Ok?
    ensures Set(j, p, v).Ok?
    decreases |p|
  {
    if |p| > 1 { ReadableIsWritable(Child(j.fields, p[0]).value, p[1..], v); }
  }

  /** Reading back a path just written gives the written value. */
  lemma {:induction false} SetThenGet(j: Json, p: seq<Segment>, v: Json)
    requires p != [] && Set(j, p, v).Ok?
    ensures Get(Set(j, p, v).value, p) == Ok(v)
    decreases |p|
  {
    if |p| > 1 { SetThenGet(Child(j.fields, p[0]).value, p[1..], v); }
  }

  /** Writing back the value just read changes nothing. */
  lemma {:induction false} GetThenSet(j: Json, p: seq<Segment>)
    requires p != [] && Get(j, p).Ok?
    ensures Set(j, p, Get(j, p).value) == Ok(j)
    decreases |p|
  {
    var c := Child(j.fields, p[0]).value;
    if |p| > 1 { GetThenSet(c, p[1..]); }
    if p[0].index >= 0 {
      var items := j.fields[p[0].key].items;
      assert items[p[0].index := c] == items;
    }
    assert Replace(j.fields, p[0], c) == j.fields;
  }

  /** The second of two writes to one path wins. */
  lemma {:induction false} SetThenSet(j: Json, p: seq<Segment>, v: Json, w: Json)
    requires p != [] && Set(j, p, v).Ok?
    ensures Set(Set(j, p, v).value, p, w) == Set(j, p, w)
    decreases |p|
  {
    if |p| > 1 { SetThenSet(Child(j.fields, p[0]).value, p[1..], v, w); }
    ReplaceTwice(j.fields, p[0], if |p| == 1 then v else Set(Child(j.fields, p[0]).value, p[1..], v).value,
                 if |p| == 1 then w else Json.Null);
    if |p| > 1 && Set(Child(j.fields, p[0]).value, p[1..], w).Ok? {
      ReplaceTwice(j.fields, p[0], Set(Child(j.fields, p[0]).value, p[1..], v).value,
                   Set(Child(j.fields, p[0]).value, p[1..], w).value);
    }
  }

  lemma {:induction false} ReplaceTwice(m: map<string, Json>, seg: Segment, v: Json, w: Json)
    requires seg.index < 0 || Child(m, seg).Ok?
    ensures Child(Replace(m, seg, v), seg) == Ok(v)
    ensures Replace(Replace(m, seg, v), seg, w) == Replace(m, seg, w)
  {
    if seg.index >= 0 {
      var items := m[seg.key].items;
      assert items[seg.index := v][seg.index := w] == items[seg.index := w];
    }
  }

  /** A write succeeds exactly on readable paths and on absent fields of readable objects. */
  lemma {:induction false} SetSucceedsIff(j: Json, p: seq<Segment>, v: Json)
    requires p != []
    ensures var n := |p| - 1;
      Set(j, p, v).Ok? <==>
        Get(j, p).Ok? || (p[n].index < 0 && Get(j, p[..n]).Ok? && Get(j, p[..n]).value.Obj?)
    decreases |p|
  {
    if |p| > 1 && j.Obj? && Child(j.fields, p[0]).Ok? {
      assert p[..|p| - 1][1..] == p[1..][..|p| - 2];
      SetSucceedsIff(Child(j.fields, p[0]).value, p[1..], v);
    }
  }

  /** A write leaves the outcome of reading any path that neither extends it nor is extended by it. */
  lemma {:induction false} SetElsewhere(j: Json, p: seq<Segment>, v: Json, q: seq<Segment>)
    requires p != [] && Set(j, p, v).Ok? && !Comparable(p, q)
    ensures Get(Set(j, p, v).value, q) == Get(j, q)
    decreases |p|
  {
    SelectionsDiffer(p, q);
    if SameSelection(p[0], q[0]) {
      SetElsewhere(Child(j.fields, p[0]).value, p[1..], v, q[1..]);
      SameSelectionReads(j, p, v, q);
    } else {
      OtherSelectionReads(j, p, v, q);
    }
  }

  lemma {:induction false} SameSelectionReads(j: Json, p: seq<Segment>, v: Json, q: seq<Segment>)
    requires |p| > 1 && Set(j, p, v).Ok? && q != [] && SameSelection(p[0], q[0])
    requires var c := Child(j.fields, p[0]).value; Get(Set(c, p[1..], v).value, q[1..]) == Get(c, q[1..])
    ensures Get(Set(j, p, v).value, q) == Get(j, q)
  {
    ReplaceTwice(j.fields, p[0], Set(Child(j.fields, p[0]).value, p[1..], v).value, v);
  }

  /** Paths that select differently at once: at most, one goes into the array that the other takes as a whole. */
  lemma {:induction false} OtherSelectionReads(j: Json, p: seq<Segment>, v: Json, q: seq<Segment>)
    requires p != [] && q != [] && Set(j, p, v).Ok? && !SameSelection(p[0], q[0])
    requires p[0].key == q[0].key && p[0].index < 0 <= q[0].index ==> |p| > 1
    requires p[0].key == q[0].key && q[0].index < 0 <= p[0].index ==> |q| > 1
    ensures Get(Set(j, p, v).value, q) == Get(j, q)
  {
    var w := if |p| == 1 then v else Set(Child(j.fields, p[0]).value, p[1..], v).value;
    assert Set(j, p, v).value == Obj(Replace(j.fields, p[0], w));
    if p[0].key != q[0].key {
      assert Child(Replace(j.fields, p[0], w), q[0]) == Child(j.fields, q[0]);
    }
  }

  /** A write leaves every address that neither extends the path nor is extended by it. */
  lemma {:induction false} SetKeepsAddress(j: Json, p: seq<Segment>, v: Json, b: Addr)
    requires p != [] && Set(j, p, v).Ok?
    requires !(Steps(p) <= b) && !(b <= Steps(p))
    ensures At(Set(j, p, v).value, b) == At(j, b)
    decreases |p|
  {
    var seg := p[0];
    if StepsOf(seg) <= b {
      var c, rest := TailGoesOn(j, p, v, b);
      SetKeepsAddress(c, p[1..], v, rest);
      AtSelection(j, b, seg);
      AtSelection(Set(j, p, v).value, b, seg);
    } else {
      StepsCons(p);
      var w := if |p| == 1 then v else Set(Child(j.fields, seg).value, p[1..], v).value;
      assert Set(j, p, v).value == Obj(Replace(j.fields, seg, w));
      ReplaceKeepsAddress(j.fields, seg, w, b);
    }
  }

  lemma {:induction false} StepsCons(p: seq<Segment>)
    requires p != []
    ensures Steps(p) == StepsOf(p[0]) + Steps(p[1..]) && (|p| == 1 ==> Steps(p) == StepsOf(p[0]))
  {}

  /** Below the first selection, the rest of the write and the rest of the address are again apart. */
  lemma {:induction false} TailGoesOn(j: Json, p: seq<Segment>, v: Json, b: Addr) returns (c: Json, rest: Addr)
    requires p != [] && Set(j, p, v).Ok? && StepsOf(p[0]) <= b && !(Steps(p) <= b) && !(b <= Steps(p))
    ensures |p| > 1 && Child(j.fields, p[0]) == Ok(c) && Set(c, p[1..], v).Ok?
    ensures Set(j, p, v).value == Obj(Replace(j.fields, p[0], Set(c, p[1..], v).value))
    ensures rest == b[|StepsOf(p[0])|..] && !(Steps(p[1..]) <= rest) && !(rest <= Steps(p[1..]))
  {
    var first := StepsOf(p[0]);
    rest := b[|first|..];
    StepsCons(p);
    assert b == first + rest;
    PrefixAfter(first, Steps(p[1..]), rest);
    PrefixAfter(first, rest, Steps(p[1..]));
    c := Child(j.fields, p[0]).value;
  }

  lemma {:induction false} AtSelection(j: Json, b: Addr, seg: Segment)
    requires j.Obj? && Child(j.fields, seg).Ok? && StepsOf(seg) <= b
    ensures At(j, b) == At(Child(j.fields, seg).value, b[|StepsOf(seg)|..])
  {
    if seg.index >= 0 {
      assert b[1..][0] == b[1] && b[1..][1..] == b[2..];
    }
  }

  lemma {:induction false} ReplaceKeepsAddress(m: map<string, Json>, seg: Segment, v: Json, b: Addr)
    requires (seg.index < 0 || Child(m, seg).Ok?) && !(StepsOf(seg) <= b) && !(b <= StepsOf(seg))
    ensures At(Obj(Replace(m, seg, v)), b) == At(Obj(m), b)
  {
    if b[0] == Key(seg.key) {
      assert b[1..][0] == b[1];
    }
  }

  predicate SameSelection(s: Segment, t: Segment) {
    s.key == t.key && (s.index == t.index || (s.index < 0 && t.index < 0))
  }

  lemma {:induction false} PrefixAfter(a: Addr, s: Addr, t: Addr)
    ensures s <= t ==> a + s <= a + t
  {}

  /** Incomparable paths that start alike go on to be incomparable; if one indexes where the other
      does not, the other goes on. */
  lemma {:induction false} SelectionsDiffer(p: seq<Segment>, q: seq<Segment>)
    requires p != [] && !Comparable(p, q)
    ensures q != []
    ensures SameSelection(p[0], q[0]) ==> |p| > 1 && |q| > 1 && !Comparable(p[1..], q[1..])
    ensures p[0].key == q[0].key && p[0].index < 0 <= q[0].index ==> |p| > 1
    ensures p[0].key == q[0].key && q[0].index < 0 <= p[0].index ==> |q| > 1
  {
    assert q != [] by { assert Steps([]) == []; }
    StartAlike(p, q);
    if p[0].key == q[0].key && p[0].index < 0 <= q[0].index && |p| == 1 {
      ShortStep(p, q);
    }
    if p[0].key == q[0].key && q[0].index < 0 <= p[0].index && |q| == 1 {
      ShortStep(q, p);
    }
  }

  lemma {:induction false} StartAlike(p: seq<Segment>, q: seq<Segment>)
    requires p != [] && q != [] && !Comparable(p, q)
    ensures SameSelection(p[0], q[0]) ==> |p| > 1 && |q| > 1 && !Comparable(p[1..], q[1..])
  {
    var a, s, t := StepsOf(p[0]), Steps(p[1..]), Steps(q[1..]);
    if SameSelection(p[0], q[0]) {
      assert Steps(p) == a + s && Steps(q) == a + t;
      PrefixAfter(a, s, t);
      PrefixAfter(a, t, s);
      assert |p| == 1 ==> s == [];
      assert |q| == 1 ==> t == [];
    }
  }

  lemma {:induction false} ShortStep(p: seq<Segment>, q: seq<Segment>)
    requires |p| == 1 && q != [] && p[0].key == q[0].key && p[0].index < 0
    ensures Steps(p) <= Steps(q)
  {
    assert Steps(p[1..]) == [];
    assert Steps(p) == [Key(p[0].key)];
    assert Steps(q)[0] == Key(q[0].key);
  }

  lemma {:induction false} GetConcat(j: Json, p: seq<Segment>, q: seq<Segment>)
    ensures Get(j, p + q) == (if Get(j, p).Ok? then Get(Get(j, p).value, q) else Get(j, p))
    decreases |p|
  {
    if p == [] {
      assert p + q == q;
    } else {
      assert (p + q)[1..] == p[1..] + q;
      if j.Obj? && Child(j.fields, p[0]).Ok? { GetConcat(Child(j.fields, p[0]).value, p[1..], q); }
    }
  }

  /** Below the written place, reads see the new value. */
  lemma {:induction false} SetBelow(j: Json, p: seq<Segment>, v: Json, rest: seq<Segment>)
    requires p != [] && Set(j, p, v).Ok?
    ensures Get(Set(j, p, v).value, p + rest) == Get(v, rest)
  {
    SetThenGet(j, p, v);
    GetConcat(Set(j, p, v).value, p, rest);
  }

  /** Above the written place, reads see the old value with the rest of the path written. */
  lemma {:induction false} SetAbove(j: Json, q: seq<Segment>, rest: seq<Segment>, v: Json)
    requires rest != [] && Set(j, q + rest, v).Ok?
    ensures Get(j, q).Ok? && Get(Set(j, q + rest, v).value, q) == Set(Get(j, q).value, rest, v)
    decreases |q|
  {
    if q == [] {
      assert q + rest == rest;
    } else {
      assert (q + rest)[1..] == q[1..] + rest;
      SetAbove(Child(j.fields, q[0]).value, q[1..], rest, v);
    }
  }

  // ----- Printing an address and reading it back -----

  function StepText(s: Step): string {
    match s
    case Key(k) => "." + k
    case Idx(i) => "[" + FormatInt(i) + "]"
  }

  /** What the walk appends to a node's path on the way down `a`. */
  function Suffix(a: Addr): string {
    if a == [] then "" else StepText(a[0]) + Suffix(a[1..])
  }

  /** A field name that a path segment can carry: no separator, and not itself of the form `name[n]`. */
  predicate SafeKey(k: string) {
    '.' !in k && ParseSegment(k) == Segment(k, -1)
  }

  /** An address that starts with a field and never indexes an array element directly. */
  predicate Printable(a: Addr) {
    a == [] || (a[0].Key? && SafeKey(a[0].key) &&
      (if |a| > 1 && a[1].Idx? then a[1].index <= MAX_INT64 && Printable(a[2..]) else Printable(a[1..])))
  }

  function SegmentsOf(a: Addr): seq<Segment>
    requires Printable(a)
  {
    if a == [] then []
    else if |a| > 1 && a[1].Idx? then [Segment(a[0].key, a[1].index)] + SegmentsOf(a[2..])
    else [Segment(a[0].key, -1)] + SegmentsOf(a[1..])
  }

  /** The path text of a nonempty address that starts with a field, without the leading dot. */
  function RelText(a: Addr): string
    requires a != [] && a[0].Key?
  {
    a[0].key + Suffix(a[1..])
  }

  function SegmentText(seg: Segment): string {
    if seg.index >= 0 then seg.key + StepText(Idx(seg.index)) else seg.key
  }

  function Texts(segs: seq<Segment>): (texts: seq<string>)
    ensures |texts| == |segs| && forall i :: 0 <= i < |segs| ==> texts[i] == SegmentText(segs[i])
  {
    seq(|segs|, i requires 0 <= i < |segs| => SegmentText(segs[i]))
  }

  lemma {:induction false} KeysWithoutBracketsAreSafe(k: string)
    ensures '.' !in k && '[' !in k ==> SafeKey(k)
  {}

  lemma {:induction false} ParseBracketed(k: string, body: string)
    requires '[' !in body && ParseInt(body).Parsed?
    ensures ParseSegment(k + "[" + body + "]") == Segment(k, ParseInt(body).value)
  {
    var s := k + "[" + body + "]";
    LastAt(s, '[', |k|);
    assert s[|k| + 1..|s| - 1] == body && s[..|k|] == k;
  }

  lemma {:induction false} ParseIndexed(k: string, i: nat)
    requires i <= MAX_INT64
    ensures ParseSegment(SegmentText(Segment(k, i))) == Segment(k, i)
  {
    ParseFormat(i);
    ParseBracketed(k, FormatInt(i));
    IndexedText(k, i, FormatInt(i));
  }

  lemma {:induction false} IndexedText(k: string, i: nat, digits: string)
    requires digits == FormatInt(i)
    ensures SegmentText(Segment(k, i)) == k + "[" + digits + "]"
  {}

  function FirstLength(a: Addr): nat {
    if |a| > 1 && a[1].Idx? then 2 else 1
  }

  lemma {:induction false} RelTextFirst(a: Addr)
    requires Printable(a) && a != []
    ensures RelText(a) == SegmentText(SegmentsOf(a)[0]) + Suffix(a[FirstLength(a)..])
  {
    if FirstLength(a) == 2 {
      assert a[1..][0] == a[1] && a[1..][1..] == a[2..];
    }
  }

  lemma {:induction false} RelTextIsJoin(a: Addr)
    requires Printable(a) && a != []
    ensures SegmentsOf(a) != [] && RelText(a) == Join(Texts(SegmentsOf(a)), '.')
    decreases |a|
  {
    var rest := a[FirstLength(a)..];
    SegmentsCons(a);
    RelTextFirst(a);
    var first := SegmentText(SegmentsOf(a)[0]);
    var others := Texts(SegmentsOf(rest));
    assert Texts(SegmentsOf(a)) == [first] + others;
    if rest != [] {
      RelTextIsJoin(rest);
      SuffixOfKey(rest);
      JoinCons(first, others);
    }
  }

  lemma {:induction false} JoinCons(first: string, others: seq<string>)
    requires others != []
    ensures Join([first] + others, '.') == first + ("." + Join(others, '.'))
  {
    assert ([first] + others)[1..] == others;
  }

  lemma {:induction false} SegmentsCons(a: Addr)
    requires Printable(a) && a != []
    ensures var rest := a[FirstLength(a)..];
      Printable(rest) && SegmentsOf(a) == [SegmentsOf(a)[0]] + SegmentsOf(rest) && (rest == [] || rest[0].Key?)
  {}

  lemma {:induction false} SuffixOfKey(a: Addr)
    requires a != [] && a[0].Key?
    ensures Suffix(a) == "." + RelText(a)
  {}

  lemma {:induction false} FirstTextParses(a: Addr)
    requires Printable(a) && a != []
    ensures var seg := SegmentsOf(a)[0]; '.' !in SegmentText(seg) && ParseSegment(SegmentText(seg)) == seg
  {
    if FirstLength(a) == 2 {
      var k, i := a[0].key, a[1].index;
      assert SegmentsOf(a)[0] == Segment(k, i);
      ParseIndexed(k, i);
      IndexedText(k, i, FormatInt(i));
    } else {
      assert SegmentsOf(a)[0] == Segment(a[0].key, -1);
    }
  }

  /** Every segment of a printable address survives being printed and parsed. */
  lemma {:induction false} SegmentTextsParse(a: Addr)
    requires Printable(a)
    ensures forall seg :: seg in SegmentsOf(a) ==> '.' !in SegmentText(seg) && ParseSegment(SegmentText(seg)) == seg
    decreases |a|
  {
    if a != [] {
      FirstTextParses(a);
      SegmentTextsParse(a[FirstLength(a)..]);
      SegmentsCons(a);
    }
  }

  /** The segments of a printed address are the address. */
  lemma {:induction false} SegmentsOfText(a: Addr)
    requires Printable(a) && a != []
    ensures Segments(RelText(a)) == SegmentsOf(a)
  {
    RelTextIsJoin(a);
    SegmentTextsParse(a);
    TextsParse(SegmentsOf(a));
  }

  lemma {:induction false} TextsParse(segs: seq<Segment>)
    requires segs != []
    requires forall seg :: seg in segs ==> '.' !in SegmentText(seg) && ParseSegment(SegmentText(seg)) == seg
    ensures Segments(Join(Texts(segs), '.')) == segs
  {
    var texts := Texts(segs);
    forall i | 0 <= i < |segs| ensures '.' !in texts[i] && ParseSegment(texts[i]) == segs[i] {
      assert segs[i] in segs;
    }
    SplitJoin(texts, '.');
  }

  lemma {:induction false} StepsOfSegments(a: Addr)
    requires Printable(a)
    ensures Steps(SegmentsOf(a)) == a
    decreases |a|
  {
    if a != [] {
      if |a| > 1 && a[1].Idx? { StepsOfSegments(a[2..]); } else { StepsOfSegments(a[1..]); }
    }
  }

  /** Different addresses print as different texts. */
  lemma {:induction false} RelTextInjective(a: Addr, b: Addr)
    requires Printable(a) && Printable(b) && a != [] && b != []
    requires RelText(a) == RelText(b)
    ensures a == b
  {
    SegmentsOfText(a);
    SegmentsOfText(b);
    StepsOfSegments(a);
    StepsOfSegments(b);
  }

  lemma {:induction false} AtFirst(j: Json, a: Addr)
    requires Printable(a) && a != []
    ensures var seg := SegmentsOf(a)[0];
      At(j, a) ==
        if j.Obj? && Child(j.fields, seg).Ok? then At(Child(j.fields, seg).value, a[FirstLength(a)..]) else None
  {
    if FirstLength(a) == 2 {
      assert a[1..][0] == a[1] && a[1..][1..] == a[2..];
    }
  }

  /** Reading along the segments of an address is following the address. */
  lemma {:induction false} GetFollowsAddress(j: Json, a: Addr)
    requires Printable(a)
    ensures At(j, a).Some? <==> Get(j, SegmentsOf(a)).Ok?
    ensures At(j, a).Some? ==> Get(j, SegmentsOf(a)) == Ok(At(j, a).value)
    decreases |a|
  {
    if a != [] {
      AtFirst(j, a);
      var segs := SegmentsOf(a);
      var rest := a[FirstLength(a)..];
      SegmentsCons(a);
      if j.Obj? && Child(j.fields, segs[0]).Ok? {
        GetFollowsAddress(Child(j.fields, segs[0]).value, rest);
      }
    }
  }

  /** A single field can be read back under its own name exactly when the name is safe. */
  lemma {:induction false} KeyReadsBackIff(k: string, v: Json)
    ensures Get(Obj(map[k := v]), Segments(k)) == Ok(v) <==> SafeKey(k)
  {
    if '.' in k {
      DottedPartShorter(k);
      OtherFieldMissing(k, v, Segments(k));
    } else {
      SplitWhole(k, '.');
      SegmentKeyLength(k);
      OneSegment(k, v);
    }
  }

  lemma {:induction false} OtherFieldMissing(k: string, v: Json, p: seq<Segment>)
    requires p != [] && p[0].key != k
    ensures !Get(Obj(map[k := v]), p).Ok?
  {}

  lemma {:induction false} OneSegment(k: string, v: Json)
    requires Segments(k) == [ParseSegment(k)]
    ensures Get(Obj(map[k := v]), Segments(k)) == Ok(v) <==> ParseSegment(k) == Segment(k, -1)
  {
    var p := Segments(k);
    assert p[1..] == [];
    if p[0].key != k {
      OtherFieldMissing(k, v, p);
    }
  }

  lemma {:induction false} SegmentKeyLength(s: string)
    ensures var seg := ParseSegment(s); |seg.key| <= |s| && (|seg.key| == |s| ==> seg == Segment(s, -1))
  {}

  lemma {:induction false} DottedPartShorter(k: string)
    requires '.' in k
    ensures |Split(k, '.')[0]| < |k|
  {
    if k[0] != '.' { DottedPartShorter(k[1..]); }
  }
}
