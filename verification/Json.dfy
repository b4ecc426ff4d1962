/** JSON values as `encoding/json` decodes them, and structural addresses inside them. */
module Json {
  import opened Text

  datatype Json =
    | Null
    | Bool(b: bool)
    | Num(n: real)
    | Str(s: string)
    | Arr(items: seq<Json>)
    | Obj(fields: map<string, Json>)

  /** One step down: into an object field or into an array element. */
  datatype Step = Key(key: string) | Idx(index: nat)

  type Addr = seq<Step>

  /** The value at a structural address, if there is one. */
  function At(j: Json, a: Addr): Option<Json>
    decreases |a|
  {
    if a == [] then Some(j)
    else
      match a[0]
      case Key(k) => if j.Obj? && k in j.fields then At(j.fields[k], a[1..]) else None
      case Idx(i) => if j.Arr? && i < |j.items| then At(j.items[i], a[1..]) else None
  }

  lemma {:induction false} AtConcat(j: Json, a: Addr, b: Addr)
    ensures At(j, a + b) == (if At(j, a).Some? then At(At(j, a).value, b) else None)
    decreases |a|
  {
    if a == [] {
      assert a + b == b;
    } else {
      assert (a + b)[1..] == a[1..] + b;
      match a[0]
      case Key(k) => if j.Obj? && k in j.fields { AtConcat(j.fields[k], a[1..], b); }
      case Idx(i) => if j.Arr? && i < |j.items| { AtConcat(j.items[i], a[1..], b); }
    }
  }
}
