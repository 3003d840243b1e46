/** The JSON values the data files hold, and JavaScript's `v[i]` on them. */
module Json {
  import opened Options
  import opened Decimal

  /** A parsed JSON value. Numbers are integers here (fractions are not part of this model). */
  datatype Value =
    | Null
    | Bool(b: bool)
    | Num(n: int)
    | Str(s: string)
    | Arr(items: seq<Value>)
    | Obj(members: map<string, Value>)

  /**
   * JavaScript's `v[i]` for an array index `i`; `None` is `undefined`.
   * Reading a property of `null` throws, so `v` must not be `null`.
   */
  function Element(v: Value, i: nat): (e: Option<Value>)
    requires !v.Null?
  {
    match v
    case Arr(items) => if i < |items| then Some(items[i]) else None
    case Str(s) => if i < |s| then Some(Str([s[i]])) else None
    case Obj(members) => var key := Print(i); if key in members then Some(members[key]) else None
    case _ => None
  }

  /**
   * On an object, `v[i]` reads the property named by the decimal text of `i`:
   * a property whose name is canonical digit text is reached by the number it denotes.
   */
  lemma ElementOfObject(members: map<string, Value>, s: string)
    requires IsCanonical(s)
    ensures Element(Obj(members), ValueOf(s)) == if s in members then Some(members[s]) else None
  {
    PrintOfValue(s);
  }
}
