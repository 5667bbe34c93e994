/**
 * The JavaScript values a route handler reads out of a JSON request body,
 * with JavaScript's truthiness and property reads.
 */
module JsValues {
  import opened Common

  /**
   * A JavaScript value as `JSON.parse` builds it, plus `undefined` for a
   * property that is absent. Numbers are kept as reals: JSON cannot carry
   * `NaN` or the infinities.
   */
  datatype JsValue =
    | Undefined
    | Null
    | Bool(b: bool)
    | Num(n: real)
    | Str(s: string)
    | Arr(elems: seq<JsValue>)
    | Obj(members: seq<(string, JsValue)>)

  /** JavaScript truthiness: `!v` is `!Truthy(v)`. Arrays and objects are truthy even when empty. */
  function Truthy(v: JsValue): (t: bool)
    ensures t ==> Destructurable(v)
    ensures v.Arr? || v.Obj? ==> t
  {
    match v
    case Undefined => false
    case Null => false
    case Bool(b) => b
    case Num(n) => n != 0.0
    case Str(s) => s != []
    case Arr(_) => true
    case Obj(_) => true
  }

  /** The value of member `key` in an object literal: the last member with that key wins; none reads as `undefined`. */
  function Member(members: seq<(string, JsValue)>, key: string): JsValue
    decreases |members|
  {
    if members == [] then Undefined
    else if members[|members| - 1].0 == key then members[|members| - 1].1
    else Member(members[..|members| - 1], key)
  }

  /** Destructuring `const { ... } = v` throws a TypeError exactly on `null` and `undefined`. */
  predicate Destructurable(v: JsValue) {
    !v.Null? && !v.Undefined?
  }

  /**
   * Property `key` of a destructurable value. Strings, numbers, booleans and
   * arrays have none of the (non-builtin) property names the routes read.
   */
  function Get(v: JsValue, key: string): JsValue
    requires Destructurable(v)
  {
    if v.Obj? then Member(v.members, key) else Undefined
  }

  /** A list of strings as a JavaScript array value. */
  function Strs(ss: seq<string>): (vs: seq<JsValue>)
    ensures |vs| == |ss|
    ensures forall i :: 0 <= i < |ss| ==> vs[i] == Str(ss[i])
  {
    seq(|ss|, i requires 0 <= i < |ss| => Str(ss[i]))
  }

  /** The strings of an array value all of whose elements are strings, as the store's `String[]` columns take it. */
  function AsStrings(v: JsValue): (r: Option<seq<string>>)
    ensures r.Some? <==> v.Arr? && forall i :: 0 <= i < |v.elems| ==> v.elems[i].Str?
    ensures r.Some? ==> v == Arr(Strs(r.value))
  {
    if v.Arr? && forall i :: 0 <= i < |v.elems| ==> v.elems[i].Str? then
      Some(seq(|v.elems|, i requires 0 <= i < |v.elems| && v.elems[i].Str? => v.elems[i].s))
    else
      None
  }

  /** Reading back a list of strings written as an array gives the same list. */
  lemma AsStringsStrs(ss: seq<string>)
    ensures AsStrings(Arr(Strs(ss))) == Some(ss)
  {
    var r := AsStrings(Arr(Strs(ss)));
    assert r.Some?;
    var back := r.value;
    assert Strs(back) == Strs(ss);
    assert |back| == |ss|;
    forall i | 0 <= i < |ss| ensures back[i] == ss[i] {
      assert Strs(back)[i] == Str(back[i]);
      assert Strs(ss)[i] == Str(ss[i]);
    }
    assert back == ss;
  }
}
