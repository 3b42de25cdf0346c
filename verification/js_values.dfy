/** The dynamic values the tool moves around: a parsed document tree, the
    result of a query, the content of a view. A closed sum type stands for
    JavaScript's untyped `any`; numbers are integers. */
module JsValues {

  datatype Value =
    | Undef
    | Null
    | Bool(b: bool)
    | Num(n: int)
    | Str(s: string)
    | Arr(items: seq<Value>)
    | Obj(fields: seq<(string, Value)>)

  /** JavaScript truthiness (`!!v`): undefined, null, false, 0 and "" are
      falsy; every array and every object is truthy, even an empty one. */
  predicate Truthy(v: Value) {
    match v
    case Undef => false
    case Null => false
    case Bool(b) => b
    case Num(n) => n != 0
    case Str(s) => s != ""
    case Arr(_) => true
    case Obj(_) => true
  }

  /** `obj[key]` on a plain object: the value of the first field named `key`,
      or undefined when there is none. */
  function Get(fields: seq<(string, Value)>, key: string): (r: Value)
    ensures r != Undef ==> exists i :: 0 <= i < |fields| && fields[i] == (key, r)
    ensures (forall i :: 0 <= i < |fields| ==> fields[i].0 != key) ==> r == Undef
  {
    if fields == [] then Undef
    else if fields[0].0 == key then fields[0].1
    else Get(fields[1..], key)
  }

  /** When some field has the key, the lookup gives the value of the first
      such field: later fields with the same key are never seen. */
  lemma {:induction false} GetFirstMatch(fields: seq<(string, Value)>, key: string, i: int)
    requires 0 <= i < |fields| && fields[i].0 == key
    requires forall j :: 0 <= j < i ==> fields[j].0 != key
    ensures Get(fields, key) == fields[i].1
  {
    if i > 0 {
      GetFirstMatch(fields[1..], key, i - 1);
    }
  }

  /** `String(v)` for the falsy values, as a template literal prints them. */
  function FalsyText(v: Value): (r: string)
    requires !Truthy(v)
    ensures r == "" <==> v.Str?
  {
    match v
    case Undef => "undefined"
    case Null => "null"
    case Bool(_) => "false"
    case Num(_) => "0"
    case Str(_) => ""
  }

  /** A list of JavaScript strings as a list value. */
  function StrValues(ss: seq<string>): (r: seq<Value>)
    ensures |r| == |ss|
    ensures forall i :: 0 <= i < |ss| ==> r[i] == Str(ss[i])
  {
    seq(|ss|, i requires 0 <= i < |ss| => Str(ss[i]))
  }
}
