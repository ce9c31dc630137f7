/**
 The fragment of JavaScript's value model that the component bridge touches:
 values, truthiness (what `||`, `&&` and `!` test), completions of calls that
 may throw, property lookup on a plain object, and object spread (`{...v}`).
 */
module Js {

  /** A JavaScript value, as far as the bridge can observe one. Numbers are
      integers here; `Function` stands for any callable (a component class or
      function), `RawHtmlDiv` for the React element
      `<div dangerouslySetInnerHTML={{ __html: html }} />`, and `Error` for an
      object built by `new Error(message)`. */
  datatype Value =
    | Undefined
    | Null
    | Bool(b: bool)
    | Num(n: int)
    | Str(s: string)
    | Arr(items: seq<Value>)
    | Obj(fields: map<string, Value>)
    | Function(name: string)
    | RawHtmlDiv(html: string)
    | Error(message: string)

  /** The five falsy values the model can represent. */
  const FalsyValues: set<Value> := {Undefined, Null, Bool(false), Num(0), Str("")}

  /** JavaScript's ToBoolean: `undefined`, `null`, `false`, `0` and `""` are
      falsy, every other value (objects, functions, elements) is truthy. */
  predicate Truthy(v: Value)
    ensures !Truthy(v) <==> v in FalsyValues
  {
    match v
    case Undefined => false
    case Null => false
    case Bool(b) => b
    case Num(n) => n != 0
    case Str(s) => s != ""
    case _ => true
  }

  /** The completion of a call that may throw: a normal result or a thrown
      exception (any value may be thrown). */
  datatype Completion<+T> = Normal(value: T) | Throw(exception: Value)

  /** `obj[key]` on a plain object: a missing own property reads as `undefined`. */
  function Get(m: map<string, Value>, key: string): (v: Value)
    ensures key in m ==> v == m[key]
    ensures key !in m ==> v == Undefined
  {
    if key in m then m[key] else Undefined
  }

  /** ToString of a string or `null` ("null"): both the text `+` splices into
      a message and the property key `obj[v]` selects. */
  function ToJsString(v: Value): string
    requires v.Str? || v.Null?
  {
    if v.Str? then v.s else "null"
  }

  predicate StartsWith(s: string, prefix: string) {
    |prefix| <= |s| && s[..|prefix|] == prefix
  }

  predicate EndsWith(s: string, suffix: string) {
    |suffix| <= |s| && s[|s| - |suffix|..] == suffix
  }

  function Digit(d: nat): (c: char)
    requires d < 10
    ensures '0' <= c <= '9'
  {
    (48 + d) as char
  }

  /** The canonical decimal spelling of an array index, the property key
      under which spread stores element `i` ("0", "1", ..., "10", ...). */
  function IndexKey(i: nat): (k: string)
    ensures |k| >= 1
    ensures i >= 10 ==> |k| >= 2
    ensures forall j :: 0 <= j < |k| ==> '0' <= k[j] <= '9'
  {
    if i < 10 then [Digit(i)] else IndexKey(i / 10) + [Digit(i % 10)]
  }

  /** Distinct indices have distinct keys. */
  lemma {:induction false} IndexKeyInjective(i: nat, j: nat)
    requires IndexKey(i) == IndexKey(j)
    ensures i == j
  {
    if i < 10 && j < 10 {
      assert IndexKey(i)[0] == IndexKey(j)[0];
    } else if i >= 10 && j >= 10 {
      var a, b := IndexKey(i / 10), IndexKey(j / 10);
      assert IndexKey(i) == a + [Digit(i % 10)];
      assert IndexKey(j) == b + [Digit(j % 10)];
      assert |a| == |b|;
      assert a == IndexKey(i)[..|a|] == IndexKey(j)[..|b|] == b;
      assert Digit(i % 10) == IndexKey(i)[|a|] == IndexKey(j)[|b|] == Digit(j % 10);
      IndexKeyInjective(i / 10, j / 10);
    }
  }

  lemma IndexKeysDistinct()
    ensures forall i: nat, j: nat :: IndexKey(i) == IndexKey(j) ==> i == j
  {
    forall i: nat, j: nat | IndexKey(i) == IndexKey(j)
      ensures i == j
    {
      IndexKeyInjective(i, j);
    }
  }

  /** No index key is spelled "children": index keys are all digits. */
  lemma ChildrenIsNotAnIndexKey(i: nat)
    ensures IndexKey(i) != "children"
  {
    assert IndexKey(i)[0] != "children"[0];
  }

  /** Every key of `m` is the key of an index below `n`. */
  predicate OnlyIndexKeys(m: map<string, Value>, n: nat) {
    forall k :: k in m ==> exists i :: 0 <= i < n && k == IndexKey(i)
  }

  /** The own enumerable properties of an array-like value: element `i`
      under the key `IndexKey(i)`. */
  function IndexMap(xs: seq<Value>): (m: map<string, Value>)
    ensures forall i :: 0 <= i < |xs| ==> IndexKey(i) in m && m[IndexKey(i)] == xs[i]
    ensures OnlyIndexKeys(m, |xs|)
  {
    IndexKeysDistinct();
    map i | 0 <= i < |xs| :: IndexKey(i) := xs[i]
  }

  /** The characters of a string, each as a one-character string value. */
  function Chars(s: string): (cs: seq<Value>)
    ensures |cs| == |s|
    ensures forall i :: 0 <= i < |s| ==> cs[i] == Str([s[i]])
  {
    seq(|s|, i requires 0 <= i < |s| => Str([s[i]]))
  }

  /** The own enumerable properties of a string: character `i`, as a
      one-character string, under the key `IndexKey(i)`. */
  function CharMap(s: string): (m: map<string, Value>)
    ensures forall i :: 0 <= i < |s| ==> IndexKey(i) in m && m[IndexKey(i)] == Str([s[i]])
    ensures OnlyIndexKeys(m, |s|)
  {
    var cs := Chars(s);
    assert |cs| == |s|;
    IndexMap(cs)
  }

  /** The properties `{...v}` copies: an object's own properties, the indexed
      elements of an array or the characters of a string; every other value
      (`null`, `undefined`, booleans, numbers, functions, elements, errors)
      contributes nothing. */
  function Spread(v: Value): (m: map<string, Value>)
    ensures v.Obj? ==> m == v.fields
    ensures v.Arr? ==> OnlyIndexKeys(m, |v.items|)
    ensures v.Arr? ==> forall i :: 0 <= i < |v.items| ==> IndexKey(i) in m && m[IndexKey(i)] == v.items[i]
    ensures v.Str? ==> OnlyIndexKeys(m, |v.s|)
    ensures v.Str? ==> forall i :: 0 <= i < |v.s| ==> IndexKey(i) in m && m[IndexKey(i)] == Str([v.s[i]])
    ensures !(v.Obj? || v.Arr? || v.Str?) ==> m == map[]
    ensures !Truthy(v) ==> m == map[]
  {
    match v
    case Obj(fields) => fields
    case Arr(items) => IndexMap(items)
    case Str(s) => CharMap(s)
    case _ => map[]
  }
}
