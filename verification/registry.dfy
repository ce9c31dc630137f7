/**
 The component registry and the resolver that looks a class name up in it,
 then on the global object, then by evaluating the name as an expression.
 */
module Registry {
  import opened Js

  /** The registry: component name to whatever value was registered for it. */
  type Components = map<string, Value>

  /** `register`'s merge step: every key of `hash` is (re)assigned, every other
      registry entry is kept. */
  function Merge(components: Components, hash: map<string, Value>): (r: Components)
    ensures r.Keys == components.Keys + hash.Keys
    ensures forall k :: k in hash ==> r[k] == hash[k]
    ensures forall k :: k in components && k !in hash ==> r[k] == components[k]
  {
    components + hash
  }

  /** `eval(className)`: a string is handed to the host's evaluator, which may
      throw (an unknown identifier raises a ReferenceError); `eval` returns any
      non-string argument, here `null`, unchanged. */
  function Evaluate(eval: string -> Completion<Value>, className: Value): (r: Completion<Value>)
    requires className.Str? || className.Null?
    ensures className.Str? ==> r == eval(className.s)
    ensures className.Null? ==> r == Normal(Null)
  {
    if className.Str? then eval(className.s) else Normal(className)
  }

  /** `getConstructor(className)`, i.e.
      `components[className] || window[className] || eval(className)`.
      Each tier is consulted only when every earlier tier gave a falsy value,
      and when all three are falsy the evaluated (falsy) value is returned. */
  function GetConstructor(components: Components, globals: map<string, Value>,
                          eval: string -> Completion<Value>, className: Value): (r: Completion<Value>)
    requires className.Str? || className.Null?
    ensures Truthy(Get(components, ToJsString(className))) ==>
              r == Normal(components[ToJsString(className)])
    ensures !Truthy(Get(components, ToJsString(className))) && Truthy(Get(globals, ToJsString(className))) ==>
              r == Normal(globals[ToJsString(className)])
    ensures !Truthy(Get(components, ToJsString(className))) && !Truthy(Get(globals, ToJsString(className))) ==>
              r == Evaluate(eval, className)
    ensures r.Normal? && !Truthy(r.value) ==>
              !Truthy(Get(components, ToJsString(className))) && !Truthy(Get(globals, ToJsString(className)))
  {
    var key := ToJsString(className);
    var registered := Get(components, key);
    if Truthy(registered) then Normal(registered)
    else
      var global := Get(globals, key);
      if Truthy(global) then Normal(global)
      else Evaluate(eval, className)
  }

  /** A truthy registry entry decides the result: neither the global object
      nor the evaluator is consulted. */
  lemma RegistryShadowsFallbacks(components: Components,
                                 globals1: map<string, Value>, eval1: string -> Completion<Value>,
                                 globals2: map<string, Value>, eval2: string -> Completion<Value>,
                                 className: Value)
    requires className.Str? || className.Null?
    requires Truthy(Get(components, ToJsString(className)))
    ensures GetConstructor(components, globals1, eval1, className)
         == GetConstructor(components, globals2, eval2, className)
         == Normal(components[ToJsString(className)])
  {
  }

  /** The global object is consulted only when the registry entry is missing
      or falsy; when it is, a falsy entry behaves exactly like a missing one. */
  lemma FalsyEntryFallsThrough(components: Components, globals: map<string, Value>,
                               eval: string -> Completion<Value>, name: string)
    requires name in components && !Truthy(components[name])
    ensures GetConstructor(components, globals, eval, Str(name))
         == GetConstructor(components - {name}, globals, eval, Str(name))
  {
  }

  /** The evaluator is reached only when both earlier tiers are falsy: if
      either is truthy, replacing the evaluator changes nothing. */
  lemma EvalOnlyAsLastResort(components: Components, globals: map<string, Value>,
                             eval1: string -> Completion<Value>, eval2: string -> Completion<Value>,
                             className: Value)
    requires className.Str? || className.Null?
    requires Truthy(Get(components, ToJsString(className))) || Truthy(Get(globals, ToJsString(className)))
    ensures GetConstructor(components, globals, eval1, className)
         == GetConstructor(components, globals, eval2, className)
    ensures GetConstructor(components, globals, eval1, className).Normal?
    ensures Truthy(GetConstructor(components, globals, eval1, className).value)
  {
  }
}
