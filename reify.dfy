/** The `reify` descriptor: a property computed on first access and then kept
    in the accessed object's own attribute dictionary. */
module Reify {

  /** An object a reified property is read from. `attributes` are what the
      wrapped function reads; `dict` is the object's cache of reified values. */
  class Instance<V> {
    const attributes: map<string, V>
    var dict: map<string, V>

    constructor (attributes: map<string, V>)
      ensures this.attributes == attributes && dict == map[]
    {
      this.attributes := attributes;
      dict := map[];
    }
  }

  /** What an attribute access yields: the descriptor itself (access on the class) or a value. */
  datatype Access<V> = Descriptor | Value(value: V)

  class Reified<V> {
    const name: string
    const func: map<string, V> -> V
    /** How many times `func` has run. */
    var calls: nat

    constructor (name: string, func: map<string, V> -> V)
      ensures this.name == name && this.func == func && calls == 0
    {
      this.name := name;
      this.func := func;
      calls := 0;
    }

    /** `__get__`: `instance` is null when the attribute is read on the class. */
    method Get(instance: Instance?<V>) returns (r: Access<V>)
      modifies this`calls, instance
      ensures instance == null ==> r == Descriptor && calls == old(calls)
      ensures instance != null && name in old(instance.dict) ==>
        r == Value(old(instance.dict[name])) && instance.dict == old(instance.dict) && calls == old(calls)
      ensures instance != null && name !in old(instance.dict) ==>
        r == Value(func(instance.attributes))
        && instance.dict == old(instance.dict)[name := func(instance.attributes)]
        && calls == old(calls) + 1
      ensures instance != null ==> forall k :: k in old(instance.dict) ==> k in instance.dict && instance.dict[k] == old(instance.dict[k])
    {
      if instance == null {
        return Descriptor;
      }
      if name in instance.dict {
        return Value(instance.dict[name]);
      }
      var value := func(instance.attributes);
      calls := calls + 1;
      instance.dict := instance.dict[name := value];
      r := Value(value);
    }
  }

  /** Two reads of the same instance give the same value and run `func` at most once. */
  method ReadTwice<V>(property: Reified<V>, instance: Instance<V>) returns (first: Access<V>, second: Access<V>)
    modifies property`calls, instance
    ensures first == second && first.Value?
    ensures RanAtMostOnce(property, old(property.calls), old(property.name in instance.dict))
  {
    first := property.Get(instance);
    second := property.Get(instance);
  }

  /** The wrapped function ran once if no value was cached before, not at all otherwise. */
  ghost predicate RanAtMostOnce<V>(property: Reified<V>, before: nat, wasCached: bool)
    reads property
  {
    property.calls == before + (if wasCached then 0 else 1)
  }

  /** Caching a value on one instance leaves another instance's cache as it was. */
  method ReadsArePerInstance<V>(property: Reified<V>, a: Instance<V>, b: Instance<V>) returns (va: Access<V>)
    requires a != b
    modifies property`calls, a
    ensures b.dict == old(b.dict)
    ensures va == Value(if property.name in old(a.dict) then old(a.dict[property.name]) else property.func(a.attributes))
  {
    va := property.Get(a);
  }
}
