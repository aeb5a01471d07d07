/**
 * The filter registry: a map from names to filters. `register` takes one
 * name and a factory, or an object of name/factory pairs; it stores what
 * each factory returns. `filter(name)` looks a filter up. The registry is a
 * plain object `{}`, so a name it does not hold may still find a member of
 * `Object.prototype`.
 */
module FilterRegistry {
  import opened Wrappers

  /** The first argument of `register`: a name, or an object whose properties are name/factory pairs. */
  datatype Registration<F> =
    | Single(name: string, factory: () -> F)
    | Bulk(pairs: seq<(string, () -> F)>)

  /** What `register` returns: the filter created, or the list of filters created in property order. */
  datatype Registered<F> = One(filter: F) | Many(filters: seq<F>)

  /** The names a plain object inherits from `Object.prototype`. */
  const InheritedNames: set<string> :=
    {"constructor", "hasOwnProperty", "isPrototypeOf", "propertyIsEnumerable", "toLocaleString",
     "toString", "valueOf", "__proto__", "__defineGetter__", "__defineSetter__",
     "__lookupGetter__", "__lookupSetter__"}

  /** What `filters[name]` finds: a registered filter, an inherited member, or `undefined`. */
  datatype Found<F> = Own(filter: F) | Inherited(name: string) | Undefined

  /** The registry as `register` leaves it, and what it returns. */
  datatype Registry<F> = Registry(filters: map<string, F>, result: Registered<F>)

  /**
   * `filter(name)`: the registered filter; otherwise the `Object.prototype`
   * member of that name; otherwise `undefined`.
   */
  function Lookup<F>(filters: map<string, F>, name: string): (r: Found<F>)
    ensures r.Own? <==> name in filters
    ensures r.Own? ==> r.filter == filters[name]
    ensures r.Inherited? ==> r.name == name && name in InheritedNames
    ensures r.Undefined? <==> name !in filters && name !in InheritedNames
  {
    if name in filters then Own(filters[name])
    else if name in InheritedNames then Inherited(name)
    else Undefined
  }

  /** `register(name, factory)`: call the factory once, store its result under `name`, return it. */
  function RegisterOne<F>(filters: map<string, F>, name: string, factory: () -> F): (r: Registry<F>)
    ensures r.result == One(factory())
    ensures Lookup(r.filters, name) == Own(factory())
    ensures forall other :: other != name ==> Lookup(r.filters, other) == Lookup(filters, other)
  {
    var created := factory();
    Registry(filters[name := created], One(created))
  }

  /** The `_.map` of the object form: register each pair in order, collecting what each returned. */
  function RegisterEach<F>(filters: map<string, F>, pairs: seq<(string, () -> F)>): (r: (map<string, F>, seq<F>))
    ensures |r.1| == |pairs|
    ensures forall i :: 0 <= i < |pairs| ==> r.1[i] == pairs[i].1()
    ensures forall name :: name !in NamesOf(pairs) ==> Lookup(r.0, name) == Lookup(filters, name)
    decreases |pairs|
  {
    if pairs == [] then (filters, [])
    else
      var first := RegisterOne(filters, pairs[0].0, pairs[0].1);
      var rest := RegisterEach(first.filters, pairs[1..]);
      (rest.0, [first.result.filter] + rest.1)
  }

  /** The names of the pairs. */
  function NamesOf<F>(pairs: seq<(string, () -> F)>): (r: set<string>)
    ensures forall i :: 0 <= i < |pairs| ==> pairs[i].0 in r
    ensures forall name :: name in r ==> exists i :: 0 <= i < |pairs| && pairs[i].0 == name
  {
    set i | 0 <= i < |pairs| :: pairs[i].0
  }

  /** `register`, in both forms. */
  function Register<F>(filters: map<string, F>, registration: Registration<F>): (r: Registry<F>)
    ensures registration.Single? ==>
      r.result == One(registration.factory()) && Lookup(r.filters, registration.name) == Own(registration.factory())
    ensures registration.Bulk? ==>
      && r.result.Many? && |r.result.filters| == |registration.pairs|
      && forall i :: 0 <= i < |registration.pairs| ==> r.result.filters[i] == registration.pairs[i].1()
  {
    match registration
    case Single(name, factory) => RegisterOne(filters, name, factory)
    case Bulk(pairs) =>
      var (after, created) := RegisterEach(filters, pairs);
      Registry(after, Many(created))
  }

  /**
   * In the object form each pair's filter is stored under its name; a later
   * pair of the same name, as a duplicated list would have, replaces it.
   */
  lemma {:induction false} LastPairWins<F>(filters: map<string, F>, pairs: seq<(string, () -> F)>, i: nat)
    requires i < |pairs|
    requires forall j :: i < j < |pairs| ==> pairs[j].0 != pairs[i].0
    ensures Lookup(RegisterEach(filters, pairs).0, pairs[i].0) == Own(pairs[i].1())
    decreases |pairs|
  {
    var first := RegisterOne(filters, pairs[0].0, pairs[0].1);
    if i == 0 {
      assert pairs[0].0 !in NamesOf(pairs[1..]);
    } else {
      LastPairWins(first.filters, pairs[1..], i - 1);
    }
  }

  /**
   * Starting from no filters, a name no registration mentioned finds the
   * `Object.prototype` member of that name if there is one, and `undefined`
   * otherwise.
   */
  lemma NeverRegisteredIsUndefined<F>(pairs: seq<(string, () -> F)>, name: string)
    requires forall i :: 0 <= i < |pairs| ==> pairs[i].0 != name
    ensures name !in InheritedNames ==> Lookup(RegisterEach(map[], pairs).0, name) == Undefined
    ensures name in InheritedNames ==> Lookup(RegisterEach(map[], pairs).0, name) == Inherited(name)
  {
    assert name !in NamesOf(pairs);
  }

  /** `filter('toString')` on a registry without that name finds the inherited method, not `undefined`. */
  lemma InheritedNameFound<F>(filters: map<string, F>)
    requires "toString" !in filters
    ensures Lookup(filters, "toString") == Inherited("toString")
  {
    assert "toString" in InheritedNames;
  }
}
