/** The parsed query string of a `GET /query` request, as the web framework
    hands it to the handler: each key maps to one string, or to a list of
    strings when the parameter is repeated. */
module QueryString {

  import opened Optional
  import Strings

  datatype QueryValue = Single(text: string) | Multi(items: seq<string>)

  datatype Param = Param(key: string, value: QueryValue)

  /** The parameters in the order a `for (key in ...)` loop enumerates them. */
  type Query = seq<Param>

  /** The recognised parameter names (app.js:23). */
  const AllowedArguments: seq<string> :=
    ["ProviderName", "regulatorListFlag", "Language", "TargetCountry", "Genre"]

  /** The value stored under `key` (`req.query[key]`); a JavaScript object
      has one value per key, and the first parameter with that key plays
      that role here. */
  function Get(q: Query, key: string): (r: Option<QueryValue>)
    ensures r.None? <==> forall i :: 0 <= i < |q| ==> q[i].key != key
    ensures r.Some? ==>
      exists i :: 0 <= i < |q| && q[i] == Param(key, r.value) && forall j :: 0 <= j < i ==> q[j].key != key
    decreases |q|
  {
    if |q| == 0 then None
    else if q[0].key == key then Some(q[0].value)
    else
      var r := Get(q[1..], key);
      assert forall i :: 1 <= i < |q| ==> q[1..][i - 1] == q[i];
      r
  }

  /** JavaScript truthiness of `req.query.X`: a missing parameter and the
      empty string are falsy; any list, even an empty one, is truthy. */
  predicate Supplied(v: Option<QueryValue>) {
    v.Some? && v.value != Single("")
  }

  /** The requested strings a value stands for. */
  function Values(v: QueryValue): seq<string> {
    match v
    case Single(t) => [t]
    case Multi(items) => items
  }

  /** The source's `isIn(args, value)` (app.js:42-52): a single string
      matches only itself, a list matches any of its elements. */
  function IsIn(args: QueryValue, value: string): (r: bool)
    ensures r <==> value in Values(args)
  {
    match args
    case Single(t) => t == value
    case Multi(items) => AnyEqual(items, value)
  }

  /** The `for` loop of `isIn` over a list. */
  function AnyEqual(items: seq<string>, value: string): (r: bool)
    ensures r <==> exists i :: 0 <= i < |items| && items[i] == value
    decreases |items|
  {
    if |items| == 0 then false
    else if items[0] == value then true
    else
      assert forall i :: 1 <= i < |items| ==> items[1..][i - 1] == items[i];
      AnyEqual(items[1..], value)
  }

  /** JavaScript `typeof` of a query value. */
  function TypeOf(v: QueryValue): string {
    if v.Single? then "string" else "object"
  }

  /** JavaScript loose equality `v == s` against a string: a list is first
      converted to its comma-joined text. */
  function LooseEquals(v: QueryValue, s: string): (r: bool)
    ensures v.Single? ==> (r <==> v.text == s)
    ensures v.Multi? && |v.items| == 1 ==> (r <==> v.items[0] == s)
  {
    match v
    case Single(t) => t == s
    case Multi(items) => Strings.Join(items, ',') == s
  }
}
