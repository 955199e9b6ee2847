/**
  What `gloader.map.parse` computes for one library: starting from a scope
  of inherited properties, each version definition in turn
    1. absorbs its own entries into the scope (`null` deletes),
    2. inherits what it does not set from the scope,
    3. interpolates its scope properties (`$name`, `$version`, `$base`,
       then user properties) into each other, each only with earlier ones,
    4. interpolates every property into every path of its module entries.
  Each phase is a left fold, so a loop over the same entries can carry
  "the state so far is the fold of what was visited" as its invariant.
 */
module ParseRule {
  import opened Text
  import opened JsObject

  /** The JavaScript values a version definition can hold. */
  datatype JsValue =
    | Undef
    | Null
    | Str(s: string)
    | Arr(items: seq<string>)
    | Other(typeName: string, text: string)   // a number, boolean, object or function

  datatype ParseError =
    | InvalidType(typeName: string)  // `throw new Error("invalid type: " + typeof ...)`
    | TypeError                      // a method called on `undefined` or on the wrong kind of value

  datatype Result<T> = Ok(value: T) | Err(error: ParseError)

  type Object = Obj<JsValue>

  /** The entries of a definition, in the order `for (k in o)` visits them. */
  type EntryList = seq<(string, JsValue)>

  /** The version object being rewritten and the running scope. */
  datatype Scoped = Scoped(version: Object, scope: Object)

  predicate Unique(st: Scoped) {
    Valid(st.version) && Valid(st.scope)
  }

  /** `k.indexOf("$") === 0`. */
  predicate IsDollar(k: string) {
    |k| > 0 && k[0] == '$'
  }

  /** `typeof o[k] == "undefined"`: absent, or present with the value `undefined`. */
  predicate IsUndefined(v: Option<JsValue>) {
    v.None? || v.value.Undef?
  }

  /** `o[k]` as a value. */
  function ValueOf(v: Option<JsValue>): JsValue {
    if v.Some? then v.value else Undef
  }

  /** `"" + v`. */
  function ToText(v: JsValue): string {
    match v
    case Undef => "undefined"
    case Null => "null"
    case Str(s) => s
    case Arr(items) => Join(items, ',')
    case Other(_, text) => text
  }

  // ---------------------------------------------------------------- setup

  const FixedProps: seq<string> := ["$name", "$version", "$base"]

  /** `scopeProps.push(p)` for each user property `p` it does not already hold. */
  function AddProps(props: seq<string>, keys: seq<string>): (r: seq<string>)
    ensures |props| <= |r| && r[..|props|] == props
    ensures Distinct(props) ==> Distinct(r)
    ensures forall k :: k in r <==> k in props || k in keys
    decreases |keys|
  {
    if |keys| == 0 then props
    else
      var ps := AddProps(props, keys[..|keys| - 1]);
      var k := keys[|keys| - 1];
      assert forall x :: x in keys <==> x in keys[..|keys| - 1] || x == k;
      if k in ps then ps else ps + [k]
  }

  /** The interpolation order: the fixed names, then the user's, each once. */
  function ScopeProps(user: Object): (props: seq<string>)
    ensures |props| >= 3 && props[..3] == FixedProps
    ensures Distinct(props)
    ensures forall k :: k in props <==> k in FixedProps || k in user.keys
  {
    assert Distinct(FixedProps) by { IndicesDistinct(FixedProps); }
    AddProps(FixedProps, user.keys)
  }

  /** `scope[props[p]] = undefined` for each property in turn. */
  function DeclareAll(scope: Object, props: seq<string>): (r: Object)
    requires Valid(scope)
    ensures Valid(r)
    decreases |props|
  {
    if |props| == 0 then scope
    else
      var o := DeclareAll(scope, props[..|props| - 1]);
      PutValid(o, props[|props| - 1], Undef);
      Put(o, props[|props| - 1], Undef)
  }

  /** `o[k] = v` for each entry `(k, v)` of `es` in turn. */
  function PutAll(o: Object, es: EntryList): (r: Object)
    requires Valid(o)
    ensures Valid(r)
    decreases |es|
  {
    if |es| == 0 then o
    else
      var o' := PutAll(o, es[..|es| - 1]);
      PutValid(o', es[|es| - 1].0, es[|es| - 1].1);
      Put(o', es[|es| - 1].0, es[|es| - 1].1)
  }

  /** The scope before the first version: every property declared, `$name` set, then the user's values. */
  function InitialScope(lib: string, user: Object): (r: Object)
    requires Valid(user)
    ensures Valid(r)
  {
    var declared := DeclareAll(Empty(), ScopeProps(user));
    PutValid(declared, "$name", Str(lib));
    PutAll(Put(declared, "$name", Str(lib)), Entries(user))
  }

  // ---------------------------------------------------------------- phase 1

  /** One entry of the version definition meets the scope. */
  function Absorb(st: Scoped, k: string, val: JsValue): (r: Result<Scoped>)
    requires Unique(st)
    ensures r.Ok? ==> Unique(r.value)
  {
    if val == Null then Ok(Scoped(Remove(st.version, k), Remove(st.scope, k)))
    else if IsDollar(k) then PutValid(st.scope, k, val); Ok(st.(scope := Put(st.scope, k, val)))
    else match val
      case Str(s) =>
        PutValid(st.version, k, Arr([s]));
        PutValid(st.scope, k, Arr([s]));
        Ok(Scoped(Put(st.version, k, Arr([s])), Put(st.scope, k, Arr([s]))))
      case Arr(items) => PutValid(st.scope, k, Arr(items)); Ok(st.(scope := Put(st.scope, k, Arr(items))))
      case Undef => Err(TypeError)
      case Other(t, _) => Err(InvalidType(t))
  }

  function AbsorbAll(st: Scoped, es: EntryList): (r: Result<Scoped>)
    requires Unique(st)
    ensures r.Ok? ==> Unique(r.value)
    decreases |es|
  {
    if |es| == 0 then Ok(st)
    else match AbsorbAll(st, es[..|es| - 1])
      case Err(e) => Err(e)
      case Ok(s) => Absorb(s, es[|es| - 1].0, es[|es| - 1].1)
  }

  // ---------------------------------------------------------------- phase 2

  /** A scope property the version leaves undefined is copied in (`$` values as they are, others sliced). */
  function Inherit(version: Object, k: string, sv: JsValue): Result<Object>
  {
    if !IsUndefined(Get(version, k)) then Ok(version)
    else if IsDollar(k) then Ok(Put(version, k, sv))
    else if sv.Str? || sv.Arr? then Ok(Put(version, k, sv))
    else Err(TypeError)
  }

  function InheritAll(version: Object, scope: EntryList): Result<Object>
    decreases |scope|
  {
    if |scope| == 0 then Ok(version)
    else match InheritAll(version, scope[..|scope| - 1])
      case Err(e) => Err(e)
      case Ok(v) => Inherit(v, scope[|scope| - 1].0, scope[|scope| - 1].1)
  }

  // ---------------------------------------------------------------- phase 3

  /**
    `{vprop}` in the property `prop` is replaced by the version's `vprop`;
    when the version leaves `vprop` undefined, `prop` first goes back to its
    scope value.
   */
  function Substitute(version: Object, scope: Object, prop: string, vprop: string): Result<Object>
  {
    var v1: Object := if IsUndefined(Get(version, vprop)) then Put(version, prop, ValueOf(Get(scope, prop))) else version;
    match ValueOf(Get(v1, prop))
    case Str(x) => Ok(Put(v1, prop, Str(ReplaceAll(x, Placeholder(vprop), ToText(ValueOf(Get(v1, vprop)))))))
    case _ => Err(TypeError)
  }

  /** The first `n` substitutions into `props[p]`. */
  function SubstituteUpTo(version: Object, scope: Object, props: seq<string>, p: nat, n: nat): Result<Object>
    requires n <= p < |props|
  {
    if n == 0 then Ok(version)
    else match SubstituteUpTo(version, scope, props, p, n - 1)
      case Err(e) => Err(e)
      case Ok(v) => Substitute(v, scope, props[p], props[n - 1])
  }

  /** The properties `props[..m]`, each with all earlier ones substituted. */
  function SubstituteProps(version: Object, scope: Object, props: seq<string>, m: nat): Result<Object>
    requires m <= |props|
  {
    if m == 0 then Ok(version)
    else match SubstituteProps(version, scope, props, m - 1)
      case Err(e) => Err(e)
      case Ok(v) => SubstituteUpTo(v, scope, props, m - 1, m - 1)
  }

  // ---------------------------------------------------------------- phase 4

  /** Each property with the text of its value in this version, in interpolation order. */
  function Pairs(props: seq<string>, version: Object): (r: seq<(string, string)>)
    ensures |r| == |props|
    ensures forall p :: 0 <= p < |props| ==> r[p] == (props[p], ToText(ValueOf(Get(version, props[p]))))
  {
    seq(|props|, p requires 0 <= p < |props| => (props[p], ToText(ValueOf(Get(version, props[p])))))
  }

  function InterpolateItems(items: seq<string>, pairs: seq<(string, string)>): (r: seq<string>)
    ensures |r| == |items|
    ensures forall j :: 0 <= j < |items| ==> r[j] == InterpolateAll(items[j], pairs)
  {
    seq(|items|, j requires 0 <= j < |items| => InterpolateAll(items[j], pairs))
  }

  /** Every path of the module entry `k` interpolated; `$` entries and strings stay as they are. */
  function InterpolateEntry(version: Object, props: seq<string>, k: string): Object
  {
    if IsDollar(k) then version
    else match ValueOf(Get(version, k))
      case Arr(items) => Put(version, k, Arr(InterpolateItems(items, Pairs(props, version))))
      case _ => version
  }

  function InterpolateEntries(version: Object, props: seq<string>, keys: seq<string>): Object
    decreases |keys|
  {
    if |keys| == 0 then version
    else InterpolateEntry(InterpolateEntries(version, props, keys[..|keys| - 1]), props, keys[|keys| - 1])
  }

  // ---------------------------------------------------------------- a version, a library

  /** Phases 1 and 2: the version with its own entries absorbed and the scope inherited. */
  function Prepare(version: Object, scope: Object): (r: Result<Scoped>)
    requires Valid(version) && Valid(scope)
    ensures r.Ok? ==> Valid(r.value.scope)
  {
    match AbsorbAll(Scoped(version, scope), Entries(version))
    case Err(e) => Err(e)
    case Ok(st) =>
      match InheritAll(st.version, Entries(st.scope))
      case Err(e) => Err(e)
      case Ok(v) => Ok(Scoped(v, st.scope))
  }

  /** The rewritten version and the scope handed to the next one. */
  function ParseVersion(version: Object, scope: Object, props: seq<string>): (r: Result<Scoped>)
    requires Valid(version) && Valid(scope)
    ensures r.Ok? ==> Valid(r.value.scope)
  {
    match Prepare(version, scope)
    case Err(e) => Err(e)
    case Ok(st) =>
      match SubstituteProps(st.version, st.scope, props, |props|)
      case Err(e) => Err(e)
      case Ok(v) => Ok(Scoped(InterpolateEntries(v, props, v.keys), st.scope))
  }

  predicate AllValid(vs: seq<Object>) {
    forall i :: 0 <= i < |vs| ==> Valid(vs[i])
  }

  datatype Parsed = Parsed(versions: seq<Object>, scope: Object)

  function ParseVersions(vs: seq<Object>, scope: Object, props: seq<string>): (r: Result<Parsed>)
    requires AllValid(vs) && Valid(scope)
    ensures r.Ok? ==> |r.value.versions| == |vs| && Valid(r.value.scope)
    decreases |vs|
  {
    if |vs| == 0 then Ok(Parsed([], scope))
    else match ParseVersions(vs[..|vs| - 1], scope, props)
      case Err(e) => Err(e)
      case Ok(pd) =>
        match ParseVersion(vs[|vs| - 1], pd.scope, props)
        case Err(e) => Err(e)
        case Ok(st) => Ok(Parsed(pd.versions + [st.version], st.scope))
  }

  /** `parse(lib, versions)` with the user properties `user` set for `lib`. */
  function ParseLibrary(lib: string, vs: seq<Object>, user: Object): (r: Result<seq<Object>>)
    requires AllValid(vs) && Valid(user)
    ensures r.Ok? ==> |r.value| == |vs|
  {
    match ParseVersions(vs, InitialScope(lib, user), ScopeProps(user))
    case Err(e) => Err(e)
    case Ok(pd) => Ok(pd.versions)
  }
}
