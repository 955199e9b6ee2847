/**
  The loops of `gloader.map.parse`, each proved to compute the fold of
  `ParseRule` that specifies it. The version object and the scope are
  local values that the loops rewrite entry by entry, as `parse`
  rewrites the caller's objects.
 */
module ParseLoops {
  import opened Text
  import opened JsObject
  import opened ParseRule
  import opened ParseFacts

  // ---------------------------------------------------------------- setup

  /** `scopeProps.has(what)`: a linear search. */
  method ListHas(xs: seq<string>, what: string) returns (found: bool)
    ensures found <==> what in xs
  {
    var i := 0;
    while i < |xs|
      invariant 0 <= i <= |xs|
      invariant what !in xs[..i]
    {
      if what == xs[i] {
        return true;
      }
      assert xs[..i + 1] == xs[..i] + [xs[i]];
      i := i + 1;
    }
    assert xs[..i] == xs;
    return false;
  }

  /** The interpolation order: `$name`, `$version`, `$base`, then each user property not yet listed. */
  method CollectProps(user: Object) returns (props: seq<string>)
    ensures props == ScopeProps(user)
  {
    props := FixedProps;
    var i := 0;
    while i < |user.keys|
      invariant 0 <= i <= |user.keys|
      invariant props == AddProps(FixedProps, user.keys[..i])
    {
      var p := user.keys[i];
      assert user.keys[..i + 1][..i] == user.keys[..i];
      var has := ListHas(props, p);
      if !has {
        props := props + [p];
      }
      i := i + 1;
    }
    assert user.keys[..i] == user.keys;
  }

  /** `scope[props[p]] = undefined` for each property in turn. */
  method DeclareEach(scope0: Object, props: seq<string>) returns (scope: Object)
    requires Valid(scope0)
    ensures scope == DeclareAll(scope0, props)
  {
    scope := scope0;
    var p := 0;
    while p < |props|
      invariant 0 <= p <= |props|
      invariant scope == DeclareAll(scope0, props[..p])
    {
      assert props[..p + 1][..p] == props[..p];
      scope := Put(scope, props[p], Undef);
      p := p + 1;
    }
    assert props[..p] == props;
  }

  /** `o[k] = v` for each entry in turn. */
  method PutEach(o0: Object, es: EntryList) returns (o: Object)
    requires Valid(o0)
    ensures o == PutAll(o0, es)
  {
    o := o0;
    var i := 0;
    while i < |es|
      invariant 0 <= i <= |es|
      invariant o == PutAll(o0, es[..i])
    {
      assert es[..i + 1][..i] == es[..i];
      o := Put(o, es[i].0, es[i].1);
      i := i + 1;
    }
    assert es[..i] == es;
  }

  /** Every property declared `undefined`, `$name` set to the library's name, then the user's values. */
  method BuildScope(lib: string, user: Object, props: seq<string>) returns (scope: Object)
    requires Valid(user) && props == ScopeProps(user)
    ensures scope == InitialScope(lib, user)
  {
    var declared := DeclareEach(Empty(), props);
    PutValid(declared, "$name", Str(lib));
    scope := PutEach(Put(declared, "$name", Str(lib)), Entries(user));
  }

  // ---------------------------------------------------------------- phases

  /** Phase 1: each entry of the definition, in key order, meets the scope. */
  method AbsorbEntries(st0: Scoped, es: EntryList) returns (r: Result<Scoped>)
    requires Unique(st0)
    ensures r == AbsorbAll(st0, es)
  {
    var st := st0;
    var i := 0;
    while i < |es|
      invariant 0 <= i <= |es|
      invariant AbsorbAll(st0, es[..i]) == Ok(st)
    {
      assert es[..i + 1][..i] == es[..i];
      var step := Absorb(st, es[i].0, es[i].1);
      if step.Err? {
        AbsorbErrStays(st0, es, i + 1, |es|);
        assert es[..|es|] == es;
        return step;
      }
      st := step.value;
      i := i + 1;
    }
    assert es[..i] == es;
    return Ok(st);
  }

  /** Phase 2: each scope entry, in key order, fills the version where it is undefined. */
  method InheritEntries(v0: Object, es: EntryList) returns (r: Result<Object>)
    ensures r == InheritAll(v0, es)
  {
    var v := v0;
    var i := 0;
    while i < |es|
      invariant 0 <= i <= |es|
      invariant InheritAll(v0, es[..i]) == Ok(v)
    {
      assert es[..i + 1][..i] == es[..i];
      var step := Inherit(v, es[i].0, es[i].1);
      if step.Err? {
        InheritErrStays(v0, es, i + 1, |es|);
        assert es[..|es|] == es;
        return step;
      }
      v := step.value;
      i := i + 1;
    }
    assert es[..i] == es;
    return Ok(v);
  }

  /** Phase 3, inner loop: `props[p]` with each earlier property substituted in turn. */
  method SubstituteEarlier(v0: Object, scope: Object, props: seq<string>, p: nat) returns (r: Result<Object>)
    requires p < |props|
    ensures r == SubstituteUpTo(v0, scope, props, p, p)
  {
    var v := v0;
    var vp := 0;
    while vp < p
      invariant 0 <= vp <= p
      invariant SubstituteUpTo(v0, scope, props, p, vp) == Ok(v)
    {
      UpToUnfold(v0, scope, props, p, vp);
      var step := Substitute(v, scope, props[p], props[vp]);
      if step.Err? {
        UpToErrStays(v0, scope, props, p, vp + 1, p);
        return step;
      }
      v := step.value;
      vp := vp + 1;
    }
    return Ok(v);
  }

  /** Phase 3, outer loop: every property in interpolation order. */
  method SubstituteEach(v0: Object, scope: Object, props: seq<string>) returns (r: Result<Object>)
    ensures r == SubstituteProps(v0, scope, props, |props|)
  {
    var v := v0;
    var p := 0;
    while p < |props|
      invariant 0 <= p <= |props|
      invariant SubstituteProps(v0, scope, props, p) == Ok(v)
    {
      PropsUnfold(v0, scope, props, p);
      var step := SubstituteEarlier(v, scope, props, p);
      if step.Err? {
        PropsErrStays(v0, scope, props, p + 1, |props|);
        return step;
      }
      v := step.value;
      p := p + 1;
    }
    return Ok(v);
  }

  lemma UpToUnfold(v: Object, scope: Object, props: seq<string>, p: nat, n: nat)
    requires n < p < |props| && SubstituteUpTo(v, scope, props, p, n).Ok?
    ensures SubstituteUpTo(v, scope, props, p, n + 1)
      == Substitute(SubstituteUpTo(v, scope, props, p, n).value, scope, props[p], props[n])
  {
  }

  lemma PropsUnfold(v: Object, scope: Object, props: seq<string>, m: nat)
    requires m < |props| && SubstituteProps(v, scope, props, m).Ok?
    ensures SubstituteProps(v, scope, props, m + 1)
      == SubstituteUpTo(SubstituteProps(v, scope, props, m).value, scope, props, m, m)
  {
  }

  /** Phase 4, innermost loop: one path with every property's text put in, in interpolation order. */
  method InterpolatePath(s: string, props: seq<string>, version: Object) returns (r: string)
    ensures r == InterpolateAll(s, Pairs(props, version))
  {
    var pairs := Pairs(props, version);
    r := s;
    var p := 0;
    while p < |props|
      invariant 0 <= p <= |props|
      invariant InterpolateAll(r, pairs[p..]) == InterpolateAll(s, pairs)
    {
      assert pairs[p..][1..] == pairs[p + 1..];
      r := ReplaceAll(r, Placeholder(props[p]), ToText(ValueOf(Get(version, props[p]))));
      p := p + 1;
    }
  }

  /** Phase 4, one entry: every path of a module entry's array rewritten in place. */
  method InterpolateOne(version: Object, props: seq<string>, k: string) returns (r: Object)
    ensures r == InterpolateEntry(version, props, k)
  {
    if IsDollar(k) {
      return version;
    }
    match ValueOf(Get(version, k))
    case Arr(items) =>
      var out := items;
      var j := 0;
      while j < |items|
        invariant 0 <= j <= |items| && |out| == |items|
        invariant forall t :: 0 <= t < j ==> out[t] == InterpolateAll(items[t], Pairs(props, version))
        invariant forall t :: j <= t < |items| ==> out[t] == items[t]
      {
        var path := InterpolatePath(items[j], props, version);
        out := out[j := path];
        j := j + 1;
      }
      assert out == InterpolateItems(items, Pairs(props, version));
      return Put(version, k, Arr(out));
    case _ =>
      return version;
  }

  /** Phase 4: every entry of the version, in key order. */
  method InterpolateKeys(v0: Object, props: seq<string>) returns (r: Object)
    ensures r == InterpolateEntries(v0, props, v0.keys)
  {
    var keys := v0.keys;
    r := v0;
    var i := 0;
    while i < |keys|
      invariant 0 <= i <= |keys|
      invariant r == InterpolateEntries(v0, props, keys[..i])
    {
      assert keys[..i + 1][..i] == keys[..i];
      r := InterpolateOne(r, props, keys[i]);
      i := i + 1;
    }
    assert keys[..i] == keys;
  }

  // ---------------------------------------------------------------- a version

  /** The body of the loop over the version definitions. */
  method ParseOne(version: Object, scope: Object, props: seq<string>) returns (r: Result<Scoped>)
    requires Valid(version) && Valid(scope)
    ensures r == ParseVersion(version, scope, props)
  {
    var absorbed := AbsorbEntries(Scoped(version, scope), Entries(version));
    if absorbed.Err? {
      return Err(absorbed.error);
    }
    var st := absorbed.value;
    var inherited := InheritEntries(st.version, Entries(st.scope));
    if inherited.Err? {
      return Err(inherited.error);
    }
    var substituted := SubstituteEach(inherited.value, st.scope, props);
    if substituted.Err? {
      return Err(substituted.error);
    }
    var v := InterpolateKeys(substituted.value, props);
    return Ok(Scoped(v, st.scope));
  }

  /** The loop over the version definitions, threading the scope from each to the next. */
  method ParseEach(vs: seq<Object>, scope0: Object, props: seq<string>) returns (r: Result<Parsed>)
    requires AllValid(vs) && Valid(scope0)
    ensures r == ParseVersions(vs, scope0, props)
  {
    var pd := Parsed([], scope0);
    var i := 0;
    while i < |vs|
      invariant ParsedUpTo(vs, scope0, props, i, pd)
    {
      var step := ParseOne(vs[i], pd.scope, props);
      if step.Err? {
        ParsedFails(vs, scope0, props, i, pd);
        return Err(step.error);
      }
      ParsedNext(vs, scope0, props, i, pd);
      pd := Parsed(pd.versions + [step.value.version], step.value.scope);
      i := i + 1;
    }
    assert vs[..i] == vs;
    return Ok(pd);
  }

  /** The first `i` versions parsed into `pd`. */
  predicate ParsedUpTo(vs: seq<Object>, scope0: Object, props: seq<string>, i: nat, pd: Parsed) {
    && i <= |vs| && AllValid(vs) && Valid(scope0) && AllValid(vs[..i])
    && ParseVersions(vs[..i], scope0, props) == Ok(pd)
  }

  lemma ParsedNext(vs: seq<Object>, scope0: Object, props: seq<string>, i: nat, pd: Parsed)
    requires ParsedUpTo(vs, scope0, props, i, pd) && i < |vs|
    requires ParseVersion(vs[i], pd.scope, props).Ok?
    ensures var st := ParseVersion(vs[i], pd.scope, props).value;
      ParsedUpTo(vs, scope0, props, i + 1, Parsed(pd.versions + [st.version], st.scope))
  {
    assert vs[..i + 1][..i] == vs[..i];
  }

  lemma ParsedFails(vs: seq<Object>, scope0: Object, props: seq<string>, i: nat, pd: Parsed)
    requires ParsedUpTo(vs, scope0, props, i, pd) && i < |vs|
    requires ParseVersion(vs[i], pd.scope, props).Err?
    ensures ParseVersions(vs, scope0, props) == Err(ParseVersion(vs[i], pd.scope, props).error)
  {
    assert vs[..i + 1][..i] == vs[..i];
    ParseErrStays(vs, scope0, props, i + 1);
  }

  /** Once a version throws, parsing the whole list throws the same error. */
  lemma {:induction false} ParseErrStays(vs: seq<Object>, scope: Object, props: seq<string>, i: nat)
    requires AllValid(vs) && Valid(scope) && i <= |vs|
    requires ParseVersions(vs[..i], scope, props).Err?
    ensures ParseVersions(vs, scope, props) == ParseVersions(vs[..i], scope, props)
    decreases |vs| - i
  {
    if i < |vs| {
      assert vs[..i + 1][..i] == vs[..i];
      ParseErrStays(vs, scope, props, i + 1);
    } else {
      assert vs[..i] == vs;
    }
  }
}
