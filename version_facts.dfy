/**
  What `gloader.map.parse` guarantees about a whole version definition and
  about a whole library: the phase lemmas of `ParseFacts` put together.
 */
module VersionFacts {
  import opened Text
  import opened JsObject
  import opened ParseRule
  import opened ParseFacts

  // ---------------------------------------------------------------- phase 4

  /** No scope property is a module entry whose paths phase 4 rewrites. */
  predicate PropsStable(v: Object, props: seq<string>) {
    forall q :: 0 <= q < |props| ==> IsDollar(props[q]) || !ValueOf(Get(v, props[q])).Arr?
  }

  /** What phase 4 leaves at `k`: the paths of a listed module entry interpolated, anything else as it was. */
  function Interpolated(v: Object, props: seq<string>, keys: seq<string>, k: string): Option<JsValue> {
    if k in keys && !IsDollar(k) && ValueOf(Get(v, k)).Arr? then
      Some(Arr(InterpolateItems(ValueOf(Get(v, k)).items, Pairs(props, v))))
    else Get(v, k)
  }

  /** Phase 4 keeps the keys and every scope property, so every entry sees the same property values. */
  lemma {:induction false} EntriesKeep(v: Object, props: seq<string>, keys: seq<string>)
    requires PropsStable(v, props)
    ensures InterpolateEntries(v, props, keys).keys == v.keys
    ensures forall q :: 0 <= q < |props| ==> Get(InterpolateEntries(v, props, keys), props[q]) == Get(v, props[q])
    decreases |keys|
  {
    if |keys| > 0 {
      var s := InterpolateEntries(v, props, keys[..|keys| - 1]);
      EntriesKeep(v, props, keys[..|keys| - 1]);
      var k := keys[|keys| - 1];
      forall q | 0 <= q < |props|
        ensures Get(InterpolateEntry(s, props, k), props[q]) == Get(s, props[q])
      {
        if props[q] == k && !IsDollar(k) {
          assert !ValueOf(Get(v, props[q])).Arr?;
        }
      }
    }
  }

  /** Phase 4 per key: a module entry listed once is interpolated once, with the property values of the version. */
  lemma {:induction false} EntriesValue(v: Object, props: seq<string>, keys: seq<string>, k: string)
    requires Distinct(keys) && PropsStable(v, props)
    ensures Get(InterpolateEntries(v, props, keys), k) == Interpolated(v, props, keys, k)
    decreases |keys|
  {
    if |keys| > 0 {
      var pre := keys[..|keys| - 1];
      var last := keys[|keys| - 1];
      assert forall x :: x in keys <==> x in pre || x == last;
      EntriesValue(v, props, pre, k);
      EntriesKeep(v, props, pre);
      var s := InterpolateEntries(v, props, pre);
      assert Pairs(props, s) == Pairs(props, v);
    }
  }

  // ---------------------------------------------------------------- a whole version

  /** Scope properties as `parse` orders them: each once, `$name`-like first. */
  predicate GoodProps(props: seq<string>) {
    Distinct(props) && (|props| > 0 ==> IsDollar(props[0]))
  }

  lemma ScopePropsGood(user: Object)
    ensures GoodProps(ScopeProps(user))
  {
    var props := ScopeProps(user);
    assert props[0] == props[..3][0] == "$name";
  }

  /** A successful `ParseVersion` went through its four phases, each successfully. */
  lemma Stages(version: Object, scope: Object, props: seq<string>)
    requires Valid(version) && Valid(scope) && ParseVersion(version, scope, props).Ok?
    ensures AbsorbAll(Scoped(version, scope), Entries(version)).Ok?
    ensures var st := AbsorbAll(Scoped(version, scope), Entries(version)).value;
      InheritAll(st.version, Entries(st.scope)).Ok? &&
      var v2 := InheritAll(st.version, Entries(st.scope)).value;
      Valid(v2) && SubstituteProps(v2, st.scope, props, |props|).Ok? &&
      var v3 := SubstituteProps(v2, st.scope, props, |props|).value;
      Valid(v3) && ParseVersion(version, scope, props).value == Scoped(InterpolateEntries(v3, props, v3.keys), st.scope)
  {
    var st := AbsorbAll(Scoped(version, scope), Entries(version)).value;
    InheritAllValid(st.version, Entries(st.scope));
    PropsValid(InheritAll(st.version, Entries(st.scope)).value, st.scope, props, |props|);
  }

  /** After phase 3 no scope property is a module entry with paths. */
  lemma SettledStable(v: Object, sc: Object, props: seq<string>)
    requires GoodProps(props) && SubstituteProps(v, sc, props, |props|).Ok?
    ensures PropsStable(SubstituteProps(v, sc, props, |props|).value, props)
  {
    PropsStr(v, sc, props, |props|);
  }

  /** Phase 3 can only succeed if no property but the first is left with a value other than a string. */
  lemma NotAProp(v: Object, sc: Object, props: seq<string>, k: string)
    requires Distinct(props) && SubstituteProps(v, sc, props, |props|).Ok?
    requires !ValueOf(Get(v, k)).Str? && !ValueOf(Get(sc, k)).Str?
    ensures forall q :: 1 <= q < |props| ==> props[q] != k
  {
    forall q | 1 <= q < |props| ensures props[q] != k {
      PropsFirst(v, sc, props, |props|, q);
    }
  }

  /** The key is deleted by this version, or absent from both it and the scope. */
  predicate Gone(version: Object, scope: Object, k: string) {
    Get(version, k) == Some(Null) || (Get(version, k) == None && Get(scope, k) == None)
  }

  /**
    `null` deletes: a key the version sets to `null`, or that neither the
    version nor the scope holds, is in neither the parsed version nor the
    scope handed on.
   */
  lemma GoneStaysGone(version: Object, scope: Object, props: seq<string>, k: string)
    requires Valid(version) && Valid(scope) && GoodProps(props) && Gone(version, scope, k)
    ensures var r := ParseVersion(version, scope, props);
      r.Ok? ==> Get(r.value.version, k) == None && Get(r.value.scope, k) == None
  {
    if ParseVersion(version, scope, props).Ok? {
      Stages(version, scope, props);
      AbsorbValues(version, scope, k);
      var st := AbsorbAll(Scoped(version, scope), Entries(version)).value;
      InheritValues(st.version, st.scope, k);
      var v2 := InheritAll(st.version, Entries(st.scope)).value;
      NotAProp(v2, st.scope, props, k);
      PropsKeeps(v2, st.scope, props, 0, |props|, k);
      var v3 := SubstituteProps(v2, st.scope, props, |props|).value;
      SettledStable(v2, st.scope, props);
      EntriesValue(v3, props, v3.keys, k);
    }
  }

  /**
    The raw paths of a module entry: its own string as a one-element list,
    its own array, or, when the version does not mention it, the scope's array.
   */
  function Template(version: Object, scope: Object, k: string): Option<seq<string>> {
    if Has(version, k) then
      match ValueOf(Get(version, k))
      case Str(s) => Some([s])
      case Arr(a) => Some(a)
      case _ => None
    else
      match ValueOf(Get(scope, k))
      case Arr(a) => Some(a)
      case _ => None
  }

  /**
    A module entry ends as its raw paths with every scope property
    interpolated, using the property values the parsed version holds; the
    scope keeps the raw paths for the versions after it.
   */
  lemma PathsInterpolated(version: Object, scope: Object, props: seq<string>, k: string)
    requires Valid(version) && Valid(scope) && GoodProps(props)
    requires !IsDollar(k) && Template(version, scope, k).Some?
    ensures var r := ParseVersion(version, scope, props);
      var t := Template(version, scope, k).value;
      r.Ok? ==>
        Get(r.value.version, k) == Some(Arr(InterpolateItems(t, Pairs(props, r.value.version)))) &&
        Get(r.value.scope, k) == Some(Arr(t))
  {
    if ParseVersion(version, scope, props).Ok? {
      Stages(version, scope, props);
      var t := Template(version, scope, k).value;
      PreparedTemplate(version, scope, k);
      var st := AbsorbAll(Scoped(version, scope), Entries(version)).value;
      var v2 := InheritAll(st.version, Entries(st.scope)).value;
      SettledTemplate(v2, st.scope, props, k, t);
    }
  }

  /** After phases 1 and 2 a module entry holds its raw paths, in the version and in the scope. */
  lemma PreparedTemplate(version: Object, scope: Object, k: string)
    requires Valid(version) && Valid(scope)
    requires !IsDollar(k) && Template(version, scope, k).Some?
    requires AbsorbAll(Scoped(version, scope), Entries(version)).Ok?
    requires var st := AbsorbAll(Scoped(version, scope), Entries(version)).value;
      InheritAll(st.version, Entries(st.scope)).Ok?
    ensures var st := AbsorbAll(Scoped(version, scope), Entries(version)).value;
      var t := Template(version, scope, k).value;
      Get(InheritAll(st.version, Entries(st.scope)).value, k) == Some(Arr(t)) && Get(st.scope, k) == Some(Arr(t))
  {
    AbsorbValues(version, scope, k);
    AbsorbedTemplate(version, scope, k);
    var st := AbsorbAll(Scoped(version, scope), Entries(version)).value;
    InheritValues(st.version, st.scope, k);
  }

  /** Phase 1 leaves a module entry's raw paths in the scope, and in the version unless the version does not mention it. */
  lemma AbsorbedTemplate(version: Object, scope: Object, k: string)
    requires Valid(version) && !IsDollar(k) && Template(version, scope, k).Some?
    ensures var t := Template(version, scope, k).value;
      Absorbed(version, scope, k).1 == Some(Arr(t)) &&
      Absorbed(version, scope, k).0 in {None, Some(Arr(t))}
  {
    if Has(version, k) {
      var j :| 0 <= j < |version.keys| && version.keys[j] == k;
      assert Get(version, k).Some?;
    }
  }

  /** Phases 3 and 4 leave a module entry's raw paths interpolated with the final property values. */
  lemma SettledTemplate(v2: Object, sc: Object, props: seq<string>, k: string, t: seq<string>)
    requires Valid(v2) && GoodProps(props) && !IsDollar(k)
    requires Get(v2, k) == Some(Arr(t)) && Get(sc, k) == Some(Arr(t))
    requires SubstituteProps(v2, sc, props, |props|).Ok?
    ensures var v3 := SubstituteProps(v2, sc, props, |props|).value;
      var v4 := InterpolateEntries(v3, props, v3.keys);
      Get(v4, k) == Some(Arr(InterpolateItems(t, Pairs(props, v4))))
  {
    NotAProp(v2, sc, props, k);
    PropsKeeps(v2, sc, props, 0, |props|, k);
    PropsValid(v2, sc, props, |props|);
    var v3 := SubstituteProps(v2, sc, props, |props|).value;
    SettledStable(v2, sc, props);
    EntriesValue(v3, props, v3.keys, k);
    EntriesKeep(v3, props, v3.keys);
    var v4 := InterpolateEntries(v3, props, v3.keys);
    assert Pairs(props, v4) == Pairs(props, v3);
  }

  /** A module entry that is `undefined`, a number, a boolean, an object or a function makes `parse` throw. */
  lemma BadEntryThrows(version: Object, scope: Object, props: seq<string>, k: string)
    requires Valid(version) && Valid(scope)
    requires Has(version, k) && !IsDollar(k) && IsBad(ValueOf(Get(version, k)))
    ensures ParseVersion(version, scope, props).Err?
  {
    AbsorbOkIff(version, scope);
  }

  /**
    * Which error that is: the first bad module entry in the definition's
    * key order decides it, `invalid type` with the value's type, or the
    * failed method call on `undefined`.
    */
  lemma FirstBadEntryThrows(version: Object, scope: Object, props: seq<string>, j: nat)
    requires Valid(version) && Valid(scope) && j < |version.keys|
    requires !IsDollar(version.keys[j]) && IsBad(ValueOf(Get(version, version.keys[j])))
    requires forall i :: 0 <= i < j ==> IsDollar(version.keys[i]) || !IsBad(ValueOf(Get(version, version.keys[i])))
    ensures ParseVersion(version, scope, props) == Err(BadEntryError(ValueOf(Get(version, version.keys[j]))))
  {
    AbsorbFirstBad(Scoped(version, scope), Entries(version), j);
  }

  /** A module entry the version does not mention is copied with `slice`, which throws unless the scope holds a string or an array. */
  lemma UninheritableThrows(version: Object, scope: Object, props: seq<string>, k: string)
    requires Valid(version) && Valid(scope)
    requires !IsDollar(k) && Get(version, k) == None && Has(scope, k)
    requires !ValueOf(Get(scope, k)).Str? && !ValueOf(Get(scope, k)).Arr?
    ensures ParseVersion(version, scope, props).Err?
  {
    if AbsorbAll(Scoped(version, scope), Entries(version)).Ok? {
      AbsorbValues(version, scope, k);
      var st := AbsorbAll(Scoped(version, scope), Entries(version)).value;
      InheritOkIff(st.version, st.scope);
    }
  }

  /** The raw text of a scope property: the version's own `$` string, or the scope's string when the version does not mention it. */
  function RawProp(version: Object, scope: Object, k: string): Option<string> {
    if Has(version, k) then
      (if IsDollar(k) && ValueOf(Get(version, k)).Str? then Some(ValueOf(Get(version, k)).s) else None)
    else
      (if ValueOf(Get(scope, k)).Str? then Some(ValueOf(Get(scope, k)).s) else None)
  }

  /** Every scope property has a raw text. */
  predicate AllRaw(version: Object, scope: Object, props: seq<string>) {
    forall q :: 0 <= q < |props| ==> RawProp(version, scope, props[q]).Some?
  }

  /**
    Interpolation order: when every scope property has a raw text, phase 3
    cannot fail, and property `p` ends as its raw text with `{props[q]}`
    replaced, for each earlier `q` in order, by the value `props[q]` ends with.
   */
  lemma PropsInterpolated(version: Object, scope: Object, props: seq<string>, p: nat)
    requires Valid(version) && Valid(scope) && GoodProps(props) && p < |props|
    requires AllRaw(version, scope, props)
    ensures Prepare(version, scope).Ok? ==> ParseVersion(version, scope, props).Ok?
    ensures var r := ParseVersion(version, scope, props);
      r.Ok? ==>
        Get(r.value.version, props[p]) ==
          Some(Str(InterpolateAll(RawProp(version, scope, props[p]).value, Pairs(props[..p], r.value.version))))
  {
    if Prepare(version, scope).Ok? {
      var st := AbsorbAll(Scoped(version, scope), Entries(version)).value;
      var v2 := InheritAll(st.version, Entries(st.scope)).value;
      InheritAllValid(st.version, Entries(st.scope));
      forall q | 0 <= q < |props|
        ensures Get(v2, props[q]) == Some(Str(RawProp(version, scope, props[q]).value))
      {
        PreparedProp(version, scope, props[q]);
      }
      AllStrKeptProps(v2, st.scope, props, |props|);
      Stages(version, scope, props);
      SettledProp(v2, st.scope, props, p, RawProp(version, scope, props[p]).value);
    }
  }

  /** After phases 1 and 2 a scope property holds its raw text. */
  lemma PreparedProp(version: Object, scope: Object, k: string)
    requires Valid(version) && Valid(scope) && RawProp(version, scope, k).Some?
    requires Prepare(version, scope).Ok?
    ensures var st := AbsorbAll(Scoped(version, scope), Entries(version)).value;
      st == Prepare(version, scope).value.(version := st.version) &&
      Get(InheritAll(st.version, Entries(st.scope)).value, k) == Some(Str(RawProp(version, scope, k).value))
  {
    AbsorbValues(version, scope, k);
    var st := AbsorbAll(Scoped(version, scope), Entries(version)).value;
    InheritValues(st.version, st.scope, k);
  }

  /** Every scope property is a string. */
  predicate AllStr(v: Object, props: seq<string>) {
    forall q :: 0 <= q < |props| ==> ValueOf(Get(v, props[q])).Str?
  }

  /** With every property a string, each substitution succeeds and keeps them all strings. */
  lemma {:induction false} AllStrKeptUpTo(v: Object, sc: Object, props: seq<string>, p: nat, n: nat)
    requires n <= p < |props| && AllStr(v, props)
    ensures SubstituteUpTo(v, sc, props, p, n).Ok?
    ensures AllStr(SubstituteUpTo(v, sc, props, p, n).value, props)
    decreases n
  {
    if n > 0 {
      AllStrKeptUpTo(v, sc, props, p, n - 1);
      var w := SubstituteUpTo(v, sc, props, p, n - 1).value;
      assert !IsUndefined(Get(w, props[n - 1]));
      var r := Substitute(w, sc, props[p], props[n - 1]);
      assert r.Ok?;
      forall q | 0 <= q < |props| ensures ValueOf(Get(r.value, props[q])).Str? {
        if props[q] != props[p] {
          assert Get(r.value, props[q]) == Get(w, props[q]);
        }
      }
    }
  }

  lemma {:induction false} AllStrKeptProps(v: Object, sc: Object, props: seq<string>, m: nat)
    requires m <= |props| && AllStr(v, props)
    ensures SubstituteProps(v, sc, props, m).Ok?
    ensures AllStr(SubstituteProps(v, sc, props, m).value, props)
    decreases m
  {
    if m > 0 {
      AllStrKeptProps(v, sc, props, m - 1);
      AllStrNextRound(v, sc, props, m - 1);
    }
  }

  lemma AllStrNextRound(v: Object, sc: Object, props: seq<string>, m: nat)
    requires m < |props| && SubstituteProps(v, sc, props, m).Ok?
    requires AllStr(SubstituteProps(v, sc, props, m).value, props)
    ensures SubstituteProps(v, sc, props, m + 1).Ok?
    ensures AllStr(SubstituteProps(v, sc, props, m + 1).value, props)
  {
    var w := SubstituteProps(v, sc, props, m).value;
    AllStrKeptUpTo(w, sc, props, m, m);
    PropsNext(v, sc, props, m);
  }


  /** Phases 3 and 4 leave a scope property as its chain of substitutions. */
  lemma SettledProp(v2: Object, sc: Object, props: seq<string>, p: nat, raw: string)
    requires Valid(v2) && GoodProps(props) && p < |props|
    requires forall q :: 0 <= q < |props| ==> !IsUndefined(Get(v2, props[q]))
    requires Get(v2, props[p]) == Some(Str(raw))
    requires SubstituteProps(v2, sc, props, |props|).Ok?
    ensures var v3 := SubstituteProps(v2, sc, props, |props|).value;
      var v4 := InterpolateEntries(v3, props, v3.keys);
      Get(v4, props[p]) == Some(Str(InterpolateAll(raw, Pairs(props[..p], v4))))
  {
    var v3 := SubstituteProps(v2, sc, props, |props|).value;
    PropsValid(v2, sc, props, |props|);
    if p == 0 {
      DistinctAt(props, 0);
      PropsKeeps(v2, sc, props, 0, |props|, props[0]);
      assert Pairs(props[..0], v3) == [];
    } else {
      PropsChain(v2, sc, props, p, raw);
    }
    SettledStable(v2, sc, props);
    EntriesValue(v3, props, v3.keys, props[p]);
    EntriesKeep(v3, props, v3.keys);
    var v4 := InterpolateEntries(v3, props, v3.keys);
    assert Pairs(props[..p], v4) == Pairs(props[..p], v3);
  }

  // ---------------------------------------------------------------- a whole library

  /** The arguments `ParseVersions` needs, with the properties ordered as `parse` orders them. */
  predicate Setup(vs: seq<Object>, scope: Object, props: seq<string>) {
    AllValid(vs) && Valid(scope) && GoodProps(props)
  }

  /** Version `i` sets `k` to `null` and no later version mentions `k`. */
  predicate DeletedAt(vs: seq<Object>, i: nat, k: string) {
    i < |vs| && Get(vs[i], k) == Some(Null) && forall j :: i < j < |vs| ==> Get(vs[j], k) == None
  }

  /** Neither the versions from `i` on nor the final scope hold `k`. */
  predicate Cleared(pd: Parsed, i: nat, k: string) {
    Get(pd.scope, k) == None && forall j :: i <= j < |pd.versions| ==> Get(pd.versions[j], k) == None
  }

  /**
    No inheritance after a deletion: once version `i` sets `k` to `null`,
    neither it nor any later version that leaves `k` out holds `k`, and
    neither does the scope at the end.
   */
  lemma {:induction false} DeletedNotInherited(vs: seq<Object>, scope: Object, props: seq<string>, i: nat, k: string)
    requires Setup(vs, scope, props) && DeletedAt(vs, i, k)
    ensures var r := ParseVersions(vs, scope, props);
      r.Ok? ==> Cleared(r.value, i, k)
    decreases |vs|
  {
    if ParseVersions(vs, scope, props).Ok? {
      PrefixSetup(vs, scope, props, i, k);
      if i < |vs| - 1 {
        DeletedNotInherited(vs[..|vs| - 1], scope, props, i, k);
      }
      FinalStep(vs, scope, props, i, k);
    }
  }

  lemma PrefixSetup(vs: seq<Object>, scope: Object, props: seq<string>, i: nat, k: string)
    requires Setup(vs, scope, props) && DeletedAt(vs, i, k) && ParseVersions(vs, scope, props).Ok?
    ensures Setup(vs[..|vs| - 1], scope, props)
    ensures i < |vs| - 1 ==> DeletedAt(vs[..|vs| - 1], i, k)
  {
    LibraryPrefix(vs, scope, props);
  }

  lemma FinalStep(vs: seq<Object>, scope: Object, props: seq<string>, i: nat, k: string)
    requires Setup(vs, scope, props) && DeletedAt(vs, i, k) && ParseVersions(vs, scope, props).Ok?
    requires i < |vs| - 1 ==>
      (Setup(vs[..|vs| - 1], scope, props) &&
       var r := ParseVersions(vs[..|vs| - 1], scope, props); r.Ok? ==> Cleared(r.value, i, k))
    ensures Cleared(ParseVersions(vs, scope, props).value, i, k)
  {
    LibraryPrefix(vs, scope, props);
    var pre := ParseVersions(vs[..|vs| - 1], scope, props).value;
    GoneStep(vs, scope, props, k);
    KeptGone(pre.versions, ParseVersions(vs, scope, props).value.versions, i, k);
  }

  /** The last version of a library drops a key that is gone for it. */
  lemma GoneStep(vs: seq<Object>, scope: Object, props: seq<string>, k: string)
    requires AllValid(vs) && Valid(scope) && GoodProps(props) && |vs| > 0
    requires ParseVersions(vs, scope, props).Ok?
    requires AllValid(vs[..|vs| - 1]) && ParseVersions(vs[..|vs| - 1], scope, props).Ok?
    requires Gone(vs[|vs| - 1], ParseVersions(vs[..|vs| - 1], scope, props).value.scope, k)
    ensures var r := ParseVersions(vs, scope, props).value;
      Get(r.scope, k) == None && Get(r.versions[|vs| - 1], k) == None &&
      r.versions[..|vs| - 1] == ParseVersions(vs[..|vs| - 1], scope, props).value.versions
  {
    LibraryStep(vs, scope, props);
    var pd := ParseVersions(vs[..|vs| - 1], scope, props).value;
    GoneStaysGone(vs[|vs| - 1], pd.scope, props, k);
  }

  lemma KeptGone(before: seq<Object>, after: seq<Object>, i: nat, k: string)
    requires |after| == |before| + 1 && i < |after| && after[..|before|] == before
    requires Get(after[|before|], k) == None
    requires forall j :: i <= j < |before| ==> Get(before[j], k) == None
    ensures forall j :: i <= j < |after| ==> Get(after[j], k) == None
  {
    forall j | i <= j < |after| ensures Get(after[j], k) == None {
      if j < |before| {
        assert after[j] == after[..|before|][j];
      }
    }
  }

  /** A successful parse of a library parsed all but its last version successfully. */
  lemma LibraryPrefix(vs: seq<Object>, scope: Object, props: seq<string>)
    requires AllValid(vs) && Valid(scope) && |vs| > 0 && ParseVersions(vs, scope, props).Ok?
    ensures AllValid(vs[..|vs| - 1])
    ensures ParseVersions(vs[..|vs| - 1], scope, props).Ok?
  {
    LibraryStep(vs, scope, props);
  }

  /** A successful parse of a library is the parse of all but its last version, then of the last. */
  lemma LibraryStep(vs: seq<Object>, scope: Object, props: seq<string>)
    requires AllValid(vs) && Valid(scope) && |vs| > 0 && ParseVersions(vs, scope, props).Ok?
    ensures AllValid(vs[..|vs| - 1])
    ensures ParseVersions(vs[..|vs| - 1], scope, props).Ok?
    ensures var pd := ParseVersions(vs[..|vs| - 1], scope, props).value;
      ParseVersion(vs[|vs| - 1], pd.scope, props).Ok? &&
      var st := ParseVersion(vs[|vs| - 1], pd.scope, props).value;
      ParseVersions(vs, scope, props).value == Parsed(pd.versions + [st.version], st.scope)
  {
  }
}
