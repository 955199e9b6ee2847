/**
  What `gloader.map.parse` guarantees, proved phase by phase about the
  folds of `ParseRule` and then about a whole version and a whole library.
 */
module ParseFacts {
  import opened Text
  import opened JsObject
  import opened ParseRule

  // ---------------------------------------------------------------- phase 1

  /** The kinds of value a module entry may not hold. */
  predicate IsBad(v: JsValue) {
    v.Undef? || v.Other?
  }

  /** Every module entry of the definition is `null`, a string or an array. */
  predicate WellTyped(version: Object) {
    forall k :: k in version.keys ==> IsDollar(k) || !IsBad(ValueOf(Get(version, k)))
  }

  /** What phase 1 leaves at key `k`, in the version and in the scope. */
  function Absorbed(version: Object, scope: Object, k: string): (Option<JsValue>, Option<JsValue>) {
    match Get(version, k)
    case None => (None, Get(scope, k))
    case Some(val) =>
      if val == Null then (None, None)
      else if !IsDollar(k) && val.Str? then (Some(Arr([val.s])), Some(Arr([val.s])))
      else (Some(val), Some(val))
  }

  /** Entries with other keys leave `k` alone, and a successful fold succeeded on every prefix. */
  lemma {:induction false} AbsorbKeeps(st: Scoped, es: EntryList, i: nat, n: nat, k: string)
    requires Unique(st) && i <= n <= |es|
    requires forall m :: i <= m < n ==> es[m].0 != k
    requires AbsorbAll(st, es[..n]).Ok?
    ensures AbsorbAll(st, es[..i]).Ok?
    ensures Get(AbsorbAll(st, es[..n]).value.version, k) == Get(AbsorbAll(st, es[..i]).value.version, k)
    ensures Get(AbsorbAll(st, es[..n]).value.scope, k) == Get(AbsorbAll(st, es[..i]).value.scope, k)
    decreases n - i
  {
    if n > i {
      assert es[..n][..n - 1] == es[..n - 1];
      assert es[..n][n - 1] == es[n - 1];
      AbsorbKeeps(st, es, i, n - 1, k);
    }
  }

  /** Once the fold over a prefix fails, the fold over the whole fails the same way. */
  lemma {:induction false} AbsorbErrStays(st: Scoped, es: EntryList, i: nat, n: nat)
    requires Unique(st) && i <= n <= |es| && AbsorbAll(st, es[..i]).Err?
    ensures AbsorbAll(st, es[..n]) == AbsorbAll(st, es[..i])
    decreases n - i
  {
    if n > i {
      AbsorbErrStays(st, es, i, n - 1);
      assert es[..n][..n - 1] == es[..n - 1];
    }
  }

  /**
    Phase 1 per key: a `null` entry is gone from the version and the scope,
    a string module entry becomes a one-element array in both, any other
    entry goes into the scope as it is, and a key the version does not
    mention keeps its scope value.
   */
  lemma AbsorbValues(version: Object, scope: Object, k: string)
    requires Valid(version) && Valid(scope)
    requires AbsorbAll(Scoped(version, scope), Entries(version)).Ok?
    ensures var st := AbsorbAll(Scoped(version, scope), Entries(version)).value;
      (Get(st.version, k), Get(st.scope, k)) == Absorbed(version, scope, k)
  {
    var st0 := Scoped(version, scope);
    var es := Entries(version);
    assert es[..|es|] == es;
    if k !in version.keys {
      assert AbsorbAll(st0, es[..0]) == Ok(st0);
      AbsorbKeeps(st0, es, 0, |es|, k);
    } else {
      var j :| 0 <= j < |version.keys| && version.keys[j] == k;
      AbsorbValuesAt(version, scope, j);
    }
  }

  lemma AbsorbValuesAt(version: Object, scope: Object, j: nat)
    requires Valid(version) && Valid(scope) && j < |version.keys|
    requires AbsorbAll(Scoped(version, scope), Entries(version)).Ok?
    ensures var st := AbsorbAll(Scoped(version, scope), Entries(version)).value;
      var k := version.keys[j];
      (Get(st.version, k), Get(st.scope, k)) == Absorbed(version, scope, k)
  {
    DistinctAfter(version.keys, j);
    AbsorbAfter(Scoped(version, scope), Entries(version), j);
    AbsorbAt(version, scope, j);
  }

  /** The entries after the last one with a given key leave that key alone. */
  lemma AbsorbAfter(st: Scoped, es: EntryList, j: nat)
    requires Unique(st) && j < |es| && AbsorbAll(st, es).Ok?
    requires forall m :: j < m < |es| ==> es[m].0 != es[j].0
    ensures AbsorbAll(st, es[..j + 1]).Ok?
    ensures Get(AbsorbAll(st, es).value.version, es[j].0) == Get(AbsorbAll(st, es[..j + 1]).value.version, es[j].0)
    ensures Get(AbsorbAll(st, es).value.scope, es[j].0) == Get(AbsorbAll(st, es[..j + 1]).value.scope, es[j].0)
  {
    assert es[..|es|] == es;
    AbsorbKeeps(st, es, j + 1, |es|, es[j].0);
  }

  /** The fold up to and including the entry at `j` leaves that key as phase 1 prescribes. */
  lemma AbsorbAt(version: Object, scope: Object, j: nat)
    requires Valid(version) && Valid(scope) && j < |version.keys|
    requires AbsorbAll(Scoped(version, scope), Entries(version)[..j + 1]).Ok?
    ensures var st := AbsorbAll(Scoped(version, scope), Entries(version)[..j + 1]).value;
      var k := version.keys[j];
      (Get(st.version, k), Get(st.scope, k)) == Absorbed(version, scope, k)
  {
    DistinctBefore(version.keys, j);
    AbsorbFirst(Scoped(version, scope), Entries(version), j);
  }

  /** The first entry with a given key absorbs the version's own value for it. */
  lemma AbsorbFirst(st: Scoped, es: EntryList, j: nat)
    requires Unique(st) && j < |es| && AbsorbAll(st, es[..j + 1]).Ok?
    requires forall m :: 0 <= m < j ==> es[m].0 != es[j].0
    requires Get(st.version, es[j].0) == Some(es[j].1)
    ensures var r := AbsorbAll(st, es[..j + 1]).value;
      (Get(r.version, es[j].0), Get(r.scope, es[j].0)) == Absorbed(st.version, st.scope, es[j].0)
  {
    assert AbsorbAll(st, es[..0]) == Ok(st);
    assert es[..j + 1][..j] == es[..j];
    assert es[..j + 1][j] == es[j];
    AbsorbKeeps(st, es, 0, j, es[j].0);
  }

  lemma {:induction false} AbsorbWellTyped(st: Scoped, es: EntryList)
    requires Unique(st)
    requires forall i :: 0 <= i < |es| ==> IsDollar(es[i].0) || !IsBad(es[i].1)
    ensures AbsorbAll(st, es).Ok?
    decreases |es|
  {
    if |es| > 0 {
      var pre := es[..|es| - 1];
      assert forall i :: 0 <= i < |pre| ==> pre[i] == es[i];
      AbsorbWellTyped(st, pre);
    }
  }

  /** Phase 1 fails exactly when a module entry is `undefined` or neither `null`, a string nor an array. */
  lemma AbsorbOkIff(version: Object, scope: Object)
    requires Valid(version) && Valid(scope)
    ensures AbsorbAll(Scoped(version, scope), Entries(version)).Ok? <==> WellTyped(version)
  {
    var st0 := Scoped(version, scope);
    var es := Entries(version);
    if WellTyped(version) {
      AbsorbWellTyped(st0, es);
    } else {
      var k :| k in version.keys && !IsDollar(k) && IsBad(ValueOf(Get(version, k)));
      var j :| 0 <= j < |version.keys| && version.keys[j] == k;
      AbsorbFailsAt(st0, es, j);
    }
  }

  /** A bad module entry makes phase 1 fail, at that entry or earlier. */
  lemma AbsorbFailsAt(st0: Scoped, es: EntryList, j: nat)
    requires Unique(st0) && j < |es| && !IsDollar(es[j].0) && IsBad(es[j].1)
    ensures AbsorbAll(st0, es).Err?
  {
    assert es[..|es|] == es;
    assert es[..j + 1][..j] == es[..j];
    assert es[..j + 1][j] == es[j];
    if AbsorbAll(st0, es[..j]).Err? {
      AbsorbErrStays(st0, es, j, |es|);
    } else {
      assert AbsorbAll(st0, es[..j + 1]).Err?;
      AbsorbErrStays(st0, es, j + 1, |es|);
    }
  }

  /** What phase 1 throws at a bad module entry: the type check names any value but `undefined`, on which a method call fails first. */
  function BadEntryError(v: JsValue): ParseError {
    if v.Other? then InvalidType(v.typeName) else TypeError
  }

  /** Phase 1 throws the error of the first bad module entry. */
  lemma AbsorbFirstBad(st0: Scoped, es: EntryList, j: nat)
    requires Unique(st0) && j < |es| && !IsDollar(es[j].0) && IsBad(es[j].1)
    requires forall i :: 0 <= i < j ==> IsDollar(es[i].0) || !IsBad(es[i].1)
    ensures AbsorbAll(st0, es) == Err(BadEntryError(es[j].1))
  {
    assert es[..|es|] == es;
    assert es[..j + 1][..j] == es[..j];
    assert es[..j + 1][j] == es[j];
    var pre := es[..j];
    assert forall i :: 0 <= i < |pre| ==> pre[i] == es[i];
    AbsorbWellTyped(st0, pre);
    assert AbsorbAll(st0, es[..j + 1]) == Err(BadEntryError(es[j].1));
    AbsorbErrStays(st0, es, j + 1, |es|);
  }

  // ---------------------------------------------------------------- phase 2

  /** A scope entry `parse` can copy into a version that leaves it undefined. */
  predicate Inheritable(version: Object, k: string, sv: JsValue) {
    !IsUndefined(Get(version, k)) || IsDollar(k) || sv.Str? || sv.Arr?
  }

  lemma {:induction false} InheritKeeps(v: Object, sc: EntryList, i: nat, n: nat, k: string)
    requires i <= n <= |sc|
    requires forall m :: i <= m < n ==> sc[m].0 != k
    requires InheritAll(v, sc[..n]).Ok?
    ensures InheritAll(v, sc[..i]).Ok?
    ensures Get(InheritAll(v, sc[..n]).value, k) == Get(InheritAll(v, sc[..i]).value, k)
    decreases n - i
  {
    if n > i {
      assert sc[..n][..n - 1] == sc[..n - 1];
      assert sc[..n][n - 1] == sc[n - 1];
      InheritKeeps(v, sc, i, n - 1, k);
    }
  }

  lemma {:induction false} InheritErrStays(v: Object, sc: EntryList, i: nat, n: nat)
    requires i <= n <= |sc| && InheritAll(v, sc[..i]).Err?
    ensures InheritAll(v, sc[..n]) == InheritAll(v, sc[..i])
    decreases n - i
  {
    if n > i {
      InheritErrStays(v, sc, i, n - 1);
      assert sc[..n][..n - 1] == sc[..n - 1];
    }
  }

  /** Phase 2 per key: a key the version leaves undefined takes the scope's value; every other key stays. */
  lemma InheritValues(v: Object, scope: Object, k: string)
    requires Valid(scope) && InheritAll(v, Entries(scope)).Ok?
    ensures Get(InheritAll(v, Entries(scope)).value, k) ==
      if IsUndefined(Get(v, k)) && Has(scope, k) then Get(scope, k) else Get(v, k)
  {
    if k !in scope.keys {
      InheritValuesAbsent(v, scope, k);
    } else {
      var j :| 0 <= j < |scope.keys| && scope.keys[j] == k;
      InheritValuesAt(v, scope, j);
    }
  }

  lemma InheritValuesAbsent(v: Object, scope: Object, k: string)
    requires Valid(scope) && InheritAll(v, Entries(scope)).Ok? && k !in scope.keys
    ensures Get(InheritAll(v, Entries(scope)).value, k) == Get(v, k)
  {
    var sc := Entries(scope);
    assert sc[..|sc|] == sc;
    assert InheritAll(v, sc[..0]) == Ok(v);
    InheritKeeps(v, sc, 0, |sc|, k);
  }

  lemma InheritValuesAt(v: Object, scope: Object, j: nat)
    requires Valid(scope) && InheritAll(v, Entries(scope)).Ok? && j < |scope.keys|
    ensures var k := scope.keys[j];
      Get(InheritAll(v, Entries(scope)).value, k) == if IsUndefined(Get(v, k)) then Get(scope, k) else Get(v, k)
  {
    DistinctAfter(scope.keys, j);
    InheritAfter(v, Entries(scope), j);
    InheritAt(v, scope, j);
  }

  /** The scope entries after the one with a given key leave that key alone. */
  lemma InheritAfter(v: Object, sc: EntryList, j: nat)
    requires j < |sc| && InheritAll(v, sc).Ok?
    requires forall m :: j < m < |sc| ==> sc[m].0 != sc[j].0
    ensures InheritAll(v, sc[..j + 1]).Ok?
    ensures Get(InheritAll(v, sc).value, sc[j].0) == Get(InheritAll(v, sc[..j + 1]).value, sc[j].0)
  {
    assert sc[..|sc|] == sc;
    InheritKeeps(v, sc, j + 1, |sc|, sc[j].0);
  }

  lemma InheritAt(v: Object, scope: Object, j: nat)
    requires Valid(scope) && j < |scope.keys|
    requires InheritAll(v, Entries(scope)[..j + 1]).Ok?
    ensures var k := scope.keys[j];
      Get(InheritAll(v, Entries(scope)[..j + 1]).value, k) ==
        if IsUndefined(Get(v, k)) then Get(scope, k) else Get(v, k)
  {
    DistinctBefore(scope.keys, j);
    InheritFirst(v, Entries(scope), j);
  }

  /** The scope entry with a given key, met for the first time, fills that key if the version leaves it undefined. */
  lemma InheritFirst(v: Object, sc: EntryList, j: nat)
    requires j < |sc| && InheritAll(v, sc[..j + 1]).Ok?
    requires forall m :: 0 <= m < j ==> sc[m].0 != sc[j].0
    ensures var k := sc[j].0;
      Get(InheritAll(v, sc[..j + 1]).value, k) == if IsUndefined(Get(v, k)) then Some(sc[j].1) else Get(v, k)
  {
    assert InheritAll(v, sc[..0]) == Ok(v);
    assert sc[..j + 1][..j] == sc[..j];
    assert sc[..j + 1][j] == sc[j];
    InheritKeeps(v, sc, 0, j, sc[j].0);
  }

  lemma {:induction false} InheritGood(v: Object, scope: Object, n: nat)
    requires Valid(scope) && n <= |scope.keys|
    requires forall k :: k in scope.keys ==> Inheritable(v, k, ValueOf(Get(scope, k)))
    ensures InheritAll(v, Entries(scope)[..n]).Ok?
  {
    var sc := Entries(scope);
    if n > 0 {
      InheritGood(v, scope, n - 1);
      assert sc[..n][..n - 1] == sc[..n - 1];
      assert sc[..n][n - 1] == sc[n - 1];
      assert sc[..0] == [];
      DistinctBefore(scope.keys, n - 1);
      assert sc[n - 1].0 in scope.keys && ValueOf(Get(scope, sc[n - 1].0)) == sc[n - 1].1;
      InheritKeeps(v, sc, 0, n - 1, sc[n - 1].0);
    }
  }

  /** Phase 2 fails exactly when a module entry left undefined would be inherited from a scope value that is neither a string nor an array. */
  lemma InheritOkIff(v: Object, scope: Object)
    requires Valid(scope)
    ensures InheritAll(v, Entries(scope)).Ok? <==> forall k :: k in scope.keys ==> Inheritable(v, k, ValueOf(Get(scope, k)))
  {
    var sc := Entries(scope);
    assert sc[..|sc|] == sc;
    if forall k :: k in scope.keys ==> Inheritable(v, k, ValueOf(Get(scope, k))) {
      InheritGood(v, scope, |sc|);
    } else {
      var k :| k in scope.keys && !Inheritable(v, k, ValueOf(Get(scope, k)));
      var j :| 0 <= j < |scope.keys| && scope.keys[j] == k;
      DistinctBefore(scope.keys, j);
      InheritFailsAt(v, sc, j);
    }
  }

  /** An entry that cannot be inherited, met for the first time, makes phase 2 fail. */
  lemma InheritFailsAt(v: Object, sc: EntryList, j: nat)
    requires j < |sc| && !Inheritable(v, sc[j].0, sc[j].1)
    requires forall m :: 0 <= m < j ==> sc[m].0 != sc[j].0
    ensures InheritAll(v, sc).Err?
  {
    assert sc[..|sc|] == sc;
    assert sc[..j + 1][..j] == sc[..j];
    assert sc[..j + 1][j] == sc[j];
    if InheritAll(v, sc[..j]).Err? {
      InheritErrStays(v, sc, j, |sc|);
    } else {
      assert sc[..0] == [];
      InheritKeeps(v, sc, 0, j, sc[j].0);
      assert InheritAll(v, sc[..j + 1]).Err?;
      InheritErrStays(v, sc, j + 1, |sc|);
    }
  }

  /** Phase 2 only assigns, so the version stays well formed. */
  lemma {:induction false} InheritAllValid(v: Object, sc: EntryList)
    requires Valid(v) && InheritAll(v, sc).Ok?
    ensures Valid(InheritAll(v, sc).value)
    decreases |sc|
  {
    if |sc| > 0 {
      var pre := sc[..|sc| - 1];
      InheritAllValid(v, pre);
      var w := InheritAll(v, pre).value;
      PutValid(w, sc[|sc| - 1].0, sc[|sc| - 1].1);
    }
  }

  // ---------------------------------------------------------------- phase 3

  /** Phase 3 only assigns, so the version stays well formed. */
  lemma SubstituteValid(v: Object, sc: Object, prop: string, vprop: string)
    requires Valid(v) && Substitute(v, sc, prop, vprop).Ok?
    ensures Valid(Substitute(v, sc, prop, vprop).value)
  {
    var v1: Object := if IsUndefined(Get(v, vprop)) then Put(v, prop, ValueOf(Get(sc, prop))) else v;
    PutValid(v, prop, ValueOf(Get(sc, prop)));
    var x := ValueOf(Get(v1, prop)).s;
    PutValid(v1, prop, Str(ReplaceAll(x, Placeholder(vprop), ToText(ValueOf(Get(v1, vprop))))));
  }

  lemma {:induction false} UpToValid(v: Object, sc: Object, props: seq<string>, p: nat, n: nat)
    requires Valid(v) && n <= p < |props| && SubstituteUpTo(v, sc, props, p, n).Ok?
    ensures Valid(SubstituteUpTo(v, sc, props, p, n).value)
    decreases n
  {
    if n > 0 {
      UpToValid(v, sc, props, p, n - 1);
      SubstituteValid(SubstituteUpTo(v, sc, props, p, n - 1).value, sc, props[p], props[n - 1]);
    }
  }

  lemma {:induction false} PropsValid(v: Object, sc: Object, props: seq<string>, m: nat)
    requires Valid(v) && m <= |props| && SubstituteProps(v, sc, props, m).Ok?
    ensures Valid(SubstituteProps(v, sc, props, m).value)
    decreases m
  {
    if m > 0 {
      PropsStep(v, sc, props, m - 1);
      PropsValid(v, sc, props, m - 1);
      UpToValid(SubstituteProps(v, sc, props, m - 1).value, sc, props, m - 1, m - 1);
    }
  }

  lemma SubstituteOther(v: Object, sc: Object, prop: string, vprop: string, k: string)
    requires k != prop && Substitute(v, sc, prop, vprop).Ok?
    ensures Get(Substitute(v, sc, prop, vprop).value, k) == Get(v, k)
  {
    var v1: Object := if IsUndefined(Get(v, vprop)) then Put(v, prop, ValueOf(Get(sc, prop))) else v;
    var x := ValueOf(Get(v1, prop)).s;
  }

  /**
    One substitution succeeds only on a string (the version's own, or the
    scope's after a reset) and leaves a string; when `vprop` is defined it is
    exactly one replacement of `{vprop}` by its text.
   */
  lemma SubstituteResult(v: Object, sc: Object, prop: string, vprop: string)
    requires prop != vprop && Substitute(v, sc, prop, vprop).Ok?
    ensures ValueOf(Get(Substitute(v, sc, prop, vprop).value, prop)).Str?
    ensures ValueOf(Get(v, prop)).Str? || (IsUndefined(Get(v, vprop)) && ValueOf(Get(sc, prop)).Str?)
    ensures !IsUndefined(Get(v, vprop)) ==>
      Get(Substitute(v, sc, prop, vprop).value, prop) ==
        Some(Str(ReplaceAll(ValueOf(Get(v, prop)).s, Placeholder(vprop), ToText(ValueOf(Get(v, vprop))))))
  {
    var v1: Object := if IsUndefined(Get(v, vprop)) then Put(v, prop, ValueOf(Get(sc, prop))) else v;
    var x := ValueOf(Get(v1, prop)).s;
  }

  lemma {:induction false} UpToErrStays(v: Object, sc: Object, props: seq<string>, p: nat, i: nat, n: nat)
    requires i <= n <= p < |props| && SubstituteUpTo(v, sc, props, p, i).Err?
    ensures SubstituteUpTo(v, sc, props, p, n) == SubstituteUpTo(v, sc, props, p, i)
    decreases n - i
  {
    if n > i {
      UpToErrStays(v, sc, props, p, i, n - 1);
    }
  }

  /** Substitutions into `props[p]` change nothing else. */
  lemma {:induction false} UpToOther(v: Object, sc: Object, props: seq<string>, p: nat, n: nat, k: string)
    requires n <= p < |props| && k != props[p]
    requires SubstituteUpTo(v, sc, props, p, n).Ok?
    ensures Get(SubstituteUpTo(v, sc, props, p, n).value, k) == Get(v, k)
  {
    if n > 0 {
      var prev := SubstituteUpTo(v, sc, props, p, n - 1);
      assert prev.Ok?;
      SubstituteOther(prev.value, sc, props[p], props[n - 1], k);
      UpToOther(v, sc, props, p, n - 1, k);
    }
  }

  /** A successful round for `props[p]` started from a string: the version's, or the scope's when `props[0]` is undefined. */
  lemma UpToFirst(v: Object, sc: Object, props: seq<string>, p: nat, n: nat)
    requires Distinct(props) && 1 <= n <= p < |props|
    requires SubstituteUpTo(v, sc, props, p, n).Ok?
    ensures ValueOf(Get(SubstituteUpTo(v, sc, props, p, n).value, props[p])).Str?
    ensures ValueOf(Get(v, props[p])).Str? || (IsUndefined(Get(v, props[0])) && ValueOf(Get(sc, props[p])).Str?)
  {
    DistinctIndices(props);
    if SubstituteUpTo(v, sc, props, p, 1).Err? {
      UpToErrStays(v, sc, props, p, 1, n);
    }
    assert SubstituteUpTo(v, sc, props, p, 1) == Substitute(v, sc, props[p], props[0]);
    SubstituteResult(v, sc, props[p], props[0]);
    var prev := SubstituteUpTo(v, sc, props, p, n - 1);
    assert prev.Ok?;
    SubstituteResult(prev.value, sc, props[p], props[n - 1]);
  }

  /** With every earlier property defined, a round is the interpolation of its raw string with those properties. */
  lemma {:induction false} UpToChain(v: Object, sc: Object, props: seq<string>, p: nat, n: nat, raw: string)
    requires Distinct(props) && n <= p < |props|
    requires forall q :: 0 <= q < n ==> !IsUndefined(Get(v, props[q]))
    requires Get(v, props[p]) == Some(Str(raw))
    requires SubstituteUpTo(v, sc, props, p, n).Ok?
    ensures Get(SubstituteUpTo(v, sc, props, p, n).value, props[p]) == Some(Str(InterpolateAll(raw, Pairs(props[..n], v))))
  {
    if n == 0 {
      assert Pairs(props[..0], v) == [];
    } else {
      assert SubstituteUpTo(v, sc, props, p, n - 1).Ok?;
      UpToChain(v, sc, props, p, n - 1, raw);
      UpToChainStep(v, sc, props, p, n, raw);
    }
  }

  lemma UpToChainStep(v: Object, sc: Object, props: seq<string>, p: nat, n: nat, raw: string)
    requires Distinct(props) && 1 <= n <= p < |props|
    requires !IsUndefined(Get(v, props[n - 1]))
    requires SubstituteUpTo(v, sc, props, p, n).Ok?
    requires Get(SubstituteUpTo(v, sc, props, p, n - 1).value, props[p]) == Some(Str(InterpolateAll(raw, Pairs(props[..n - 1], v))))
    ensures Get(SubstituteUpTo(v, sc, props, p, n).value, props[p]) == Some(Str(InterpolateAll(raw, Pairs(props[..n], v))))
  {
    DistinctIndices(props);
    var prev := SubstituteUpTo(v, sc, props, p, n - 1).value;
    var vprop := props[n - 1];
    assert vprop != props[p] by { assert n - 1 < p; }
    UpToOther(v, sc, props, p, n - 1, vprop);
    SubstituteResult(prev, sc, props[p], vprop);
    var x := (vprop, ToText(ValueOf(Get(v, vprop))));
    PairsSnoc(props, n, v);
    InterpolateSnoc(raw, Pairs(props[..n - 1], v), x);
  }

  lemma PairsSnoc(props: seq<string>, n: nat, v: Object)
    requires 1 <= n <= |props|
    ensures Pairs(props[..n], v) == Pairs(props[..n - 1], v) + [(props[n - 1], ToText(ValueOf(Get(v, props[n - 1]))))]
  {
  }

  lemma {:induction false} PropsErrStays(v: Object, sc: Object, props: seq<string>, i: nat, n: nat)
    requires i <= n <= |props| && SubstituteProps(v, sc, props, i).Err?
    ensures SubstituteProps(v, sc, props, n) == SubstituteProps(v, sc, props, i)
    decreases n - i
  {
    if n > i {
      PropsErrStays(v, sc, props, i, n - 1);
    }
  }

  /** Rounds `i..n` touch only `props[i..n]`, and a successful fold succeeded on every prefix. */
  lemma {:induction false} PropsKeeps(v: Object, sc: Object, props: seq<string>, i: nat, n: nat, k: string)
    requires i <= n <= |props|
    requires forall q :: i <= q < n && q >= 1 ==> props[q] != k
    requires SubstituteProps(v, sc, props, n).Ok?
    ensures SubstituteProps(v, sc, props, i).Ok?
    ensures Get(SubstituteProps(v, sc, props, n).value, k) == Get(SubstituteProps(v, sc, props, i).value, k)
    decreases n - i
  {
    if n > i {
      PropsKeepOne(v, sc, props, n - 1, k);
      PropsKeeps(v, sc, props, i, n - 1, k);
    }
  }

  /** Round `m` leaves every key other than `props[m]` alone (round 0 substitutes nothing). */
  lemma PropsKeepOne(v: Object, sc: Object, props: seq<string>, m: nat, k: string)
    requires m < |props| && (m >= 1 ==> props[m] != k)
    requires SubstituteProps(v, sc, props, m + 1).Ok?
    ensures SubstituteProps(v, sc, props, m).Ok?
    ensures Get(SubstituteProps(v, sc, props, m + 1).value, k) == Get(SubstituteProps(v, sc, props, m).value, k)
  {
    PropsStep(v, sc, props, m);
    var before := SubstituteProps(v, sc, props, m).value;
    if m >= 1 {
      UpToOther(before, sc, props, m, m, k);
    }
  }

  /** Round `m` continues from the fold of the earlier rounds. */
  lemma PropsNext(v: Object, sc: Object, props: seq<string>, m: nat)
    requires m < |props| && SubstituteProps(v, sc, props, m).Ok?
    ensures SubstituteProps(v, sc, props, m + 1) == SubstituteUpTo(SubstituteProps(v, sc, props, m).value, sc, props, m, m)
  {
  }

  /** A successful round `m` started from a successful fold of the earlier rounds. */
  lemma PropsStep(v: Object, sc: Object, props: seq<string>, m: nat)
    requires m < |props| && SubstituteProps(v, sc, props, m + 1).Ok?
    ensures SubstituteProps(v, sc, props, m).Ok?
    ensures SubstituteUpTo(SubstituteProps(v, sc, props, m).value, sc, props, m, m) == SubstituteProps(v, sc, props, m + 1)
  {
  }

  /** After a successful phase 3 every property but `$name` holds a string. */
  lemma {:induction false} PropsStr(v: Object, sc: Object, props: seq<string>, m: nat)
    requires Distinct(props) && m <= |props|
    requires SubstituteProps(v, sc, props, m).Ok?
    ensures forall q :: 1 <= q < m ==> ValueOf(Get(SubstituteProps(v, sc, props, m).value, props[q])).Str?
  {
    DistinctIndices(props);
    if m > 0 {
      var prev := SubstituteProps(v, sc, props, m - 1);
      assert prev.Ok?;
      PropsStr(v, sc, props, m - 1);
      if m - 1 >= 1 {
        UpToFirst(prev.value, sc, props, m - 1, m - 1);
        forall q | 1 <= q < m - 1
          ensures ValueOf(Get(SubstituteProps(v, sc, props, m).value, props[q])).Str?
        {
          UpToOther(prev.value, sc, props, m - 1, m - 1, props[q]);
        }
      }
    }
  }

  /** Phase 3 succeeds only if each property but `$name` was a string already, or `$name` was undefined and the scope's value is a string. */
  lemma PropsFirst(v: Object, sc: Object, props: seq<string>, m: nat, q: nat)
    requires Distinct(props) && 1 <= q < m <= |props|
    requires SubstituteProps(v, sc, props, m).Ok?
    ensures ValueOf(Get(v, props[q])).Str? || (IsUndefined(Get(v, props[0])) && ValueOf(Get(sc, props[q])).Str?)
  {
    if SubstituteProps(v, sc, props, q + 1).Err? {
      PropsErrStays(v, sc, props, q + 1, m);
    }
    PropsFirstAt(v, sc, props, q);
  }

  lemma PropsFirstAt(v: Object, sc: Object, props: seq<string>, q: nat)
    requires Distinct(props) && 1 <= q < |props|
    requires SubstituteProps(v, sc, props, q + 1).Ok?
    ensures ValueOf(Get(v, props[q])).Str? || (IsUndefined(Get(v, props[0])) && ValueOf(Get(sc, props[q])).Str?)
  {
    DistinctIndices(props);
    var vq := SubstituteProps(v, sc, props, q);
    assert vq.Ok?;
    forall q' | 0 <= q' < q ensures props[q'] != props[q] && (q' >= 1 ==> props[q'] != props[0]) {
    }
    PropsKeeps(v, sc, props, 0, q, props[q]);
    PropsKeeps(v, sc, props, 0, q, props[0]);
    UpToFirst(vq.value, sc, props, q, q);
  }

  /**
    The situation of the interpolation-order lemma: `props[p]` (not the first,
    `$name`, property) starts as the string `raw`, every property is defined
    before phase 3, and all rounds of phase 3 succeed.
   */
  ghost predicate ChainReady(v: Object, sc: Object, props: seq<string>, p: nat, raw: string)
  {
    Distinct(props) && 1 <= p < |props| &&
    (forall q :: 0 <= q < |props| ==> !IsUndefined(Get(v, props[q]))) &&
    Get(v, props[p]) == Some(Str(raw)) &&
    SubstituteProps(v, sc, props, |props|).Ok?
  }

  /**
    Interpolation order: when every property is defined before phase 3, the
    property `props[p]` ends as its raw string with `{props[q]}` replaced,
    for `q < p` in order, by the final value of `props[q]`.
   */
  lemma PropsChain(v: Object, sc: Object, props: seq<string>, p: nat, raw: string)
    requires ChainReady(v, sc, props, p, raw)
    ensures var r := SubstituteProps(v, sc, props, |props|).value;
      Get(r, props[p]) == Some(Str(InterpolateAll(raw, Pairs(props[..p], r))))
  {
    RoundAt(v, sc, props, p, raw);
    PairsSettled(v, sc, props, p);
  }

  /**
    Round `p` turns the raw value of `props[p]` into its interpolation by the
    earlier properties, and the later rounds leave it alone.
   */
  lemma RoundAt(v: Object, sc: Object, props: seq<string>, p: nat, raw: string)
    requires ChainReady(v, sc, props, p, raw)
    ensures SubstituteProps(v, sc, props, p).Ok?
    ensures Get(SubstituteProps(v, sc, props, |props|).value, props[p]) ==
      Some(Str(InterpolateAll(raw, Pairs(props[..p], SubstituteProps(v, sc, props, p).value))))
  {
    DistinctAt(props, p);
    LaterRounds(v, sc, props, p);
    RoundStep(v, sc, props, p, raw);
  }

  /** The rounds after `p` leave `props[p]` alone. */
  lemma LaterRounds(v: Object, sc: Object, props: seq<string>, p: nat)
    requires p < |props| && SubstituteProps(v, sc, props, |props|).Ok?
    requires forall q :: p < q < |props| ==> props[q] != props[p]
    ensures SubstituteProps(v, sc, props, p + 1).Ok?
    ensures Get(SubstituteProps(v, sc, props, |props|).value, props[p]) == Get(SubstituteProps(v, sc, props, p + 1).value, props[p])
  {
    PropsKeeps(v, sc, props, p + 1, |props|, props[p]);
  }

  lemma RoundStep(v: Object, sc: Object, props: seq<string>, p: nat, raw: string)
    requires ChainReady(v, sc, props, p, raw) && SubstituteProps(v, sc, props, p + 1).Ok?
    ensures SubstituteProps(v, sc, props, p).Ok?
    ensures Get(SubstituteProps(v, sc, props, p + 1).value, props[p]) ==
      Some(Str(InterpolateAll(raw, Pairs(props[..p], SubstituteProps(v, sc, props, p).value))))
  {
    RoundStart(v, sc, props, p);
    RoundResult(v, sc, props, p, raw);
  }

  lemma RoundResult(v: Object, sc: Object, props: seq<string>, p: nat, raw: string)
    requires Distinct(props) && 1 <= p < |props|
    requires SubstituteProps(v, sc, props, p + 1).Ok?
    requires SubstituteProps(v, sc, props, p).Ok?
    requires var vp := SubstituteProps(v, sc, props, p).value;
      Get(vp, props[p]) == Some(Str(raw)) && forall q :: 0 <= q < p ==> !IsUndefined(Get(vp, props[q]))
    ensures Get(SubstituteProps(v, sc, props, p + 1).value, props[p]) ==
      Some(Str(InterpolateAll(raw, Pairs(props[..p], SubstituteProps(v, sc, props, p).value))))
  {
    var vp := SubstituteProps(v, sc, props, p).value;
    UpToChain(vp, sc, props, p, p, raw);
  }

  /** At the start of round `p`, `props[p]` is still the raw value and every earlier property is defined. */
  lemma RoundStart(v: Object, sc: Object, props: seq<string>, p: nat)
    requires Distinct(props) && 1 <= p < |props|
    requires forall q :: 0 <= q < |props| ==> !IsUndefined(Get(v, props[q]))
    requires SubstituteProps(v, sc, props, p + 1).Ok?
    ensures SubstituteProps(v, sc, props, p).Ok?
    ensures var vp := SubstituteProps(v, sc, props, p).value;
      Get(vp, props[p]) == Get(v, props[p]) && forall q :: 0 <= q < p ==> !IsUndefined(Get(vp, props[q]))
  {
    DistinctIndices(props);
    assert SubstituteProps(v, sc, props, p).Ok?;
    forall q | 0 <= q < p ensures props[q] != props[p] && (q >= 1 ==> props[q] != props[0]) {
    }
    PropsKeeps(v, sc, props, 0, p, props[p]);
    PropsKeeps(v, sc, props, 0, p, props[0]);
    PropsStr(v, sc, props, p);
  }

  /** Rounds `p` and later leave the properties before `p` as they were at the start of round `p`. */
  lemma PairsSettled(v: Object, sc: Object, props: seq<string>, p: nat)
    requires Distinct(props) && 1 <= p < |props|
    requires SubstituteProps(v, sc, props, |props|).Ok?
    ensures SubstituteProps(v, sc, props, p).Ok?
    ensures Pairs(props[..p], SubstituteProps(v, sc, props, p).value) ==
            Pairs(props[..p], SubstituteProps(v, sc, props, |props|).value)
  {
    DistinctIndices(props);
    if SubstituteProps(v, sc, props, p).Err? {
      PropsErrStays(v, sc, props, p, |props|);
    }
    forall q | 0 <= q < p
      ensures Get(SubstituteProps(v, sc, props, p).value, props[q]) == Get(SubstituteProps(v, sc, props, |props|).value, props[q])
    {
      forall q' | p <= q' < |props| ensures props[q'] != props[q] {
      }
      PropsKeeps(v, sc, props, p, |props|, props[q]);
    }
  }
}
