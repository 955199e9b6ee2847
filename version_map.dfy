/**
  `gloader.map`: the tables of JavaScript and stylesheet paths keyed by
  module id `lib/version/module`, the `$latest` memo, the user properties
  set per library, and the record of included map files.
 */
module VersionMap {
  import opened Text
  import opened JsObject
  import opened ParseRule
  import opened ParseLoops
  import LatestRule

  /** A table keyed by module id, in insertion order; an `undefined` path is stored as the empty text. */
  type Table = Obj<string>

  datatype Tables = Tables(js: Table, css: Table)

  // ---------------------------------------------------------------- add

  /** `version[p][i]`: a path of an array entry, a character of a string entry, empty when undefined. */
  function PathAt(v: JsValue, i: nat): string {
    match v
    case Arr(items) => if i < |items| then items[i] else ""
    case Str(s) => if i < |s| then [s[i]] else ""
    case _ => ""
  }

  /** `version.$name + "/" + version.$version + "/"`. */
  function IdPrefix(version: Object): string {
    ToText(ValueOf(Get(version, "$name"))) + "/" + ToText(ValueOf(Get(version, "$version"))) + "/"
  }

  /** One entry of a parsed version written into both tables (`$` entries are for the loader only). */
  function AddEntry(t: Tables, version: Object, p: string): Tables {
    if IsDollar(p) then t
    else
      var id := IdPrefix(version) + p;
      var val := ValueOf(Get(version, p));
      Tables(Put(t.js, id, PathAt(val, 0)), Put(t.css, id, PathAt(val, 1)))
  }

  function AddKeys(t: Tables, version: Object, keys: seq<string>): Tables
    decreases |keys|
  {
    if |keys| == 0 then t
    else AddEntry(AddKeys(t, version, keys[..|keys| - 1]), version, keys[|keys| - 1])
  }

  /** The tables after every parsed version, in order, has been written in. */
  function AddVersions(t: Tables, vs: seq<Object>): Tables
    decreases |vs|
  {
    if |vs| == 0 then t
    else
      var last := vs[|vs| - 1];
      AddKeys(AddVersions(t, vs[..|vs| - 1]), last, last.keys)
  }

  /** The entry among `keys` of `version` whose module id is `id`, if any. */
  function WrittenBy(version: Object, keys: seq<string>, id: string): Option<string> {
    var pre := IdPrefix(version);
    if |pre| <= |id| && id[..|pre|] == pre && id[|pre|..] in keys && !IsDollar(id[|pre|..]) then Some(id[|pre|..])
    else None
  }

  function Writes(version: Object, id: string): Option<string> {
    WrittenBy(version, version.keys, id)
  }

  lemma PrefixSplit(pre: string, p: string, id: string)
    ensures pre + p == id <==> |pre| <= |id| && id[..|pre|] == pre && id[|pre|..] == p
  {
    if |pre| <= |id| && id[..|pre|] == pre && id[|pre|..] == p {
      assert id == id[..|pre|] + id[|pre|..];
    }
    if pre + p == id {
      assert (pre + p)[..|pre|] == pre && (pre + p)[|pre|..] == p;
    }
  }

  /** Within one version, an id receives the first and second path of the entry it names, and no other id changes. */
  lemma {:induction false} AddKeysGet(t: Tables, version: Object, keys: seq<string>, id: string)
    ensures var w := WrittenBy(version, keys, id);
      var r := AddKeys(t, version, keys);
      && Get(r.js, id) == (if w.Some? then Some(PathAt(ValueOf(Get(version, w.value)), 0)) else Get(t.js, id))
      && Get(r.css, id) == (if w.Some? then Some(PathAt(ValueOf(Get(version, w.value)), 1)) else Get(t.css, id))
    decreases |keys|
  {
    if |keys| > 0 {
      var pre := keys[..|keys| - 1];
      var k := keys[|keys| - 1];
      AddKeysGet(t, version, pre, id);
      PrefixSplit(IdPrefix(version), k, id);
      assert forall x :: x in keys <==> x in pre || x == k;
    }
  }

  /**
    Last write wins: when version `i` is the last to name `id`, the tables
    hold the first and second path of its entry.
   */
  lemma {:induction false} LastWriteWins(t: Tables, vs: seq<Object>, id: string, i: nat)
    requires i < |vs| && Writes(vs[i], id).Some?
    requires forall j :: i < j < |vs| ==> Writes(vs[j], id).None?
    ensures var p := Writes(vs[i], id).value;
      && Get(AddVersions(t, vs).js, id) == Some(PathAt(ValueOf(Get(vs[i], p)), 0))
      && Get(AddVersions(t, vs).css, id) == Some(PathAt(ValueOf(Get(vs[i], p)), 1))
    decreases |vs|
  {
    var n := |vs|;
    var last := vs[n - 1];
    AddKeysGet(AddVersions(t, vs[..n - 1]), last, last.keys, id);
    if i < n - 1 {
      assert forall j :: i < j < n - 1 ==> vs[..n - 1][j] == vs[j];
      LastWriteWins(t, vs[..n - 1], id, i);
    }
  }

  /** An id no version names keeps what the tables held before. */
  lemma {:induction false} NeverWritten(t: Tables, vs: seq<Object>, id: string)
    requires forall j :: 0 <= j < |vs| ==> Writes(vs[j], id).None?
    ensures Get(AddVersions(t, vs).js, id) == Get(t.js, id)
    ensures Get(AddVersions(t, vs).css, id) == Get(t.css, id)
    decreases |vs|
  {
    if |vs| > 0 {
      var last := vs[|vs| - 1];
      AddKeysGet(AddVersions(t, vs[..|vs| - 1]), last, last.keys, id);
      assert forall j :: 0 <= j < |vs| - 1 ==> vs[..|vs| - 1][j] == vs[j];
      NeverWritten(t, vs[..|vs| - 1], id);
    }
  }

  /** Overwriting keeps an id in its place: the ids known before come first, in the same order. */
  lemma {:induction false} AddVersionsOrder(t: Tables, vs: seq<Object>)
    ensures var r := AddVersions(t, vs);
      |t.js.keys| <= |r.js.keys| && r.js.keys[..|t.js.keys|] == t.js.keys
    decreases |vs|
  {
    if |vs| > 0 {
      var last := vs[|vs| - 1];
      AddVersionsOrder(t, vs[..|vs| - 1]);
      AddKeysOrder(AddVersions(t, vs[..|vs| - 1]), last, last.keys);
    }
  }

  lemma {:induction false} AddKeysOrder(t: Tables, version: Object, keys: seq<string>)
    ensures var r := AddKeys(t, version, keys);
      |t.js.keys| <= |r.js.keys| && r.js.keys[..|t.js.keys|] == t.js.keys
    decreases |keys|
  {
    if |keys| > 0 {
      var mid := AddKeys(t, version, keys[..|keys| - 1]);
      AddKeysOrder(t, version, keys[..|keys| - 1]);
      var r := AddEntry(mid, version, keys[|keys| - 1]);
      assert r.js.keys[..|mid.js.keys|] == mid.js.keys;
      assert r.js.keys[..|t.js.keys|] == mid.js.keys[..|t.js.keys|];
    }
  }

  /** The loop of `add` over one parsed version's entries. */
  method AddEntries(t0: Tables, version: Object) returns (t: Tables)
    ensures t == AddKeys(t0, version, version.keys)
  {
    var keys := version.keys;
    t := t0;
    var i := 0;
    while i < |keys|
      invariant 0 <= i <= |keys|
      invariant t == AddKeys(t0, version, keys[..i])
    {
      assert keys[..i + 1][..i] == keys[..i];
      var p := keys[i];
      if !IsDollar(p) {
        var id := IdPrefix(version) + p;
        t := Tables(Put(t.js, id, PathAt(ValueOf(Get(version, p)), 0)), Put(t.css, id, PathAt(ValueOf(Get(version, p)), 1)));
      }
      i := i + 1;
    }
    assert keys[..i] == keys;
  }

  lemma {:induction false} AddKeysValid(t: Tables, version: Object, keys: seq<string>)
    requires Valid(t.js) && Valid(t.css)
    ensures Valid(AddKeys(t, version, keys).js) && Valid(AddKeys(t, version, keys).css)
    decreases |keys|
  {
    if |keys| > 0 {
      var mid := AddKeys(t, version, keys[..|keys| - 1]);
      AddKeysValid(t, version, keys[..|keys| - 1]);
      var p := keys[|keys| - 1];
      var id := IdPrefix(version) + p;
      PutValid(mid.js, id, PathAt(ValueOf(Get(version, p)), 0));
      PutValid(mid.css, id, PathAt(ValueOf(Get(version, p)), 1));
    }
  }

  /** The loop of `add` over the parsed versions. */
  method AddAll(t0: Tables, vs: seq<Object>) returns (t: Tables)
    ensures t == AddVersions(t0, vs)
  {
    t := t0;
    var i := 0;
    while i < |vs|
      invariant 0 <= i <= |vs|
      invariant t == AddVersions(t0, vs[..i])
    {
      assert vs[..i + 1][..i] == vs[..i];
      t := AddEntries(t, vs[i]);
      i := i + 1;
    }
    assert vs[..i] == vs;
  }

  lemma {:induction false} AddVersionsValid(t: Tables, vs: seq<Object>)
    requires Valid(t.js) && Valid(t.css)
    ensures Valid(AddVersions(t, vs).js) && Valid(AddVersions(t, vs).css)
    decreases |vs|
  {
    if |vs| > 0 {
      var last := vs[|vs| - 1];
      AddVersionsValid(t, vs[..|vs| - 1]);
      AddKeysValid(AddVersions(t, vs[..|vs| - 1]), last, last.keys);
    }
  }

  // ---------------------------------------------------------------- setProperties

  /** Entries with other keys leave `k` as it was. */
  lemma {:induction false} PutAllKeeps(o: Object, es: EntryList, i: nat, n: nat, k: string)
    requires Valid(o) && i <= n <= |es|
    requires forall m :: i <= m < n ==> es[m].0 != k
    ensures Get(PutAll(o, es[..n]), k) == Get(PutAll(o, es[..i]), k)
    decreases n - i
  {
    if n > i {
      assert es[..n][..n - 1] == es[..n - 1];
      PutAllKeeps(o, es, i, n - 1, k);
    }
  }

  /** Copying a definition's entries onto an object: its keys take its values, the others keep theirs. */
  lemma PutEntriesGet(o: Object, props: Object, k: string)
    requires Valid(o) && Valid(props)
    ensures Get(PutAll(o, Entries(props)), k) == if Has(props, k) then Get(props, k) else Get(o, k)
  {
    if k in props.keys {
      var j :| 0 <= j < |props.keys| && props.keys[j] == k;
      DistinctAfter(props.keys, j);
      PutEntryLast(o, Entries(props), j);
    } else {
      var es := Entries(props);
      assert es[..|es|] == es;
      PutAllKeeps(o, es, 0, |es|, k);
    }
  }

  /** The last entry with a key decides its value. */
  lemma PutEntryLast(o: Object, es: EntryList, j: nat)
    requires Valid(o) && j < |es|
    requires forall m :: j < m < |es| ==> es[m].0 != es[j].0
    ensures Get(PutAll(o, es), es[j].0) == Some(es[j].1)
  {
    assert es[..|es|] == es;
    PutAllKeeps(o, es, j + 1, |es|, es[j].0);
    PutAllSnoc(o, es, j);
  }

  lemma PutAllSnoc(o: Object, es: EntryList, n: nat)
    requires Valid(o) && n < |es|
    ensures PutAll(o, es[..n + 1]) == Put(PutAll(o, es[..n]), es[n].0, es[n].1)
  {
    assert es[..n + 1][..n] == es[..n];
  }

  // ---------------------------------------------------------------- latest

  /** `gloader.map.$latest` answers only with a truthy (non-empty) value. */
  predicate Memoised(memo: map<string, string>, key: string) {
    key in memo && memo[key] != ""
  }

  /** One call of `latest(lib, v)`: its result and the memo afterwards. */
  function LatestStep(memo: map<string, string>, keys: seq<string>, lib: string, v: string): (string, map<string, string>) {
    var key := lib + "/" + v;
    if Memoised(memo, key) then (memo[key], memo)
    else
      var r := LatestRule.Latest(keys, lib, v);
      (r, memo[key := r])
  }

  /** A resolved version is never empty unless the request was. */
  lemma LatestNonEmpty(keys: seq<string>, lib: string, v: string)
    requires v != ""
    ensures LatestRule.Latest(keys, lib, v) != ""
  {
    var parts := Split(v, '.');
    if LatestRule.IsPartial(parts) {
      var p := LatestRule.Scan(keys, lib, parts);
      if p.patch.Str? {
        assert (parts[0] + "." + LatestRule.JoinText(p.minor) + "." + p.patch.s)[|parts[0]|] == '.';
      }
    }
  }

  /**
    Memoisation: once `latest(lib, v)` has answered, a later call answers
    the same, whatever keys the JavaScript table has gained meanwhile.
   */
  lemma MemoAnswers(memo: map<string, string>, keys: seq<string>, later: seq<string>, lib: string, v: string)
    ensures var first := LatestStep(memo, keys, lib, v);
      LatestStep(first.1, later, lib, v) == first
  {
    if !Memoised(memo, lib + "/" + v) {
      if v == "" {
        assert Split(v, '.')[0] == "" && !IsIntText("");
        var m1 := memo[lib + "/" + v := ""];
        assert LatestRule.Latest(keys, lib, v) == "" && LatestRule.Latest(later, lib, v) == "";
        assert m1[lib + "/" + v := ""] == m1;
      } else {
        LatestNonEmpty(keys, lib, v);
      }
    }
  }

  // ---------------------------------------------------------------- toIds

  /** One `[lib, version, module…]` tuple. */
  datatype ModRef = ModRef(lib: string, ver: string, mods: seq<string>)

  /** The versions `latest` gives the tuples in turn, and the memo afterwards. */
  function ResolveAll(memo: map<string, string>, keys: seq<string>, refs: seq<ModRef>): (r: (seq<string>, map<string, string>))
    ensures |r.0| == |refs|
    decreases |refs|
  {
    if |refs| == 0 then ([], memo)
    else
      var pre := ResolveAll(memo, keys, refs[..|refs| - 1]);
      var last := refs[|refs| - 1];
      var step := LatestStep(pre.1, keys, last.lib, last.ver);
      (pre.0 + [step.0], step.1)
  }

  /** `lib/ver/lib`, then `lib/ver/m` for each module `m`. */
  function TupleIds(ref: ModRef, ver: string): (ids: seq<string>)
    ensures |ids| == |ref.mods| + 1
  {
    seq(|ref.mods| + 1, j requires 0 <= j <= |ref.mods| => ref.lib + "/" + ver + "/" + (if j == 0 then ref.lib else ref.mods[j - 1]))
  }

  function IdsOf(refs: seq<ModRef>, vers: seq<string>): seq<string>
    requires |vers| == |refs|
    decreases |refs|
  {
    if |refs| == 0 then []
    else IdsOf(refs[..|refs| - 1], vers[..|vers| - 1]) + TupleIds(refs[|refs| - 1], vers[|vers| - 1])
  }

  /** The number of ids the tuples give: one per library and one per module. */
  function Count(refs: seq<ModRef>): nat
    decreases |refs|
  {
    if |refs| == 0 then 0 else Count(refs[..|refs| - 1]) + |refs[|refs| - 1].mods| + 1
  }

  lemma {:induction false} IdsLength(refs: seq<ModRef>, vers: seq<string>)
    requires |vers| == |refs|
    ensures |IdsOf(refs, vers)| == Count(refs)
    decreases |refs|
  {
    if |refs| > 0 {
      IdsLength(refs[..|refs| - 1], vers[..|vers| - 1]);
    }
  }

  /** The ids of tuple `i` start after those of the tuples before it: its library id, then its modules in order. */
  lemma {:induction false} IdsShape(refs: seq<ModRef>, vers: seq<string>, i: nat, j: nat)
    requires |vers| == |refs| && i < |refs| && j <= |refs[i].mods|
    ensures Count(refs[..i]) + j < |IdsOf(refs, vers)|
    ensures IdsOf(refs, vers)[Count(refs[..i]) + j]
      == refs[i].lib + "/" + vers[i] + "/" + (if j == 0 then refs[i].lib else refs[i].mods[j - 1])
    decreases |refs|
  {
    var n := |refs|;
    IdsLength(refs[..n - 1], vers[..n - 1]);
    assert refs[..n - 1] == refs[..n][..n - 1];
    if i < n - 1 {
      assert refs[..n - 1][..i] == refs[..i];
      IdsShape(refs[..n - 1], vers[..n - 1], i, j);
    } else {
      assert refs[..i] == refs[..n - 1];
    }
  }

  /** The inner loop of `toIds`: the library's id, then one id per module. */
  method AppendIds(ids0: seq<string>, ref: ModRef, ver: string) returns (ids: seq<string>)
    ensures ids == ids0 + TupleIds(ref, ver)
  {
    var libId := ref.lib + "/" + ver;
    var tuple := TupleIds(ref, ver);
    ids := ids0 + [libId + "/" + ref.lib];
    var j := 0;
    while j < |ref.mods|
      invariant 0 <= j <= |ref.mods|
      invariant ids == ids0 + tuple[..j + 1]
    {
      assert tuple[..j + 2] == tuple[..j + 1] + [tuple[j + 1]];
      ids := ids + [libId + "/" + ref.mods[j]];
      j := j + 1;
    }
    assert tuple[..j + 1] == tuple;
  }

  // ---------------------------------------------------------------- the map object

  class Map {
    var js: Table
    var css: Table
    var latestMemo: map<string, string>
    var mapProps: map<string, Object>
    var included: set<string>
    /** The map files written into the document, in order. */
    var written: seq<string>

    ghost predicate Valid()
      reads this
    {
      TablesValid() && PropsValid() && IncludesValid()
    }

    ghost predicate TablesValid()
      reads this`js, this`css
    {
      JsObject.Valid(js) && JsObject.Valid(css)
    }

    ghost predicate PropsValid()
      reads this`mapProps
    {
      forall lib :: lib in mapProps ==> JsObject.Valid(mapProps[lib])
    }

    /** Each included map file was written into the document once. */
    ghost predicate IncludesValid()
      reads this`included, this`written
    {
      Distinct(written) && forall s :: s in written <==> s in included
    }

    constructor()
      ensures Valid()
      ensures js == Empty() && css == Empty() && latestMemo == map[] && mapProps == map[]
      ensures included == {} && written == []
    {
      js := Empty();
      css := Empty();
      latestMemo := map[];
      mapProps := map[];
      included := {};
      written := [];
    }

    /** `gloader.mapProps[lib]`, an empty object when the library has none. */
    function UserProps(lib: string): (o: Object)
      reads this
      requires Valid()
      ensures JsObject.Valid(o)
    {
      if lib in mapProps then mapProps[lib] else Empty()
    }

    /** `parse(lib, defs)`, reading the user properties set for `lib`. */
    method Parse(lib: string, defs: seq<Object>) returns (r: Result<seq<Object>>)
      requires Valid() && AllValid(defs)
      ensures r == ParseLibrary(lib, defs, UserProps(lib))
    {
      var user := UserProps(lib);
      var props := CollectProps(user);
      var scope := BuildScope(lib, user, props);
      var parsed := ParseEach(defs, scope, props);
      if parsed.Err? {
        return Err(parsed.error);
      }
      return Ok(parsed.value.versions);
    }

    /** `add(lib, defs…)`: parse, then write every version into the tables; a parse error leaves them as they were. */
    method Add(lib: string, defs: seq<Object>) returns (parsed: Result<seq<Object>>)
      requires Valid() && AllValid(defs)
      modifies this
      ensures Valid()
      ensures parsed == ParseLibrary(lib, defs, old(UserProps(lib)))
      ensures parsed.Ok? ==> Tables(js, css) == AddVersions(old(Tables(js, css)), parsed.value)
      ensures parsed.Err? ==> js == old(js) && css == old(css)
      ensures latestMemo == old(latestMemo) && mapProps == old(mapProps)
      ensures included == old(included) && written == old(written)
    {
      parsed := Parse(lib, defs);
      if parsed.Err? {
        return;
      }
      Store(parsed.value);
    }

    /** The versions written into the tables. */
    method Store(vs: seq<Object>)
      requires Valid()
      modifies this
      ensures Valid()
      ensures Tables(js, css) == AddVersions(old(Tables(js, css)), vs)
      ensures latestMemo == old(latestMemo) && mapProps == old(mapProps)
      ensures included == old(included) && written == old(written)
    {
      var t := AddAll(Tables(js, css), vs);
      AddVersionsValid(Tables(js, css), vs);
      js, css := t.js, t.css;
    }

    /** `include(src)`: a map file is written into the document once; a repeat returns false. */
    method Include(src: string) returns (added: bool)
      requires Valid()
      modifies this
      ensures Valid()
      ensures added <==> src !in old(included)
      ensures included == old(included) + {src}
      ensures written == old(written) + (if added then [src] else [])
      ensures js == old(js) && css == old(css) && latestMemo == old(latestMemo) && mapProps == old(mapProps)
    {
      if src in included {
        return false;
      }
      assert (written + [src])[..|written|] == written;
      written := written + [src];
      included := included + {src};
      return true;
    }

    /** `setProperties(lib, props)`: each property is copied onto the library's user properties. */
    method SetProperties(lib: string, props: Object)
      requires Valid() && JsObject.Valid(props)
      modifies this
      ensures Valid()
      ensures mapProps == old(mapProps)[lib := PutAll(old(UserProps(lib)), Entries(props))]
      ensures js == old(js) && css == old(css) && latestMemo == old(latestMemo)
      ensures included == old(included) && written == old(written)
    {
      var user := PutEach(UserProps(lib), Entries(props));
      mapProps := mapProps[lib := user];
    }

    /** `latest(lib, v)`: the memoised answer, or a scan of the JavaScript table's keys, which is then memoised. */
    method Latest(lib: string, v: string) returns (r: string)
      requires Valid()
      modifies this
      ensures Valid()
      ensures (r, latestMemo) == LatestStep(old(latestMemo), js.keys, lib, v)
      ensures js == old(js) && css == old(css) && mapProps == old(mapProps)
      ensures included == old(included) && written == old(written)
    {
      var key := lib + "/" + v;
      if key in latestMemo && latestMemo[key] != "" {
        return latestMemo[key];
      }
      r := v;
      var parts := Split(v, '.');
      if LatestRule.IsPartial(parts) {
        var minor, patch := Scan(lib, parts);
        if patch.Str? {
          r := parts[0] + "." + LatestRule.JoinText(minor) + "." + patch.s;
        }
      }
      latestMemo := latestMemo[key := r];
    }

    /** The loop of `latest` over the JavaScript table's keys, keeping the running minor and patch. */
    method Scan(lib: string, parts: seq<string>) returns (minor: LatestRule.JsVal, patch: LatestRule.JsVal)
      requires 1 <= |parts| <= 2
      ensures LatestRule.Pick(minor, patch) == LatestRule.Scan(js.keys, lib, parts)
    {
      var keys := js.keys;
      minor, patch := LatestRule.Null, LatestRule.Null;
      var i := 0;
      while i < |keys|
        invariant 0 <= i <= |keys|
        invariant LatestRule.Pick(minor, patch) == LatestRule.Scan(keys[..i], lib, parts)
      {
        assert keys[..i + 1][..i] == keys[..i];
        var modParts := Split(keys[i], '/');
        if |modParts| >= 3 && modParts[0] == lib && modParts[2] == lib && !HasInvalidVersionChar(modParts[1]) {
          var modVParts := Split(modParts[1], '.');
          if modVParts[0] == parts[0] && LatestRule.Takes(LatestRule.Pick(minor, patch), modVParts, parts) {
            minor := LatestRule.PartAt(modVParts, 1);
            patch := LatestRule.PartAt(modVParts, 2);
          }
        }
        i := i + 1;
      }
      assert keys[..i] == keys;
    }

    /** `toIds(refs)`: each tuple's version resolved through `latest`, then its ids in order. */
    method ToIds(refs: seq<ModRef>) returns (ids: seq<string>)
      requires Valid()
      modifies this
      ensures Valid()
      ensures var res := ResolveAll(old(latestMemo), js.keys, refs);
        ids == IdsOf(refs, res.0) && latestMemo == res.1
      ensures js == old(js) && css == old(css) && mapProps == old(mapProps)
      ensures included == old(included) && written == old(written)
    {
      ids := [];
      ghost var vers: seq<string> := [];
      var i := 0;
      while i < |refs|
        invariant 0 <= i <= |refs|
        invariant Valid()
        invariant js == old(js) && css == old(css) && mapProps == old(mapProps)
        invariant included == old(included) && written == old(written)
        invariant (vers, latestMemo) == ResolveAll(old(latestMemo), js.keys, refs[..i])
        invariant ids == IdsOf(refs[..i], vers)
      {
        assert refs[..i + 1][..i] == refs[..i];
        var ref := refs[i];
        var ver := Latest(ref.lib, ref.ver);
        ids := AppendIds(ids, ref, ver);
        vers := vers + [ver];
        i := i + 1;
      }
      assert refs[..i] == refs;
    }
  }
}
