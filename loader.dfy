// The loader (`gloader`): user requests for modules, fetching the files the
// map names, module files arriving and announcing their modules, and building
// each module once everything it depends on is built.

module Loader {
  import opened JsObject
  import opened Modules
  import opened Requests
  import VersionMap

  /** A file the loader put into the page; `forced` when the fetch was forced. */
  datatype Dispatch =
    | Script(src: string, async: bool, forced: bool)
    | Stylesheet(src: string, forced: bool)

  /** What the loader records in `_errors` and throws. */
  datatype Failure =
    | MissingJsPath(id: string, maps: seq<string>)
    | Unexpected(id: string)

  /** How an operation ends: normally, or by throwing. */
  datatype Outcome = Done | Thrown(failure: Failure)

  /** A module definition as `provide` reads it; an absent `depends` is the empty list. */
  datatype Definition = Definition(
    lib: string, ver: string, name: string,
    depends: seq<VersionMap.ModRef>, builder: Factory)

  /** `{async: ..., ids: [...]}`: a request `provide` makes for one dependency. */
  datatype Pending = Pending(async: bool, ids: seq<string>)

  function DefId(d: Definition): string {
    IdOf(d.lib, d.ver, d.name)
  }

  /** `table[id]`, `""` when absent. */
  function PathOf(t: Obj<string>, id: string): string {
    if Get(t, id).Some? then Get(t, id).value else ""
  }

  /** `_expects[id] || 0`. */
  function CountOf(ex: map<string, int>, id: string): int {
    if id in ex then ex[id] else 0
  }

  predicate SubMap(a: map<string, Definition>, b: map<string, Definition>) {
    forall k :: k in a ==> k in b && a[k] == b[k]
  }

  /** The ids `toIds` gives for `refs`, resolving versions through the memo and the js table's keys. */
  function IdsFor(memo: map<string, string>, keys: seq<string>, refs: seq<VersionMap.ModRef>): seq<string> {
    VersionMap.IdsOf(refs, VersionMap.ResolveAll(memo, keys, refs).0)
  }

  // ---------------------------------------------------------------- expect

  /** `expect(src)` over the first keys of the js table: one more expected arrival per module filed under `src`. */
  function Expected(ex: map<string, int>, js: Obj<string>, keys: seq<string>, src: string): map<string, int>
    decreases |keys|
  {
    if |keys| == 0 then ex
    else
      var e := Expected(ex, js, keys[..|keys| - 1], src);
      var k := keys[|keys| - 1];
      if Get(js, k) == Some(src) then e[k := CountOf(e, k) + 1] else e
  }

  /** Each module the table files under `src` is expected once more; no other count moves. */
  lemma {:induction false} ExpectedCounts(ex: map<string, int>, js: Obj<string>, keys: seq<string>, src: string, id: string)
    requires Distinct(keys)
    ensures CountOf(Expected(ex, js, keys, src), id)
      == CountOf(ex, id) + (if id in keys && Get(js, id) == Some(src) then 1 else 0)
    decreases |keys|
  {
    if |keys| > 0 {
      var init := keys[..|keys| - 1];
      var last := keys[|keys| - 1];
      assert keys == init + [last];
      ExpectedCounts(ex, js, init, src, id);
      if id == last {
        assert id !in init;
      }
    }
  }

  /** The loop of `expect`. */
  method ExpectAll(ex0: map<string, int>, js: Obj<string>, src: string) returns (ex: map<string, int>)
    ensures ex == Expected(ex0, js, js.keys, src)
  {
    ex := ex0;
    var keys := js.keys;
    var i := 0;
    while i < |keys|
      invariant 0 <= i <= |keys|
      invariant ex == Expected(ex0, js, keys[..i], src)
    {
      assert keys[..i + 1][..i] == keys[..i];
      if Get(js, keys[i]) == Some(src) {
        ex := ex[keys[i] := CountOf(ex, keys[i]) + 1];
      }
      i := i + 1;
    }
    assert keys[..i] == keys;
  }

  // ---------------------------------------------------------------- load helpers

  /** The global `override` setting replaces the version of every `glow` tuple. */
  method Override(refs: seq<VersionMap.ModRef>, override: string) returns (mods: seq<VersionMap.ModRef>)
    ensures |mods| == |refs|
    ensures forall i :: 0 <= i < |refs| ==>
      mods[i] == if override != "" && refs[i].lib == "glow" then refs[i].(ver := override) else refs[i]
  {
    mods := [];
    var i := 0;
    while i < |refs|
      invariant 0 <= i <= |refs|
      invariant |mods| == i
      invariant forall j :: 0 <= j < i ==>
        mods[j] == if override != "" && refs[j].lib == "glow" then refs[j].(ver := override) else refs[j]
    {
      var ref := refs[i];
      if override != "" && ref.lib == "glow" {
        ref := ref.(ver := override);
      }
      mods := mods + [ref];
      i := i + 1;
    }
  }

  function Overridden(refs: seq<VersionMap.ModRef>, override: string): seq<VersionMap.ModRef> {
    seq(|refs|, i requires 0 <= i < |refs| =>
      if override != "" && refs[i].lib == "glow" then refs[i].(ver := override) else refs[i])
  }

  /** Including each id in turn. */
  function IncludeAll(ws: seq<string>, ids: seq<string>): (r: seq<string>)
    ensures forall x :: x in r <==> x in ws || x in ids
    decreases |ids|
  {
    if |ids| == 0 then ws
    else
      var init := ids[..|ids| - 1];
      assert ids == init + [ids[|ids| - 1]];
      Included(IncludeAll(ws, init), ids[|ids| - 1])
  }

  /** Including ids never repeats one and keeps the earlier waits first. */
  lemma {:induction false} IncludeAllFacts(ws: seq<string>, ids: seq<string>)
    requires Distinct(ws)
    ensures Distinct(IncludeAll(ws, ids)) && ws <= IncludeAll(ws, ids)
    decreases |ids|
  {
    if |ids| > 0 {
      var init := ids[..|ids| - 1];
      IncludeAllFacts(ws, init);
      IncludedFacts(IncludeAll(ws, init), ids[|ids| - 1]);
    }
  }

  /** The ids that match `/\/[^.]+$/`, in order: the ones `onload` receives. */
  function Positionals(ids: seq<string>): seq<string>
    decreases |ids|
  {
    if |ids| == 0 then []
    else Positionals(ids[..|ids| - 1]) + (if IsPositional(ids[|ids| - 1]) then [ids[|ids| - 1]] else [])
  }

  /** The positional ids are exactly the ids the pattern matches. */
  lemma {:induction false} PositionalsMembers(ids: seq<string>)
    ensures forall x :: x in Positionals(ids) <==> x in ids && IsPositional(x)
    decreases |ids|
  {
    if |ids| > 0 {
      var init := ids[..|ids| - 1];
      PositionalsMembers(init);
      assert ids == init + [ids[|ids| - 1]];
    }
  }

  /** The loop of `load` that fills a fresh request's waits and arguments. */
  method Enlist(s: Snapshot, ids: seq<string>) returns (t: Snapshot)
    ensures t == s.(waits := IncludeAll(s.waits, ids), args := s.args + Positionals(ids))
  {
    var waits := s.waits;
    var args := s.args;
    var i := 0;
    while i < |ids|
      invariant 0 <= i <= |ids|
      invariant waits == IncludeAll(s.waits, ids[..i])
      invariant args == s.args + Positionals(ids[..i])
    {
      EnlistStep(s.waits, ids, i);
      waits := IncludeWait(waits, ids[i]);
      if IsPositional(ids[i]) {
        args := args + [ids[i]];
      }
      i := i + 1;
    }
    assert ids[..i] == ids;
    t := s.(waits := waits, args := args);
  }

  lemma EnlistStep(ws: seq<string>, ids: seq<string>, i: int)
    requires 0 <= i < |ids|
    ensures IncludeAll(ws, ids[..i + 1]) == Included(IncludeAll(ws, ids[..i]), ids[i])
    ensures Positionals(ids[..i + 1]) == Positionals(ids[..i]) + (if IsPositional(ids[i]) then [ids[i]] else [])
  {
    assert ids[..i + 1][..i] == ids[..i];
  }

  /** `load`'s count of the waits not yet implemented. */
  method CountWaiting(ms: ModuleTable, waits: seq<string>) returns (n: int)
    ensures n == |waits| - CountImplemented(ms, waits)
    ensures n == 0 <==> AllImplemented(ms, waits)
  {
    n := |waits|;
    var i := 0;
    while i < |waits|
      invariant 0 <= i <= |waits|
      invariant n == |waits| - CountImplemented(ms, waits[..i])
    {
      assert waits[..i + 1][..i] == waits[..i];
      if IsImplemented(ms, waits[i]) {
        n := n - 1;
      }
      i := i + 1;
    }
    assert waits[..i] == waits;
    CountAll(ms, waits);
  }

  /** Two lists with the same members are implemented together. */
  lemma SameMembers(ms: ModuleTable, a: seq<string>, b: seq<string>)
    requires forall x :: x in a <==> x in b
    ensures AllImplemented(ms, a) <==> AllImplemented(ms, b)
  {
    if AllImplemented(ms, a) {
      forall i | 0 <= i < |b|
        ensures IsImplemented(ms, b[i])
      {
        assert b[i] in a;
        var j :| 0 <= j < |a| && a[j] == b[i];
      }
    }
    if AllImplemented(ms, b) {
      forall i | 0 <= i < |a|
        ensures IsImplemented(ms, a[i])
      {
        assert a[i] in b;
        var j :| 0 <= j < |b| && b[j] == a[i];
      }
    }
  }

  // ---------------------------------------------------------------- resolve helpers

  /** The dependency loop of `resolve`, leaving at the first one not implemented. */
  method DepsImplemented(ms: ModuleTable, deps: seq<string>) returns (b: bool)
    ensures b <==> AllImplemented(ms, deps)
  {
    var j := 0;
    while j < |deps|
      invariant 0 <= j <= |deps|
      invariant forall q :: 0 <= q < j ==> IsImplemented(ms, deps[q])
    {
      if !IsImplemented(ms, deps[j]) {
        return false;
      }
      j := j + 1;
    }
    return true;
  }

  // ---------------------------------------------------------------- table invariants

  /** A builder only receives modules it depends on. */
  predicate ArgsDeclared(m: Module) {
    forall i :: 0 <= i < |m.args| ==> m.args[i] in m.depends
  }

  /** Each module sits under its own id, passes only dependencies, and has a builder once PROVIDED. */
  ghost predicate Coherent(ms: ModuleTable) {
    forall k :: Get(ms, k).Some? ==>
      Get(ms, k).value.id == k && ArgsDeclared(Get(ms, k).value)
      && (Get(ms, k).value.status == Provided ==> Get(ms, k).value.builder.Some?)
  }

  lemma CoherentPut(ms: ModuleTable, k: string, m: Module)
    requires Coherent(ms) && m.id == k && ArgsDeclared(m)
    requires m.status == Provided ==> m.builder.Some?
    ensures Coherent(Put(ms, k, m))
  {
  }

  /** A file is put into the page a second time only by a forced fetch. */
  predicate NoRepeat(ds: seq<Dispatch>) {
    forall i, j :: 0 <= i < j < |ds| && ds[i].src == ds[j].src ==> ds[j].forced
  }

  lemma NoRepeatAdd(ds: seq<Dispatch>, fetched: set<string>, d: Dispatch)
    requires NoRepeat(ds) && forall i :: 0 <= i < |ds| ==> ds[i].src in fetched
    requires d.forced || d.src !in fetched
    ensures NoRepeat(ds + [d])
  {
  }

  // ---------------------------------------------------------------- the loader's state

  /**
    * Everything `gloader` keeps besides its map: `_modules`, `_extras`,
    * `_expects`, `_fetched`, `_requests` and `_errors`, with the files put
    * into the page in `dispatched` and each run of a builder in `builds`.
    */
  datatype State = State(
    modules: ModuleTable,
    extras: map<string, Definition>,
    expects: map<string, int>,
    fetched: set<string>,
    requests: seq<Snapshot>,
    errors: seq<Failure>,
    dispatched: seq<Dispatch>,
    builds: seq<string>)

  /** The loader as the page first sees it. */
  function Start(): (w: State)
    ensures Ok(w)
    ensures |w.modules.keys| == 0 && w.requests == [] && w.dispatched == []
  {
    State(Empty(), map[], map[], {}, [], [], [], [])
  }

  /** What the loader keeps true between its operations. */
  ghost predicate Ok(w: State) {
    TableOk(w.modules) && ExtrasOk(w.extras) && ExpectsOk(w.expects)
    && RequestsOk(w.requests) && FilesOk(w.fetched, w.dispatched)
  }

  ghost predicate TableOk(ms: ModuleTable) {
    JsObject.Valid(ms) && Coherent(ms)
  }

  /** Each early definition is filed under its own id. */
  predicate ExtrasOk(extras: map<string, Definition>) {
    forall k :: k in extras ==> DefId(extras[k]) == k
  }

  /** No module is expected a negative number of times. */
  predicate ExpectsOk(ex: map<string, int>) {
    forall k :: k in ex ==> ex[k] >= 0
  }

  predicate RequestsOk(rs: seq<Snapshot>) {
    forall i :: 0 <= i < |rs| ==> WellFormed(rs[i])
  }

  /** Every file put into the page is marked fetched, and none twice unless forced. */
  predicate FilesOk(fetched: set<string>, dispatched: seq<Dispatch>) {
    (forall i :: 0 <= i < |dispatched| ==> dispatched[i].src in fetched) && NoRepeat(dispatched)
  }

  /** Every module present before is present after. */
  ghost predicate Kept(ms: ModuleTable, ms': ModuleTable) {
    forall k :: Present(ms, k) ==> Present(ms', k)
  }

  /** Every module present before and not named in `ex` is present after, with the same builder. */
  ghost predicate BuildersKept(ms: ModuleTable, ms': ModuleTable, ex: set<string>) {
    forall k :: Present(ms, k) && k !in ex ==> Present(ms', k) && Get(ms', k).value.builder == Get(ms, k).value.builder
  }

  lemma BuildersTrans(a: ModuleTable, b: ModuleTable, c: ModuleTable, e1: set<string>, e2: set<string>, ex: set<string>)
    requires BuildersKept(a, b, e1) && BuildersKept(b, c, e2) && e1 <= ex && e2 <= ex
    ensures BuildersKept(a, c, ex)
  {
  }

  /**
    * How a request changes while it is in the list: its waits only grow at
    * the end, its arguments and options stay, and once past INITIAL it
    * never returns there.
    */
  ghost predicate Grows(s: Snapshot, t: Snapshot) {
    |s.waits| <= |t.waits| && t.waits[..|s.waits|] == s.waits
    && t.args == s.args && t.async == s.async && t.setGlobal == s.setGlobal
    && t.onload == s.onload && t.delay == s.delay
    && (s.phase != Created ==> t.phase != Created)
  }

  /** The list keeps its length and each request only grows. */
  ghost predicate Evolves(rs: seq<Snapshot>, rs': seq<Snapshot>) {
    |rs'| == |rs| && forall i :: 0 <= i < |rs| ==> Grows(rs[i], rs'[i])
  }

  lemma EvolvesTrans(a: seq<Snapshot>, b: seq<Snapshot>, c: seq<Snapshot>)
    requires Evolves(a, b) && Evolves(b, c)
    ensures Evolves(a, c)
  {
    forall i | 0 <= i < |a|
      ensures Grows(a[i], c[i])
    {
      assert c[i].waits[..|a[i].waits|] == c[i].waits[..|b[i].waits|][..|a[i].waits|];
    }
  }

  /** `resolve` leaves no module ready to be implemented. */
  ghost predicate NoneReady(ms: ModuleTable) {
    forall k :: !Ready(ms, k)
  }

  // ---------------------------------------------------------------- expect and _greet

  /** The counts `expect` raises are never negative. */
  lemma {:induction false} ExpectedOk(ex: map<string, int>, js: Obj<string>, keys: seq<string>, src: string)
    requires ExpectsOk(ex)
    ensures ExpectsOk(Expected(ex, js, keys, src))
    decreases |keys|
  {
    if |keys| > 0 {
      ExpectedOk(ex, js, keys[..|keys| - 1], src);
    }
  }

  /** `_greet(id)`: use up one expected arrival, or record the surprise and throw. */
  method Greet(w: State, id: string) returns (o: Outcome, r: State)
    ensures CountOf(w.expects, id) > 0 ==>
      o == Done && r == w.(expects := w.expects[id := w.expects[id] - 1])
    ensures CountOf(w.expects, id) <= 0 ==>
      o == Thrown(Unexpected(id)) && r == w.(errors := w.errors + [Unexpected(id)])
  {
    if CountOf(w.expects, id) > 0 {
      return Done, w.(expects := w.expects[id := w.expects[id] - 1]);
    }
    return Thrown(Unexpected(id)), w.(errors := w.errors + [Unexpected(id)]);
  }

  /**
    * Once the file the map gives for a module has been fetched, the module
    * is expected, so its arrival is greeted without a throw; greeting keeps
    * the counts non-negative.
    */
  lemma ExpectThenGreet(ex: map<string, int>, js: Obj<string>, id: string)
    requires ExpectsOk(ex) && JsObject.Valid(js) && Get(js, id).Some?
    ensures CountOf(Expected(ex, js, js.keys, Get(js, id).value), id) > 0
    ensures var e := Expected(ex, js, js.keys, Get(js, id).value);
      ExpectsOk(e[id := e[id] - 1])
  {
    ExpectedCounts(ex, js, js.keys, Get(js, id).value, id);
    ExpectedOk(ex, js, js.keys, Get(js, id).value);
  }

  // ---------------------------------------------------------------- fetch

  /** What `fetch` reads of the map: the js and css tables and the map files included so far. */
  datatype Paths = Paths(js: Obj<string>, css: Obj<string>, maps: seq<string>)

  function PathsOf(vm: VersionMap.Map): Paths
    reads vm
  {
    Paths(vm.js, vm.css, vm.written)
  }

  /** Whether `fetch` stops after the stylesheet: the module was fetched already and the fetch is not forced. */
  predicate Skips(m: Module, force: bool) {
    !force && Rank(m.status) >= Rank(Fetched)
  }

  /** `fetch(m, async, force)`: note the mode, put in the stylesheet, then, unless skipped, the script. */
  function AfterFetch(w: State, p: Paths, id: string, async: bool, force: bool): (Outcome, State)
    requires Present(w.modules, id)
  {
    var m := Get(w.modules, id).value;
    var w1 := StyleStep(w.(modules := Put(w.modules, id, m.(async := Some(async)))), p, id, force);
    if Skips(m, force) then (Done, w1)
    else ScriptStep(w1.(modules := Put(w.modules, id, m.(async := Some(async), status := Fetched))), p, id, async, force)
  }

  /** The stylesheet part of `fetch`: the module's css file goes in unless it is fetched already and the fetch is not forced. */
  function StyleStep(w: State, p: Paths, id: string, force: bool): State {
    var css := PathOf(p.css, id);
    if css != "" && (force || css !in w.fetched) then
      w.(fetched := w.fetched + {css}, dispatched := w.dispatched + [Stylesheet(css, force)])
    else w
  }

  /** The script part of `fetch`: a module the map has no js path for throws; otherwise the file goes in unless fetched and not forced. */
  function ScriptStep(w: State, p: Paths, id: string, async: bool, force: bool): (Outcome, State) {
    var js := PathOf(p.js, id);
    if js == "" then
      (Thrown(MissingJsPath(id, p.maps)), w.(errors := w.errors + [MissingJsPath(id, p.maps)]))
    else if force || js !in w.fetched then
      (Done, w.(fetched := w.fetched + {js}, dispatched := w.dispatched + [Script(js, async, force)],
                expects := Expected(w.expects, p.js, p.js.keys, js)))
    else
      (Done, w)
  }

  /** The body of `fetch`, step by step. */
  method Fetch(w: State, p: Paths, id: string, async: bool, force: bool) returns (o: Outcome, r: State)
    requires Present(w.modules, id)
    ensures (o, r) == AfterFetch(w, p, id, async, force)
  {
    var m := Get(w.modules, id).value;
    r := w.(modules := Put(w.modules, id, m.(async := Some(async))));
    var css := PathOf(p.css, id);
    if css != "" && (force || css !in r.fetched) {
      r := r.(fetched := r.fetched + {css}, dispatched := r.dispatched + [Stylesheet(css, force)]);
    }
    if !force && Rank(m.status) >= Rank(Fetched) {
      return Done, r;
    }
    r := r.(modules := Put(w.modules, id, m.(async := Some(async), status := Fetched)));
    var js := PathOf(p.js, id);
    if js == "" {
      r := r.(errors := r.errors + [MissingJsPath(id, p.maps)]);
      return Thrown(MissingJsPath(id, p.maps)), r;
    }
    if force || js !in r.fetched {
      var ex := ExpectAll(r.expects, p.js, js);
      r := r.(fetched := r.fetched + {js}, expects := ex, dispatched := r.dispatched + [Script(js, async, force)]);
    }
    o := Done;
  }

  /**
    * A fetch keeps the module table well formed, changes only the fetched
    * module, never makes a module PROVIDED and leaves it at least FETCHED
    * with the same css.
    */
  lemma FetchKeepsTable(w: State, p: Paths, id: string, async: bool, force: bool)
    requires Present(w.modules, id) && TableOk(w.modules)
    ensures var r := AfterFetch(w, p, id, async, force).1;
      TableOk(r.modules) && r.modules.keys == w.modules.keys
      && (forall k :: k != id ==> Get(r.modules, k) == Get(w.modules, k))
      && (forall k :: IsProvided(r.modules, k) ==> IsProvided(w.modules, k))
      && Rank(Get(r.modules, id).value.status) >= Rank(Fetched)
      && Get(r.modules, id).value.css == Get(w.modules, id).value.css
  {
    var m := Get(w.modules, id).value;
    var m' := if Skips(m, force) then m.(async := Some(async)) else m.(async := Some(async), status := Fetched);
    FetchedModule(w, p, id, async, force);
    PutValid(w.modules, id, m');
    CoherentPut(w.modules, id, m');
  }

  /** The only module entry `fetch` rewrites is the fetched module's. */
  lemma FetchedModule(w: State, p: Paths, id: string, async: bool, force: bool)
    requires Present(w.modules, id)
    ensures var m := Get(w.modules, id).value;
      AfterFetch(w, p, id, async, force).1.modules
        == Put(w.modules, id, if Skips(m, force) then m.(async := Some(async)) else m.(async := Some(async), status := Fetched))
  {
  }

  /**
    * A fetch puts a file into the page only when forced or when the file was
    * not fetched before, and marks every file it puts in as fetched.
    */
  lemma FetchKeepsFiles(w: State, p: Paths, id: string, async: bool, force: bool)
    requires Present(w.modules, id) && FilesOk(w.fetched, w.dispatched)
    ensures var r := AfterFetch(w, p, id, async, force).1;
      FilesOk(r.fetched, r.dispatched) && w.fetched <= r.fetched && w.dispatched <= r.dispatched
      && r.requests == w.requests && r.extras == w.extras && r.builds == w.builds
      && (ExpectsOk(w.expects) ==> ExpectsOk(r.expects))
  {
    var m := Get(w.modules, id).value;
    var w0 := w.(modules := Put(w.modules, id, m.(async := Some(async))));
    StyleKeepsFiles(w0, p, id, force);
    var w1 := StyleStep(w0, p, id, force);
    if !Skips(m, force) {
      ScriptKeepsFiles(w1.(modules := Put(w.modules, id, m.(async := Some(async), status := Fetched))), p, id, async, force);
    }
  }

  lemma StyleKeepsFiles(w: State, p: Paths, id: string, force: bool)
    requires FilesOk(w.fetched, w.dispatched)
    ensures var r := StyleStep(w, p, id, force);
      FilesOk(r.fetched, r.dispatched) && w.fetched <= r.fetched && w.dispatched <= r.dispatched
      && r == w.(fetched := r.fetched, dispatched := r.dispatched)
  {
    var css := PathOf(p.css, id);
    if css != "" && (force || css !in w.fetched) {
      NoRepeatAdd(w.dispatched, w.fetched, Stylesheet(css, force));
    }
  }

  lemma ScriptKeepsFiles(w: State, p: Paths, id: string, async: bool, force: bool)
    requires FilesOk(w.fetched, w.dispatched)
    ensures var r := ScriptStep(w, p, id, async, force).1;
      FilesOk(r.fetched, r.dispatched) && w.fetched <= r.fetched && w.dispatched <= r.dispatched
      && r == w.(fetched := r.fetched, dispatched := r.dispatched, expects := r.expects, errors := r.errors)
      && (ExpectsOk(w.expects) ==> ExpectsOk(r.expects))
  {
    var js := PathOf(p.js, id);
    if js != "" && (force || js !in w.fetched) {
      NoRepeatAdd(w.dispatched, w.fetched, Script(js, async, force));
      if ExpectsOk(w.expects) {
        ExpectedOk(w.expects, p.js, p.js.keys, js);
      }
    }
  }

  /** A fetch keeps everything the loader keeps true, and touches neither requests, extras nor builds. */
  lemma FetchKeeps(w: State, p: Paths, id: string, async: bool, force: bool)
    requires Present(w.modules, id) && Ok(w)
    ensures var r := AfterFetch(w, p, id, async, force).1;
      Ok(r) && r.requests == w.requests && r.extras == w.extras && r.builds == w.builds
  {
    FetchKeepsTable(w, p, id, async, force);
    FetchKeepsFiles(w, p, id, async, force);
  }

  /** A fetch that is not skipped throws exactly when the map has no js path for the module. */
  lemma FetchThrows(w: State, p: Paths, id: string, async: bool, force: bool)
    requires Present(w.modules, id)
    ensures AfterFetch(w, p, id, async, force).0.Thrown?
      <==> !Skips(Get(w.modules, id).value, force) && PathOf(p.js, id) == ""
  {
  }

  /** A second fetch of the same module that is not forced puts nothing more into the page. */
  lemma FetchOnce(w: State, p: Paths, id: string, async: bool, async': bool)
    requires Present(w.modules, id)
    ensures var r := AfterFetch(w, p, id, async, false).1;
      Present(r.modules, id) && AfterFetch(r, p, id, async', false).1.dispatched == r.dispatched
  {
    var r := AfterFetch(w, p, id, async, false).1;
    FetchedModule(w, p, id, async, false);
    assert Rank(Get(r.modules, id).value.status) >= Rank(Fetched);
    var css := PathOf(p.css, id);
    assert css != "" ==> css in r.fetched;
  }

  // ---------------------------------------------------------------- getRequests

  /** The position of the first request waiting for `id`. */
  function FirstWaiter(rs: seq<Snapshot>, id: string): (q: Option<nat>)
    ensures q.Some? ==>
      q.value < |rs| && id in rs[q.value].waits && forall j :: 0 <= j < q.value ==> id !in rs[j].waits
    ensures q.None? ==> forall j :: 0 <= j < |rs| ==> id !in rs[j].waits
    decreases |rs|
  {
    if |rs| == 0 then None
    else if id in rs[0].waits then Some(0)
    else
      var rest := FirstWaiter(rs[1..], id);
      assert forall j :: 1 <= j < |rs| ==> rs[j] == rs[1..][j - 1];
      if rest.None? then None else Some(rest.value + 1)
  }

  /** The first waiter stays first when its waits change but still hold `id`. */
  lemma FirstWaiterKept(rs: seq<Snapshot>, id: string, q: nat, s: Snapshot)
    requires FirstWaiter(rs, id) == Some(q) && id in s.waits
    ensures FirstWaiter(rs[q := s], id) == Some(q)
  {
    var rs' := rs[q := s];
    assert id in rs'[q].waits;
    assert forall j :: 0 <= j < q ==> rs'[j] == rs[j];
  }

  /** `getRequests(m)`: the first request waiting for `id`, as a list of at most one position. */
  method GetRequests(rs: seq<Snapshot>, id: string) returns (ps: seq<nat>)
    ensures ps == if FirstWaiter(rs, id).Some? then [FirstWaiter(rs, id).value] else []
  {
    var i := 0;
    while i < |rs|
      invariant 0 <= i <= |rs|
      invariant forall j :: 0 <= j < i ==> id !in rs[j].waits
    {
      var w := rs[i].waits;
      var j := 0;
      while j < |w|
        invariant 0 <= j <= |w|
        invariant id !in w[..j]
      {
        if w[j] == id {
          return [i];
        }
        j := j + 1;
      }
      assert w[..j] == w;
      i := i + 1;
    }
    return [];
  }

  // ---------------------------------------------------------------- implement

  /** Every request hears of a new implementation. */
  function ReleasedAll(rs: seq<Snapshot>, ms: ModuleTable): seq<Snapshot> {
    seq(|rs|, i requires 0 <= i < |rs| => ReleaseState(rs[i], ms))
  }

  /** Releasing every request keeps each well formed, and completes each exactly when its modules are all implemented. */
  lemma ReleasedAllFacts(rs: seq<Snapshot>, ms: ModuleTable)
    requires RequestsOk(rs)
    ensures RequestsOk(ReleasedAll(rs, ms)) && Evolves(rs, ReleasedAll(rs, ms))
    ensures forall i :: 0 <= i < |rs| ==>
      (ReleasedAll(rs, ms)[i].phase == Completed <==> rs[i].phase == Completed || AllImplemented(ms, rs[i].waits))
  {
    forall i | 0 <= i < |rs|
      ensures WellFormed(ReleasedAll(rs, ms)[i]) && Grows(rs[i], ReleasedAll(rs, ms)[i])
      ensures ReleasedAll(rs, ms)[i].phase == Completed <==> rs[i].phase == Completed || AllImplemented(ms, rs[i].waits)
    {
      ReleaseKeeps(rs[i], ms);
      ReleaseCompletes(rs[i], ms);
    }
  }

  /** The loop of `implement` over the requests. */
  method ReleaseAll(rs: seq<Snapshot>, ms: ModuleTable) returns (rs': seq<Snapshot>)
    ensures rs' == ReleasedAll(rs, ms)
  {
    rs' := rs;
    var i := 0;
    while i < |rs|
      invariant 0 <= i <= |rs| && |rs'| == |rs|
      invariant forall j :: 0 <= j < i ==> rs'[j] == ReleaseState(rs[j], ms)
      invariant forall j :: i <= j < |rs| ==> rs'[j] == rs[j]
    {
      var s := ReleaseSnapshot(rs'[i], ms);
      rs' := rs'[i := s];
      i := i + 1;
    }
  }

  /**
    * `implement(m)`: a PROVIDED module is built from the implementations of
    * its arguments and becomes IMPLEMENTED, then every request is released;
    * any other module is left alone.
    */
  function AfterImplement(w: State, id: string): State
    requires Present(w.modules, id) && TableOk(w.modules)
  {
    var m := Get(w.modules, id).value;
    if m.status != Provided then w
    else
      var ms := Put(w.modules, id,
        m.(status := Implemented, implementation := Built(m.builder.value, ArgValues(w.modules, m.args))));
      w.(modules := ms, builds := w.builds + [id], requests := ReleasedAll(w.requests, ms))
  }

  /**
    * Implementing keeps everything the loader keeps true and the table's
    * keys, runs a builder only for a PROVIDED module, and leaves one
    * PROVIDED module fewer when it does.
    */
  lemma ImplementKeeps(w: State, id: string)
    requires Ok(w) && Present(w.modules, id)
    ensures var r := AfterImplement(w, id);
      Ok(r) && r.modules.keys == w.modules.keys && Kept(w.modules, r.modules)
      && r.extras == w.extras && r.expects == w.expects && r.fetched == w.fetched
      && r.dispatched == w.dispatched && r.errors == w.errors && Evolves(w.requests, r.requests)
      && (IsProvided(w.modules, id) ==>
            r.builds == w.builds + [id] && IsImplemented(r.modules, id)
            && ProvidedIn(r.modules, r.modules.keys) < ProvidedIn(w.modules, w.modules.keys))
      && (!IsProvided(w.modules, id) ==> r == w) && BuildersKept(w.modules, r.modules, {})
  {
    var m := Get(w.modules, id).value;
    if m.status == Provided {
      var m' := m.(status := Implemented, implementation := Built(m.builder.value, ArgValues(w.modules, m.args)));
      PutValid(w.modules, id, m');
      CoherentPut(w.modules, id, m');
      ProvidedDrops(w.modules, id, m', w.modules.keys);
      ReleasedAllFacts(w.requests, Put(w.modules, id, m'));
    }
  }

  /** A second `implement` of the same module does nothing: each definition's builder runs once. */
  lemma ImplementOnce(w: State, id: string)
    requires Ok(w) && Present(w.modules, id)
    ensures var r := AfterImplement(w, id);
      Present(r.modules, id) && TableOk(r.modules) && AfterImplement(r, id) == r
  {
    ImplementKeeps(w, id);
  }

  /** The body of `implement`. */
  method Implement(w: State, id: string) returns (r: State)
    requires Present(w.modules, id) && TableOk(w.modules)
    ensures r == AfterImplement(w, id)
  {
    var m := Get(w.modules, id).value;
    if m.status != Provided {
      return w;
    }
    var vals := CollectArgs(w.modules, m.args);
    var ms := Put(w.modules, id, m.(status := Implemented, implementation := Built(m.builder.value, vals)));
    var rs := ReleaseAll(w.requests, ms);
    r := w.(modules := ms, builds := w.builds + [id], requests := rs);
  }

  // ---------------------------------------------------------------- resolve

  /** The position, from `p` on in the table's order, of the first module ready to be implemented. */
  function FirstReadyFrom(ms: ModuleTable, p: nat): (r: Option<nat>)
    requires p <= |ms.keys|
    ensures r.Some? ==>
      p <= r.value < |ms.keys| && Ready(ms, ms.keys[r.value])
      && forall q :: p <= q < r.value ==> !Ready(ms, ms.keys[q])
    ensures r.None? ==> forall q :: p <= q < |ms.keys| ==> !Ready(ms, ms.keys[q])
    decreases |ms.keys| - p
  {
    if p == |ms.keys| then None
    else if Ready(ms, ms.keys[p]) then Some(p)
    else FirstReadyFrom(ms, p + 1)
  }

  /** The module loop of `resolve`: the position of the first ready module, if any. */
  method FirstReady(ms: ModuleTable) returns (r: Option<nat>)
    ensures r == FirstReadyFrom(ms, 0)
  {
    var p := 0;
    while p < |ms.keys|
      invariant 0 <= p <= |ms.keys|
      invariant FirstReadyFrom(ms, 0) == FirstReadyFrom(ms, p)
    {
      var m := Get(ms, ms.keys[p]);
      if m.Some? && m.value.status == Provided {
        var ok := DepsImplemented(ms, m.value.depends);
        if ok {
          return Some(p);
        }
      }
      p := p + 1;
    }
    return None;
  }

  /**
    * `resolve()`: implement the first ready module in the table's order and
    * start again, until no module is ready. Each round uses up a PROVIDED
    * module, so the rounds end.
    */
  function Resolved(w: State): State
    requires Ok(w)
    decreases ProvidedIn(w.modules, w.modules.keys)
  {
    match FirstReadyFrom(w.modules, 0)
    case None => w
    case Some(p) =>
      ImplementKeeps(w, w.modules.keys[p]);
      Resolved(AfterImplement(w, w.modules.keys[p]))
  }

  /**
    * After `resolve` no module is ready; the table keeps its keys, the
    * builds only grow, and nothing but modules, builds and requests changes.
    */
  lemma {:induction false} ResolvedFacts(w: State)
    requires Ok(w)
    ensures var r := Resolved(w);
      Ok(r) && NoneReady(r.modules) && r.modules.keys == w.modules.keys && Kept(w.modules, r.modules)
      && w.builds <= r.builds && Evolves(w.requests, r.requests)
      && r.extras == w.extras && r.expects == w.expects && r.fetched == w.fetched
      && r.dispatched == w.dispatched && r.errors == w.errors
    decreases ProvidedIn(w.modules, w.modules.keys)
  {
    match FirstReadyFrom(w.modules, 0)
    case None =>
      forall k
        ensures !Ready(w.modules, k)
      {
        if k in w.modules.keys {
          var q :| 0 <= q < |w.modules.keys| && w.modules.keys[q] == k;
        }
      }
    case Some(p) =>
      var id := w.modules.keys[p];
      ImplementKeeps(w, id);
      ResolvedFacts(AfterImplement(w, id));
      EvolvesTrans(w.requests, AfterImplement(w, id).requests, Resolved(w).requests);
  }

  /** `resolve` changes no module's builder. */
  lemma {:induction false} ResolvedBuilders(w: State)
    requires Ok(w)
    ensures BuildersKept(w.modules, Resolved(w).modules, {})
    decreases ProvidedIn(w.modules, w.modules.keys)
  {
    match FirstReadyFrom(w.modules, 0)
    case None =>
    case Some(p) =>
      var id := w.modules.keys[p];
      ImplementKeeps(w, id);
      ResolvedBuilders(AfterImplement(w, id));
      BuildersTrans(w.modules, AfterImplement(w, id).modules, Resolved(w).modules, {}, {}, {});
  }

  /**
    * `resolve` implements a module only when it was PROVIDED and every
    * module it depends on is implemented by then; nothing implemented
    * goes back.
    */
  lemma {:induction false} ResolvedOnlyReady(w: State)
    requires Ok(w)
    ensures var r := Resolved(w);
      (forall k :: IsImplemented(w.modules, k) ==> IsImplemented(r.modules, k))
      && forall k :: IsImplemented(r.modules, k) && !IsImplemented(w.modules, k) ==>
           IsProvided(w.modules, k) && AllImplemented(r.modules, Get(w.modules, k).value.depends)
    decreases ProvidedIn(w.modules, w.modules.keys)
  {
    match FirstReadyFrom(w.modules, 0)
    case None =>
    case Some(p) =>
      var id := w.modules.keys[p];
      ImplementKeeps(w, id);
      var w1 := AfterImplement(w, id);
      ResolvedOnlyReady(w1);
      var r := Resolved(w1);
      forall k | IsImplemented(r.modules, k) && !IsImplemented(w.modules, k)
        ensures IsProvided(w.modules, k) && AllImplemented(r.modules, Get(w.modules, k).value.depends)
      {
        if k == id {
          var ds := Get(w.modules, id).value.depends;
          assert forall i :: 0 <= i < |ds| ==> IsImplemented(w1.modules, ds[i]);
        }
      }
  }

  /** The body of `resolve`, with its recursion as a loop. */
  method Resolve(w: State) returns (r: State)
    requires Ok(w)
    ensures r == Resolved(w)
  {
    r := w;
    var next := FirstReady(r.modules);
    while next.Some?
      invariant Ok(r) && Resolved(r) == Resolved(w)
      invariant next == FirstReadyFrom(r.modules, 0)
      decreases ProvidedIn(r.modules, r.modules.keys)
    {
      var id := r.modules.keys[next.value];
      ImplementKeeps(r, id);
      r := Implement(r, id);
      next := FirstReady(r.modules);
    }
  }

  // ---------------------------------------------------------------- provide's dependency loop

  /**
    * The loop of `provide` over the dependencies `d` of module `id`: the first
    * request waiting for the module (the only one `getRequests` finds, and
    * the same one on every round) includes each dependency, a pending
    * request is noted for each, and the positional dependencies become the
    * builder's arguments.
    */
  function AfterGather(w: State, id: string, d: seq<string>): (State, seq<Pending>)
    requires Present(w.modules, id)
  {
    var m := Get(w.modules, id).value;
    var w' := w.(modules := Put(w.modules, id, m.(args := m.args + Positionals(d))));
    match FirstWaiter(w.requests, id)
    case None => (w', Pendings(true, false, d))
    case Some(q) =>
      var s := w.requests[q];
      (w'.(requests := w.requests[q := s.(waits := IncludeAll(s.waits, d))]), Pendings(s.async, true, d))
  }

  /** The pending requests the dependency loop notes: each dependency alone when a request waits for the module, nothing otherwise. */
  function Pendings(async: bool, waited: bool, d: seq<string>): seq<Pending>
    decreases |d|
  {
    if |d| == 0 then []
    else Pendings(async, waited, d[..|d| - 1]) + [Pending(async, if waited then [d[|d| - 1]] else [])]
  }

  lemma ArgsStep(pre: seq<string>, d: seq<string>, i: int)
    requires 0 <= i < |d|
    ensures pre + Positionals(d[..i + 1]) == pre + Positionals(d[..i]) + (if IsPositional(d[i]) then [d[i]] else [])
  {
    assert d[..i + 1][..i] == d[..i];
  }

  lemma PendingsStep(async: bool, waited: bool, d: seq<string>, i: int)
    requires 0 <= i < |d|
    ensures Pendings(async, waited, d[..i + 1])
      == Pendings(async, waited, d[..i]) + [Pending(async, if waited then [d[i]] else [])]
  {
    assert d[..i + 1][..i] == d[..i];
  }

  /** The dependency loop keeps everything the loader keeps true, when the module had no arguments yet. */
  lemma GatherKeeps(w: State, id: string, d: seq<string>)
    requires Ok(w) && Present(w.modules, id)
    requires Get(w.modules, id).value.depends == d && Get(w.modules, id).value.args == []
    ensures var r := AfterGather(w, id, d).0;
      Ok(r) && r.modules.keys == w.modules.keys && Kept(w.modules, r.modules)
      && Evolves(w.requests, r.requests) && r.extras == w.extras && BuildersKept(w.modules, r.modules, {})
  {
    var m := Get(w.modules, id).value;
    var m' := m.(args := m.args + Positionals(d));
    PositionalsMembers(d);
    PutValid(w.modules, id, m');
    CoherentPut(w.modules, id, m');
    var f := FirstWaiter(w.requests, id);
    if f.Some? {
      WidenKeeps(w.requests, f.value, d);
    }
  }

  /** Widening one request's waits keeps every request well formed and only grows the list. */
  lemma WidenKeeps(rs: seq<Snapshot>, q: nat, d: seq<string>)
    requires RequestsOk(rs) && q < |rs|
    ensures var rs' := rs[q := rs[q].(waits := IncludeAll(rs[q].waits, d))];
      RequestsOk(rs') && Evolves(rs, rs')
  {
    var s := rs[q];
    IncludeAllFacts(s.waits, d);
    var rs' := rs[q := s.(waits := IncludeAll(s.waits, d))];
    assert forall x :: x in s.waits ==> x in rs'[q].waits;
    assert rs'[q].waits[..|s.waits|] == s.waits;
    assert WellFormed(rs'[q]) && Grows(s, rs'[q]);
  }

  lemma UpdateAgain(rs: seq<Snapshot>, q: nat, a: Snapshot, b: Snapshot)
    requires q < |rs|
    ensures rs[q := a][q := b] == rs[q := b]
  {
  }

  /** One round of the dependency loop: the first request waiting for `id`, if any, includes `dep`. */
  method GatherOne(rs: seq<Snapshot>, id: string, dep: string) returns (rs': seq<Snapshot>, inc: Pending)
    ensures FirstWaiter(rs, id).None? ==> rs' == rs && inc == Pending(true, [])
    ensures FirstWaiter(rs, id).Some? ==>
      var q := FirstWaiter(rs, id).value;
      rs' == rs[q := rs[q].(waits := Included(rs[q].waits, dep))] && inc == Pending(rs[q].async, [dep])
      && FirstWaiter(rs', id) == Some(q)
  {
    var ps := GetRequests(rs, id);
    rs', inc := rs, Pending(true, []);
    if |ps| == 1 {
      var s := rs[ps[0]];
      var ws := IncludeWait(s.waits, dep);
      FirstWaiterKept(rs, id, ps[0], s.(waits := ws));
      rs' := rs[ps[0] := s.(waits := ws)];
      inc := Pending(s.async, [dep]);
    }
  }

  /** The requests once the waiter at `f`, if any, has included `ds`. */
  function Widened(rs: seq<Snapshot>, f: Option<nat>, ds: seq<string>): seq<Snapshot>
    requires f.Some? ==> f.value < |rs|
  {
    if f.Some? then rs[f.value := rs[f.value].(waits := IncludeAll(rs[f.value].waits, ds))] else rs
  }

  /** One more round of the dependency loop widens the same waiter by one more dependency. */
  lemma WidenStep(rs: seq<Snapshot>, id: string, d: seq<string>, i: int)
    requires 0 <= i < |d|
    ensures var f := FirstWaiter(rs, id);
      var cur := Widened(rs, f, d[..i]);
      FirstWaiter(cur, id) == f
      && (f.Some? ==>
        cur[f.value].async == rs[f.value].async
        && cur[f.value := cur[f.value].(waits := Included(cur[f.value].waits, d[i]))] == Widened(rs, f, d[..i + 1]))
  {
    var f := FirstWaiter(rs, id);
    if f.Some? {
      var q := f.value;
      var s := rs[q];
      EnlistStep(s.waits, d, i);
      FirstWaiterKept(rs, id, q, s.(waits := IncludeAll(s.waits, d[..i])));
      UpdateAgain(rs, q, s.(waits := IncludeAll(s.waits, d[..i])), s.(waits := IncludeAll(s.waits, d[..i + 1])));
    }
  }

  /** The body of the dependency loop of `provide`. */
  method Gather(w: State, id: string, d: seq<string>) returns (r: State, includes: seq<Pending>)
    requires Present(w.modules, id)
    ensures (r, includes) == AfterGather(w, id, d)
  {
    ghost var f := FirstWaiter(w.requests, id);
    ghost var a := if f.Some? then w.requests[f.value].async else true;
    var m := Get(w.modules, id).value;
    var rs := w.requests;
    var args := m.args;
    includes := [];
    var i := 0;
    if f.Some? {
      assert w.requests[f.value := w.requests[f.value]] == w.requests;
    }
    while i < |d|
      invariant 0 <= i <= |d|
      invariant rs == Widened(w.requests, f, d[..i])
      invariant includes == Pendings(a, f.Some?, d[..i])
      invariant args == m.args + Positionals(d[..i])
    {
      WidenStep(w.requests, id, d, i);
      var inc;
      rs, inc := GatherOne(rs, id, d[i]);
      PendingsStep(a, f.Some?, d, i);
      ArgsStep(m.args, d, i);
      includes := includes + [inc];
      if IsPositional(d[i]) {
        args := args + [d[i]];
      }
      i := i + 1;
    }
    assert d[..i] == d;
    r := w.(modules := Put(w.modules, id, m.(args := args)), requests := rs);
  }

  // ---------------------------------------------------------------- provide and request

  /**
    * `provide(m)`: a module definition arrives. One nobody asked for is kept
    * among the extras; otherwise the module becomes PROVIDED with the
    * definition's builder and dependencies, the dependencies are requested
    * for the first request waiting for it (or, without dependencies, it is
    * implemented at once), and `resolve` runs.
    */
  method Provide(w: State, vm: VersionMap.Map, def: Definition) returns (o: Outcome, r: State)
    requires Ok(w) && vm.Valid()
    modifies vm
    decreases w.extras.Keys, 7
    ensures Ok(r) && vm.Valid() && PathsOf(vm) == old(PathsOf(vm))
    ensures Evolves(w.requests, r.requests) && Kept(w.modules, r.modules)
    ensures !Present(w.modules, DefId(def)) ==> o == Done && r == w.(extras := w.extras[DefId(def) := def])
    ensures Present(w.modules, DefId(def)) ==> SubMap(r.extras, w.extras)
    ensures Present(w.modules, DefId(def)) && o.Done? ==> NoneReady(r.modules)
    ensures BuildersKept(w.modules, r.modules, w.extras.Keys + {DefId(def)})
    ensures Present(w.modules, DefId(def)) && DefId(def) !in w.extras ==>
      Present(r.modules, DefId(def)) && Get(r.modules, DefId(def)).value.builder == Some(def.builder)
  {
    var id := DefId(def);
    if !Present(w.modules, id) {
      return Done, w.(extras := w.extras[id := def]);
    }
    var d := vm.ToIds(def.depends);
    var m := Get(w.modules, id).value;
    var m' := m.(status := Provided, builder := Some(def.builder), args := [], depends := d);
    PutKeeps(w, id, m');
    r := w.(modules := Put(w.modules, id, m'));
    ghost var r1 := r;
    o, r := Settle(r, vm, id, d, w.extras.Keys);
    BuildersTrans(w.modules, r1.modules, r.modules, {id}, w.extras.Keys, w.extras.Keys + {id});
  }

  /** The rest of `provide`, once the module is PROVIDED with dependencies `d` and no arguments yet. */
  method Settle(w: State, vm: VersionMap.Map, id: string, d: seq<string>, ghost bound: set<string>)
    returns (o: Outcome, r: State)
    requires Ok(w) && vm.Valid() && w.extras.Keys <= bound
    requires Present(w.modules, id) && Get(w.modules, id).value.status == Provided
    requires Get(w.modules, id).value.depends == d && Get(w.modules, id).value.args == []
    modifies vm
    decreases bound, 6
    ensures Ok(r) && vm.Valid() && PathsOf(vm) == old(PathsOf(vm))
    ensures Evolves(w.requests, r.requests) && Kept(w.modules, r.modules)
    ensures SubMap(r.extras, w.extras)
    ensures o.Done? ==> NoneReady(r.modules)
    ensures |d| == 0 ==> o == Done && r == Resolved(AfterImplement(w, id))
    ensures BuildersKept(w.modules, r.modules, w.extras.Keys)
  {
    r := w;
    if |d| > 0 {
      var includes;
      GatherKeeps(r, id, d);
      r, includes := Gather(r, id, d);
      ghost var r1 := r;
      o, r := RequestEach(r, vm, includes, bound);
      EvolvesTrans(w.requests, r1.requests, r.requests);
      BuildersTrans(w.modules, r1.modules, r.modules, {}, w.extras.Keys, w.extras.Keys);
      if o.Thrown? {
        return;
      }
    } else {
      ImplementKeeps(r, id);
      r := Implement(r, id);
    }
    ResolvedFacts(r);
    ResolvedBuilders(r);
    ghost var r2 := r;
    r := Resolve(r);
    EvolvesTrans(w.requests, r2.requests, r.requests);
    BuildersTrans(w.modules, r2.modules, r.modules, w.extras.Keys, {}, w.extras.Keys);
    o := Done;
  }

  /** Filing a coherent module record keeps the loader's invariant and every module already there. */
  lemma PutKeeps(w: State, id: string, m: Module)
    requires Ok(w) && m.id == id && ArgsDeclared(m) && (m.status == Provided ==> m.builder.Some?)
    ensures var r := w.(modules := Put(w.modules, id, m));
      Ok(r) && Kept(w.modules, r.modules) && Get(r.modules, id) == Some(m)
  {
    PutValid(w.modules, id, m);
    CoherentPut(w.modules, id, m);
  }

  /** The last loop of `provide`: request each pending set of dependencies in turn. */
  method RequestEach(w: State, vm: VersionMap.Map, includes: seq<Pending>, ghost bound: set<string>)
    returns (o: Outcome, r: State)
    requires Ok(w) && vm.Valid() && w.extras.Keys <= bound
    modifies vm
    decreases bound, 5
    ensures Ok(r) && vm.Valid() && PathsOf(vm) == old(PathsOf(vm))
    ensures Evolves(w.requests, r.requests) && Kept(w.modules, r.modules)
    ensures SubMap(r.extras, w.extras) && BuildersKept(w.modules, r.modules, w.extras.Keys)
    ensures o.Done? ==> forall i :: 0 <= i < |includes| ==> AllPresent(r.modules, includes[i].ids)
  {
    o, r := Done, w;
    var i := 0;
    while i < |includes|
      invariant 0 <= i <= |includes|
      invariant Ok(r) && vm.Valid() && PathsOf(vm) == old(PathsOf(vm))
      invariant Evolves(w.requests, r.requests) && Kept(w.modules, r.modules)
      invariant SubMap(r.extras, w.extras) && BuildersKept(w.modules, r.modules, w.extras.Keys)
      invariant forall q :: 0 <= q < i ==> AllPresent(r.modules, includes[q].ids)
    {
      ghost var r0 := r;
      o, r := Request(r, vm, includes[i].ids, includes[i].async);
      EvolvesTrans(w.requests, r0.requests, r.requests);
      BuildersTrans(w.modules, r0.modules, r.modules, w.extras.Keys, r0.extras.Keys, w.extras.Keys);
      if o.Thrown? {
        return;
      }
      PresentKept(r0.modules, r.modules, includes, i);
      i := i + 1;
    }
  }

  /** Sets of ids found present stay present while the modules are kept. */
  lemma PresentKept(ms: ModuleTable, ms': ModuleTable, includes: seq<Pending>, n: nat)
    requires Kept(ms, ms')
    requires forall q :: 0 <= q < n && q < |includes| ==> AllPresent(ms, includes[q].ids)
    ensures forall q :: 0 <= q < n && q < |includes| ==> AllPresent(ms', includes[q].ids)
  {
  }

  /** The module is there and has been fetched, with no stylesheet left to insert. */
  ghost predicate Settled(ms: ModuleTable, k: string) {
    Present(ms, k) && Rank(Get(ms, k).value.status) >= Rank(Fetched) && Get(ms, k).value.css == ""
  }

  /**
    * `request(ids, async)`: make sure each id has a module (handing over an
    * early definition when there is one), then fetch every module that is
    * not implemented or still has a stylesheet to insert.
    */
  method Request(w: State, vm: VersionMap.Map, ids: seq<string>, async: bool) returns (o: Outcome, r: State)
    requires Ok(w) && vm.Valid()
    modifies vm
    decreases w.extras.Keys, 4
    ensures Ok(r) && vm.Valid() && PathsOf(vm) == old(PathsOf(vm))
    ensures Evolves(w.requests, r.requests) && Kept(w.modules, r.modules)
    ensures SubMap(r.extras, w.extras) && BuildersKept(w.modules, r.modules, w.extras.Keys)
    ensures o.Done? ==> forall i :: 0 <= i < |ids| ==> Present(r.modules, ids[i]) && ids[i] !in r.extras
    ensures o.Done? ==> forall k :: Present(r.modules, k) ==> Settled(r.modules, k)
  {
    o, r := AdmitAll(w, vm, ids);
    if o.Thrown? {
      return;
    }
    ghost var r1 := r;
    o, r := FetchAll(r, PathsOf(vm), async);
    FetchedAllFacts(r1, PathsOf(vm), async);
    BuildersTrans(w.modules, r1.modules, r.modules, w.extras.Keys, {}, w.extras.Keys);
  }

  /** The first loop of `request`: a module for each id, in turn, stopping at the first throw. */
  method AdmitAll(w: State, vm: VersionMap.Map, ids: seq<string>) returns (o: Outcome, r: State)
    requires Ok(w) && vm.Valid()
    modifies vm
    decreases w.extras.Keys, 3
    ensures Ok(r) && vm.Valid() && PathsOf(vm) == old(PathsOf(vm))
    ensures Evolves(w.requests, r.requests) && Kept(w.modules, r.modules)
    ensures SubMap(r.extras, w.extras) && BuildersKept(w.modules, r.modules, w.extras.Keys)
    ensures o.Done? ==> forall i :: 0 <= i < |ids| ==> Present(r.modules, ids[i]) && ids[i] !in r.extras
  {
    o, r := Done, w;
    var i := 0;
    while i < |ids|
      invariant 0 <= i <= |ids|
      invariant Ok(r) && vm.Valid() && PathsOf(vm) == old(PathsOf(vm))
      invariant Evolves(w.requests, r.requests) && Kept(w.modules, r.modules)
      invariant SubMap(r.extras, w.extras) && BuildersKept(w.modules, r.modules, w.extras.Keys)
      invariant forall q :: 0 <= q < i ==> Present(r.modules, ids[q]) && ids[q] !in r.extras
    {
      ghost var r0 := r;
      o, r := Admit(r, vm, ids[i], w.extras.Keys);
      EvolvesTrans(w.requests, r0.requests, r.requests);
      BuildersTrans(w.modules, r0.modules, r.modules, w.extras.Keys, r0.extras.Keys, w.extras.Keys);
      if o.Thrown? {
        return;
      }
      AdmittedKept(r0, r, ids, i);
      i := i + 1;
    }
  }

  /** Ids admitted earlier stay admitted while the modules are kept and the early definitions only shrink. */
  lemma AdmittedKept(w: State, r: State, ids: seq<string>, n: nat)
    requires Kept(w.modules, r.modules) && SubMap(r.extras, w.extras)
    requires forall q :: 0 <= q < n && q < |ids| ==> Present(w.modules, ids[q]) && ids[q] !in w.extras
    ensures forall q :: 0 <= q < n && q < |ids| ==> Present(r.modules, ids[q]) && ids[q] !in r.extras
  {
  }

  /**
    * A round of the first loop of `request` for an id with no early
    * definition: a module that is not there yet is created, REQUESTED,
    * with the stylesheet the map gives it; an existing one is left alone.
    */
  function Admitted(w: State, css: Obj<string>, id: string): (Outcome, State) {
    if Present(w.modules, id) then (Done, w)
    else (Done, w.(modules := Put(w.modules, id, NewModule(id, PathOf(css, id)).(status := Requested))))
  }

  /** One round of the first loop of `request`: the module for `id` exists afterwards. */
  method Admit(w: State, vm: VersionMap.Map, id: string, ghost bound: set<string>) returns (o: Outcome, r: State)
    requires Ok(w) && vm.Valid() && w.extras.Keys <= bound
    modifies vm
    decreases bound, 1
    ensures Ok(r) && vm.Valid() && PathsOf(vm) == old(PathsOf(vm))
    ensures Evolves(w.requests, r.requests) && Kept(w.modules, r.modules)
    ensures SubMap(r.extras, w.extras)
    ensures o.Done? ==> Present(r.modules, id) && id !in r.extras
    ensures id !in w.extras ==> (o, r) == Admitted(w, old(vm.css), id)
    ensures BuildersKept(w.modules, r.modules, w.extras.Keys)
    ensures id in w.extras ==> Present(r.modules, id) && Get(r.modules, id).value.builder == Some(w.extras[id].builder)
  {
    o := Done;
    r := w;
    if id in w.extras {
      o, r := AdmitEarly(w, vm, id, bound);
    } else if !Present(w.modules, id) {
      var nm := NewModule(id, PathOf(vm.css, id)).(status := Requested);
      PutKeeps(w, id, nm);
      r := w.(modules := Put(w.modules, id, nm));
    }
  }

  /** The early-definition branch of `Admit`: a new module for `id` is handed its definition, which is used up. */
  method AdmitEarly(w: State, vm: VersionMap.Map, id: string, ghost bound: set<string>) returns (o: Outcome, r: State)
    requires Ok(w) && vm.Valid() && w.extras.Keys <= bound && id in w.extras
    modifies vm
    decreases bound, 0
    ensures Ok(r) && vm.Valid() && PathsOf(vm) == old(PathsOf(vm))
    ensures Evolves(w.requests, r.requests) && Kept(w.modules, r.modules)
    ensures SubMap(r.extras, w.extras) && id !in r.extras
    ensures BuildersKept(w.modules, r.modules, w.extras.Keys)
    ensures Present(r.modules, id) && Get(r.modules, id).value.builder == Some(w.extras[id].builder)
  {
    var nm := NewModule(id, PathOf(vm.css, id));
    PutKeeps(w, id, nm);
    var extra := w.extras[id];
    r := w.(modules := Put(w.modules, id, nm), extras := w.extras - {id});
    ghost var r1 := r;
    assert BuildersKept(w.modules, r1.modules, {id});
    o, r := Provide(r, vm, extra);
    BuildersTrans(w.modules, r1.modules, r.modules, {id}, r1.extras.Keys + {id}, w.extras.Keys);
  }

  /**
    * One round of the second loop of `request`: a module that is not
    * implemented, or still has a stylesheet, forgets its css path and is
    * fetched, forced when a synchronous request meets a module an
    * asynchronous one has fetched already; any other module is left alone.
    */
  function FetchStep(w: State, p: Paths, id: string, async: bool): (Outcome, State)
    requires Present(w.modules, id)
  {
    var m := Get(w.modules, id).value;
    if Rank(m.status) < Rank(Implemented) || m.css != "" then
      AfterFetch(w.(modules := Put(w.modules, id, m.(css := ""))), p, id, async,
                 !async && m.async == Some(true) && Rank(m.status) >= Rank(Fetched))
    else (Done, w)
  }

  /** A round of the loop keeps the invariant, the table's keys and every other module. */
  lemma FetchStepKeeps(w: State, p: Paths, id: string, async: bool)
    requires Ok(w) && Present(w.modules, id)
    ensures var r := FetchStep(w, p, id, async).1;
      Ok(r) && r.modules.keys == w.modules.keys && Kept(w.modules, r.modules)
      && (forall k :: k != id ==> Get(r.modules, k) == Get(w.modules, k))
      && r.requests == w.requests && r.extras == w.extras
  {
    var m := Get(w.modules, id).value;
    if Rank(m.status) < Rank(Implemented) || m.css != "" {
      var m' := m.(css := "");
      PutValid(w.modules, id, m');
      CoherentPut(w.modules, id, m');
      var r := w.(modules := Put(w.modules, id, m'));
      var force := !async && m.async == Some(true) && Rank(m.status) >= Rank(Fetched);
      FetchKeeps(r, p, id, async, force);
      FetchKeepsTable(r, p, id, async, force);
    }
  }

  /** A round of the loop keeps the invariant and the modules; all `FetchedAll` needs to go on. */
  lemma FetchStepOk(w: State, p: Paths, id: string, async: bool)
    requires Ok(w) && Present(w.modules, id)
    ensures Ok(FetchStep(w, p, id, async).1) && Kept(w.modules, FetchStep(w, p, id, async).1.modules)
  {
    FetchStepKeeps(w, p, id, async);
  }

  /** A round of the loop changes no module's builder. */
  lemma FetchStepBuilders(w: State, p: Paths, id: string, async: bool)
    requires Present(w.modules, id)
    ensures BuildersKept(w.modules, FetchStep(w, p, id, async).1.modules, {})
  {
    var m := Get(w.modules, id).value;
    if Rank(m.status) < Rank(Implemented) || m.css != "" {
      FetchedModule(w.(modules := Put(w.modules, id, m.(css := ""))), p, id, async,
                    !async && m.async == Some(true) && Rank(m.status) >= Rank(Fetched));
    }
  }

  /** After a round its module is settled, thrown or not, and a module settled before stays settled. */
  lemma FetchStepSettles(w: State, p: Paths, id: string, async: bool)
    requires Ok(w) && Present(w.modules, id)
    ensures var r := FetchStep(w, p, id, async).1;
      Settled(r.modules, id) && forall k :: Settled(w.modules, k) ==> Settled(r.modules, k)
  {
    var m := Get(w.modules, id).value;
    if Rank(m.status) < Rank(Implemented) || m.css != "" {
      var m' := m.(css := "");
      var r := w.(modules := Put(w.modules, id, m'));
      var force := !async && m.async == Some(true) && Rank(m.status) >= Rank(Fetched);
      FetchKeepsTable(r, p, id, async, force);
    }
  }

  /** The second loop of `request` over the keys `ks` from the `i`th on, stopping at the first throw. */
  function FetchedAll(w: State, p: Paths, ks: seq<string>, i: nat, async: bool): (Outcome, State)
    requires Ok(w) && i <= |ks| && forall j :: 0 <= j < |ks| ==> Present(w.modules, ks[j])
    decreases |ks| - i
  {
    if i == |ks| then (Done, w)
    else
      FetchStepOk(w, p, ks[i], async);
      var (o, r) := FetchStep(w, p, ks[i], async);
      if o.Thrown? then (o, r) else FetchedAll(r, p, ks, i + 1, async)
  }

  /**
    * The loop keeps the invariant, the table's keys, the requests and the
    * early definitions; each module it reaches, and each one settled
    * before, is settled afterwards.
    */
  lemma {:induction false} FetchedAllSettles(w: State, p: Paths, ks: seq<string>, i: nat, async: bool)
    requires Ok(w) && i <= |ks| && forall j :: 0 <= j < |ks| ==> Present(w.modules, ks[j])
    ensures var r := FetchedAll(w, p, ks, i, async).1;
      Ok(r) && r.modules.keys == w.modules.keys && Kept(w.modules, r.modules)
      && r.requests == w.requests && r.extras == w.extras && BuildersKept(w.modules, r.modules, {})
      && (forall k :: Settled(w.modules, k) ==> Settled(r.modules, k))
      && (FetchedAll(w, p, ks, i, async).0.Done? ==> forall j :: i <= j < |ks| ==> Settled(r.modules, ks[j]))
    decreases |ks| - i
  {
    if i < |ks| {
      FetchStepKeeps(w, p, ks[i], async);
      FetchStepSettles(w, p, ks[i], async);
      FetchStepBuilders(w, p, ks[i], async);
      var (o1, r1) := FetchStep(w, p, ks[i], async);
      if o1.Done? {
        FetchedAllSettles(r1, p, ks, i + 1, async);
        var after := FetchedAll(r1, p, ks, i + 1, async);
        BuildersTrans(w.modules, r1.modules, after.1.modules, {}, {}, {});
        assert FetchedAll(w, p, ks, i, async) == after;
        forall j | i <= j < |ks|
          ensures after.0.Done? ==> Settled(after.1.modules, ks[j])
        {
          if j == i {
            assert Settled(r1.modules, ks[i]);
          }
        }
      }
    }
  }

  /**
    * The whole loop keeps the invariant, the table's keys, the requests,
    * the early definitions and every builder, and unless a fetch throws it
    * leaves every module settled.
    */
  lemma FetchedAllFacts(w: State, p: Paths, async: bool)
    requires Ok(w)
    ensures var (o, r) := FetchedAll(w, p, w.modules.keys, 0, async);
      Ok(r) && r.modules.keys == w.modules.keys && Kept(w.modules, r.modules)
      && r.requests == w.requests && r.extras == w.extras && BuildersKept(w.modules, r.modules, {})
      && (o.Done? ==> forall k :: Present(r.modules, k) ==> Settled(r.modules, k))
  {
    var keys := w.modules.keys;
    FetchedAllSettles(w, p, keys, 0, async);
    var (o, r) := FetchedAll(w, p, keys, 0, async);
    if o.Done? {
      forall key | Present(r.modules, key)
        ensures Settled(r.modules, key)
      {
        var q :| 0 <= q < |keys| && keys[q] == key;
      }
    }
  }

  /** The second loop of `request`: each module in the table's order goes through `FetchStep`. */
  method FetchAll(w: State, p: Paths, async: bool) returns (o: Outcome, r: State)
    requires Ok(w)
    ensures (o, r) == FetchedAll(w, p, w.modules.keys, 0, async)
  {
    r := w;
    var keys := w.modules.keys;
    var k := 0;
    while k < |keys|
      invariant 0 <= k <= |keys|
      invariant Ok(r) && r.modules.keys == keys
      invariant forall j :: 0 <= j < |keys| ==> Present(r.modules, keys[j])
      invariant FetchedAll(r, p, keys, k, async) == FetchedAll(w, p, keys, 0, async)
    {
      o, r := FetchKey(r, p, keys[k], async);
      if o.Thrown? {
        break;
      }
      k := k + 1;
    }
    if k == |keys| {
      o := Done;
    }
  }

  /** One round of the second loop of `request`. */
  method FetchKey(w: State, p: Paths, id: string, async: bool) returns (o: Outcome, r: State)
    requires Ok(w) && id in w.modules.keys
    ensures (o, r) == FetchStep(w, p, id, async)
    ensures Ok(r) && r.modules.keys == w.modules.keys
    ensures forall k :: k != id ==> Get(r.modules, k) == Get(w.modules, k)
    ensures r.requests == w.requests && r.extras == w.extras
    ensures Settled(r.modules, id)
  {
    FetchStepKeeps(w, p, id, async);
    FetchStepSettles(w, p, id, async);
    var m := Get(w.modules, id).value;
    if Rank(m.status) < Rank(Implemented) || m.css != "" {
      var force := !async && m.async == Some(true) && Rank(m.status) >= Rank(Fetched);
      o, r := Fetch(w.(modules := Put(w.modules, id, m.(css := ""))), p, id, async, force);
    } else {
      o, r := Done, w;
    }
  }

  // ---------------------------------------------------------------- load, module, library

  /** The ids `load` waits for: its tuples, versions overridden, through `toIds`. */
  function LoadIds(memo: map<string, string>, keys: seq<string>, refs: seq<VersionMap.ModRef>, override: string): seq<string> {
    IdsFor(memo, keys, Overridden(refs, override))
  }

  /**
    * What `load` leaves behind for ids `ids` and options `opts`: the new
    * request sits last, holds every id once and the positional ones as
    * arguments, and keeps the options; the requests before it only grew.
    * When every id was implemented already the request is completed at once
    * and nothing else changes; otherwise it waits (or has completed) and,
    * unless something threw, every id has a module and no module is left
    * ready to be implemented.
    */
  ghost predicate Loaded(w: State, r: State, o: Outcome, opts: Options, ids: seq<string>) {
    Ok(r) && |r.requests| == |w.requests| + 1 && Evolves(w.requests, r.requests[..|w.requests|])
    && (var s := r.requests[|w.requests|];
        IncludeAll([], ids) <= s.waits && s.args == Positionals(ids)
        && s.async == Fresh(opts).async && s.setGlobal == Fresh(opts).setGlobal
        && s.onload == Fresh(opts).onload && s.delay == Fresh(opts).delay)
    && (AllImplemented(w.modules, ids) ==>
          AllImplemented(w.modules, IncludeAll([], ids)) && o == Done
          && r == w.(requests := w.requests
               + [CompleteState(Fresh(opts).(waits := IncludeAll([], ids), args := Positionals(ids)), w.modules)]))
    && (!AllImplemented(w.modules, ids) ==> r.requests[|w.requests|].phase != Created)
    && (o.Done? && !AllImplemented(w.modules, ids) ==> NoneReady(r.modules))
    && (o.Done? ==> AllPresent(r.modules, ids))
  }

  /** `load(refs..., opts)`, with the `override` setting as a parameter. */
  method Load(w: State, vm: VersionMap.Map, refs: seq<VersionMap.ModRef>, opts: Options, override: string)
    returns (o: Outcome, r: State)
    requires Ok(w) && vm.Valid()
    modifies vm
    ensures vm.Valid() && PathsOf(vm) == old(PathsOf(vm))
    ensures Loaded(w, r, o, opts, LoadIds(old(vm.latestMemo), old(vm.js.keys), refs, override))
  {
    var mods := Override(refs, override);
    assert mods == Overridden(refs, override);
    var ids := vm.ToIds(mods);
    o, r := LoadIdsOf(w, vm, ids, opts);
  }

  /** `load` once the references are turned into ids: add the request and wait for, or complete, it. */
  method LoadIdsOf(w: State, vm: VersionMap.Map, ids: seq<string>, opts: Options) returns (o: Outcome, r: State)
    requires Ok(w) && vm.Valid()
    modifies vm
    ensures vm.Valid() && PathsOf(vm) == old(PathsOf(vm))
    ensures Loaded(w, r, o, opts, ids)
  {
    var s := Enlist(Fresh(opts), ids);
    FreshFacts(w.modules, opts, ids);
    var waitCount := CountWaiting(w.modules, s.waits);
    if waitCount > 0 {
      o, r := Await(w, vm, opts, ids);
    } else {
      o, r := Shortcut(w, opts, ids);
    }
  }

  /**
    * The request `load` builds is well formed, waiting or not, and it waits
    * only for implemented modules exactly when all the ids are implemented.
    */
  lemma FreshFacts(ms: ModuleTable, opts: Options, ids: seq<string>)
    ensures var s := Fresh(opts).(waits := IncludeAll([], ids), args := Positionals(ids));
      WellFormed(s) && WellFormed(s.(phase := Waiting))
      && (AllImplemented(ms, s.waits) <==> AllImplemented(ms, ids))
  {
    IncludeAllFacts([], ids);
    PositionalsMembers(ids);
    SameMembers(ms, IncludeAll([], ids), ids);
  }

  /** The waiting branch of `load`: the request waits while the ids are requested, then `resolve` runs. */
  method Await(w: State, vm: VersionMap.Map, opts: Options, ids: seq<string>) returns (o: Outcome, r: State)
    requires Ok(w) && vm.Valid() && !AllImplemented(w.modules, ids)
    modifies vm
    ensures vm.Valid() && PathsOf(vm) == old(PathsOf(vm))
    ensures Loaded(w, r, o, opts, ids)
  {
    FreshFacts(w.modules, opts, ids);
    var s := Fresh(opts).(waits := IncludeAll([], ids), args := Positionals(ids), phase := Waiting);
    o, r := RequestResolve(w.(requests := w.requests + [s]), vm, ids, s.async);
    EvolvesLast(w.requests, s, r.requests);
  }

  /** `request` followed by `resolve`, unless the request throws. */
  method RequestResolve(w: State, vm: VersionMap.Map, ids: seq<string>, async: bool) returns (o: Outcome, r: State)
    requires Ok(w) && vm.Valid()
    modifies vm
    ensures Ok(r) && vm.Valid() && PathsOf(vm) == old(PathsOf(vm))
    ensures Evolves(w.requests, r.requests) && Kept(w.modules, r.modules) && SubMap(r.extras, w.extras)
    ensures o.Done? ==> NoneReady(r.modules)
    ensures o.Done? ==> forall i :: 0 <= i < |ids| ==> Present(r.modules, ids[i]) && ids[i] !in r.extras
  {
    o, r := Request(w, vm, ids, async);
    if o.Thrown? {
      return;
    }
    ResolvedFacts(r);
    ghost var r1 := r;
    r := Resolve(r);
    EvolvesTrans(w.requests, r1.requests, r.requests);
    o := Done;
  }

  /** A list that grew from `a + [s]` splits into what grew from `a` and what grew from `s`. */
  lemma EvolvesLast(a: seq<Snapshot>, s: Snapshot, b: seq<Snapshot>)
    requires Evolves(a + [s], b)
    ensures |b| == |a| + 1 && Evolves(a, b[..|a|]) && Grows(s, b[|a|])
  {
    assert (a + [s])[|a|] == s;
    assert forall i :: 0 <= i < |a| ==> (a + [s])[i] == a[i];
  }

  /** The other branch of `load`: every id is implemented, so the request completes at once. */
  method Shortcut(w: State, opts: Options, ids: seq<string>) returns (o: Outcome, r: State)
    requires Ok(w) && AllImplemented(w.modules, ids)
    ensures Loaded(w, r, o, opts, ids)
  {
    FreshFacts(w.modules, opts, ids);
    var s := Fresh(opts).(waits := IncludeAll([], ids), args := Positionals(ids));
    CompleteKeeps(s, w.modules);
    var t := CompleteSnapshot(s, w.modules);
    o, r := Done, w.(requests := w.requests + [t]);
    assert r.requests[..|w.requests|] == w.requests;
  }

  /** `module(modDef)`: a module file announces a module, which implicitly depends on its own library. */
  method ModuleDef(w: State, vm: VersionMap.Map, lib: string, ver: string, name: string,
                   depends: seq<VersionMap.ModRef>, builder: Factory) returns (o: Outcome, r: State)
    requires Ok(w) && vm.Valid()
    modifies vm
    ensures Ok(r) && vm.Valid()
    ensures CountOf(w.expects, IdOf(lib, ver, name)) <= 0 ==>
      o == Thrown(Unexpected(IdOf(lib, ver, name))) && r == w.(errors := w.errors + [Unexpected(IdOf(lib, ver, name))])
    ensures var id := IdOf(lib, ver, name);
      CountOf(w.expects, id) > 0 && !Present(w.modules, id) ==>
        o == Done && r == w.(expects := w.expects[id := w.expects[id] - 1],
                             extras := w.extras[id := Definition(lib, ver, name, [VersionMap.ModRef(lib, ver, [])] + depends, builder)])
    ensures var id := IdOf(lib, ver, name);
      CountOf(w.expects, id) > 0 && Present(w.modules, id) ==>
        Evolves(w.requests, r.requests) && Kept(w.modules, r.modules) && SubMap(r.extras, w.extras)
        && (o.Done? ==> NoneReady(r.modules))
        && (id !in w.extras ==> Present(r.modules, id) && Get(r.modules, id).value.builder == Some(builder))
  {
    o, r := Greet(w, IdOf(lib, ver, name));
    if o.Thrown? {
      return;
    }
    o, r := Provide(r, vm, Definition(lib, ver, name, [VersionMap.ModRef(lib, ver, [])] + depends, builder));
  }

  /** `library(modDef)`: a library file announces its library module, `name/version/name`. */
  method LibraryDef(w: State, vm: VersionMap.Map, name: string, version: string,
                    depends: seq<VersionMap.ModRef>, builder: Factory) returns (o: Outcome, r: State)
    requires Ok(w) && vm.Valid()
    modifies vm
    ensures Ok(r) && vm.Valid()
    ensures CountOf(w.expects, IdOf(name, version, name)) <= 0 ==>
      o == Thrown(Unexpected(IdOf(name, version, name))) && r == w.(errors := w.errors + [Unexpected(IdOf(name, version, name))])
    ensures var id := IdOf(name, version, name);
      CountOf(w.expects, id) > 0 && !Present(w.modules, id) ==>
        o == Done && r == w.(expects := w.expects[id := w.expects[id] - 1],
                             extras := w.extras[id := Definition(name, version, name, depends, builder)])
    ensures var id := IdOf(name, version, name);
      CountOf(w.expects, id) > 0 && Present(w.modules, id) ==>
        Evolves(w.requests, r.requests) && Kept(w.modules, r.modules) && SubMap(r.extras, w.extras)
        && (o.Done? ==> NoneReady(r.modules))
        && (id !in w.extras ==> Present(r.modules, id) && Get(r.modules, id).value.builder == Some(builder))
  {
    o, r := Greet(w, IdOf(name, version, name));
    if o.Thrown? {
      return;
    }
    o, r := Provide(r, vm, Definition(name, version, name, depends, builder));
  }
}
