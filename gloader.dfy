// The `gloader` object itself: its version map and the tables its methods
// update in place. Each method runs the corresponding operation of the
// Loader module on the tables' current values and stores the result back.

module Engine {
  import opened JsObject
  import opened Modules
  import opened Requests
  import VersionMap
  import opened Loader

  class Gloader {
    /** `gloader.map`. */
    const versions: VersionMap.Map
    /** `_modules`. */
    var modules: ModuleTable
    /** `_extras`: definitions that arrived before anybody asked for them. */
    var extras: map<string, Definition>
    /** `_expects`. */
    var expects: map<string, int>
    /** `_fetched`. */
    var fetched: set<string>
    /** `_requests`. */
    var requests: seq<Snapshot>
    /** `_errors`. */
    var errors: seq<Failure>
    /** The files put into the page, in order. */
    var dispatched: seq<Dispatch>
    /** The modules whose builders ran, in order. */
    var builds: seq<string>

    function Tables(): State
      reads this
    {
      State(modules, extras, expects, fetched, requests, errors, dispatched, builds)
    }

    ghost predicate Valid()
      reads this, versions
    {
      Ok(Tables()) && versions.Valid()
    }

    /** The loader as the page first sees it, with an empty map. */
    constructor ()
      ensures Valid() && Tables() == Start() && fresh(versions)
      ensures versions.js == Empty() && versions.latestMemo == map[]
    {
      versions := new VersionMap.Map();
      modules, extras, expects, fetched := Empty(), map[], map[], {};
      requests, errors, dispatched, builds := [], [], [], [];
    }

    /** Store a new value of every table. */
    method Store(w: State)
      modifies this
      ensures Tables() == w
    {
      modules, extras, expects, fetched := w.modules, w.extras, w.expects, w.fetched;
      requests, errors, dispatched, builds := w.requests, w.errors, w.dispatched, w.builds;
    }

    /**
      * `load(refs..., opts)`: a new request is added last; it completes at
      * once when every module it names is implemented, and otherwise waits
      * while the modules are requested and `resolve` runs.
      */
    method Load(refs: seq<VersionMap.ModRef>, opts: Options, override: string) returns (o: Outcome, q: nat)
      requires Valid()
      modifies this, versions
      ensures Valid() && PathsOf(versions) == old(PathsOf(versions))
      ensures q == old(|requests|)
      ensures Loaded(old(Tables()), Tables(), o, opts, LoadIds(old(versions.latestMemo), old(versions.js.keys), refs, override))
    {
      q := |requests|;
      var r;
      o, r := Loader.Load(Tables(), versions, refs, opts, override);
      Store(r);
    }

    /** `module(modDef)`. */
    method DefineModule(lib: string, ver: string, name: string, depends: seq<VersionMap.ModRef>, builder: Factory)
      returns (o: Outcome)
      requires Valid()
      modifies this, versions
      ensures Valid()
      ensures CountOf(old(expects), IdOf(lib, ver, name)) <= 0 ==>
        o == Thrown(Unexpected(IdOf(lib, ver, name)))
        && Tables() == old(Tables()).(errors := old(errors) + [Unexpected(IdOf(lib, ver, name))])
      ensures var id := IdOf(lib, ver, name);
        CountOf(old(expects), id) > 0 && !Present(old(modules), id) ==>
          o == Done && Tables() == old(Tables()).(expects := old(expects)[id := old(expects)[id] - 1],
            extras := old(extras)[id := Definition(lib, ver, name, [VersionMap.ModRef(lib, ver, [])] + depends, builder)])
      ensures var id := IdOf(lib, ver, name);
        CountOf(old(expects), id) > 0 && Present(old(modules), id) ==>
          Evolves(old(requests), requests) && Kept(old(modules), modules) && SubMap(extras, old(extras))
          && (o.Done? ==> NoneReady(modules))
          && (id !in old(extras) ==> Present(modules, id) && Get(modules, id).value.builder == Some(builder))
    {
      var r;
      o, r := ModuleDef(Tables(), versions, lib, ver, name, depends, builder);
      Store(r);
    }

    /** `library(modDef)`. */
    method DefineLibrary(name: string, version: string, depends: seq<VersionMap.ModRef>, builder: Factory)
      returns (o: Outcome)
      requires Valid()
      modifies this, versions
      ensures Valid()
      ensures CountOf(old(expects), IdOf(name, version, name)) <= 0 ==>
        o == Thrown(Unexpected(IdOf(name, version, name)))
        && Tables() == old(Tables()).(errors := old(errors) + [Unexpected(IdOf(name, version, name))])
      ensures var id := IdOf(name, version, name);
        CountOf(old(expects), id) > 0 && !Present(old(modules), id) ==>
          o == Done && Tables() == old(Tables()).(expects := old(expects)[id := old(expects)[id] - 1],
            extras := old(extras)[id := Definition(name, version, name, depends, builder)])
      ensures var id := IdOf(name, version, name);
        CountOf(old(expects), id) > 0 && Present(old(modules), id) ==>
          Evolves(old(requests), requests) && Kept(old(modules), modules) && SubMap(extras, old(extras))
          && (o.Done? ==> NoneReady(modules))
          && (id !in old(extras) ==> Present(modules, id) && Get(modules, id).value.builder == Some(builder))
    {
      var r;
      o, r := LibraryDef(Tables(), versions, name, version, depends, builder);
      Store(r);
    }

    /** `provide(m)`. */
    method Provide(def: Definition) returns (o: Outcome)
      requires Valid()
      modifies this, versions
      ensures Valid() && PathsOf(versions) == old(PathsOf(versions))
      ensures Evolves(old(requests), requests) && Kept(old(modules), modules)
      ensures !Present(old(modules), DefId(def)) ==> o == Done && Tables() == old(Tables()).(extras := old(extras)[DefId(def) := def])
      ensures Present(old(modules), DefId(def)) ==> SubMap(extras, old(extras))
      ensures Present(old(modules), DefId(def)) && o.Done? ==> NoneReady(modules)
      ensures BuildersKept(old(modules), modules, old(extras).Keys + {DefId(def)})
      ensures Present(old(modules), DefId(def)) && DefId(def) !in old(extras) ==>
        Present(modules, DefId(def)) && Get(modules, DefId(def)).value.builder == Some(def.builder)
    {
      var r;
      o, r := Loader.Provide(Tables(), versions, def);
      Store(r);
    }

    /** `request(ids, async)`. */
    method Request(ids: seq<string>, async: bool) returns (o: Outcome)
      requires Valid()
      modifies this, versions
      ensures Valid() && PathsOf(versions) == old(PathsOf(versions))
      ensures Evolves(old(requests), requests) && Kept(old(modules), modules) && SubMap(extras, old(extras))
      ensures BuildersKept(old(modules), modules, old(extras).Keys)
      ensures o.Done? ==> forall i :: 0 <= i < |ids| ==> Present(modules, ids[i]) && ids[i] !in extras
      ensures o.Done? ==> forall k :: Present(modules, k) ==> Settled(modules, k)
    {
      var r;
      o, r := Loader.Request(Tables(), versions, ids, async);
      Store(r);
    }

    /** `fetch(m, async, force)`. */
    method Fetch(id: string, async: bool, force: bool) returns (o: Outcome)
      requires Valid() && Present(modules, id)
      modifies this
      ensures Valid() && (o, Tables()) == AfterFetch(old(Tables()), PathsOf(versions), id, async, force)
    {
      FetchKeeps(Tables(), PathsOf(versions), id, async, force);
      var r;
      o, r := Loader.Fetch(Tables(), PathsOf(versions), id, async, force);
      Store(r);
    }

    /** `implement(m)`. */
    method Implement(id: string)
      requires Valid() && Present(modules, id)
      modifies this
      ensures Valid() && Tables() == AfterImplement(old(Tables()), id)
    {
      ImplementKeeps(Tables(), id);
      var r := Loader.Implement(Tables(), id);
      Store(r);
    }

    /** `resolve()`. */
    method Resolve()
      requires Valid()
      modifies this
      ensures Valid() && Tables() == Resolved(old(Tables())) && NoneReady(modules)
    {
      ResolvedFacts(Tables());
      var r := Loader.Resolve(Tables());
      Store(r);
    }

    /** `expect(src)`: every module the map places in `src` is expected once more. */
    method Expect(src: string)
      requires Valid()
      modifies this`expects
      ensures Valid() && expects == Expected(old(expects), versions.js, versions.js.keys, src)
    {
      ExpectedOk(expects, versions.js, versions.js.keys, src);
      expects := ExpectAll(expects, versions.js, src);
    }

    /** `_greet(id)`. */
    method Greet(id: string) returns (o: Outcome)
      requires Valid()
      modifies this
      ensures Valid()
      ensures CountOf(old(expects), id) > 0 ==>
        o == Done && Tables() == old(Tables()).(expects := old(expects)[id := old(expects)[id] - 1])
      ensures CountOf(old(expects), id) <= 0 ==>
        o == Thrown(Unexpected(id)) && Tables() == old(Tables()).(errors := old(errors) + [Unexpected(id)])
    {
      var r;
      o, r := Loader.Greet(Tables(), id);
      Store(r);
    }

    /** `getRequests(m)`: the position of the first request waiting for `id`, if any. */
    method GetRequests(id: string) returns (ps: seq<nat>)
      ensures ps == if FirstWaiter(requests, id).Some? then [FirstWaiter(requests, id).value] else []
    {
      ps := Loader.GetRequests(requests, id);
    }
  }
}
