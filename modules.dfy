// The loader's record of each module (`gloader.Module`) and the questions the
// loader asks about a table of them: is it implemented, is it ready to be
// implemented, does its id name a positional argument.

module Modules {
  import opened Text
  import opened JsObject

  /** `gloader.Module.INITIAL` (-1) to `gloader.Module.IMPLEMENTED` (3). */
  datatype Status = Initial | Requested | Fetched | Provided | Implemented

  /** The number `gloader` compares statuses by. */
  function Rank(s: Status): int {
    match s
    case Initial => -1
    case Requested => 0
    case Fetched => 1
    case Provided => 2
    case Implemented => 3
  }

  /** A builder function handed over in a module definition; only its identity matters here. */
  datatype Factory = Factory(tag: nat)

  /** What a builder returns: the model records which builder ran and on which arguments. */
  datatype Value = Undefined | Built(factory: Factory, args: seq<Value>)

  /**
    * One entry of `gloader._modules`. `css` is `""` where `gloader` holds
    * `undefined` or `null`; `args` are the ids whose implementations the
    * builder receives, in order.
    */
  datatype Module = Module(
    id: string,
    name: string,
    status: Status,
    css: string,
    async: Option<bool>,
    builder: Option<Factory>,
    depends: seq<string>,
    args: seq<string>,
    implementation: Value)

  type ModuleTable = Obj<Module>

  /** `library/version/name`. */
  function IdOf(lib: string, ver: string, name: string): string {
    lib + "/" + ver + "/" + name
  }

  /** `id.split("/").pop()`. */
  function LastSegment(id: string): string {
    var parts := Split(id, '/');
    parts[|parts| - 1]
  }

  /** `new gloader.Module(id)`, given the map's css path for `id` (`""` when it has none). */
  function NewModule(id: string, cssPath: string): (m: Module)
    ensures m.id == id && m.status == Initial && m.css == cssPath
    ensures m.name == LastSegment(id)
  {
    Module(id, LastSegment(id), Initial, cssPath, None, None, [], [], Undefined)
  }

  /** A module's global name is the last part of its id. */
  lemma NameOfId(lib: string, ver: string, name: string)
    requires '/' !in lib && '/' !in ver && '/' !in name
    ensures NewModule(IdOf(lib, ver, name), "").name == name
  {
    SplitThree(lib, ver, name, '/');
    assert IdOf(lib, ver, name) == lib + ['/'] + ver + ['/'] + name;
  }

  predicate Present(ms: ModuleTable, id: string) {
    Get(ms, id).Some?
  }

  predicate AllPresent(ms: ModuleTable, ids: seq<string>) {
    forall i :: 0 <= i < |ids| ==> Present(ms, ids[i])
  }

  /** `_modules[id] && _modules[id].status == IMPLEMENTED`. */
  predicate IsImplemented(ms: ModuleTable, id: string) {
    Get(ms, id).Some? && Get(ms, id).value.status == Implemented
  }

  predicate AllImplemented(ms: ModuleTable, ids: seq<string>) {
    forall i :: 0 <= i < |ids| ==> IsImplemented(ms, ids[i])
  }

  /** How many entries of `ids` are implemented, as `load` and the completion check of a request count them. */
  function CountImplemented(ms: ModuleTable, ids: seq<string>): (n: nat)
    ensures n <= |ids|
    decreases |ids|
  {
    if |ids| == 0 then 0
    else CountImplemented(ms, ids[..|ids| - 1]) + (if IsImplemented(ms, ids[|ids| - 1]) then 1 else 0)
  }

  /** Counting reaches the length exactly when every id is implemented. */
  lemma {:induction false} CountAll(ms: ModuleTable, ids: seq<string>)
    ensures CountImplemented(ms, ids) == |ids| <==> AllImplemented(ms, ids)
    decreases |ids|
  {
    if |ids| > 0 {
      var init := ids[..|ids| - 1];
      CountAll(ms, init);
      if AllImplemented(ms, ids) {
        assert forall i :: 0 <= i < |init| ==> init[i] == ids[i];
        assert AllImplemented(ms, init);
      }
      if CountImplemented(ms, ids) == |ids| {
        assert CountImplemented(ms, init) == |init| && IsImplemented(ms, ids[|ids| - 1]);
        forall i | 0 <= i < |ids|
          ensures IsImplemented(ms, ids[i])
        {
          if i < |init| {
            assert init[i] == ids[i];
          }
        }
      }
    }
  }

  /** The guard of `resolve`: a PROVIDED module all of whose dependencies are implemented. */
  predicate Ready(ms: ModuleTable, id: string) {
    Get(ms, id).Some? && Get(ms, id).value.status == Provided
    && AllImplemented(ms, Get(ms, id).value.depends)
  }

  predicate IsProvided(ms: ModuleTable, id: string) {
    Get(ms, id).Some? && Get(ms, id).value.status == Provided
  }

  /** How many of `keys` name a PROVIDED module: what `resolve` uses up. */
  function ProvidedIn(ms: ModuleTable, keys: seq<string>): nat
    decreases |keys|
  {
    if |keys| == 0 then 0
    else ProvidedIn(ms, keys[..|keys| - 1]) + (if IsProvided(ms, keys[|keys| - 1]) then 1 else 0)
  }

  /** Implementing a PROVIDED module that is listed leaves fewer PROVIDED modules. */
  lemma {:induction false} ProvidedDrops(ms: ModuleTable, id: string, m: Module, keys: seq<string>)
    requires IsProvided(ms, id) && m.status == Implemented
    ensures ProvidedIn(Put(ms, id, m), keys) <= ProvidedIn(ms, keys)
    ensures id in keys ==> ProvidedIn(Put(ms, id, m), keys) < ProvidedIn(ms, keys)
    decreases |keys|
  {
    if |keys| > 0 {
      var init := keys[..|keys| - 1];
      ProvidedDrops(ms, id, m, init);
      if id in keys && id !in init {
        assert keys[|keys| - 1] == id;
      }
    }
  }

  /** The value `_modules[id].implementation` reads, `undefined` for a missing module. */
  function ImplOf(ms: ModuleTable, id: string): Value {
    if Get(ms, id).Some? then Get(ms, id).value.implementation else Undefined
  }

  /** The implementations of `ids`, in order. */
  function ArgValues(ms: ModuleTable, ids: seq<string>): (vs: seq<Value>)
    ensures |vs| == |ids|
    ensures forall i :: 0 <= i < |ids| ==> vs[i] == ImplOf(ms, ids[i])
  {
    seq(|ids|, i requires 0 <= i < |ids| => ImplOf(ms, ids[i]))
  }

  /**
    * `id.match(/\/[^.]+$/)`: some `/` is followed by at least one character
    * and no `.` up to the end.
    */
  predicate IsPositional(id: string) {
    exists i :: 0 <= i < |id| - 1 && id[i] == '/' && NoDot(id[i + 1..])
  }

  predicate NoDot(s: string) {
    '.' !in s
  }

  /**
    * For an id built from a library, a dotted version and a module name, the
    * pattern picks exactly the module names without a dot: those are the
    * ones passed to builders and to `onload` as arguments.
    */
  lemma PositionalIds(lib: string, ver: string, name: string)
    requires '/' !in ver && '.' in ver && '/' !in name
    ensures IsPositional(IdOf(lib, ver, name)) <==> name != "" && '.' !in name
  {
    var id := IdOf(lib, ver, name);
    var last := |lib| + 1 + |ver|;
    assert id[last] == '/';
    assert id[last + 1..] == name;
    if name != "" && '.' !in name {
      assert NoDot(id[last + 1..]);
    }
    if IsPositional(id) {
      var i :| 0 <= i < |id| - 1 && id[i] == '/' && NoDot(id[i + 1..]);
      if i < |lib| + 1 {
        DotAfter(lib, ver, name, i);
        assert false;
      } else if i != last {
        assert false;
      }
    }
  }

  lemma DotAfter(lib: string, ver: string, name: string, i: int)
    requires '.' in ver && 0 <= i < |lib| + 1
    ensures !NoDot(IdOf(lib, ver, name)[i + 1..])
  {
    var d :| 0 <= d < |ver| && ver[d] == '.';
    assert IdOf(lib, ver, name)[i + 1..][|lib| + d - i] == '.';
  }
}
