// `gloader.Request`: one call of `load`, waiting for a set of modules and
// completing once, when all of them are implemented.

module Requests {
  import opened JsObject
  import opened Modules

  /** `gloader.Request.INITIAL` (-1), `WAITING` (0), `COMPLETED` (1). */
  datatype Phase = Created | Waiting | Completed

  /** A callback the user hands over; only its identity matters here. */
  datatype Callback = Callback(tag: nat)

  /** The options object the last argument of `load` may be; `None` for an absent property. */
  datatype Options = Options(
    async: Option<bool>,
    onload: Option<Callback>,
    onLoad: Option<Callback>,
    ontimeout: Option<Callback>,
    onTimeout: Option<Callback>,
    timeout: Option<int>)

  /** The milliseconds a timeout callback waits when the options name none. */
  const DefaultTimeout: int := 20000

  /** `window[name] = value`, as a request without a callback publishes its modules. */
  datatype Global = Global(name: string, value: Value)

  /**
    * The state of a request that its operations change. `armed` says a
    * timeout is pending; `calls` records each call of `onload` with its
    * arguments, `globals` each assignment to `window`.
    */
  datatype Snapshot = Snapshot(
    waits: seq<string>,
    phase: Phase,
    async: bool,
    setGlobal: bool,
    onload: Option<Callback>,
    delay: Option<int>,
    armed: bool,
    args: seq<string>,
    calls: seq<seq<Value>>,
    globals: seq<Global>)

  /** `onLoad` is a synonym of `onload` and wins over it. */
  function OnloadOf(r: Options): Option<Callback> {
    if r.onLoad.Some? then r.onLoad else r.onload
  }

  /** `onTimeout` is a synonym of `ontimeout` and wins over it. */
  function OntimeoutOf(r: Options): Option<Callback> {
    if r.onTimeout.Some? then r.onTimeout else r.ontimeout
  }

  /** The delay a timeout is armed with, when the options carry a timeout callback. */
  function DelayOf(r: Options): (d: Option<int>)
    ensures d.Some? <==> OntimeoutOf(r).Some?
    ensures d.Some? && r.timeout.None? ==> d.value == DefaultTimeout
    ensures d.Some? && r.timeout.Some? ==> d.value == r.timeout.value
  {
    if OntimeoutOf(r).None? then None
    else if r.timeout.None? then Some(DefaultTimeout)
    else r.timeout
  }

  /** `!r.async && !r.onload`: a synchronous request without a callback publishes globals. */
  predicate SetsGlobals(r: Options) {
    r.async != Some(true) && OnloadOf(r).None?
  }

  /** What `new gloader.Request(r)` starts from. */
  function Fresh(r: Options): (s: Snapshot)
    ensures s.waits == [] && s.phase == Created && s.args == [] && s.calls == [] && s.globals == []
    ensures s.async <==> r.async == Some(true)
    ensures s.setGlobal <==> r.async != Some(true) && r.onLoad.None? && r.onload.None?
    ensures s.armed <==> r.onTimeout.Some? || r.ontimeout.Some?
    ensures s.armed <==> s.delay.Some?
  {
    Snapshot([], Created, r.async == Some(true), SetsGlobals(r), OnloadOf(r), DelayOf(r), DelayOf(r).Some?, [], [], [])
  }

  /**
    * What every request keeps: it waits for each module once, passes only
    * modules it waits for, calls `onload` only once it is complete and at
    * most once, and holds no timeout once complete.
    */
  predicate WellFormed(s: Snapshot) {
    Distinct(s.waits)
    && (forall i :: 0 <= i < |s.args| ==> s.args[i] in s.waits)
    && (s.phase != Completed ==> s.calls == [])
    && |s.calls| <= 1
    && (s.phase == Completed ==> !s.armed)
  }

  /** `include(id)`: `id` joins the waits unless it is there already. */
  function Included(waits: seq<string>, id: string): seq<string> {
    if id in waits then waits else waits + [id]
  }

  /** Including keeps the waits free of repeats, keeps their order and adds exactly `id`. */
  lemma IncludedFacts(waits: seq<string>, id: string)
    requires Distinct(waits)
    ensures Distinct(Included(waits, id))
    ensures waits <= Included(waits, id)
    ensures forall x :: x in Included(waits, id) <==> x in waits || x == id
  {
    if id !in waits {
      assert Included(waits, id)[..|waits|] == waits;
    }
  }

  /** The globals `complete` assigns: each awaited module's name and implementation. */
  function GlobalsOf(ms: ModuleTable, waits: seq<string>): (gs: seq<Global>)
    requires AllPresent(ms, waits)
    ensures |gs| == |waits|
    ensures forall i :: 0 <= i < |waits| ==>
      gs[i] == Global(Get(ms, waits[i]).value.name, Get(ms, waits[i]).value.implementation)
  {
    seq(|waits|, i requires 0 <= i < |waits| =>
      Global(Get(ms, waits[i]).value.name, Get(ms, waits[i]).value.implementation))
  }

  /**
    * `complete()`. The globals are assigned before the completion guard, so
    * every call assigns them; the rest happens on the first call only.
    */
  function CompleteState(s: Snapshot, ms: ModuleTable): Snapshot
    requires AllPresent(ms, s.waits)
  {
    var s1 := if s.setGlobal then s.(globals := s.globals + GlobalsOf(ms, s.waits)) else s;
    if s.phase == Completed then s1
    else
      s1.(phase := Completed, armed := false,
          calls := if s.onload.Some? then s.calls + [ArgValues(ms, s.args)] else s.calls)
  }

  /** `release()`: complete when every awaited module is implemented, otherwise nothing. */
  function ReleaseState(s: Snapshot, ms: ModuleTable): Snapshot {
    if CountImplemented(ms, s.waits) == |s.waits| then
      CountAll(ms, s.waits);
      CompleteState(s, ms)
    else s
  }

  /** A release completes the request exactly when all its modules are implemented (or it already was complete). */
  lemma ReleaseCompletes(s: Snapshot, ms: ModuleTable)
    ensures ReleaseState(s, ms).phase == Completed <==> s.phase == Completed || AllImplemented(ms, s.waits)
  {
    CountAll(ms, s.waits);
  }

  /** Completing keeps a request well formed: at most one `onload` call, no pending timeout. */
  lemma CompleteKeeps(s: Snapshot, ms: ModuleTable)
    requires WellFormed(s) && AllPresent(ms, s.waits)
    ensures WellFormed(CompleteState(s, ms))
  {
  }

  /** Releasing keeps a request well formed. */
  lemma ReleaseKeeps(s: Snapshot, ms: ModuleTable)
    requires WellFormed(s)
    ensures WellFormed(ReleaseState(s, ms))
  {
    if CountImplemented(ms, s.waits) == |s.waits| {
      CountAll(ms, s.waits);
      CompleteKeeps(s, ms);
    }
  }

  /**
    * The first completion stops the timeout and hands `onload` the
    * implementations of the positional modules, in order.
    */
  lemma FirstCompletion(s: Snapshot, ms: ModuleTable)
    requires WellFormed(s) && AllPresent(ms, s.waits) && s.phase != Completed
    ensures var c := CompleteState(s, ms);
      c.phase == Completed && !c.armed && c.waits == s.waits
      && c.calls == (if s.onload.Some? then [ArgValues(ms, s.args)] else [])
  {
  }

  /**
    * A second completion calls nothing and changes nothing but the globals,
    * which a request without a callback assigns again.
    */
  lemma CompletionOnce(s: Snapshot, ms: ModuleTable)
    requires AllPresent(ms, s.waits)
    ensures var c := CompleteState(s, ms);
      CompleteState(c, ms)
        == c.(globals := c.globals + (if s.setGlobal then GlobalsOf(ms, s.waits) else []))
  {
  }

  class Request {
    var waits: seq<string>
    var phase: Phase
    const async: bool
    const setGlobal: bool
    const onload: Option<Callback>
    /** The delay the timeout was set with, `None` when no timeout was set. */
    const delay: Option<int>
    var armed: bool
    var args: seq<string>
    var calls: seq<seq<Value>>
    var globals: seq<Global>

    function State(): Snapshot
      reads this
    {
      Snapshot(waits, phase, async, setGlobal, onload, delay, armed, args, calls, globals)
    }

    ghost predicate Valid()
      reads this
    {
      WellFormed(State())
    }

    /** `new gloader.Request(r)`. */
    constructor(r: Options)
      ensures Valid()
      ensures State() == Fresh(r)
    {
      waits := [];
      phase := Created;
      setGlobal := SetsGlobals(r);
      async := r.async == Some(true);
      onload := OnloadOf(r);
      delay := DelayOf(r);
      armed := DelayOf(r).Some?;
      args := [];
      calls := [];
      globals := [];
    }

    /** `include(id)`. */
    method Include(id: string)
      requires Valid()
      modifies this`waits
      ensures Valid()
      ensures State() == old(State()).(waits := Included(old(waits), id))
    {
      IncludedFacts(waits, id);
      waits := IncludeWait(waits, id);
    }

    /** `args.push(id)`, as `load` does for a positional id it has just included. */
    method Pass(id: string)
      requires Valid() && id in waits
      modifies this`args
      ensures Valid()
      ensures State() == old(State()).(args := old(args) + [id])
    {
      args := args + [id];
    }

    /** `release()`. */
    method Release(ms: ModuleTable)
      requires Valid()
      modifies this`phase, this`armed, this`calls, this`globals
      ensures Valid()
      ensures State() == ReleaseState(old(State()), ms)
    {
      ReleaseKeeps(State(), ms);
      var s := ReleaseSnapshot(State(), ms);
      phase, armed, calls, globals := s.phase, s.armed, s.calls, s.globals;
    }

    /** `complete()`. */
    method Complete(ms: ModuleTable)
      requires Valid() && AllPresent(ms, waits)
      modifies this`phase, this`armed, this`calls, this`globals
      ensures Valid()
      ensures State() == CompleteState(old(State()), ms)
    {
      CompleteKeeps(State(), ms);
      var s := CompleteSnapshot(State(), ms);
      phase, armed, calls, globals := s.phase, s.armed, s.calls, s.globals;
    }
  }

  /** The body of `include(id)`: a linear search, then an append. */
  method IncludeWait(waits: seq<string>, id: string) returns (ws: seq<string>)
    ensures ws == Included(waits, id)
  {
    var i := 0;
    while i < |waits|
      invariant 0 <= i <= |waits|
      invariant id !in waits[..i]
    {
      if waits[i] == id {
        return waits;
      }
      i := i + 1;
    }
    assert waits[..i] == waits;
    ws := waits + [id];
  }

  /** The body of `release()`: count the implemented waits, complete when that is all of them. */
  method ReleaseSnapshot(s: Snapshot, ms: ModuleTable) returns (t: Snapshot)
    ensures t == ReleaseState(s, ms)
  {
    var count := 0;
    var i := 0;
    while i < |s.waits|
      invariant 0 <= i <= |s.waits|
      invariant count == CountImplemented(ms, s.waits[..i])
    {
      assert s.waits[..i + 1][..i] == s.waits[..i];
      if IsImplemented(ms, s.waits[i]) {
        count := count + 1;
      }
      i := i + 1;
    }
    assert s.waits[..i] == s.waits;
    t := s;
    if count == |s.waits| {
      CountAll(ms, s.waits);
      t := CompleteSnapshot(s, ms);
    }
  }

  /** The body of `complete()`. */
  method CompleteSnapshot(s: Snapshot, ms: ModuleTable) returns (t: Snapshot)
    requires AllPresent(ms, s.waits)
    ensures t == CompleteState(s, ms)
  {
    t := s;
    if s.setGlobal {
      var gs := AssignGlobals(s.globals, ms, s.waits);
      t := t.(globals := gs);
    }
    if s.phase == Completed {
      return;
    }
    t := t.(phase := Completed, armed := false);
    var vals := CollectArgs(ms, s.args);
    if s.onload.Some? {
      t := t.(calls := s.calls + [vals]);
    }
  }

  /** The loop of `complete` that assigns `window[name]` for each awaited module. */
  method AssignGlobals(gs0: seq<Global>, ms: ModuleTable, waits: seq<string>) returns (gs: seq<Global>)
    requires AllPresent(ms, waits)
    ensures gs == gs0 + GlobalsOf(ms, waits)
  {
    gs := gs0;
    var i := 0;
    while i < |waits|
      invariant 0 <= i <= |waits|
      invariant gs == gs0 + GlobalsOf(ms, waits)[..i]
    {
      var m := Get(ms, waits[i]).value;
      gs := gs + [Global(m.name, m.implementation)];
      i := i + 1;
    }
    assert GlobalsOf(ms, waits)[..i] == GlobalsOf(ms, waits);
  }

  /** The loop of `complete` that replaces each argument id by its module's implementation. */
  method CollectArgs(ms: ModuleTable, ids: seq<string>) returns (vals: seq<Value>)
    ensures vals == ArgValues(ms, ids)
  {
    vals := [];
    var i := 0;
    while i < |ids|
      invariant 0 <= i <= |ids|
      invariant vals == ArgValues(ms, ids[..i])
    {
      vals := vals + [ImplOf(ms, ids[i])];
      i := i + 1;
    }
    assert ids[..i] == ids;
  }
}
