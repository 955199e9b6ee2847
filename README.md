# gloader, modelled in Dafny

`gloader` is the module loader of the Glow JavaScript library. A page asks it
for modules by `[library, version, module…]` tuples. The loader does four things:

- it resolves partial versions against a map of known files;
- it puts the needed script and stylesheet files into the page;
- it greets each module file as it arrives and announces what it defines;
- it builds each module once everything it depends on is built, calling the
  page back when every module of a request is available.

This project models the two pieces of that logic and proves what they promise.

**The version map (`gloader.map`).**

- `parse` interpolates a list of per-version definitions of a library. It keeps a
  running scope of inherited properties, in which `null` deletes a property. It
  substitutes `{$prop}` placeholders in the fixed order `$name`, `$version`,
  `$base`, then the user's properties.
- `add` writes each parsed version into the `js` and `css` tables, keyed by
  `lib/version/module`. The last write wins.
- `latest` resolves a partial version `"1"` or `"1.2"` by scanning the keys of
  `js`, and memoises the answer in `$latest`.
- `toIds` turns tuples into module ids.
- `include` and `setProperties` record map files and user properties.

The map is the class `VersionMap.Map`. Its fields are the tables, and its
methods are proved against pure specifications:

| specification | module |
|---|---|
| the phases of `parse` (four folds) | `ParseRule` |
| the selection rule of `latest` | `LatestRule` |
| `add` | `VersionMap.AddVersions` |
| `toIds` | `VersionMap.IdsOf` |

The loops of `parse` are `ParseLoops`. What `parse` guarantees is proved in
`ParseFacts` (phase by phase) and `VersionFacts` (whole versions and whole
libraries).

**The load state machine.**

- `load` creates a `gloader.Request` and requests the modules the request waits
  for.
- `request` creates `gloader.Module` records and hands over definitions that
  arrived early (`_extras`).
- `fetch` dispatches files and marks them in `_fetched`.
- `expect` and `_greet` count the module definitions each dispatched file may
  announce.
- `module` and `library` announce a definition, and `provide` records it.
- `provide` includes the module's dependencies into the first request waiting
  for it, then requests them.
- `implement` runs a builder and releases every request.
- `resolve` implements modules until none is PROVIDED with all its dependencies
  IMPLEMENTED.

How this is modelled:

- `Requests.Request` is a class over the request's fields. Its method bodies are
  proved against functions on a `Snapshot` value.
- `Modules` holds the module record and the questions the loader asks about a
  table of them.
- `Loader` states every loader operation on a value `State` of all the loader's
  tables. Each operation is a method whose result is tied to a specification
  function (`AfterFetch`, `AfterImplement`, `Resolved`, `Expected`, …), or whose
  `ensures` state the invariant `Ok` and what the operation achieves.
- `Engine.Gloader` is the `gloader` object itself. It is a class with one field
  per table, and each of its methods runs the `Loader` operation on the
  fields' values and stores the result back.

Browser effects become data:

- a file put into the page is a `Dispatch` appended to `dispatched`;
- a builder is an opaque `Factory`, and its result `Built(factory, args)`
  records which builder ran on which values;
- `onload` calls and `window[name]` assignments are appended to a request's
  `calls` and `globals`.

The `override` cookie setting is a parameter of `load`.

Two behaviours of `gloader.js` are easy to miss, and the model keeps both:

- A module file that is provided again, after its module was IMPLEMENTED, sets
  the module back to PROVIDED with the new builder (src/gloader.js:480). So the
  builder can run a second time. `Loader.ImplementOnce` proves only that a
  second `implement` of the same definition does nothing.
- `provide` includes a dependency only into the first request waiting for the
  module, because `getRequests` leaves at the first match (src/gloader.js:595).
  It does not include it into every concurrent request.

In the same way, a forced fetch sets a PROVIDED or IMPLEMENTED module back to
FETCHED (src/gloader.js:434-435). `complete` assigns the globals before its
COMPLETED guard (src/gloader.js:678-685), so a second `complete` assigns them
again (`Requests.CompletionOnce`).

## Model

| member | source | states |
|---|---|---|
| Text.Split | src/gloader.js:201 | `split` gives at least one piece, no piece holds the separator, and joining the pieces gives the string back |
| Text.SplitJoin | src/gloader.js:251 | joining pieces without separators and splitting again gives the same pieces |
| Text.SplitThree | src/gloader.js:218 | a module id `a/b/c` splits into its three segments |
| Text.LexLeTotal | src/gloader.js:227 | JavaScript string `<=` is total: of two strings one is at most the other |
| Text.LexLeTrans | src/gloader.js:227-232 | JavaScript string `<=` is transitive, so the scan's running maximum bounds every earlier key |
| Text.ReplaceFills | src/gloader.js:124-126 | a global replace of `{name}` in a rendered template fills exactly the holes named `name` and leaves literal text and other holes alone |
| Text.InterpolateSnoc | src/gloader.js:135-139 | interpolating one more property is one more global replace of its placeholder |
| Text.InterpolationComplete | src/gloader.js:130-141 | once every hole's name is among the interpolated properties, and no value contains a brace, no `{` is left in the result |
| LatestRule.Latest | src/gloader.js:199-211 | a version with three or more parts, or whose first part is not an integer, is returned unchanged |
| LatestRule.ScanFromKey | src/gloader.js:217-247 | the scan's candidate is the initial `[null, null]`, or the minor and patch of a key `lib/ver/lib` with the requested major (and minor, when one is requested) and no letter or `-` in `ver` |
| LatestRule.LatestFromKey | src/gloader.js:217-251 | a changed result is read from one key of the table that names the library with the requested major |
| LatestRule.ScanNoMinor | src/gloader.js:224-233 | with no minor requested, the candidate's minor is at least every matching minor made of digits |
| LatestRule.ScanWithMinor | src/gloader.js:237-246 | with a minor requested, the candidate's patch is at least every matching patch made of digits |
| LatestRule.LatestMinorIsGreatest | src/gloader.js:222-235 | a changed answer to `maj` is `maj.minor.patch` with `minor` at least every digit-only minor of a matching key |
| LatestRule.LatestPatchIsGreatest | src/gloader.js:237-243 | a changed answer to `maj.min` keeps `maj.min`, and its patch is at least every digit-only patch of a matching key with that minor |
| LatestRule.NoCandidateUnchanged | src/gloader.js:199-251 | when no key of the table matches the library and major, the request is returned as it is |
| JsObject.Put | src/gloader.js:80 | assigning a key sets its value, keeps every other value, and adds the key to the iteration order only when it is new (at the end, as for any key that is not an array index) |
| JsObject.Remove | src/gloader.js:92-93 | `delete` removes the key's value, keeps the other keys in order and their values |
| JsObject.EntriesVisit | src/gloader.js:64 | `for (k in o)` visits each key of the object exactly once, always with its own value, and visits nothing else |
| JsObject.PutValid | src/gloader.js:80 | assigning keeps every key listed once and with a value |
| ParseRule.AddProps | src/gloader.js:62-69 | the user's properties are appended after the existing ones, each once, keeping the earlier order |
| ParseRule.ScopeProps | src/gloader.js:54-69 | the interpolation order starts with `$name`, `$version`, `$base`, lists each property once and holds exactly those and the user's properties |
| ParseRule.InitialScope | src/gloader.js:71-82 | the starting scope is a well-formed object |
| ParseRule.AbsorbAll | src/gloader.js:89-107 | a successful phase 1 keeps the version's and the scope's keys unique |
| ParseRule.ParseVersions | src/gloader.js:85-145 | a successful parse yields one rewritten version per definition and a well-formed scope |
| ParseRule.ParseLibrary | src/gloader.js:42-148 | a successful `parse` returns exactly one version per definition |
| ParseLoops.ListHas | src/gloader.js:55-60 | `scopeProps.has(what)` is true exactly when `what` is listed |
| ParseLoops.CollectProps | src/gloader.js:54-69 | the loop collecting the interpolation order computes `ScopeProps` |
| ParseLoops.DeclareEach | src/gloader.js:72-74 | the loop declaring each property `undefined` computes `DeclareAll` |
| ParseLoops.PutEach | src/gloader.js:79-81 | the loop copying the user's properties computes `PutAll` |
| ParseLoops.BuildScope | src/gloader.js:71-82 | the scope's setup computes `InitialScope` |
| ParseLoops.AbsorbEntries | src/gloader.js:89-107 | the loop over the version's entries computes phase 1, stopping at the first throw |
| ParseLoops.InheritEntries | src/gloader.js:110-115 | the loop over the scope computes phase 2, stopping at the first throw |
| ParseLoops.SubstituteEarlier | src/gloader.js:121-127 | the inner loop of phase 3 substitutes every earlier property into one property |
| ParseLoops.SubstituteEach | src/gloader.js:118-128 | the outer loop of phase 3 computes `SubstituteProps` over every property |
| ParseLoops.InterpolatePath | src/gloader.js:135-139 | one path gets every property's text, in interpolation order |
| ParseLoops.InterpolateOne | src/gloader.js:134-140 | every path of one module entry is rewritten |
| ParseLoops.InterpolateKeys | src/gloader.js:131-141 | phase 4 rewrites every module entry of the version, in key order |
| ParseLoops.ParseOne | src/gloader.js:86-143 | the body of the loop over definitions computes `ParseVersion` |
| ParseLoops.ParseEach | src/gloader.js:85-145 | the loop over definitions computes `ParseVersions`, threading the scope from each version to the next |
| ParseLoops.ParseErrStays | src/gloader.js:85-145 | once a version throws, the whole parse throws that error, whatever follows |
| ParseFacts.AbsorbValues | src/gloader.js:89-107 | after phase 1 every key holds what the rules prescribe: deleted from both on `null`, `$` values copied, a string wrapped into an array, an array copied into the scope |
| ParseFacts.AbsorbOkIff | src/gloader.js:96-106 | phase 1 throws exactly when a module entry is neither `null`, a string nor an array |
| ParseFacts.AbsorbFailsAt | src/gloader.js:105 | one bad module entry makes phase 1 throw |
| ParseFacts.AbsorbFirstBad | src/gloader.js:89-107 | phase 1 throws the error of its first bad module entry: "invalid type" with the value's type, or the failed method call on `undefined` |
| ParseFacts.AbsorbErrStays | src/gloader.js:105 | after a throw, the later entries change nothing |
| ParseFacts.InheritValues | src/gloader.js:110-115 | after phase 2 a key the version leaves undefined takes the scope's value, and every other key keeps the version's |
| ParseFacts.InheritOkIff | src/gloader.js:111-113 | phase 2 throws exactly when an undefined module entry would be copied from a scope value that is neither a string nor an array |
| ParseFacts.InheritFailsAt | src/gloader.js:113 | an entry that cannot be copied makes phase 2 throw |
| ParseFacts.InheritAllValid | src/gloader.js:110-115 | phase 2 keeps the version a well-formed object |
| ParseFacts.SubstituteResult | src/gloader.js:123-126 | one substitution leaves a string, replacing the earlier property's placeholder with its text |
| ParseFacts.UpToChain | src/gloader.js:121-127 | with every earlier property defined, phase 3 leaves a property as its raw text interpolated with the earlier ones |
| ParseFacts.PropsStr | src/gloader.js:118-128 | after a successful phase 3 every property after `$name` holds a string |
| ParseFacts.PropsFirst | src/gloader.js:123-126 | phase 3 succeeds only if each property was a string, or `$name` was undefined and the scope's value is a string |
| ParseFacts.PropsChain | src/gloader.js:118-128 | after phase 3 each property is its raw text interpolated with the final values of the properties before it |
| ParseFacts.LaterRounds | src/gloader.js:118-128 | the rounds for later properties leave an earlier property alone |
| VersionFacts.EntriesKeep | src/gloader.js:131-141 | phase 4 keeps the version's keys and every property's value |
| VersionFacts.EntriesValue | src/gloader.js:131-141 | phase 4 interpolates each module entry's paths with the version's property values, and leaves everything else alone |
| VersionFacts.ScopePropsGood | src/gloader.js:54-69 | the interpolation order lists `$name` first and each property once, as the version lemmas require |
| VersionFacts.Stages | src/gloader.js:88-143 | a successful version went through its four phases in order, each successfully |
| VersionFacts.GoneStaysGone | src/gloader.js:91-94 | a key the version sets to `null` is absent from the parsed version and from the scope it hands on |
| VersionFacts.PathsInterpolated | src/gloader.js:88-141 | a module entry of a parsed version holds its raw paths interpolated with the final properties, and the scope holds the raw paths |
| VersionFacts.PropsInterpolated | src/gloader.js:117-128 | each property of a parsed version is its raw text with every earlier property substituted, so `$base` may use `{$version}` |
| VersionFacts.BadEntryThrows | src/gloader.js:96-106 | a version with a module entry that is `undefined`, or neither `null`, a string nor an array, makes `parse` throw |
| VersionFacts.FirstBadEntryThrows | src/gloader.js:89-106 | the first such entry in the definition's key order decides the error: "invalid type: " with its type for a number, boolean, object or function, a TypeError for `undefined` |
| VersionFacts.UninheritableThrows | src/gloader.js:113 | a module entry inherited from a scope value that is neither a string nor an array throws |
| VersionFacts.DeletedNotInherited | src/gloader.js:85-115 | a key deleted by one version, and not named again later, is absent from that version, from every later one and from the final scope |
| VersionFacts.LibraryStep | src/gloader.js:85-145 | a parsed library is its first versions parsed, then the last version parsed with the scope they leave |
| VersionMap.AddKeysGet | src/gloader.js:168-177 | within one version, a module id gets the first and second path of the entry naming it, and every other id keeps its paths |
| VersionMap.LastWriteWins | src/gloader.js:166-177 | `js[id]` and `css[id]` are the paths from the last version naming `id` |
| VersionMap.NeverWritten | src/gloader.js:166-177 | an id no version names keeps its paths |
| VersionMap.AddVersionsOrder | src/gloader.js:174-176 | overwriting keeps each known id in its place, so the ids known before stay first in the same order |
| VersionMap.AddVersionsValid | src/gloader.js:175-176 | the tables stay well-formed objects |
| VersionMap.AddEntries | src/gloader.js:168-177 | the loop over one version's entries computes `AddKeys` |
| VersionMap.AddAll | src/gloader.js:166-177 | the loop over the parsed versions computes `AddVersions` |
| VersionMap.PutEntriesGet | src/gloader.js:767-769 | after copying properties onto an object, each copied key holds the copied value and every other key keeps its own |
| VersionMap.LatestNonEmpty | src/gloader.js:251-256 | a non-empty request never resolves to the empty string, so its memo entry always answers |
| VersionMap.MemoAnswers | src/gloader.js:196-198 | after the first call for `lib/v`, a later call returns the same result and leaves the memo as it is, even when the table has grown; this holds for the empty version too |
| VersionMap.ResolveAll | src/gloader.js:607-613 | one resolved version per tuple |
| VersionMap.TupleIds | src/gloader.js:613-619 | one id for the library and one per module |
| VersionMap.IdsLength | src/gloader.js:604-623 | `toIds` gives one id per library and one per module, summed over the tuples |
| VersionMap.IdsShape | src/gloader.js:613-619 | tuple `i` contributes `lib/ver/lib`, then `lib/ver/m` for each module in order, right after the ids of the tuples before it |
| VersionMap.AppendIds | src/gloader.js:615-619 | the inner loop of `toIds` appends the library id, then one id per module |
| VersionMap.Map.constructor | src/gloader.js:33-39 | the map starts with empty tables, memo, properties and includes |
| VersionMap.Map.UserProps | src/gloader.js:63-82 | the user properties for a library are a well-formed object, empty when none were set |
| VersionMap.Map.Parse | src/gloader.js:42-148 | `parse` reads the library's user properties and computes `ParseLibrary` |
| VersionMap.Map.Add | src/gloader.js:156-179 | `add` parses, then writes every version into the tables; a throw leaves the tables as they were, and nothing else changes |
| VersionMap.Map.Store | src/gloader.js:165-178 | the parsed versions are written into the tables in order, and nothing else changes |
| VersionMap.Map.Include | src/gloader.js:182-191 | a map file is written into the page only the first time, and the result says whether it was |
| VersionMap.Map.SetProperties | src/gloader.js:764-770 | each property is copied onto the library's user properties, and nothing else changes |
| VersionMap.Map.Latest | src/gloader.js:195-257 | `latest` answers from the memo when it can, and otherwise scans the table and memoises the answer, keeping the tables |
| VersionMap.Map.Scan | src/gloader.js:217-250 | the scan loop computes the running minor and patch of `LatestRule.Scan` |
| VersionMap.Map.ToIds | src/gloader.js:604-623 | `toIds` resolves each tuple's version through `latest`, in order, and gives the ids of `IdsOf` |
| Modules.NewModule | src/gloader.js:700-705 | a new module starts INITIAL under its id, named by the id's last segment, with the map's css path |
| Modules.NameOfId | src/gloader.js:702 | the global name of module `lib/ver/name` is `name` |
| Modules.CountImplemented | src/gloader.js:359-365 | the count of implemented waits never exceeds the number of waits |
| Modules.CountAll | src/gloader.js:664-671 | the count reaches the number of waits exactly when every wait is implemented |
| Modules.ProvidedDrops | src/gloader.js:569-584 | implementing a PROVIDED module leaves fewer PROVIDED modules, the measure by which `resolve` ends |
| Modules.PositionalIds | src/gloader.js:353 | an id `lib/ver/name` with a dotted version is passed positionally exactly when `name` is non-empty and has no dot |
| Requests.DelayOf | src/gloader.js:643-645 | a timeout is armed exactly when a timeout callback is given, with the given delay or 20000 ms |
| Requests.Fresh | src/gloader.js:630-646 | a new request waits for nothing, is INITIAL, and is async, publishes globals and is armed exactly as its options say |
| Requests.IncludedFacts | src/gloader.js:653-658 | `include` never repeats an id, keeps the earlier waits in order, and adds exactly the id |
| Requests.ReleaseCompletes | src/gloader.js:661-674 | `release` completes the request exactly when every awaited module is implemented, or when it was complete already |
| Requests.CompleteKeeps | src/gloader.js:677-694 | completing keeps a request well formed: `onload` called at most once and no timeout left pending |
| Requests.ReleaseKeeps | src/gloader.js:661-674 | releasing keeps a request well formed |
| Requests.FirstCompletion | src/gloader.js:685-693 | the first `complete` marks the request COMPLETED, clears the timeout and calls `onload` once with the arguments' implementations |
| Requests.CompletionOnce | src/gloader.js:678-685 | a second `complete` changes nothing but the globals, which it assigns again |
| Requests.Request.constructor | src/gloader.js:630-647 | `new Request(r)` starts from `Fresh(r)` |
| Requests.Request.Include | src/gloader.js:653-658 | `include` changes only the waits, as `Included` says |
| Requests.Request.Pass | src/gloader.js:353-355 | an included positional id is appended to the arguments |
| Requests.Request.Release | src/gloader.js:661-674 | `release` changes the request as `ReleaseState` says |
| Requests.Request.Complete | src/gloader.js:677-694 | `complete` changes the request as `CompleteState` says |
| Requests.IncludeWait | src/gloader.js:653-658 | the search-then-append body of `include` computes `Included` |
| Requests.ReleaseSnapshot | src/gloader.js:661-674 | the counting body of `release` computes `ReleaseState` |
| Requests.CompleteSnapshot | src/gloader.js:677-694 | the body of `complete` computes `CompleteState` |
| Requests.AssignGlobals | src/gloader.js:678-683 | the global-assigning loop appends `GlobalsOf` |
| Requests.CollectArgs | src/gloader.js:690-692 | the argument loop replaces each id by its module's implementation |
| Loader.ExpectedCounts | src/gloader.js:313-323 | `expect(src)` raises by one the count of each module the map files under `src`, and of no other |
| Loader.ExpectAll | src/gloader.js:317-322 | the loop of `expect` computes `Expected` |
| Loader.ExpectedOk | src/gloader.js:320 | expected counts never become negative |
| Loader.Override | src/gloader.js:339-346 | with an override set, every `glow` tuple gets the override version, and other tuples are untouched |
| Loader.IncludeAll | src/gloader.js:350-356 | a request's waits hold exactly the earlier waits and the included ids |
| Loader.IncludeAllFacts | src/gloader.js:351-352 | including ids never repeats one and keeps the earlier waits first |
| Loader.PositionalsMembers | src/gloader.js:353-355 | the arguments are exactly the included ids that match `/\/[^.]+$/` |
| Loader.Enlist | src/gloader.js:350-356 | the loop of `load` sets the waits to the included ids and the arguments to the positional ones |
| Loader.CountWaiting | src/gloader.js:359-365 | `waitCount` is the number of waits not implemented, and is 0 exactly when all are |
| Loader.SameMembers | src/gloader.js:359-365 | lists with the same members are implemented together |
| Loader.DepsImplemented | src/gloader.js:573-578 | the dependency check of `resolve` passes exactly when every dependency is implemented |
| Loader.CoherentPut | src/gloader.js:480-485 | filing a module under its own id, with arguments among its dependencies and a builder once PROVIDED, keeps the table coherent |
| Loader.NoRepeatAdd | src/gloader.js:448-449 | a file is put into the page a second time only by a forced fetch |
| Loader.Start | src/gloader.js:9-13 | the loader starts with every table empty, and its invariant holds |
| Loader.Greet | src/gloader.js:519-528 | `_greet` uses up one expected arrival, or records the error and throws when none is expected |
| Loader.ExpectThenGreet | src/gloader.js:446-452 | a module in a file just expected is greeted without a throw, and its count stays non-negative |
| Loader.Fetch | src/gloader.js:409-465 | the body of `fetch` computes `AfterFetch` |
| Loader.FetchedModule | src/gloader.js:434-435 | `fetch` rewrites only the module's record: its mode, and its status to FETCHED unless the fetch stops early |
| Loader.FetchKeepsTable | src/gloader.js:409-435 | after `fetch` the module is at least FETCHED with its css kept, and no other module changes |
| Loader.StyleKeepsFiles | src/gloader.js:413-414 | the stylesheet step marks what it puts in and changes nothing else |
| Loader.ScriptKeepsFiles | src/gloader.js:437-449 | the script step marks what it puts in, keeps expected counts non-negative and changes nothing else |
| Loader.FetchKeepsFiles | src/gloader.js:413-449 | `fetch` only adds to the fetched set and the dispatch log, and dispatches a file twice only when forced |
| Loader.FetchKeeps | src/gloader.js:409-465 | `fetch` keeps the loader's invariant and touches neither requests, extras nor builds |
| Loader.FetchThrows | src/gloader.js:434-446 | a fetch that does not stop early throws exactly when the map has no js path for the module |
| Loader.FetchOnce | src/gloader.js:434-449 | a second unforced fetch of a module puts nothing more into the page |
| Loader.FirstWaiter | src/gloader.js:590-598 | the first request waiting for a module is found, or none waits |
| Loader.FirstWaiterKept | src/gloader.js:489-492 | the first waiter stays first when its waits grow |
| Loader.GetRequests | src/gloader.js:587-601 | `getRequests` returns only the first waiting request, or none |
| Loader.ReleasedAllFacts | src/gloader.js:563-565 | releasing every request keeps each well formed and completes each exactly when its modules are all implemented |
| Loader.ReleaseAll | src/gloader.js:563-565 | the release loop of `implement` computes `ReleasedAll` |
| Loader.ImplementKeeps | src/gloader.js:551-566 | `implement` runs the builder only for a PROVIDED module, which becomes IMPLEMENTED with one PROVIDED module fewer; otherwise it changes nothing |
| Loader.ImplementOnce | src/gloader.js:552-553 | a second `implement` of the same module does nothing |
| Loader.Implement | src/gloader.js:551-566 | the body of `implement` computes `AfterImplement` |
| Loader.FirstReadyFrom | src/gloader.js:570-578 | the first module in table order that is PROVIDED with all dependencies implemented, or none |
| Loader.FirstReady | src/gloader.js:570-580 | the module loop of `resolve` finds `FirstReadyFrom` |
| Loader.ResolvedFacts | src/gloader.js:569-584 | `resolve` leaves no module ready to implement, keeps the invariant and every module, and only appends builds |
| Loader.ResolvedBuilders | src/gloader.js:569-584 | `resolve` changes no module's builder |
| Loader.ResolvedOnlyReady | src/gloader.js:569-584 | `resolve` implements a module only when it was PROVIDED and every module it depends on is implemented, and never takes an implemented module back |
| Loader.Resolve | src/gloader.js:569-584 | the body of `resolve` computes `Resolved` |
| Loader.PendingsStep | src/gloader.js:490-498 | each dependency adds one pending request, naming it only when a request waits for the module |
| Loader.GatherOne | src/gloader.js:489-497 | the first request waiting for the module includes the dependency, and stays the first waiter |
| Loader.WidenStep | src/gloader.js:488-497 | each round of the dependency loop widens the same first waiter by one more dependency |
| Loader.WidenKeeps | src/gloader.js:492 | widening a request's waits keeps it well formed and only grows it |
| Loader.GatherKeeps | src/gloader.js:485-503 | the dependency loop keeps the loader's invariant and every module |
| Loader.Gather | src/gloader.js:486-503 | the dependency loop computes `AfterGather` |
| Loader.PutKeeps | src/gloader.js:480-485 | filing a coherent module record keeps the invariant and every module already there |
| Loader.Provide | src/gloader.js:472-515 | an unknown module's definition is only filed in `_extras`; a known one ends with the new builder, leaves the invariant, every module and the requests' growth intact, and no module ready; no other module outside `_extras` changes builder |
| Loader.Settle | src/gloader.js:486-513 | a module with no dependencies is implemented at once and then `resolve` runs; with dependencies, after the dependency requests and `resolve`, the invariant holds, no module is lost, none is left ready and none outside `_extras` changed builder |
| Loader.RequestEach | src/gloader.js:505-507 | requesting each pending set keeps the invariant, every module and the extras' shrinking, and unless a request throws every id of every set has a module |
| Loader.Request | src/gloader.js:381-406 | afterwards every requested id has a module and no extra, every module is fetched with no stylesheet left, and no module outside `_extras` changed builder |
| Loader.Admit | src/gloader.js:382-392 | an id without an early definition gets a new REQUESTED module with the map's css path when it has none, and otherwise nothing changes; an id with one ends with a module holding that definition's builder; no other module outside `_extras` changes builder |
| Loader.AdmitEarly | src/gloader.js:383-387 | an early definition leaves `_extras` and is provided to a new module, which ends with its builder; the invariant holds and no module outside `_extras` changes builder |
| Loader.AdmitAll | src/gloader.js:382-393 | the first loop of `request`: unless a provide throws, every id has a module and no early definition left; no module is lost and none outside `_extras` changes builder |
| Loader.FetchAll | src/gloader.js:395-405 | the fetch loop performs `FetchStep` on each module in the table's order and stops at the first throw, as `FetchedAll` states |
| Loader.FetchKey | src/gloader.js:396-404 | one round of the fetch loop is `FetchStep`: a module not IMPLEMENTED, or with a stylesheet, loses its css path and is fetched, forced exactly when a synchronous request meets a module an asynchronous one fetched; it changes no other module and leaves its own at least FETCHED with no stylesheet left |
| Loader.FetchStepKeeps | src/gloader.js:396-404 | a round of the fetch loop keeps the invariant, the table's keys, every other module, the requests and the extras |
| Loader.FetchStepBuilders | src/gloader.js:396-404 | a round of the fetch loop changes no module's builder |
| Loader.FetchStepSettles | src/gloader.js:396-404 | after a round, thrown or not, its module is at least FETCHED with no stylesheet left, and a module that was so stays so |
| Loader.FetchedAllSettles | src/gloader.js:395-405 | the fetch loop from any position keeps the invariant, the keys, the requests, the extras and every builder, and unless it throws it settles every module it reaches |
| Loader.FetchedAllFacts | src/gloader.js:395-405 | over the whole table, unless a fetch throws, every module ends at least FETCHED with no stylesheet left |
| Loader.Load | src/gloader.js:326-378 | `load` adds one request waiting for the overridden tuples' ids; it completes at once when all are implemented, and otherwise waits while they are requested; unless something throws, every id has a module |
| Loader.LoadIdsOf | src/gloader.js:348-376 | `load` from its ids on adds its request and waits for, or completes, it; unless something throws, every id has a module |
| Loader.FreshFacts | src/gloader.js:333 | a fresh request with its waits and arguments filled is well formed, and its waits are implemented exactly when the ids are |
| Loader.Await | src/gloader.js:367-372 | the waiting branch marks the request WAITING before it requests the modules and resolves; unless something throws, every id has a module and none is left ready |
| Loader.RequestResolve | src/gloader.js:369-371 | `request` then `resolve` keeps the invariant and every module; unless it throws, every id has a module and no early definition, and no module is left ready |
| Loader.Shortcut | src/gloader.js:373-376 | when every id is implemented the new request completes at once, without a `request` |
| Loader.ModuleDef | src/gloader.js:531-538 | an unexpected module records the error and throws; an expected unknown one uses up one expected arrival and files its definition, with its own library as first dependency, in `_extras`, changing nothing else; an expected known one is provided, ends with the new builder and leaves no module ready |
| Loader.LibraryDef | src/gloader.js:541-548 | the same for the library module `name/version/name`, whose definition has exactly the given dependencies |
| Engine.Gloader.constructor | src/gloader.js:7-13 | the loader starts with empty tables and an empty map |
| Engine.Gloader.Load | src/gloader.js:326-378 | `load` on the object's tables, as `Loader.Load` states |
| Engine.Gloader.DefineModule | src/gloader.js:531-538 | `module` on the object's tables, with every branch as `Loader.ModuleDef` states |
| Engine.Gloader.DefineLibrary | src/gloader.js:541-548 | `library` on the object's tables, with every branch as `Loader.LibraryDef` states |
| Engine.Gloader.Provide | src/gloader.js:472-515 | `provide` on the object's tables, as `Loader.Provide` states, the new builder and the other builders included |
| Engine.Gloader.Request | src/gloader.js:381-406 | `request` on the object's tables, as `Loader.Request` states: every id present without an extra, every module fetched with no stylesheet left, builders outside `_extras` kept |
| Engine.Gloader.Fetch | src/gloader.js:409-465 | `fetch` sets the tables to `AfterFetch` of their old values and keeps the invariant |
| Engine.Gloader.Implement | src/gloader.js:551-566 | `implement` sets the tables to `AfterImplement` of their old values and keeps the invariant |
| Engine.Gloader.Resolve | src/gloader.js:569-584 | `resolve` sets the tables to `Resolved` of their old values and leaves no module ready |
| Engine.Gloader.Expect | src/gloader.js:313-323 | `expect` changes only the expected counts, as `Expected` says |
| Engine.Gloader.Greet | src/gloader.js:519-528 | `_greet` on the object's tables, as `Loader.Greet` states |
| Engine.Gloader.GetRequests | src/gloader.js:587-601 | `getRequests` over the object's requests returns the first waiter only |

## Left out

- Putting files into the page (`document.write`, `<script>` and `<link>` elements) is not modelled. Each dispatch is appended to a log, and the `_fetched` and `_include` sets are kept.
- The cookie settings, `loadOverride`, `loadDebug` and `unloadDebug` use cookies, `prompt` and page reloads. The override value `load` reads is a parameter instead.
- `console.log` and the debug comments are left out.
- DOM-readiness detection, the bootstrap scan of script tags with `eval`, `util.getGloaderFile` and the `_baseDir` defaults of `gloader.use` are left out. They depend on browser events, timers and the page.
- `setTimeout` and `clearTimeout` are left out. A request's timer is an `armed` flag plus the delay it would be armed with.
- Foreign JavaScript values are opaque tags:
  - builders and `onload` are tags, and the model records each call and its arguments;
  - `window[name]` assignments are recorded as `Global` values;
  - the `.name` tagging of implementations (src/gloader.js:558) is not modelled.
- User callbacks are assumed not to re-enter the loader.
- `parse` rewrites the caller's version objects and `toIds` shifts the caller's arrays. The model returns new values and does not model what the caller sees of its own arguments afterwards.
- A tuple passed to `load` always has a library and a version. Shorter tuples are not modelled.
- A builder's result is always a `Built` value. A builder returning `undefined` is not modelled.
- JsObject: keys are visited in insertion order. JavaScript visits keys that are array indices (such as "0" or "42") first, in ascending numeric order, whatever their insertion order. A version definition with such module names is parsed, added and checked for bad entries (`VersionFacts.FirstBadEntryThrows`) in insertion order by the model.
- ParseRule.JsValue: array items are strings. An array entry with a non-string item, such as `["core.js", null]` or `[5]`, is not modelled; phase 4 of `parse` throws a TypeError on it when it calls `replace` on the item (src/gloader.js:138).
- Text.Placeholder: `parse` builds each pattern as `\{\` + name + `\}` (src/gloader.js:124, 137), which escapes the name's first character. For a `$` property that is a literal `$`. For a user property it is a regular-expression escape: `foo` gives `\f`, a form feed, so the source never matches `{foo}`. The model matches `{name}` literally for every property.
- Text.ReplaceAll: the special replacement patterns of `String.prototype.replace` (`$&`, `$$`, `` $` ``, `$'`) are not interpreted. A property value containing one of them is inserted literally by the model, while the source expands it (src/gloader.js:126, 138).
- Text.IsIntText: `parts[0] == parseInt(parts[0])` (src/gloader.js:208-210) is modelled as a non-empty run of ASCII digits. The source also accepts a part with surrounding whitespace or a leading `+`, such as `" 1"` or `"+1"`.
- Text.AllDigits: `null <= s` on a version part (src/gloader.js:226-243) converts `s` with `ToNumber`. The model accepts only digit runs (and the empty string) where the source also accepts parts with whitespace or a leading `+`.
- Text.LexLe: JavaScript compares strings by UTF-16 code units, the model by Unicode code points. They order differently only when one string has a character outside the Basic Multilingual Plane and the other a character from U+E000 to U+FFFF at the same place.
- Requests are values held in the loader's `requests` sequence, not shared `Request` objects. So aliasing of a request between the page and the loader is not modelled. The class `Requests.Request` models one request object on its own.
- The loader's operations are stated on a value of all its tables, and `Engine.Gloader` stores the result back into its fields. Each source statement is not a separate field update, so the order of writes inside one operation is not modelled.
- Loader.Provide: does not state the module's status afterwards (PROVIDED or IMPLEMENTED), only the invariant, the growth of requests and that no module is left ready.
- Engine.Gloader.Provide: the same as `Loader.Provide`.
- Loader.Request: does not state which files were dispatched, only that every module ends fetched with its stylesheet handled.
- Engine.Gloader.Request: the same as `Loader.Request`.
- Loader.Load: once the request waits, it states only that the request grew from the fresh one and that no module is left ready. It does not state which modules were fetched.
- Engine.Gloader.Load: the same as `Loader.Load`.
- Loader.LoadIdsOf: the same as `Loader.Load`.
- Loader.Await: the same as `Loader.Load`. It does not state the modules' statuses beyond "present, none ready".
- Loader.RequestResolve: does not state the exact state after `request` and `resolve`, only the invariant, the modules kept, the ids present and none ready.
- Loader.RequestEach: does not state which modules each `request` fetched or provided, only the invariant, the modules and builders kept and the ids present.
- Loader.Settle: with dependencies, does not state the exact state, which depends on every nested `request`; it states the invariant, modules and builders kept and none ready.
- Loader.Admit: for an id with an early definition, states what `Loader.Provide` states plus the module's builder, not the exact state.
- Loader.AdmitEarly: the same as `Loader.Admit` for an early definition.
- Loader.AdmitAll: does not state the exact state after the loop, only what each `Loader.Admit` round keeps and achieves.
- Loader.ModuleDef: for a module already known, states what `Loader.Provide` states, not the exact state.
- Loader.LibraryDef: the same as `Loader.ModuleDef`.
- Engine.Gloader.DefineModule: the same as `Loader.ModuleDef`.
- Engine.Gloader.DefineLibrary: the same as `Loader.ModuleDef`.
