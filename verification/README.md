# async-store: a Dafny model of a request-scoped key/value store

The repository keeps a per-request key/value store on Node's `domain` module: a
value `set` while handling one request can be read back with `get` from any code
that runs for that request, because the runtime keeps the request's domain
"active" (`process.domain`) across its callbacks. Two stores are layered on top:

- the single-file store `src/core/asyncStore.ts`, whose `set` takes either a key and
  a value or an object to merge, and which puts an empty store object on a new domain;
- the adapter facade `src/core/asyncStore/index.ts`, which checks that the store is
  not already initialised, looks up the adapter by name (only `'domain'` exists,
  `src/core/asyncStore/implementations/domain.ts`), records it when the callback
  runs, and forwards `set` / `get` / `getId` / `isInitialized` to it.

The propagation of the active domain is the runtime's business, so the model makes it
explicit state. A `World` holds the active domain handle (or none), every domain's two
slots (the store object and the id, each possibly undefined), and the adapter name the
facade recorded. Every operation is a pure function from a world to an `Outcome`:
`Ok(newWorld, result)`, or `Err(kind)` for what the code throws. The kinds are
invalid-arguments, no-active-domain, already-initialized, invalid-adapter, and
`NullishTarget`, the TypeError `Object.assign` throws when the active domain has no store
object. A thrown error never leaves a changed world behind. `Worlds.Resume` stands for
the runtime switching domains: entering `d.run`, leaving it, or resuming another request's
continuation. JavaScript values are a small `JsVal` datatype, so `typeof`, `=== null`,
truthiness and the entries `Object.assign` / object spread copy are total functions.

Files: `js_values.dfy` (JavaScript values), `worlds.dfy` (world state, plus the
`getStore` / `addToStore` / `get` plumbing, which behaves the same in both store files
apart from the text of the error message and a `console.log` line in the adapter),
`legacy_store.dfy`, `domain_adapter.dfy`, `facade.dfy`.

Where the code departs from what its own comments promise, the model follows the code:

- The comment at `src/core/asyncStore/index.ts:14-15` says the store cannot be
  re-initialised. The guard at line 55 only asks whether the *active domain* is
  initialised, and line 63 re-assigns the adapter on every run. So outside every domain a
  second `initialize` succeeds (`Facade.ReinitializeOutsideDomain`).
- Once an adapter is recorded, facade `get` outside every domain propagates the adapter's
  no-active-domain throw (`Facade.Get`). Facade `set` there is a silent no-op, because
  `isInitialized()` is false (`Facade.SetOutsideDomainIsNoop`).
- Legacy `isInitialized` tests `store !== null`. A domain without a store object (an
  undefined slot) therefore counts as initialised (`LegacyStore.UndefinedSlotCountsAsInitialized`).

## Model

| member | source | states |
|---|---|---|
| JsValues.IsNonNullObject | src/core/asyncStore.ts:67 | `typeof v === 'object' && v !== null` holds of exactly the objects and arrays, and all of them are truthy |
| JsValues.IndexedEntries | src/core/asyncStore.ts:68 | spreading an array yields one entry per element, under that element's decimal index, and no other entries |
| JsValues.IndexedPrefixEntries | src/core/asyncStore/implementations/domain.ts:85 | `Object.assign` from an array copies its first `n` elements under `n` distinct decimal index keys, each holding its element |
| JsValues.Assign | src/core/asyncStore/implementations/domain.ts:84-86 | `Object.assign` writes every own entry of the source, overwriting matching keys, and keeps every other key of the target |
| Worlds.GetStore | src/core/asyncStore.ts:144-152 | `getStore` throws no-active-domain exactly when no domain is active, else returns the active domain's store slot; domain.ts:113-122 behaves the same apart from its message text and log line |
| Worlds.ReadKey | src/core/asyncStore/implementations/domain.ts:54-62 | `get` throws outside every domain, gives null for an undefined store slot, undefined for an absent key, and the stored value otherwise; the world is unchanged; asyncStore.ts:82-90 behaves the same |
| Worlds.AddToActive | src/core/asyncStore.ts:73 | `addToStore(getStore(), p)` throws no-active-domain outside every domain and a TypeError without a store object; otherwise only the active store changes, to the merge of `p` into it |
| Worlds.WriteIsolation | src/core/asyncStore/implementations/domain.ts:113-122 | after a write through the active domain, every other domain reads every key exactly as before |
| LegacyStore.SetProperties | src/core/asyncStore.ts:62-71 | `set` accepts exactly a string key, or an object/array key with a falsy value; it builds `{[key]: value}` or a shallow copy of the key's entries |
| LegacyStore.Set | src/core/asyncStore.ts:62-74 | null, undefined, number, boolean and function keys, and an object key with a truthy value, throw invalid-arguments in any world; valid arguments throw no-active-domain outside every domain and the TypeError in a domain without a store object; otherwise only the active store changes, to the merge |
| LegacyStore.SetStringKeyThenGet | src/core/asyncStore.ts:65-66 | after `set(k, v)`, `get(k)` gives `v` and every other key reads as before |
| LegacyStore.SetObjectThenGet | src/core/asyncStore.ts:67-68 | after `set(obj)`, keys of `obj` read `obj`'s values and every other key reads as before |
| LegacyStore.IsInitialized | src/core/asyncStore.ts:97-103 | `isInitialized` is true exactly when some domain is active |
| LegacyStore.UndefinedSlotCountsAsInitialized | src/core/asyncStore.ts:102 | an active domain without a store object counts as initialised, though `get` gives null there and `set` throws |
| LegacyStore.InitializeStoreDomain | src/core/asyncStore.ts:111-118 | a falsy store slot becomes an empty store, an existing store is kept, and `initialState` is merged in; with the default empty state an existing store is unchanged; the id slot is untouched |
| LegacyStore.Initialize | src/core/asyncStore.ts:40-50 | the callback starts in a fresh active domain whose store is empty, so `isInitialized` holds and every key reads undefined; other domains are unchanged |
| LegacyStore.Middleware | src/core/asyncStore.ts:14-29 | with a domain active the middleware goes on without changing anything; otherwise it opens a fresh domain with an empty store, leaving every other domain untouched |
| LegacyStore.MiddlewareReentrant | src/core/asyncStore.ts:16-19 | re-entering the middleware inside the domain it opened reuses that domain |
| DomainAdapter.AcceptsProperties | src/core/asyncStore/implementations/domain.ts:39 | `properties && typeof properties === 'object'` accepts exactly objects and arrays |
| DomainAdapter.IsInitialized | src/core/asyncStore/implementations/domain.ts:69-76 | true exactly when a domain is active and it has a store object |
| DomainAdapter.GetId | src/core/asyncStore/implementations/domain.ts:102-106 | undefined outside every domain, else the active domain's id, which no other domain carries |
| DomainAdapter.Initialize | src/core/asyncStore/implementations/domain.ts:16-28 | the callback starts in a fresh active domain: store initialised, every key undefined, `getId` gives the fresh id; older domains unchanged |
| DomainAdapter.Set | src/core/asyncStore/implementations/domain.ts:38-46 | anything but an object or array throws invalid-arguments in any world; accepted ones throw no-active-domain outside every domain and the TypeError in a domain without a store object; otherwise only the active store changes, to the merge, and the id is kept |
| DomainAdapter.SetThenGet | src/core/asyncStore/implementations/domain.ts:40 | `set(p)` of an object or array succeeds in a domain with a store object, and after it `get(k)` gives `p`'s entry for `k` if it has one, else the old value |
| DomainAdapter.DistinctDomainsDistinctIds | src/core/asyncStore/implementations/domain.ts:25 | two distinct domains never report the same id |
| DomainAdapter.Run | src/core/asyncStore/implementations/domain.ts:24-25 | over any sequence of sets, gets, domain switches and initialisations, every domain keeps its id and the world stays well formed |
| DomainAdapter.UntouchedWithoutWrites | src/core/asyncStore/implementations/domain.ts:38-46 | over any interleaving of sets, gets, switches and initialisations, a domain in which no `set` runs keeps its store and id, so its continuations read every key as before |
| DomainAdapter.SameIdWithinDomain | src/core/asyncStore/implementations/domain.ts:102-106 | whatever happens after a domain is opened, `getId` inside it gives the id it was opened with |
| DomainAdapter.InterleavedRequestsAreIsolated | src/core/asyncStore/implementations/domain.ts:113-122 | request A stores x = 1, interleaved request B stores x = 2 in its own domain, and A's continuation still reads 1 and its own id |
| Facade.GetInstance | src/core/asyncStore/index.ts:116-124 | the adapter lookup succeeds exactly for the name 'domain' and throws invalid-adapter otherwise |
| Facade.Recorded | src/core/asyncStore/index.ts:89 | `initializedAdapter && getInstance(...)` short-circuits to a falsy value while nothing is recorded and delegates only to the 'domain' implementation |
| Facade.IsInitialized | src/core/asyncStore/index.ts:97-99 | undefined while no adapter is recorded, otherwise the adapter's `isInitialized`; the world is unchanged |
| Facade.Initialized | src/core/asyncStore/index.ts:98 | `isInitialized()` is truthy exactly when 'domain' is recorded and the active domain has a store |
| Facade.Initialize | src/core/asyncStore/index.ts:54-60 | throws already-initialized when `isInitialized()` is truthy, else invalid-adapter for any name but 'domain'; succeeds otherwise and changes nothing |
| Facade.RecordAdapter | src/core/asyncStore/index.ts:63 | the wrapped callback records the adapter name, whatever was recorded before, and changes nothing else |
| Facade.RunInitializer | src/core/asyncStore/index.ts:61-65 | the callback starts in a fresh active domain with the adapter recorded: initialised, `getId` gives the fresh id, every key undefined |
| Facade.Set | src/core/asyncStore/index.ts:76-80 | a no-op while `isInitialized()` is falsy, whatever the argument; otherwise exactly the adapter's `set` |
| Facade.Get | src/core/asyncStore/index.ts:88-90 | undefined while no adapter is recorded; once one is, the adapter's `get`, which throws outside every domain |
| Facade.GetId | src/core/asyncStore/index.ts:106-108 | undefined while no adapter is recorded; once one is, the active domain's id, or undefined outside every domain |
| Facade.Middleware | src/core/asyncStore/index.ts:27-46 | while `isInitialized()` is truthy it goes on and changes nothing; otherwise it throws for an unknown adapter, or opens a fresh domain with an empty store, the adapter recorded and the fresh id, leaving every other domain untouched |
| Facade.SecondInitializeFails | src/core/asyncStore/index.ts:54-57 | inside the domain the store was initialised in, a second `initialize` throws already-initialized, whatever adapter it names |
| Facade.RecordedOnlyInCallback | src/core/asyncStore/index.ts:61-65 | in the new domain, before the wrapped callback runs, the facade's `isInitialized`, `get` and `getId` still answer as if no adapter were recorded |
| Facade.ReinitializeOutsideDomain | src/core/asyncStore/index.ts:63 | outside every domain a recorded adapter does not block `initialize`, and running it records the adapter again |
| Facade.SetOutsideDomainIsNoop | src/core/asyncStore/index.ts:77 | outside every domain `set` neither throws nor writes, whatever the argument |
| Facade.MiddlewareReentrant | src/core/asyncStore/index.ts:32-34 | re-entering the middleware inside the domain it opened creates no second domain, so `getId` is unchanged |

## Left out

- Propagation of the active domain across callbacks, timers and promises is the runtime's. The model makes it explicit with `Worlds.Resume`, and a callback's own work is not modelled: each initialisation returns the world the callback starts in.
- `d.add(emitter)`, `d.on('error', …)` and the middlewares' error handlers (`console.error`, `res.end`, `next(err)`) are event-emitter plumbing with no effect on the store.
- `uuidv4()` is replaced by an id parameter that must not be in use. `domain.create()` is likewise replaced by a handle parameter that must be new (`Worlds.Fresh`).
- `console.log` / `console.error` output is left out.
- `ID_KEY` is imported by domain.ts but not exported by `src/core/StoreDomain.ts`. It is modelled as a second slot on the domain, apart from the store slot.
- The store slot holds either nothing (undefined) or a store object. No code in the core writes null there, so `null` slots are not represented.
- Which of the two store files the server's import resolves to is a module-resolution question. Both are modelled, independently, over the same world.
- src/index.ts and src/service.ts are a demo server and example caller; the types and enum files appear only as the `World`, `DomainRec` and `Facade.Adapter` datatypes.
- JavaScript numbers are modelled as integers: NaN, -0 and fractions are not represented. Symbol keys, getters and non-enumerable properties are left out too.
- Worlds.ReadKey: does not model properties inherited from `Object.prototype` (`get('toString')` gives a function in JavaScript), because the store is modelled as a plain map.
- JsValues.Assign: does not model `__proto__` keys. `Object.assign` (and the `properties[key] = value` assignment of the legacy `set`) goes through the `__proto__` setter and changes the target's prototype instead of adding an entry; object spread, by contrast, does create an own `__proto__` entry.
- Error messages are reduced to an `ErrorKind`: the two `getStore` functions throw differently worded no-active-domain messages, and the adapter's also logs a line.
- JavaScript objects are shared references; a `JsVal` is an immutable value. `Object.assign` copies references and `get` returns the stored one, so in JavaScript a caller that mutates an object after `set`, or mutates what `get` returned, changes later reads. The model cannot show that aliasing.
- Arrays are dense sequences: sparse arrays, and arrays carrying extra enumerable non-index properties (which `Object.assign` and spread also copy), are not represented.
- Strings are Dafny strings, sequences of Unicode scalar values, whereas JavaScript indexes strings by UTF-16 code unit. The entries of a string value (`JsValues.OwnEntries` on `Str`) therefore differ for characters outside the Basic Multilingual Plane; no modelled operation passes a string where its entries are copied.
