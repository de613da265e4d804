/**
 The adapter facade of src/core/asyncStore/index.ts. It records which adapter the
 store was initialised with (`initializedAdapter`) and forwards `set`, `get`, `getId`
 and `isInitialized` to that adapter, each guarded by `initializedAdapter && ...`.
 */
module Facade {
  import opened JsValues
  import opened Worlds
  import DomainAdapter

  /** The one adapter name the enum defines, and the default of `initialize`. */
  const DomainAdapterName: string := "domain"

  /** The implementations `getInstance` can hand out. */
  datatype Adapter = DomainImplementation

  /** `getInstance(adapter)`: the implementation registered under a name; None where it throws. */
  function GetInstance(name: string): (r: Option<Adapter>)
    ensures r.Some? <==> name == DomainAdapterName
  {
    if name == DomainAdapterName then Some(DomainImplementation) else None
  }

  /** What `initializedAdapter && getInstance(initializedAdapter)` evaluates to. */
  datatype Delegate =
    | ShortCircuit(value: JsVal)  // the falsy record itself
    | To(adapter: Adapter)        // the recorded adapter's implementation
    | Throws                      // getInstance throws invalid-adapter

  function Recorded(w: World): (r: Delegate)
    ensures w.recordedAdapter.None? ==> r == ShortCircuit(Undefined)
    ensures w.recordedAdapter == Some(DomainAdapterName) ==> r == To(DomainImplementation)
    ensures r.ShortCircuit? ==> !Truthy(r.value)
    ensures r.To? ==> w.recordedAdapter == Some(DomainAdapterName)
  {
    match w.recordedAdapter
    case None => ShortCircuit(Undefined)
    case Some(name) =>
      if !Truthy(Str(name)) then ShortCircuit(Str(name))
      else
        match GetInstance(name)
        case None => Throws
        case Some(a) => To(a)
  }

  /**
   `isInitialized()`: the falsy `undefined` while no adapter is recorded, and otherwise
   the recorded adapter's answer. Never changes the world.
   */
  function IsInitialized(w: World): (r: Outcome<JsVal>)
    requires Valid(w)
    ensures r.Ok? ==> r.world == w
    ensures r.Err? ==> r.kind == InvalidAdapter
    ensures w.recordedAdapter.None? ==> r == Ok(w, Undefined)
    ensures w.recordedAdapter == Some(DomainAdapterName) ==> r == Ok(w, Bool(DomainAdapter.IsInitialized(w)))
  {
    match Recorded(w)
    case ShortCircuit(v) => Ok(w, v)
    case Throws => Err(InvalidAdapter)
    case To(DomainImplementation) => Ok(w, Bool(DomainAdapter.IsInitialized(w)))
  }

  /** `isInitialized()` returns a truthy value: the domain adapter is recorded and its store is up. */
  predicate Initialized(w: World)
    requires Valid(w)
    ensures Initialized(w) <==> w.recordedAdapter == Some(DomainAdapterName) && DomainAdapter.IsInitialized(w)
  {
    IsInitialized(w).Ok? && Truthy(IsInitialized(w).value)
  }

  /** The closure `initialize(adapter)` returns: the adapter name and the implementation looked up eagerly. */
  datatype Initializer = Initializer(adapter: string, instance: Adapter)

  /**
   `initialize(adapter)`, the eager part: throws already-initialized when `isInitialized()`
   is truthy, then throws invalid-adapter for any name but 'domain'. It creates no domain
   and records nothing: the world is unchanged either way.
   */
  function Initialize(w: World, adapter: string): (r: Outcome<Initializer>)
    requires Valid(w)
    ensures Initialized(w) ==> r == Err(AlreadyInitialized)
    ensures IsInitialized(w).Ok? && !Initialized(w) && adapter != DomainAdapterName ==> r == Err(InvalidAdapter)
    ensures r.Ok? <==> IsInitialized(w).Ok? && !Initialized(w) && adapter == DomainAdapterName
    ensures r.Ok? ==> r.world == w && r.value.adapter == DomainAdapterName
  {
    match IsInitialized(w)
    case Err(e) => Err(e)
    case Ok(_, flag) =>
      if Truthy(flag) then Err(AlreadyInitialized)
      else
        match GetInstance(adapter)
        case None => Err(InvalidAdapter)
        case Some(instance) => Ok(w, Initializer(adapter, instance))
  }

  /** The first statement of the wrapped callback: `initializedAdapter = adapter`, on every run. */
  function RecordAdapter(w: World, adapter: string): (r: World)
    requires Valid(w)
    ensures Valid(r) && r.recordedAdapter == Some(adapter)
    ensures r.active == w.active && r.domains == w.domains
  {
    w.(recordedAdapter := Some(adapter))
  }

  /**
   Calling the closure: the implementation creates and enters a fresh domain, then the
   wrapped callback records the adapter before the caller's callback starts. The world
   returned is the one that callback starts in: there the store is initialised, `getId`
   gives the fresh id and every key reads as undefined.
   */
  function RunInitializer(w: World, init: Initializer, h: DomainHandle, id: string): (r: World)
    requires Valid(w) && Fresh(w, h, id)
    ensures Valid(r) && r.active == Some(h) && r.recordedAdapter == Some(init.adapter)
    ensures r.domains.Keys == w.domains.Keys + {h}
    ensures forall g :: g in w.domains ==> r.domains[g] == w.domains[g]
    ensures init.adapter == DomainAdapterName ==> Initialized(r)
    ensures init.adapter == DomainAdapterName ==> GetId(r) == Ok(r, Str(id))
    ensures init.adapter == DomainAdapterName ==> forall k :: Get(r, k) == Ok(r, Undefined)
  {
    match init.instance
    case DomainImplementation => RecordAdapter(DomainAdapter.Initialize(w, h, id), init.adapter)
  }

  /**
   `set(properties)`: a silent no-op while `isInitialized()` is falsy, whatever the
   argument; otherwise the domain adapter's `set`, so invalid arguments throw.
   */
  function Set(w: World, properties: JsVal): (r: Outcome<()>)
    requires Valid(w)
    ensures IsInitialized(w).Err? ==> r == Err(InvalidAdapter)
    ensures IsInitialized(w).Ok? && !Initialized(w) ==> r == Ok(w, ())
    ensures Initialized(w) ==> r == DomainAdapter.Set(w, properties)
  {
    match IsInitialized(w)
    case Err(e) => Err(e)
    case Ok(_, flag) =>
      if !Truthy(flag) then Ok(w, ())
      else
        match Recorded(w)
        case To(DomainImplementation) => DomainAdapter.Set(w, properties)
        case _ => Err(InvalidAdapter)
  }

  /**
   `get(key)`: undefined while no adapter is recorded; once one is, the domain adapter's
   `get`, which throws outside every domain.
   */
  function Get(w: World, key: string): (r: Outcome<JsVal>)
    requires Valid(w)
    ensures w.recordedAdapter.None? ==> r == Ok(w, Undefined)
    ensures w.recordedAdapter == Some(DomainAdapterName) ==> r == ReadKey(w, key)
    ensures w.recordedAdapter == Some(DomainAdapterName) && w.active.None? ==> r == Err(NoActiveDomain)
    ensures r.Ok? ==> r.world == w
  {
    match Recorded(w)
    case ShortCircuit(v) => Ok(w, v)
    case Throws => Err(InvalidAdapter)
    case To(DomainImplementation) => ReadKey(w, key)
  }

  /** An id slot as the JavaScript value `getId()` returns. */
  function IdValue(id: Option<string>): JsVal
  {
    match id
    case None => Undefined
    case Some(s) => Str(s)
  }

  /**
   `getId()`: undefined while no adapter is recorded; once one is, the active domain's id,
   or undefined outside every domain. Never throws for the domain adapter.
   */
  function GetId(w: World): (r: Outcome<JsVal>)
    requires Valid(w)
    ensures w.recordedAdapter.None? ==> r == Ok(w, Undefined)
    ensures w.recordedAdapter == Some(DomainAdapterName) ==> r == Ok(w, IdValue(DomainAdapter.GetId(w)))
    ensures w.recordedAdapter == Some(DomainAdapterName) && w.active.None? ==> r == Ok(w, Undefined)
    ensures r.Ok? ==> r.world == w
  {
    match Recorded(w)
    case ShortCircuit(v) => Ok(w, v)
    case Throws => Err(InvalidAdapter)
    case To(DomainImplementation) => Ok(w, IdValue(DomainAdapter.GetId(w)))
  }

  /**
   The middleware of src/core/asyncStore/index.ts: while `isInitialized()` is truthy it
   goes on in the current domain and changes nothing; otherwise it initialises the store
   with `adapter`, opening fresh domain `h` with id `id`, and goes on inside it.
   */
  function Middleware(w: World, adapter: string, h: DomainHandle, id: string): (r: Outcome<Step>)
    requires Valid(w) && Fresh(w, h, id)
    ensures Initialized(w) ==> r == Ok(w, Reused)
    ensures r.Ok? && r.value.Reused? ==> r.world == w
    ensures IsInitialized(w).Ok? && !Initialized(w) && adapter != DomainAdapterName ==> r == Err(InvalidAdapter)
    ensures IsInitialized(w).Ok? && !Initialized(w) && adapter == DomainAdapterName ==>
      && r.Ok? && r.value == Opened(h) && Valid(r.world)
      && r.world.active == Some(h) && Initialized(r.world) && GetId(r.world).value == Str(id)
    ensures IsInitialized(w).Ok? && !Initialized(w) && adapter == DomainAdapterName ==>
      r.world == RunInitializer(w, Initializer(adapter, DomainImplementation), h, id)
  {
    match IsInitialized(w)
    case Err(e) => Err(e)
    case Ok(_, flag) =>
      if Truthy(flag) then Ok(w, Reused)
      else
        match Initialize(w, adapter)
        case Err(e) => Err(e)
        case Ok(_, init) => Ok(RunInitializer(w, init, h, id), Opened(h))
  }

  /**
   Inside the domain the store was initialised in, a second `initialize` throws
   already-initialized, whatever adapter it names, and so leaves the record as it is.
   */
  lemma SecondInitializeFails(w: World, h: DomainHandle, id: string, adapter: string)
    requires Valid(w) && Fresh(w, h, id)
    requires Initialize(w, DomainAdapterName).Ok?
    ensures var r := RunInitializer(w, Initialize(w, DomainAdapterName).value, h, id);
      Initialize(r, adapter) == Err(AlreadyInitialized)
  {
  }

  /**
   The adapter is recorded only once the callback runs: in the new domain, before the
   wrapped callback, the domain adapter already reports an initialised store, yet the
   facade's `isInitialized`, `get` and `getId` still answer as if no adapter existed.
   */
  lemma RecordedOnlyInCallback(w: World, h: DomainHandle, id: string, k: string)
    requires Valid(w) && Fresh(w, h, id) && w.recordedAdapter.None?
    ensures var mid := DomainAdapter.Initialize(w, h, id);
      && DomainAdapter.IsInitialized(mid)
      && IsInitialized(mid) == Ok(mid, Undefined)
      && Get(mid, k) == Ok(mid, Undefined)
      && GetId(mid) == Ok(mid, Undefined)
  {
  }

  /**
   The record is not write-once: outside every domain a recorded 'domain' adapter does not
   block `initialize`, and running it records the adapter again in a new domain.
   */
  lemma ReinitializeOutsideDomain(w: World, h: DomainHandle, id: string)
    requires Valid(w) && Fresh(w, h, id)
    requires w.recordedAdapter == Some(DomainAdapterName) && w.active.None?
    ensures Initialize(w, DomainAdapterName).Ok?
    ensures var r := RunInitializer(w, Initialize(w, DomainAdapterName).value, h, id);
      r.active == Some(h) && r.recordedAdapter == Some(DomainAdapterName) && GetId(r).value == Str(id)
  {
  }

  /** Outside every domain `set` neither throws nor writes, valid argument or not. */
  lemma SetOutsideDomainIsNoop(w: World, properties: JsVal)
    requires Valid(w) && w.active.None?
    requires w.recordedAdapter.None? || w.recordedAdapter == Some(DomainAdapterName)
    ensures Set(w, properties) == Ok(w, ())
  {
  }

  /**
   Re-entering the middleware inside the domain it opened creates no second domain:
   the world, and so `getId()`, stay as they were.
   */
  lemma MiddlewareReentrant(w: World, h1: DomainHandle, id1: string, h2: DomainHandle, id2: string)
    requires Valid(w) && Fresh(w, h1, id1)
    requires Middleware(w, DomainAdapterName, h1, id1).Ok?
    requires Middleware(w, DomainAdapterName, h1, id1).value.Opened?
    requires Fresh(Middleware(w, DomainAdapterName, h1, id1).world, h2, id2)
    ensures var w1 := Middleware(w, DomainAdapterName, h1, id1).world;
      && Middleware(w1, DomainAdapterName, h2, id2) == Ok(w1, Reused)
      && GetId(w1).value == Str(id1)
  {
  }
}
