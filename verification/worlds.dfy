/**
 The state the store reads and writes: which domain the runtime reports as active
 (`process.domain`), the store and id slots of every domain, and the adapter the
 facade recorded. Also the domain-object plumbing (`getStore`, `addToStore`, `get`)
 that src/core/asyncStore.ts and its domain adapter implement alike (only their error text and logging differ).
 */
module Worlds {
  import opened JsValues

  datatype Option<+T> = None | Some(value: T)

  /** The identity of a domain object created by `domain.create()`. */
  type DomainHandle = nat

  /** A store object: the plain object kept in a domain's `__$store__` slot. */
  type Store = map<string, JsVal>

  /** The two slots the core keeps on a domain object; `None` is an undefined slot. */
  datatype DomainRec = DomainRec(store: Option<Store>, id: Option<string>)

  datatype World = World(
    active: Option<DomainHandle>,
    domains: map<DomainHandle, DomainRec>,
    recordedAdapter: Option<string>)

  datatype ErrorKind =
    | InvalidArgs         // 'Invalid arguments provided for asyncStore.set()'
    | NoActiveDomain      // 'No active domain found ...', thrown by getStore
    | AlreadyInitialized  // 'Async store already initialized, cannot re-initialize again.'
    | InvalidAdapter      // 'Invalid async store adapter provided ...', thrown by getInstance
    | NullishTarget       // the TypeError of Object.assign when the store slot is undefined

  /** What an operation does: the new world and its result, or the error it throws. */
  datatype Outcome<+T> = Ok(world: World, value: T) | Err(kind: ErrorKind)

  /** Steps the request middlewares can take. */
  datatype Step = Reused | Opened(handle: DomainHandle)

  /** The active domain is one the world knows. */
  predicate ActiveIsKnown(w: World)
  {
    w.active.Some? ==> w.active.value in w.domains
  }

  /** No two domains carry the same id. */
  predicate IdsDistinct(w: World)
  {
    forall h1, h2 :: h1 in w.domains && h2 in w.domains && h1 != h2 && w.domains[h1].id.Some?
      ==> w.domains[h1].id != w.domains[h2].id
  }

  predicate Valid(w: World)
  {
    ActiveIsKnown(w) && IdsDistinct(w)
  }

  predicate IdInUse(w: World, id: string)
  {
    exists h :: h in w.domains && w.domains[h].id == Some(id)
  }

  /** `h` is what a fresh `domain.create()` may return and `id` what a fresh `uuidv4()` may return. */
  predicate Fresh(w: World, h: DomainHandle, id: string)
  {
    h !in w.domains && !IdInUse(w, id)
  }

  function ActiveRec(w: World): DomainRec
    requires Valid(w) && w.active.Some?
  {
    w.domains[w.active.value]
  }

  /** The store slot as a JavaScript value: undefined, or the store object. */
  function SlotValue(slot: Option<Store>): (v: JsVal)
    ensures Truthy(v) <==> slot.Some?
    ensures v != Null
  {
    match slot
    case None => Undefined
    case Some(store) => Obj(store)
  }

  /**
   The runtime makes `h` the active domain (or none): entering `d.run`, leaving it, or
   resuming a continuation bound to `h`. The store itself never does this.
   */
  function Resume(w: World, h: Option<DomainHandle>): (r: World)
    requires Valid(w)
    requires h.Some? ==> h.value in w.domains
    ensures Valid(r) && r.active == h
    ensures r.domains == w.domains && r.recordedAdapter == w.recordedAdapter
  {
    w.(active := h)
  }

  /** `getStore()`: the active domain's store slot; throws when no domain is active. */
  function GetStore(w: World): (r: Outcome<Option<Store>>)
    requires Valid(w)
    ensures r.Err? <==> w.active.None?
    ensures r.Err? ==> r.kind == NoActiveDomain
    ensures r.Ok? ==> r.world == w && r.value == w.domains[w.active.value].store
  {
    match w.active
    case None => Err(NoActiveDomain)
    case Some(h) => Ok(w, w.domains[h].store)
  }

  /**
   `get(key)`: throws when no domain is active, gives null when the store slot is
   falsy, and otherwise the value under `key` (undefined for an absent key). Never
   changes the world.
   */
  function ReadKey(w: World, key: string): (r: Outcome<JsVal>)
    requires Valid(w)
    ensures r.Err? <==> w.active.None?
    ensures r.Err? ==> r.kind == NoActiveDomain
    ensures r.Ok? ==> r.world == w
    ensures r.Ok? && ActiveRec(w).store.None? ==> r.value == Null
    ensures r.Ok? && ActiveRec(w).store.Some? && key !in ActiveRec(w).store.value ==> r.value == Undefined
    ensures r.Ok? && ActiveRec(w).store.Some? && key in ActiveRec(w).store.value
      ==> r.value == ActiveRec(w).store.value[key]
  {
    match GetStore(w)
    case Err(e) => Err(e)
    case Ok(_, slot) =>
      if !Truthy(SlotValue(slot)) then Ok(w, Null)
      else if key in slot.value then Ok(w, slot.value[key])
      else Ok(w, Undefined)
  }

  /** `w2` differs from `w` at most in the store slot of the active domain. */
  predicate OnlyActiveStoreChanged(w: World, w2: World)
    requires Valid(w) && w.active.Some?
  {
    && w2.active == w.active
    && w2.recordedAdapter == w.recordedAdapter
    && w2.domains.Keys == w.domains.Keys
    && w2.domains[w.active.value].id == ActiveRec(w).id
    && (forall h :: h in w.domains && h != w.active.value ==> w2.domains[h] == w.domains[h])
  }

  /**
   `addToStore(getStore(), properties)`: merges the own entries of `properties` into the
   active domain's store object. Throws when no domain is active, and throws the TypeError
   of `Object.assign` when the active domain has no store object. Nothing but that one
   store changes: other domains, every id and the recorded adapter stay as they were.
   */
  function AddToActive(w: World, properties: JsVal): (r: Outcome<()>)
    requires Valid(w)
    ensures r.Err? <==> w.active.None? || ActiveRec(w).store.None?
    ensures r.Err? && w.active.None? ==> r.kind == NoActiveDomain
    ensures r.Err? && w.active.Some? ==> r.kind == NullishTarget
    ensures r.Ok? ==> Valid(r.world) && OnlyActiveStoreChanged(w, r.world)
    ensures r.Ok? ==> ActiveRec(r.world).store == Some(Assign(ActiveRec(w).store.value, properties))
  {
    match GetStore(w)
    case Err(e) => Err(e)
    case Ok(_, slot) =>
      if slot.None? then Err(NullishTarget)
      else
        var h := w.active.value;
        var rec := w.domains[h];
        Ok(w.(domains := w.domains[h := rec.(store := Some(Assign(slot.value, properties)))]), ())
  }

  /**
   A write through the active domain is invisible from every other domain: a
   continuation resumed in domain `g` reads every key as it did before the write.
   */
  lemma WriteIsolation(w: World, properties: JsVal, g: DomainHandle, k: string)
    requires Valid(w) && AddToActive(w, properties).Ok?
    requires g in w.domains && Some(g) != w.active
    ensures var w2 := AddToActive(w, properties).world;
      ReadKey(Resume(w2, Some(g)), k).value == ReadKey(Resume(w, Some(g)), k).value
  {
  }
}
