/**
 The single-file store of src/core/asyncStore.ts: a two-form `set`, `get`, the
 `isInitialized` check, domain initialisation and the middleware built on them.
 Its `get` is `Worlds.ReadKey` and its `getStore` / `addToStore` are `Worlds.GetStore`
 and `Worlds.AddToActive`.
 */
module LegacyStore {
  import opened JsValues
  import opened Worlds

  /**
   The `properties` object that `set(key, value)` builds, or None when it throws
   invalid-arguments: a string key names one property; a non-null object (or array)
   key is copied whole, but only when `value` is falsy; every other shape is refused.
   */
  function SetProperties(key: JsVal, value: JsVal): (r: Option<Store>)
    ensures r.Some? <==> key.Str? || ((key.Obj? || key.Arr?) && !Truthy(value))
    ensures key.Str? ==> r == Some(map[key.s := value])
    ensures (key.Obj? || key.Arr?) && !Truthy(value) ==> r == Some(OwnEntries(key))
  {
    if TypeOf(key) == "string" then Some(map[key.s := value])
    else if IsNonNullObject(key) && !Truthy(value) then Some(OwnEntries(key))
    else None
  }

  /**
   `set(key, value)`: the arguments are checked first, then the active domain's store
   receives the properties. Null, undefined, number, boolean and function keys, and an
   object key with a truthy value, throw invalid-arguments whatever the world; valid
   arguments throw when no domain is active. Only the active store changes.
   */
  function Set(w: World, key: JsVal, value: JsVal): (r: Outcome<()>)
    requires Valid(w)
    ensures (key.Null? || key.Undefined? || key.Num? || key.Bool? || key.Fn?) ==> r == Err(InvalidArgs)
    ensures (key.Obj? || key.Arr?) && Truthy(value) ==> r == Err(InvalidArgs)
    ensures r == Err(InvalidArgs) <==> SetProperties(key, value).None?
    ensures SetProperties(key, value).Some? && w.active.None? ==> r == Err(NoActiveDomain)
    ensures SetProperties(key, value).Some? && w.active.Some? ==>
      (r.Err? <==> ActiveRec(w).store.None?)
    ensures SetProperties(key, value).Some? && w.active.Some? && ActiveRec(w).store.None? ==>
      r == Err(NullishTarget)
    ensures r.Ok? ==> Valid(r.world) && OnlyActiveStoreChanged(w, r.world)
    ensures r.Ok? ==>
      ActiveRec(r.world).store == Some(ActiveRec(w).store.value + SetProperties(key, value).value)
  {
    match SetProperties(key, value)
    case None => Err(InvalidArgs)
    case Some(properties) => AddToActive(w, Obj(properties))
  }

  /** `set(k, v)` with a string key: `get(k)` then gives `v`, and every other key reads as before. */
  lemma SetStringKeyThenGet(w: World, k: string, v: JsVal, other: string)
    requires Valid(w)
    requires Set(w, Str(k), v).Ok?
    ensures var w2 := Set(w, Str(k), v).world;
      && ReadKey(w2, k) == Ok(w2, v)
      && (other != k ==> ReadKey(w2, other).value == ReadKey(w, other).value)
  {
  }

  /**
   `set(obj)` with an object or array and a falsy second argument: every entry of `obj`
   reads back as copied, and every key `obj` lacks reads as before.
   */
  lemma SetObjectThenGet(w: World, obj: JsVal, v: JsVal, k: string)
    requires Valid(w)
    requires (obj.Obj? || obj.Arr?) && !Truthy(v)
    requires Set(w, obj, v).Ok?
    ensures var w2 := Set(w, obj, v).world;
      ReadKey(w2, k).value
        == if k in OwnEntries(obj) then OwnEntries(obj)[k] else ReadKey(w, k).value
  {
  }

  /**
   `isInitialized()`: false when no domain is active, otherwise `getStore() !== null`.
   No code puts null in the store slot, so every active domain counts, even one
   whose store slot is undefined.
   */
  predicate IsInitialized(w: World)
    requires Valid(w)
    ensures IsInitialized(w) <==> w.active.Some?
  {
    if w.active.None? then false
    else SlotValue(GetStore(w).value) != Null
  }

  /**
   The quirk of `isInitialized()`: an active domain without a store object counts as
   initialised, yet `get` gives null there and `set` throws the TypeError of `Object.assign`.
   */
  lemma UndefinedSlotCountsAsInitialized(w: World, k: string, v: JsVal)
    requires Valid(w) && w.active.Some? && ActiveRec(w).store.None?
    ensures IsInitialized(w)
    ensures ReadKey(w, k) == Ok(w, Null)
    ensures Set(w, Str(k), v) == Err(NullishTarget)
  {
  }

  /**
   `initializeStoreDomain(d, initialState)`: gives the domain an empty store object when
   its slot is falsy, keeps an existing one otherwise, and merges `initialState` into it.
   The id slot is not touched.
   */
  function InitializeStoreDomain(rec: DomainRec, initialState: Store): (r: DomainRec)
    ensures r.id == rec.id
    ensures r.store.Some?
    ensures forall k :: k in r.store.value <==> k in initialState || (rec.store.Some? && k in rec.store.value)
    ensures forall k :: k in initialState ==> r.store.value[k] == initialState[k]
    ensures forall k ::
      rec.store.Some? && k in rec.store.value && k !in initialState ==> r.store.value[k] == rec.store.value[k]
    ensures initialState == map[] ==> r.store == Some(if rec.store.Some? then rec.store.value else map[])
  {
    var store := if !Truthy(SlotValue(rec.store)) then map[] else rec.store.value;
    assert initialState == map[] ==> Assign(store, Obj(initialState)) == store;
    rec.(store := Some(Assign(store, Obj(initialState))))
  }

  /**
   `initialize(emitters, error, callback)`, store part: a fresh domain `h` gets an empty
   store object (and no id) and is active while the callback starts. The world returned
   is the one the callback starts in; every other domain is unchanged.
   */
  function Initialize(w: World, h: DomainHandle): (r: World)
    requires Valid(w) && h !in w.domains
    ensures Valid(r) && r.active == Some(h) && r.recordedAdapter == w.recordedAdapter
    ensures r.domains.Keys == w.domains.Keys + {h}
    ensures forall g :: g in w.domains ==> r.domains[g] == w.domains[g]
    ensures r.domains[h] == DomainRec(Some(map[]), None)
    ensures IsInitialized(r)
    ensures forall k :: ReadKey(r, k) == Ok(r, Undefined)
  {
    var d := InitializeStoreDomain(DomainRec(None, None), map[]);
    w.(domains := w.domains[h := d], active := Some(h))
  }

  /**
   The middleware of src/core/asyncStore.ts: with a domain already active it goes on
   in that domain; otherwise it opens fresh domain `h` and goes on inside it, in the
   world `Initialize` describes: an empty store in `h`, every other domain untouched.
   */
  function Middleware(w: World, h: DomainHandle): (r: Outcome<Step>)
    requires Valid(w) && h !in w.domains
    ensures r.Ok? && Valid(r.world)
    ensures w.active.Some? <==> r == Ok(w, Reused)
    ensures w.active.None? ==> r.value == Opened(h) && r.world.active == Some(h) && IsInitialized(r.world)
    ensures w.active.None? ==> r.world == Initialize(w, h)
  {
    if IsInitialized(w) then Ok(w, Reused)
    else Ok(Initialize(w, h), Opened(h))
  }

  /** A second pass through the middleware, inside the domain the first one opened, reuses it. */
  lemma MiddlewareReentrant(w: World, h1: DomainHandle, h2: DomainHandle)
    requires Valid(w) && h1 !in w.domains
    requires var r := Middleware(w, h1); h2 !in r.world.domains
    ensures var w1 := Middleware(w, h1).world;
      Middleware(w1, h2) == Ok(w1, Reused)
  {
  }
}
