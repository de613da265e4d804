/**
 The domain-backed storage adapter of src/core/asyncStore/implementations/domain.ts:
 `initialize` binds an empty store object and a fresh id to a new domain, `set` merges
 an object into the active domain's store, `get` (`Worlds.ReadKey`), `isInitialized`
 and `getId` read the active domain.
 */
module DomainAdapter {
  import opened JsValues
  import opened Worlds

  /** The guard of `set(properties)`: `properties && typeof properties === 'object'`. */
  predicate AcceptsProperties(p: JsVal)
    ensures AcceptsProperties(p) <==> p.Obj? || p.Arr?
  {
    Truthy(p) && TypeOf(p) == "object"
  }

  /** `isInitialized()`: a domain is active and its store slot is truthy. */
  predicate IsInitialized(w: World)
    requires Valid(w)
    ensures IsInitialized(w) <==> w.active.Some? && ActiveRec(w).store.Some?
  {
    if w.active.None? then false
    else Truthy(SlotValue(ActiveRec(w).store))
  }

  /**
   `getId()`: undefined outside every domain, otherwise the active domain's id slot.
   A returned id belongs to the active domain and to no other.
   */
  function GetId(w: World): (r: Option<string>)
    requires Valid(w)
    ensures w.active.None? ==> r.None?
    ensures w.active.Some? ==> r == ActiveRec(w).id
    ensures r.Some? ==> forall g :: g in w.domains && w.domains[g].id == r ==> w.active == Some(g)
  {
    match w.active
    case None => None
    case Some(h) => w.domains[h].id
  }

  /**
   `initialize(emitters, error, callback)`, store and id part: the fresh domain `h` gets an
   empty store object and the fresh id `id`, and the callback starts with `h` active. So
   inside the callback the store is initialised, every key reads as undefined and `getId`
   gives `id`; every domain that existed before is unchanged.
   */
  function Initialize(w: World, h: DomainHandle, id: string): (r: World)
    requires Valid(w) && Fresh(w, h, id)
    ensures Valid(r) && r.active == Some(h) && r.recordedAdapter == w.recordedAdapter
    ensures r.domains.Keys == w.domains.Keys + {h}
    ensures forall g :: g in w.domains ==> r.domains[g] == w.domains[g]
    ensures IsInitialized(r)
    ensures GetId(r) == Some(id)
    ensures forall k :: ReadKey(r, k) == Ok(r, Undefined)
  {
    w.(domains := w.domains[h := DomainRec(Some(map[]), Some(id))], active := Some(h))
  }

  /**
   `set(properties)`: anything but an object or array throws invalid-arguments, whatever
   the world; an accepted argument throws when no domain is active, and is otherwise
   merged into the active store. Nothing else changes, ids included.
   */
  function Set(w: World, p: JsVal): (r: Outcome<()>)
    requires Valid(w)
    ensures !(p.Obj? || p.Arr?) ==> r == Err(InvalidArgs)
    ensures (p.Obj? || p.Arr?) && w.active.None? ==> r == Err(NoActiveDomain)
    ensures (p.Obj? || p.Arr?) && w.active.Some? ==> (r.Err? <==> ActiveRec(w).store.None?)
    ensures (p.Obj? || p.Arr?) && w.active.Some? && ActiveRec(w).store.None? ==> r == Err(NullishTarget)
    ensures r.Ok? ==> Valid(r.world) && OnlyActiveStoreChanged(w, r.world)
    ensures r.Ok? ==> ActiveRec(r.world).store == Some(Assign(ActiveRec(w).store.value, p))
    ensures r.Ok? ==> GetId(r.world) == GetId(w) && IsInitialized(r.world)
  {
    if AcceptsProperties(p) then AddToActive(w, p) else Err(InvalidArgs)
  }

  /** `set(p)` with an object or array succeeds in a domain with a store object, and then `get(k)` gives `p`'s entry for `k` if it has one, else what it gave before. */
  lemma SetThenGet(w: World, p: JsVal, k: string)
    requires Valid(w) && (p.Obj? || p.Arr?) && w.active.Some? && ActiveRec(w).store.Some?
    ensures Set(w, p).Ok?
    ensures var w2 := Set(w, p).world;
      ReadKey(w2, k).value == if k in OwnEntries(p) then OwnEntries(p)[k] else ReadKey(w, k).value
  {
  }

  /** Two distinct domains never report the same id. */
  lemma DistinctDomainsDistinctIds(w: World, a: DomainHandle, b: DomainHandle)
    requires Valid(w) && a in w.domains && b in w.domains && a != b
    requires w.domains[a].id.Some?
    ensures GetId(Resume(w, Some(a))) != GetId(Resume(w, Some(b)))
  {
  }

  /** What the runtime and the callers can do between two reads. */
  datatype Event =
    | Write(properties: JsVal)                // set(properties)
    | Read(key: string)                       // get(key)
    | Switch(target: Option<DomainHandle>)    // the runtime resumes a continuation
    | Open(handle: DomainHandle, id: string)  // initialize(...) with a fresh domain and uuid

  /**
   Runs one event; None when it throws or cannot happen (a switch to an unknown domain,
   a domain or id that is not fresh), in which case the world is left as it was.
   */
  function Apply(w: World, e: Event): (r: Option<World>)
    requires Valid(w)
    ensures r.Some? ==> Valid(r.value)
    ensures r.Some? ==> w.domains.Keys <= r.value.domains.Keys
    ensures r.Some? ==> forall h :: h in w.domains ==> r.value.domains[h].id == w.domains[h].id
    ensures r.Some? ==> forall h :: h in w.domains && !(e.Write? && w.active == Some(h)) ==>
      r.value.domains[h] == w.domains[h]
  {
    match e
    case Write(p) =>
      (match Set(w, p)
       case Ok(w2, _) => Some(w2)
       case Err(_) => None)
    case Read(k) =>
      (match ReadKey(w, k)
       case Ok(w2, _) => Some(w2)
       case Err(_) => None)
    case Switch(t) =>
      if t.None? || t.value in w.domains then Some(Resume(w, t)) else None
    case Open(h, id) =>
      if Fresh(w, h, id) then Some(Initialize(w, h, id)) else None
  }

  /** Runs the events in order; a throwing event changes nothing and the run goes on. */
  function Run(w: World, events: seq<Event>): (r: World)
    requires Valid(w)
    ensures Valid(r)
    ensures w.domains.Keys <= r.domains.Keys
    ensures forall h :: h in w.domains ==> r.domains[h].id == w.domains[h].id
    decreases |events|
  {
    if |events| == 0 then w
    else
      match Apply(w, events[0])
      case None => Run(w, events[1..])
      case Some(w2) => Run(w2, events[1..])
  }

  /**
   No `set` runs while domain `g` is active, at any point of the run: events that throw
   count too, since a throwing `set` is still called.
   */
  predicate NoWriteIn(w: World, events: seq<Event>, g: DomainHandle)
    requires Valid(w)
    decreases |events|
  {
    if |events| == 0 then true
    else
      && (events[0].Write? ==> w.active != Some(g))
      && match Apply(w, events[0])
         case None => NoWriteIn(w, events[1..], g)
         case Some(w2) => NoWriteIn(w2, events[1..], g)
  }

  /**
   Requests are isolated over every interleaving: unless some `set` runs while domain `g`
   is active, `g`'s store and id end the run as they started, so a continuation resumed
   in `g` reads every key as it did before the run.
   */
  lemma {:induction false} UntouchedWithoutWrites(w: World, events: seq<Event>, g: DomainHandle, k: string)
    requires Valid(w) && g in w.domains && NoWriteIn(w, events, g)
    ensures Run(w, events).domains[g] == w.domains[g]
    ensures ReadKey(Resume(Run(w, events), Some(g)), k).value == ReadKey(Resume(w, Some(g)), k).value
    decreases |events|
  {
    if |events| > 0 {
      match Apply(w, events[0])
      case None =>
        UntouchedWithoutWrites(w, events[1..], g, k);
      case Some(w2) =>
        UntouchedWithoutWrites(w2, events[1..], g, k);
    }
  }

  /**
   The id is written only when the domain is created: whatever happens afterwards, every
   `getId()` made while domain `h` is active gives the id it was opened with.
   */
  lemma SameIdWithinDomain(w: World, h: DomainHandle, id: string, events: seq<Event>)
    requires Valid(w) && Fresh(w, h, id)
    ensures var r := Run(Initialize(w, h, id), events);
      r.active == Some(h) ==> GetId(r) == Some(id)
  {
  }

  /**
   Two requests interleaved on one thread: request A stores x = 1, request B opens its
   own domain and stores x = 2, and a continuation of A still reads 1.
   */
  lemma InterleavedRequestsAreIsolated()
    ensures
      var w0 := World(None, map[], None);
      var wa := Initialize(w0, 0, "a");
      var wa1 := Set(wa, Obj(map["x" := Num(1)])).world;
      var wb := Initialize(Resume(wa1, None), 1, "b");
      var wb1 := Set(wb, Obj(map["x" := Num(2)])).world;
      && ReadKey(wb1, "x").value == Num(2)
      && ReadKey(Resume(wb1, Some(0)), "x").value == Num(1)
      && GetId(Resume(wb1, Some(0))) == Some("a")
  {
  }
}
