/**
 The linker's invariant, and how loading and unloading move from one state to another
 (Runtime/AospLinker/agr_aosp_dynamic.cpp).
 */
module LinkSteps {
  import opened Prelude
  import opened LinkGraph
  import opened InitOrder

  /** What find_library yields. `Dangling`: the list keeps a freed object, and what follows is undefined. */
  datatype Found = Loaded(id: Id) | Failed | Dangling

  datatype LinkResult = Linked | Broken | Poisoned

  /**
   The objects of `g` other than `si` are all still there in `g'`, at the same places, changed at most in their counts.
   */
  ghost predicate GrownBut(g: Graph, g': Graph, si: set<Id>) {
    && g.solist <= g'.solist && (g.somain.Some? ==> g'.somain == g.somain)
    && (forall o :: o in g.objects ==> o in g'.objects && (o !in si ==> SameButRefs(g.objects[o], g'.objects[o])))
  }

  /**
   The invariant of the linker, while `idle` libraries have no reference yet and `active` ones are being constructed.
   */
  ghost predicate Sound(g: Graph, idle: set<Id>, active: set<Id>, faulted: bool, history: map<Id, So>,
      events: seq<Event>) {
    Ok(g) && Positive(g, idle) && (!faulted ==> Orderly(g.objects, history, events, g.nextId, active))
  }

  ghost function LoadedNames(objects: map<Id, So>): (r: set<string>) {
    set id | id in objects :: objects[id].name
  }

  /**
   Releasing `spent`: on success exactly these claims are gone, on failure at most these; objects go, but keep all but
   their counts.
   */
  ghost predicate Released(g: Graph, g': Graph, spent: multiset<Id>, code: int, faulted: bool, faulted': bool,
      events: seq<Event>, events': seq<Event>)
  {
    && (code == 0 || code == -1)
    && (code == 0 ==> g'.claims == g.claims - spent)
    && (code != 0 ==> faulted')
    && (faulted ==> faulted')
    && KeepsClaims(g.claims, spent, g'.claims)
    && ShrunkTo(g.objects, g'.objects)
    && events <= events'
  }

  /**
   Unloading: a release that is not the last only counts down; the last one runs the finalizers before anything else
   happens.
   */
  ghost predicate UnloadedOne(g: Graph, g': Graph, si: Id, code: int, faulted: bool, faulted': bool, events: seq<Event>,
      events': seq<Event>)
    requires si in g.objects
  {
    if g.objects[si].Host() || g.objects[si].refs > 1 then
      code == 0 && events' == events && faulted' == faulted && g.objects[si].refs > 0 && g' == Drop(g, si)
    else
      code == 0 ==> si !in g'.objects && events + [Fini(si, FiniFns(g.objects[si].source))] <= events'
  }

  lemma AfterRelease(g: Graph, si: Id, faulted: bool, events: seq<Event>)
    requires si in g.objects && g.objects[si].refs > 0 && (g.objects[si].Host() || g.objects[si].refs > 1)
    ensures Released(g, Drop(g, si), multiset{si}, 0, faulted, faulted, events, events)
    ensures UnloadedOne(g, Drop(g, si), si, 0, faulted, faulted, events, events)
  {
  }

  lemma AfterFault(g: Graph, si: Id, faulted: bool, events: seq<Event>)
    requires si in g.objects && !g.objects[si].Host() && g.objects[si].refs <= 1
    ensures Released(g, g, multiset{si}, -1, faulted, true, events, events)
    ensures UnloadedOne(g, g, si, -1, faulted, true, events, events)
  {
  }

  lemma RemovedClaims(g: Graph, si: Id)
    requires si in g.objects
    ensures multiset(g.objects[si].needed) <= Remove(g, si).claims && Remove(g, si).rank == g.rank
  {
  }

  lemma AfterFree(g: Graph, g': Graph, si: Id, code: int, faulted: bool, faulted': bool, events: seq<Event>,
      freed: seq<Event>, events': seq<Event>)
    requires si in g.objects && g.claims[si] == 1 && g.objects[si].refs == 1 && !g.objects[si].Host()
    requires freed == events + [Fini(si, FiniFns(g.objects[si].source))]
    requires Released(Remove(g, si), g', multiset(g.objects[si].needed), code, faulted, faulted', freed, events')
    ensures Released(g, g', multiset{si}, code, faulted, faulted', events, events')
    ensures UnloadedOne(g, g', si, code, faulted, faulted', events, events')
  {
    hide Without, FiniFns;
    FreedClaims(g, si, Remove(g, si).claims, g'.claims);
    FreedShrunk(g.objects, si, g'.objects);
    hide KeepsClaims, ShrunkTo;
  }

  lemma FreedShrunk(objects: map<Id, So>, si: Id, objects': map<Id, So>)
    requires si in objects && !objects[si].Host() && ShrunkTo(objects - {si}, objects')
    ensures ShrunkTo(objects, objects') && si !in objects'
  {
  }

  lemma NothingReleased(g: Graph, deps: seq<Id>, faulted: bool, events: seq<Event>)
    ensures Released(g, g, multiset(deps[..0]), 0, faulted, faulted, events, events)
  {
    assert deps[..0] == [];
  }

  lemma NextHeld(g: Graph, mid: Graph, deps: seq<Id>, i: nat, faulted: bool, faulted': bool, events: seq<Event>,
      events': seq<Event>)
    requires i < |deps| && multiset(deps) <= g.claims
    requires Released(g, mid, multiset(deps[..i]), 0, faulted, faulted', events, events')
    ensures deps[i] in mid.claims
  {
    assert deps[..i + 1] == deps[..i] + [deps[i]];
    assert deps == deps[..i + 1] + deps[i + 1..];
    hide ShrunkTo, KeepsClaims;
  }

  lemma ReleasedNext(g: Graph, mid: Graph, g': Graph, deps: seq<Id>, i: nat, code: int, faulted: bool, midFaulted: bool,
      faulted': bool, events: seq<Event>, midEvents: seq<Event>, events': seq<Event>)
    requires i < |deps|
    requires Released(g, mid, multiset(deps[..i]), 0, faulted, midFaulted, events, midEvents)
    requires Released(mid, g', multiset{deps[i]}, code, midFaulted, faulted', midEvents, events')
    ensures Released(g, g', if code == 0 then multiset(deps[..i + 1]) else multiset(deps), code, faulted, faulted',
      events, events')
  {
    assert deps[..i + 1] == deps[..i] + [deps[i]];
    assert deps == deps[..i + 1] + deps[i + 1..];
    ShrunkTrans(g.objects, mid.objects, g'.objects);
    var spent := multiset(deps[..i]);
    assert multiset(deps[..i + 1]) == spent + multiset{deps[i]};
    KeepsMore(g.claims, spent, mid.claims, multiset{deps[i]}, g'.claims, multiset(deps[i + 1..]));
    hide ShrunkTo, KeepsClaims;
  }

  lemma KeepsMore(before: multiset<Id>, a: multiset<Id>, mid: multiset<Id>, b: multiset<Id>, now: multiset<Id>,
      c: multiset<Id>)
    requires KeepsClaims(before, a, mid) && KeepsClaims(mid, b, now)
    ensures KeepsClaims(before, a + b, now) && KeepsClaims(before, a + b + c, now)
    ensures mid == before - a && now == mid - b ==> now == before - (a + b)
  {
    forall x ensures now[x] + (a + b)[x] >= before[x] && now[x] + (a + b + c)[x] >= before[x] {
      assert mid[x] + a[x] >= before[x] && now[x] + b[x] >= mid[x];
    }
  }

  /** Only counts changed, and objects may have gone, except host libraries. */
  ghost predicate ShrunkTo(objects: map<Id, So>, objects': map<Id, So>) {
    && (forall o :: o in objects' ==> o in objects && SameButRefs(objects[o], objects'[o]))
    && forall o :: o in objects && objects[o].Host() ==> o in objects'
  }

  lemma ShrunkTrans(a: map<Id, So>, b: map<Id, So>, c: map<Id, So>)
    requires (a == b || ShrunkTo(a, b)) && (b == c || ShrunkTo(b, c))
    ensures ShrunkTo(a, c)
  {
  }

  /** At most the claims in `spent` are gone. */
  ghost predicate KeepsClaims(before: multiset<Id>, spent: multiset<Id>, now: multiset<Id>) {
    forall x :: now[x] + spent[x] >= before[x]
  }

  /** Freeing a library turns its last claim into claims on what it needed; releasing those leaves the rest. */
  lemma FreedClaims(g: Graph, si: Id, held: multiset<Id>, now: multiset<Id>)
    requires si in g.objects && g.claims[si] == 1 && held == Remove(g, si).claims
    requires KeepsClaims(held, multiset(g.objects[si].needed), now)
    ensures KeepsClaims(g.claims, multiset{si}, now)
    ensures now == held - multiset(g.objects[si].needed) ==> now == g.claims - multiset{si}
  {
    hide Without;
  }

  // ---- The invariant under each elementary change -----------------------------------------------

  lemma SoundClaim(g: Graph, idle: set<Id>, faulted: bool, history: map<Id, So>, events: seq<Event>, si: Id)
    requires Sound(g, idle, {}, faulted, history, events) && si in g.claims
    ensures si in g.objects && g.objects[si].linked && g.objects[si].refs >= g.claims[si] > 0
  {
    ClaimHeld(g, si);
  }

  lemma SoundListed(g: Graph, faulted: bool, history: map<Id, So>, events: seq<Event>, si: Id)
    requires Sound(g, {}, {}, faulted, history, events) && si in g.objects
    ensures Distinct(g.solist) && si in g.solist
  {
  }

  /** What a linked library needs ranks below it. */
  lemma SoundNeeds(g: Graph, faulted: bool, history: map<Id, So>, events: seq<Event>, si: Id)
    requires Sound(g, {}, {}, faulted, history, events) && si in g.objects && g.objects[si].linked
    ensures si in g.rank && forall d :: d in g.objects[si].needed ==>
      d in g.objects && d in g.rank && g.rank[d] < g.rank[si]
  {
    assert ObjectOk(g.objects, g.rank, g.clock, si);
    forall d | d in g.objects[si].needed ensures d in g.objects && d in g.rank && g.rank[d] < g.rank[si] {
      assert EdgeOk(g.objects, g.rank, si, d);
    }
  }

  /** After a failure nothing is claimed about the order of events. */
  lemma SoundFault(g: Graph, active: set<Id>, active': set<Id>, faulted: bool, history: map<Id, So>, events: seq<Event>)
    requires Sound(g, {}, active, faulted, history, events)
    ensures Sound(g, {}, active', true, history, events)
  {
  }

  lemma SoundDrop(g: Graph, faulted: bool, history: map<Id, So>, events: seq<Event>, si: Id)
    requires Sound(g, {}, {}, faulted, history, events) && si in g.claims
    requires si in g.objects ==> g.objects[si].refs > 1 || g.objects[si].Host()
    ensures si in g.objects && g.objects[si].refs > 0 && Sound(Drop(g, si), {}, {}, faulted, history, events)
  {
    hide Ok, Orderly;
    DropKeeps(g, si);
    assert Positive(Drop(g, si), {});
    hide Positive;
    if !faulted { OrderlyShape(g.objects, Drop(g, si).objects, history, events, g.nextId, {}); }
  }

  lemma SoundRemove(g: Graph, faulted: bool, history: map<Id, So>, events: seq<Event>, si: Id)
    requires Sound(g, {}, {}, faulted, history, events) && si in g.claims
    requires si in g.objects && g.objects[si].refs == 1 && g.objects[si].linked
    ensures Sound(Remove(g, si), {}, {}, faulted, history, events + [Fini(si, FiniFns(g.objects[si].source))])
  {
    RemoveKeeps(g, si);
    NeedsLinked(g);
    hide Ok, Orderly;
    if !faulted { OrderlyRemove(g.objects, history, events, g.nextId, si); }
  }

  lemma NeedsLinked(g: Graph)
    requires Ok(g)
    ensures AllNeedsLinked(g.objects)
  {
    forall o, d | o in g.objects && d in g.objects[o].needed ensures d in g.objects && g.objects[d].linked {
      assert ObjectOk(g.objects, g.rank, g.clock, o);
      assert EdgeOk(g.objects, g.rank, o, d);
    }
  }

  lemma SoundAddRef(g: Graph, faulted: bool, history: map<Id, So>, events: seq<Event>, id: Id)
    requires Sound(g, {id}, {}, faulted, history, events) && id in g.objects && g.objects[id].linked
    ensures Sound(AddRef(g, id), {}, {}, faulted, history, events)
  {
    hide Ok, Orderly;
    AddRefKeeps(g, id);
    assert Positive(AddRef(g, id), {});
    hide Positive;
    if !faulted { OrderlyShape(g.objects, AddRef(g, id).objects, history, events, g.nextId, {}); }
  }

  lemma FreshId(g: Graph)
    requires Ok(g)
    ensures g.nextId !in g.objects
  {
    hide Edges, Acyclic, Counted;
  }

  lemma NeedParts(g: Graph, si: Id, d: Id)
    requires si in g.objects
    ensures Need(g, si, d).objects == WithNeeded(g.objects, si, d) && Need(g, si, d).nextId == g.nextId
  {
  }

  lemma PositiveNeed(g: Graph, si: Id, d: Id)
    requires Positive(g, {}) && si in g.objects
    ensures Positive(Need(g, si, d), {})
  {
  }

  lemma SoundPush(g: Graph, faulted: bool, history: map<Id, So>, events: seq<Event>, so: So)
    requires Sound(g, {}, {}, faulted, history, events) && NameFree(g.objects, so.name)
    requires !so.Host() && !so.linked && so.refs == 0 && so.needed == [] && !so.constructed
    ensures Sound(Push(g, so), {}, {}, faulted, history, events) && g.nextId !in g.objects
  {
    hide Ok, Orderly, NameFree;
    FreshId(g);
    PushKeeps(g, so);
    if !faulted { OrderlyPush(g.objects, history, events, g.nextId, so); }
  }

  lemma SoundPushHost(g: Graph, faulted: bool, history: map<Id, So>, events: seq<Event>, so: So)
    requires Sound(g, {}, {}, faulted, history, events) && NameFree(g.objects, so.name)
    requires so.Host() && so.linked && so.refs == 0 && so.needed == [] && !so.constructed
    ensures Sound(PushHost(g, so), {}, {}, faulted, history[g.nextId := so], events) && g.nextId !in g.objects
  {
    hide Ok, Orderly, NameFree;
    FreshId(g);
    PushHostKeeps(g, so);
    if !faulted { OrderlyPush(g.objects, history, events, g.nextId, so); }
  }

  lemma SoundNeed(g: Graph, faulted: bool, history: map<Id, So>, events: seq<Event>, si: Id, d: Id)
    requires Sound(g, {}, {}, faulted, history, events) && si in g.objects && !g.objects[si].linked && d in g.claims
    ensures Sound(Need(g, si, d), {}, {}, faulted, history, events)
  {
    hide Ok, Orderly;
    NeedKeeps(g, si, d);
    PositiveNeed(g, si, d);
    hide Positive, Need;
    assert Need(g, si, d).objects == WithNeeded(g.objects, si, d) && Need(g, si, d).nextId == g.nextId by {
      NeedParts(g, si, d);
    }
    if !faulted { OrderlyNeed(g.objects, history, events, g.nextId, si, d); }
  }

  lemma SoundLink(g: Graph, faulted: bool, history: map<Id, So>, events: seq<Event>, si: Id)
    requires Sound(g, {}, {}, faulted, history, events) && si in g.objects && !g.objects[si].linked
    ensures Sound(Link(g, si), {si}, {}, faulted, history[si := g.objects[si]], events)
  {
    LinkKeeps(g, si);
    NeedsLinked(g);
    assert si < g.nextId;
    hide Ok, Orderly;
    if !faulted { OrderlyLink(g.objects, history, events, g.nextId, si); }
  }

  /** Nobody refers to a library that is not linked. */
  lemma UnlinkedIdle(g: Graph, faulted: bool, history: map<Id, So>, events: seq<Event>, si: Id)
    requires Sound(g, {}, {}, faulted, history, events) && si in g.objects && !g.objects[si].linked
    ensures g.objects[si].refs == 0
  {
    NotLive(g, si);
    assert |Edges(g.objects, si)| == 0;
  }

  /** Freeing a library that nobody refers to, without finalizing it. */
  lemma SoundAbandon(g: Graph, faulted: bool, history: map<Id, So>, events: seq<Event>, si: Id)
    requires Sound(g, {si}, {}, faulted, history, events) && si in g.objects && g.objects[si].refs == 0
    ensures Sound(Remove(g, si), {}, {}, faulted, history, events)
    ensures si !in g.claims
  {
    RemoveKeeps(g, si);
    LastReference(g, si);
    hide Ok, Orderly;
    if !faulted { OrderlyAbandon(g.objects, history, events, g.nextId, si); }
  }

  // ---- A failed load ---------------------------------------------------------------------------

  /** The state `g` of a load of `si` that began in `g0`. */
  ghost predicate Began(g0: Graph, g: Graph, si: Id) {
    && si !in g0.objects && g0.solist + [si] <= g.solist && si in g.objects
    && (forall o :: o in g0.objects ==> o in g.objects && SameButRefs(g0.objects[o], g.objects[o]))
    && g.claims == g0.claims
    && g.somain == if g0.somain.None? then Some(si) else g0.somain
  }

  /** `g0` again, except that `pending` references on its libraries have yet to be given back. */
  ghost predicate Restoring(g0: Graph, g: Graph, pending: multiset<Id>) {
    && g.solist == g0.solist && g.somain == g0.somain && g.objects.Keys == g0.objects.Keys
    && (forall o :: o in g0.objects ==> SameButRefs(g0.objects[o], g.objects[o]))
    && g.claims == g0.claims + pending
  }

  /** If the failed library is the last in the list, only older libraries are left. */
  lemma BackToBefore(g0: Graph, g: Graph, si: Id)
    requires Ok(g0) && Ok(g) && Began(g0, g, si) && g.solist[|g.solist| - 1] == si && g.objects[si].refs == 0
    ensures Restoring(g0, Remove(g, si), multiset(g.objects[si].needed))
    ensures Remove(g, si).solist == g.solist[..|g.solist| - 1]
  {
    hide Ok, Without;
    LastReference(g, si);
    BackParts(g0, g, si);
    assert g.claims[si := 0] == g.claims;
  }

  lemma BackParts(g0: Graph, g: Graph, si: Id)
    requires Ok(g0) && Ok(g) && Began(g0, g, si) && g.solist[|g.solist| - 1] == si
    ensures Without(g.solist, si) == g0.solist == g.solist[..|g.solist| - 1]
    ensures (g.objects - {si}).Keys == g0.objects.Keys
    ensures (if g.somain == Some(si) then None else g.somain) == g0.somain
  {
    hide Edges, Acyclic, Counted;
    OnlyNewest(g0.solist, g.solist, si);
    WithoutAt(g.solist, |g0.solist|);
    hide Without;
    assert g0.somain.Some? ==> g0.somain.value != si;
    hide Listed;
    SameKeys(g0, g, si);
  }

  lemma SameKeys(g0: Graph, g: Graph, si: Id)
    requires Ok(g0) && Ok(g) && g.solist == g0.solist + [si] && si !in g0.objects
    ensures (g.objects - {si}).Keys == g0.objects.Keys
  {
    hide Edges, Acyclic, Counted;
    forall id ensures id in (g.objects - {si}).Keys <==> id in g0.objects {
      assert id in g.objects <==> id in g.solist;
      assert id in g.solist <==> id in g0.solist || id == si;
    }
  }

  lemma OnlyNewest(older: seq<Id>, list: seq<Id>, si: Id)
    requires Distinct(list) && older + [si] <= list && list[|list| - 1] == si
    ensures list == older + [si] && list[|older|] == si && list[..|older|] == older && list[|older| + 1..] == []
  {
    assert list[|older|] == si;
  }

  /** Giving back a reference taken since `g0` never frees anything: the library was referred to before. */
  lemma NotTheLast(g0: Graph, g: Graph, deps: seq<Id>, i: nat)
    requires Ok(g0) && Ok(g) && Positive(g0, {}) && i < |deps| && Restoring(g0, g, multiset(deps[i..]))
    ensures deps[i] in g.claims && deps[i] in g.objects && g.objects[deps[i]].refs > 0
    ensures g.objects[deps[i]].refs > 1 || g.objects[deps[i]].Host()
    ensures Restoring(g0, Drop(g, deps[i]), multiset(deps[i + 1..]))
  {
    hide Ok;
    var d := deps[i];
    assert deps[i..] == [d] + deps[i + 1..];
    ClaimHeld(g, d);
    RefsMoved(g0, g, d);
  }

  /** With the same edges, counts differ as claims do. */
  lemma RefsMoved(g0: Graph, g: Graph, d: Id)
    requires Ok(g0) && Ok(g) && d in g0.objects && g.objects.Keys == g0.objects.Keys
    requires forall o :: o in g0.objects ==> SameButRefs(g0.objects[o], g.objects[o])
    ensures g.objects[d].refs - g.claims[d] == g0.objects[d].refs - g0.claims[d]
  {
    hide Edges, Acyclic, Listed;
    EdgesSame(g0.objects, g.objects, d);
  }

  lemma Restored(g0: Graph, g: Graph)
    requires Ok(g0) && Ok(g) && Restoring(g0, g, multiset{})
    ensures g.objects == g0.objects && g.claims == g0.claims
  {
    CountsDetermined(g0, g);
  }

  // ---- A load in progress ----------------------------------------------------------------------

  /**
   Since `g`, the library `si` has collected needs and perhaps become linked; others have changed in their counts or
   are new.
   */
  ghost predicate Progress(g: Graph, g': Graph, si: Id) {
    && GrownBut(g, g', {si}) && g'.claims == g.claims && si in g.objects && si in g'.objects
    && g'.objects[si] == g.objects[si].(refs := g'.objects[si].refs, needed := g'.objects[si].needed,
      linked := g'.objects[si].linked)
  }

  /** What find_library does. */
  ghost predicate FindEffect(g: Graph, g': Graph, name: string, r: Found) {
    match r
    case Loaded(id) =>
      GrownBut(g, g', {}) && id in g'.objects && g'.objects[id].linked && g'.objects[id].name == name
        && g'.claims == g.claims + multiset{id}
    case Failed => g'.objects == g.objects && g'.solist == g.solist && g'.somain == g.somain && g'.claims == g.claims
    case Dangling => ListsFreed(g')
  }

  /** The list holds an object that has been freed. */
  ghost predicate ListsFreed(g: Graph) {
    exists o :: o in g.solist && o !in g.objects
  }

  lemma ProgressStart(g: Graph, si: Id)
    requires si in g.objects
    ensures Progress(g, g, si)
  {
  }

  lemma ProgressFailed(g: Graph, mid: Graph, g': Graph, si: Id, name: string)
    requires Progress(g, mid, si) && FindEffect(mid, g', name, Failed)
    ensures Progress(g, g', si)
  {
  }

  lemma ProgressNeed(g: Graph, mid: Graph, g': Graph, si: Id, name: string, d: Id)
    requires Progress(g, mid, si) && FindEffect(mid, g', name, Loaded(d))
    ensures si in g'.objects && d in g'.claims && g'.objects[si].linked == mid.objects[si].linked
    ensures Progress(g, Need(g', si, d), si)
  {
    assert Need(g', si, d).claims == mid.claims;
  }

  lemma ProgressLink(g: Graph, g': Graph, si: Id)
    requires Progress(g, g', si)
    ensures Progress(g, Link(g', si), si)
  {
  }

  lemma ProgressTrans(a: Graph, b: Graph, c: Graph, si: Id)
    requires Progress(a, b, si) && Progress(b, c, si)
    ensures Progress(a, c, si)
  {
  }

  /** Once begun, progress keeps a load begun. */
  lemma StillBegun(g0: Graph, g: Graph, g': Graph, si: Id)
    requires Began(g0, g, si) && Progress(g, g', si)
    ensures Began(g0, g', si)
  {
  }

  lemma PushBegins(g: Graph, so: So)
    requires g.nextId !in g.objects
    ensures Began(g, Push(g, so), g.nextId)
  {
  }

  /** Names stay loaded. */
  lemma NamesStay(g: Graph, g': Graph, si: Id)
    requires Progress(g, g', si)
    ensures LoadedNames(g.objects) <= LoadedNames(g'.objects)
  {
  }

  lemma NameAdded(objects: map<Id, So>, id: Id, so: So)
    requires id !in objects
    ensures LoadedNames(objects[id := so]) == LoadedNames(objects) + {so.name}
  {
    var objects' := objects[id := so];
    forall n ensures n in LoadedNames(objects') <==> n in LoadedNames(objects) || n == so.name {
      if n == so.name { assert objects'[id].name == n; }
      if n in LoadedNames(objects) {
        var o :| o in objects && objects[o].name == n;
        assert objects'[o].name == n;
      }
    }
  }

  lemma NameIsFree(objects: map<Id, So>, name: string)
    ensures NameFree(objects, name) <==> name !in LoadedNames(objects)
  {
  }

  lemma FoundNothing(g: Graph, name: string)
    ensures FindEffect(g, g, name, Failed)
  {
  }

  lemma SoundIdle(g: Graph, faulted: bool, history: map<Id, So>, events: seq<Event>, id: Id)
    requires Sound(g, {}, {}, faulted, history, events)
    ensures Sound(g, {id}, {}, faulted, history, events)
  {
    hide Ok, Orderly;
  }

  /** What a successful load_library does. */
  ghost predicate LoadEffect(g: Graph, g': Graph, name: string, id: Id) {
    GrownBut(g, g', {}) && id in g'.objects && g'.objects[id].linked && g'.objects[id].name == name
      && g'.claims == g.claims
  }

  lemma AlreadyLoaded(g: Graph, name: string, id: Id)
    requires id in g.objects && g.objects[id].linked && g.objects[id].name == name
    ensures LoadEffect(g, g, name, id)
  {
  }

  lemma HostLoaded(g: Graph, so: So)
    requires g.nextId !in g.objects && so.linked
    ensures LoadEffect(g, PushHost(g, so), so.name, g.nextId)
  {
  }

  lemma LoadedWhole(g: Graph, so: So, g': Graph)
    requires g.nextId !in g.objects && Progress(Push(g, so), g', g.nextId) && g'.objects[g.nextId].linked
    ensures LoadEffect(g, g', so.name, g.nextId)
  {
  }

  /** Referring to a loaded library completes find_library. */
  lemma FoundLoaded(g: Graph, mid: Graph, name: string, id: Id)
    requires LoadEffect(g, mid, name, id)
    ensures FindEffect(g, AddRef(mid, id), name, Loaded(id))
  {
  }

  lemma LoadedIn(g: Graph, g': Graph, name: string, id: Id)
    requires LoadEffect(g, g', name, id)
    ensures id in g'.objects && g'.objects[id].linked
  {
  }

  lemma DanglingLists(g: Graph, g': Graph, name: string)
    requires FindEffect(g, g', name, Dangling)
    ensures ListsFreed(g')
  {
  }

  lemma SoundParts(g: Graph, idle: set<Id>, faulted: bool, history: map<Id, So>, events: seq<Event>)
    requires Sound(g, idle, {}, faulted, history, events)
    ensures Ok(g) && Positive(g, idle) && Distinct(g.solist)
    ensures forall id :: id in g.objects <==> id in g.solist
  {
    hide Orderly, Edges, Acyclic, Counted;
  }

  lemma ProgressHas(g: Graph, g': Graph, si: Id)
    requires Progress(g, g', si)
    ensures si in g.objects && si in g'.objects && g'.objects[si].name == g.objects[si].name
      && g'.objects[si].source == g.objects[si].source
  {
  }

  lemma NotInList(objects: map<Id, So>, solist: seq<Id>, name: string)
    requires forall id :: id in objects <==> id in solist
    requires forall j :: 0 <= j < |solist| ==> objects[solist[j]].name != name
    ensures NameFree(objects, name)
  {
  }

  /** The error path of load_library: what is listed afterwards, and what is not. */
  lemma PopBackDangles(g: Graph, si: Id)
    requires Distinct(g.solist) && si in g.solist && g.solist[|g.solist| - 1] != si
    ensures si in g.solist[..|g.solist| - 1] && g.solist[..|g.solist| - 1] != Without(g.solist, si)
  {
    PopBackIff(g.solist, si);
    var i :| 0 <= i < |g.solist| && g.solist[i] == si;
    assert g.solist[..|g.solist| - 1][i] == si;
  }

  /** Some of these names are not loaded. */
  ghost predicate AnyMissing(names: seq<string>, loaded: set<string>) {
    exists n :: n in names && n !in loaded
  }

  lemma MissingAt(names: seq<string>, i: nat, loaded: set<string>, now: set<string>)
    requires i < |names| && names[i] !in now && loaded <= now
    ensures AnyMissing(names, loaded)
  {
    assert names[i] in names;
  }

  lemma MissingBefore(names: seq<string>, loaded: set<string>, name: string)
    requires AnyMissing(names, loaded + {name})
    ensures AnyMissing(names, loaded)
  {
  }

  lemma FailedList(g: Graph, g': Graph, name: string)
    requires FindEffect(g, g', name, Failed)
    ensures g'.solist == g.solist && g'.objects == g.objects
  {
  }

  lemma PoppedLast(g: Graph, si: Id)
    requires si in g.objects && g.solist != [] && g.solist[|g.solist| - 1] == si && Distinct(g.solist)
      && si !in g.claims
    ensures Remove(g, si) == g.(objects := g.objects - {si}, solist := g.solist[..|g.solist| - 1],
      claims := g.claims + multiset(g.objects[si].needed), somain := if g.somain == Some(si) then None else g.somain)
  {
    WithoutAt(g.solist, |g.solist| - 1);
  }

  lemma AllListed(objects: map<Id, So>, solist: seq<Id>)
    requires forall id :: id in objects <==> id in solist
    ensures forall j :: 0 <= j < |solist| ==> solist[j] in objects
  {
    forall j | 0 <= j < |solist| ensures solist[j] in objects { assert solist[j] in solist; }
  }

  lemma NothingYet(g: Graph, si: Id, faulted: bool, history: map<Id, So>, events: seq<Event>)
    requires Sound(g, {}, {}, faulted, history, events) && si in g.objects && !g.objects[si].linked
    ensures Sound(g, {si}, {}, faulted, history, events) && g.objects[si].refs == 0 && Progress(g, g, si)
  {
    SoundIdle(g, faulted, history, events, si);
    UnlinkedIdle(g, faulted, history, events, si);
    ProgressStart(g, si);
  }

  /** The two ways a failed load can go. */
  lemma AbandonCases(before: Graph, g: Graph, si: Id, faulted: bool, history: map<Id, So>, events: seq<Event>)
    requires Ok(before) && Positive(before, {}) && Began(before, g, si)
    requires Sound(g, {si}, {}, faulted, history, events) && g.objects[si].refs == 0
    ensures si in g.objects && g.solist != []
    ensures g.solist[|g.solist| - 1] == si ==>
      && Remove(g, si) == g.(objects := g.objects - {si}, solist := g.solist[..|g.solist| - 1],
           claims := g.claims + multiset(g.objects[si].needed), somain := if before.somain.None? then None
             else g.somain)
      && Sound(Remove(g, si), {}, {}, faulted, history, events)
      && Restoring(before, Remove(g, si), multiset(g.objects[si].needed))
    ensures g.solist[|g.solist| - 1] != si ==>
      si in g.solist[..|g.solist| - 1] && g.solist[..|g.solist| - 1] != Without(g.solist, si)
  {
    hide Orderly, Edges, Acyclic, Counted;
    SoundAbandon(g, faulted, history, events, si);
    assert Distinct(g.solist) && si in g.solist;
    assert before.somain.Some? ==> before.somain.value != si;
    hide Listed, Positive, Sound;
    if g.solist[|g.solist| - 1] == si {
      BackToBefore(before, g, si);
      PoppedLast(g, si);
    } else {
      PopBackDangles(g, si);
    }
  }

  // ---- Construction ----------------------------------------------------------------------------

  ghost function Flag(g: Graph, si: Id): (r: Graph)
    requires si in g.objects
  {
    g.(objects := g.objects[si := g.objects[si].(constructed := true)])
  }

  /** Only constructor flags are raised. */
  ghost predicate Flagged(g: Graph, g': Graph) {
    && g' == g.(objects := g'.objects) && g'.objects.Keys == g.objects.Keys
    && forall o :: o in g.objects ==>
         g'.objects[o] == g.objects[o].(constructed := g'.objects[o].constructed)
           && (g.objects[o].constructed ==> g'.objects[o].constructed)
  }

  lemma FlaggedTrans(a: Graph, b: Graph, c: Graph)
    requires (a == b || Flagged(a, b)) && (b == c || Flagged(b, c))
    ensures Flagged(a, c)
  {
  }

  lemma FlaggedHas(g: Graph, g': Graph, id: Id)
    requires Flagged(g, g') && id in g.objects
    ensures id in g'.objects && (g.objects[id].constructed ==> g'.objects[id].constructed)
    ensures g'.objects[id] == g.objects[id].(constructed := g'.objects[id].constructed)
  {
  }

  /** All objects are still there, changed at most in their counts and constructor flags. */
  ghost predicate KeptFrom(g: Graph, g': Graph) {
    forall o :: o in g.objects ==>
      && o in g'.objects && (g.objects[o].constructed ==> g'.objects[o].constructed)
      && g'.objects[o] == g.objects[o].(refs := g'.objects[o].refs, constructed := g'.objects[o].constructed)
  }

  lemma FoundThenFlagged(g: Graph, mid: Graph, g': Graph, name: string, id: Id)
    requires FindEffect(g, mid, name, Loaded(id)) && (mid == g' || Flagged(mid, g'))
    ensures KeptFrom(g, g') && KeptFrom(mid, g') && g'.objects.Keys == mid.objects.Keys
  {
  }

  lemma OpenedIn(g: Graph, g': Graph, name: string, id: Id)
    requires FindEffect(g, g', name, Loaded(id))
    ensures id in g'.objects && g'.objects[id].linked && g'.objects[id].name == name
      && g'.claims == g.claims + multiset{id} && g.solist <= g'.solist
  {
  }

  lemma Ranked(g: Graph, faulted: bool, history: map<Id, So>, events: seq<Event>, id: Id)
    requires Sound(g, {}, {}, faulted, history, events) && id in g.objects && g.objects[id].linked
    ensures id in g.rank
  {
    NeedsBelow(g, {}, faulted, history, events, id);
  }

  /** While no constructor has failed, a library counts as constructed exactly if its constructors have run. */
  lemma ConstructedHasInit(g: Graph, history: map<Id, So>, events: seq<Event>, id: Id)
    requires Sound(g, {}, {}, false, history, events) && id in g.objects
    ensures g.objects[id].constructed <==> HasInit(events, id)
  {
    hide Ok, Positive;
  }

  lemma SoundBegin(g: Graph, active: set<Id>, faulted: bool, history: map<Id, So>, events: seq<Event>, si: Id)
    requires Sound(g, {}, active, faulted, history, events) && si in g.objects && !g.objects[si].constructed
    ensures Sound(Flag(g, si), {}, active + {si}, faulted, history, events) && Flagged(g, Flag(g, si))
  {
    hide Orderly, Listed, Acyclic, Counted, Edges;
    ClaimsLive(g);
    ShapeKept(g, Flag(g, si).objects);
    Recount(g.objects, g.claims, Flag(g, si).objects, g.claims);
    if !faulted { OrderlyBegin(g.objects, history, events, g.nextId, active, si); }
  }

  lemma SoundInit(g: Graph, active: set<Id>, faulted: bool, history: map<Id, So>, events: seq<Event>, si: Id)
    requires Sound(g, {}, active + {si}, faulted, history, events) && si in g.objects && g.objects[si].linked
    requires Above(g.rank, active, si) && AllConstructed(g.objects, g.objects[si].needed, |g.objects[si].needed|)
    ensures Sound(g, {}, active, faulted, history, events + [Init(si, InitFns(g.objects[si].source))])
  {
    NeedsBelow(g, active + {si}, faulted, history, events, si);
    hide Ok, Orderly;
    if !faulted { OrderlyInit(g.objects, history, events, g.nextId, active, si); }
  }

  /** What a linked library needs ranks below it. */
  lemma NeedsBelow(g: Graph, active: set<Id>, faulted: bool, history: map<Id, So>, events: seq<Event>, si: Id)
    requires Sound(g, {}, active, faulted, history, events) && si in g.objects && g.objects[si].linked
    ensures si in g.rank && forall d :: d in g.objects[si].needed ==>
      d in g.objects && g.objects[d].linked && d in g.rank && g.rank[d] < g.rank[si]
  {
    hide Orderly, Listed, Counted;
    assert ObjectOk(g.objects, g.rank, g.clock, si);
    forall d | d in g.objects[si].needed ensures d in g.objects && g.objects[d].linked && d in g.rank
      && g.rank[d] < g.rank[si] {
      assert EdgeOk(g.objects, g.rank, si, d);
    }
  }

  /** The libraries in `active` come after `si`. */
  ghost predicate Above(rank: map<Id, nat>, active: set<Id>, si: Id) {
    si in rank && forall a :: a in active ==> a in rank && rank[si] < rank[a]
  }

  ghost predicate AllBelow(g: Graph, si: Id, needed: seq<Id>) {
    si in g.rank && forall d :: d in needed ==>
      d in g.objects && g.objects[d].linked && d in g.rank && g.rank[d] < g.rank[si]
  }

  ghost predicate AllConstructed(objects: map<Id, So>, needed: seq<Id>, n: nat) {
    n <= |needed| && forall j :: 0 <= j < n ==> needed[j] in objects && objects[needed[j]].constructed
  }

  lemma BelowAll(g: Graph, active: set<Id>, faulted: bool, history: map<Id, So>, events: seq<Event>, si: Id)
    requires Sound(g, {}, active, faulted, history, events) && si in g.objects && g.objects[si].linked
    ensures AllBelow(g, si, g.objects[si].needed)
  {
    NeedsBelow(g, active, faulted, history, events, si);
    hide Sound;
  }

  /** The first `i` needs are constructed. */
  ghost predicate NeedsDone(g: Graph, g': Graph, needed: seq<Id>, i: nat, f0: bool, f1: bool, e0: seq<Event>,
      e1: seq<Event>) {
    Ran(g, g', true, f0, f1, e0, e1) && AllConstructed(g'.objects, needed, i)
  }

  lemma NoNeedsYet(g: Graph, needed: seq<Id>, faulted: bool, events: seq<Event>)
    ensures NeedsDone(g, g, needed, 0, faulted, faulted, events, events)
  {
    RanNothing(g, faulted, events);
  }

  lemma NextNeed(g: Graph, mid: Graph, active: set<Id>, si: Id, needed: seq<Id>, i: nat, f0: bool, f1: bool,
      e0: seq<Event>, e1: seq<Event>)
    requires AllBelow(g, si, needed) && NeedsDone(g, mid, needed, i, f0, f1, e0, e1) && Above(g.rank, active, si)
      && i < |needed|
    ensures needed[i] in mid.objects && mid.objects[needed[i]].linked && Above(mid.rank, active + {si}, needed[i])
    ensures mid.rank[needed[i]] < mid.rank[si]
  {
    assert needed[i] in needed;
    FlaggedHas(g, mid, needed[i]);
    assert mid.rank == g.rank;
  }

  lemma NeedStep(g: Graph, mid: Graph, g': Graph, needed: seq<Id>, i: nat, ok: bool, f0: bool, f1: bool, f2: bool,
      e0: seq<Event>, e1: seq<Event>, e2: seq<Event>)
    requires NeedsDone(g, mid, needed, i, f0, f1, e0, e1) && Ran(mid, g', ok, f1, f2, e1, e2) && i < |needed|
    requires ok ==> needed[i] in g'.objects && g'.objects[needed[i]].constructed
    ensures if ok then NeedsDone(g, g', needed, i + 1, f0, f2, e0, e2) else Ran(g, g', false, f0, f2, e0, e2) && f2
  {
    RanTrans(g, mid, g', ok, f0, f1, f2, e0, e1, e2);
    if ok {
      forall j | 0 <= j < i ensures needed[j] in g'.objects && g'.objects[needed[j]].constructed {
        FlaggedHas(mid, g', needed[j]);
      }
    }
  }

  lemma NeedsAllDone(g: Graph, g': Graph, needed: seq<Id>, f0: bool, f1: bool, e0: seq<Event>, e1: seq<Event>)
    requires NeedsDone(g, g', needed, |needed|, f0, f1, e0, e1)
    ensures Ran(g, g', true, f0, f1, e0, e1) && AllConstructed(g'.objects, needed, |needed|)
  {
  }

  /** The first library of the list with this handle. */
  function FirstWith(objects: map<Id, So>, solist: seq<Id>, handle: uint32): (r: Option<Id>) {
    if solist == [] then None
    else if solist[0] in objects && objects[solist[0]].bias == handle then Some(solist[0])
    else FirstWith(objects, solist[1..], handle)
  }

  /**
   A library has been opened: one more claim; and either a handle and, for a file, finished constructors, or no handle.
   */
  ghost predicate Opened(g: Graph, g': Graph, name: string, id: Id, handle: uint32, faulted: bool, faulted': bool,
      events: seq<Event>) {
    && id in g'.objects && g'.objects[id].linked && g'.objects[id].name == name
    && g'.claims == g.claims + multiset{id} && g.solist <= g'.solist && KeptFrom(g, g')
    && ((handle == g'.objects[id].bias && faulted' == faulted) || (handle == 0 && faulted'))
    && (!faulted' && !g'.objects[id].Host() ==> HasInit(events, id))
  }

  lemma FailedAll(g: Graph, g': Graph, name: string)
    requires FindEffect(g, g', name, Failed)
    ensures g'.objects == g.objects && g'.solist == g.solist && g'.somain == g.somain && g'.claims == g.claims
  {
  }

  /** Constructors ran: flags went up, the log grew, and a failure is remembered. */
  ghost predicate Ran(g: Graph, g': Graph, ok: bool, faulted: bool, faulted': bool, events: seq<Event>,
      events': seq<Event>) {
    Flagged(g, g') && events <= events' && if ok then faulted' == faulted else faulted'
  }

  lemma RanNothing(g: Graph, faulted: bool, events: seq<Event>)
    ensures Ran(g, g, true, faulted, faulted, events, events)
  {
    FlaggedTrans(g, g, g);
  }

  lemma RanTrans(a: Graph, b: Graph, c: Graph, ok: bool, f0: bool, f1: bool, f2: bool, e0: seq<Event>, e1: seq<Event>,
      e2: seq<Event>)
    requires Ran(a, b, true, f0, f1, e0, e1) && Ran(b, c, ok, f1, f2, e1, e2)
    ensures Ran(a, c, ok, f0, f2, e0, e2)
  {
    FlaggedTrans(a, b, c);
    hide Flagged;
  }

  lemma RanHas(g: Graph, g': Graph, id: Id, ok: bool, f0: bool, f1: bool, e0: seq<Event>, e1: seq<Event>)
    requires Ran(g, g', ok, f0, f1, e0, e1) && id in g.objects
    ensures id in g'.objects && g'.objects[id] == g.objects[id].(constructed := g'.objects[id].constructed)
    ensures g.objects[id].constructed ==> g'.objects[id].constructed
    ensures if ok then f1 == f0 else f1
    ensures e0 <= e1
  {
  }
}
