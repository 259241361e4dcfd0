/**
 dlopen and dlclose: loading, linking, constructing and unloading libraries (Runtime/AospLinker/agr_aosp_dynamic.cpp).
 */
module DynamicLinker {
  import opened Prelude
  import opened LinkGraph
  import opened InitOrder
  import opened LinkSteps
  import opened LinkClosure
  import opened LinkDangling
  import opened LinkRestore

  const SELF_HANDLE: uint32 := 0xffff_fffe

  /** `(flags & ~0x103) == 0`: only RTLD_LAZY, RTLD_NOW and RTLD_GLOBAL. */
  predicate FlagsOk(flags: uint32) { flags < 0x200 && flags % 0x100 < 4 }

  /** Those are eight words. */
  lemma GoodFlags(flags: uint32)
    ensures FlagsOk(flags) <==> flags in {0, 1, 2, 3, 0x100, 0x101, 0x102, 0x103}
  {
  }

  class Linker {
    var sources: map<string, Source>
    var objects: map<Id, So>
    var solist: seq<Id>
    var somain: Option<Id>
    var nextId: nat
    ghost var claims: multiset<Id>
    ghost var rank: map<Id, nat>
    ghost var clock: nat
    /** Every library ever linked, the runs of constructors and finalizers, and whether any such function has failed. */
    ghost var history: map<Id, So>
    ghost var events: seq<Event>
    ghost var faulted: bool
    /** How often reading, mapping, relocating or protecting a file has failed. */
    ghost var refusals: nat

    ghost function W(): (r: World)
      reads this
    {
      WorldOf(objects, sources)
    }

    ghost function G(): (r: Graph)
      reads this
    {
      Graph(objects, solist, somain, nextId, claims, rank, clock)
    }

    /** Between calls. */
    ghost predicate Valid()
      reads this
    {
      Sound(G(), {}, {}, faulted, history, events)
    }

    constructor ()
      ensures Valid() && objects == map[] && solist == [] && !faulted && refusals == 0 && sources == map[]
    {
      sources, objects, solist, somain, nextId := map[], map[], [], None, 0;
      claims, rank, clock, history, events, faulted, refusals := multiset{}, map[], 0, map[], [], false, 0;
    }

    /** agr_aosp_dynamic_register. */
    method Register(name: string, source: Source)
      requires Valid()
      modifies this`sources
      ensures Valid() && sources == old(sources)[name := source]
    {
      sources := sources[name := source];
    }

    // ---- Unloading ------------------------------------------------------------------------------

    /** CallFunction: skipped addresses succeed without a call; a call may fail. */
    method CallFunction(fn: uint32) returns (ok: bool, called: seq<uint32>)
      ensures ok ==> called == Runnable([fn])
      ensures !ok ==> !Skipped(fn)
    {
      assert [fn][..0] == [];
      if Skipped(fn) { return true, []; }
      ok := *;
      called := if ok then [fn] else [];
    }

    /** CallArray, forwards or backwards; reading the array may fail as well. */
    method CallArray(table: seq<uint32>, reverse: bool) returns (ok: bool, called: seq<uint32>)
      ensures ok ==> called == Runnable(if reverse then Reversed(table) else table)
    {
      ghost var order := if reverse then Reversed(table) else table;
      called := [];
      var i := if reverse then |table| - 1 else 0;
      ghost var n := 0;
      while i != if reverse then -1 else |table|
        invariant 0 <= n <= |table| && i == if reverse then |table| - 1 - n else n
        invariant called == Runnable(order[..n])
        decreases |table| - n
      {
        ok := *;
        if !ok { return; }
        var more;
        ok, more := CallFunction(table[i]);
        if !ok { return; }
        assert [order[n]][..0] == [] && order[..n + 1][..n] == order[..n];
        called := called + more;
        i := if reverse then i - 1 else i + 1;
        n := n + 1;
      }
      assert order[..n] == order;
      ok := true;
    }

    /** CallDestructors. */
    method CallDestructors(si: Id) returns (ok: bool)
      requires si in objects && !objects[si].Host()
      modifies this`events, this`faulted
      ensures ok ==> events == old(events) + [Fini(si, FiniFns(objects[si].source))] && faulted == old(faulted)
      ensures !ok ==> events == old(events) && faulted
    {
      var source := objects[si].source.value;
      var first, second;
      ok, first := CallArray(source.finiArray, true);
      if ok { ok, second := CallFunction(source.finiFunc); }
      if !ok {
        faulted := true;
        return;
      }
      events := events + [Fini(si, first + second)];
    }

    /** The erase loop of soinfo_unload. */
    method EraseFromList(si: Id)
      requires Distinct(solist) && si in solist
      modifies this`solist
      ensures solist == Without(old(solist), si)
    {
      var i := 0;
      while solist[i] != si
        invariant 0 <= i < |solist| && solist == old(solist) && si in solist[i..]
        decreases |solist| - i
      {
        i := i + 1;
      }
      WithoutAt(solist, i);
      solist := solist[..i] + solist[i + 1..];
    }

    /** soinfo_unload on a library whose last reference is given back: finalize it and free it. */
    method Free(si: Id) returns (ok: bool)
      requires Valid() && si in claims && objects[si].refs == 1 && !objects[si].Host()
      modifies this`objects, this`solist, this`somain, this`claims, this`events, this`faulted
      ensures Valid()
      ensures ok ==> G() == Remove(old(G()), si) && faulted == old(faulted) && si !in objects
      ensures ok ==> events == old(events) + [Fini(si, FiniFns(old(objects)[si].source))]
      ensures !ok ==> G() == old(G()) && events == old(events) && faulted
    {
      ghost var g, before := G(), events;
      hide Sound, Distinct;
      SoundClaim(g, {}, faulted, history, events, si);
      SoundRemove(g, faulted, history, events, si);
      SoundListed(g, faulted, history, events, si);
      ok := CallDestructors(si);
      if !ok {
        SoundFault(g, {}, {}, old(faulted), history, events);
        return;
      }
      Delete(si);
    }

    /** Take the library off the list and free it; its edges become claims. */
    method Delete(si: Id)
      requires si in objects && Distinct(solist) && si in solist
      modifies this`objects, this`solist, this`somain, this`claims
      ensures G() == Remove(old(G()), si)
    {
      ghost var g := G();
      EraseFromList(si);
      if somain == Some(si) { somain := None; }
      claims := claims[si := 0] + multiset(objects[si].needed);
      objects := objects - {si};
      assert G() == Remove(g, si);
    }

    /** A release that is not the last one, or of a host library. */
    method Release(si: Id)
      requires Valid() && si in claims && si in objects && (objects[si].refs > 1 || objects[si].Host())
      modifies this`objects, this`claims
      ensures Valid() && old(objects)[si].refs > 0 && G() == Drop(old(G()), si)
    {
      ghost var g := G();
      hide Sound;
      SoundDrop(g, faulted, history, events, si);
      objects := objects[si := objects[si].(refs := objects[si].refs - 1)];
      claims := claims - multiset{si};
      assert G() == Drop(g, si);
    }

    /** soinfo_unload. It takes one claim, and terminates because needed libraries rank lower. */
    method Unload(si: Id) returns (code: int)
      requires Valid() && si in claims && si in objects
      modifies this`objects, this`solist, this`somain, this`claims, this`events, this`faulted
      decreases if si in rank then rank[si] else 0, 1
      ensures Valid()
      ensures Released(old(G()), G(), multiset{si}, code, old(faulted), faulted, old(events), events)
      ensures UnloadedOne(old(G()), G(), si, code, old(faulted), faulted, old(events), events)
    {
      hide Sound, Released, UnloadedOne, Remove, Drop;
      ghost var g := G();
      SoundClaim(g, {}, faulted, history, events, si);
      if objects[si].Host() || objects[si].refs > 1 {
        Release(si);
        AfterRelease(g, si, faulted, events);
        return 0;
      }
      var deps := objects[si].needed;
      SoundNeeds(g, faulted, history, events, si);
      var ok := Free(si);
      if !ok {
        AfterFault(g, si, old(faulted), events);
        return -1;
      }
      ghost var freed := events;
      RemovedClaims(g, si);
      code := ReleaseAll(deps, rank[si]);
      AfterFree(g, G(), si, code, old(faulted), faulted, old(events), freed, events);
    }

    /** Release the references a freed library held, stopping at the first failure. */
    method ReleaseAll(deps: seq<Id>, ghost below: nat) returns (code: int)
      requires Valid() && multiset(deps) <= claims && forall d :: d in deps ==> d in rank && rank[d] < below
      modifies this`objects, this`solist, this`somain, this`claims, this`events, this`faulted
      decreases below, 0
      ensures Valid()
      ensures Released(old(G()), G(), multiset(deps), code, old(faulted), faulted, old(events), events)
    {
      ghost var g := G();
      NothingReleased(g, deps, faulted, events);
      hide Sound, Released, UnloadedOne;
      var i := 0;
      while i < |deps|
        invariant 0 <= i <= |deps| && Valid()
        invariant rank == old(rank)
        invariant Released(g, G(), multiset(deps[..i]), 0, old(faulted), faulted, old(events), events)
      {
        ghost var mid, midFaulted, midEvents := G(), faulted, events;
        NextHeld(g, mid, deps, i, old(faulted), faulted, old(events), events);
        SoundClaim(mid, {}, faulted, history, events, deps[i]);
        code := Unload(deps[i]);
        ReleasedNext(g, mid, G(), deps, i, code, old(faulted), midFaulted, faulted, old(events), midEvents, events);
        if code != 0 { return; }
        i := i + 1;
      }
      assert deps[..i] == deps;
      code := 0;
    }

    // ---- Loading --------------------------------------------------------------------------------

    /** The registered names not loaded yet: each nested load takes one away, so loading ends even on cyclic needs. */
    ghost function Remaining(): (r: set<string>)
      reads this
    {
      sources.Keys - LoadedNames(objects)
    }

    /** find_loaded_library. */
    method FindLoaded(name: string) returns (r: Option<Id>)
      requires Valid()
      ensures r.None? ==> NameFree(objects, name) && name !in LoadedNames(objects)
      ensures r.Some? ==> r.value in objects && objects[r.value].name == name && name in LoadedNames(objects)
    {
      SoundParts(G(), {}, faulted, history, events);
      AllListed(objects, solist);
      NameIsFree(objects, name);
      r := SearchName(name);
      hide Sound, NameFree, LoadedNames, Ok, Positive;
      if r.None? { NotInList(objects, solist, name); }
    }

    method SearchName(name: string) returns (r: Option<Id>)
      requires forall j :: 0 <= j < |solist| ==> solist[j] in objects
      ensures r.None? ==> forall j :: 0 <= j < |solist| ==> objects[solist[j]].name != name
      ensures r.Some? ==> r.value in objects && objects[r.value].name == name
    {
      var i := 0;
      while i < |solist|
        invariant 0 <= i <= |solist|
        invariant forall j :: 0 <= j < i ==> objects[solist[j]].name != name
      {
        if objects[solist[i]].name == name { return Some(solist[i]); }
        i := i + 1;
      }
      r := None;
    }

    /** find_library: a library that is still being linked is not found again. */
    method FindLibrary(name: string) returns (r: Found)
      requires Valid()
      modifies this`objects, this`solist, this`somain, this`nextId, this`claims, this`rank, this`clock, this`history,
        this`events, this`faulted, this`refusals
      decreases Remaining(), 2, 0
      ensures r != Dangling ==> Valid() && events == old(events) && faulted == old(faulted)
      ensures FindEffect(old(G()), G(), name, r)
      ensures Outcome(old(W()), W(), name, r.Loaded?, old(refusals), refusals)
      ensures DangleOutcome(old(W()), name, r == Dangling, old(refusals), refusals)
      ensures name in old(LoadedNames(objects)) ==> solist == old(solist)
      ensures r == Dangling ==> name !in old(LoadedNames(objects)) && NeedsMore(name, old(LoadedNames(objects)))
    {
      ghost var g := G();
      hide Sound, FindEffect, LoadEffect, NameFree, LoadedNames, AddRef, Linker.NeedsMore, Outcome, DangleOutcome,
        WorldOf;
      var found := FindLoaded(name);
      match found
      case Some(id) =>
        ListedOutcome(g, faulted, history, events, id, sources, refusals);
        ListedDangle(objects, id, sources, refusals);
        if !objects[id].linked {
          FoundNothing(g, name);
          return Failed;
        }
        SoundIdle(g, faulted, history, events, id);
        AlreadyLoaded(g, name, id);
        FoundLoaded(g, g, name, id);
        Refer(id);
        r := Loaded(id);
      case None =>
        r := LoadLibrary(name);
        if r.Loaded? {
          LoadedIn(g, G(), name, r.id);
          FoundLoaded(g, G(), name, r.id);
          Refer(r.id);
        }
    }

    /** ref_count++. */
    method Refer(id: Id)
      requires Sound(G(), {id}, {}, faulted, history, events) && id in objects && objects[id].linked
      modifies this`objects, this`claims
      ensures Valid() && G() == AddRef(old(G()), id) && W() == old(W())
    {
      ghost var g := G();
      hide Sound, WorldOf;
      SameWorld(objects, AddRef(g, id).objects, sources);
      SoundAddRef(g, faulted, history, events, id);
      objects := objects[id := objects[id].(refs := objects[id].refs + 1)];
      claims := claims + multiset{id};
      assert G() == AddRef(g, id);
    }

    /** Loading `name` may have to load a library that is not among `loaded`. */
    ghost predicate NeedsMore(name: string, loaded: set<string>)
      reads this
    {
      name in sources && AnyMissing(sources[name].needed, loaded)
    }

    /** load_library. */
    method LoadLibrary(name: string) returns (r: Found)
      requires Valid() && NameFree(objects, name)
      modifies this`objects, this`solist, this`somain, this`nextId, this`claims, this`rank, this`clock, this`history,
        this`events, this`faulted, this`refusals
      decreases Remaining(), 1, 0
      ensures r != Dangling ==> events == old(events) && faulted == old(faulted)
      ensures r.Loaded? ==> Sound(G(), {r.id}, {}, faulted, history, events) && LoadEffect(old(G()), G(), name, r.id)
      ensures r == Failed ==> Valid()
      ensures !r.Loaded? ==> FindEffect(old(G()), G(), name, r)
      ensures Outcome(old(W()), W(), name, r.Loaded?, old(refusals), refusals)
      ensures DangleOutcome(old(W()), name, r == Dangling, old(refusals), refusals)
      ensures r == Dangling ==> NeedsMore(name, old(LoadedNames(objects)))
    {
      ghost var g := G();
      FreeWorld(objects, sources, name);
      hide Sound, NameFree, LoadedNames, Outcome, DangleOutcome, WorldOf, LoadEffect, Linker.NeedsMore;
      if name !in sources {
        HostOutcome(W(), name, refusals);
        NotNew(W(), name, refusals);
        if name !in HOST_LIBRARIES {
          FoundNothing(g, name);
          return Failed;
        }
        var id := PushHostLibrary(name);
        return Loaded(id);
      }
      r := LoadFile(name);
    }

    /** A host library is linked from the start. */
    method PushHostLibrary(name: string) returns (id: Id)
      requires Valid() && NameFree(objects, name)
      modifies this`objects, this`solist, this`nextId, this`rank, this`clock, this`history
      ensures Sound(G(), {id}, {}, faulted, history, events) && LoadEffect(old(G()), G(), name, id)
      ensures W() == old(W()).(linked := old(W()).linked + {name}, listed := old(W()).listed + {name})
    {
      ghost var g := G();
      hide Sound, NameFree, WorldOf, LoadEffect;
      var host := So(name, None, 0, true, 0, [], false);
      SoundPushHost(g, faulted, history, events, host);
      AddedWorld(objects, nextId, host, sources);
      HostLoaded(g, host);
      id := nextId;
      history, rank, clock := history[nextId := host], rank[nextId := clock], clock + 1;
      objects, solist, nextId := objects[nextId := host], solist + [nextId], nextId + 1;
      assert G() == PushHost(g, host);
      SoundIdle(G(), faulted, history, events, id);
    }

    /** load_library on a registered file. */
    method LoadFile(name: string) returns (r: Found)
      requires Valid() && NameFree(objects, name) && name in sources
      modifies this`objects, this`solist, this`somain, this`nextId, this`claims, this`rank, this`clock, this`history,
        this`events, this`faulted, this`refusals
      decreases Remaining(), 0, 0
      ensures r != Dangling ==> events == old(events) && faulted == old(faulted)
      ensures r.Loaded? ==> Sound(G(), {r.id}, {}, faulted, history, events) && LoadEffect(old(G()), G(), name, r.id)
      ensures r == Failed ==> Valid()
      ensures !r.Loaded? ==> FindEffect(old(G()), G(), name, r)
      ensures Outcome(old(W()), W(), name, r.Loaded?, old(refusals), refusals)
      ensures DangleOutcome(old(W()), name, r == Dangling, old(refusals), refusals)
      ensures r == Dangling ==> NeedsMore(name, old(LoadedNames(objects)))
    {
      ghost var g := G();
      hide Sound, NameFree, FindEffect, LoadEffect, Linker.NeedsMore, Began, Ok, Positive, LoadedNames, WorldOf,
        Outcome, DangleOutcome;
      var mapped := *;
      if !mapped {
        FoundNothing(g, name);
        RefusedOutcome(W(), W(), name, refusals, refusals + 1);
        RefusedDangle(W(), name, false, refusals, refusals + 1);
        refusals := refusals + 1;
        return Failed;
      }
      SoundParts(g, {}, faulted, history, events);
      NameIsFree(objects, name);
      var si, becameMain, so := PushNew(name);
      NameAdded(g.objects, si, so);
      r := LinkNew(si, becameMain, so, g);
    }

    /** The new soinfo, listed but not linked. */
    method PushNew(name: string) returns (si: Id, becameMain: bool, ghost so: So)
      requires Valid() && NameFree(objects, name) && name in sources
      modifies this`objects, this`solist, this`somain, this`nextId
      ensures G() == Push(old(G()), so) && si == old(nextId) && (becameMain <==> old(somain).None?)
      ensures so == objects[si] && so.name == name && so.source == Some(sources[name]) && !so.linked
      ensures Valid() && si !in old(objects)
    {
      ghost var g := G();
      hide Sound, NameFree;
      var bias: uint32 := *;
      si := nextId;
      so := So(name, Some(sources[name]), bias, false, 0, [], false);
      SoundPush(g, faulted, history, events, so);
      becameMain := somain.None?;
      objects := objects[si := So(name, Some(sources[name]), bias, false, 0, [], false)];
      solist, nextId := solist + [si], nextId + 1;
      if becameMain { somain := Some(si); }
      assert G() == Push(g, so);
    }

    /** parse_headers and soinfo_link_image on the new library, and the error path. */
    method LinkNew(si: Id, becameMain: bool, ghost so: So, ghost g: Graph) returns (r: Found)
      requires Valid() && G() == Push(g, so) && si == g.nextId && si !in g.objects && !so.linked && !so.Host()
      requires so.name in sources && so.source == Some(sources[so.name]) && (becameMain <==> g.somain.None?)
      requires Ok(g) && Positive(g, {}) && NameFree(g.objects, so.name)
      modifies this`objects, this`solist, this`somain, this`nextId, this`claims, this`rank, this`clock, this`history,
        this`events, this`faulted, this`refusals
      decreases Remaining(), 5, 0
      ensures r != Dangling ==> events == old(events) && faulted == old(faulted)
      ensures r.Loaded? ==> Sound(G(), {r.id}, {}, faulted, history, events) && LoadEffect(g, G(), so.name, r.id)
      ensures r == Failed ==> Valid()
      ensures !r.Loaded? ==> FindEffect(g, G(), so.name, r)
      ensures Outcome(WorldOf(g.objects, sources), W(), so.name, r.Loaded?, old(refusals), refusals)
      ensures DangleOutcome(WorldOf(g.objects, sources), so.name, r == Dangling, old(refusals), refusals)
      ensures r == Dangling ==> NeedsMore(so.name, LoadedNames(g.objects))
    {
      hide Sound, Ok, Positive, LoadedNames, WorldOf, AnyMissing, Began, LoadEffect, Outcome, DangleOutcome, NameFree,
        ParseResult;
      var linked := ParseAndLink(si, so, g);
      ParseParts(g, so, G(), sources, linked, old(refusals), refusals);
      if linked == Linked { return Loaded(si); }
      ghost var mid := W();
      if linked == Poisoned {
        r := Dangling;
      } else {
        LastIffNothingElse(g, G(), si, faulted, history, events);
        r := Abandon(si, becameMain, g);
      }
      SameFailure(WorldOf(g.objects, sources), mid, W(), so.name, linked == Linked, old(refusals), refusals);
    }

    /** parse_headers and soinfo_link_image. */
    method ParseAndLink(si: Id, ghost so: So, ghost g: Graph) returns (r: LinkResult)
      requires Valid() && G() == Push(g, so) && si == g.nextId && si !in g.objects && !so.linked && !so.Host()
      requires so.name in sources && so.source == Some(sources[so.name]) && NameFree(g.objects, so.name)
      modifies this`objects, this`solist, this`somain, this`nextId, this`claims, this`rank, this`clock, this`history,
        this`events, this`faulted, this`refusals
      decreases Remaining(), 4, 0
      ensures r != Poisoned ==> events == old(events) && faulted == old(faulted)
      ensures r != Poisoned ==> Sound(G(), {si}, {}, faulted, history, events) && si in objects && objects[si].refs == 0
      ensures ParseResult(g, so, G(), sources, r, old(refusals), refusals)
    {
      assert si in objects && objects[si] == so;
      NothingYet(G(), si, faulted, history, events);
      hide Sound, LoadedNames, WorldOf, AnyMissing, Progress, LinkOutcome, StrandOutcome, NameFree, ParseResult,
        ListsFreed,
        Push;
      var parsed := *;
      if !parsed {
        ParseRefused(g, so, sources, refusals);
        refusals := refusals + 1;
        return Broken;
      }
      r := LinkImage(si);
      ParseLinked(g, so, G(), sources, r, old(refusals), refusals);
    }

    /**
     soinfo_link_image: find every needed library, relocate, mark as linked, protect the segments. Each part may fail.
     */
    method LinkImage(si: Id) returns (r: LinkResult)
      requires Valid() && si in objects && !objects[si].linked && !objects[si].Host()
      modifies this`objects, this`solist, this`somain, this`nextId, this`claims, this`rank, this`clock, this`history,
        this`events, this`faulted, this`refusals
      decreases Remaining(), 3, 1
      ensures r != Poisoned ==>
        Sound(G(), {si}, {}, faulted, history, events) && events == old(events) && faulted == old(faulted)
      ensures r != Poisoned ==> Progress(old(G()), G(), si) && objects[si].refs == 0 && (r == Linked ==>
        objects[si].linked)
      ensures r == Poisoned ==> ListsFreed(G())
      ensures LinkOutcome(old(W()), W(), old(objects)[si].name, old(objects)[si].source.value.needed, r == Linked,
        old(refusals), refusals)
      ensures StrandOutcome(old(W()), old(objects)[si].source.value.needed, Stranded(r, old(solist), solist),
        old(refusals), refusals)
      ensures r == Poisoned || solist != old(solist) ==>
        AnyMissing(old(objects)[si].source.value.needed, old(LoadedNames(objects)))
    {
      ghost var g, w, n := G(), W(), refusals;
      hide Sound, FindEffect, Progress, Linker.NeedsMore, AnyMissing, LoadedNames, WorldOf, NeedsOutcome, LinkOutcome,
        StrandOutcome, NeedsResult, ListsFreed;
      var names := objects[si].source.value.needed;
      ghost var name := objects[si].name;
      ProgressStart(g, si);
      r := FindNeeds(si, names, g);
      NeedsParts(g, G(), si, sources, names, r, n, refusals);
      ghost var found, n1 := W(), refusals;
      if r != Linked {
        LinkFailed(w, found, name, names, r == Linked, n, n1);
        return;
      }
      ProgressHas(g, G(), si);
      UnlinkedIdle(G(), faulted, history, events, si);
      SoundIdle(G(), faulted, history, events, si);
      r := FinishLink(si, names, g, w, n);
      StrandLinked(w, names, Stranded(r, g.solist, solist), n, n1, refusals);
    }

    /** Relocation, the linked flag and the protection of the segments. */
    method FinishLink(si: Id, ghost names: seq<string>, ghost g: Graph, ghost w: World, ghost n: nat)
        returns (r: LinkResult)
      requires Valid() && Sound(G(), {si}, {}, faulted, history, events) && Progress(g, G(), si)
      requires si in objects && !objects[si].linked && !objects[si].Host() && objects[si].refs == 0
      requires NeedsOutcome(w, W(), names, true, n, refusals)
      modifies this`objects, this`rank, this`clock, this`history, this`refusals
      ensures r != Poisoned && Sound(G(), {si}, {}, faulted, history, events) && Progress(g, G(), si)
        && solist == old(solist)
      ensures si in objects && objects[si].refs == 0 && (r == Linked ==> objects[si].linked)
      ensures LinkOutcome(w, W(), old(objects)[si].name, names, r == Linked, n, refusals)
      ensures refusals >= old(refusals) && (r == Broken ==> refusals > old(refusals))
    {
      hide Sound, Progress, LoadedNames, WorldOf, NeedsOutcome, LinkOutcome;
      ghost var name, found, n1 := objects[si].name, W(), refusals;
      var relocated := *;
      if !relocated {
        LinkRefused(w, found, found, name, names, true, n, n1, n1 + 1);
        refusals := refusals + 1;
        return Broken;
      }
      MarkLinked(si, g);
      var isProtected := *;
      if !isProtected { refusals := refusals + 1; }
      LinkDone(w, found, W(), name, names, isProtected, n, n1, refusals);
      r := if isProtected then Linked else Broken;
    }

    /** flags |= FLAG_LINKED. */
    method MarkLinked(si: Id, ghost g: Graph)
      requires Valid() && Progress(g, G(), si) && si in objects && !objects[si].linked && objects[si].refs == 0
      modifies this`objects, this`rank, this`clock, this`history
      ensures Sound(G(), {si}, {}, faulted, history, events) && Progress(g, G(), si)
      ensures si in objects && objects[si].refs == 0 && objects[si].linked
      ensures W() == old(W()).(linked := old(W()).linked + {old(objects)[si].name})
    {
      hide Sound, Progress, WorldOf;
      LinkedWorld(objects, si, sources);
      SoundLink(G(), faulted, history, events, si);
      ProgressLink(g, G(), si);
      ghost var mid := G();
      history := history[si := objects[si]];
      rank, clock := rank[si := clock], clock + 1;
      objects := objects[si := objects[si].(linked := true)];
      assert G() == Link(mid, si);
    }

    /** In the loop over the needs of `si`, after the first `i` have been found. */
    ghost predicate Finding(g: Graph, si: Id, names: seq<string>, i: nat, was: Status, n: nat, files: map<string,
        Source>)
      reads this
    {
      && Valid() && si in objects && !objects[si].linked && Ok(g) && FoundSoFar(g, G(), si, sources, names, i)
      && events == was.events && faulted == was.faulted && refusals == n && sources == files
    }

    /** That loop is over. */
    ghost predicate Ended(g: Graph, si: Id, names: seq<string>, r: LinkResult, was: Status, n: nat)
      reads this
    {
      && (r != Poisoned ==>
        Valid() && events == was.events && faulted == was.faulted && si in objects && !objects[si].linked)
      && (r == Broken ==> Sound(G(), {si}, {}, faulted, history, events) && objects[si].refs == 0)
      && NeedsResult(g, G(), si, sources, names, r, n, refusals)
    }

    lemma FewerLeft(g: Graph, si: Id, names: seq<string>, i: nat, was: Status, n: nat, files: map<string, Source>)
      requires Finding(g, si, names, i, was, n, files)
      ensures Remaining() == files.Keys - LoadedNames(g.objects) || Remaining() < files.Keys - LoadedNames(g.objects)
    {
      hide Sound, FoundSoFar, LoadedNames, Ok;
      NamesKept(g, G(), si, sources, names, i);
      FewerRemain(files.Keys, LoadedNames(g.objects), LoadedNames(objects));
    }

    lemma FoundEvery(g: Graph, si: Id, names: seq<string>, was: Status, n: nat, files: map<string, Source>)
      requires Finding(g, si, names, |names|, was, n, files)
      ensures Ended(g, si, names, Linked, was, n)
    {
      hide Sound, FoundSoFar, NeedsResult, Ok;
      AllFound(g, G(), si, sources, names, n);
    }

    lemma StartFinding(si: Id, names: seq<string>)
      requires Valid() && si in objects && !objects[si].linked
      ensures Finding(G(), si, names, 0, Status(faulted, history, events), refusals, sources)
    {
      hide Sound, FoundSoFar, Ok;
      SoundParts(G(), {}, faulted, history, events);
      NothingFoundYet(G(), si, sources, names);
    }

    lemma EndedMeans(g: Graph, si: Id, names: seq<string>, r: LinkResult, was: Status, n: nat)
      requires Ended(g, si, names, r, was, n)
      ensures r != Poisoned ==>
        Valid() && events == was.events && faulted == was.faulted && si in objects && !objects[si].linked
      ensures r == Broken ==> Sound(G(), {si}, {}, faulted, history, events) && objects[si].refs == 0
      ensures NeedsResult(g, G(), si, sources, names, r, n, refusals)
    {
    }

    /** The DT_NEEDED loop of soinfo_link_image. `Linked` means that all were found. */
    method FindNeeds(si: Id, names: seq<string>, ghost g: Graph) returns (r: LinkResult)
      requires Valid() && G() == g && si in objects && !objects[si].linked
      modifies this`objects, this`solist, this`somain, this`nextId, this`claims, this`rank, this`clock, this`history,
        this`events, this`faulted, this`refusals
      decreases Remaining(), 3, 0
      ensures r != Poisoned ==>
        Valid() && events == old(events) && faulted == old(faulted) && si in objects && !objects[si].linked
      ensures r == Broken ==> Sound(G(), {si}, {}, faulted, history, events) && objects[si].refs == 0
      ensures NeedsResult(g, G(), si, sources, names, r, old(refusals), refusals)
    {
      ghost var was, n, files := Status(faulted, history, events), refusals, sources;
      hide Sound, Ok, Positive, Distinct, LoadedNames, FoundSoFar, NeedsResult, ListsFreed, Linker.Finding,
        Linker.Ended;
      StartFinding(si, names);
      var i := 0;
      while i < |names|
        invariant 0 <= i <= |names| && Finding(g, si, names, i, was, n, files)
      {
        FewerLeft(g, si, names, i, was, n, files);
        r := FindNext(si, names, i, g, was, n, files);
        if r != Linked {
          EndedMeans(g, si, names, r, was, n);
          return;
        }
        i := i + 1;
      }
      FoundEvery(g, si, names, was, n, files);
      r := Linked;
      EndedMeans(g, si, names, r, was, n);
    }

    /** One round of the loop. */
    method FindNext(si: Id, names: seq<string>, i: nat, ghost g: Graph, ghost was: Status, ghost n: nat,
        ghost files: map<string, Source>) returns (r: LinkResult)
      requires i < |names| && Finding(g, si, names, i, was, n, files)
      modifies this`objects, this`solist, this`somain, this`nextId, this`claims, this`rank, this`clock, this`history,
        this`events, this`faulted, this`refusals
      decreases Remaining(), 2, 2
      ensures if r == Linked then Finding(g, si, names, i + 1, was, n, files) else Ended(g, si, names, r, was, n)
    {
      hide Sound, Ok, Positive, Distinct, Progress, LoadedNames, WorldOf, Outcome, DangleOutcome, FoundSoFar,
        NeedsResult, ListsFreed;
      ghost var mid := G();
      r := FindOne(si, names[i]);
      if r == Linked {
        SoundParts(G(), {}, faulted, history, events);
        FoundOneMore(g, mid, G(), si, sources, names, i, n, refusals);
        return;
      }
      FailedHere(g, mid, G(), si, sources, names, i, r, n, refusals);
      if r == Broken {
        UnlinkedIdle(G(), faulted, history, events, si);
        SoundIdle(G(), faulted, history, events, si);
      }
    }

    /** One DT_NEEDED entry: read its name, find the library, remember it. */
    method FindOne(si: Id, name: string) returns (r: LinkResult)
      requires Valid() && si in objects && !objects[si].linked
      modifies this`objects, this`solist, this`somain, this`nextId, this`claims, this`rank, this`clock, this`history,
        this`events, this`faulted, this`refusals
      decreases Remaining(), 2, 1
      ensures r != Poisoned ==> Valid() && events == old(events) && faulted == old(faulted)
      ensures r != Poisoned ==> Progress(old(G()), G(), si) && si in objects && !objects[si].linked
      ensures r == Poisoned ==> ListsFreed(G())
      ensures Outcome(old(W()), W(), name, r == Linked, old(refusals), refusals)
      ensures DangleOutcome(old(W()), name, r == Poisoned, old(refusals), refusals)
      ensures r == Broken ==> solist == old(solist)
      ensures r == Linked ==> old(solist) <= solist && (solist == old(solist) <==> name in old(W()).linked)
      ensures r == Poisoned || solist != old(solist) ==> name !in old(LoadedNames(objects))
    {
      hide Sound, FindEffect, Progress, Linker.NeedsMore, AnyMissing, LoadedNames, WorldOf, Outcome, DangleOutcome;
      ghost var was := Status(faulted, history, events);
      ghost var mid := G();
      ProgressStart(mid, si);
      var readable := *;
      if !readable {
        RefusedOutcome(W(), W(), name, refusals, refusals + 1);
        RefusedDangle(W(), name, false, refusals, refusals + 1);
        refusals := refusals + 1;
        return Broken;
      }
      var dep := FindLibrary(name);
      match dep
      case Dangling =>
        DanglingLists(mid, G(), name);
        r := Poisoned;
      case Failed =>
        ProgressFailed(mid, mid, G(), si, name);
        FailedList(mid, G(), name);
        r := Broken;
      case Loaded(d) =>
        ProgressNeed(mid, mid, G(), si, name, d);
        FoundListed(mid, G(), name, d, sources, was, Status(faulted, history, events));
        AddNeed(si, d);
        r := Linked;
    }

    /** needed.push_back(dep). */
    method AddNeed(si: Id, d: Id)
      requires Valid() && si in objects && !objects[si].linked && d in claims
      modifies this`objects, this`claims
      ensures Valid() && G() == Need(old(G()), si, d) && W() == old(W())
    {
      ghost var found := G();
      hide Sound, WorldOf;
      SameWorld(objects, WithNeeded(objects, si, d), sources);
      SoundNeed(found, faulted, history, events, si, d);
      objects := objects[si := objects[si].(needed := objects[si].needed + [d])];
      claims := claims - multiset{d};
      assert G() == Need(found, si, d);
    }

    /** The error path of load_library. It removes the last list entry, which is right exactly if that is `si`. */
    method Abandon(si: Id, becameMain: bool, ghost before: Graph) returns (r: Found)
      requires Ok(before) && Positive(before, {}) && Began(before, G(), si) && (becameMain <==> before.somain.None?)
      requires Sound(G(), {si}, {}, faulted, history, events) && objects[si].refs == 0
      modifies this`objects, this`solist, this`somain, this`claims, this`events, this`faulted
      ensures !r.Loaded? && (r == Failed <==> old(solist)[|old(solist)| - 1] == si)
      ensures r == Failed ==> Valid() && events == old(events) && faulted == old(faulted)
      ensures r == Failed ==>
        objects == before.objects && solist == before.solist && somain == before.somain && claims == before.claims
      ensures r == Dangling ==> si in solist && si !in objects && solist != Without(old(solist), si)
    {
      ghost var g := G();
      hide Remove, Without, Began, Sound, Restoring, Ok, Positive, Distinct;
      AbandonCases(before, g, si, faulted, history, events);
      var deps := objects[si].needed;
      var popped := PopEntry(si, becameMain);
      if popped != si { return Dangling; }
      claims := claims + multiset(deps);
      assert G() == Remove(g, si);
      GiveBack(deps, before);
      r := Failed;
    }

    /** solist.pop_back() and delete si. */
    method PopEntry(si: Id, becameMain: bool) returns (popped: Id)
      requires solist != []
      modifies this`objects, this`solist, this`somain
      ensures popped == old(solist)[|old(solist)| - 1] && solist == old(solist)[..|old(solist)| - 1]
      ensures objects == old(objects) - {si} && somain == if becameMain then None else old(somain)
    {
      if becameMain { somain := None; }
      popped := solist[|solist| - 1];
      solist := solist[..|solist| - 1];
      objects := objects - {si};
    }

    /** Releasing what a failed library had found: always possible, and never the last reference. */
    method GiveBack(deps: seq<Id>, ghost before: Graph)
      requires Valid() && Ok(before) && Positive(before, {}) && Restoring(before, G(), multiset(deps))
      modifies this`objects, this`solist, this`somain, this`claims, this`events, this`faulted
      ensures Valid() && events == old(events) && faulted == old(faulted)
      ensures objects == before.objects && solist == before.solist && somain == before.somain && claims == before.claims
    {
      assert deps[0..] == deps;
      hide Restoring, Ok, Positive, Orderly, Drop, Released;
      var i := 0;
      while i < |deps|
        invariant 0 <= i <= |deps| && Valid() && Restoring(before, G(), multiset(deps[i..]))
        invariant events == old(events) && faulted == old(faulted)
      {
        NotTheLast(before, G(), deps, i);
        var ignored := Unload(deps[i]);
        i := i + 1;
      }
      assert deps[i..] == [];
      Restored(before, G());
    }

    // ---- Constructing ---------------------------------------------------------------------------

    /** The init functions of one library. */
    method RunInit(si: Id) returns (ok: bool)
      requires si in objects
      modifies this`events, this`faulted
      ensures ok ==> events == old(events) + [Init(si, InitFns(objects[si].source))] && faulted == old(faulted)
      ensures !ok ==> events == old(events) && faulted
    {
      var first: seq<uint32>, second: seq<uint32> := [], [];
      if objects[si].Host() {
        events := events + [Init(si, [])];
        return true;
      }
      var source := objects[si].source.value;
      ok, first := CallFunction(source.initFunc);
      if ok { ok, second := CallArray(source.initArray, false); }
      if !ok {
        faulted := true;
        return;
      }
      events := events + [Init(si, first + second)];
    }

    /** CallConstructors: `active` are the libraries whose constructors wait for this call. */
    method CallConstructors(si: Id, ghost active: set<Id>) returns (ok: bool)
      requires Sound(G(), {}, active, faulted, history, events) && si in objects && objects[si].linked
        && Above(rank, active, si)
      modifies this`objects, this`events, this`faulted
      decreases rank[si], 1
      ensures Sound(G(), {}, active, faulted, history, events)
      ensures Ran(old(G()), G(), ok, old(faulted), faulted, old(events), events)
      ensures ok ==> si in objects && objects[si].constructed
    {
      ghost var g, f0, e0 := G(), faulted, events;
      RanNothing(g, faulted, events);
      hide Sound, Ran, Above;
      if objects[si].constructed { return true; }
      BeginInit(si, active);
      ghost var begun, f1, e1 := G(), faulted, events;
      ok := ConstructAll(si, active);
      RanTrans(g, begun, G(), ok, f0, f1, faulted, e0, e1, events);
    }

    method BeginInit(si: Id, ghost active: set<Id>)
      requires Sound(G(), {}, active, faulted, history, events) && si in objects && objects[si].linked
        && !objects[si].constructed
      modifies this`objects
      ensures Sound(G(), {}, active + {si}, faulted, history, events)
        && Ran(old(G()), G(), true, faulted, faulted, events, events)
      ensures si in objects && objects[si].constructed && objects[si].linked && AllBelow(G(), si, objects[si].needed)
    {
      ghost var g := G();
      hide Sound;
      SoundBegin(g, active, faulted, history, events, si);
      objects := objects[si := objects[si].(constructed := true)];
      assert G() == Flag(g, si);
      BelowAll(G(), active + {si}, faulted, history, events, si);
    }

    /** The rest of CallConstructors, once the flag is set: first what the library needs, then its own functions. */
    method ConstructAll(si: Id, ghost active: set<Id>) returns (ok: bool)
      requires Sound(G(), {}, active + {si}, faulted, history, events) && Above(rank, active, si)
      requires si in objects && objects[si].linked && objects[si].constructed && AllBelow(G(), si, objects[si].needed)
      modifies this`objects, this`events, this`faulted
      decreases rank[si], 0, 2
      ensures Sound(G(), {}, active, faulted, history, events)
      ensures Ran(old(G()), G(), ok, old(faulted), faulted, old(events), events)
      ensures ok ==> si in objects && objects[si].constructed
    {
      ghost var g, f0, e0 := G(), faulted, events;
      hide Sound, Ran, Above, AllConstructed, AllBelow;
      ok := ConstructNeeds(si, objects[si].needed, active);
      ghost var mid, f1, e1 := G(), faulted, events;
      RanHas(g, mid, si, ok, f0, f1, e0, e1);
      if !ok { return; }
      ok := FinishInit(si, active);
      RanTrans(g, mid, G(), ok, f0, f1, faulted, e0, e1, events);
    }

    method FinishInit(si: Id, ghost active: set<Id>) returns (ok: bool)
      requires Sound(G(), {}, active + {si}, faulted, history, events) && si in objects && objects[si].linked
        && Above(rank, active, si)
      requires AllConstructed(objects, objects[si].needed, |objects[si].needed|)
      modifies this`events, this`faulted
      ensures Sound(G(), {}, active, faulted, history, events)
        && Ran(old(G()), G(), ok, old(faulted), faulted, old(events), events)
    {
      SoundInit(G(), active, faulted, history, events, si);
      SoundFault(G(), active + {si}, active, faulted, history, events);
      RanNothing(G(), faulted, events);
      hide Sound;
      ok := RunInit(si);
    }

    /** The loop of CallConstructors over the needed libraries. */
    method ConstructNeeds(si: Id, needed: seq<Id>, ghost active: set<Id>) returns (ok: bool)
      requires Sound(G(), {}, active + {si}, faulted, history, events) && Above(rank, active, si)
        && AllBelow(G(), si, needed)
      modifies this`objects, this`events, this`faulted
      decreases rank[si], 0, 1
      ensures Sound(G(), {}, if ok then active + {si} else active, faulted, history, events)
      ensures Ran(old(G()), G(), ok, old(faulted), faulted, old(events), events)
      ensures ok ==> AllConstructed(objects, needed, |needed|)
    {
      ghost var g, f0, e0 := G(), faulted, events;
      NoNeedsYet(g, needed, faulted, events);
      assert si in rank;
      hide Sound, Ran, Above, AllConstructed, AllBelow, NeedsDone;
      var i := 0;
      while i < |needed|
        invariant 0 <= i <= |needed| && Sound(G(), {}, active + {si}, faulted, history, events)
        invariant rank == g.rank && NeedsDone(g, G(), needed, i, f0, faulted, e0, events)
      {
        ok := ConstructNeed(si, needed, i, active, g, f0, e0);
        if !ok { return; }
        i := i + 1;
      }
      NeedsAllDone(g, G(), needed, f0, faulted, e0, events);
      ok := true;
    }

    /** One round of that loop. */
    method ConstructNeed(si: Id, needed: seq<Id>, i: nat, ghost active: set<Id>, ghost g: Graph, ghost f0: bool,
        ghost e0: seq<Event>) returns (ok: bool)
      requires i < |needed| && Sound(G(), {}, active + {si}, faulted, history, events)
        && NeedsDone(g, G(), needed, i, f0, faulted, e0, events)
      requires rank == g.rank && si in rank && Above(rank, active, si) && AllBelow(g, si, needed)
      modifies this`objects, this`events, this`faulted
      decreases rank[si], 0, 0
      ensures Sound(G(), {}, if ok then active + {si} else active, faulted, history, events)
      ensures if ok then NeedsDone(g, G(), needed, i + 1, f0, faulted, e0, events)
        else Ran(g, G(), false, f0, faulted, e0, events)
    {
      ghost var mid, f1, e1 := G(), faulted, events;
      NextNeed(g, mid, active, si, needed, i, f0, f1, e0, e1);
      hide Sound, Ran, Above, AllConstructed, AllBelow, NeedsDone;
      ok := CallConstructors(needed[i], active + {si});
      NeedStep(g, mid, G(), needed, i, ok, f0, f1, faulted, e0, e1, events);
      if !ok { SoundFault(G(), active + {si}, active, faulted, history, events); }
    }

    // ---- Entry points ---------------------------------------------------------------------------

    /** agr_aosp_dynamic_dlopen. When a constructor fails the caller gets no handle, yet the reference stays. */
    method Dlopen(name: Option<string>, flags: uint32) returns (handle: uint32, r: Found)
      requires Valid()
      modifies this`objects, this`solist, this`somain, this`nextId, this`claims, this`rank, this`clock, this`history,
        this`events, this`faulted, this`refusals
      ensures name.None? && FlagsOk(flags) ==> r == Failed && handle == if somain.Some? then SELF_HANDLE else 0
      ensures !FlagsOk(flags) ==> r == Failed && handle == 0 && G() == old(G()) && refusals == old(refusals)
      ensures r != Dangling ==> Valid() && old(events) <= events
      ensures refusals >= old(refusals)
      ensures name.Some? && FlagsOk(flags) ==>
        (r.Loaded? <==> Resolves(old(W()), name.value) && refusals == old(refusals))
      ensures name.Some? && FlagsOk(flags) && refusals == old(refusals) ==>
        (r == Dangling <==> Dangles(old(W()), name.value))
      ensures r.Loaded? && AllLinked(old(objects)) ==> AllLinked(objects)
      ensures r.Loaded? ==> name.Some? && Opened(old(G()), G(), name.value, r.id, handle, old(faulted), faulted, events)
      ensures r == Failed ==>
        objects == old(objects) && solist == old(solist) && somain == old(somain) && claims == old(claims)
        && events == old(events)
      ensures r == Dangling ==> ListsFreed(G()) && name.Some? && NeedsMore(name.value, old(LoadedNames(objects)))
    {
      if !FlagsOk(flags) { return 0, Failed; }
      if name.None? { return if somain.Some? then SELF_HANDLE else 0, Failed; }
      hide Sound, Opened, Linker.NeedsMore, LoadedNames, WorldOf, Resolves, ListsFreed, AllLinked, Dangles;
      handle, r := OpenNamed(name.value);
    }

    /** dlopen of a name. */
    method OpenNamed(name: string) returns (handle: uint32, r: Found)
      requires Valid()
      modifies this`objects, this`solist, this`somain, this`nextId, this`claims, this`rank, this`clock, this`history,
        this`events, this`faulted, this`refusals
      ensures r != Dangling ==> Valid() && old(events) <= events
      ensures refusals >= old(refusals)
      ensures r.Loaded? <==> Resolves(old(W()), name) && refusals == old(refusals)
      ensures refusals == old(refusals) ==> (r == Dangling <==> Dangles(old(W()), name))
      ensures r.Loaded? && AllLinked(old(objects)) ==> AllLinked(objects)
      ensures r.Loaded? ==> Opened(old(G()), G(), name, r.id, handle, old(faulted), faulted, events)
      ensures r == Failed ==>
        objects == old(objects) && solist == old(solist) && somain == old(somain) && claims == old(claims)
        && events == old(events)
      ensures r == Dangling ==> ListsFreed(G()) && NeedsMore(name, old(LoadedNames(objects)))
    {
      hide Sound, Opened, Linker.NeedsMore, LoadedNames, WorldOf, Resolves, Outcome, DangleOutcome, FindEffect,
        ListsFreed, AllLinked, Dangles;
      handle := 0;
      ghost var g := G();
      r := FindLibrary(name);
      OutcomeMeans(old(W()), W(), name, r.Loaded?, old(refusals), refusals);
      DangleMeans(old(W()), name, r == Dangling, old(refusals), refusals);
      match r
      case Loaded(id) =>
        OpenedIn(g, G(), name, id);
        ghost var found := G();
        SoundParts(found, {}, faulted, history, events);
        AllLinkedAfter(g, found, name, old(refusals), refusals, sources);
        handle := Start(id, name, g);
        AllLinkedKept(found, G());
      case Failed => FailedAll(g, G(), name);
      case Dangling => DanglingLists(g, G(), name);
    }

    /** The constructors of a library just opened. */
    method Start(id: Id, ghost name: string, ghost g: Graph) returns (handle: uint32)
      requires Valid() && FindEffect(g, G(), name, Loaded(id)) && id in objects && objects[id].linked
      modifies this`objects, this`events, this`faulted
      ensures Valid() && old(events) <= events
      ensures KeptFrom(old(G()), G()) && objects.Keys == old(objects).Keys
      ensures Opened(g, G(), name, id, handle, old(faulted), faulted, events)
    {
      ghost var found := G();
      OpenedIn(g, found, name, id);
      FoundThenFlagged(g, found, found, name, id);
      Ranked(found, faulted, history, events, id);
      hide Sound, Flagged, HasInit, FindEffect, KeptFrom;
      ghost var f0, e0 := faulted, events;
      if !objects[id].Host() {
        var ok := CallConstructors(id, {});
        RanHas(found, G(), id, ok, f0, faulted, e0, events);
        FoundThenFlagged(g, found, G(), name, id);
        if !ok { return 0; }
        if !faulted { ConstructedHasInit(G(), history, events, id); }
      }
      handle := objects[id].bias;
    }

    /** The search loop of agr_aosp_dynamic_dlclose. */
    method FindHandle(handle: uint32) returns (r: Option<Id>)
      requires forall j :: 0 <= j < |solist| ==> solist[j] in objects
      ensures r == FirstWith(objects, solist, handle)
      ensures r.None? ==> forall j :: 0 <= j < |solist| ==> objects[solist[j]].bias != handle
      ensures r.Some? ==> exists i ::
        && 0 <= i < |solist| && solist[i] == r.value && objects[solist[i]].bias == handle
        && forall j :: 0 <= j < i ==> objects[solist[j]].bias != handle
    {
      var i := 0;
      assert solist[0..] == solist;
      while i < |solist|
        invariant 0 <= i <= |solist| && FirstWith(objects, solist, handle) == FirstWith(objects, solist[i..], handle)
        invariant forall j :: 0 <= j < i ==> objects[solist[j]].bias != handle
      {
        assert solist[i..][1..] == solist[i + 1..];
        if objects[solist[i]].bias == handle { return Some(solist[i]); }
        i := i + 1;
      }
      r := None;
    }

    /** agr_aosp_dynamic_dlclose, by a caller that holds the reference it gives back. */
    method Dlclose(handle: uint32) returns (code: int)
      requires Valid()
      requires var r := FirstWith(objects, solist, handle); r.Some? ==> r.value in claims
      modifies this`objects, this`solist, this`somain, this`claims, this`events, this`faulted
      ensures Valid()
      ensures handle == SELF_HANDLE ==> code == 0 && G() == old(G()) && events == old(events) && faulted == old(faulted)
      ensures handle != SELF_HANDLE ==> match old(FirstWith(objects, solist, handle))
        case None => code == -1 && G() == old(G()) && events == old(events) && faulted == old(faulted)
        case Some(id) =>
          && id in old(objects)
          && Released(old(G()), G(), multiset{id}, code, old(faulted), faulted, old(events), events)
          && UnloadedOne(old(G()), G(), id, code, old(faulted), faulted, old(events), events)
    {
      if handle == SELF_HANDLE { return 0; }
      SoundParts(G(), {}, faulted, history, events);
      AllListed(objects, solist);
      hide Sound, Ok, Positive, Released, UnloadedOne, FirstWith;
      var found := FindHandle(handle);
      if found.None? { return -1; }
      SoundClaim(G(), {}, faulted, history, events, found.value);
      code := Unload(found.value);
    }
  }

  // ---- Several calls ----------------------------------------------------------------------------

  /** dlclose with the handle of a dlopen undoes it, provided the handle leads back to the library that was opened. */
  method OpenAndClose(linker: Linker, name: string) returns (r: Found, code: Option<int>)
    requires linker.Valid() && AllLinked(linker.objects)
    modifies linker
    ensures r.Loaded? ==> linker.Valid()
    ensures r.Loaded? && code == Some(0) ==> Regained(old(linker.G()), linker.G())
    ensures code.Some? && code.value != 0 ==> linker.faulted
  {
    ghost var g, f0 := linker.G(), linker.faulted;
    SoundParts(g, {}, linker.faulted, linker.history, linker.events);
    var handle;
    handle, r := linker.Dlopen(Some(name), 0);
    code := None;
    if r.Loaded? {
      ghost var mid, f1, e1 := linker.G(), linker.faulted, linker.events;
      SoundParts(mid, {}, linker.faulted, linker.history, linker.events);
      AllListed(linker.objects, linker.solist);
      hide Sound, Ok, Positive, Released, Opened, UnloadedOne, FirstWith, Regained;
      OpenedClaims(g, mid, name, r.id, handle, f0, f1, e1);
      var found := linker.FindHandle(handle);
      if handle != SELF_HANDLE && found == Some(r.id) {
        var done := linker.Dlclose(handle);
        code := Some(done);
        SoundParts(linker.G(), {}, linker.faulted, linker.history, linker.events);
        ClosedCodes(mid, linker.G(), r.id, done, f1, linker.faulted, e1, linker.events);
        if done == 0 {
          CloseRestores(g, mid, linker.G(), name, r.id, handle, f0, f1, linker.faulted, e1, linker.events);
        }
      }
    }
  }

  /**
   A library that needs a loadable one and a missing one: if the loadable one comes first, the linker ends with a freed
   library in its list; in the other order the open fails cleanly.
   */
  method OpenWithMissing(name: string, present: string, missing: string, file: Source, other: Source,
      missingFirst: bool) returns (linker: Linker, r: Found)
    requires name != present && missing != name && missing != present && missing !in HOST_LIBRARIES
    requires file.needed == (if missingFirst then [missing, present] else [present, missing]) && other.needed == []
    ensures !r.Loaded?
    ensures linker.refusals == 0 ==> (r == Dangling <==> !missingFirst)
    ensures r == Dangling ==> ListsFreed(linker.G())
  {
    linker := new Linker();
    linker.Register(name, file);
    linker.Register(present, other);
    ghost var w := linker.W();
    assert linker.objects == map[];
    assert w == World(map[name := file, present := other], {}, {});
    if missingFirst {
      MissingFirst(w, name, present, missing);
    } else {
      LoadableThenMissing(w, name, present, missing);
    }
    hide Dangles, Resolves, ListsFreed, Sound, Opened, HOST_LIBRARIES;
    var handle;
    handle, r := linker.Dlopen(Some(name), 0);
  }
}
