/**
 When a failed load leaves a freed library in the list (Runtime/AospLinker/agr_aosp_dynamic.cpp:222-237): the error path
 removes the last entry, and that is another library once one has been loaded in between.
 */
module LinkDangling {
  import opened Prelude
  import opened LinkGraph
  import opened InitOrder
  import opened LinkSteps
  import opened LinkClosure

  /** Some library needed before the `i`-th is not linked yet, so it is loaded before the `i`-th is looked for. */
  predicate LoadsBefore(w: World, names: seq<string>, i: nat) {
    exists j :: 0 <= j < i && j < |names| && names[j] !in w.linked
  }

  /** `i` is the first of the names that cannot be loaded. */
  ghost predicate FirstMissing(w: World, names: seq<string>, i: nat) {
    i < |names| && !Resolves(w, names[i]) && forall j :: 0 <= j < i ==> Resolves(w, names[j])
  }

  /**
   Loading `name` fails, and a library on the way to the failure loads another one before it comes to its first missing
   need.
   */
  ghost predicate Dangles(w: World, name: string)
    decreases w.sources.Keys - w.listed, 0
  {
    New(w, name) && Strands(Listing(w, name), w.sources[name].needed)
  }

  /** The same for a list of needs. */
  ghost predicate Strands(w: World, names: seq<string>)
    decreases w.sources.Keys - w.listed, 1
  {
    exists i: nat :: FirstMissing(w, names, i) && (LoadsBefore(w, names, i) || Dangles(w, names[i]))
  }

  /** If no file operation failed, the freed library stays in the list exactly under this condition. */
  ghost predicate DangleOutcome(w: World, name: string, dangling: bool, before: nat, after: nat) {
    after == before ==> (dangling <==> Dangles(w, name))
  }

  ghost predicate StrandOutcome(w: World, names: seq<string>, stranded: bool, before: nat, after: nat) {
    after == before ==> (stranded <==> Strands(w, names))
  }

  /**
   How soinfo_link_image ended badly: with a library freed but still listed, or with others listed after the one that
   failed.
   */
  predicate Stranded(r: LinkResult, before: seq<Id>, after: seq<Id>) {
    r == Poisoned || (r == Broken && after != before)
  }

  lemma DangleMeans(w: World, name: string, dangling: bool, before: nat, after: nat)
    requires DangleOutcome(w, name, dangling, before, after)
    ensures after == before ==> (dangling <==> Dangles(w, name))
  {
  }

  lemma OnlyOneFirst(w: World, names: seq<string>, i: nat, j: nat)
    requires FirstMissing(w, names, i) && FirstMissing(w, names, j)
    ensures i == j
  {
  }

  lemma NotNew(w: World, name: string, n: nat)
    requires name in w.listed || name !in w.sources
    ensures DangleOutcome(w, name, false, n, n)
  {
  }

  lemma RefusedDangle(w: World, name: string, dangling: bool, before: nat, after: nat)
    requires before < after
    ensures DangleOutcome(w, name, dangling, before, after)
  {
  }

  lemma ListedDangle(objects: map<Id, So>, id: Id, sources: map<string, Source>, n: nat)
    requires id in objects
    ensures DangleOutcome(WorldOf(objects, sources), objects[id].name, false, n, n)
  {
    NotNew(WorldOf(objects, sources), objects[id].name, n);
  }

  lemma NewDangle(w: World, name: string, stranded: bool, before: nat, after: nat)
    requires name !in w.listed && name in w.sources && w.linked <= w.listed
    requires StrandOutcome(Listing(w, name), w.sources[name].needed, stranded, before, after)
    ensures DangleOutcome(w, name, stranded, before, after)
  {
    hide Strands;
  }

  /** The needs loop at a name that was not found. */
  lemma StrandedAt(w: World, mid: World, w': World, names: seq<string>, i: nat, grew: bool, poisoned: bool, before: nat,
      after: nat)
    requires i < |names| && Grows(w, mid) && AllResolve(w, names[..i]) && (grew <==> LoadsBefore(w, names, i))
      && (!grew ==> mid == w)
    requires Outcome(mid, w', names[i], false, before, after) && DangleOutcome(mid, names[i], poisoned, before, after)
    ensures StrandOutcome(w, names, poisoned || grew, before, after)
  {
    SameResolves(w, mid, names[i]);
    if after == before {
      forall j | 0 <= j < i ensures Resolves(w, names[j]) { assert names[j] == names[..i][j]; }
      assert FirstMissing(w, names, i);
      if k: nat :| FirstMissing(w, names, k) && (LoadsBefore(w, names, k) || Dangles(w, names[k])) {
        OnlyOneFirst(w, names, i, k);
      }
    }
  }

  lemma NothingStranded(w: World, names: seq<string>, n: nat)
    requires AllResolve(w, names[..|names|])
    ensures StrandOutcome(w, names, false, n, n)
  {
    forall i: nat | i < |names| ensures !FirstMissing(w, names, i) { assert names[i] in names[..|names|]; }
  }

  /** Linking after all needs were found fails only with a refusal. */
  lemma StrandLinked(w: World, names: seq<string>, broken: bool, before: nat, middle: nat, after: nat)
    requires StrandOutcome(w, names, false, before, middle) && before <= middle <= after && (broken ==> after > middle)
    ensures StrandOutcome(w, names, broken, before, after)
  {
  }

  /** One name more has been found. */
  lemma LoadsNext(w: World, mid: World, names: seq<string>, i: nat)
    requires i < |names| && Grows(w, mid)
    ensures LoadsBefore(w, names, i + 1) <==> LoadsBefore(w, names, i) || names[i] !in w.linked
    ensures names[i] in w.linked ==> names[i] in mid.linked
  {
  }

  // ---- The list and the world --------------------------------------------------------------------------

  /** As long as nothing has been listed, the same libraries are linked. */
  lemma SameListSameWorld(g: Graph, g': Graph, si: Id, sources: map<string, Source>)
    requires Ok(g) && Ok(g') && Progress(g, g', si) && g'.solist == g.solist
      && g'.objects[si].linked == g.objects[si].linked
    ensures WorldOf(g'.objects, sources) == WorldOf(g.objects, sources)
  {
    assert g'.objects.Keys == g.objects.Keys by {
      forall id ensures id in g'.objects <==> id in g.objects { assert id in g.objects <==> id in g.solist; }
    }
    forall id | id in g.objects ensures g'.objects[id].name == g.objects[id].name
      && g'.objects[id].linked == g.objects[id].linked {
      if id != si { assert SameButRefs(g.objects[id], g'.objects[id]); }
    }
    SameWorld(g.objects, g'.objects, sources);
  }

  /** A library that was found without being listed was linked before. */
  lemma FoundInList(g: Graph, g': Graph, name: string, id: Id, sources: map<string, Source>)
    requires Ok(g) && Ok(g') && FindEffect(g, g', name, Loaded(id)) && g'.solist == g.solist
    ensures name in WorldOf(g.objects, sources).linked
  {
    assert id in g'.solist;
    assert id in g.objects && SameButRefs(g.objects[id], g'.objects[id]);
  }

  /** The failed library is the last in the list exactly if none was listed after it. */
  lemma LastIffNothingElse(g0: Graph, g: Graph, si: Id, faulted: bool, history: map<Id, So>, events: seq<Event>)
    requires Sound(g, {si}, {}, faulted, history, events) && Began(g0, g, si)
    ensures g.solist != [] && (g.solist[|g.solist| - 1] == si <==> g.solist == g0.solist + [si])
  {
    hide Acyclic, Counted, Positive, Orderly, SameButRefs;
    assert Distinct(g.solist);
    if g.solist[|g.solist| - 1] == si { OnlyNewest(g0.solist, g.solist, si); }
  }

  /** The parts of the linker's record besides the graph. */
  datatype Status = Status(faulted: bool, history: map<Id, So>, events: seq<Event>)

  /** Finding a library lists something exactly if that library was not linked. */
  lemma FoundListed(g: Graph, g': Graph, name: string, id: Id, sources: map<string, Source>, was: Status, now: Status)
    requires Sound(g, {}, {}, was.faulted, was.history, was.events)
      && Sound(g', {}, {}, now.faulted, now.history, now.events)
    requires FindEffect(g, g', name, Loaded(id)) && (name in LoadedNames(g.objects) ==> g'.solist == g.solist)
    ensures g.solist <= g'.solist && (g'.solist == g.solist <==> name in WorldOf(g.objects, sources).linked)
  {
    LinkedIsLoaded(g.objects, sources, name);
    if g'.solist == g.solist { FoundInList(g, g', name, id, sources); }
  }

  /** The needs loop goes on: the list has grown exactly if some name so far was not linked. */
  lemma NextFound(g: Graph, mid: Graph, now: Graph, si: Id, sources: map<string, Source>, w: World, names: seq<string>,
      i: nat)
    requires Ok(g) && Ok(now) && Progress(g, now, si) && now.objects[si].linked == g.objects[si].linked && i < |names|
    requires w == WorldOf(g.objects, sources) && Grows(w, WorldOf(mid.objects, sources))
    requires g.solist <= mid.solist <= now.solist
    requires (mid.solist != g.solist <==> LoadsBefore(w, names, i))
      && (mid.solist == g.solist ==> WorldOf(mid.objects, sources) == w)
    requires now.solist == mid.solist <==> names[i] in WorldOf(mid.objects, sources).linked
    ensures g.solist <= now.solist && (now.solist != g.solist <==> LoadsBefore(w, names, i + 1))
    ensures now.solist == g.solist ==> WorldOf(now.objects, sources) == w
  {
    hide Ok, Progress, WorldOf;
    LoadsNext(w, WorldOf(mid.objects, sources), names, i);
    if now.solist == g.solist { SameListSameWorld(g, now, si, sources); }
  }

  lemma LinkedIsLoaded(objects: map<Id, So>, sources: map<string, Source>, name: string)
    ensures name in WorldOf(objects, sources).linked ==> name in LoadedNames(objects)
  {
  }

  // ---- One library ---------------------------------------------------------------------------------------

  /** What parsing and linking the new library `so` came to. */
  ghost predicate ParseResult(g: Graph, so: So, now: Graph, sources: map<string, Source>, r: LinkResult, before: nat,
      after: nat) {
    var w, w' := WorldOf(g.objects, sources), WorldOf(now.objects, sources);
    var solist := g.solist + [g.nextId];
    && Outcome(w, w', so.name, r == Linked, before, after)
    && DangleOutcome(w, so.name, Stranded(r, solist, now.solist), before, after)
    && (now.solist != solist || r == Poisoned ==>
         so.name in sources && AnyMissing(sources[so.name].needed, LoadedNames(g.objects)))
    && (if r == Poisoned then ListsFreed(now) else Began(g, now, g.nextId))
    && (r == Linked ==> LoadEffect(g, now, so.name, g.nextId))
  }

  lemma ParseRefused(g: Graph, so: So, sources: map<string, Source>, n: nat)
    requires g.nextId !in g.objects
    ensures ParseResult(g, so, Push(g, so), sources, Broken, n, n + 1)
  {
    PushBegins(g, so);
    hide WorldOf, Began, Outcome, DangleOutcome;
    RefusedOutcome(WorldOf(g.objects, sources), WorldOf(Push(g, so).objects, sources), so.name, n, n + 1);
    RefusedDangle(WorldOf(g.objects, sources), so.name, false, n, n + 1);
  }

  lemma ParseLinked(g: Graph, so: So, now: Graph, sources: map<string, Source>, r: LinkResult, before: nat, after: nat)
    requires NameFree(g.objects, so.name) && g.nextId !in g.objects && !so.linked
    requires so.name in sources && so.source == Some(sources[so.name])
    requires var begun, needed := Push(g, so), sources[so.name].needed;
      && LinkOutcome(WorldOf(begun.objects, sources), WorldOf(now.objects, sources), so.name, needed, r == Linked,
        before,
        after)
      && StrandOutcome(WorldOf(begun.objects, sources), needed, Stranded(r, begun.solist, now.solist), before, after)
      && (r == Poisoned || now.solist != begun.solist ==> AnyMissing(needed, LoadedNames(begun.objects)))
      && (if r == Poisoned then ListsFreed(now) else Progress(begun, now, g.nextId))
      && (r == Linked ==> g.nextId in now.objects && now.objects[g.nextId].linked)
    ensures ParseResult(g, so, now, sources, r, before, after)
  {
    var w, begun := WorldOf(g.objects, sources), Push(g, so);
    FreeWorld(g.objects, sources, so.name);
    AddedWorld(g.objects, g.nextId, so, sources);
    NameAdded(g.objects, g.nextId, so);
    PushBegins(g, so);
    hide WorldOf, Began, Outcome, DangleOutcome, LinkOutcome, StrandOutcome, LoadedNames, AnyMissing, LoadEffect,
      Progress,
      ListsFreed, NameFree;
    LoadedOutcome(w, WorldOf(now.objects, sources), so.name, r == Linked, before, after);
    NewDangle(w, so.name, Stranded(r, begun.solist, now.solist), before, after);
    if r == Poisoned || now.solist != begun.solist {
      MissingBefore(sources[so.name].needed, LoadedNames(g.objects), so.name);
    }
    if r == Linked { LoadedWhole(g, so, now); }
    if r != Poisoned { StillBegun(g, begun, now, g.nextId); }
  }

  lemma ParseParts(g: Graph, so: So, now: Graph, sources: map<string, Source>, r: LinkResult, before: nat, after: nat)
    requires ParseResult(g, so, now, sources, r, before, after)
    ensures Outcome(WorldOf(g.objects, sources), WorldOf(now.objects, sources), so.name, r == Linked, before, after)
    ensures DangleOutcome(WorldOf(g.objects, sources), so.name, Stranded(r, g.solist + [g.nextId], now.solist), before,
      after)
    ensures now.solist != g.solist + [g.nextId] || r == Poisoned ==>
      so.name in sources && AnyMissing(sources[so.name].needed, LoadedNames(g.objects))
    ensures if r == Poisoned then ListsFreed(now) else Began(g, now, g.nextId)
    ensures r == Linked ==> LoadEffect(g, now, so.name, g.nextId)
  {
  }

  // ---- The needs loop ----------------------------------------------------------------------------------

  /** After the first `i` needs of `si` have been found, beginning at `g`. */
  ghost predicate FoundSoFar(g: Graph, now: Graph, si: Id, sources: map<string, Source>, names: seq<string>, i: nat) {
    var w, w' := WorldOf(g.objects, sources), WorldOf(now.objects, sources);
    && i <= |names| && Progress(g, now, si) && now.objects[si].linked == g.objects[si].linked
    && Grows(w, w') && AllResolve(w, names[..i])
    && g.solist <= now.solist && (now.solist != g.solist <==> LoadsBefore(w, names, i))
      && (now.solist == g.solist ==> w' == w)
  }

  /** How the loop ends. */
  ghost predicate NeedsResult(g: Graph, now: Graph, si: Id, sources: map<string, Source>, names: seq<string>,
      r: LinkResult, before: nat, after: nat) {
    var w, w' := WorldOf(g.objects, sources), WorldOf(now.objects, sources);
    && NeedsOutcome(w, w', names, r == Linked, before, after)
    && StrandOutcome(w, names, Stranded(r, g.solist, now.solist), before, after)
    && (r == Poisoned || now.solist != g.solist ==> AnyMissing(names, LoadedNames(g.objects)))
    && (if r == Poisoned then ListsFreed(now) else Progress(g, now, si))
  }

  lemma NeedsParts(g: Graph, now: Graph, si: Id, sources: map<string, Source>, names: seq<string>, r: LinkResult,
      before: nat, after: nat)
    requires NeedsResult(g, now, si, sources, names, r, before, after)
    ensures NeedsOutcome(WorldOf(g.objects, sources), WorldOf(now.objects, sources), names, r == Linked, before, after)
    ensures StrandOutcome(WorldOf(g.objects, sources), names, Stranded(r, g.solist, now.solist), before, after)
      && before <= after
    ensures r == Poisoned || now.solist != g.solist ==> AnyMissing(names, LoadedNames(g.objects))
    ensures if r == Poisoned then ListsFreed(now) else Progress(g, now, si)
  {
  }

  lemma NothingFoundYet(g: Graph, si: Id, sources: map<string, Source>, names: seq<string>)
    requires si in g.objects
    ensures FoundSoFar(g, g, si, sources, names, 0)
  {
    ProgressStart(g, si);
    NoNeedsFound(WorldOf(g.objects, sources), names);
  }

  lemma NamesKept(g: Graph, now: Graph, si: Id, sources: map<string, Source>, names: seq<string>, i: nat)
    requires FoundSoFar(g, now, si, sources, names, i)
    ensures LoadedNames(g.objects) <= LoadedNames(now.objects)
  {
    NamesStay(g, now, si);
  }

  lemma FewerRemain(all: set<string>, before: set<string>, after: set<string>)
    requires before <= after
    ensures all - after == all - before || all - after < all - before
  {
  }

  lemma FoundOneMore(g: Graph, mid: Graph, now: Graph, si: Id, sources: map<string, Source>, names: seq<string>, i: nat,
      before: nat, after: nat)
    requires Ok(g) && Ok(now) && FoundSoFar(g, mid, si, sources, names, i) && i < |names|
    requires Progress(mid, now, si) && now.objects[si].linked == mid.objects[si].linked && mid.solist <= now.solist
    requires now.solist == mid.solist <==> names[i] in WorldOf(mid.objects, sources).linked
    requires Outcome(WorldOf(mid.objects, sources), WorldOf(now.objects, sources), names[i], true, before, after)
    ensures FoundSoFar(g, now, si, sources, names, i + 1) && after == before
  {
    var w, w1, w' := WorldOf(g.objects, sources), WorldOf(mid.objects, sources), WorldOf(now.objects, sources);
    hide Ok, WorldOf, Grows, AllResolve, LoadsBefore, Outcome;
    NeedFound(w, w1, w', names, i, true, before, after);
    ProgressTrans(g, mid, now, si);
    NextFound(g, mid, now, si, sources, w, names, i);
  }

  /** A need that was not found ends the loop. */
  lemma FailedHere(g: Graph, mid: Graph, now: Graph, si: Id, sources: map<string, Source>, names: seq<string>, i: nat,
      r: LinkResult, before: nat, after: nat)
    requires FoundSoFar(g, mid, si, sources, names, i) && i < |names| && r != Linked
    requires Outcome(WorldOf(mid.objects, sources), WorldOf(now.objects, sources), names[i], r == Linked, before, after)
    requires DangleOutcome(WorldOf(mid.objects, sources), names[i], r == Poisoned, before, after)
    requires r == Broken ==> now.solist == mid.solist && Progress(mid, now, si)
    requires r == Poisoned ==> names[i] !in LoadedNames(mid.objects)
    requires r == Poisoned ==> ListsFreed(now)
    ensures NeedsResult(g, now, si, sources, names, r, before, after)
  {
    var w, w1, w' := WorldOf(g.objects, sources), WorldOf(mid.objects, sources), WorldOf(now.objects, sources);
    assert w.listed == LoadedNames(g.objects);
    hide WorldOf, Grows, AllResolve, LoadsBefore, Outcome, NeedsOutcome, DangleOutcome, StrandOutcome, AnyMissing,
      LoadedNames, Progress, ListsFreed;
    NeedFound(w, w1, w', names, i, false, before, after);
    StrandedAt(w, w1, w', names, i, mid.solist != g.solist, r == Poisoned, before, after);
    if r == Broken { ProgressTrans(g, mid, now, si); }
    if r == Poisoned {
      NamesStay(g, mid, si);
      MissingAt(names, i, LoadedNames(g.objects), LoadedNames(mid.objects));
    } else if mid.solist != g.solist {
      LoadsMissing(w, names, i);
    }
  }

  lemma AllFound(g: Graph, now: Graph, si: Id, sources: map<string, Source>, names: seq<string>, n: nat)
    requires FoundSoFar(g, now, si, sources, names, |names|)
    ensures NeedsResult(g, now, si, sources, names, Linked, n, n)
  {
    var w := WorldOf(g.objects, sources);
    assert w.listed == LoadedNames(g.objects);
    hide WorldOf, Grows, AllResolve, LoadsBefore, NeedsOutcome, StrandOutcome, AnyMissing, LoadedNames, Progress;
    NeedsFound(w, WorldOf(now.objects, sources), names, n);
    NothingStranded(w, names, n);
    if now.solist != g.solist { LoadsMissing(w, names, |names|); }
  }

  /** What resolves without being linked is not listed either. */
  lemma LoadsMissing(w: World, names: seq<string>, i: nat)
    requires LoadsBefore(w, names, i) && i <= |names| && AllResolve(w, names[..i])
    ensures AnyMissing(names, w.listed)
  {
    var j :| 0 <= j < i && j < |names| && names[j] !in w.linked;
    assert names[j] in names[..i];
    ResolvesUnfold(w, names[j]);
    MissingAt(names, j, w.listed, w.listed);
  }

  // ---- Libraries that do it ----------------------------------------------------------------------------

  /** A new library that needs first a loadable one and then a missing one. */
  lemma LoadableThenMissing(w: World, name: string, first: string, second: string)
    requires New(w, name) && w.linked <= w.listed && w.sources[name].needed == [first, second]
    requires first != name && New(w, first) && w.sources[first].needed == []
    requires second !in w.listed && second !in w.sources && second !in HOST_LIBRARIES
    ensures Dangles(w, name) && !Resolves(w, name)
  {
    var w1 := Listing(w, name);
    assert Within(w1, first, 1);
    ResolvesUnfold(w1, second);
    ResolvesUnfold(w, name);
    assert !Resolves(w, second) by { ResolvesUnfold(w, second); }
    assert second in w.sources[name].needed;
    assert FirstMissing(w1, [first, second], 1);
    assert LoadsBefore(w1, [first, second], 1) by { assert [first, second][0] !in w1.linked; }
  }

  /** The same needs the other way round fail cleanly: nothing is loaded before the missing one is looked for. */
  lemma MissingFirst(w: World, name: string, first: string, second: string)
    requires New(w, name) && w.linked <= w.listed && w.sources[name].needed == [second, first]
    requires second !in w.listed && second !in w.sources && second !in HOST_LIBRARIES
    ensures !Dangles(w, name) && !Resolves(w, name)
  {
    var w1 := Listing(w, name);
    assert !Resolves(w1, second) by { ResolvesUnfold(w1, second); }
    assert !Resolves(w, second) by { ResolvesUnfold(w, second); }
    assert second in w.sources[name].needed;
    ResolvesUnfold(w, name);
    var names := w.sources[name].needed;
    assert FirstMissing(w1, names, 0) && !New(w1, second);
    forall i: nat | FirstMissing(w1, names, i) ensures !LoadsBefore(w1, names, i) && !Dangles(w1, names[i]) {
      OnlyOneFirst(w1, names, i, 0);
    }
  }
}
