/**
 The order in which constructors and finalizers run, as a log of completed runs
 (Runtime/AospLinker/agr_aosp_dynamic.cpp:194-203,247).
 */
module InitOrder {
  import opened Prelude
  import opened LinkGraph

  /** All constructors of a library have run, or all its finalizers, calling these functions. */
  datatype Event = Init(id: Id, fns: seq<uint32>) | Fini(id: Id, fns: seq<uint32>)

  /** The functions CallFunction does not skip. */
  function Runnable(fns: seq<uint32>): (r: seq<uint32>) {
    if fns == [] then []
    else Runnable(fns[..|fns| - 1]) + if Skipped(fns[|fns| - 1]) then [] else [fns[|fns| - 1]]
  }

  predicate Skipped(fn: uint32) { fn == 0 || fn == 0xffff_ffff }

  function Reversed(fns: seq<uint32>): (r: seq<uint32>)
    ensures |r| == |fns| && forall i :: 0 <= i < |fns| ==> r[i] == fns[|fns| - 1 - i]
  {
    seq(|fns|, i requires 0 <= i < |fns| => fns[|fns| - 1 - i])
  }

  /** init_func, then init_array in order. */
  function InitFns(source: Option<Source>): (r: seq<uint32>) {
    match source case None => [] case Some(s) => Runnable([s.initFunc]) + Runnable(s.initArray)
  }

  /** fini_array backwards, then fini_func. */
  function FiniFns(source: Option<Source>): (r: seq<uint32>) {
    match source case None => [] case Some(s) => Runnable(Reversed(s.finiArray)) + Runnable([s.finiFunc])
  }

  predicate IsInit(e: Event, id: Id) { e.Init? && e.id == id }

  ghost predicate HasInit(events: seq<Event>, id: Id) {
    exists k :: 0 <= k < |events| && IsInit(events[k], id)
  }

  /**
   What an entry promises about those before it: constructors run once, after those of everything the library needs;
   finalizers run once, and no library is finalized after one that it needs.
   */
  ghost predicate EventOk(history: map<Id, So>, events: seq<Event>, k: nat)
    requires k < |events|
  {
    var id := events[k].id;
    id in history
    && if events[k].Init? then
         && events[k].fns == InitFns(history[id].source)
         && !HasInit(events[..k], id) && forall d :: d in history[id].needed ==> HasInit(events[..k], d)
       else
         && events[k].fns == FiniFns(history[id].source)
         && forall j :: 0 <= j < k && events[j].Fini? ==> events[j].id != id && events[j].id !in history[id].needed
  }

  /** A chain of needs among all libraries ever linked. */
  ghost predicate IsChain(history: map<Id, So>, chain: seq<Id>) {
    && (forall k :: 0 <= k < |chain| ==> chain[k] in history)
    && forall k :: 0 <= k < |chain| - 1 ==> chain[k + 1] in history[chain[k]].needed
  }

  /** `id` needs `x`, directly or through others. */
  ghost predicate Reaches(history: map<Id, So>, id: Id, x: Id) {
    exists chain :: IsChain(history, chain) && |chain| > 1 && chain[0] == id && chain[|chain| - 1] == x
  }

  /** No library has been finalized after one that it reaches, and what a recorded library needs is recorded too. */
  ghost predicate FinisDeep(history: map<Id, So>, events: seq<Event>) {
    && (forall id :: id in history ==> forall d :: d in history[id].needed ==> d in history)
    && (forall k :: 0 <= k < |events| ==> events[k].id in history)
    && forall j, k :: 0 <= j < k < |events| && events[j].Fini? && events[k].Fini? ==>
      !Reaches(history, events[k].id, events[j].id)
  }

  /** `history` keeps every library ever linked; `active` are the libraries whose constructors are under way. */
  ghost predicate Orderly(objects: map<Id, So>, history: map<Id, So>, events: seq<Event>, nextId: nat,
      active: set<Id>) {
    && (forall id :: id in objects ==> Recorded(objects, history, id))
    && (forall id :: id in history ==> id < nextId)
    && (forall id :: id in objects ==> (objects[id].constructed <==> HasInit(events, id) || id in active))
    && (forall id :: id in active ==> !HasInit(events, id))
    && (forall k :: 0 <= k < |events| ==> EventOk(history, events, k))
    && (forall k :: 0 <= k < |events| && events[k].Fini? ==> events[k].id !in objects)
    && FinisDeep(history, events)
  }

  ghost predicate Recorded(objects: map<Id, So>, history: map<Id, So>, id: Id)
    requires id in objects
  {
    if objects[id].linked then id in history && history[id].needed == objects[id].needed
      && history[id].source == objects[id].source
    else id !in history
  }

  lemma NoInitYet(history: map<Id, So>, events: seq<Event>, id: Id)
    requires id !in history && forall k :: 0 <= k < |events| ==> EventOk(history, events, k)
    ensures !HasInit(events, id)
  {
    if HasInit(events, id) {
      var k :| 0 <= k < |events| && IsInit(events[k], id);
      EventKnown(history, events, k);
    }
  }

  lemma EventKnown(history: map<Id, So>, events: seq<Event>, k: nat)
    requires k < |events| && EventOk(history, events, k)
    ensures events[k].id in history
  {
  }

  lemma HasInitAppend(events: seq<Event>, e: Event, id: Id)
    ensures HasInit(events + [e], id) <==> HasInit(events, id) || IsInit(e, id)
  {
    if HasInit(events, id) {
      var k :| 0 <= k < |events| && IsInit(events[k], id);
      assert IsInit((events + [e])[k], id);
    }
    if IsInit(e, id) { assert IsInit((events + [e])[|events|], id); }
  }

  lemma EventsAppend(history: map<Id, So>, events: seq<Event>, e: Event)
    requires forall k :: 0 <= k < |events| ==> EventOk(history, events, k)
    requires EventOk(history, events + [e], |events|)
    ensures forall k :: 0 <= k < |events + [e]| ==> EventOk(history, events + [e], k)
  {
    var events' := events + [e];
    forall k | 0 <= k < |events| ensures EventOk(history, events', k) {
      assert EventOk(history, events, k);
      assert events'[..k] == events[..k];
    }
  }

  /** Reference counts do not matter. */
  lemma OrderlyShape(objects: map<Id, So>, objects': map<Id, So>, history: map<Id, So>, events: seq<Event>, nextId: nat,
      active: set<Id>)
    requires Orderly(objects, history, events, nextId, active)
    requires objects'.Keys == objects.Keys && forall o :: o in objects ==> SameButRefs(objects[o], objects'[o])
    ensures Orderly(objects', history, events, nextId, active)
  {
    hide EventOk, HasInit, FinisDeep;
    forall id | id in objects' ensures Recorded(objects', history, id) { assert Recorded(objects, history, id); }
  }

  /** A new object that is not constructed; a host library is on record at once. */
  lemma OrderlyPush(objects: map<Id, So>, history: map<Id, So>, events: seq<Event>, nextId: nat, so: So)
    requires Orderly(objects, history, events, nextId, {}) && nextId !in objects && !so.constructed && so.needed == []
    ensures Orderly(objects[nextId := so], if so.linked then history[nextId := so] else history, events, nextId + 1, {})
  {
    assert nextId !in history;
    NoInitYet(history, events, nextId);
    var objects', history' := objects[nextId := so], if so.linked then history[nextId := so] else history;
    HistoryGrows(history, history', events);
    forall id | id in objects' ensures Recorded(objects', history', id) {
      if id in objects { assert Recorded(objects, history, id); }
    }
    forall k | 0 <= k < |events| && events[k].Fini? ensures events[k].id != nextId {
      assert EventOk(history, events, k);
    }
    assert FinisDeep(history', events) by {
      if so.linked { DeepGrows(history, nextId, so, events); }
    }
    hide EventOk, HasInit, Recorded, FinisDeep;
  }

  lemma HistoryGrows(history: map<Id, So>, history': map<Id, So>, events: seq<Event>)
    requires forall id :: id in history ==> id in history' && history'[id] == history[id]
    requires forall k :: 0 <= k < |events| ==> EventOk(history, events, k)
    ensures forall k :: 0 <= k < |events| ==> EventOk(history', events, k)
  {
    hide HasInit;
    forall k | 0 <= k < |events| ensures EventOk(history', events, k) { assert EventOk(history, events, k); }
  }

  /** A chain from a recorded library stays among the libraries recorded before. */
  lemma {:induction false} ChainInHistory(history: map<Id, So>, history': map<Id, So>, chain: seq<Id>, n: nat)
    requires forall id :: id in history ==> id in history' && history'[id] == history[id]
    requires forall id :: id in history ==> forall d :: d in history[id].needed ==> d in history
    requires IsChain(history', chain) && chain != [] && chain[0] in history && n < |chain|
    ensures forall k :: 0 <= k <= n ==> chain[k] in history
  {
    if n > 0 {
      ChainInHistory(history, history', chain, n - 1);
      assert chain[n - 1 + 1] in history'[chain[n - 1]].needed;
    }
  }

  lemma SameReaches(history: map<Id, So>, history': map<Id, So>, id: Id, x: Id)
    requires forall i :: i in history ==> i in history' && history'[i] == history[i]
    requires forall i :: i in history ==> forall d :: d in history[i].needed ==> d in history
    requires id in history && Reaches(history', id, x)
    ensures Reaches(history, id, x)
  {
    var chain :| IsChain(history', chain) && |chain| > 1 && chain[0] == id && chain[|chain| - 1] == x;
    ChainInHistory(history, history', chain, |chain| - 1);
    assert IsChain(history, chain);
  }

  /** One library more on record, whose needs are recorded. */
  lemma DeepGrows(history: map<Id, So>, id: Id, so: So, events: seq<Event>)
    requires FinisDeep(history, events) && id !in history && forall d :: d in so.needed ==> d in history
    ensures FinisDeep(history[id := so], events)
  {
    var history' := history[id := so];
    forall j, k | 0 <= j < k < |events| && events[j].Fini? && events[k].Fini?
      ensures !Reaches(history', events[k].id, events[j].id)
    {
      if Reaches(history', events[k].id, events[j].id) { SameReaches(history, history', events[k].id, events[j].id); }
    }
  }

  lemma DeepInit(history: map<Id, So>, events: seq<Event>, e: Event)
    requires FinisDeep(history, events) && e.Init? && e.id in history
    ensures FinisDeep(history, events + [e])
  {
    hide Reaches;
  }

  /** As long as a library is loaded, so is everything it reaches: none of that has been finalized. */
  lemma {:induction false} ReachedIsLoaded(objects: map<Id, So>, history: map<Id, So>, chain: seq<Id>, n: nat)
    requires forall id :: id in objects ==> Recorded(objects, history, id)
    requires AllNeedsLinked(objects)
    requires IsChain(history, chain) && chain != [] && chain[0] in objects && objects[chain[0]].linked && n < |chain|
    ensures chain[n] in objects && objects[chain[n]].linked
  {
    if n > 0 {
      ReachedIsLoaded(objects, history, chain, n - 1);
      assert Recorded(objects, history, chain[n - 1]);
      assert chain[n - 1 + 1] in history[chain[n - 1]].needed;
    }
  }

  ghost predicate AllNeedsLinked(objects: map<Id, So>) {
    forall o :: o in objects ==> forall d :: d in objects[o].needed ==> d in objects && objects[d].linked
  }

  lemma DeepFini(objects: map<Id, So>, history: map<Id, So>, events: seq<Event>, e: Event)
    requires FinisDeep(history, events) && e.Fini? && e.id in history && e.id in objects && objects[e.id].linked
    requires (forall id :: id in objects ==> Recorded(objects, history, id)) && AllNeedsLinked(objects)
    requires forall k :: 0 <= k < |events| && events[k].Fini? ==> events[k].id !in objects
    ensures FinisDeep(history, events + [e])
  {
    hide Recorded, AllNeedsLinked;
    forall j | 0 <= j < |events| && events[j].Fini? ensures !Reaches(history, e.id, events[j].id) {
      if chain :| IsChain(history, chain) && |chain| > 1 && chain[0] == e.id && chain[|chain| - 1] == events[j].id {
        ReachedIsLoaded(objects, history, chain, |chain| - 1);
        assert false;
      }
    }
    hide Reaches;
  }

  lemma OrderlyLink(objects: map<Id, So>, history: map<Id, So>, events: seq<Event>, nextId: nat, si: Id)
    requires Orderly(objects, history, events, nextId, {}) && si in objects && si < nextId && !objects[si].linked
      && AllNeedsLinked(objects)
    ensures Orderly(objects[si := objects[si].(linked := true)], history[si := objects[si]], events, nextId, {})
  {
    assert Recorded(objects, history, si);
    var objects', history' := objects[si := objects[si].(linked := true)], history[si := objects[si]];
    HistoryGrows(history, history', events);
    forall d | d in objects[si].needed ensures d in history { assert Recorded(objects, history, d); }
    DeepGrows(history, si, objects[si], events);
    hide FinisDeep;
    forall id | id in objects' ensures Recorded(objects', history', id) { assert Recorded(objects, history, id); }
    hide EventOk, HasInit, Recorded;
  }

  lemma OrderlyNeed(objects: map<Id, So>, history: map<Id, So>, events: seq<Event>, nextId: nat, si: Id, d: Id)
    requires Orderly(objects, history, events, nextId, {}) && si in objects && !objects[si].linked
    ensures Orderly(WithNeeded(objects, si, d), history, events, nextId, {})
  {
    hide EventOk, HasInit, FinisDeep;
    forall id | id in objects ensures Recorded(WithNeeded(objects, si, d), history, id) {
      assert Recorded(objects, history, id);
    }
  }

  /** Removing an object without running its finalizers. */
  lemma OrderlyAbandon(objects: map<Id, So>, history: map<Id, So>, events: seq<Event>, nextId: nat, si: Id)
    requires Orderly(objects, history, events, nextId, {})
    ensures Orderly(objects - {si}, history, events, nextId, {})
  {
    hide EventOk, HasInit, FinisDeep;
    forall id | id in objects - {si}
      ensures Recorded(objects - {si}, history, id) { assert Recorded(objects, history, id); }
  }

  /** Finalizing an object whose needs are all still loaded. */
  lemma OrderlyRemove(objects: map<Id, So>, history: map<Id, So>, events: seq<Event>, nextId: nat, si: Id)
    requires Orderly(objects, history, events, nextId, {}) && si in objects && objects[si].linked
    requires AllNeedsLinked(objects)
    ensures Orderly(objects - {si}, history, events + [Fini(si, FiniFns(objects[si].source))], nextId, {})
  {
    var e := Fini(si, FiniFns(objects[si].source));
    assert Recorded(objects, history, si);
    assert EventOk(history, events + [e], |events|);
    EventsAppend(history, events, e);
    DeepFini(objects, history, events, e);
    hide FinisDeep;
    forall id ensures HasInit(events + [e], id) <==> HasInit(events, id) { HasInitAppend(events, e, id); }
    hide EventOk, HasInit, FinisDeep;
    forall id | id in objects - {si}
      ensures Recorded(objects - {si}, history, id) { assert Recorded(objects, history, id); }
  }

  /** constructors_called = true. */
  lemma OrderlyBegin(objects: map<Id, So>, history: map<Id, So>, events: seq<Event>, nextId: nat, active: set<Id>,
      si: Id)
    requires Orderly(objects, history, events, nextId, active) && si in objects && !objects[si].constructed
    ensures Orderly(objects[si := objects[si].(constructed := true)], history, events, nextId, active + {si})
  {
    hide EventOk, HasInit, FinisDeep;
    var objects' := objects[si := objects[si].(constructed := true)];
    forall id | id in objects' ensures Recorded(objects', history, id) { assert Recorded(objects, history, id); }
  }

  /** The constructors of `si` have run, all its needs having been constructed before. */
  lemma OrderlyInit(objects: map<Id, So>, history: map<Id, So>, events: seq<Event>, nextId: nat, active: set<Id>,
      si: Id)
    requires Orderly(objects, history, events, nextId, active + {si}) && si in objects && objects[si].linked
      && si !in active
    requires forall d :: d in objects[si].needed ==> d in objects && objects[d].constructed && d !in active && d != si
    ensures Orderly(objects, history, events + [Init(si, InitFns(objects[si].source))], nextId, active)
  {
    var e := Init(si, InitFns(objects[si].source));
    assert Recorded(objects, history, si);
    assert (events + [e])[..|events|] == events;
    assert EventOk(history, events + [e], |events|);
    EventsAppend(history, events, e);
    DeepInit(history, events, e);
    hide FinisDeep;
    forall id ensures HasInit(events + [e], id) <==> HasInit(events, id) || id == si { HasInitAppend(events, e, id); }
    hide EventOk, HasInit, FinisDeep;
  }

  // ---- Consequences ---------------------------------------------------------------------------

  /** A library's constructors run after those of everything it needs, directly or through others. */
  lemma {:induction false} InitAfterAllNeeds(history: map<Id, So>, events: seq<Event>, k: nat, chain: seq<Id>)
      returns (j: nat)
    requires forall i :: 0 <= i < |events| ==> EventOk(history, events, i)
    requires k < |events| && events[k].Init? && IsChain(history, chain) && |chain| > 1 && chain[0] == events[k].id
    ensures j < k && IsInit(events[j], chain[|chain| - 1])
    decreases |chain|
  {
    assert EventOk(history, events, k);
    assert chain[0 + 1] in history[chain[0]].needed;
    var i :| 0 <= i < |events[..k]| && IsInit(events[..k][i], chain[1]);
    if |chain| == 2 {
      j := i;
    } else {
      forall n | 0 <= n < |chain[1..]| - 1 ensures chain[1..][n + 1] in history[chain[1..][n]].needed {
        assert chain[n + 1 + 1] in history[chain[n + 1]].needed;
      }
      j := InitAfterAllNeeds(history, events, i, chain[1..]);
    }
  }

  /** A library's finalizers run before those of everything it needs, directly or through others. */
  lemma FiniBeforeAllNeeds(history: map<Id, So>, events: seq<Event>, j: nat, k: nat, chain: seq<Id>)
    requires FinisDeep(history, events) && j < |events| && k < |events| && events[j].Fini? && events[k].Fini?
    requires IsChain(history, chain) && |chain| > 1 && chain[0] == events[k].id
      && chain[|chain| - 1] == events[j].id != events[k].id
    ensures k < j
  {
    assert Reaches(history, events[k].id, events[j].id);
  }

  /** Nothing is constructed or finalized twice. */
  lemma RunsOnce(history: map<Id, So>, events: seq<Event>, j: nat, k: nat)
    requires forall i :: 0 <= i < |events| ==> EventOk(history, events, i)
    requires j < k < |events| && events[j].Init? == events[k].Init?
    ensures events[j].id != events[k].id
  {
    assert EventOk(history, events, k);
    if events[j].Init? { InitAt(events, j, k); }
  }

  lemma InitAt(events: seq<Event>, j: nat, k: nat)
    requires j < k <= |events| && events[j].Init?
    ensures HasInit(events[..k], events[j].id)
  {
    assert IsInit(events[..k][j], events[j].id);
  }
}
