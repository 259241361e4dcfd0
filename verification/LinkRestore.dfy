/**
 dlclose after dlopen (Runtime/AospLinker/agr_aosp_dynamic.cpp:247, 257, 261): what the two together leave behind,
 when opening had to load libraries and closing unloads them again.
 */
module LinkRestore {
  import opened Prelude
  import opened LinkGraph
  import opened InitOrder
  import opened LinkSteps
  import opened LinkClosure

  /** No library is being linked, as always between calls when no load has gone wrong. */
  ghost predicate AllLinked(objects: map<Id, So>) {
    forall o :: o in objects ==> objects[o].linked
  }

  /** A successful load leaves none half linked. */
  lemma AllLinkedAfter(g: Graph, g': Graph, name: string, before: nat, after: nat, sources: map<string, Source>)
    requires Ok(g') && Outcome(WorldOf(g.objects, sources), WorldOf(g'.objects, sources), name, true, before, after)
    ensures AllLinked(g.objects) ==> AllLinked(g'.objects)
  {
    hide Acyclic, Counted, Resolves;
    var w, w' := WorldOf(g.objects, sources), WorldOf(g'.objects, sources);
    if AllLinked(g.objects) {
      forall o | o in g'.objects ensures g'.objects[o].linked {
        var n := g'.objects[o].name;
        assert n in w'.listed && (n in w.listed ==> n in w.linked);
        assert n in w'.linked;
      }
    }
  }

  lemma AllLinkedKept(g: Graph, g': Graph)
    requires KeptFrom(g, g') && g'.objects.Keys == g.objects.Keys
    ensures AllLinked(g.objects) ==> AllLinked(g'.objects)
  {
  }

  // ---- Why a library stays ---------------------------------------------------------------------

  /** A file library that nobody holds is needed by a library that ranks higher. */
  lemma NeededFromAbove(g: Graph, o: Id) returns (p: Id)
    requires Ok(g) && Positive(g, {}) && AllLinked(g.objects)
    requires o in g.objects && !g.objects[o].Host() && o !in g.claims
    ensures p in g.objects && o in g.objects[p].needed && !g.objects[p].Host()
    ensures o in g.rank && p in g.rank && g.rank[o] < g.rank[p] < g.clock
  {
    assert g.objects[o].refs > 0;
    assert Edges(g.objects, o) != {};
    var e: (Id, int) :| e in Edges(g.objects, o);
    p := e.0;
    assert o in g.objects[p].needed;
    assert ObjectOk(g.objects, g.rank, g.clock, p) && EdgeOk(g.objects, g.rank, p, o);
  }

  lemma NeedIsThere(g: Graph, p: Id, d: Id)
    requires Ok(g) && p in g.objects && d in g.objects[p].needed
    ensures d in g.objects
  {
    assert ObjectOk(g.objects, g.rank, g.clock, p) && EdgeOk(g.objects, g.rank, p, d);
  }

  /** The libraries of `g` that are in `g'` as well need the same there. */
  ghost predicate SameNeeds(g: Graph, g': Graph) {
    forall o :: o in g.objects && o in g'.objects ==> g'.objects[o].needed == g.objects[o].needed
  }

  /**
   With the same libraries held, a file library of one state is in any other state in which the shared ones need the
   same.
   */
  lemma {:induction false} StaysHeld(g: Graph, g': Graph, o: Id)
    requires Ok(g) && Positive(g, {}) && AllLinked(g.objects) && Ok(g')
    requires SameNeeds(g, g') && g.claims == g'.claims
    requires o in g.objects && !g.objects[o].Host() && o in g.rank
    ensures o in g'.objects
    decreases g.clock - g.rank[o]
  {
    if o in g.claims {
      assert g'.claims[o] > 0;
    } else {
      var p := NeededFromAbove(g, o);
      StaysHeld(g, g', p);
      NeedIsThere(g', p, o);
    }
  }

  // ---- Closing what was opened -------------------------------------------------------------------

  /**
   `g'` is `g` again: the same libraries are held and the same files are loaded, with the same counts. Constructors may
   have run on libraries of `g`; host libraries loaded on the way stay, without a reference.
   */
  ghost predicate Regained(g: Graph, g': Graph) {
    && g'.claims == g.claims
    && (forall o :: o in g.objects ==>
         o in g'.objects && g'.objects[o] == g.objects[o].(constructed := g'.objects[o].constructed))
    && forall o :: o in g'.objects && o !in g.objects ==> g'.objects[o].Host() && g'.objects[o].refs == 0
  }

  /**
   Opening and closing change nothing in the libraries that stay but counts and constructor flags, and keep host
   libraries.
   */
  ghost predicate Between(g: Graph, g': Graph) {
    && (forall o :: o in g.objects && o in g'.objects ==>
         g'.objects[o] == g.objects[o].(refs := g'.objects[o].refs, constructed := g'.objects[o].constructed))
    && forall o :: o in g.objects && g.objects[o].Host() ==> o in g'.objects
  }

  lemma OpenThenClose(g: Graph, mid: Graph, g': Graph)
    requires KeptFrom(g, mid) && AllLinked(mid.objects) && ShrunkTo(mid.objects, g'.objects)
    ensures Between(g, g') && AllLinked(g'.objects)
  {
  }

  lemma OpenedClaims(g: Graph, g': Graph, name: string, id: Id, handle: uint32, faulted: bool, faulted': bool,
      events: seq<Event>)
    requires Opened(g, g', name, id, handle, faulted, faulted', events)
    ensures id in g'.claims
  {
  }

  lemma ClosedCodes(g: Graph, g': Graph, id: Id, code: int, faulted: bool, faulted': bool, events: seq<Event>,
      events': seq<Event>)
    requires Released(g, g', multiset{id}, code, faulted, faulted', events, events')
    ensures code != 0 ==> faulted'
  {
  }

  lemma BetweenNeeds(g: Graph, g': Graph)
    requires Between(g, g')
    ensures SameNeeds(g, g') && SameNeeds(g', g)
  {
  }

  lemma SameFiles(g: Graph, g': Graph, o: Id)
    requires Ok(g) && Positive(g, {}) && AllLinked(g.objects) && Ok(g')
    requires SameNeeds(g, g') && g.claims == g'.claims && o in g.objects && !g.objects[o].Host()
    ensures o in g'.objects
  {
    LinkedRanks(g, o);
    StaysHeld(g, g', o);
  }

  lemma BothAgree(g: Graph, g': Graph)
    requires Ok(g) && Positive(g, {}) && AllLinked(g.objects) && Ok(g') && Positive(g', {}) && AllLinked(g'.objects)
    requires Between(g, g') && g'.claims == g.claims
    ensures Regained(g, g')
  {
    BetweenNeeds(g, g');
    hide Ok, Positive, AllLinked, SameNeeds;
    forall o | o in g.objects ensures o in g'.objects {
      if !g.objects[o].Host() { SameFiles(g, g', o); }
    }
    forall o | o in g'.objects && o !in g.objects ensures g'.objects[o].Host() {
      if !g'.objects[o].Host() { SameFiles(g', g, o); }
    }
    forall o | o in g'.objects ensures g'.objects[o].refs == if o in g.objects then g.objects[o].refs else 0 {
      SameEdges(g, g', o);
    }
  }

  /** A successful dlclose undoes the dlopen before it, whatever libraries had to be loaded for that. */
  lemma CloseRestores(g: Graph, mid: Graph, g': Graph, name: string, id: Id, handle: uint32, f0: bool, f1: bool,
      f2: bool, e1: seq<Event>, e2: seq<Event>)
    requires Ok(g) && Positive(g, {}) && AllLinked(g.objects)
    requires Opened(g, mid, name, id, handle, f0, f1, e1) && AllLinked(mid.objects)
    requires Released(mid, g', multiset{id}, 0, f1, f2, e1, e2) && Ok(g') && Positive(g', {})
    ensures Regained(g, g')
  {
    assert g'.claims == g.claims;
    hide Ok, Positive;
    OpenThenClose(g, mid, g');
    BothAgree(g, g');
  }

  lemma LinkedRanks(g: Graph, o: Id)
    requires Ok(g) && o in g.objects && g.objects[o].linked
    ensures o in g.rank
  {
    assert ObjectOk(g.objects, g.rank, g.clock, o);
  }

  lemma SameEdges(g: Graph, g': Graph, o: Id)
    requires Ok(g) && Ok(g') && SameNeeds(g, g') && g.claims == g'.claims && o in g'.objects
    requires g.objects.Keys <= g'.objects.Keys
    requires forall p :: p in g'.objects && p !in g.objects ==> g'.objects[p].Host()
    ensures g'.objects[o].refs == if o in g.objects then g.objects[o].refs else 0
  {
    forall p | p in g'.objects && p !in g.objects ensures g'.objects[p].needed == [] {
      assert ObjectOk(g'.objects, g'.rank, g'.clock, p);
    }
    EdgesAgree(g.objects, g'.objects, o);
    hide Listed, Acyclic, Edges;
    if o !in g.objects { NoEdgesTo(g, o); }
  }

  lemma EdgesAgree(objects: map<Id, So>, objects': map<Id, So>, o: Id)
    requires objects.Keys <= objects'.Keys
    requires forall p :: p in objects' ==> objects'[p].needed == if p in objects then objects[p].needed else []
    ensures Edges(objects', o) == Edges(objects, o)
  {
    forall e: (Id, int) ensures e in Edges(objects', o) <==> e in Edges(objects, o) {
      EdgeIn(objects, o, e);
      EdgeIn(objects', o, e);
    }
  }

  lemma NoEdgesTo(g: Graph, o: Id)
    requires Ok(g) && o !in g.objects
    ensures Edges(g.objects, o) == {} && g.claims[o] == 0
  {
    forall e: (Id, int) ensures e !in Edges(g.objects, o) {
      EdgeIn(g.objects, o, e);
      if e in Edges(g.objects, o) { NeedIsThere(g, e.0, o); }
    }
  }

  // ---- Closing what one does not hold --------------------------------------------------------------

  /** The counts are right for some set of references from outside. */
  ghost predicate CanBeCounted(objects: map<Id, So>) {
    exists claims: multiset<Id> :: Counted(objects, claims)
  }

  /** Every needed library is there, in some order. */
  ghost predicate CanBeRanked(objects: map<Id, So>) {
    exists rank: map<Id, nat>, clock: nat :: Acyclic(objects, rank, clock)
  }

  /** Somebody needs a library with a reference that nobody else holds. */
  lemma UnheldIsNeeded(g: Graph, si: Id) returns (o: Id)
    requires Ok(g) && si in g.objects && si !in g.claims && g.objects[si].refs > 0
    ensures |Edges(g.objects, si)| == g.objects[si].refs
    ensures o != si && o in g.objects && si in g.objects[o].needed
  {
    hide Listed;
    assert g.claims[si] == 0;
    assert Edges(g.objects, si) != {};
    var e: (Id, int) :| e in Edges(g.objects, si);
    o := e.0;
    assert si in g.objects[o].needed && ObjectOk(g.objects, g.rank, g.clock, o) && EdgeOk(g.objects, g.rank, o, si);
  }

  /**
   Why dlclose needs a caller that holds the library. Given back by somebody who does not, a reference that is not the
   last leaves a count too low for the libraries that need this one, and the last reference leaves one of them needing
   what is gone.
   */
  lemma CloseNeedsClaim(g: Graph, si: Id)
    requires Ok(g) && si in g.objects && si !in g.claims && g.objects[si].refs > 0
    ensures !CanBeCounted(g.objects[si := g.objects[si].(refs := g.objects[si].refs - 1)])
    ensures !CanBeRanked(g.objects - {si})
  {
    var objects := g.objects[si := g.objects[si].(refs := g.objects[si].refs - 1)];
    EdgesSame(g.objects, objects, si);
    var o := UnheldIsNeeded(g, si);
    hide Edges, Ok;
    TooFewCounted(objects, si);
    MissingNeed(g.objects - {si}, o, si);
  }

  lemma TooFewCounted(objects: map<Id, So>, si: Id)
    requires si in objects && objects[si].refs < |Edges(objects, si)|
    ensures !CanBeCounted(objects)
  {
    hide Edges;
  }

  lemma MissingNeed(objects: map<Id, So>, o: Id, d: Id)
    requires o in objects && d in objects[o].needed && d !in objects
    ensures !CanBeRanked(objects)
  {
    forall rank: map<Id, nat>, clock: nat ensures !Acyclic(objects, rank, clock) {
      assert !EdgeOk(objects, rank, o, d);
      assert !ObjectOk(objects, rank, clock, o);
    }
  }
}
