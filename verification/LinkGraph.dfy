/**
 The dynamic linker's object graph as a value, and the elementary changes the linker makes to it
 (Runtime/AospLinker/agr_aosp_dynamic.cpp). A `soinfo` is known by a number that is never used again,
 so a pointer to a freed object is a number that no longer names an object.
 */
module LinkGraph {
  import opened Prelude

  type Id = nat

  /** What the linker reads from a registered file: DT_NEEDED base names and the init and fini functions. */
  datatype Source = Source(needed: seq<string>, initFunc: uint32, initArray: seq<uint32>, finiFunc: uint32,
    finiArray: seq<uint32>)

  /** A soinfo. A host-provided library has no source. */
  datatype So = So(name: string, source: Option<Source>, bias: uint32, linked: bool, refs: nat, needed: seq<Id>,
    constructed: bool)
  {
    predicate Host() { source.None? }
  }

  /**
   The linker's state. `claims` are the references that are not needed-edges: open handles, references about to be
   turned into edges or given back, and references nobody will give back after a failed finalizer.
   `rank` orders libraries by the time their linking ended.
   */
  datatype Graph = Graph(objects: map<Id, So>, solist: seq<Id>, somain: Option<Id>, nextId: nat,
                         claims: multiset<Id>, rank: map<Id, nat>, clock: nat)

  /** The needed-edges into `t`: who, and at which place of its list. */
  ghost function Edges(objects: map<Id, So>, t: Id): (r: set<(Id, int)>) {
    set o, i | o in objects && 0 <= i < |objects[o].needed| && objects[o].needed[i] == t :: (o, i)
  }

  predicate Distinct(s: seq<Id>) {
    forall i, j :: 0 <= i < j < |s| ==> s[i] != s[j]
  }

  /** The list holds exactly the live objects, each once, and no two have the same name. */
  ghost predicate Listed(objects: map<Id, So>, solist: seq<Id>, somain: Option<Id>, nextId: nat) {
    && Distinct(solist) && (forall id :: id in objects <==> id in solist)
    && (forall id :: id in objects ==> id < nextId)
    && (somain.Some? ==> somain.value in objects)
    && forall a, b :: a in objects && b in objects && objects[a].name == objects[b].name ==> a == b
  }

  /** Every needed pointer names a loaded, linked library, and linked libraries come after what they need. */
  ghost predicate Acyclic(objects: map<Id, So>, rank: map<Id, nat>, clock: nat) {
    forall o :: o in objects ==> ObjectOk(objects, rank, clock, o)
  }

  ghost predicate ObjectOk(objects: map<Id, So>, rank: map<Id, nat>, clock: nat, o: Id)
    requires o in objects
  {
    && (objects[o].linked ==> o in rank && rank[o] < clock)
    && (objects[o].Host() ==> objects[o].linked && objects[o].needed == [])
    && forall d :: d in objects[o].needed ==> EdgeOk(objects, rank, o, d)
  }

  ghost predicate EdgeOk(objects: map<Id, So>, rank: map<Id, nat>, o: Id, d: Id)
    requires o in objects
  {
    && d in objects && objects[d].linked && d in rank
    && (objects[o].linked ==> o in rank && rank[d] < rank[o])
  }

  /** A library's reference count is the number of edges into it plus the claims on it. */
  ghost predicate Counted(objects: map<Id, So>, claims: multiset<Id>) {
    && (forall t :: t in objects ==> objects[t].refs == |Edges(objects, t)| + claims[t])
    && forall t :: t in claims ==> t in objects && objects[t].linked
  }

  ghost predicate Ok(g: Graph) {
    Listed(g.objects, g.solist, g.somain, g.nextId) && Acyclic(g.objects, g.rank, g.clock)
      && Counted(g.objects, g.claims)
  }

  /** No loaded file library has lost its last reference, except possibly `idle`. */
  ghost predicate Positive(g: Graph, idle: set<Id>) {
    forall id :: id in g.objects && id !in idle && g.objects[id].linked && !g.objects[id].Host() ==>
      g.objects[id].refs > 0
  }

  // ---- Counting edges -------------------------------------------------------------------------

  /** Edges depend on the needed lists alone. */
  lemma EdgesSame(objects: map<Id, So>, objects': map<Id, So>, t: Id)
    requires objects.Keys == objects'.Keys && forall o :: o in objects ==> objects[o].needed == objects'[o].needed
    ensures Edges(objects, t) == Edges(objects', t)
  {
  }

  lemma EdgesFresh(objects: map<Id, So>, id: Id, so: So, t: Id)
    requires id !in objects && so.needed == []
    ensures Edges(objects[id := so], t) == Edges(objects, t)
  {
    var objects' := objects[id := so];
    forall e ensures e in Edges(objects', t) <==> e in Edges(objects, t) {
    }
  }

  lemma EdgesAppended(objects: map<Id, So>, si: Id, d: Id, t: Id)
    requires si in objects
    ensures |Edges(WithNeeded(objects, si, d), t)| == |Edges(objects, t)| + if t == d then 1 else 0
  {
    hide Edges;
    var objects', edge := WithNeeded(objects, si, d), (si, |objects[si].needed|);
    EdgeIn(objects, t, edge);
    forall e: (Id, int) ensures e in Edges(objects', t) <==> e in Edges(objects, t) || (t == d && e == edge) {
      EdgeIn(objects, t, e);
      EdgeIn(objects', t, e);
    }
    hide WithNeeded;
    SameOrOneMore(Edges(objects, t), Edges(objects', t), edge, t == d);
  }

  lemma SameOrOneMore(before: set<(Id, int)>, after: set<(Id, int)>, edge: (Id, int), more: bool)
    requires edge !in before && forall e: (Id, int) :: e in after <==> e in before || (more && e == edge)
    ensures |after| == |before| + if more then 1 else 0
  {
    assert after == if more then before + {edge} else before;
  }

  lemma EdgeIn(objects: map<Id, So>, t: Id, e: (Id, int))
    ensures e in Edges(objects, t) <==>
      e.0 in objects && 0 <= e.1 < |objects[e.0].needed| && objects[e.0].needed[e.1] == t
  {
  }

  function WithNeeded(objects: map<Id, So>, si: Id, d: Id): (r: map<Id, So>)
    requires si in objects
  {
    objects[si := objects[si].(needed := objects[si].needed + [d])]
  }

  ghost function Places(needed: seq<Id>, si: Id, t: Id): (r: set<(Id, int)>) {
    set i | 0 <= i < |needed| && needed[i] == t :: (si, i)
  }

  lemma {:induction false} PlacesCount(needed: seq<Id>, si: Id, t: Id)
    ensures |Places(needed, si, t)| == multiset(needed)[t]
  {
    if needed != [] {
      var n := |needed| - 1;
      PlacesCount(needed[..n], si, t);
      assert needed == needed[..n] + [needed[n]];
      assert Places(needed, si, t) == Places(needed[..n], si, t) + if needed[n] == t then {(si, n)} else {};
    }
  }

  lemma EdgesRemoved(objects: map<Id, So>, si: Id, t: Id)
    requires si in objects
    ensures |Edges(objects - {si}, t)| + multiset(objects[si].needed)[t] == |Edges(objects, t)|
  {
    PlacesCount(objects[si].needed, si, t);
    assert Edges(objects, t) == Edges(objects - {si}, t) + Places(objects[si].needed, si, t);
    assert Edges(objects - {si}, t) !! Places(objects[si].needed, si, t);
  }

  // ---- Elementary changes ---------------------------------------------------------------------

  ghost predicate NameFree(objects: map<Id, So>, name: string) {
    forall id :: id in objects ==> objects[id].name != name
  }

  /** A new file library, mapped but not linked; it becomes the main one if there was none. */
  ghost function Push(g: Graph, so: So): (r: Graph) {
    g.(objects := g.objects[g.nextId := so], solist := g.solist + [g.nextId], nextId := g.nextId + 1,
       somain := if g.somain.None? then Some(g.nextId) else g.somain)
  }

  lemma PushKeeps(g: Graph, so: So)
    requires Ok(g) && NameFree(g.objects, so.name) && !so.Host() && !so.linked && so.refs == 0 && so.needed == []
    ensures Ok(Push(g, so))
  {
    NotLive(g, g.nextId);
    CountedPush(g.objects, g.claims, g.nextId, so);
    assert Acyclic(g.objects[g.nextId := so], g.rank, g.clock) by {
      AcyclicPush(g.objects, g.rank, g.clock, g.nextId, so, g.rank, g.clock);
    }
    hide Counted, Acyclic;
    ListedPush(g, so, Push(g, so).somain);
  }

  /** A new host library: linked at once. */
  ghost function PushHost(g: Graph, so: So): (r: Graph) {
    g.(objects := g.objects[g.nextId := so], solist := g.solist + [g.nextId], nextId := g.nextId + 1,
       rank := g.rank[g.nextId := g.clock], clock := g.clock + 1)
  }

  lemma PushHostKeeps(g: Graph, so: So)
    requires Ok(g) && NameFree(g.objects, so.name) && so.Host() && so.linked && so.refs == 0 && so.needed == []
    ensures Ok(PushHost(g, so))
  {
    NotLive(g, g.nextId);
    hide Counted, Acyclic, Listed, NameFree;
    CountedPush(g.objects, g.claims, g.nextId, so);
    AcyclicPush(g.objects, g.rank, g.clock, g.nextId, so, g.rank[g.nextId := g.clock], g.clock + 1);
    ListedPush(g, so, g.somain);
  }

  lemma ListedPush(g: Graph, so: So, somain: Option<Id>)
    requires Listed(g.objects, g.solist, g.somain, g.nextId) && NameFree(g.objects, so.name)
    requires somain == g.somain || somain == Some(g.nextId)
    ensures Listed(g.objects[g.nextId := so], g.solist + [g.nextId], somain, g.nextId + 1)
  {
    var solist' := g.solist + [g.nextId];
    assert g.nextId !in g.solist;
    assert forall x :: x in solist' <==> x in g.solist || x == g.nextId;
    assert Distinct(solist');
  }

  lemma CountedPush(objects: map<Id, So>, claims: multiset<Id>, id: Id, so: So)
    requires Counted(objects, claims) && id !in objects && id !in claims && Edges(objects, id) == {} && so.refs == 0
      && so.needed == []
    ensures Counted(objects[id := so], claims)
  {
    forall t ensures Edges(objects[id := so], t) == Edges(objects, t) { EdgesFresh(objects, id, so, t); }
    hide Edges;
  }

  lemma AcyclicPush(objects: map<Id, So>, rank: map<Id, nat>, clock: nat, id: Id, so: So, rank': map<Id, nat>,
      clock': nat)
    requires Acyclic(objects, rank, clock) && id !in objects && so.needed == []
    requires clock <= clock' && rank'.Keys >= rank.Keys && forall o :: o in objects && o in rank ==> rank'[o] == rank[o]
    requires (so.linked ==> id in rank' && rank'[id] < clock') && (so.Host() ==> so.linked)
    ensures Acyclic(objects[id := so], rank', clock')
  {
    forall o | o in objects ensures ObjectOk(objects[id := so], rank', clock', o) {
      assert ObjectOk(objects, rank, clock, o);
      forall d | d in objects[o].needed ensures EdgeOk(objects[id := so], rank', o, d) {
        assert EdgeOk(objects, rank, o, d);
      }
    }
  }

  /** Nobody needs, and nobody holds, what is not loaded. */
  lemma NotLive(g: Graph, t: Id)
    requires Ok(g) && (t !in g.objects || !g.objects[t].linked)
    ensures Edges(g.objects, t) == {} && t !in g.claims
  {
    if Edges(g.objects, t) != {} {
      var e :| e in Edges(g.objects, t);
      EdgeTarget(g, t, e);
    }
  }

  lemma EdgeTarget(g: Graph, t: Id, e: (Id, int))
    requires Ok(g) && e in Edges(g.objects, t)
    ensures t in g.objects && g.objects[t].linked && t in g.objects[e.0].needed
  {
    assert ObjectOk(g.objects, g.rank, g.clock, e.0);
    assert EdgeOk(g.objects, g.rank, e.0, t);
  }

  predicate SameButRefs(so: So, so': So) {
    so' == so.(refs := so'.refs)
  }

  /** `objects'` differs from `objects` at most in reference counts and constructor flags. */
  ghost predicate SameShape(objects: map<Id, So>, objects': map<Id, So>) {
    objects'.Keys == objects.Keys
    && forall o :: o in objects ==>
      objects'[o] == objects[o].(refs := objects'[o].refs, constructed := objects'[o].constructed)
  }

  lemma ShapeKept(g: Graph, objects': map<Id, So>)
    requires Ok(g) && SameShape(g.objects, objects')
    ensures Listed(objects', g.solist, g.somain, g.nextId) && Acyclic(objects', g.rank, g.clock)
    ensures forall t :: Edges(objects', t) == Edges(g.objects, t)
  {
    forall t ensures Edges(objects', t) == Edges(g.objects, t) { EdgesSame(g.objects, objects', t); }
    hide Edges, Counted;
    ShapeAcyclic(g.objects, objects', g.rank, g.clock);
    hide Acyclic;
  }

  lemma ShapeAcyclic(objects: map<Id, So>, objects': map<Id, So>, rank: map<Id, nat>, clock: nat)
    requires Acyclic(objects, rank, clock) && SameShape(objects, objects')
    ensures Acyclic(objects', rank, clock)
  {
    forall o | o in objects' ensures ObjectOk(objects', rank, clock, o) {
      assert ObjectOk(objects, rank, clock, o);
      forall d | d in objects'[o].needed ensures EdgeOk(objects', rank, o, d) {
        assert EdgeOk(objects, rank, o, d);
      }
    }
  }

  /** find_library's ref_count++, on behalf of a new claim. */
  ghost function AddRef(g: Graph, id: Id): (r: Graph)
    requires id in g.objects
  {
    g.(objects := g.objects[id := g.objects[id].(refs := g.objects[id].refs + 1)], claims := g.claims + multiset{id})
  }

  lemma AddRefKeeps(g: Graph, id: Id)
    requires Ok(g) && id in g.objects && g.objects[id].linked
    ensures Ok(AddRef(g, id))
  {
    hide Edges, Listed, Acyclic, Counted;
    ClaimsLive(g);
    ShapeKept(g, AddRef(g, id).objects);
    Recount(g.objects, g.claims, AddRef(g, id).objects, AddRef(g, id).claims);
  }

  /** Same edges, and each count moved with its claims. */
  lemma Recount(objects: map<Id, So>, claims: multiset<Id>, objects': map<Id, So>, claims': multiset<Id>)
    requires Counted(objects, claims) && objects'.Keys == objects.Keys
    requires forall t :: Edges(objects', t) == Edges(objects, t)
    requires forall t :: t in objects ==>
      objects'[t].refs == objects[t].refs - claims[t] + claims'[t] && (objects[t].linked ==> objects'[t].linked)
    requires forall t :: t in claims' ==> t in objects && objects[t].linked
    ensures Counted(objects', claims')
  {
    hide Edges;
  }

  /** A release that is not the last one. */
  ghost function Drop(g: Graph, id: Id): (r: Graph)
    requires id in g.objects && g.objects[id].refs > 0
  {
    g.(objects := g.objects[id := g.objects[id].(refs := g.objects[id].refs - 1)], claims := g.claims - multiset{id})
  }

  lemma ClaimsLive(g: Graph)
    requires Ok(g)
    ensures forall t :: t in g.claims ==> t in g.objects && g.objects[t].linked
  {
    hide Edges, Listed, Acyclic;
  }

  lemma ClaimHeld(g: Graph, id: Id)
    requires Ok(g) && id in g.claims
    ensures id in g.objects && g.objects[id].linked && g.objects[id].refs >= g.claims[id] > 0
  {
    hide Edges, Listed, Acyclic;
  }

  lemma DropKeeps(g: Graph, id: Id)
    requires Ok(g) && id in g.claims
    ensures id in g.objects && g.objects[id].linked && g.objects[id].refs > 0 && Ok(Drop(g, id))
  {
    hide Edges, Listed, Acyclic, Counted;
    ClaimHeld(g, id);
    ClaimsLive(g);
    ShapeKept(g, Drop(g, id).objects);
    assert forall t :: t in Drop(g, id).claims ==> t in g.claims;
    Recount(g.objects, g.claims, Drop(g, id).objects, Drop(g, id).claims);
  }

  /** needed.push_back(dep): the claim that find_library took becomes an edge. */
  ghost function Need(g: Graph, si: Id, d: Id): (r: Graph)
    requires si in g.objects
  {
    g.(objects := WithNeeded(g.objects, si, d), claims := g.claims - multiset{d})
  }

  lemma NeedKeeps(g: Graph, si: Id, d: Id)
    requires Ok(g) && si in g.objects && !g.objects[si].linked && d in g.claims
    ensures Ok(Need(g, si, d))
  {
    hide Edges, Acyclic, Counted;
    NeedAcyclic(g, si, d);
    NeedCounted(g.objects, g.claims, si, d);
  }

  lemma NeedCounted(objects: map<Id, So>, claims: multiset<Id>, si: Id, d: Id)
    requires Counted(objects, claims) && si in objects && d in claims
    ensures Counted(WithNeeded(objects, si, d), claims - multiset{d})
  {
    hide Edges;
    forall t ensures |Edges(WithNeeded(objects, si, d), t)| == |Edges(objects, t)| + if t == d then 1 else 0 {
      EdgesAppended(objects, si, d, t);
    }
  }

  lemma NeedAcyclic(g: Graph, si: Id, d: Id)
    requires Ok(g) && si in g.objects && !g.objects[si].linked && d in g.claims
    ensures Acyclic(WithNeeded(g.objects, si, d), g.rank, g.clock)
  {
    hide Edges, Listed;
    var objects' := WithNeeded(g.objects, si, d);
    assert ObjectOk(g.objects, g.rank, g.clock, d);
    forall o | o in objects' ensures ObjectOk(objects', g.rank, g.clock, o) {
      assert ObjectOk(g.objects, g.rank, g.clock, o);
      forall e | e in objects'[o].needed ensures EdgeOk(objects', g.rank, o, e) {
        if o != si || e in g.objects[o].needed { assert EdgeOk(g.objects, g.rank, o, e); }
      }
    }
  }

  /** flags |= FLAG_LINKED. */
  ghost function Link(g: Graph, si: Id): (r: Graph)
    requires si in g.objects
  {
    g.(objects := g.objects[si := g.objects[si].(linked := true)], rank := g.rank[si := g.clock], clock := g.clock + 1)
  }

  lemma LinkKeeps(g: Graph, si: Id)
    requires Ok(g) && si in g.objects && !g.objects[si].linked
    ensures Ok(Link(g, si))
  {
    hide Edges, Acyclic, Counted, Listed;
    LinkAcyclic(g, si);
    ClaimsLive(g);
    forall t ensures Edges(Link(g, si).objects, t) == Edges(g.objects, t) {
      EdgesSame(g.objects, Link(g, si).objects, t);
    }
    Recount(g.objects, g.claims, Link(g, si).objects, g.claims);
    LinkListed(g, si);
  }

  lemma LinkListed(g: Graph, si: Id)
    requires Listed(g.objects, g.solist, g.somain, g.nextId) && si in g.objects
    ensures Listed(Link(g, si).objects, g.solist, g.somain, g.nextId)
  {
  }

  lemma LinkAcyclic(g: Graph, si: Id)
    requires Ok(g) && si in g.objects && !g.objects[si].linked
    ensures Acyclic(Link(g, si).objects, g.rank[si := g.clock], g.clock + 1)
  {
    var objects', rank' := Link(g, si).objects, g.rank[si := g.clock];
    forall o | o in objects' ensures ObjectOk(objects', rank', g.clock + 1, o) {
      assert ObjectOk(g.objects, g.rank, g.clock, o);
      forall d | d in objects'[o].needed ensures EdgeOk(objects', rank', o, d) {
        assert EdgeOk(g.objects, g.rank, o, d);
        assert ObjectOk(g.objects, g.rank, g.clock, d);
      }
    }
  }

  /** The list without one entry. */
  function Without(s: seq<Id>, id: Id): (r: seq<Id>) {
    if s == [] then [] else if s[0] == id then s[1..] else [s[0]] + Without(s[1..], id)
  }

  lemma {:induction false} WithoutDistinct(s: seq<Id>, id: Id)
    requires Distinct(s)
    ensures Distinct(Without(s, id)) && forall x :: x in Without(s, id) <==> x in s && x != id
  {
    if s == [] {
    } else {
      assert Distinct(s[1..]);
      DistinctHead(s);
      assert forall x :: x in s <==> x == s[0] || x in s[1..];
      if s[0] != id {
        WithoutDistinct(s[1..], id);
        DistinctCons(s[0], Without(s[1..], id));
      }
    }
  }

  lemma DistinctHead(s: seq<Id>)
    requires Distinct(s) && s != []
    ensures s[0] !in s[1..]
  {
    forall i | 0 <= i < |s[1..]| ensures s[1..][i] != s[0] {
      assert s[i + 1] != s[0];
    }
  }

  lemma DistinctCons(x: Id, s: seq<Id>)
    requires Distinct(s) && x !in s
    ensures Distinct([x] + s)
  {
  }

  lemma {:induction false} WithoutAt(s: seq<Id>, i: nat)
    requires Distinct(s) && i < |s|
    ensures Without(s, s[i]) == s[..i] + s[i + 1..]
  {
    if i > 0 {
      assert Distinct(s[1..]);
      WithoutAt(s[1..], i - 1);
      assert s[1..][..i - 1] == s[1..i] && s[1..][i..] == s[i + 1..];
    }
  }

  /** delete si: its edges become claims, which are then released one by one. */
  ghost function Remove(g: Graph, si: Id): (r: Graph)
    requires si in g.objects
  {
    g.(objects := g.objects - {si}, solist := Without(g.solist, si),
      claims := g.claims[si := 0] + multiset(g.objects[si].needed),
       somain := if g.somain == Some(si) then None else g.somain)
  }

  /** An object may go when nothing but the caller refers to it: no edge is left dangling. */
  lemma RemoveKeeps(g: Graph, si: Id)
    requires Ok(g) && si in g.objects && (g.objects[si].refs == 0 || (g.objects[si].refs == 1 && si in g.claims))
    ensures Ok(Remove(g, si)) && Edges(g.objects, si) == {}
  {
    LastReference(g, si);
    RemoveListed(g, si);
    RemoveAcyclic(g, si);
    forall t | t in g.objects[si].needed ensures t in g.objects && t != si && g.objects[t].linked {
      NeededByRemoved(g, si, t);
    }
    RemoveCounted(g.objects, g.claims, si);
    hide Edges, Acyclic, Counted;
  }

  lemma LastReference(g: Graph, si: Id)
    requires Ok(g) && si in g.objects && (g.objects[si].refs == 0 || (g.objects[si].refs == 1 && si in g.claims))
    ensures Edges(g.objects, si) == {} && g.claims[si] == g.objects[si].refs
  {
    hide Edges, Acyclic, Listed;
    assert |Edges(g.objects, si)| == 0;
  }

  lemma RemoveCounted(objects: map<Id, So>, claims: multiset<Id>, si: Id)
    requires Counted(objects, claims) && si in objects
    requires forall t :: t in objects[si].needed ==> t in objects && t != si && objects[t].linked
    ensures Counted(objects - {si}, claims[si := 0] + multiset(objects[si].needed))
  {
    hide Edges;
    forall t ensures |Edges(objects - {si}, t)| + multiset(objects[si].needed)[t] == |Edges(objects, t)| {
      EdgesRemoved(objects, si, t);
    }
  }

  lemma NeededByRemoved(g: Graph, si: Id, t: Id)
    requires Ok(g) && si in g.objects && t in g.objects[si].needed && Edges(g.objects, si) == {}
    ensures t in g.objects && t != si && g.objects[t].linked
  {
    var i :| 0 <= i < |g.objects[si].needed| && g.objects[si].needed[i] == t;
    assert (si, i) in Edges(g.objects, t);
    EdgeTarget(g, t, (si, i));
  }

  lemma RemoveListed(g: Graph, si: Id)
    requires Listed(g.objects, g.solist, g.somain, g.nextId) && si in g.objects
    ensures var g' := Remove(g, si); Listed(g'.objects, g'.solist, g'.somain, g'.nextId)
  {
    WithoutDistinct(g.solist, si);
  }

  lemma RemoveAcyclic(g: Graph, si: Id)
    requires Acyclic(g.objects, g.rank, g.clock) && si in g.objects && Edges(g.objects, si) == {}
    ensures Acyclic(g.objects - {si}, g.rank, g.clock)
  {
    forall o | o in g.objects - {si} ensures ObjectOk(g.objects - {si}, g.rank, g.clock, o) {
      assert ObjectOk(g.objects, g.rank, g.clock, o);
      forall d | d in g.objects[o].needed ensures EdgeOk(g.objects - {si}, g.rank, o, d) {
        assert EdgeOk(g.objects, g.rank, o, d);
        NoEdgeNoNeed(g.objects, o, si);
      }
    }
  }

  lemma NoEdgeNoNeed(objects: map<Id, So>, o: Id, t: Id)
    requires Edges(objects, t) == {} && o in objects
    ensures t !in objects[o].needed
  {
    if t in objects[o].needed {
      var i :| 0 <= i < |objects[o].needed| && objects[o].needed[i] == t;
      EdgeMember(objects, o, i);
    }
  }

  lemma EdgeMember(objects: map<Id, So>, o: Id, i: nat)
    requires o in objects && i < |objects[o].needed|
    ensures (o, i) in Edges(objects, objects[o].needed[i])
  {
  }

  // ---- Consequences ---------------------------------------------------------------------------

  /** A path along needed-edges. */
  ghost predicate IsPath(g: Graph, path: seq<Id>) {
    && (forall k :: 0 <= k < |path| ==> path[k] in g.objects)
    && forall k :: 0 <= k < |path| - 1 ==> path[k + 1] in g.objects[path[k]].needed
  }

  /** The needed graph has no cycle: along a path ranks fall, so a path never comes back. */
  lemma {:induction false} NoCycle(g: Graph, path: seq<Id>)
    requires Ok(g) && IsPath(g, path) && |path| > 1 && g.objects[path[0]].linked
    ensures path[|path| - 1] in g.rank && path[0] in g.rank && g.rank[path[|path| - 1]] < g.rank[path[0]]
    ensures path[|path| - 1] != path[0]
  {
    assert path[0 + 1] in g.objects[path[0]].needed;
    assert ObjectOk(g.objects, g.rank, g.clock, path[0]);
    assert EdgeOk(g.objects, g.rank, path[0], path[1]);
    if |path| > 2 {
      forall k | 0 <= k < |path[1..]| - 1 ensures path[1..][k + 1] in g.objects[path[1..][k]].needed {
        assert path[k + 1 + 1] in g.objects[path[k + 1]].needed;
      }
      NoCycle(g, path[1..]);
    }
  }

  /** Two states with the same edges and claims have the same counts. */
  lemma CountsDetermined(g: Graph, g': Graph)
    requires Ok(g) && Ok(g') && g.claims == g'.claims && g.objects.Keys == g'.objects.Keys
    requires forall o :: o in g.objects ==> SameButRefs(g.objects[o], g'.objects[o])
    ensures g.objects == g'.objects
  {
    forall o | o in g.objects ensures g.objects[o] == g'.objects[o] {
      EdgesSame(g.objects, g'.objects, o);
    }
  }

  /**
   The error path of load_library removes the last list entry, whatever it is. That is the failed object itself, and the
   list is as it should be, exactly if no dependency was pushed after it.
   */
  lemma PopBackIff(solist: seq<Id>, si: Id)
    requires Distinct(solist) && si in solist
    ensures solist[..|solist| - 1] == Without(solist, si) <==> solist[|solist| - 1] == si
  {
    WithoutDistinct(solist, si);
    var n := |solist| - 1;
    if solist[n] == si {
      WithoutAt(solist, n);
    } else {
      var i :| 0 <= i < |solist| && solist[i] == si;
      assert solist[..n][i] == si;
    }
  }
}
