/**
 Which libraries can be loaded at all: a definition of the dependency closure that does not mention the loading order
 (what Runtime/AospLinker/agr_aosp_dynamic.cpp:206-237 must find), and how it changes while libraries are loaded.
 */
module LinkClosure {
  import opened Prelude
  import opened LinkGraph
  import opened InitOrder
  import opened LinkSteps

  /** The names the host provides (is_host_library). */
  const HOST_LIBRARIES := {"libc.so", "libm.so", "libdl.so", "liblog.so", "libstdc++.so", "libz.so", "libGLESv1_CM.so",
    "libGLESv2.so", "libEGL.so", "libandroid.so"}

  /** The registered files, the names of the libraries that are linked, and of those that are listed at all. */
  datatype World = World(sources: map<string, Source>, linked: set<string>, listed: set<string>)

  ghost function LinkedNames(objects: map<Id, So>): (r: set<string>) {
    set id | id in objects && objects[id].linked :: objects[id].name
  }

  ghost function WorldOf(objects: map<Id, So>, sources: map<string, Source>): (r: World) {
    World(sources, LinkedNames(objects), LoadedNames(objects))
  }

  /**
   `name` is there, or everything it needs is within `k` further levels. A library still being linked does not count.
   */
  predicate Within(w: World, name: string, k: nat)
    decreases k
  {
    || name in w.linked
    || (name !in w.listed
        && if name in w.sources then k > 0 && forall d :: d in w.sources[name].needed ==> Within(w, d, k - 1)
           else name in HOST_LIBRARIES)
  }

  /** The whole dependency closure of `name` is available and well founded. */
  ghost predicate Resolves(w: World, name: string) {
    exists k: nat :: Within(w, name, k)
  }

  ghost predicate AllResolve(w: World, names: seq<string>) {
    forall n :: n in names ==> Resolves(w, n)
  }

  lemma {:induction false} WithinMore(w: World, name: string, k: nat, m: nat)
    requires Within(w, name, k) && k <= m
    ensures Within(w, name, m)
    decreases k
  {
    if name !in w.linked && name in w.sources {
      forall d | d in w.sources[name].needed ensures Within(w, d, m - 1) {
        WithinMore(w, d, k - 1, m - 1);
      }
    }
  }

  /** One level bounds a whole list. */
  lemma {:induction false} CommonDepth(w: World, names: seq<string>) returns (k: nat)
    requires AllResolve(w, names)
    ensures forall n :: n in names ==> Within(w, n, k)
  {
    if names == [] {
      k := 0;
    } else {
      assert names[0] in names && forall n :: n in names[1..] ==> n in names;
      var j := CommonDepth(w, names[1..]);
      var i: nat :| Within(w, names[0], i);
      k := i + j;
      forall n | n in names ensures Within(w, n, k) {
        if n == names[0] { WithinMore(w, n, i, k); } else { WithinMore(w, n, j, k); }
      }
    }
  }

  /** A registered library that is not listed resolves iff everything it needs does. */
  /** With no files and nothing loaded, exactly the ten host libraries can be opened. */
  lemma HostNames(name: string)
    ensures Resolves(World(map[], {}, {}), name) <==> name in {"libc.so", "libm.so", "libdl.so", "liblog.so",
      "libstdc++.so", "libz.so", "libGLESv1_CM.so", "libGLESv2.so", "libEGL.so", "libandroid.so"}
  {
    ResolvesUnfold(World(map[], {}, {}), name);
  }

  lemma ResolvesUnfold(w: World, name: string)
    requires name !in w.linked
    ensures Resolves(w, name) <==>
      name !in w.listed && if name in w.sources then AllResolve(w, w.sources[name].needed) else name in HOST_LIBRARIES
  {
    if k: nat :| Within(w, name, k) {
      if name in w.sources {
        forall d | d in w.sources[name].needed ensures Resolves(w, d) { assert Within(w, d, k - 1); }
      }
    }
    if name !in w.listed {
      if name in w.sources {
        if AllResolve(w, w.sources[name].needed) {
          var k := CommonDepth(w, w.sources[name].needed);
          assert Within(w, name, k + 1);
        }
      } else if name in HOST_LIBRARIES {
        assert Within(w, name, 0);
      }
    }
  }

  // ---- Loading does not change what resolves -----------------------------------------------------

  /** Between `w` and `w'` whole closures have been loaded; the libraries being linked are still the same. */
  ghost predicate Grows(w: World, w': World) {
    && w'.sources == w.sources && w.linked <= w'.linked && w.listed <= w'.listed
    && (forall n :: n in w'.listed && n !in w.listed ==> n in w'.linked)
    && (forall n :: n in w.listed && n in w'.linked ==> n in w.linked)
    && (forall n :: n in w'.linked ==> Resolves(w, n))
  }

  lemma GrowsRefl(w: World)
    ensures Grows(w, w)
  {
    forall n | n in w.linked ensures Resolves(w, n) { assert Within(w, n, 0); }
  }

  lemma {:induction false} WithinKept(w: World, w': World, name: string, k: nat)
    requires Grows(w, w') && Within(w, name, k)
    ensures Within(w', name, k)
    decreases k
  {
    if name !in w'.linked && name in w.sources {
      forall d | d in w.sources[name].needed ensures Within(w', d, k - 1) { WithinKept(w, w', d, k - 1); }
    }
  }

  lemma {:induction false} WithinBefore(w: World, w': World, name: string, k: nat)
    requires Grows(w, w') && Within(w', name, k)
    ensures Resolves(w, name)
    decreases k
  {
    if name !in w'.linked {
      if name in w.sources {
        forall d | d in w.sources[name].needed ensures Resolves(w, d) { WithinBefore(w, w', d, k - 1); }
      }
      if name !in w.linked { ResolvesUnfold(w, name); }
    }
  }

  lemma SameResolves(w: World, w': World, name: string)
    requires Grows(w, w')
    ensures Resolves(w, name) <==> Resolves(w', name)
  {
    if k: nat :| Within(w, name, k) { WithinKept(w, w', name, k); }
    if k: nat :| Within(w', name, k) { WithinBefore(w, w', name, k); }
  }

  lemma GrowsTrans(w: World, mid: World, w': World)
    requires Grows(w, mid) && Grows(mid, w')
    ensures Grows(w, w')
  {
    forall n | n in w'.linked ensures Resolves(w, n) { SameResolves(w, mid, n); }
  }

  // ---- A library being linked ----------------------------------------------------------------------

  function Listing(w: World, name: string): (r: World) { w.(listed := w.listed + {name}) }

  lemma {:induction false} WithinUnlisted(w: World, name: string, d: string, k: nat)
    requires Within(Listing(w, name), d, k)
    ensures Within(w, d, k)
    decreases k
  {
    if d !in w.linked && d in w.sources {
      forall x | x in w.sources[d].needed ensures Within(w, x, k - 1) { WithinUnlisted(w, name, x, k - 1); }
    }
  }

  /** A closure shallower than that of `name` does not contain `name`. */
  lemma {:induction false} WithinListed(w: World, name: string, d: string, k: nat)
    requires Within(w, d, k) && !Within(w, name, k)
    ensures Within(Listing(w, name), d, k)
    decreases k
  {
    if d !in w.linked && d in w.sources {
      forall x | x in w.sources[d].needed ensures Within(Listing(w, name), x, k - 1) {
        if Within(w, name, k - 1) { WithinMore(w, name, k - 1, k); }
        WithinListed(w, name, x, k - 1);
      }
    }
  }

  lemma {:induction false} LeastDepth(w: World, name: string, k: nat) returns (m: nat)
    requires Within(w, name, k)
    ensures Within(w, name, m) && (m > 0 ==> !Within(w, name, m - 1))
    decreases k
  {
    if k > 0 && Within(w, name, k - 1) { m := LeastDepth(w, name, k - 1); } else { m := k; }
  }

  /** A new library resolves iff all it needs resolve while it is being linked: needing itself never helps. */
  lemma ListingResolves(w: World, name: string)
    requires name !in w.listed && name in w.sources && w.linked <= w.listed
    ensures Resolves(w, name) <==> AllResolve(Listing(w, name), w.sources[name].needed)
  {
    var needed := w.sources[name].needed;
    if k: nat :| Within(w, name, k) {
      var m := LeastDepth(w, name, k);
      forall d | d in needed ensures Resolves(Listing(w, name), d) { WithinListed(w, name, d, m - 1); }
    }
    if AllResolve(Listing(w, name), needed) {
      forall d | d in needed ensures Resolves(w, d) {
        var k: nat :| Within(Listing(w, name), d, k);
        WithinUnlisted(w, name, d, k);
      }
      ResolvesUnfold(w, name);
    }
  }

  /** Linking it completes the growth. */
  lemma ListingGrows(w: World, name: string, w': World)
    requires name !in w.listed && name in w.sources && w.linked <= w.listed && Resolves(w, name)
    requires Grows(Listing(w, name), w')
    ensures Grows(w, w'.(linked := w'.linked + {name}))
  {
    forall n | n in w'.linked ensures Resolves(w, n) {
      var k: nat :| Within(Listing(w, name), n, k);
      WithinUnlisted(w, name, n, k);
    }
  }

  lemma HostGrows(w: World, name: string)
    requires name !in w.listed && name !in w.sources && name in HOST_LIBRARIES && w.linked <= w.listed
    ensures Resolves(w, name) && Grows(w, w.(linked := w.linked + {name}, listed := w.listed + {name}))
  {
    assert Within(w, name, 0);
    GrowsRefl(w);
  }

  // ---- The linker's objects as a world ---------------------------------------------------------------

  lemma ResolvesListed(g: Graph, id: Id, sources: map<string, Source>)
    requires Ok(g) && id in g.objects
    ensures var w := WorldOf(g.objects, sources);
      Grows(w, w) && (Resolves(w, g.objects[id].name) <==> g.objects[id].linked)
  {
    var w, n := WorldOf(g.objects, sources), g.objects[id].name;
    GrowsRefl(w);
    assert n in w.listed;
    if g.objects[id].linked { assert n in w.linked && Within(w, n, 0); }
    if n !in w.linked { ResolvesUnfold(w, n); }
  }

  lemma FreeWorld(objects: map<Id, So>, sources: map<string, Source>, name: string)
    requires NameFree(objects, name)
    ensures var w := WorldOf(objects, sources);
      name !in w.listed && w.sources == sources && w.linked <= w.listed
  {
    NameIsFree(objects, name);
  }

  lemma AddedWorld(objects: map<Id, So>, id: Id, so: So, sources: map<string, Source>)
    requires id !in objects
    ensures var w := WorldOf(objects, sources);
      WorldOf(objects[id := so], sources) == w.(listed := w.listed + {so.name}, linked := if so.linked
        then w.linked + {so.name} else w.linked)
  {
    var now := objects[id := so];
    NameAdded(objects, id, so);
    forall n ensures n in LinkedNames(now) <==> n in LinkedNames(objects) || (so.linked && n == so.name) {
      if n in LinkedNames(objects) {
        var i :| i in objects && objects[i].linked && objects[i].name == n;
        assert now[i].name == n;
      }
      if so.linked { assert now[id].name == so.name; }
    }
  }

  lemma LinkedWorld(objects: map<Id, So>, si: Id, sources: map<string, Source>)
    requires si in objects
    ensures var w := WorldOf(objects, sources);
      WorldOf(objects[si := objects[si].(linked := true)], sources) == w.(linked := w.linked + {objects[si].name})
  {
    var now := objects[si := objects[si].(linked := true)];
    assert now[si].name == objects[si].name;
    forall n ensures n in LinkedNames(now) <==> n in LinkedNames(objects) || n == objects[si].name {
      if n in LinkedNames(objects) {
        var i :| i in objects && objects[i].linked && objects[i].name == n;
        assert now[i].linked && now[i].name == n;
      }
    }
    forall n ensures n in LoadedNames(now) <==> n in LoadedNames(objects) {
      if n in LoadedNames(objects) {
        var i :| i in objects && objects[i].name == n;
        assert now[i].name == n;
      }
    }
  }

  lemma SameWorld(objects: map<Id, So>, objects': map<Id, So>, sources: map<string, Source>)
    requires objects'.Keys == objects.Keys
    requires forall id :: id in objects ==>
      objects'[id].name == objects[id].name && objects'[id].linked == objects[id].linked
    ensures WorldOf(objects', sources) == WorldOf(objects, sources)
  {
    forall n ensures n in LinkedNames(objects') <==> n in LinkedNames(objects) {
      if n in LinkedNames(objects) {
        var i :| i in objects && objects[i].linked && objects[i].name == n;
        assert objects'[i].name == n;
      }
    }
    forall n ensures n in LoadedNames(objects') <==> n in LoadedNames(objects) {
      if n in LoadedNames(objects) {
        var i :| i in objects && objects[i].name == n;
        assert objects'[i].name == n;
      }
    }
  }

  // ---- Outcomes ----------------------------------------------------------------------------------------

  /**
   Finding `name` succeeds exactly if it resolves and no file operation fails; then whole closures have been loaded.
   */
  ghost predicate Outcome(w: World, w': World, name: string, ok: bool, before: nat, after: nat) {
    before <= after && (ok <==> Resolves(w, name) && after == before) && (ok ==> Grows(w, w'))
  }

  /** The same for a list of needed names. */
  ghost predicate NeedsOutcome(w: World, w': World, names: seq<string>, ok: bool, before: nat, after: nat) {
    before <= after && (ok <==> AllResolve(w, names) && after == before) && (ok ==> Grows(w, w'))
  }

  /** The same for linking the library `name`, which needs `names`. */
  ghost predicate LinkOutcome(w: World, w': World, name: string, names: seq<string>, ok: bool, before: nat,
      after: nat) {
    && before <= after && (ok <==> AllResolve(w, names) && after == before)
    && (ok ==> exists mid :: Grows(w, mid) && w' == mid.(linked := mid.linked + {name}))
  }

  lemma ListedOutcome(g: Graph, faulted: bool, history: map<Id, So>, events: seq<Event>, id: Id, sources: map<string,
      Source>, n: nat)
    requires Sound(g, {}, {}, faulted, history, events) && id in g.objects
    ensures var w := WorldOf(g.objects, sources); Outcome(w, w, g.objects[id].name, g.objects[id].linked, n, n)
  {
    ResolvesListed(g, id, sources);
  }

  lemma HostOutcome(w: World, name: string, n: nat)
    requires name !in w.listed && name !in w.sources && w.linked <= w.listed
    ensures if name in HOST_LIBRARIES then Outcome(w, w.(linked := w.linked + {name}, listed := w.listed + {name}),
      name, true, n, n)
            else Outcome(w, w, name, false, n, n)
  {
    if name in HOST_LIBRARIES { HostGrows(w, name); } else { ResolvesUnfold(w, name); }
  }

  lemma RefusedOutcome(w: World, w': World, name: string, before: nat, after: nat)
    requires before < after
    ensures Outcome(w, w', name, false, before, after)
  {
  }

  lemma SameFailure(w: World, mid: World, w': World, name: string, ok: bool, before: nat, after: nat)
    requires Outcome(w, mid, name, ok, before, after) && !ok
    ensures Outcome(w, w', name, false, before, after)
  {
  }

  lemma OutcomeMeans(w: World, w': World, name: string, ok: bool, before: nat, after: nat)
    requires Outcome(w, w', name, ok, before, after)
    ensures before <= after && (ok <==> Resolves(w, name) && after == before)
  {
  }

  lemma LoadedOutcome(w: World, w': World, name: string, ok: bool, before: nat, after: nat)
    requires name !in w.listed && name in w.sources && w.linked <= w.listed
    requires LinkOutcome(Listing(w, name), w', name, w.sources[name].needed, ok, before, after)
    ensures Outcome(w, w', name, ok, before, after)
  {
    ListingResolves(w, name);
    if ok {
      var mid :| Grows(Listing(w, name), mid) && w' == mid.(linked := mid.linked + {name});
      ListingGrows(w, name, mid);
    }
  }

  lemma NoNeedsFound(w: World, names: seq<string>)
    ensures AllResolve(w, names[..0]) && Grows(w, w)
  {
    GrowsRefl(w);
  }

  lemma NeedFound(w: World, mid: World, w': World, names: seq<string>, i: nat, ok: bool, before: nat, after: nat)
    requires i < |names| && Grows(w, mid) && AllResolve(w, names[..i]) && Outcome(mid, w', names[i], ok, before, after)
    ensures if ok then Grows(w, w') && AllResolve(w, names[..i + 1]) && after == before
            else NeedsOutcome(w, w', names, false, before, after)
  {
    SameResolves(w, mid, names[i]);
    if ok {
      GrowsTrans(w, mid, w');
      forall n | n in names[..i + 1] ensures Resolves(w, n) {
        assert names[..i + 1] == names[..i] + [names[i]];
      }
    }
  }

  lemma NeedsFound(w: World, w': World, names: seq<string>, n: nat)
    requires Grows(w, w') && AllResolve(w, names[..|names|])
    ensures NeedsOutcome(w, w', names, true, n, n)
  {
    assert names[..|names|] == names;
  }

  lemma LinkDone(w: World, mid: World, w': World, name: string, names: seq<string>, ok: bool, before: nat, middle: nat,
      after: nat)
    requires NeedsOutcome(w, mid, names, true, before, middle) && middle <= after && (ok <==> after == middle)
    requires w' == mid.(linked := mid.linked + {name})
    ensures LinkOutcome(w, w', name, names, ok, before, after)
  {
  }

  lemma LinkRefused(w: World, mid: World, w': World, name: string, names: seq<string>, ok: bool, before: nat,
      middle: nat, after: nat)
    requires NeedsOutcome(w, mid, names, ok, before, middle) && middle < after
    ensures LinkOutcome(w, w', name, names, false, before, after)
  {
  }

  lemma LinkFailed(w: World, w': World, name: string, names: seq<string>, ok: bool, before: nat, after: nat)
    requires NeedsOutcome(w, w', names, ok, before, after) && !ok
    ensures LinkOutcome(w, w', name, names, ok, before, after)
  {
  }

  // ---- What stands in the way ------------------------------------------------------------------------

  /** A registered library that would have to be loaded. */
  predicate New(w: World, name: string) { name !in w.linked && name !in w.listed && name in w.sources }

  /** A library that cannot be loaded by itself: still being linked, or neither registered nor provided by the host. */
  predicate Stuck(w: World, name: string) {
    name !in w.linked && (name in w.listed || (name !in w.sources && name !in HOST_LIBRARIES))
  }

  /** Following DT_NEEDED entries through libraries to be loaded. */
  predicate Walk(w: World, path: seq<string>) {
    path != [] && forall i :: 0 <= i < |path| - 1 ==> New(w, path[i]) && path[i + 1] in w.sources[path[i]].needed
  }

  predicate Repeats(path: seq<string>) { exists i, j :: 0 <= i < j < |path| && path[i] == path[j] }

  /** The needs of `name` lead to a missing or half-linked library, or round in a circle. */
  ghost predicate Blocked(w: World, name: string) {
    exists path :: Walk(w, path) && path[0] == name && (Stuck(w, path[|path| - 1]) || Repeats(path))
  }

  lemma {:induction false} WithinAlong(w: World, path: seq<string>, i: nat, j: nat, k: nat)
    requires Walk(w, path) && i <= j < |path| && Within(w, path[i], k)
    ensures j - i <= k && Within(w, path[j], k - (j - i))
    decreases j
  {
    if i < j {
      WithinAlong(w, path, i, j - 1, k);
      assert New(w, path[j - 1]);
    }
  }

  lemma BlockedNeverResolves(w: World, path: seq<string>, k: nat)
    requires Walk(w, path) && (Stuck(w, path[|path| - 1]) || Repeats(path))
    ensures !Within(w, path[0], k)
  {
    if Within(w, path[0], k) {
      WithinAlong(w, path, 0, |path| - 1, k);
      if i, j :| 0 <= i < j < |path| && path[i] == path[j] {
        WithinAlong(w, path, 0, i, k);
        var m := LeastDepth(w, path[i], k - i);
        WithinAlong(w, path, i, j, m);
        WithinMore(w, path[j], m - (j - i), m - 1);
      }
    }
  }

  ghost function Names(path: seq<string>): (r: set<string>) { set n | n in path }

  lemma {:induction false} WalkOn(w: World, path: seq<string>) returns (longer: seq<string>)
    requires Walk(w, path) && !Resolves(w, path[|path| - 1]) && w.linked <= w.listed
    requires !Repeats(path)
    ensures Walk(w, longer) && longer[0] == path[0] && (Stuck(w, longer[|longer| - 1]) || Repeats(longer))
    decreases |w.sources.Keys - Names(path[..|path| - 1])|
  {
    var last := path[|path| - 1];
    if last in w.linked { assert Within(w, last, 0); }
    ResolvesUnfold(w, last);
    if Stuck(w, last) { return path; }
    assert New(w, last);
    var d :| d in w.sources[last].needed && !Resolves(w, d);
    longer := path + [d];
    assert Walk(w, longer);
    if !Repeats(longer) {
      assert longer[..|longer| - 1] == path && path == path[..|path| - 1] + [last];
      assert last !in Names(path[..|path| - 1]) && last in Names(path);
      FewerLeft(w.sources.Keys, Names(path[..|path| - 1]), Names(path), last);
      longer := WalkOn(w, longer);
    }
  }

  lemma FewerLeft(all: set<string>, few: set<string>, more: set<string>, x: string)
    requires few <= more && x in all && x !in few && x in more
    ensures |all - more| < |all - few|
  {
    SubsetSize(all - more, all - few - {x});
  }

  /**
   A library resolves exactly if nothing blocks it: nothing missing, nothing half-linked and no cycle among what it
   needs.
   */
  lemma ResolvesIffUnblocked(w: World, name: string)
    requires w.linked <= w.listed
    ensures Resolves(w, name) <==> !Blocked(w, name)
  {
    if path :| Walk(w, path) && path[0] == name && (Stuck(w, path[|path| - 1]) || Repeats(path)) {
      forall k: nat ensures !Within(w, name, k) { BlockedNeverResolves(w, path, k); }
    }
    if !Resolves(w, name) {
      var path := WalkOn(w, [name]);
    }
  }
}
