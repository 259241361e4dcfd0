/** Dependency invalidation of the upstream map (ci/upstream-map.py:112-126): a greatest fixpoint, computed in place. */
module UpstreamMap {
  import opened Prelude

  datatype Status = Valid | Stale | Invalid | Other(text: string)

  datatype Entry = Entry(status: Status, dependencies: seq<string>)

  predicate Missing(entries: map<string, Entry>, id: string)
    requires id in entries
  {
    exists d :: d in entries[id].dependencies && d !in entries
  }

  /** A set of entries that started VALID and whose dependencies all exist and belong to the set. */
  ghost predicate Closed(entries: map<string, Entry>, s: set<string>) {
    forall id :: id in s ==>
      id in entries && entries[id].status == Valid && forall d :: d in entries[id].dependencies ==>
        d in entries && d in s
  }

  /** A chain of dependencies; its last link may be missing. */
  ghost predicate IsChain(entries: map<string, Entry>, chain: seq<string>) {
    && chain != [] && (forall k :: 0 <= k < |chain| - 1 ==> chain[k] in entries)
    && forall k :: 0 <= k < |chain| - 1 ==> chain[k + 1] in entries[chain[k]].dependencies
  }

  /** The entry and everything it depends on, directly or not, exist and started VALID. */
  ghost predicate Sound(entries: map<string, Entry>, id: string) {
    forall chain :: IsChain(entries, chain) && chain[0] == id ==>
      chain[|chain| - 1] in entries && entries[chain[|chain| - 1]].status == Valid
  }

  /** The statuses once no rule applies any more. */
  ghost predicate Settled(entries: map<string, Entry>, status: map<string, Status>) {
    status.Keys == entries.Keys && forall id :: id in entries ==> EntrySettled(entries, status, id)
  }

  ghost predicate EntrySettled(entries: map<string, Entry>, status: map<string, Status>, id: string)
    requires id in entries && status.Keys == entries.Keys
  {
    && (Missing(entries, id) ==> status[id] == Invalid)
    && (status[id] == Valid ==> forall d :: d in entries[id].dependencies ==> d in entries && status[d] == Valid)
  }

  /**
   How far a run has come: statuses only go from VALID to STALE, or to INVALID where a dependency is missing; closed
   sets stay VALID.
   */
  ghost predicate Reached(entries: map<string, Entry>, status: map<string, Status>) {
    && status.Keys == entries.Keys
    && (forall id :: id in entries ==> StatusOk(entries, status, id))
    && forall s :: Closed(entries, s) ==> forall id :: id in s ==> status[id] == Valid
  }

  ghost predicate StatusOk(entries: map<string, Entry>, status: map<string, Status>, id: string)
    requires id in entries && id in status
  {
    || status[id] == entries[id].status
    || (status[id] == Invalid && Missing(entries, id))
    || (status[id] == Stale && entries[id].status == Valid)
  }

  function Weight(s: Status): (r: nat) {
    match s case Valid => 2 case Invalid => 0 case _ => 1
  }

  ghost function Total(status: map<string, Status>): (r: nat)
    decreases |status|
  {
    if status == map[] then 0
    else
      var id :| id in status;
      Weight(status[id]) + Total(status - {id})
  }

  /** The total does not depend on the order in which it is summed. */
  lemma {:induction false} TotalAt(status: map<string, Status>, id: string)
    requires id in status
    ensures Total(status) == Weight(status[id]) + Total(status - {id})
    decreases |status|
  {
    var first :| first in status && Total(status) == Weight(status[first]) + Total(status - {first});
    if first != id {
      TotalAt(status - {first}, id);
      TotalAt(status - {id}, first);
      assert status - {first} - {id} == status - {id} - {first};
    }
  }

  lemma TotalDrops(status: map<string, Status>, id: string, s: Status)
    requires id in status && Weight(s) < Weight(status[id])
    ensures Total(status[id := s]) < Total(status)
  {
    TotalAt(status, id);
    TotalAt(status[id := s], id);
    assert status[id := s] - {id} == status - {id};
  }

  /** The loop over one entry's dependencies. */
  method VisitEntry(entries: map<string, Entry>, status: map<string, Status>, id: string)
      returns (now: map<string, Status>, changed: bool)
    requires id in entries && Reached(entries, status)
    ensures Reached(entries, now) && Total(now) <= Total(status)
    ensures changed ==> Total(now) < Total(status)
    ensures !changed ==> now == status && EntrySettled(entries, now, id)
  {
    now, changed := status, false;
    var i := 0;
    var deps := entries[id].dependencies;
    hide Reached, Closed;
    while i < |deps|
      invariant 0 <= i <= |deps| && Reached(entries, now) && now.Keys == entries.Keys
      invariant if changed then Total(now) < Total(status) else now == status
      invariant !changed ==> DepsSettled(entries, now, id, deps[..i])
    {
      var dependency := deps[i];
      assert dependency in deps;
      if dependency !in entries {
        if now[id] != Invalid {
          InvalidReached(entries, now, id, dependency);
          TotalDrops(now, id, Invalid);
          now, changed := now[id := Invalid], true;
        }
      } else if now[dependency] != Valid && now[id] == Valid {
        StaleReached(entries, now, id, dependency);
        TotalDrops(now, id, Stale);
        now, changed := now[id := Stale], true;
      }
      assert deps[..i + 1] == deps[..i] + [dependency];
      i := i + 1;
    }
    assert deps[..i] == deps;
  }

  ghost predicate DepsSettled(entries: map<string, Entry>, status: map<string, Status>, id: string, deps: seq<string>)
    requires id in status && status.Keys == entries.Keys
  {
    forall d :: d in deps ==> if d !in entries then status[id] == Invalid else status[id] == Valid ==>
      status[d] == Valid
  }

  /** evaluate's while-changed loop, visiting the entries in any fixed order. */
  method Invalidate(entries: map<string, Entry>, order: seq<string>) returns (status: map<string, Status>)
    requires forall id :: id in entries <==> id in order
    ensures Settled(entries, status) && Reached(entries, status)
  {
    status := map id | id in entries :: entries[id].status;
    hide Reached, EntrySettled;
    StartReached(entries);
    var changed := true;
    while changed
      invariant Reached(entries, status) && status.Keys == entries.Keys
      invariant !changed ==> forall id :: id in entries ==> EntrySettled(entries, status, id)
      decreases Total(status), changed
    {
      changed := false;
      ghost var before := status;
      var i := 0;
      while i < |order|
        invariant 0 <= i <= |order| && Reached(entries, status) && status.Keys == entries.Keys
        invariant if changed then Total(status) < Total(before) else status == before
        invariant !changed ==> forall j :: 0 <= j < i ==> EntrySettled(entries, status, order[j])
      {
        assert order[i] in order;
        var more;
        status, more := VisitEntry(entries, status, order[i]);
        ReachedKeys(entries, status);
        changed := changed || more;
        i := i + 1;
      }
    }
  }

  lemma ReachedKeys(entries: map<string, Entry>, status: map<string, Status>)
    requires Reached(entries, status)
    ensures status.Keys == entries.Keys
  {
  }

  lemma StartReached(entries: map<string, Entry>)
    ensures Reached(entries, map id | id in entries :: entries[id].status)
  {
  }

  lemma ClosedNeeds(entries: map<string, Entry>, s: set<string>, id: string, d: string)
    requires Closed(entries, s) && id in s && d in entries[id].dependencies
    ensures d in entries && d in s && entries[id].status == Valid
  {
  }

  lemma InvalidReached(entries: map<string, Entry>, status: map<string, Status>, id: string, d: string)
    requires Reached(entries, status) && id in entries && d in entries[id].dependencies && d !in entries
    ensures Reached(entries, status[id := Invalid])
  {
    forall s | Closed(entries, s) ensures id !in s {
      if id in s { ClosedNeeds(entries, s, id, d); }
    }
  }

  lemma StaleReached(entries: map<string, Entry>, status: map<string, Status>, id: string, d: string)
    requires Reached(entries, status) && id in entries && d in entries[id].dependencies && d in entries
    requires status[d] != Valid && status[id] == Valid
    ensures Reached(entries, status[id := Stale])
  {
    assert StatusOk(entries, status, id);
    forall s | Closed(entries, s) ensures id !in s {
      if id in s { ClosedNeeds(entries, s, id, d); }
    }
  }

  // ---- The result ----------------------------------------------------------------------------

  /** An entry ends VALID exactly if it and everything it transitively depends on exist and started VALID. */
  lemma ValidIffSound(entries: map<string, Entry>, status: map<string, Status>, id: string)
    requires Settled(entries, status) && Reached(entries, status) && id in entries
    ensures status[id] == Valid <==> Sound(entries, id)
  {
    if status[id] == Valid {
      forall chain | IsChain(entries, chain) && chain[0] == id
        ensures chain[|chain| - 1] in entries && entries[chain[|chain| - 1]].status == Valid
      {
        ValidAlong(entries, status, chain);
      }
    }
    if Sound(entries, id) {
      var s := set x | x in entries && Sound(entries, x);
      SoundIsClosed(entries, s);
    }
  }

  lemma {:induction false} ValidAlong(entries: map<string, Entry>, status: map<string, Status>, chain: seq<string>)
    requires Settled(entries, status) && Reached(entries, status) && IsChain(entries, chain) && chain[0] in entries
      && status[chain[0]] == Valid
    ensures chain[|chain| - 1] in entries && entries[chain[|chain| - 1]].status == Valid
    decreases |chain|
  {
    assert StatusOk(entries, status, chain[0]) && EntrySettled(entries, status, chain[0]);
    if |chain| > 1 {
      assert chain[0 + 1] in entries[chain[0]].dependencies;
      forall k | 0 <= k < |chain[1..]| - 1 ensures chain[1..][k] in entries
        && chain[1..][k + 1] in entries[chain[1..][k]].dependencies {
        assert chain[k + 1] in entries && chain[k + 1 + 1] in entries[chain[k + 1]].dependencies;
      }
      ValidAlong(entries, status, chain[1..]);
    }
  }

  lemma SoundIsClosed(entries: map<string, Entry>, s: set<string>)
    requires s == set x | x in entries && Sound(entries, x)
    ensures Closed(entries, s)
  {
    forall id | id in s ensures entries[id].status == Valid && forall d :: d in entries[id].dependencies ==>
      d in entries && d in s {
      assert IsChain(entries, [id]);
      forall d | d in entries[id].dependencies ensures d in entries && d in s { SoundNeeds(entries, id, d); }
    }
  }

  lemma SoundNeeds(entries: map<string, Entry>, id: string, d: string)
    requires id in entries && Sound(entries, id) && d in entries[id].dependencies
    ensures d in entries && Sound(entries, d)
  {
    assert IsChain(entries, [id, d]);
    forall chain | IsChain(entries, chain) && chain[0] == d
      ensures chain[|chain| - 1] in entries && entries[chain[|chain| - 1]].status == Valid
    {
      var longer := [id] + chain;
      forall k | 0 <= k < |longer| - 1 ensures longer[k] in entries
        && longer[k + 1] in entries[longer[k]].dependencies {
        if k > 0 { assert chain[k - 1] in entries && chain[k - 1 + 1] in entries[chain[k - 1]].dependencies; }
      }
      assert IsChain(entries, longer);
    }
  }

  /** So the outcome is the same for every order of visiting, cycles and missing entries included. */
  lemma OrderIrrelevant(entries: map<string, Entry>, one: map<string, Status>, two: map<string, Status>)
    requires Settled(entries, one) && Reached(entries, one) && Settled(entries, two) && Reached(entries, two)
    ensures one == two
  {
    forall id | id in entries ensures one[id] == two[id] {
      ValidIffSound(entries, one, id);
      ValidIffSound(entries, two, id);
      assert StatusOk(entries, one, id) && StatusOk(entries, two, id) && EntrySettled(entries, one, id)
        && EntrySettled(entries, two, id);
    }
  }

  /**
   The whole result: INVALID where a dependency is missing; STALE for an entry that started VALID and is not sound; and
   everything else as it was.
   */
  lemma FinalStatus(entries: map<string, Entry>, status: map<string, Status>, id: string)
    requires Settled(entries, status) && Reached(entries, status) && id in entries
    ensures status[id] == if exists d :: d in entries[id].dependencies && d !in entries then Invalid
      else if entries[id].status == Valid && !Sound(entries, id) then Stale else entries[id].status
  {
    ValidIffSound(entries, status, id);
    assert StatusOk(entries, status, id) && EntrySettled(entries, status, id);
  }
}
