/**
 Which functions of a library the log says were called, and in which order
 (Runtime/AospLinker/agr_aosp_dynamic.cpp:198-203): init_func and then init_array forwards; fini_array backwards and
 then fini_func.
 */
module InitFunctions {
  import opened Prelude
  import opened LinkGraph
  import opened InitOrder

  /** An address that stands for a function: neither 0 nor 2^32 - 1. */
  predicate Real(fn: uint32) { fn != 0 && fn != 0xffff_ffff }

  /** How many of the addresses do. */
  function Count(fns: seq<uint32>): (n: nat) {
    if fns == [] then 0 else (if Real(fns[0]) then 1 else 0) + Count(fns[1..])
  }

  function Occurrences(fns: seq<uint32>, fn: uint32): (n: nat) {
    if fns == [] then 0 else (if fns[0] == fn then 1 else 0) + Occurrences(fns[1..], fn)
  }

  lemma {:induction false} CountAppend(xs: seq<uint32>, ys: seq<uint32>)
    ensures Count(xs + ys) == Count(xs) + Count(ys)
    ensures forall fn: uint32 :: Occurrences(xs + ys, fn) == Occurrences(xs, fn) + Occurrences(ys, fn)
  {
    if xs == [] {
      assert xs + ys == ys;
    } else {
      assert (xs + ys)[1..] == xs[1..] + ys;
      CountAppend(xs[1..], ys);
    }
  }

  lemma OneFunction(fn: uint32)
    ensures Count([fn]) == if Real(fn) then 1 else 0
    ensures forall other: uint32 :: Occurrences([fn], other) == if fn == other then 1 else 0
  {
    assert [fn][1..] == [];
  }

  lemma {:induction false} RunnableCounts(fns: seq<uint32>)
    ensures |Runnable(fns)| == Count(fns)
    ensures forall fn: uint32 :: Occurrences(Runnable(fns), fn) == if Real(fn) then Occurrences(fns, fn) else 0
  {
    if fns != [] {
      var n := |fns| - 1;
      var last := if Skipped(fns[n]) then [] else [fns[n]];
      RunnableCounts(fns[..n]);
      assert fns == fns[..n] + [fns[n]];
      CountAppend(fns[..n], [fns[n]]);
      CountAppend(Runnable(fns[..n]), last);
      OneFunction(fns[n]);
      forall fn: uint32 ensures Occurrences(Runnable(fns), fn) == if Real(fn) then Occurrences(fns, fn) else 0 {
        assert Occurrences(fns, fn) == Occurrences(fns[..n], fn) + Occurrences([fns[n]], fn);
        assert Occurrences(Runnable(fns), fn) == Occurrences(Runnable(fns[..n]), fn) + Occurrences(last, fn);
      }
    }
  }

  /** Each real address comes after as many as there are real ones before it. */
  lemma {:induction false} RunnableAt(fns: seq<uint32>, i: nat)
    requires i < |fns| && Real(fns[i])
    ensures Count(fns[..i]) < |Runnable(fns)| && Runnable(fns)[Count(fns[..i])] == fns[i]
  {
    var n := |fns| - 1;
    RunnableCounts(fns[..n]);
    if i < n {
      RunnableAt(fns[..n], i);
      assert fns[..n][..i] == fns[..i];
    }
  }

  /** In the reversed list, before entry `i` come those behind it. */
  lemma {:induction false} ReversedCount(fns: seq<uint32>)
    ensures Count(Reversed(fns)) == Count(fns)
    ensures forall fn: uint32 :: Occurrences(Reversed(fns), fn) == Occurrences(fns, fn)
  {
    if fns != [] {
      ReversedCount(fns[1..]);
      assert Reversed(fns) == Reversed(fns[1..]) + [fns[0]];
      CountAppend(Reversed(fns[1..]), [fns[0]]);
      OneFunction(fns[0]);
      forall fn: uint32 ensures Occurrences(Reversed(fns), fn) == Occurrences(fns, fn) {
        assert Occurrences(Reversed(fns), fn) == Occurrences(Reversed(fns[1..]), fn) + Occurrences([fns[0]], fn);
      }
    }
  }

  lemma ReversedBefore(fns: seq<uint32>, i: nat)
    requires i < |fns|
    ensures Count(Reversed(fns)[..|fns| - 1 - i]) == Count(fns[i + 1..])
  {
    assert Reversed(fns)[..|fns| - 1 - i] == Reversed(fns[i + 1..]);
    ReversedCount(fns[i + 1..]);
  }

  /** Later entries have fewer behind them. */
  lemma FewerBehind(fns: seq<uint32>, i: nat, j: nat)
    requires i < j < |fns| && Real(fns[j])
    ensures Count(fns[j + 1..]) < Count(fns[i + 1..]) && Count(fns[..i]) <= Count(fns[..j])
    ensures Real(fns[i]) ==> Count(fns[..i]) < Count(fns[..j])
  {
    assert fns[i + 1..] == fns[i + 1..j] + fns[j..];
    assert fns[j..][1..] == fns[j + 1..];
    CountAppend(fns[i + 1..j], fns[j..]);
    assert fns[..j] == fns[..i] + fns[i..j];
    CountAppend(fns[..i], fns[i..j]);
  }

  /**
   Exactly the real addresses were called, each once for each time it occurs in the table or as the single function.
   */
  ghost predicate EachOnce(table: seq<uint32>, single: uint32, fns: seq<uint32>) {
    forall fn: uint32 ::
      Occurrences(fns, fn) == if Real(fn) then Occurrences(table, fn) + (if single == fn then 1 else 0) else 0
  }

  /** Entry `i` was called after exactly those behind it. */
  ghost predicate Backwards(table: seq<uint32>, fns: seq<uint32>) {
    forall i {:trigger table[i]} :: 0 <= i < |table| && Real(table[i]) ==>
      var at := Count(table[i + 1..]); at < |fns| && fns[at] == table[i]
  }

  /** Entry `i` was called after exactly `first` functions and those before it. */
  ghost predicate Forwards(table: seq<uint32>, fns: seq<uint32>, first: nat) {
    forall i {:trigger table[i]} :: 0 <= i < |table| && Real(table[i]) ==>
      var at := Count(table[..i]) + first; at < |fns| && fns[at] == table[i]
  }

  /** What the log says of one library's finalizers: the table backwards, and fini_func last. */
  ghost predicate FinalizersRan(source: Source, fns: seq<uint32>) {
    && EachOnce(source.finiArray, source.finiFunc, fns) && Backwards(source.finiArray, fns)
    && (Real(source.finiFunc) ==> fns != [] && fns[|fns| - 1] == source.finiFunc)
  }

  /** And of its constructors: init_func first, then the table. */
  ghost predicate ConstructorsRan(source: Source, fns: seq<uint32>) {
    && EachOnce(source.initArray, source.initFunc, fns)
    && Forwards(source.initArray, fns, if Real(source.initFunc) then 1 else 0)
    && (Real(source.initFunc) ==> fns != [] && fns[0] == source.initFunc)
  }

  lemma OneRunnable(fn: uint32)
    ensures Runnable([fn]) == if Real(fn) then [fn] else []
  {
    assert [fn][..0] == [];
  }

  lemma EachOnceOf(table: seq<uint32>, single: uint32, x: seq<uint32>, y: seq<uint32>, order: seq<uint32>)
    requires forall fn: uint32 :: Occurrences(order, fn) == Occurrences(table, fn)
    requires (x == Runnable(order) && y == Runnable([single])) || (y == Runnable(order) && x == Runnable([single]))
    ensures EachOnce(table, single, x + y)
  {
    RunnableCounts(order);
    RunnableCounts([single]);
    OneFunction(single);
    CountAppend(x, y);
    hide Runnable, Count;
    forall fn: uint32
      ensures Occurrences(x + y, fn) ==
        if Real(fn) then Occurrences(table, fn) + (if single == fn then 1 else 0) else 0
    {
      assert Occurrences(x + y, fn) == Occurrences(x, fn) + Occurrences(y, fn);
      assert Occurrences(Runnable(order), fn) == if Real(fn) then Occurrences(order, fn) else 0;
      assert Occurrences([single], fn) == if single == fn then 1 else 0;
      assert Occurrences(Runnable([single]), fn) == if Real(fn) then Occurrences([single], fn) else 0;
      hide Occurrences;
    }
  }

  lemma FiniFnsRan(source: Source)
    ensures FinalizersRan(source, FiniFns(Some(source)))
  {
    var table := source.finiArray;
    var back, last := Runnable(Reversed(table)), Runnable([source.finiFunc]);
    ReversedCount(table);
    EachOnceOf(table, source.finiFunc, back, last, Reversed(table));
    OneRunnable(source.finiFunc);
    BackwardsOf(table);
    BackwardsMore(table, back, last);
    hide EachOnce, Runnable, Backwards;
  }

  lemma BackwardsOf(table: seq<uint32>)
    ensures Backwards(table, Runnable(Reversed(table)))
  {
    forall i {:trigger table[i]} | 0 <= i < |table| && Real(table[i])
      ensures Count(table[i + 1..]) < |Runnable(Reversed(table))|
      ensures Runnable(Reversed(table))[Count(table[i + 1..])] == table[i]
    {
      RunnableAt(Reversed(table), |table| - 1 - i);
      ReversedBefore(table, i);
    }
  }

  lemma BackwardsMore(table: seq<uint32>, fns: seq<uint32>, more: seq<uint32>)
    requires Backwards(table, fns)
    ensures Backwards(table, fns + more)
  {
  }

  lemma InitFnsRan(source: Source)
    ensures ConstructorsRan(source, InitFns(Some(source)))
  {
    var table := source.initArray;
    var first, rest := Runnable([source.initFunc]), Runnable(table);
    EachOnceOf(table, source.initFunc, first, rest, table);
    OneRunnable(source.initFunc);
    hide EachOnce, Runnable;
    forall i | 0 <= i < |table| && Real(table[i])
      ensures var at := Count(table[..i]); at < |rest| && rest[at] == table[i]
    {
      RunnableAt(table, i);
    }
    hide Count;
  }

  /** In the log of a linker in which no such function has failed, every entry is complete and in order. */
  lemma LogInOrder(objects: map<Id, So>, history: map<Id, So>, events: seq<Event>, nextId: nat, active: set<Id>, k: nat)
    requires Orderly(objects, history, events, nextId, active) && k < |events|
    ensures events[k].id in history
    ensures match history[events[k].id].source
      case None => events[k].fns == []
      case Some(source) =>
        if events[k].Fini? then FinalizersRan(source, events[k].fns) else ConstructorsRan(source, events[k].fns)
  {
    assert EventOk(history, events, k);
    var source := history[events[k].id].source;
    if source.Some? {
      FiniFnsRan(source.value);
      InitFnsRan(source.value);
    }
    hide FinalizersRan, ConstructorsRan;
  }

  /** So of two entries of fini_array the later one runs first, and both before fini_func. */
  lemma LaterEntryFirst(source: Source, fns: seq<uint32>, i: nat, j: nat) returns (x: nat, y: nat)
    requires FinalizersRan(source, fns) && i < j < |source.finiArray|
    requires Real(source.finiArray[i]) && Real(source.finiArray[j])
    ensures x < y < |fns| && fns[x] == source.finiArray[j] && fns[y] == source.finiArray[i]
  {
    FewerBehind(source.finiArray, i, j);
    x, y := Count(source.finiArray[j + 1..]), Count(source.finiArray[i + 1..]);
  }
}
