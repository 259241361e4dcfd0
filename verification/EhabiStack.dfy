/**
 Which words of the stack an unwinding step may read (Runtime/Ehabi/agr_ehabi.c:55-61, 134-171): those that lie wholly
 between the stack's bounds, if they are known.
 */
module EhabiStack {
  import opened Prelude
  import opened EhabiSpec

  /** The word at `a` lies in a stack of known bounds that ends below 2^32. */
  predicate InStack(env: Env, a: int) {
    env.stackBase + env.stackSize < TWO32 && env.stackBase <= a && a + 4 <= env.stackBase + env.stackSize
  }

  predicate Readable(env: Env, a: int) { env.stackSize == 0 || InStack(env, a) }

  /** stack_ok accepts exactly those words; of a stack that ends at 2^32 or wraps around it accepts none. */
  lemma StackOkIff(env: Env, a: uint32)
    ensures StackOk(env, a) <==> Readable(env, a)
  {
  }

  // ---- Nothing else is read --------------------------------------------------------------------

  /** The same memory without the words outside the stack. */
  function StackOnly(env: Env): (cut: Env) {
    env.(words := map a | a in env.words && Readable(env, a) :: env.words[a])
  }

  lemma CutPop(env: Env, a: uint32)
    ensures CanPop(StackOnly(env), a) <==> CanPop(env, a)
    ensures CanPop(env, a) ==> StackOnly(env).words[a] == env.words[a]
  {
    StackOkIff(env, a);
  }

  lemma {:induction false} CutLoadCore(env: Env, r: seq<uint32>, mask: Mask, i: nat, ptr: uint32)
    requires |r| == 16 && i <= 16
    ensures LoadCore(StackOnly(env), r, mask, i, ptr) == LoadCore(env, r, mask, i, ptr)
    decreases 16 - i
  {
    if i < 16 {
      CutPop(env, ptr);
      hide CanPop, StackOnly;
      if !mask[i] {
        CutLoadCore(env, r, mask, i + 1, ptr);
      } else if CanPop(env, ptr) {
        CutLoadCore(env, r[i := env.words[ptr]], mask, i + 1, Wrap32(ptr + 4));
      }
    }
  }

  lemma {:induction false} CutLoadWords(env: Env, ptr: uint32, n: nat)
    ensures LoadWords(StackOnly(env), ptr, n) == LoadWords(env, ptr, n)
    decreases n
  {
    if n > 0 {
      CutPop(env, ptr);
      hide CanPop, StackOnly;
      CutLoadWords(env, Wrap32(ptr + 4), n - 1);
    }
  }

  lemma CutApply(env: Env, st: Regs, op: Op)
    requires RegsOk(st)
    ensures Apply(StackOnly(env), st, op) == Apply(env, st, op)
  {
    match op
    case PopCore(mask) => CutLoadCore(env, st.r, mask, 0, st.r[SP]);
    case PopVfp(start, count, x) => CutLoadWords(env, st.r[SP], VfpWords(count, x));
    case _ =>
  }

  /** A descriptor gives the same result, success or failure, when all words outside the stack are taken away. */
  lemma {:induction false} OnlyStackMatters(env: Env, st: Regs, setPc: bool, bytes: seq<byte>, broken: bool)
    requires RegsOk(st)
    ensures Run(StackOnly(env), st, setPc, bytes, broken) == Run(env, st, setPc, bytes, broken)
    decreases |bytes|
  {
    var (op, rest) := Decode(bytes, broken);
    CutApply(env, st, op);
    hide Decode, StackOnly;
    if !op.Finish? {
      match Apply(env, st, op)
      case Stopped(_) =>
      case Done(next) =>
        hide Apply;
        if |rest| < |bytes| { OnlyStackMatters(env, next, setPc || SetsPc(op), rest, broken); }
    }
  }

  // ---- A pop beyond it stops -------------------------------------------------------------------

  /** How many registers a mask has from `i` on. */
  function Members(mask: Mask, i: nat): (n: nat)
    requires i <= 16
    decreases 16 - i
  {
    if i == 16 then 0 else (if mask[i] then 1 else 0) + Members(mask, i + 1)
  }

  /** The word `k` words above `ptr`. */
  function Above(ptr: uint32, k: nat): (a: uint32) { Wrap32(ptr + 4 * k) }

  lemma AboveNext(ptr: uint32, k: nat)
    ensures Above(ptr, 0) == ptr && Above(Wrap32(ptr + 4), k) == Above(ptr, k + 1)
  {
  }

  predicate Gettable(env: Env, a: uint32) { Readable(env, a) && a in env.words }

  lemma CanPopIff(env: Env, a: uint32)
    ensures CanPop(env, a) <==> Gettable(env, a)
  {
    StackOkIff(env, a);
  }

  lemma {:induction false} CoreReads(env: Env, r: seq<uint32>, mask: Mask, i: nat, ptr: uint32, k: nat)
    requires |r| == 16 && i <= 16 && k < Members(mask, i) && !Gettable(env, Above(ptr, k))
    ensures LoadCore(env, r, mask, i, ptr) == None
    decreases 16 - i
  {
    AboveNext(ptr, if k == 0 then 0 else k - 1);
    CanPopIff(env, ptr);
    hide Above, Gettable, CanPop, Wrap32;
    if !mask[i] {
      CoreReads(env, r, mask, i + 1, ptr, k);
    } else if k > 0 && CanPop(env, ptr) {
      CoreReads(env, r[i := env.words[ptr]], mask, i + 1, Wrap32(ptr + 4), k - 1);
    }
  }

  lemma {:induction false} WordsRead(env: Env, ptr: uint32, n: nat, k: nat)
    requires k < n && !Gettable(env, Above(ptr, k))
    ensures LoadWords(env, ptr, n) == None
    decreases n
  {
    AboveNext(ptr, if k == 0 then 0 else k - 1);
    CanPopIff(env, ptr);
    hide Above, Gettable, CanPop, Wrap32;
    if k > 0 { WordsRead(env, Wrap32(ptr + 4), n - 1, k - 1); }
  }

  /** Popping a word that is not in the stack, or that the guest cannot read, stops the unwinding with a failure. */
  lemma PopOutsideFails(env: Env, st: Regs, op: Op, k: nat)
    requires RegsOk(st) && (op.PopCore? || (op.PopVfp? && op.start + op.count <= 32))
    requires k < if op.PopCore? then Members(op.mask, 0) else 2 * op.count + if op.x then 1 else 0
    requires var a := Wrap32(st.r[SP] + 4 * k); !Readable(env, a) || a !in env.words
    ensures Apply(env, st, op) == Stopped(Failure)
  {
    if op.PopCore? {
      CoreReads(env, st.r, op.mask, 0, st.r[SP], k);
    } else {
      WordsRead(env, st.r[SP], VfpWords(op.count, op.x), k);
    }
    hide LoadCore, LoadWords, Members;
  }

  // ---- What a pop loads ------------------------------------------------------------------------

  lemma {:induction false} CoreEnds(env: Env, r: seq<uint32>, mask: Mask, i: nat, ptr: uint32)
    requires |r| == 16 && i <= 16 && LoadCore(env, r, mask, i, ptr).Some?
    ensures LoadCore(env, r, mask, i, ptr).value.1 == Above(ptr, Members(mask, i))
    decreases 16 - i
  {
    AboveNext(ptr, if i < 16 then Members(mask, i + 1) else 0);
    hide Above, Wrap32, StackOk;
    if i < 16 {
      if mask[i] {
        CoreEnds(env, r[i := env.words[ptr]], mask, i + 1, Wrap32(ptr + 4));
      } else {
        CoreEnds(env, r, mask, i + 1, ptr);
      }
    }
  }

  lemma {:induction false} CoreKeeps(env: Env, r: seq<uint32>, mask: Mask, i: nat, ptr: uint32, j: nat)
    requires |r| == 16 && i <= 16 && j < 16 && (j < i || !mask[j]) && LoadCore(env, r, mask, i, ptr).Some?
    ensures LoadCore(env, r, mask, i, ptr).value.0[j] == r[j]
    decreases 16 - i
  {
    hide Wrap32, StackOk;
    if i < 16 {
      if mask[i] {
        CoreKeeps(env, r[i := env.words[ptr]], mask, i + 1, Wrap32(ptr + 4), j);
      } else {
        CoreKeeps(env, r, mask, i + 1, ptr, j);
      }
    }
  }

  lemma {:induction false} CoreTakes(env: Env, r: seq<uint32>, mask: Mask, i: nat, ptr: uint32, j: nat, k: nat)
    requires |r| == 16 && i <= j < 16 && mask[j] && k + Members(mask, j) == Members(mask, i)
      && LoadCore(env, r, mask, i, ptr).Some?
    ensures Above(ptr, k) in env.words && LoadCore(env, r, mask, i, ptr).value.0[j] == env.words[Above(ptr, k)]
    decreases 16 - i
  {
    AboveNext(ptr, if k > 0 then k - 1 else 0);
    if i < j { MembersFall(mask, i + 1, j); }
    hide Above, Wrap32, StackOk;
    if i == j {
      CoreKeeps(env, r[i := env.words[ptr]], mask, i + 1, Wrap32(ptr + 4), j);
    } else if mask[i] {
      CoreTakes(env, r[i := env.words[ptr]], mask, i + 1, Wrap32(ptr + 4), j, k - 1);
    } else {
      CoreTakes(env, r, mask, i + 1, ptr, j, k);
    }
  }

  lemma {:induction false} MembersFall(mask: Mask, i: nat, j: nat)
    requires i <= j <= 16
    ensures Members(mask, i) >= Members(mask, j)
    decreases 16 - i
  {
    if i < j { MembersFall(mask, i + 1, j); }
  }

  /**
   A pop that succeeds loads every register of its mask from the word after those of the lower ones, the stack pointer
   itself included, and leaves the rest alone; if the stack pointer is not in the mask it ends above all these words.
   */
  lemma PopCoreLoads(env: Env, st: Regs, mask: Mask, i: nat)
    requires RegsOk(st) && i < 16 && Apply(env, st, Op.PopCore(mask)).Done?
    ensures Members(mask, i) <= Members(mask, 0)
    ensures var st' := Apply(env, st, Op.PopCore(mask)).st;
      var at := Wrap32(st.r[SP] + 4 * (Members(mask, 0) - Members(mask, i)));
      && st'.d == st.d && st'.thumb == st.thumb
      && (if mask[i] then at in env.words && st'.r[i] == env.words[at]
          else if i == SP then st'.r[i] == Wrap32(st.r[SP] + 4 * Members(mask, 0))
          else st'.r[i] == st.r[i])
  {
    hide LoadCore, Members, StackOk, Readable;
    MembersFall(mask, 0, i);
    CoreEnds(env, st.r, mask, 0, st.r[SP]);
    if mask[i] {
      CoreTakes(env, st.r, mask, 0, st.r[SP], i, Members(mask, 0) - Members(mask, i));
    } else {
      CoreKeeps(env, st.r, mask, 0, st.r[SP], i);
    }
  }
}
