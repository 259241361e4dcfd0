/**
 The 32-bit mutex word (Runtime/Bionic/agr_bionic_sync.cpp:39-47).

 From the low end: 2 bits of lock state, an 11-bit recursion counter, the shared bit, 2 bits of
 type and the owner's 16-bit thread id. The protocol works on the fields; the arithmetic that the
 source does on the packed word is defined here on the packed word, and each operation's contract
 says what it does to the fields.
 */
module LockWord {
  import opened Prelude

  const NORMAL := 0
  const RECURSIVE := 1
  const ERRORCHECK := 2

  const COUNTER_MAX := 2047

  datatype Fields = Fields(owner: nat, ty: nat, shared: bool, counter: nat, state: nat)

  predicate InRange(f: Fields) {
    f.owner < 0x1_0000 && f.ty < 4 && f.counter <= COUNTER_MAX && f.state < 4
  }

  type Word = f: Fields | InRange(f) witness Fields(0, 0, false, 0, 0)

  function Encode(w: Word): (r: uint32) {
    w.owner * 0x1_0000 + w.ty * 0x4000 + (if w.shared then 0x2000 else 0) + w.counter * 4 + w.state
  }

  function Decode(x: uint32): (r: Word) {
    Fields(x / 0x1_0000, x / 0x4000 % 4, x / 0x2000 % 2 == 1, x / 4 % 2048, x % 4)
  }

  // Division by the constants of the layout, one lemma each.
  lemma Div65536(h: int, l: int)
    requires 0 <= l < 0x1_0000
    ensures (h * 0x1_0000 + l) / 0x1_0000 == h
  {
  }

  lemma Div16384(h: int, l: int)
    requires 0 <= l < 0x4000
    ensures (h * 0x4000 + l) / 0x4000 == h
  {
  }

  lemma Div8192(h: int, l: int)
    requires 0 <= l < 0x2000
    ensures (h * 0x2000 + l) / 0x2000 == h
  {
  }

  lemma Div4(h: int, l: int)
    requires 0 <= l < 4
    ensures (h * 4 + l) / 4 == h && (h * 4 + l) % 4 == l
  {
  }

  lemma Mod2(h: int, l: int)
    requires 0 <= l < 2
    ensures (h * 2 + l) % 2 == l
  {
  }

  lemma Mod2048(h: int, l: int)
    requires 0 <= l < 2048
    ensures (h * 2048 + l) % 2048 == l
  {
  }

  lemma PackedDigits(owner: int, ty: int, shared: int, counter: int, state: int)
    requires 0 <= ty < 4 && 0 <= shared < 2 && 0 <= counter < 2048 && 0 <= state < 4
    ensures var x := owner * 0x1_0000 + ty * 0x4000 + shared * 0x2000 + counter * 4 + state;
      && x / 0x1_0000 == owner && x / 0x4000 % 4 == ty && x / 0x2000 % 2 == shared
      && x / 4 % 2048 == counter && x % 4 == state
  {
    var x := owner * 0x1_0000 + ty * 0x4000 + shared * 0x2000 + counter * 4 + state;
    var low := counter * 4 + state;
    assert x / 0x1_0000 == owner by { Div65536(owner, ty * 0x4000 + shared * 0x2000 + low); }
    assert x / 0x4000 % 4 == ty by {
      Div16384(owner * 4 + ty, shared * 0x2000 + low);
      Div4(owner, ty);
    }
    assert x / 0x2000 % 2 == shared by {
      Div8192((owner * 4 + ty) * 2 + shared, low);
      Mod2(owner * 4 + ty, shared);
    }
    assert x / 4 % 2048 == counter && x % 4 == state by {
      Div4(((owner * 4 + ty) * 2 + shared) * 2048 + counter, state);
      Mod2048((owner * 4 + ty) * 2 + shared, counter);
    }
  }

  /** Packing and unpacking are inverse: masks and shifts read back exactly the fields that were or-ed together. */
  lemma DecodeEncode(w: Word)
    ensures Decode(Encode(w)) == w
  {
    PackedDigits(w.owner, w.ty, if w.shared then 1 else 0, w.counter, w.state);
  }

  lemma EncodeInjective(v: Word, w: Word)
    ensures Encode(v) == Encode(w) <==> v == w
  {
    DecodeEncode(v);
    DecodeEncode(w);
  }

  /** `value + 4`: one more level, unless the counter is full and the carry would flip the shared bit. */
  function CountUp(w: Word): (r: Word)
    ensures w.counter < COUNTER_MAX ==> r == w.(counter := w.counter + 1)
    ensures w.counter == COUNTER_MAX && !w.shared ==> r == w.(counter := 0, shared := true)
  {
    DecodeEncode(
      if w.counter < COUNTER_MAX then w.(counter := w.counter + 1)
      else if !w.shared then w.(counter := 0, shared := true) else w);
    Decode(Wrap32(Encode(w) + 4))
  }

  /** `value - 4`: one level less. */
  function CountDown(w: Word): (r: Word)
    ensures w.counter > 0 ==> r == w.(counter := w.counter - 1)
  {
    DecodeEncode(if w.counter > 0 then w.(counter := w.counter - 1) else w);
    Decode(Wrap32(Encode(w) - 4))
  }

  /** What fetch-and-subtract of 1 leaves behind. */
  function SubtractOne(w: Word): (r: Word)
    ensures w.state > 0 ==> r == w.(state := w.state - 1)
  {
    DecodeEncode(if w.state > 0 then w.(state := w.state - 1) else w);
    Decode(Wrap32(Encode(w) - 1))
  }

  /** `value ^ 3`. */
  function FlipState(w: Word): (r: Word) {
    w.(state := 3 - w.state)
  }

  /** `(owner << 16) | kind | state`: disjoint bit fields. */
  function WithOwner(kind: Word, owner: nat, state: nat): (r: Word)
    requires owner < 0x1_0000 && state < 4
  {
    kind.(owner := owner, counter := 0, state := state)
  }

  /** `(value & type mask) | (value & shared bit)`: the word when unlocked. */
  function KindOf(w: Word): (r: Word) {
    Fields(0, w.ty, w.shared, 0, 0)
  }

  /** agr_bionic_mutex_init: the word for an attribute value, if the attribute is valid. */
  function InitialWord(attr: int): (r: Option<Word>) {
    if attr < 0 || attr >= 32 || attr % 16 > 2 then None
    else Some(Fields(0, attr % 16, attr / 16 == 1, 0, 0))
  }

  /** The words of a new mutex: the six valid attribute values, and no others. */
  lemma InitialWords(attr: int)
    ensures InitialWord(attr).Some? <==> attr in {0, 1, 2, 16, 17, 18}
    ensures InitialWord(attr).Some? ==>
      Encode(InitialWord(attr).value) == attr % 16 * 0x4000 + if attr < 16 then 0 else 0x2000
    ensures InitialWord(0) == Some(KindOf(Decode(0))) && InitialWord(RECURSIVE) == Some(KindOf(Decode(0x4000)))
    ensures InitialWord(ERRORCHECK) == Some(KindOf(Decode(0x8000)))
      && InitialWord(16) == Some(KindOf(Decode(0x2000)))
  {
  }

  /**
   What the source's operations on the packed word do to it: masking with 0xe000, exclusive or with 3 for a locked word,
   and or-ing the owner and a state to an unlocked one.
   */
  lemma PackedUpdates(w: Word, owner: nat, state: nat)
    requires owner < 0x1_0000 && state < 4
    ensures Encode(KindOf(w)) == Encode(w) / 0x2000 % 8 * 0x2000
    ensures Encode(FlipState(w)) - FlipState(w).state == Encode(w) - w.state && FlipState(w).state + w.state == 3
    ensures Encode(WithOwner(w, owner, state)) == owner * 0x1_0000 + Encode(KindOf(w)) + state
  {
    var low := w.counter * 4 + w.state;
    Div8192((w.owner * 4 + w.ty) * 2 + if w.shared then 1 else 0, low);
    assert (w.owner * 8 + (w.ty * 2 + if w.shared then 1 else 0)) % 8 == w.ty * 2 + if w.shared then 1 else 0;
  }
}
