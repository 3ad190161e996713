/** The free-block bitmap: 32-bit words, a set bit marks a free block. */
module Bitmap {

  /** uint32_t by its bits, lowest first; the operators of C work bit by bit. */
  type Word = w: seq<bool> | |w| == 32 witness seq(32, _ => false)

  function And(x: Word, y: Word): Word {
    seq(32, i requires 0 <= i < 32 => x[i] && y[i])
  }

  function Or(x: Word, y: Word): Word {
    seq(32, i requires 0 <= i < 32 => x[i] || y[i])
  }

  function Xor(x: Word, y: Word): Word {
    seq(32, i requires 0 <= i < 32 => x[i] != y[i])
  }

  /** 1 << k */
  function Mask(k: nat): Word {
    seq(32, i => i == k)
  }

  predicate NonZero(w: Word) {
    exists i :: 0 <= i < 32 && w[i]
  }

  /** bitmap[b/32] & (1 << (b%32)) */
  predicate Bit(words: seq<Word>, b: nat) {
    b / 32 < |words| && NonZero(And(words[b / 32], Mask(b % 32)))
  }

  /** bitmap[b/32] |= 1 << (b%32) */
  function SetBit(words: seq<Word>, b: nat): seq<Word>
    requires b / 32 < |words|
  {
    words[b / 32 := Or(words[b / 32], Mask(b % 32))]
  }

  /** bitmap[b/32] ^= 1 << (b%32) */
  function FlipBit(words: seq<Word>, b: nat): seq<Word>
    requires b / 32 < |words|
  {
    words[b / 32 := Xor(words[b / 32], Mask(b % 32))]
  }

  /** Masking with 1 << k tests one bit. */
  lemma {:induction false} Tests(w: Word, k: nat)
    requires k < 32
    ensures NonZero(And(w, Mask(k))) == w[k]
  {
    assert And(w, Mask(k))[k] == w[k];
  }

  lemma {:induction false} SetIs(words: seq<Word>, b: nat, x: nat)
    requires b / 32 < |words|
    ensures Bit(SetBit(words, b), x) == (x == b || Bit(words, x))
  {
    if x / 32 < |words| {
      Tests(words[x / 32], x % 32);
      Tests(SetBit(words, b)[x / 32], x % 32);
    }
  }

  lemma {:induction false} FlipIs(words: seq<Word>, b: nat, x: nat)
    requires b / 32 < |words|
    ensures Bit(FlipBit(words, b), x) == if x == b then !Bit(words, b) else Bit(words, x)
  {
    if x / 32 < |words| {
      Tests(words[x / 32], x % 32);
      Tests(FlipBit(words, b)[x / 32], x % 32);
    }
  }

  /** The bits of the first n blocks. */
  function Bits(words: seq<Word>, n: nat): seq<bool> {
    seq(n, b requires 0 <= b < n => Bit(words, b))
  }

  lemma {:induction false} BitsAfterSet(words: seq<Word>, n: nat, b: nat)
    requires b < n && b / 32 < |words|
    ensures Bits(SetBit(words, b), n) == Bits(words, n)[b := true]
  {
    forall x | 0 <= x < n ensures Bits(SetBit(words, b), n)[x] == Bits(words, n)[b := true][x] {
      SetIs(words, b, x);
    }
  }

  lemma {:induction false} BitsAfterFlip(words: seq<Word>, n: nat, b: nat)
    requires b < n && b / 32 < |words| && Bit(words, b)
    ensures Bits(FlipBit(words, b), n) == Bits(words, n)[b := false]
  {
    forall x | 0 <= x < n ensures Bits(FlipBit(words, b), n)[x] == Bits(words, n)[b := false][x] {
      FlipIs(words, b, x);
    }
  }
}
