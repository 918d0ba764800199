/** The words of the work array: a symbol in the ten low bits, and a frequency, parent or level above it. */
module HuffWord {
  import opened BitModel

  const MAX_SYMBOLS := 1024
  const MAX_FREQ := 0x40_0000

  function Pack(sym: nat, hi: nat): Word
    requires sym < 1024 && hi < 0x40_0000
  {
    1024 * hi + sym
  }

  function Sym(x: Word): (s: nat)
    ensures s < 1024
  {
    x % 1024
  }

  function Hi(x: Word): (h: nat)
    ensures h < 0x40_0000
  {
    x / 1024
  }

  /** The word with a symbol of zero. */
  function FreqBits(x: Word): Word { x - x % 1024 }

  lemma Packed(sym: nat, hi: nat)
    requires sym < 1024 && hi < 0x40_0000
    ensures Sym(Pack(sym, hi)) == sym && Hi(Pack(sym, hi)) == hi && FreqBits(Pack(sym, hi)) == Pack(0, hi)
  {}

  lemma Unpacked(x: Word)
    ensures Pack(Sym(x), Hi(x)) == x && FreqBits(x) == Pack(0, Hi(x))
  {}

  /** Comparing a whole word with a word whose symbol is zero compares the upper parts. */
  lemma Smaller(x: Word, f: Word)
    requires Sym(f) == 0
    ensures x < f <==> Hi(x) < Hi(f)
  {}

  /** Whole words are in the order of their upper parts. */
  lemma WordOrder(x: Word, y: Word)
    requires x <= y
    ensures Hi(x) <= Hi(y)
  {}

  /** A sum of two upper parts is put behind a symbol. */
  lemma JoinedWord(low: Word, x: Word, f: Word)
    requires Sym(f) == 0 && Hi(x) + Hi(f) < 0x40_0000
    ensures FreqBits(x) + f == f + FreqBits(x) == FreqBits(f + x) == Pack(0, Hi(x) + Hi(f))
    ensures f + x < WORD && (Sym(x) == 0 ==> x + f == Pack(0, Hi(x) + Hi(f)))
    ensures Sym(low) + Pack(0, Hi(x) + Hi(f)) == Pack(Sym(low), Hi(x) + Hi(f))
  {
    hide Sym, Hi, FreqBits;
    Unpacked(x);
    Unpacked(f);
    Packed(Sym(x), Hi(x) + Hi(f));
  }
}
