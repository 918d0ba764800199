/** Words, bytes and the adaptive bit probability shared by the LZMA and BCJ2 range coders. */
module BitModel {

  type Byte = n: nat | n < 0x100
  type Word = n: nat | n < 0x1_0000_0000

  const WORD := 0x1_0000_0000
  const TOP := 0x100_0000
  const PROB_TOTAL := 2048

  /** A probability reachable from 1024 by the two update rules. */
  type Prob = p: nat | 31 <= p <= 2017 witness 1024

  const PROB_INIT: Prob := 1024

  /** The probability after coding a 0. */
  function Raise(p: Prob): Prob {
    p + (PROB_TOTAL - p) / 32
  }

  /** The probability after coding a 1. */
  function Lower(p: Prob): Prob {
    p - p / 32
  }

  function Adapt(p: Prob, bit: nat): Prob {
    if bit == 0 then Raise(p) else Lower(p)
  }

  /** Four bytes, most significant first. */
  function Be32(b0: nat, b1: nat, b2: nat, b3: nat): (w: nat)
    ensures b0 < 256 && b1 < 256 && b2 < 256 && b3 < 256 ==> w < WORD
  {
    0x100_0000 * b0 + 0x1_0000 * b1 + 0x100 * b2 + b3
  }
}
