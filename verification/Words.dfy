/** 32-bit words as four bytes, in both orders. */
module Words {
  import opened Arith
  import opened BitModel

  function Le32(bs: seq<Byte>): (v: nat)
    requires |bs| == 4
    ensures v < WORD
  {
    Be32(bs[3], bs[2], bs[1], bs[0])
  }

  lemma WordBytes(v: Word)
    ensures v / 0x100_0000 < 256
    ensures Be32(v / 0x100_0000, v / 0x1_0000 % 256, v / 256 % 256, v % 256) == v
  {
    var a := v / 256;
    var b := a / 256;
    assert v / 0x1_0000 == b && v / 0x100_0000 == b / 256;
  }

  function LeBytes(v: Word): (bs: seq<Byte>)
    ensures |bs| == 4 && Le32(bs) == v
  {
    WordBytes(v);
    [v % 256, v / 256 % 256, v / 0x1_0000 % 256, v / 0x100_0000]
  }

  function BeBytes(v: Word): (bs: seq<Byte>)
    ensures |bs| == 4 && Be32(bs[0], bs[1], bs[2], bs[3]) == v
  {
    WordBytes(v);
    [v / 0x100_0000, v / 0x1_0000 % 256, v / 256 % 256, v % 256]
  }

  lemma BytesOf(b3: Byte, b2: Byte, b1: Byte, b0: Byte)
    ensures var v := Be32(b3, b2, b1, b0);
      v / 0x100_0000 == b3 && v / 0x1_0000 % 256 == b2 && v / 256 % 256 == b1 && v % 256 == b0
  {
    var v := Be32(b3, b2, b1, b0);
    DivUnique(v, 0x1_0000 * b3 + 0x100 * b2 + b1, 256);
    DivUnique(v, 0x100 * b3 + b2, 0x1_0000);
    DivUnique(v, b3, 0x100_0000);
  }

  lemma LeOf(bs: seq<Byte>)
    requires |bs| == 4
    ensures LeBytes(Le32(bs)) == bs && Le32(bs) / 0x100_0000 == bs[3]
  {
    BytesOf(bs[3], bs[2], bs[1], bs[0]);
  }
}
