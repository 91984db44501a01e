/** Splitting an instruction's two bytes into the fields the dispatcher uses. */
module Decoder {
  import opened Bytes

  /** The decoded fields: the primary opcode nibble, the register nibbles X and Y,
      the 4-bit immediate N, the 8-bit immediate NN and the 12-bit address NNN. */
  datatype Instr = Instr(instr: nibble, x: nibble, y: nibble, n: nibble, nn: byte, nnn: u16)

  /** The fields agree with one another as they do after decoding. */
  predicate WellFormed(ins: Instr)
  {
    ins.nn == ins.y * 0x10 + ins.n && ins.nnn == ins.x * 0x100 + ins.nn
  }

  /** Decodes the byte at pc (`b0`) and the one after it (`b1`). */
  function Decode(b0: byte, b1: byte): (ins: Instr)
    ensures WellFormed(ins)
    ensures ins.nnn < 0x1000
    ensures b0 == ins.instr * 0x10 + ins.x && b1 == ins.nn
  {
    var x := b0 % 0x10;
    Instr(b0 / 0x10, x, b1 / 0x10, b1 % 0x10, b1, x * 0x100 + b1)
  }

  /** The two bytes an instruction is fetched from. */
  function Encode(ins: Instr): (bytes: (byte, byte))
  {
    (ins.instr * 0x10 + ins.x, ins.nn)
  }

  lemma EncodeDecode(b0: byte, b1: byte)
    ensures Encode(Decode(b0, b1)) == (b0, b1)
  {
  }

  lemma DecodeEncode(ins: Instr)
    requires WellFormed(ins)
    ensures Decode(Encode(ins).0, Encode(ins).1) == ins
  {
    SplitNibbles(ins.instr, ins.x);
    SplitNibbles(ins.y, ins.n);
  }

  /** A byte built from a high and a low nibble splits back into them. */
  lemma SplitNibbles(hi: nibble, lo: nibble)
    ensures (hi * 0x10 + lo) / 0x10 == hi && (hi * 0x10 + lo) % 0x10 == lo
  {
  }

  /** Two byte pairs that decode alike are the same pair. */
  lemma DecodeInjective(a0: byte, a1: byte, b0: byte, b1: byte)
    requires Decode(a0, a1) == Decode(b0, b1)
    ensures a0 == b0 && a1 == b1
  {
    EncodeDecode(a0, a1);
    EncodeDecode(b0, b1);
  }
}
