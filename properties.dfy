/** What the interpreter guarantees, proved about the functions of module Semantics:
    loading, the shape of one cycle, the call stack, the arithmetic flags, the
    memory transfers, drawing, keys and timers. */
module Properties {
  import opened Bytes
  import opened Decoder
  import opened Semantics
  import Engine

  // ---------------------------------------------------------------------------
  // Loading

  /** After `NewChip8` and the two loading loops: pc at 0x200, an empty stack, the
      font at 0x50, the program at 0x200, and every other byte and register zero. */
  lemma BootLayout(program: seq<byte>)
    requires Fits(|program|)
    ensures var c := Boot(program);
      && c.pc == ProgramStart && c.stackFrame == -1 && c.indexRegister == 0
      && c.delayTimer == 0 && c.soundTimer == 0
      && (forall j :: 0 <= j < RegisterCount ==> c.registers[j] == 0)
      && (forall j :: 0 <= j < StackDepth ==> c.stack[j] == 0)
      && (forall i :: 0 <= i < |FontSet| ==> c.memory[FontStart + i] == FontSet[i])
      && (forall i :: 0 <= i < |program| ==> c.memory[ProgramStart + i] == program[i])
      && (forall a :: (0 <= a < MemorySize && !(FontStart <= a < FontStart + |FontSet|)
                       && !(ProgramStart <= a < ProgramStart + |program|)) ==> c.memory[a] == 0)
  {
    var m := Initial().memory;
    var c := Boot(program);
    forall a | 0 <= a < MemorySize
      ensures c.memory[a] == if FontStart <= a < FontStart + |FontSet| then FontSet[a - FontStart]
                             else if ProgramStart <= a < ProgramStart + |program| then program[a - ProgramStart]
                             else 0
    {
      LoadedAt(m, program, a);
    }
  }

  /** The size check before loading lets through a program that does not fit:
      one byte more than the space above 0x200 is not warned about. */
  lemma OversizeCheckMissesOverflow()
    ensures var size := MemorySize - ProgramStart + 1;
      !OversizeWarned(size) && !Fits(size)
  {
  }

  // ---------------------------------------------------------------------------
  // The shape of a cycle

  /** Sub-opcodes no case matches. */
  predicate Unmatched(ins: Instr)
  {
    || (ins.instr == 0x0 && (ins.y != 0xE || (ins.n != 0x0 && ins.n != 0xE)))
    || (ins.instr == 0x8 && 0x7 < ins.n && ins.n != 0xE)
    || (ins.instr == 0xE && ins.nn != 0x9E && ins.nn != 0xA1)
    || (ins.instr == 0xF && ins.nn !in {0x07, 0x0A, 0x15, 0x18, 0x1E, 0x29, 0x33, 0x55, 0x65})
  }

  /** An unmatched sub-opcode changes nothing but advance pc by 2. */
  lemma UnmatchedOnlyAdvancesPc(c: Cpu, plane: seq<bool>, io: Inputs)
    requires c.Valid() && |plane| == Engine.PlaneSize && c.pc + 1 < MemorySize
    requires Unmatched(Fetched(c))
    ensures Exec(c, plane, io) == Next(c.(pc := c.pc + 2), plane)
  {
  }

  /** Instructions that neither jump nor skip leave pc two bytes further on. */
  lemma StraightLineAdvancesPc(c: Cpu, plane: seq<bool>, io: Inputs)
    requires c.Valid() && |plane| == Engine.PlaneSize && c.pc + 1 < MemorySize
    requires Fetched(c).instr in {0x6, 0x7, 0x8, 0xA, 0xC, 0xD, 0xF}
    ensures Exec(c, plane, io).Next? ==> Exec(c, plane, io).cpu.pc == c.pc + 2
  {
  }

  /** 5XYN skips only when N is 0, while 9XYN skips on VX != VY whatever N is. */
  lemma RegisterSkips(c: Cpu, plane: seq<bool>, io: Inputs)
    requires c.Valid() && |plane| == Engine.PlaneSize && c.pc + 1 < MemorySize
    requires Fetched(c).instr == 0x5 || Fetched(c).instr == 0x9
    ensures var ins := Fetched(c);
      var equal := c.registers[ins.x] == c.registers[ins.y];
      var skip := if ins.instr == 0x5 then ins.n == 0 && equal else !equal;
      Exec(c, plane, io) == Next(c.(pc := c.pc + (if skip then 4 else 2)), plane)
  {
  }

  /** A cycle advances pc by 2 and hands DXYN to `Draw` and the FX family to `Misc`. */
  lemma ExecByFamily(c: Cpu, plane: seq<bool>, io: Inputs)
    requires c.Valid() && |plane| == Engine.PlaneSize && c.pc + 1 < MemorySize
    ensures var c0, ins := c.(pc := c.pc + 2), Fetched(c);
      && (ins.instr == 0xD ==> Exec(c, plane, io) == Draw(c0, plane, ins))
      && (ins.instr == 0xF ==> Exec(c, plane, io) == Misc(c0, plane, ins, io))
  {
  }

  // ---------------------------------------------------------------------------
  // The call stack

  /** 2NNN pushes the advanced pc one slot above the top and jumps to NNN; with all
      32 slots in use it faults. */
  lemma CallPushes(c: Cpu, plane: seq<bool>, io: Inputs)
    requires c.Valid() && |plane| == Engine.PlaneSize && c.pc + 1 < MemorySize
    requires Fetched(c).instr == 0x2
    ensures c.stackFrame < StackDepth - 1 ==>
      Exec(c, plane, io) == Next(c.(stackFrame := c.stackFrame + 1,
                                    stack := c.stack[c.stackFrame + 1 := c.pc + 2],
                                    pc := Fetched(c).nnn), plane)
    ensures c.stackFrame == StackDepth - 1 ==> Exec(c, plane, io) == Crash(StackOverflow)
  {
  }

  /** 00EE (any X) pops the top slot into pc; on an empty stack it faults. */
  lemma ReturnPops(c: Cpu, plane: seq<bool>, io: Inputs)
    requires c.Valid() && |plane| == Engine.PlaneSize && c.pc + 1 < MemorySize
    requires Fetched(c).instr == 0x0 && Fetched(c).nn == 0xEE
    ensures c.stackFrame >= 0 ==>
      Exec(c, plane, io) == Next(c.(pc := c.stack[c.stackFrame], stackFrame := c.stackFrame - 1), plane)
    ensures c.stackFrame == -1 ==> Exec(c, plane, io) == Crash(StackUnderflow)
  {
  }

  /** A call, then any stretch of code that leaves the frame it pushed in place, then
      a return: execution resumes right after the call, with the caller's frame on top. */
  lemma CallThenReturn(c: Cpu, plane: seq<bool>, io: Inputs, d: Cpu, plane': seq<bool>, io': Inputs)
    requires c.Valid() && |plane| == Engine.PlaneSize && c.pc + 1 < MemorySize
    requires Fetched(c).instr == 0x2 && c.stackFrame < StackDepth - 1
    requires Exec(c, plane, io).Next?
    requires var c1 := Exec(c, plane, io).cpu;
      d.Valid() && d.stackFrame == c1.stackFrame && d.stack[d.stackFrame] == c1.stack[c1.stackFrame]
    requires |plane'| == Engine.PlaneSize && d.pc + 1 < MemorySize
    requires Fetched(d).instr == 0x0 && Fetched(d).nn == 0xEE
    ensures Exec(d, plane', io') == Next(d.(pc := c.pc + 2, stackFrame := c.stackFrame), plane')
  {
    CallPushes(c, plane, io);
    ReturnPops(d, plane', io');
  }

  /** A call to an address holding 00EE comes straight back: two cycles later pc is
      the call's address + 2 and the stack pointer is where it was. */
  lemma CallReturnRoundTrip(c: Cpu, plane: seq<bool>, io1: Inputs, io2: Inputs)
    requires c.Valid() && |plane| == Engine.PlaneSize && c.pc + 1 < MemorySize
    requires Fetched(c).instr == 0x2 && c.stackFrame < StackDepth - 1
    requires Fetched(c).nnn + 1 < MemorySize
    requires c.memory[Fetched(c).nnn] / 0x10 == 0x0 && c.memory[Fetched(c).nnn + 1] == 0xEE
    ensures Run(c, plane, [io1, io2]) ==
      Next(c.(pc := c.pc + 2, stack := c.stack[c.stackFrame + 1 := c.pc + 2]), plane)
  {
    CallPushes(c, plane, io1);
    var c1 := Exec(c, plane, io1).cpu;
    assert c1.memory == c.memory && c1.pc == Fetched(c).nnn;
    assert Fetched(c1).instr == 0x0 && Fetched(c1).nn == 0xEE;
    ReturnPops(c1, plane, io2);
    var o2 := Exec(c1, plane, io2);
    assert Run(c, plane, [io1, io2]) == Run(c1, plane, [io2]) by {
      assert [io1, io2][1..] == [io2];
    }
    assert Run(c1, plane, [io2]) == Run(o2.cpu, o2.plane, []) by {
      assert [io2][1..] == [];
    }
  }

  // ---------------------------------------------------------------------------
  // Arithmetic and flags (the 0x8 family)

  /** The registers after the instruction at pc. */
  function RegistersAfter(c: Cpu, plane: seq<bool>, io: Inputs): seq<byte>
    requires c.Valid() && |plane| == Engine.PlaneSize && c.pc + 1 < MemorySize
    requires Fetched(c).instr == 0x8
  {
    Exec(c, plane, io).cpu.registers
  }

  /** 8XY4: VF is the carry out of VX + VY and VX the sum modulo 256. */
  lemma AddCarry(c: Cpu, plane: seq<bool>, io: Inputs)
    requires c.Valid() && |plane| == Engine.PlaneSize && c.pc + 1 < MemorySize
    requires Fetched(c).instr == 0x8 && Fetched(c).n == 0x4 && Fetched(c).x != Flag
    ensures var ins := Fetched(c);
      var vx, vy, r := c.registers[ins.x] as int, c.registers[ins.y] as int, RegistersAfter(c, plane, io);
      && (r[Flag] == 1 <==> vx + vy > 0xFF) && (r[Flag] == 0 <==> vx + vy <= 0xFF)
      && r[ins.x] == (vx + vy) % 0x100
      && forall j :: 0 <= j < RegisterCount && j != ins.x && j != Flag ==> r[j] == c.registers[j]
  {
  }

  /** 8XY5: VF is 1 exactly when VX > VY, and VX becomes VX - VY modulo 256. */
  lemma SubtractBorrow(c: Cpu, plane: seq<bool>, io: Inputs)
    requires c.Valid() && |plane| == Engine.PlaneSize && c.pc + 1 < MemorySize
    requires Fetched(c).instr == 0x8 && Fetched(c).n == 0x5
    requires Fetched(c).x != Flag && Fetched(c).y != Flag
    ensures var ins := Fetched(c);
      var vx, vy, r := c.registers[ins.x] as int, c.registers[ins.y] as int, RegistersAfter(c, plane, io);
      && (r[Flag] == 1 <==> vx > vy) && (r[Flag] == 0 <==> vx <= vy)
      && r[ins.x] == (vx - vy) % 0x100
  {
  }

  /** 8XY7: VF is 1 exactly when VY > VX, yet VX becomes VX - VY (not VY - VX). */
  lemma SubtractReversedKeepsOperandOrder(c: Cpu, plane: seq<bool>, io: Inputs)
    requires c.Valid() && |plane| == Engine.PlaneSize && c.pc + 1 < MemorySize
    requires Fetched(c).instr == 0x8 && Fetched(c).n == 0x7
    requires Fetched(c).x != Flag && Fetched(c).y != Flag
    ensures var ins := Fetched(c);
      var vx, vy, r := c.registers[ins.x] as int, c.registers[ins.y] as int, RegistersAfter(c, plane, io);
      && (r[Flag] == 1 <==> vy > vx) && (r[Flag] == 0 <==> vy <= vx)
      && r[ins.x] == (vx - vy) % 0x100
  {
  }

  /** 8XF5: the flag is written first, so the subtrahend is the new VF, not the old one. */
  lemma SubtractReadsNewFlag(c: Cpu, plane: seq<bool>, io: Inputs)
    requires c.Valid() && |plane| == Engine.PlaneSize && c.pc + 1 < MemorySize
    requires Fetched(c).instr == 0x8 && Fetched(c).n == 0x5
    requires Fetched(c).x != Flag && Fetched(c).y == Flag
    ensures var vx, r := c.registers[Fetched(c).x] as int, RegistersAfter(c, plane, io);
      var borrow := if vx > c.registers[Flag] then 1 else 0;
      r[Flag] == borrow && r[Fetched(c).x] == (vx - borrow) % 0x100
  {
  }

  /** 8XF7: the flag compares the old VF with VX, and VX then loses the new VF. */
  lemma SubtractReversedReadsNewFlag(c: Cpu, plane: seq<bool>, io: Inputs)
    requires c.Valid() && |plane| == Engine.PlaneSize && c.pc + 1 < MemorySize
    requires Fetched(c).instr == 0x8 && Fetched(c).n == 0x7
    requires Fetched(c).x != Flag && Fetched(c).y == Flag
    ensures var vx, r := c.registers[Fetched(c).x] as int, RegistersAfter(c, plane, io);
      var f := if c.registers[Flag] as int > vx then 1 else 0;
      r[Flag] == f && r[Fetched(c).x] == (vx - f) % 0x100
  {
  }

  /** With X = F the result is written last and overwrites the flag; 8FY5, 8FY7 and
      8FYE compute that result from the flag just written. */
  lemma ResultOverwritesFlag(c: Cpu, plane: seq<bool>, io: Inputs)
    requires c.Valid() && |plane| == Engine.PlaneSize && c.pc + 1 < MemorySize
    requires Fetched(c).instr == 0x8 && Fetched(c).x == Flag
    ensures var vf, vy, r := c.registers[Flag] as int, c.registers[Fetched(c).y] as int, RegistersAfter(c, plane, io);
      && (Fetched(c).n == 0x4 ==> r[Flag] == (vf + vy) % 0x100)
      && (Fetched(c).n == 0x6 ==> r[Flag] == 0)
      && (Fetched(c).n == 0xE ==> r[Flag] == 2 * (vy / 0x80))
      && (Fetched(c).y != Flag ==>
            && (Fetched(c).n == 0x5 ==> r[Flag] == ((if vf > vy then 1 else 0) - vy) % 0x100)
            && (Fetched(c).n == 0x7 ==> r[Flag] == ((if vy > vf then 1 else 0) - vy) % 0x100))
  {
  }

  /** 8XY6 and 8XYE: VF is the bit shifted out; 8XYE shifts a copy of VY, not VX. */
  lemma Shifts(c: Cpu, plane: seq<bool>, io: Inputs)
    requires c.Valid() && |plane| == Engine.PlaneSize && c.pc + 1 < MemorySize
    requires Fetched(c).instr == 0x8 && (Fetched(c).n == 0x6 || Fetched(c).n == 0xE)
    requires Fetched(c).x != Flag
    ensures var ins := Fetched(c);
      var vx, vy, r := c.registers[ins.x] as int, c.registers[ins.y] as int, RegistersAfter(c, plane, io);
      && (ins.n == 0x6 ==> r[Flag] == vx % 2 && r[ins.x] == vx / 2)
      && (ins.n == 0xE ==> r[Flag] == vy / 0x80 && r[ins.x] == vy * 2 % 0x100)
  {
  }

  /** CXNN: the random byte is masked by NN, so no bit outside NN is set. */
  lemma RandomIsMasked(c: Cpu, plane: seq<bool>, io: Inputs)
    requires c.Valid() && |plane| == Engine.PlaneSize && c.pc + 1 < MemorySize
    requires Fetched(c).instr == 0xC
    ensures var ins := Fetched(c);
      var vx := Exec(c, plane, io).cpu.registers[ins.x];
      (vx as bv8) & !(ins.nn as bv8) == 0
  {
    var ins := Fetched(c);
    AndKeepsMaskBits(io.random, ins.nn);
  }

  // ---------------------------------------------------------------------------
  // The 0xF family

  /** The three decimal digits of a byte, most significant first, give back the byte. */
  lemma DecimalDigits(v: byte)
    ensures v / 100 % 10 == v / 100
    ensures 100 * (v / 100) + 10 * (v / 10 % 10) + v % 10 == v
  {
    assert v == 10 * (v / 10) + v % 10;
    assert v / 10 == 10 * (v / 100) + v / 10 % 10;
  }

  /** FX33 on memory: digits of `v` at `i`, `i + 1`, `i + 2`, each below 10, and the
      rest of memory kept. */
  lemma BcdWrites(memory: seq<byte>, i: nat, v: byte)
    requires |memory| == MemorySize && i + 2 < MemorySize
    ensures var m := memory[i := v / 100 % 10][i + 1 := v / 10 % 10][i + 2 := v % 10];
      && m[i] < 10 && m[i + 1] < 10 && m[i + 2] < 10
      && 100 * m[i] + 10 * m[i + 1] + m[i + 2] == v
      && forall a :: 0 <= a < MemorySize && !(i <= a <= i + 2) ==> m[a] == memory[a]
  {
    DecimalDigits(v);
  }

  /** FX33, on the machine `c` after the fetch has advanced pc: it faults iff I + 2 is
      past memory; otherwise the three bytes from I on are decimal digits spelling VX,
      and nothing else changes. */
  lemma BcdDigits(c: Cpu, plane: seq<bool>, ins: Instr, io: Inputs)
    requires c.Valid() && |plane| == Engine.PlaneSize && ins.nn == 0x33
    ensures c.indexRegister + 2 >= MemorySize <==> Misc(c, plane, ins, io) == Crash(MemoryOutOfRange)
    ensures Misc(c, plane, ins, io).Next? ==>
      var i, vx, c' := c.indexRegister, c.registers[ins.x], Misc(c, plane, ins, io).cpu;
      && c' == c.(memory := c'.memory)
      && c'.memory[i] < 10 && c'.memory[i + 1] < 10 && c'.memory[i + 2] < 10
      && 100 * c'.memory[i] + 10 * c'.memory[i + 1] + c'.memory[i + 2] == vx
      && forall a :: 0 <= a < MemorySize && !(i <= a <= i + 2) ==> c'.memory[a] == c.memory[a]
  {
    if c.indexRegister + 2 < MemorySize {
      BcdWrites(c.memory, c.indexRegister, c.registers[ins.x]);
    }
  }

  lemma StoreRegistersAt(memory: seq<byte>, registers: seq<byte>, at: nat, x: nibble, a: int)
    requires |memory| == MemorySize && |registers| == RegisterCount && at + x < MemorySize
    requires 0 <= a < MemorySize
    ensures StoreRegisters(memory, registers, at, x)[a] ==
      if at <= a <= at + x then registers[a - at] else memory[a]
  {
    var front := memory[..at] + registers[..x + 1];
    assert StoreRegisters(memory, registers, at, x) == front + memory[at + x + 1..];
  }

  lemma LoadRegistersAt(memory: seq<byte>, registers: seq<byte>, at: nat, x: nibble, j: int)
    requires |memory| == MemorySize && |registers| == RegisterCount && at + x < MemorySize
    requires 0 <= j < RegisterCount
    ensures LoadRegisters(memory, registers, at, x)[j] ==
      if j <= x then memory[at + j] else registers[j]
  {
  }

  /** FX55, on the machine after the fetch: memory[I + i] = V[i] for i <= X, the rest
      of memory kept, I advanced by X + 1; it faults iff I + X is past memory. */
  lemma StoreRegistersStep(c: Cpu, plane: seq<bool>, ins: Instr, io: Inputs)
    requires c.Valid() && |plane| == Engine.PlaneSize && ins.nn == 0x55
    ensures var i, x := c.indexRegister, ins.x;
      i + x >= MemorySize <==> Misc(c, plane, ins, io) == Crash(MemoryOutOfRange)
    ensures Misc(c, plane, ins, io).Next? ==>
      var i, x, c' := c.indexRegister, ins.x, Misc(c, plane, ins, io).cpu;
      && c' == c.(memory := c'.memory, indexRegister := i + x + 1)
      && (forall k :: 0 <= k <= x ==> c'.memory[i + k] == c.registers[k])
      && (forall a :: 0 <= a < MemorySize && !(i <= a <= i + x) ==> c'.memory[a] == c.memory[a])
  {
    var i, x := c.indexRegister, ins.x;
    if i + x < MemorySize {
      forall a | 0 <= a < MemorySize
        ensures StoreRegisters(c.memory, c.registers, i, x)[a] ==
          if i <= a <= i + x then c.registers[a - i] else c.memory[a]
      {
        StoreRegistersAt(c.memory, c.registers, i, x, a);
      }
    }
  }

  /** FX65, on the machine after the fetch: V[i] = memory[I + i] for i <= X, registers
      above X kept, I advanced by X + 1; it faults iff I + X is past memory. */
  lemma LoadRegistersStep(c: Cpu, plane: seq<bool>, ins: Instr, io: Inputs)
    requires c.Valid() && |plane| == Engine.PlaneSize && ins.nn == 0x65
    ensures var i, x := c.indexRegister, ins.x;
      i + x >= MemorySize <==> Misc(c, plane, ins, io) == Crash(MemoryOutOfRange)
    ensures Misc(c, plane, ins, io).Next? ==>
      var i, x, c' := c.indexRegister, ins.x, Misc(c, plane, ins, io).cpu;
      && c' == c.(registers := c'.registers, indexRegister := i + x + 1)
      && (forall k :: 0 <= k <= x ==> c'.registers[k] == c.memory[i + k])
      && (forall k :: x < k < RegisterCount ==> c'.registers[k] == c.registers[k])
  {
    var i, x := c.indexRegister, ins.x;
    if i + x < MemorySize {
      forall j | 0 <= j < RegisterCount
        ensures LoadRegisters(c.memory, c.registers, i, x)[j] == if j <= x then c.memory[i + j] else c.registers[j]
      {
        LoadRegistersAt(c.memory, c.registers, i, x, j);
      }
    }
  }

  /** Storing V0..VX and loading them back from the same address restores them. */
  lemma StoreThenLoad(memory: seq<byte>, registers: seq<byte>, other: seq<byte>, at: nat, x: nibble)
    requires |memory| == MemorySize && |registers| == RegisterCount && |other| == RegisterCount
    requires at + x < MemorySize
    ensures LoadRegisters(StoreRegisters(memory, registers, at, x), other, at, x)
         == registers[..x + 1] + other[x + 1..]
  {
    var m := StoreRegisters(memory, registers, at, x);
    forall k | 0 <= k <= x
      ensures m[at + k] == registers[k]
    {
      StoreRegistersAt(memory, registers, at, x, at + k);
    }
  }

  /** FX29 points I at FONT_SET[VX & 0xF], a byte of the font, which is never the
      address 0x50 + 5 * digit where that digit's glyph starts. */
  lemma FontIndexQuirk(c: Cpu, plane: seq<bool>, io: Inputs)
    requires c.Valid() && |plane| == Engine.PlaneSize && c.pc + 1 < MemorySize
    requires Fetched(c).instr == 0xF && Fetched(c).nn == 0x29
    ensures var d, c' := c.registers[Fetched(c).x] % 0x10, Exec(c, plane, io).cpu;
      && c' == c.(pc := c.pc + 2, indexRegister := FontSet[d])
      && c'.indexRegister != FontStart + 5 * d
  {
    FontBytesAreNotAddresses(c.registers[Fetched(c).x] % 0x10);
  }

  lemma FontBytesAreNotAddresses(d: nat)
    requires d < 0x10
    ensures FontSet[d] != FontStart + 5 * d
  {
  }

  /** FX0A: VX receives the key value of the key that arrived, always a nibble. */
  lemma WaitStoresKey(c: Cpu, plane: seq<bool>, io: Inputs)
    requires c.Valid() && |plane| == Engine.PlaneSize && c.pc + 1 < MemorySize
    requires Fetched(c).instr == 0xF && Fetched(c).nn == 0x0A
    ensures var x, c' := Fetched(c).x, Exec(c, plane, io).cpu;
      && c' == c.(pc := c.pc + 2, registers := c.registers[x := Engine.KeyToByte(io.waited)])
      && c'.registers[x] <= 0xF
  {
    assert Exec(c, plane, io) == Misc(c.(pc := c.pc + 2), plane, Fetched(c), io);
  }

  // ---------------------------------------------------------------------------
  // Keys (the 0xE family)

  /** EX9E skips when the key named by VX is down, EXA1 when it is up. */
  lemma KeySkips(c: Cpu, plane: seq<bool>, io: Inputs)
    requires c.Valid() && |plane| == Engine.PlaneSize && c.pc + 1 < MemorySize
    requires Fetched(c).instr == 0xE && (Fetched(c).nn == 0x9E || Fetched(c).nn == 0xA1)
    ensures var ins := Fetched(c);
      var down := io.pressed(Engine.ByteToKey(c.registers[ins.x]));
      var skip := if ins.nn == 0x9E then down else !down;
      Exec(c, plane, io) == Next(c.(pc := c.pc + (if skip then 4 else 2)), plane)
  {
  }

  // ---------------------------------------------------------------------------
  // Drawing (DXYN)

  /** Whether the sprite of `n` rows at address `index`, anchored at (xc, yc), has
      a set bit over pixel (col, row): bit col - xc, most significant first, of the
      byte at index + row - yc. */
  ghost predicate SpriteBit(memory: seq<byte>, index: int, n: int, xc: int, yc: int, col: int, row: int)
  {
    && xc <= col < xc + 8 && yc <= row < yc + n
    && 0 <= index + row - yc < |memory|
    && BitSet(memory[index + row - yc], col - xc)
  }

  /** Within the plane, `Hit` on the rows that are fetched is `SpriteBit` on memory. */
  lemma HitIsSpriteBit(memory: seq<byte>, index: u16, n: nibble, xc: int, yc: int, col: int, row: int)
    requires |memory| == MemorySize && 0 <= yc < Engine.Height && !DrawFaults(index, n, yc)
    requires Engine.InPlane(col, row)
    ensures Hit(SpriteRows(memory, index, n, yc), xc, yc, col, row) <==> SpriteBit(memory, index, n, xc, yc, col, row)
  {
    var rows := SpriteRows(memory, index, n, yc);
    if yc <= row < yc + |rows| {
      assert rows[row - yc] == memory[index + row - yc];
    }
  }

  /** DXYN, on the machine after the fetch: unless the sprite reads past memory,
      a pixel changes exactly when the sprite read from I has a set bit over it (the
      sprite anchored at (VX mod 64, VY mod 32), clipped at the edges); VF ends 1
      exactly when such a pixel was lit, else 0; nothing else changes. */
  lemma DrawFlipsSpriteBits(c: Cpu, plane: seq<bool>, ins: Instr)
    requires c.Valid() && |plane| == Engine.PlaneSize
    ensures var yc := c.registers[ins.y] % Engine.Height;
      DrawFaults(c.indexRegister, ins.n, yc) <==> Draw(c, plane, ins) == Crash(MemoryOutOfRange)
    ensures var xc, yc := c.registers[ins.x] % Engine.Width, c.registers[ins.y] % Engine.Height;
      var o := Draw(c, plane, ins);
      o.Next? ==>
      && o.cpu == c.(registers := c.registers[Flag := o.cpu.registers[Flag]])
      && (o.cpu.registers[Flag] == 0 || o.cpu.registers[Flag] == 1)
      && (forall col, row | Engine.InPlane(col, row) ::
            o.plane[Engine.Index(col, row)] != plane[Engine.Index(col, row)]
            <==> SpriteBit(c.memory, c.indexRegister, ins.n, xc, yc, col, row))
      && (o.cpu.registers[Flag] == 1 <==>
            exists col, row | Engine.InPlane(col, row) ::
              SpriteBit(c.memory, c.indexRegister, ins.n, xc, yc, col, row) && plane[Engine.Index(col, row)])
  {
    var xc, yc := c.registers[ins.x] % Engine.Width, c.registers[ins.y] % Engine.Height;
    if !DrawFaults(c.indexRegister, ins.n, yc) {
      var rows := SpriteRows(c.memory, c.indexRegister, ins.n, yc);
      var o := Draw(c, plane, ins);
      assert o.plane == Drawn(plane, rows, xc, yc);
      forall col, row | Engine.InPlane(col, row)
        ensures o.plane[Engine.Index(col, row)] != plane[Engine.Index(col, row)]
                <==> SpriteBit(c.memory, c.indexRegister, ins.n, xc, yc, col, row)
      {
        Engine.IndexInPlane(col, row);
        HitIsSpriteBit(c.memory, c.indexRegister, ins.n, xc, yc, col, row);
      }
      if Collides(plane, rows, xc, yc) {
        var col, row :| Engine.InPlane(col, row) && Hit(rows, xc, yc, col, row) && plane[Engine.Index(col, row)];
        HitIsSpriteBit(c.memory, c.indexRegister, ins.n, xc, yc, col, row);
      } else {
        forall col, row | Engine.InPlane(col, row) && SpriteBit(c.memory, c.indexRegister, ins.n, xc, yc, col, row)
          ensures !plane[Engine.Index(col, row)]
        {
          HitIsSpriteBit(c.memory, c.indexRegister, ins.n, xc, yc, col, row);
        }
      }
    }
  }

  /** A pixel outside the sprite's box of 8 columns by its visible rows keeps its value. */
  lemma DrawnKeepsOutside(plane: seq<bool>, rows: seq<byte>, xc: int, yc: int, col: int, row: int)
    requires |plane| == Engine.PlaneSize && Engine.InPlane(col, row)
    requires !(xc <= col < xc + 8 && yc <= row < yc + |rows|)
    ensures Drawn(plane, rows, xc, yc)[Engine.Index(col, row)] == plane[Engine.Index(col, row)]
  {
    Engine.IndexInPlane(col, row);
  }

  /** A collision is exactly a lit pixel that the drawing turns dark. */
  lemma CollidesIffPixelCleared(plane: seq<bool>, rows: seq<byte>, xc: int, yc: int)
    requires |plane| == Engine.PlaneSize
    ensures Collides(plane, rows, xc, yc) <==>
      exists k :: 0 <= k < Engine.PlaneSize && plane[k] && !Drawn(plane, rows, xc, yc)[k]
  {
    var drawn := Drawn(plane, rows, xc, yc);
    if Collides(plane, rows, xc, yc) {
      var col, row :| 0 <= col < Engine.Width && 0 <= row < Engine.Height
        && Hit(rows, xc, yc, col, row) && plane[Engine.Index(col, row)];
      Engine.IndexInPlane(col, row);
      assert plane[Engine.Index(col, row)] && !drawn[Engine.Index(col, row)];
    }
    if k :| 0 <= k < Engine.PlaneSize && plane[k] && !drawn[k] {
      Engine.CoordsOfIndex(k);
      assert Hit(rows, xc, yc, k % Engine.Width, k / Engine.Width);
    }
  }

  /** Drawing a sprite twice at the same place gives back the plane. */
  lemma DrawnTwice(plane: seq<bool>, rows: seq<byte>, xc: int, yc: int)
    requires |plane| == Engine.PlaneSize
    ensures Drawn(Drawn(plane, rows, xc, yc), rows, xc, yc) == plane
  {
  }

  /** Executing the same DXYN twice, with X and Y other than F (so that the first
      draw's VF does not move the sprite), restores the display. */
  lemma DrawTwiceRestores(c: Cpu, plane: seq<bool>, ins: Instr)
    requires c.Valid() && |plane| == Engine.PlaneSize && ins.x != Flag && ins.y != Flag
    requires Draw(c, plane, ins).Next?
    ensures var o := Draw(c, plane, ins);
      Draw(o.cpu, o.plane, ins).Next? && Draw(o.cpu, o.plane, ins).plane == plane
  {
    var xc, yc := c.registers[ins.x] % Engine.Width, c.registers[ins.y] % Engine.Height;
    DrawnTwice(plane, SpriteRows(c.memory, c.indexRegister, ins.n, yc), xc, yc);
  }

  /** On a blank display a sprite never collides; drawn a second time (X and Y other
      than F) it collides exactly when some of its set bits fall on the display. */
  lemma DrawOnBlank(c: Cpu, ins: Instr)
    requires c.Valid() && ins.x != Flag && ins.y != Flag
    requires Draw(c, Engine.Blank(), ins).Next?
    ensures var xc, yc := c.registers[ins.x] % Engine.Width, c.registers[ins.y] % Engine.Height;
      var o := Draw(c, Engine.Blank(), ins);
      && o.cpu.registers[Flag] == 0
      && Draw(o.cpu, o.plane, ins).Next?
      && (Draw(o.cpu, o.plane, ins).cpu.registers[Flag] == 1 <==>
            exists col, row | Engine.InPlane(col, row) :: SpriteBit(c.memory, c.indexRegister, ins.n, xc, yc, col, row))
  {
    var xc, yc := c.registers[ins.x] % Engine.Width, c.registers[ins.y] % Engine.Height;
    var o := Draw(c, Engine.Blank(), ins);
    DrawFlipsSpriteBits(c, Engine.Blank(), ins);
    DrawFlipsSpriteBits(o.cpu, o.plane, ins);
    forall col, row | Engine.InPlane(col, row)
      ensures o.plane[Engine.Index(col, row)] == SpriteBit(c.memory, c.indexRegister, ins.n, xc, yc, col, row)
    {
      Engine.IndexInPlane(col, row);
    }
  }

  // ---------------------------------------------------------------------------
  // Timers

  /** The delay timer after `n` ticks. */
  function DelayAfter(t: byte, n: nat): byte
  {
    if n == 0 then t else DelayAfter(DelayTick(t), n - 1)
  }

  /** The delay timer counts down one per tick and stays at zero. */
  lemma {:induction false} DelaySettles(t: byte, n: nat)
    ensures DelayAfter(t, n) == if n >= t then 0 else t - n
  {
    if n > 0 {
      DelaySettles(DelayTick(t), n - 1);
    }
  }

  /** The sound timer after `n` ticks, and how many of them sent `Play`. */
  function SoundAfter(t: byte, n: nat): (byte, nat)
  {
    if n == 0 then (t, 0)
    else
      var (t', audio) := SoundTick(t);
      var (last, plays) := SoundAfter(t', n - 1);
      (last, plays + if audio == Play then 1 else 0)
  }

  /** The tone is commanded on for exactly min(t, n) of n ticks, and the sound
      timer, like the delay timer, counts down to zero and stays there. */
  lemma {:induction false} SoundPlaysWhileNonZero(t: byte, n: nat)
    ensures SoundAfter(t, n) == (if n >= t then 0 else t - n, Min(t, n))
  {
    if n > 0 {
      SoundPlaysWhileNonZero(SoundTick(t).0, n - 1);
    }
  }

  // ---------------------------------------------------------------------------
  // Many cycles

  /** Running two scripts one after the other is running their concatenation:
      the second starts from where the first ended, unless the first faulted. */
  lemma {:induction false} RunAppend(c: Cpu, plane: seq<bool>, s1: seq<Inputs>, s2: seq<Inputs>)
    requires c.Valid() && |plane| == Engine.PlaneSize
    ensures Run(c, plane, s1 + s2) ==
      match Run(c, plane, s1)
      case Crash(f) => Crash(f)
      case Next(c', plane') => Run(c', plane', s2)
    decreases |s1|
  {
    if s1 == [] {
      assert s1 + s2 == s2;
    } else {
      assert (s1 + s2)[0] == s1[0] && (s1 + s2)[1..] == s1[1..] + s2;
      match Exec(c, plane, s1[0])
      case Crash(f) =>
      case Next(c', plane') =>
        RunAppend(c', plane', s1[1..], s2);
    }
  }
}
