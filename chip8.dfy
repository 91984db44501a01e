/** The interpreter as the Go program runs it: a `Chip8` object whose arrays and
    fields each instruction updates in place. Every method is proved to leave the
    object in the state the functions of module Semantics compute. */
module Interpreter {
  import opened Bytes
  import opened Decoder
  import opened Semantics
  import Engine

  /** Whether the machine goes on, or has hit a run-time panic. */
  datatype Status = Running | Crashed(fault: Fault)

  /** Pixel (col, row) comes before the drawing position (row, colLimit) in row-major order. */
  predicate Done(col: int, r: int, row: int, colLimit: int)
  {
    r < row || (r == row && col < colLimit)
  }

  /** `image` is `before` with the sprite pixels before (row, colLimit) inverted. */
  ghost predicate DrawnUpTo(image: seq<bool>, before: seq<bool>, rows: seq<byte>, xc: int, yc: int, row: int, colLimit: int)
  {
    && |image| == Engine.PlaneSize && |before| == Engine.PlaneSize
    && forall col, r :: Engine.InPlane(col, r) ==>
         image[Engine.Index(col, r)] == (before[Engine.Index(col, r)] != (Hit(rows, xc, yc, col, r) && Done(col, r, row, colLimit)))
  }

  /** The flag is 0 or 1; 1 only on a collision, 0 only if none happened before (row, colLimit). */
  ghost predicate FlagUpTo(vf: byte, before: seq<bool>, rows: seq<byte>, xc: int, yc: int, row: int, colLimit: int)
    requires |before| == Engine.PlaneSize
  {
    && (vf == 0 || vf == 1)
    && (vf == 1 ==> Collides(before, rows, xc, yc))
    && (vf == 0 ==> forall col, r :: Engine.InPlane(col, r) && Hit(rows, xc, yc, col, r) && Done(col, r, row, colLimit)
                       ==> !before[Engine.Index(col, r)])
  }

  /** Drawing pixel (row, col), or skipping it, extends `DrawnUpTo` by one pixel. */
  lemma DrawnAdvance(image: seq<bool>, image': seq<bool>, before: seq<bool>, rows: seq<byte>,
                     xc: int, yc: int, row: int, col: int)
    requires DrawnUpTo(image, before, rows, xc, yc, row, col)
    requires 0 <= row < Engine.Height && 0 <= col && |image'| == Engine.PlaneSize
    requires if Engine.InPlane(col, row) && Hit(rows, xc, yc, col, row)
             then image' == image[Engine.Index(col, row) := !image[Engine.Index(col, row)]]
             else image' == image
    ensures DrawnUpTo(image', before, rows, xc, yc, row, col + 1)
  {
    forall c, r | Engine.InPlane(c, r)
      ensures image'[Engine.Index(c, r)] ==
        (before[Engine.Index(c, r)] != (Hit(rows, xc, yc, c, r) && Done(c, r, row, col + 1)))
    {
      Engine.IndexInPlane(c, r);
      if Engine.InPlane(col, row) {
        Engine.IndexInPlane(col, row);
      }
    }
  }

  /** Testing pixel (row, col) for a collision extends `FlagUpTo` by one pixel. */
  lemma FlagAdvance(vf: byte, vf': byte, image: seq<bool>, before: seq<bool>, rows: seq<byte>,
                    xc: int, yc: int, row: int, col: int)
    requires DrawnUpTo(image, before, rows, xc, yc, row, col)
    requires FlagUpTo(vf, before, rows, xc, yc, row, col)
    requires 0 <= row < Engine.Height && 0 <= col
    requires vf' == if Engine.InPlane(col, row) && Hit(rows, xc, yc, col, row) && image[Engine.Index(col, row)]
                    then 1 else vf
    ensures FlagUpTo(vf', before, rows, xc, yc, row, col + 1)
  {
    if Engine.InPlane(col, row) {
      Engine.IndexInPlane(col, row);
    }
  }

  class Chip8 {
    const stack: array<u16>
    var stackFrame: int
    var indexRegister: u16
    const registers: array<byte>
    var pc: u16
    const memory: array<byte>
    var delayTimer: byte
    var soundTimer: byte

    ghost predicate Valid()
      reads this
    {
      && stack.Length == StackDepth
      && registers.Length == RegisterCount
      && memory.Length == MemorySize
      && registers != memory
      && -1 <= stackFrame < StackDepth
    }

    /** The state as a value. */
    ghost function Snapshot(): (c: Cpu)
      reads this, stack, registers, memory
      ensures Valid() ==> c.Valid()
    {
      Cpu(stack[..], stackFrame, indexRegister, registers[..], pc, memory[..], delayTimer, soundTimer)
    }

    /** Whether `status` and the current state (with the display `r`) are `o`. */
    ghost predicate Reflects(o: Outcome, status: Status, r: Engine.Runtime)
      reads this, stack, registers, memory, r.image
    {
      match o
      case Crash(f) => status == Crashed(f)
      case Next(c, plane) => status == Running && Snapshot() == c && r.image[..] == plane
    }

    /** `NewChip8`. */
    constructor ()
      ensures Valid() && fresh(stack) && fresh(registers) && fresh(memory)
      ensures Snapshot() == Initial()
    {
      stack := new u16[StackDepth](_ => 0);
      stackFrame := -1;
      indexRegister := 0x0;
      registers := new byte[RegisterCount](_ => 0);
      pc := ProgramStart;
      memory := new byte[MemorySize](_ => 0);
      delayTimer := 0x0;
      soundTimer := 0x0;
    }

    /** The loading loops of `Interpret`: the font to 0x50, then the program to 0x200. */
    method Load(program: seq<byte>)
      requires Valid() && Fits(|program|)
      modifies memory
      ensures Valid()
      ensures Snapshot() == old(Snapshot()).(memory := Loaded(old(memory[..]), program))
    {
      ghost var m := memory[..];
      CopyIn(FontSet, FontStart);
      CopyIn(program, ProgramStart);
      forall a | 0 <= a < MemorySize
        ensures memory[a] == Loaded(m, program)[a]
      {
        LoadedAt(m, program, a);
      }
      assert memory[..] == Loaded(m, program);
    }

    /** One loading loop: `src` copied byte by byte to memory from address `at` on. */
    method CopyIn(src: seq<byte>, at: nat)
      requires Valid() && at + |src| <= MemorySize
      modifies memory
      ensures forall a :: 0 <= a < MemorySize ==>
        memory[a] == if at <= a < at + |src| then src[a - at] else old(memory[a])
    {
      for i := 0 to |src|
        invariant forall a :: 0 <= a < MemorySize ==>
          memory[a] == if at <= a < at + i then src[a - at] else old(memory[a])
      {
        memory[at + i] := src[i];
      }
    }

    /** One pass of the loop body of `Interpret`: fetch, advance `pc`, dispatch. */
    method Step(r: Engine.Runtime, io: Inputs) returns (status: Status)
      requires Valid() && r.Valid()
      modifies this, stack, registers, memory, r.image
      ensures Valid()
      ensures Reflects(Exec(old(Snapshot()), old(r.image[..]), io), status, r)
    {
      if pc + 1 >= MemorySize {
        return Crashed(PcOutOfRange);
      }
      var b0 := memory[pc];
      var b1 := memory[pc + 1];
      pc := Add16(pc, 2);
      var ins := Decode(b0, b1);
      assert ins == Fetched(old(Snapshot()));
      assert Snapshot() == old(Snapshot()).(pc := old(pc) + 2);
      status := Execute(r, ins, io);
    }

    /** The `switch instr` of `Interpret`. */
    method Execute(r: Engine.Runtime, ins: Instr, io: Inputs) returns (status: Status)
      requires Valid() && r.Valid()
      modifies this, stack, registers, memory, r.image
      ensures Valid()
      ensures Reflects(Dispatch(old(Snapshot()), old(r.image[..]), ins, io), status, r)
    {
      status := Running;
      if ins.instr == 0x0 {
        status := ExecSystem(r, ins);
      } else if ins.instr == 0x1 {
        pc := ins.nnn;
      } else if ins.instr == 0x2 {
        if stackFrame + 1 >= StackDepth {
          return Crashed(StackOverflow);
        }
        stackFrame := stackFrame + 1;
        stack[stackFrame] := pc;
        pc := ins.nnn;
      } else if ins.instr == 0x3 {
        if registers[ins.x] == ins.nn {
          pc := Add16(pc, 2);
        }
      } else if ins.instr == 0x4 {
        if registers[ins.x] != ins.nn {
          pc := Add16(pc, 2);
        }
      } else if ins.instr == 0x5 {
        if ins.n == 0x0 && registers[ins.x] == registers[ins.y] {
          pc := Add16(pc, 2);
        }
      } else if ins.instr == 0x6 {
        registers[ins.x] := ins.nn;
      } else if ins.instr == 0x7 {
        registers[ins.x] := Add8(ins.nn, registers[ins.x]);
      } else if ins.instr == 0x8 {
        ExecArithmetic(ins);
      } else if ins.instr == 0x9 {
        if registers[ins.x] != registers[ins.y] {
          pc := Add16(pc, 2);
        }
      } else if ins.instr == 0xA {
        indexRegister := ins.nnn;
      } else if ins.instr == 0xB {
        pc := Add16(ins.nnn, registers[0x0]);
      } else if ins.instr == 0xC {
        registers[ins.x] := And8(io.random, ins.nn);
      } else if ins.instr == 0xD {
        status := ExecDraw(r, ins);
      } else if ins.instr == 0xE {
        var down := io.pressed(Engine.ByteToKey(registers[ins.x]));
        if ins.nn == 0x9E {
          if down {
            pc := Add16(pc, 2);
          }
        } else if ins.nn == 0xA1 {
          if !down {
            pc := Add16(pc, 2);
          }
        }
      } else {
        status := ExecMisc(ins, io);
      }
    }

    /** The 0x0 family: clear the screen, or return from a subroutine. */
    method ExecSystem(r: Engine.Runtime, ins: Instr) returns (status: Status)
      requires Valid() && r.Valid()
      modifies this, r.image
      ensures Valid()
      ensures Reflects(System(old(Snapshot()), old(r.image[..]), ins), status, r)
    {
      status := Running;
      if ins.y == 0xE {
        if ins.n == 0x0 {
          r.ClearScreen();
        } else if ins.n == 0xE {
          if stackFrame < 0 {
            return Crashed(StackUnderflow);
          }
          pc := stack[stackFrame];
          stackFrame := stackFrame - 1;
        }
      }
    }

    /** The 0x8 family, each flag written before VX as in the source. */
    method ExecArithmetic(ins: Instr)
      requires Valid()
      modifies registers
      ensures Valid()
      ensures Snapshot() == Arithmetic(old(Snapshot()), ins)
    {
      var x, y := ins.x, ins.y;
      if ins.n == 0x0 {
        registers[x] := registers[y];
      } else if ins.n == 0x1 {
        registers[x] := Or8(registers[x], registers[y]);
      } else if ins.n == 0x2 {
        registers[x] := And8(registers[x], registers[y]);
      } else if ins.n == 0x3 {
        registers[x] := Xor8(registers[x], registers[y]);
      } else if ins.n == 0x4 {
        var sum := registers[x] as int + registers[y] as int;
        if sum > 0xFF {
          registers[Flag] := 1;
        } else {
          registers[Flag] := 0;
        }
        registers[x] := sum % 0x100;
      } else if ins.n == 0x5 {
        if registers[x] > registers[y] {
          registers[Flag] := 1;
        } else {
          registers[Flag] := 0;
        }
        registers[x] := Sub8(registers[x], registers[y]);
      } else if ins.n == 0x6 {
        var lastBit := registers[x] % 2;
        if lastBit > 0 {
          registers[Flag] := 1;
        } else {
          registers[Flag] := 0;
        }
        registers[x] := registers[x] / 2;
      } else if ins.n == 0x7 {
        if registers[y] > registers[x] {
          registers[Flag] := 1;
        } else {
          registers[Flag] := 0;
        }
        var result := Sub8(registers[x], registers[y]);
        registers[x] := result;
      } else if ins.n == 0xE {
        registers[x] := registers[y];
        if registers[x] >= 0x80 {
          registers[Flag] := 1;
        } else {
          registers[Flag] := 0;
        }
        registers[x] := (registers[x] as int * 2) % 0x100;
      }
    }

    /** The 0xF family. */
    method ExecMisc(ins: Instr, io: Inputs) returns (status: Status)
      requires Valid()
      modifies this, registers, memory
      ensures Valid()
      ensures match Misc(old(Snapshot()), Engine.Blank(), ins, io)
              case Crash(f) => status == Crashed(f)
              case Next(c, _) => status == Running && Snapshot() == c
    {
      status := Running;
      var x := ins.x;
      if ins.nn == 0x07 {
        registers[x] := delayTimer;
      } else if ins.nn == 0x0A {
        registers[x] := Engine.KeyToByte(io.waited);
      } else if ins.nn == 0x15 {
        delayTimer := registers[x];
      } else if ins.nn == 0x18 {
        soundTimer := registers[x];
      } else if ins.nn == 0x1E {
        indexRegister := Add16(indexRegister, registers[x]);
      } else if ins.nn == 0x29 {
        var b := registers[x] % 0x10;
        indexRegister := FontSet[b];
      } else if ins.nn == 0x33 {
        if indexRegister + 2 >= MemorySize {
          return Crashed(MemoryOutOfRange);
        }
        memory[indexRegister + 0] := registers[x] / 100 % 10;
        memory[indexRegister + 1] := registers[x] / 10 % 10;
        memory[indexRegister + 2] := registers[x] / 1 % 10;
      } else if ins.nn == 0x55 {
        if indexRegister + x >= MemorySize {
          return Crashed(MemoryOutOfRange);
        }
        StoreLoop(x);
      } else if ins.nn == 0x65 {
        if indexRegister + x >= MemorySize {
          return Crashed(MemoryOutOfRange);
        }
        LoadLoop(x);
      }
    }

    /** FX55: store V0..VX from memory[I] on, then advance I by X + 1. */
    method StoreLoop(x: nibble)
      requires Valid() && indexRegister + x < MemorySize
      modifies this, memory
      ensures Valid()
      ensures Snapshot() == old(Snapshot()).(
        memory := StoreRegisters(old(memory[..]), registers[..], old(indexRegister), x),
        indexRegister := Add16(old(indexRegister), x + 1))
    {
      var i := 0;
      while i <= x
        modifies memory
        invariant 0 <= i <= x + 1
        invariant forall a :: 0 <= a < MemorySize ==>
          memory[a] == if indexRegister <= a < indexRegister + i then registers[a - indexRegister] else old(memory[a])
      {
        var index := Add16(indexRegister, i);
        memory[index] := registers[i];
        i := i + 1;
      }
      assert memory[..] == StoreRegisters(old(memory[..]), registers[..], indexRegister, x);
      indexRegister := Add16(indexRegister, x + 1);
    }

    /** FX65: load V0..VX from memory[I] on, advancing I once per register. */
    method LoadLoop(x: nibble)
      requires Valid() && indexRegister + x < MemorySize
      modifies this, registers
      ensures Valid()
      ensures Snapshot() == old(Snapshot()).(
        registers := LoadRegisters(memory[..], old(registers[..]), old(indexRegister), x),
        indexRegister := Add16(old(indexRegister), x + 1))
    {
      var i := 0;
      while i <= x
        invariant 0 <= i <= x + 1
        invariant indexRegister == old(indexRegister) + i
        invariant Valid() && Snapshot() == old(Snapshot()).(registers := registers[..], indexRegister := indexRegister)
        invariant forall j :: 0 <= j < RegisterCount ==>
          registers[j] == if j < i then memory[old(indexRegister) + j] else old(registers[j])
      {
        registers[i] := memory[indexRegister];
        indexRegister := Add16(indexRegister, 1);
        i := i + 1;
      }
      assert registers[..] == LoadRegisters(memory[..], old(registers[..]), old(indexRegister), x);
    }

    /** DXYN: one pass over the sprite's rows; a clipped row still reads its byte. */
    method ExecDraw(r: Engine.Runtime, ins: Instr) returns (status: Status)
      requires Valid() && r.Valid()
      modifies registers, r.image
      ensures Valid()
      ensures Reflects(Draw(old(Snapshot()), old(r.image[..]), ins), status, r)
    {
      status := Running;
      var xc := registers[ins.x] % Engine.Width;
      var yc := registers[ins.y] % Engine.Height;
      if DrawFaults(indexRegister, ins.n, yc) {
        return Crashed(MemoryOutOfRange);
      }
      ghost var rows := SpriteRows(memory[..], indexRegister, ins.n, yc);
      ghost var before := r.image[..];
      registers[Flag] := 0x0;
      var numLines := ins.n;
      var firstByteIndex := indexRegister;
      var line := 0;
      while line < numLines
        invariant 0 <= line <= numLines
        invariant firstByteIndex == indexRegister + Min(line, Engine.Height - yc)
        invariant registers[..] == old(registers[..])[Flag := registers[Flag]]
        invariant DrawnUpTo(r.image[..], before, rows, xc, yc, yc + line, xc)
        invariant FlagUpTo(registers[Flag], before, rows, xc, yc, yc + line, xc)
      {
        var sprite := memory[firstByteIndex];
        var row := yc + line;
        if row > Engine.Height - 1 {
          line := line + 1;
          continue;
        }
        DrawRow(r, sprite, rows, before, xc, yc, row);
        firstByteIndex := Add16(firstByteIndex, 1);
        line := line + 1;
      }
      forall k | 0 <= k < Engine.PlaneSize
        ensures r.image[k] == Drawn(before, rows, xc, yc)[k]
      {
        Engine.CoordsOfIndex(k);
      }
      if registers[Flag] == 0 {
        assert !Collides(before, rows, xc, yc);
      }
    }

    /** The inner loop of DXYN: the eight bits of one visible sprite row, most significant first. */
    method DrawRow(r: Engine.Runtime, sprite: byte, ghost rows: seq<byte>, ghost before: seq<bool>,
                   xc: int, yc: int, row: int)
      requires Valid() && r.Valid() && |before| == Engine.PlaneSize
      requires 0 <= xc < Engine.Width && 0 <= yc <= row < Engine.Height
      requires row < yc + |rows| && rows[row - yc] == sprite
      requires DrawnUpTo(r.image[..], before, rows, xc, yc, row, xc)
      requires FlagUpTo(registers[Flag], before, rows, xc, yc, row, xc)
      modifies registers, r.image
      ensures registers[..] == old(registers[..])[Flag := registers[Flag]]
      ensures DrawnUpTo(r.image[..], before, rows, xc, yc, row + 1, xc)
      ensures FlagUpTo(registers[Flag], before, rows, xc, yc, row + 1, xc)
    {
      for bit := 0 to 8
        invariant registers[..] == old(registers[..])[Flag := registers[Flag]]
        invariant DrawnUpTo(r.image[..], before, rows, xc, yc, row, xc + bit)
        invariant FlagUpTo(registers[Flag], before, rows, xc, yc, row, xc + bit)
      {
        var col := xc + bit;
        ghost var image, vf := r.image[..], registers[Flag];
        if col <= Engine.Width - 1 && BitSet(sprite, bit) {
          assert Hit(rows, xc, yc, col, row);
          Engine.IndexInPlane(col, row);
          if r.IsPixelSet(col, row) {
            r.Set(col, row, false);
            registers[Flag] := 0x1;
          } else {
            r.Set(col, row, true);
          }
        }
        DrawnAdvance(image, r.image[..], before, rows, xc, yc, row, col);
        FlagAdvance(vf, registers[Flag], image, before, rows, xc, yc, row, col);
      }
    }

    /** One tick of `startDelayTimer`. */
    method TickDelay()
      requires Valid()
      modifies this
      ensures Valid()
      ensures Snapshot() == old(Snapshot()).(delayTimer := DelayTick(old(delayTimer)))
    {
      if delayTimer > 0 {
        delayTimer := delayTimer - 1;
      }
    }

    /** One tick of `startSoundTimer`: returns the command sent to the audio player. */
    method TickSound() returns (audio: Audio)
      requires Valid()
      modifies this
      ensures Valid()
      ensures (soundTimer, audio) == SoundTick(old(soundTimer))
      ensures Snapshot() == old(Snapshot()).(soundTimer := soundTimer)
    {
      if soundTimer > 0 {
        soundTimer := soundTimer - 1;
        audio := Play;
      } else {
        audio := Stop;
      }
    }

    /** `Interpret` with its endless loop cut to one cycle per element of `script`:
        load, then step until the script ends or the machine faults. */
    method Interpret(r: Engine.Runtime, program: seq<byte>, script: seq<Inputs>) returns (status: Status)
      requires Valid() && r.Valid() && Fits(|program|)
      modifies this, stack, registers, memory, r.image
      ensures Valid()
      ensures Reflects(Run(old(Snapshot()).(memory := Loaded(old(memory[..]), program)), old(r.image[..]), script), status, r)
    {
      Load(program);
      ghost var start, plane := Snapshot(), r.image[..];
      status := Running;
      var i := 0;
      while i < |script|
        invariant Valid() && 0 <= i <= |script| && status == Running
        invariant Run(start, plane, script) == Run(Snapshot(), r.image[..], script[i..])
      {
        ghost var c, p := Snapshot(), r.image[..];
        status := Step(r, script[i]);
        ghost var o := Exec(c, p, script[i]);
        assert Run(c, p, script[i..]) == if o.Crash? then Crash(o.fault) else Run(o.cpu, o.plane, script[i..][1..]);
        if status.Crashed? {
          return;
        }
        assert script[i..][1..] == script[i + 1..];
        i := i + 1;
      }
    }
  }
}
