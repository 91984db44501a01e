/** The CHIP-8 virtual machine as values: the machine state, the loader, one
    fetch-decode-execute cycle, and one tick of each timer. The class in module
    Interpreter is proved to change its arrays and fields exactly as these
    functions say. */
module Semantics {
  import opened Bytes
  import opened Decoder
  import Engine

  const MemorySize := 4096
  const ProgramStart := 0x200
  const FontStart := 0x50
  const StackDepth := 32
  const RegisterCount := 16
  /** VF, the register that doubles as carry, borrow and collision flag. */
  const Flag := 0xF

  /** The sixteen 4x5 glyphs of the hexadecimal digits, five bytes each. */
  const FontSet: seq<byte> :=
    [0xF0, 0x90, 0x90, 0x90, 0xF0] +  // 0
    [0x20, 0x60, 0x20, 0x20, 0x70] +  // 1
    [0xF0, 0x10, 0xF0, 0x80, 0xF0] +  // 2
    [0xF0, 0x10, 0xF0, 0x10, 0xF0] +  // 3
    [0x90, 0x90, 0xF0, 0x10, 0x10] +  // 4
    [0xF0, 0x80, 0xF0, 0x10, 0xF0] +  // 5
    [0xF0, 0x80, 0xF0, 0x90, 0xF0] +  // 6
    [0xF0, 0x10, 0x20, 0x40, 0x40] +  // 7
    [0xF0, 0x90, 0xF0, 0x90, 0xF0] +  // 8
    [0xF0, 0x90, 0xF0, 0x10, 0xF0] +  // 9
    [0xF0, 0x90, 0xF0, 0x90, 0x90] +  // A
    [0xE0, 0x90, 0xE0, 0x90, 0xE0] +  // B
    [0xF0, 0x80, 0x80, 0x80, 0xF0] +  // C
    [0xE0, 0x90, 0x90, 0x90, 0xE0] +  // D
    [0xF0, 0x80, 0xF0, 0x80, 0xF0] +  // E
    [0xF0, 0x80, 0xF0, 0x80, 0x80]    // F

  /** The state of the machine; `stackFrame` is the slot of the top frame, -1 when empty. */
  datatype Cpu = Cpu(
    stack: seq<u16>,
    stackFrame: int,
    indexRegister: u16,
    registers: seq<byte>,
    pc: u16,
    memory: seq<byte>,
    delayTimer: byte,
    soundTimer: byte)
  {
    predicate Valid()
    {
      && |stack| == StackDepth
      && -1 <= stackFrame < StackDepth
      && |registers| == RegisterCount
      && |memory| == MemorySize
    }
  }

  /** The run-time panics the Go code can hit: an index out of range of an array. */
  datatype Fault =
    | PcOutOfRange       // fetching memory[pc] or memory[pc + 1] past 0xFFF
    | StackOverflow      // CALL with all 32 slots in use
    | StackUnderflow     // RET with no frame on the stack
    | MemoryOutOfRange   // DXYN, FX33, FX55 or FX65 touching memory past 0xFFF

  /** What the environment supplies to one cycle: which keys are down, the byte
      `rand.Intn(256)` would return, and the key a blocking FX0A receives. */
  datatype Inputs = Inputs(pressed: Engine.Key -> bool, random: byte, waited: Engine.Key)

  datatype Outcome = Crash(fault: Fault) | Next(cpu: Cpu, plane: seq<bool>)

  // ---------------------------------------------------------------------------
  // Creation and loading

  /** The state `NewChip8` creates: everything zero, `pc` at 0x200, an empty stack. */
  function Initial(): (c: Cpu)
    ensures c.Valid() && c.stackFrame == -1 && c.pc == ProgramStart
  {
    Cpu(seq(StackDepth, _ => 0), -1, 0, seq(RegisterCount, _ => 0), ProgramStart,
        seq(MemorySize, _ => 0), 0, 0)
  }

  /** Whether a program fits between 0x200 and the end of memory. */
  predicate Fits(size: nat)
  {
    size <= MemorySize - ProgramStart
  }

  /** The size check the interpreter logs before loading, exactly as written. */
  predicate OversizeWarned(size: nat)
    ensures OversizeWarned(size) ==> !Fits(size)
  {
    size > MemorySize
  }

  /** Memory after copying the font to 0x50 and the program to 0x200. */
  function Loaded(memory: seq<byte>, program: seq<byte>): (m: seq<byte>)
    requires |memory| == MemorySize && Fits(|program|)
    ensures |m| == MemorySize
    ensures m[FontStart..FontStart + |FontSet|] == FontSet
    ensures m[ProgramStart..ProgramStart + |program|] == program
  {
    memory[..FontStart] + FontSet + memory[FontStart + |FontSet|..ProgramStart]
      + program + memory[ProgramStart + |program|..]
  }

  /** The state in which the first cycle starts. */
  function Boot(program: seq<byte>): (c: Cpu)
    requires Fits(|program|)
    ensures c.Valid() && c == Initial().(memory := c.memory)
  {
    Initial().(memory := Loaded(Initial().memory, program))
  }

  /** Byte `a` of loaded memory: the font, the program, or what was there. */
  lemma LoadedAt(memory: seq<byte>, program: seq<byte>, a: int)
    requires |memory| == MemorySize && Fits(|program|) && 0 <= a < MemorySize
    ensures Loaded(memory, program)[a] ==
      if FontStart <= a < FontStart + |FontSet| then FontSet[a - FontStart]
      else if ProgramStart <= a < ProgramStart + |program| then program[a - ProgramStart]
      else memory[a]
  {
    var p0 := memory[..FontStart];
    var p1 := p0 + FontSet;
    var p2 := p1 + memory[FontStart + |FontSet|..ProgramStart];
    var p3 := p2 + program;
    assert Loaded(memory, program) == p3 + memory[ProgramStart + |program|..];
    assert |p2| == ProgramStart;
  }

  // ---------------------------------------------------------------------------
  // One cycle

  /** Fetches the two bytes at `pc`, advances `pc` by 2, then executes. */
  function Exec(c: Cpu, plane: seq<bool>, io: Inputs): (o: Outcome)
    requires c.Valid() && |plane| == Engine.PlaneSize
    ensures o.Next? ==> o.cpu.Valid() && |o.plane| == Engine.PlaneSize
    ensures o.Crash? && o.fault == PcOutOfRange <==> c.pc + 1 >= MemorySize
  {
    if c.pc + 1 >= MemorySize then Crash(PcOutOfRange)
    // the uint16 `pc += 2` cannot wrap here, as pc + 1 is inside memory
    else Dispatch(c.(pc := c.pc + 2), plane, Fetched(c), io)
  }

  /** The instruction at `pc`. */
  function Fetched(c: Cpu): Instr
    requires c.Valid() && c.pc + 1 < MemorySize
  {
    Decode(c.memory[c.pc], c.memory[c.pc + 1])
  }

  /** Advances `pc` past the next instruction when `cond` holds. */
  function SkipIf(c: Cpu, cond: bool): Cpu
  {
    if cond then c.(pc := Add16(c.pc, 2)) else c
  }

  /** Executes a decoded instruction; `c.pc` has already been advanced. */
  function Dispatch(c: Cpu, plane: seq<bool>, ins: Instr, io: Inputs): (o: Outcome)
    requires c.Valid() && |plane| == Engine.PlaneSize
    ensures o.Next? ==> o.cpu.Valid() && |o.plane| == Engine.PlaneSize
    ensures o.Crash? ==> o.fault != PcOutOfRange
  {
    var vx := c.registers[ins.x];
    if ins.instr == 0x0 then System(c, plane, ins)
    else if ins.instr == 0x1 then Next(c.(pc := ins.nnn), plane)
    else if ins.instr == 0x2 then
      if c.stackFrame + 1 >= StackDepth then Crash(StackOverflow)
      else
        var top := c.stackFrame + 1;
        Next(c.(stackFrame := top, stack := c.stack[top := c.pc], pc := ins.nnn), plane)
    else if ins.instr == 0x3 then Next(SkipIf(c, vx == ins.nn), plane)
    else if ins.instr == 0x4 then Next(SkipIf(c, vx != ins.nn), plane)
    else if ins.instr == 0x5 then Next(SkipIf(c, ins.n == 0x0 && vx == c.registers[ins.y]), plane)
    else if ins.instr == 0x6 then Next(c.(registers := c.registers[ins.x := ins.nn]), plane)
    else if ins.instr == 0x7 then Next(c.(registers := c.registers[ins.x := Add8(ins.nn, vx)]), plane)
    else if ins.instr == 0x8 then Next(Arithmetic(c, ins), plane)
    else if ins.instr == 0x9 then Next(SkipIf(c, vx != c.registers[ins.y]), plane)
    else if ins.instr == 0xA then Next(c.(indexRegister := ins.nnn), plane)
    else if ins.instr == 0xB then Next(c.(pc := Add16(ins.nnn, c.registers[0x0])), plane)
    else if ins.instr == 0xC then Next(c.(registers := c.registers[ins.x := And8(io.random, ins.nn)]), plane)
    else if ins.instr == 0xD then Draw(c, plane, ins)
    else if ins.instr == 0xE then Next(KeySkip(c, ins, io.pressed), plane)
    else Misc(c, plane, ins, io)
  }

  /** The 0x0 family: only Y = 0xE is looked at, then N selects clear or return. */
  function System(c: Cpu, plane: seq<bool>, ins: Instr): (o: Outcome)
    requires c.Valid() && |plane| == Engine.PlaneSize
    ensures o.Next? ==> o.cpu.Valid() && |o.plane| == Engine.PlaneSize
    ensures o.Crash? ==> o.fault == StackUnderflow
  {
    if ins.y != 0xE then Next(c, plane)
    else if ins.n == 0x0 then Next(c, Engine.Blank())
    else if ins.n == 0xE then
      if c.stackFrame < 0 then Crash(StackUnderflow)
      else Next(c.(pc := c.stack[c.stackFrame], stackFrame := c.stackFrame - 1), plane)
    else Next(c, plane)
  }

  /** The 0x8 family. Where a flag is written, it is written before VX, and any
      operand read after that point is read from the updated registers. */
  function Arithmetic(c: Cpu, ins: Instr): (c': Cpu)
    requires c.Valid()
    ensures c'.Valid()
    ensures c' == c.(registers := c'.registers)
  {
    var x, y, r := ins.x, ins.y, c.registers;
    var r' :=
      if ins.n == 0x0 then r[x := r[y]]
      else if ins.n == 0x1 then r[x := Or8(r[x], r[y])]
      else if ins.n == 0x2 then r[x := And8(r[x], r[y])]
      else if ins.n == 0x3 then r[x := Xor8(r[x], r[y])]
      else if ins.n == 0x4 then
        var sum := r[x] as int + r[y] as int;
        var f := r[Flag := if sum > 0xFF then 1 else 0];
        f[x := sum % 0x100]
      else if ins.n == 0x5 then
        var f := r[Flag := if r[x] > r[y] then 1 else 0];
        f[x := Sub8(f[x], f[y])]
      else if ins.n == 0x6 then
        var f := r[Flag := if r[x] % 2 > 0 then 1 else 0];
        f[x := f[x] / 2]
      else if ins.n == 0x7 then
        var f := r[Flag := if r[y] > r[x] then 1 else 0];
        f[x := Sub8(f[x], f[y])]
      else if ins.n == 0xE then
        var copied := r[x := r[y]];
        var f := copied[Flag := if copied[x] >= 0x80 then 1 else 0];
        f[x := (f[x] * 2) % 0x100]
      else r;
    c.(registers := r')
  }

  /** The 0xE family: skip on the state of the key named by VX. */
  function KeySkip(c: Cpu, ins: Instr, pressed: Engine.Key -> bool): (c': Cpu)
    requires c.Valid()
    ensures c'.Valid()
    ensures c' == c || c' == c.(pc := Add16(c.pc, 2))
  {
    var down := pressed(Engine.ByteToKey(c.registers[ins.x]));
    if ins.nn == 0x9E then SkipIf(c, down)
    else if ins.nn == 0xA1 then SkipIf(c, !down)
    else c
  }

  /** The 0xF family: timers, the key wait, the index register and memory transfers. */
  function Misc(c: Cpu, plane: seq<bool>, ins: Instr, io: Inputs): (o: Outcome)
    requires c.Valid() && |plane| == Engine.PlaneSize
    ensures o.Next? ==> o.cpu.Valid() && o.plane == plane
    ensures o.Crash? ==> o.fault == MemoryOutOfRange
  {
    var x := ins.x;
    var vx := c.registers[x];
    var i := c.indexRegister;
    if ins.nn == 0x07 then Next(c.(registers := c.registers[x := c.delayTimer]), plane)
    else if ins.nn == 0x0A then Next(c.(registers := c.registers[x := Engine.KeyToByte(io.waited)]), plane)
    else if ins.nn == 0x15 then Next(c.(delayTimer := vx), plane)
    else if ins.nn == 0x18 then Next(c.(soundTimer := vx), plane)
    else if ins.nn == 0x1E then Next(c.(indexRegister := Add16(i, vx)), plane)
    else if ins.nn == 0x29 then Next(c.(indexRegister := FontSet[vx % 0x10]), plane)
    else if ins.nn == 0x33 then
      if i + 2 >= MemorySize then Crash(MemoryOutOfRange)
      else Next(c.(memory := c.memory[i := vx / 100 % 10][i + 1 := vx / 10 % 10][i + 2 := vx % 10]), plane)
    else if ins.nn == 0x55 then
      if i + x >= MemorySize then Crash(MemoryOutOfRange)
      else Next(c.(memory := StoreRegisters(c.memory, c.registers, i, x), indexRegister := Add16(i, x + 1)), plane)
    else if ins.nn == 0x65 then
      if i + x >= MemorySize then Crash(MemoryOutOfRange)
      else Next(c.(registers := LoadRegisters(c.memory, c.registers, i, x), indexRegister := Add16(i, x + 1)), plane)
    else Next(c, plane)
  }

  /** Memory with V0..VX written from address `at` on (FX55). */
  function StoreRegisters(memory: seq<byte>, registers: seq<byte>, at: nat, x: nibble): (m: seq<byte>)
    requires |memory| == MemorySize && |registers| == RegisterCount && at + x < MemorySize
    ensures |m| == MemorySize
  {
    memory[..at] + registers[..x + 1] + memory[at + x + 1..]
  }

  /** Registers with V0..VX read from address `at` on (FX65). */
  function LoadRegisters(memory: seq<byte>, registers: seq<byte>, at: nat, x: nibble): (r: seq<byte>)
    requires |memory| == MemorySize && |registers| == RegisterCount && at + x < MemorySize
    ensures |r| == RegisterCount
  {
    memory[at..at + x + 1] + registers[x + 1..]
  }

  // ---------------------------------------------------------------------------
  // DXYN

  /** Whether a sprite of `n` rows anchored at row `yc` reads memory past 0xFFF.
      A clipped row still reads a byte: the one after the last visible row. */
  predicate DrawFaults(index: u16, n: nibble, yc: int)
    ensures !DrawFaults(index, n, yc) && n > 0 && yc <= Engine.Height ==>
      index + Min(n, Engine.Height - yc) <= MemorySize
  {
    n > 0 && index + Min(n - 1, Engine.Height - yc) >= MemorySize
  }

  /** The bytes of the sprite rows that fall on the plane. */
  function SpriteRows(memory: seq<byte>, index: u16, n: nibble, yc: int): (rows: seq<byte>)
    requires |memory| == MemorySize && 0 <= yc < Engine.Height && !DrawFaults(index, n, yc)
    ensures |rows| == Min(n, Engine.Height - yc)
    ensures forall i :: 0 <= i < |rows| ==> rows[i] == memory[index + i]
  {
    if n == 0 then [] else memory[index..index + Min(n, Engine.Height - yc)]
  }

  /** Whether the sprite `rows`, anchored at (xc, yc), has a set bit over pixel (col, row). */
  predicate Hit(rows: seq<byte>, xc: int, yc: int, col: int, row: int)
  {
    xc <= col < xc + 8 && yc <= row < yc + |rows| && BitSet(rows[row - yc], col - xc)
  }

  /** The plane with every pixel under a set sprite bit inverted. */
  function Drawn(plane: seq<bool>, rows: seq<byte>, xc: int, yc: int): (p: seq<bool>)
    requires |plane| == Engine.PlaneSize
    ensures |p| == Engine.PlaneSize
  {
    seq(Engine.PlaneSize, k requires 0 <= k < Engine.PlaneSize =>
      plane[k] != Hit(rows, xc, yc, k % Engine.Width, k / Engine.Width))
  }

  /** Whether some set sprite bit lies over a lit pixel. */
  predicate Collides(plane: seq<bool>, rows: seq<byte>, xc: int, yc: int)
    requires |plane| == Engine.PlaneSize
  {
    exists col, row | 0 <= col < Engine.Width && 0 <= row < Engine.Height ::
      Hit(rows, xc, yc, col, row) && plane[Engine.Index(col, row)]
  }

  /** DXYN: draw N rows from memory[I] at (VX mod 64, VY mod 32), clipped at the edges;
      VF ends 1 when a lit pixel was turned off, 0 otherwise. */
  function Draw(c: Cpu, plane: seq<bool>, ins: Instr): (o: Outcome)
    requires c.Valid() && |plane| == Engine.PlaneSize
    ensures o.Next? ==> o.cpu.Valid() && |o.plane| == Engine.PlaneSize
    ensures o.Crash? ==> o.fault == MemoryOutOfRange
  {
    var xc := c.registers[ins.x] % Engine.Width;
    var yc := c.registers[ins.y] % Engine.Height;
    if DrawFaults(c.indexRegister, ins.n, yc) then Crash(MemoryOutOfRange)
    else
      var rows := SpriteRows(c.memory, c.indexRegister, ins.n, yc);
      var vf := if Collides(plane, rows, xc, yc) then 1 else 0;
      Next(c.(registers := c.registers[Flag := vf]), Drawn(plane, rows, xc, yc))
  }

  // ---------------------------------------------------------------------------
  // Timers

  /** One tick of the delay timer. */
  function DelayTick(t: byte): (t': byte)
    ensures t' <= t && t - 1 <= t' && (t' == t <==> t == 0)
  {
    if t > 0 then t - 1 else t
  }

  datatype Audio = Play | Stop

  /** One tick of the sound timer and the command it sends to the audio player. */
  function SoundTick(t: byte): (r: (byte, Audio))
    ensures r.0 <= t && t - 1 <= r.0 && (r.0 == t <==> t == 0)
    ensures r.1 == Play <==> t > 0
  {
    if t > 0 then (t - 1, Play) else (t, Stop)
  }

  // ---------------------------------------------------------------------------
  // Many cycles

  /** Runs one cycle per element of `script`, stopping at the first fault. */
  function Run(c: Cpu, plane: seq<bool>, script: seq<Inputs>): (o: Outcome)
    requires c.Valid() && |plane| == Engine.PlaneSize
    ensures o.Next? ==> o.cpu.Valid() && |o.plane| == Engine.PlaneSize
    decreases |script|
  {
    if script == [] then Next(c, plane)
    else
      match Exec(c, plane, script[0])
      case Crash(f) => Crash(f)
      case Next(c', plane') => Run(c', plane', script[1..])
  }
}
