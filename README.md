# zamorak CHIP-8 interpreter, modelled in Dafny

This project models the virtual machine of the zamorak CHIP-8 interpreter and the
parts of its ebiten runtime that the machine relies on.

**The machine.** Its state is:
- 4096 bytes of memory;
- sixteen 8-bit registers V0–VF, where VF doubles as the carry, borrow and collision flag;
- a 16-bit index register I and a 16-bit program counter;
- a 32-slot call stack whose top slot is `stackFrame`, with -1 meaning empty;
- a delay timer and a sound timer.

Each cycle of `Interpret` does three things:
1. It fetches the two bytes at pc.
2. It advances pc by 2.
3. It decodes the two bytes into `instr`, X, Y, N, NN and NNN and runs one instruction.

The display is a 64×32 plane of pixels, each white or black. The keypad maps sixteen
keyboard keys to the key values 0x0–0xF.

**The model has two layers.**
- **The specification (module `Semantics`).** A value `Cpu` holds the machine state. The
  function `Exec` gives the outcome of one cycle: either the next state and display, or
  a `Crash` naming the run-time panic the Go code would hit. The modelled panics are an
  out-of-range memory index, `stack[-1]` and `stack[32]`.
- **The implementation (module `Interpreter`).** The class `Chip8` has the machine's
  arrays and fields. Its methods update them in place, loop for loop as the Go code
  does, and each is proved to produce the state `Exec` prescribes.
  - The display is the class `Engine.Runtime`. It holds a row-major `array<bool>`, in
    which pixel (col, row) is at `row * 64 + col`.
  - Module `Properties` proves what the instructions guarantee, as lemmas about `Exec`.

**Go's fixed-width arithmetic is written out.** Bytes are integers in 0..255 and pc and I
are integers in 0..65535, with `%` applied wherever Go wraps. AND, OR and XOR go through
`bv8`.

**The source's own behaviour is kept, including these quirks:**
- FX29 loads I with a font *byte* (`FONT_SET[VX & 0xF]`), not the address of the glyph.
- 8XY7 stores VX − VY.
- 5XYN skips only when N = 0, while 9XYN ignores N.
- The 0x0 family looks only at Y = 0xE and then at N; X is ignored.
- In 8XY4, 8XY5, 8XY6, 8XY7 and 8XYE the flag is written before the result goes into
  VX. So with X = F the result overwrites the flag, and with Y = F the subtractions
  8XF5 and 8XF7 subtract the new flag.
- A clipped sprite row still reads a byte of memory but does not advance the read
  address.

**The outer `default` of the dispatch cannot be reached**, because every primary nibble
has a case. `Semantics.Dispatch` therefore has no such branch.

**The size check before loading.** The check at `pkg/interpreter/chip8.go:116`
compares the program's size with 4096, not with 4096 − 0x200, and only logs. Loading a
program that does not fit would panic, so the loader is modelled with the bound
4096 − 0x200 as its precondition (see Findings).

## Model

| member | source | states |
|---|---|---|
| Decoder.Decode | pkg/interpreter/chip8.go:137-143 | the nibbles are below 16, NN = Y·16 + N, NNN = X·256 + NN < 0x1000, and `instr·16 + X` and NN give back the two fetched bytes |
| Decoder.EncodeDecode | pkg/interpreter/chip8.go:137-143 | re-encoding the decoded fields gives back the two bytes |
| Decoder.DecodeEncode | pkg/interpreter/chip8.go:137-143 | any consistent set of fields is what its two bytes decode to |
| Decoder.DecodeInjective | pkg/interpreter/chip8.go:137-143 | distinct byte pairs decode to distinct instructions |
| Engine.KeyToByte | pkg/engine/runtime.go:120-158 | every key value is below 0x10, and a key outside the sixteen gives 0 |
| Engine.ByteToKey | pkg/engine/runtime.go:160-198 | the result is the zero key exactly when the value is above 0xF |
| Engine.ByteToKeyRoundTrip | pkg/engine/runtime.go:120-198 | for b ≤ 0xF, `keyToByte(ByteToKey(b)) == b` |
| Engine.KeyToByteRoundTrip | pkg/engine/runtime.go:120-198 | each of the sixteen keys survives the trip to its key value and back |
| Engine.ByteToKeyInjective | pkg/engine/runtime.go:160-198 | `ByteToKey` is injective on 0x0–0xF |
| Engine.KeyToByteNotInjective | pkg/engine/runtime.go:120-158 | an unlisted key gets the same value, 0, as `KeyDigit1` |
| Engine.Runtime.IsPixelSet | pkg/engine/runtime.go:76-81 | a pixel is white only inside the 64×32 plane, and there it is the stored pixel |
| Engine.Runtime.Set | pkg/engine/runtime.go:83-89 | afterwards the pixel reads as `on`, and every other pixel is unchanged; outside the plane nothing changes |
| Engine.Runtime.ClearScreen | pkg/engine/runtime.go:91-97 | afterwards no pixel is set |
| Engine.Runtime.constructor | pkg/engine/runtime.go:30-61 | the new image is 64×32 and blank |
| Interpreter.Chip8.constructor | pkg/interpreter/chip8.go:70-84 | the new machine is `Semantics.Initial()`: pc 0x200, stackFrame -1, everything else zero |
| Interpreter.Chip8.Load | pkg/interpreter/chip8.go:120-126 | memory becomes `Loaded`: the font copied to 0x50, the program to 0x200, all else kept |
| Interpreter.Chip8.CopyIn | pkg/interpreter/chip8.go:120-126 | one loading loop puts `src` at `at`, `at + 1`, … and leaves every other byte as it was |
| Semantics.LoadedAt | pkg/interpreter/chip8.go:120-126 | byte a of loaded memory is the font byte, the program byte or the old byte, according to where a lies |
| Properties.BootLayout | pkg/interpreter/chip8.go:70-126 | after construction and loading: pc = 0x200, stackFrame = -1, font at 0x50, program at 0x200; every other byte, register, stack slot, I and both timers are zero |
| Properties.OversizeCheckMissesOverflow | pkg/interpreter/chip8.go:115-118 | a program one byte longer than the space above 0x200 neither triggers the check nor fits |
| Semantics.Initial | pkg/interpreter/chip8.go:70-84 | the state `NewChip8` creates is well-formed, with an empty stack (stackFrame -1) and pc at 0x200 |
| Semantics.OversizeWarned | pkg/interpreter/chip8.go:116 | the size check as written; whenever it fires, the program indeed does not fit above 0x200 (the converse fails, see Findings) |
| Semantics.Loaded | pkg/interpreter/chip8.go:120-126 | loaded memory is 4096 bytes long, holds the font at 0x50..0x9F and the program from 0x200 on |
| Semantics.Boot | pkg/interpreter/chip8.go:70-126 | the state the first cycle starts from is well-formed and differs from `Initial()` only in memory |
| Interpreter.Chip8.Step | pkg/interpreter/chip8.go:128-133 | one fetch, advance and dispatch leaves the machine and the display as `Exec` prescribes, or reports its fault |
| Semantics.Exec | pkg/interpreter/chip8.go:128-133 | the cycle faults with `PcOutOfRange` exactly when pc + 1 is past memory; otherwise the state stays well-formed |
| Semantics.Dispatch | pkg/interpreter/chip8.go:155-446 | every instruction leaves a well-formed state and a 64×32 display, and none faults on fetching |
| Semantics.System | pkg/interpreter/chip8.go:156-172 | the 0x0 family keeps the state well-formed, and its only fault is a return on an empty stack |
| Semantics.Arithmetic | pkg/interpreter/chip8.go:221-308 | the 8XYN family changes nothing but the registers, and never faults |
| Semantics.KeySkip | pkg/interpreter/chip8.go:368-384 | the EX family either leaves the state as it is or skips, advancing pc by 2 and nothing else |
| Semantics.Misc | pkg/interpreter/chip8.go:385-443 | the FX family never touches the display, and its only fault is a memory access past 0xFFF |
| Semantics.Draw | pkg/interpreter/chip8.go:329-367 | DXYN keeps the state well-formed and the display 64×32, and its only fault is a memory read past 0xFFF |
| Semantics.DrawFaults | pkg/interpreter/chip8.go:338-366 | when the draw does not fault, every visible sprite row lies inside memory |
| Semantics.SpriteRows | pkg/interpreter/chip8.go:338-366 | the rows drawn are the `min(N, 32 − yc)` bytes from I on, one per visible line |
| Properties.DrawnKeepsOutside | pkg/interpreter/chip8.go:338-366 | a pixel outside the sprite's 8 columns and visible rows keeps its value |
| Properties.CollidesIffPixelCleared | pkg/interpreter/chip8.go:353-357 | the collision test holds exactly when some lit pixel is turned dark by the draw |
| Interpreter.Chip8.Execute | pkg/interpreter/chip8.go:155-446 | every instruction changes the machine and the display as `Dispatch` prescribes |
| Interpreter.Chip8.ExecSystem | pkg/interpreter/chip8.go:156-172 | 00E0 clears the display, 00EE pops the top frame into pc, and every other Y or N does nothing |
| Interpreter.Chip8.ExecArithmetic | pkg/interpreter/chip8.go:221-308 | the 8XYN family writes the registers `Arithmetic` prescribes and nothing else |
| Interpreter.Chip8.ExecMisc | pkg/interpreter/chip8.go:385-443 | the FX family changes the machine as `Misc` prescribes |
| Interpreter.Chip8.StoreLoop | pkg/interpreter/chip8.go:431-435 | memory from I on holds V0..VX, I advances by X + 1, and nothing else changes |
| Interpreter.Chip8.LoadLoop | pkg/interpreter/chip8.go:439-442 | V0..VX hold memory from I on, and I advances by X + 1 |
| Interpreter.Chip8.ExecDraw | pkg/interpreter/chip8.go:329-367 | the display becomes `Drawn` and VF records `Collides`, or the draw faults on a memory read past the end |
| Interpreter.Chip8.DrawRow | pkg/interpreter/chip8.go:347-365 | one sprite row XORs its set bits into the display and raises VF on each lit pixel it turns off |
| Properties.ExecByFamily | pkg/interpreter/chip8.go:128-155 | a cycle advances pc by 2, then hands DXYN to `Draw` and every FX instruction to `Misc` (the FX, DXYN lemmas below are stated on the machine after this advance) |
| Properties.UnmatchedOnlyAdvancesPc | pkg/interpreter/chip8.go:128-446 | a sub-opcode no case matches (0x0 with Y ≠ E or N ∉ {0, E}; 8XYN with N ∉ 0–7, E; EX with NN ∉ {9E, A1}; FX outside the nine handled NN) changes nothing but pc += 2 |
| Properties.StraightLineAdvancesPc | pkg/interpreter/chip8.go:131-133 | instructions that neither jump nor skip leave pc two bytes on |
| Properties.RegisterSkips | pkg/interpreter/chip8.go:202-314 | 5XYN skips iff N = 0 and VX = VY; 9XYN skips iff VX ≠ VY, whatever N is |
| Properties.CallPushes | pkg/interpreter/chip8.go:177-185 | 2NNN pushes the advanced pc at stackFrame + 1 and jumps to NNN; with the stack full it faults |
| Properties.ReturnPops | pkg/interpreter/chip8.go:164-166 | 00EE restores pc from the top slot and drops the frame; on an empty stack it faults |
| Properties.CallThenReturn | pkg/interpreter/chip8.go:164-185 | a return that finds the frame a call pushed resumes at the call's address + 2, with the caller's stack pointer |
| Properties.CallReturnRoundTrip | pkg/interpreter/chip8.go:164-185 | calling a subroutine that is a bare 00EE comes back, two cycles later, to the call's address + 2 with the stack pointer restored |
| Properties.AddCarry | pkg/interpreter/chip8.go:238-249 | for X ≠ F, 8XY4 sets VF = 1 iff VX + VY > 255, VX to the sum mod 256, and keeps the other registers |
| Properties.SubtractBorrow | pkg/interpreter/chip8.go:250-259 | for X, Y ≠ F, 8XY5 sets VF = 1 iff VX > VY and VX to (VX − VY) mod 256 |
| Properties.SubtractReversedKeepsOperandOrder | pkg/interpreter/chip8.go:284-295 | for X, Y ≠ F, 8XY7 sets VF = 1 iff VY > VX, yet stores (VX − VY) mod 256 |
| Properties.SubtractReversedReadsNewFlag | pkg/interpreter/chip8.go:284-295 | 8XF7 sets VF = 1 iff the old VF > VX, then stores VX minus the new VF, mod 256 |
| Properties.SubtractReadsNewFlag | pkg/interpreter/chip8.go:250-259 | 8XF5 subtracts the freshly written flag, not the old VF |
| Properties.ResultOverwritesFlag | pkg/interpreter/chip8.go:238-307 | with X = F the result overwrites the flag: 8FY4 leaves the sum, 8FY6 leaves 0, 8FYE leaves 2 · (VY's top bit), and for Y ≠ F 8FY5 and 8FY7 leave the new flag minus VY, mod 256 |
| Properties.Shifts | pkg/interpreter/chip8.go:260-308 | 8XY6 puts the low bit of VX in VF and halves VX; 8XYE puts the high bit of VY in VF and doubles VY mod 256 into VX |
| Properties.RandomIsMasked | pkg/interpreter/chip8.go:323-326 | CXNN leaves no bit set in VX outside NN |
| Bytes.AndKeepsMaskBits | pkg/interpreter/chip8.go:325 | a byte ANDed with a mask has no bit outside the mask |
| Properties.DecimalDigits | pkg/interpreter/chip8.go:425-427 | the hundreds, tens and units of a byte, recombined, give the byte |
| Properties.BcdWrites | pkg/interpreter/chip8.go:425-427 | the three digit writes leave digits below 10 that spell the value, and the rest of memory untouched |
| Properties.BcdDigits | pkg/interpreter/chip8.go:418-427 | FX33 faults iff I + 2 is past memory; otherwise it writes three decimal digits of VX at I..I+2 and changes nothing else (registers, I and the rest of memory kept) |
| Properties.StoreRegistersAt | pkg/interpreter/chip8.go:431-434 | after storing V0..VX at I, byte a is `V[a − I]` inside the range and unchanged outside |
| Properties.LoadRegistersAt | pkg/interpreter/chip8.go:439-442 | after loading, register j ≤ X is `memory[I + j]` and the others are unchanged |
| Properties.StoreRegistersStep | pkg/interpreter/chip8.go:428-435 | FX55 faults iff I + X is past memory; otherwise it sets memory[I + i] = V[i] for i ≤ X, keeps the rest of memory and the registers, and sets I to I + X + 1 |
| Properties.LoadRegistersStep | pkg/interpreter/chip8.go:436-442 | FX65 faults iff I + X is past memory; otherwise it sets V[i] = memory[I + i] for i ≤ X, keeps the registers above X and all memory, and sets I to I + X + 1 |
| Properties.StoreThenLoad | pkg/interpreter/chip8.go:428-442 | FX65 after FX55 from the same address gives back V0..VX |
| Properties.FontIndexQuirk | pkg/interpreter/chip8.go:412-417 | FX29 sets I to FONT_SET[VX & 0xF], which never equals the glyph address 0x50 + 5·digit |
| Properties.FontBytesAreNotAddresses | pkg/interpreter/chip8.go:29-46 | none of the first sixteen font bytes is the start address of the glyph with its index |
| Properties.WaitStoresKey | pkg/interpreter/chip8.go:393-399 | FX0A stores the key value of the key received, which is at most 0xF |
| Properties.KeySkips | pkg/interpreter/chip8.go:368-384 | EX9E skips iff the key for VX is down; EXA1 skips iff it is up |
| Properties.HitIsSpriteBit | pkg/interpreter/chip8.go:338-360 | inside the plane, the clipped rows fetched for drawing give the same hit test as the sprite bits read straight from memory |
| Properties.DrawFlipsSpriteBits | pkg/interpreter/chip8.go:329-367 | the draw faults iff a sprite byte it reads lies past memory; otherwise VF ends 0 or 1; a pixel changes exactly when the sprite at (VX mod 64, VY mod 32), clipped to the plane, has its bit set (MSB first); VF = 1 exactly when such a pixel was lit; nothing else changes |
| Properties.DrawnTwice | pkg/interpreter/chip8.go:353-360 | XORing the same sprite twice gives back the display |
| Properties.DrawTwiceRestores | pkg/interpreter/chip8.go:329-367 | executing the same DXYN twice (X, Y ≠ F) restores the display |
| Properties.DrawOnBlank | pkg/interpreter/chip8.go:329-367 | a sprite drawn on a blank display never collides; drawn again, it collides iff it has a visible set bit |
| Semantics.DelayTick | pkg/interpreter/chip8.go:90-92 | a tick lowers the delay timer by exactly one, except at zero, where it stays |
| Semantics.SoundTick | pkg/interpreter/chip8.go:100-106 | a tick lowers the sound timer by exactly one except at zero, and the command is Play exactly when the timer was non-zero |
| Interpreter.Chip8.TickDelay | pkg/interpreter/chip8.go:86-94 | one tick lowers a non-zero delay timer by one and changes nothing else |
| Interpreter.Chip8.TickSound | pkg/interpreter/chip8.go:96-109 | one tick lowers a non-zero sound timer and says Play, or says Stop at zero |
| Properties.DelaySettles | pkg/interpreter/chip8.go:86-94 | after n ticks the delay timer is max(t − n, 0) |
| Properties.SoundPlaysWhileNonZero | pkg/interpreter/chip8.go:96-109 | over n ticks the tone is commanded on exactly min(t, n) times, and the timer ends at max(t − n, 0) |
| Semantics.Run | pkg/interpreter/chip8.go:128-449 | running a script of cycles keeps the state well-formed and the display 64×32 |
| Properties.RunAppend | pkg/interpreter/chip8.go:128-449 | running two scripts in turn is running their concatenation: the second starts where the first ended, and a fault ends the run |
| Interpreter.Chip8.Interpret | pkg/interpreter/chip8.go:111-449 | loading and then one cycle per script entry gives the state `Run` prescribes, stopping at the first fault |

## Left out

- Concurrency and timing are not modelled: the two timer goroutines, `time.Sleep` and the
  1300 µs pacing. A timer tick is a method of its own (`TickDelay`, `TickSound`) that the
  caller interleaves with `Step` as it likes. `TIMER_TICK` is 0 in the source.
- Interpreter.Chip8.Interpret: the endless loop runs one cycle per entry of a finite
  `script` of inputs. It stops at the first fault, where Go would panic. The timer
  goroutines that Go starts before the loop (`pkg/interpreter/chip8.go:112-113`) do not
  run within `Run` or `Interpret`: no timer ticks between cycles, so inside a run the
  delay timer changes only through FX15, and a program that polls FX07 until it reads 0
  never leaves its loop in the model. A caller that wants ticks interleaves `TickDelay`
  and `TickSound` with `Step`.
- FX0A's blocking wait on the `WaitKeyPress` goroutine and channel is not modelled. The
  key that arrives is the input `Inputs.waited`. A wait that never ends is not modelled:
  `WaitKeyPress` (`pkg/engine/runtime.go:113-118`) sends only the keys already held when
  it runs, so with no key held the receive at `pkg/interpreter/chip8.go:397` never
  completes.
- `ebiten.IsKeyPressed` is the input predicate `Inputs.pressed`. `rand.Intn(256)` is the
  input byte `Inputs.random`.
- Engine.ByteToKey: the library's zero `ebiten.Key` is represented by `KeyOther`, a key
  outside the sixteen. Which physical key that zero value is belongs to the ebiten
  library, which is not part of this model. If it is one of the sixteen, EX9E and EXA1
  with VX > 0xF would test that key.
- Partial writes before a panic are not modelled. When FX55, FX65 or DXYN would index
  past memory part way through their loop, the Go code has already written some bytes
  (or registers, or pixels) when it panics. FX33 with I = 4094 writes memory[I] and
  memory[I + 1] before memory[I + 2] panics, and 2NNN with a full stack increments
  `stackFrame` before `stack[32]` panics. The model checks the fault first and reports
  it with the state unchanged. FX65's read loop advances I one step at a time, so a
  panic there also leaves I partly advanced.
- Logging, `fmt.Printf`, `pkg/logger/logger.go`, audio playback, the window, and the
  ebiten `Update`, `Draw` and `Layout` callbacks are not modelled. The `Audio` value
  `TickSound` returns stands for the `PlayAudio` and `StopAudio` calls.
- `NewRuntime` is modelled only as a fresh blank 64×32 image. The WAV decoding and the
  audio context are left out.
- `cmd/run.go` (argument handling and file reading) and `main.go` (an earlier prototype
  of the same interpreter) are not part of this model.
- Colours are booleans. `IsPixelSet` compares with `colorWhite`, `ClearScreen` paints
  `color.Black`, and both black values count as "not set".

## Findings

| source | as written | input that shows it | evidently intended | confidence | as-written member | corrected member |
|---|---|---|---|---|---|---|
| pkg/interpreter/chip8.go:115-118 | the program size is compared with the whole memory (4096), although the program is loaded at 0x200 | a program of 3585 bytes passes the check, and the copy loop then indexes memory[4096] and panics | reject (or at least report) programs longer than 4096 − 0x200 = 3584 bytes | not executed | Properties.OversizeCheckMissesOverflow (on Semantics.OversizeWarned) | Semantics.Fits, the precondition of Interpreter.Chip8.Load, under which Properties.BootLayout proves every program byte lands at 0x200 + i |
