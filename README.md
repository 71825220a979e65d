# CHIP-8 interpreter core of Chip8Emulator, in Dafny

This project models the interpreter in `Chip8Emulator/CPU.cs` and proves
properties of the model. The modelled parts are:

- 4 KB of byte memory;
- sixteen registers V0..VF, which are C# `int`s;
- the index register I, the program counter and the call stack;
- the delay and sound timers;
- the `paused` flag, `speed` and the list of recorded pixels (`vectors`);
- the two keyboard tables.

The model has three layers.

- **Words** holds C#'s `int` arithmetic:
  - two's-complement wrap-around of `+`, `-` and `*`, written out with `Wrap32`;
  - `&`, `|` and `^` on the bit pattern;
  - division and remainder that truncate toward zero;
  - `Convert.ToByte`, which throws outside 0..255.
- **Chip8** is a value-level state machine:
  - `State` holds the CPU fields;
  - `Exec` is `ExecuteInstruction`; `Step` is one pass of Cycle's `for` loop;
  - `Run` covers the passes; `Frame` is one iteration of Cycle's `while` loop, without the window calls;
  - a thrown exception is a `Fault` (`StackEmpty`, `IndexOutOfRange`, `Overflow`, `KeyNotFound`).
- **Emulator.Cpu** is a class with the object's own fields:
  - `memory` and `v` are arrays that its methods update in place;
  - every instruction and Cycle method (ExecuteInstruction and its parts, the passes and the frame) and UpdateTimers is proved to change the object exactly as the matching Chip8 function changes `Snapshot()`;
  - SetPixel, SetKey and the two loaders are stated on the fields they modify, and IsKeyPressed on the key-state table.

Four modules state what the code promises, as lemmas about the model:

- **Instructions** covers single instructions;
- **Drawing** compares Dxyn with a reference built from the bits of the sprite bytes;
- **Frames** covers the `speed` loop, pausing and the timers;
- **Keys** covers the key tables.

The model keeps the code's behaviour where it differs from the usual CHIP-8 conventions:

- Registers, I and the jump targets are never masked. 7xnn, 8xy4, 8xyE, Fx1E and Bnnn can leave values above 0xFF or 0xFFF.
- 8xy0 copies V[x] into V[y].
- 8xy6 only sets VF := V[x] & 1 and does not shift.
- 8xyE sets VF := V[x] & 0x80, which is 0 or 0x80.
- 8xy5 and 8xy7 compare with a strict `>`. They write VF before the subtraction.
- Dxyn sets VF to 1 for each set bit it draws. It does not detect collisions.
- SetPixel wraps a coordinate by one screen width or height. It wraps only when the coordinate is greater than 64 (32) or below 0, so 64 and 32 stay as they are.
- 00E0 clears the window but not `vectors`.
- Fx0A sets `paused`, and nothing clears it again. A paused machine executes nothing more and its timers stop.
- The call stack is unbounded.
- The program loader writes byte by byte. A program too long for memory throws after the bytes that fit have been written.
- Unlisted sub-opcodes of families 0, 8, E and F do nothing beyond `pc += 2`. The `default` branch of the outer switch cannot be reached.

## Model

| member | source | states |
|---|---|---|
| Words.Wrap32 | Chip8Emulator/CPU.cs:25-32 | an int32 in range is unchanged; otherwise the result differs from the mathematical value by a multiple of 2^32 (C# unchecked `int` arithmetic) |
| Words.Add32 | Chip8Emulator/CPU.cs:330 | C# unchecked `+` on `int`: the sum itself when it fits in an int32, otherwise an int32 congruent to it modulo 2^32 |
| Words.Sub32 | Chip8Emulator/CPU.cs:373 | C# unchecked `-` on `int`: the difference itself when it fits, otherwise congruent to it modulo 2^32 |
| Words.Mul32 | Chip8Emulator/CPU.cs:498 | C# unchecked `*` on `int`: the product itself when it fits, otherwise congruent to it modulo 2^32 |
| Words.And32 | Chip8Emulator/CPU.cs:426 | no contract; C# `&` on `int`, whose meaning bit by bit Words.And32Bits states |
| Words.Or32 | Chip8Emulator/CPU.cs:341 | no contract; C# `\|` on `int`, whose meaning bit by bit Words.Or32Bits states |
| Words.Xor32 | Chip8Emulator/CPU.cs:349 | no contract; C# `^` on `int`, whose meaning bit by bit Words.Xor32Bits states |
| Words.AndMask | Chip8Emulator/CPU.cs:426 | `r & nn` with a non-negative mask lies between 0 and the mask |
| Words.AndOne | Chip8Emulator/CPU.cs:377 | `V & 1` is the lowest bit of V's two's-complement pattern, 0 or 1 |
| Words.AndBit7 | Chip8Emulator/CPU.cs:392 | `V & 0x80` is 0x80 when bit 7 of V's pattern is set and 0 when not |
| Words.ShiftOrBytes | Chip8Emulator/CPU.cs:215 | `hi << 8 \| lo` on two bytes is hi * 256 + lo, the big-endian opcode |
| Words.AndBitsBit | Chip8Emulator/CPU.cs:344-345 | bit k of a AND b is set exactly when bit k is set in both, for every k |
| Words.OrBitsBit | Chip8Emulator/CPU.cs:340-341 | bit k of a OR b is set exactly when bit k is set in either, for every k |
| Words.XorBitsBit | Chip8Emulator/CPU.cs:348-349 | bit k of a XOR b is set exactly when bit k is set in one and not the other, for every k |
| Words.OrXorBelow | Chip8Emulator/CPU.cs:340-351 | OR and XOR of two numbers below 2^n are below 2^n, so 32-bit patterns stay 32-bit |
| Words.UnsignedWrap | Chip8Emulator/CPU.cs:340-351 | a 32-bit pattern read back as a C# `int` has that pattern again |
| Words.And32Bits | Chip8Emulator/CPU.cs:344-345 | C# `&` on `int` acts bit by bit on the two's-complement patterns |
| Words.Or32Bits | Chip8Emulator/CPU.cs:340-341 | C# `\|` on `int` acts bit by bit on the two's-complement patterns |
| Words.Xor32Bits | Chip8Emulator/CPU.cs:348-349 | C# `^` on `int` acts bit by bit on the two's-complement patterns |
| Words.AndLowMask | Chip8Emulator/CPU.cs:276-279 | AND with 2^n - 1 is the remainder modulo 2^n |
| Words.AndFieldMask | Chip8Emulator/CPU.cs:276-279 | AND with w one-bits from bit s keeps the w-bit field at s in place |
| Words.Quot | Chip8Emulator/CPU.cs:502-506 | C# `/` truncates toward zero: what is left over, a - b * q, has the dividend's sign and is smaller in size than the divisor |
| Words.Rem | Chip8Emulator/CPU.cs:504-506 | C# `%`: dividend = divisor * quotient + remainder, the remainder taking the dividend's sign and smaller than the divisor |
| Words.ToByte | Chip8Emulator/CPU.cs:502-513 | `Convert.ToByte` succeeds exactly on 0..255 and then keeps the value |
| Chip8.ReleasedKeys | Chip8Emulator/CPU.cs:69-87 | the initial key-state table has exactly the codes 0..F, all released |
| Chip8.Initial | Chip8Emulator/CPU.cs:19-32 | a fresh CPU: zeroed memory and registers, I = 0, pc = 0x200, empty stack, both timers 0, not paused, speed 10, no pixels, and the key-state table with the codes 0..F all released |
| Chip8.CopyProgram | Chip8Emulator/CPU.cs:198-201 | program byte k is at 0x200 + k for every k that fits below 4096; addresses below 0x200 and past the program are unchanged |
| Chip8.WrapCoord | Chip8Emulator/CPU.cs:113-136 | exactly one wrap step: c above limit becomes c - limit, c below 0 becomes c + limit, c in 0..limit is kept; so any c in -limit..2*limit lands in 0..limit, and farther values stay off screen |
| Chip8.WrapPixel | Chip8Emulator/CPU.cs:113-134 | a pixel inside 0..64 x 0..32 is kept as it is; one within a screen size of that area lands inside it, each coordinate by WrapCoord's single step |
| Chip8.Fetch | Chip8Emulator/CPU.cs:215 | fetching fails, with IndexOutOfRange, exactly when pc or pc + 1 is outside memory |
| Chip8.Family | Chip8Emulator/CPU.cs:279 | the family is a hex digit; the outer switch value `opcode & 0xF000` is 0x1000 times it (Instructions.MaskFields) |
| Chip8.RegX | Chip8Emulator/CPU.cs:276 | `(opcode & 0x0F00) >> 8` names one of the 16 registers |
| Chip8.RegY | Chip8Emulator/CPU.cs:277 | `(opcode & 0x00F0) >> 4` names one of the 16 registers |
| Chip8.Nibble | Chip8Emulator/CPU.cs:334 | `opcode & 0xF` is a hex digit |
| Chip8.Address | Chip8Emulator/CPU.cs:296 | `opcode & 0xFFF` lies in 0..0xFFF |
| Chip8.AddRegs | Chip8Emulator/CPU.cs:352-364 | 8xy4 keeps the 16 registers (its effect is stated by Instructions.AddFlag) |
| Chip8.SubRegs | Chip8Emulator/CPU.cs:365-375 | 8xy5 keeps the 16 registers (its effect is stated by Instructions.SubFlag) |
| Chip8.SubnRegs | Chip8Emulator/CPU.cs:380-390 | 8xy7 keeps the 16 registers (its effect is stated by Instructions.SubnFlag) |
| Chip8.ShlRegs | Chip8Emulator/CPU.cs:391-395 | 8xyE keeps the 16 registers (its effect is stated by Instructions.ShiftLeftFlag) |
| Chip8.Byte | Chip8Emulator/CPU.cs:305 | no contract beyond its result type, a byte; Instructions.MaskFields proves it is `opcode & 0xFF` and Instructions.DecodeFields that it is y and n |
| Chip8.SkipIf | Chip8Emulator/CPU.cs:303-322 | only pc may change, and it advances by 2, with wrap, exactly when the condition holds |
| Chip8.Alu | Chip8Emulator/CPU.cs:334-397 | every 8xyk, unmatched k included, leaves 16 registers (the effect of each k is stated by the Instructions lemmas on 8xyk) |
| Chip8.DrawCols | Chip8Emulator/CPU.cs:439-448 | the column loop keeps 16 registers (Drawing.DrawColsPixels states its effect) |
| Chip8.DrawRows | Chip8Emulator/CPU.cs:435-449 | the row loop fails only with IndexOutOfRange (Drawing.DrawRowsPixels states when and what it draws) |
| Chip8.Draw | Chip8Emulator/CPU.cs:429-451 | Dxyn changes only the registers and the recorded pixels |
| Chip8.StoreBcd | Chip8Emulator/CPU.cs:501-509 | Fx33 changes only memory (Instructions.Bcd states what it writes and when it throws) |
| Chip8.StoreRegisters | Chip8Emulator/CPU.cs:510-516 | the Fx55 loop changes only memory (Instructions.StoreFrom states what it writes) |
| Chip8.LoadRegisters | Chip8Emulator/CPU.cs:517-523 | the Fx65 loop changes only registers (Instructions.LoadFrom states what it loads) |
| Chip8.Misc | Chip8Emulator/CPU.cs:472-526 | an Fxnn keeps the key table and speed, sets `paused` exactly for Fx0A, and touches the delay (sound) timer only for Fx15 (Fx18) |
| Chip8.ExecLow | Chip8Emulator/CPU.cs:281-332 | families 0..7 change only registers, pc and stack, and can fail only by popping an empty stack |
| Chip8.ExecHigh | Chip8Emulator/CPU.cs:333-531 | families 8..F keep the key table and speed, set `paused` exactly for Fx0A and leave the timers alone unless the opcode is Fx15 or Fx18 |
| Chip8.Exec | Chip8Emulator/CPU.cs:273-531 | ExecuteInstruction keeps the key table and speed, pauses exactly on Fx0A and writes the timers only for Fx15 and Fx18 |
| Chip8.Step | Chip8Emulator/CPU.cs:213-218 | a pass keeps speed and the key table, and does nothing at all when paused |
| Chip8.Run | Chip8Emulator/CPU.cs:211-219 | the passes keep `speed` |
| Chip8.Trace | Chip8Emulator/CPU.cs:211-219 | the passes k..n-1 execute at most n - k instructions, at most one per pass |
| Chip8.Passes | Chip8Emulator/CPU.cs:211 | no contract; the number of rounds of `for (int i = 0; i < speed; i++)`, used by Frame, which Frames.FrameInstructions bounds the executed instructions by |
| Chip8.Tick | Chip8Emulator/CPU.cs:244-254 | a positive timer drops by one, any other value is kept, and a non-negative timer stays non-negative |
| Chip8.UpdateTimers | Chip8Emulator/CPU.cs:244-257 | a positive delay or sound timer drops by one, one at zero or below keeps its value, and every other part of the state is unchanged |
| Chip8.Frame | Chip8Emulator/CPU.cs:208-224 | a frame keeps the state well formed (Frames states its properties) |
| Emulator.Cpu.constructor | Chip8Emulator/CPU.cs:19-32 | a new CPU object is in the initial state, with fresh memory and register arrays |
| Chip8.SoundOn | Chip8Emulator/CPU.cs:258-268 | no contract; the `soundTimer > 0` test by which PlaySound starts the speaker |
| Chip8.KeyDown | Chip8Emulator/CPU.cs:91-94 | a code reads as pressed only when the key-state table has it, and then exactly as its entry says; an unbound code reads as released, FirstOrDefault's default |
| Emulator.Cpu.IsKeyPressed | Chip8Emulator/CPU.cs:91-94 | a code is pressed exactly when the key-state table has it and it is true; codes outside the table read as released (FirstOrDefault's default) |
| Emulator.Cpu.SetKey | Chip8Emulator/CPU.cs:96-109 | a bound key sets its code's entry to pressed or released and nothing else; an unbound key throws KeyNotFound and changes nothing |
| Emulator.Cpu.SetPixel | Chip8Emulator/CPU.cs:113-146 | exactly one pixel is appended to `vectors`, the wrapped coordinates |
| Emulator.Cpu.LoadSpritesToMemory | Chip8Emulator/CPU.cs:165-189 | addresses 0..79 hold the font; the rest of memory is unchanged |
| Emulator.Cpu.LoadProgramIntoMemory | Chip8Emulator/CPU.cs:194-204 | memory becomes CopyProgram of the old memory; it throws IndexOutOfRange exactly when the program is longer than 4096 - 0x200 bytes |
| Emulator.Cpu.UpdateTimers | Chip8Emulator/CPU.cs:244-257 | each timer becomes Tick of its old value |
| Emulator.Cpu.AddRegisters | Chip8Emulator/CPU.cs:352-364 | the register array becomes AddRegs of the old one |
| Emulator.Cpu.SubRegisters | Chip8Emulator/CPU.cs:365-375 | the register array becomes SubRegs of the old one |
| Emulator.Cpu.SubnRegisters | Chip8Emulator/CPU.cs:380-390 | the register array becomes SubnRegs of the old one |
| Emulator.Cpu.ShlRegisters | Chip8Emulator/CPU.cs:391-395 | the register array becomes ShlRegs of the old one |
| Emulator.Cpu.ExecuteAlu | Chip8Emulator/CPU.cs:334-397 | the register array becomes Alu of the old one |
| Emulator.Cpu.DrawRow | Chip8Emulator/CPU.cs:437-448 | registers and pixels become DrawCols of the old ones for the row's byte |
| Emulator.Cpu.DrawSprite | Chip8Emulator/CPU.cs:429-451 | outcome and new state are Draw of the old state |
| Emulator.Cpu.StoreBcd | Chip8Emulator/CPU.cs:501-509 | outcome and new state are Chip8.StoreBcd of the old state |
| Emulator.Cpu.StoreRegisters | Chip8Emulator/CPU.cs:510-516 | outcome and new state are Chip8.StoreRegisters of the old state |
| Emulator.Cpu.LoadRegisters | Chip8Emulator/CPU.cs:517-523 | outcome and new state are Chip8.LoadRegisters of the old state |
| Emulator.Cpu.ExecuteMisc | Chip8Emulator/CPU.cs:472-526 | outcome and new state are Misc of the old state |
| Emulator.Cpu.ExecuteLow | Chip8Emulator/CPU.cs:281-332 | outcome and new state are ExecLow of the old state |
| Emulator.Cpu.ExecuteHigh | Chip8Emulator/CPU.cs:333-531 | outcome and new state are ExecHigh of the old state |
| Emulator.Cpu.ExecuteInstruction | Chip8Emulator/CPU.cs:273-531 | outcome and new state are Exec of the old state |
| Emulator.Cpu.CyclePass | Chip8Emulator/CPU.cs:213-218 | computes the opcode as `memory[pc] << 8 \| memory[pc + 1]`; outcome and new state are Step of the old state |
| Emulator.Cpu.RunPasses | Chip8Emulator/CPU.cs:211-219 | outcome and new state are Run of the old state |
| Emulator.Cpu.Cycle | Chip8Emulator/CPU.cs:208-224 | outcome and new state are Frame of the old state |
| Instructions.DecodeFields | Chip8Emulator/CPU.cs:276-279 | family, x, y and the last digit reassemble the opcode; nn is y and n, nnn is x and nn |
| Instructions.MaskFields | Chip8Emulator/CPU.cs:276-296 | the source's masks `& 0xF000`, `& 0x0F00`, `& 0x00F0` give the family, x and y in place; `& 0xF`, `& 0xFF`, `& 0xFFF` give n, nn and nnn |
| Instructions.CallThenReturn | Chip8Emulator/CPU.cs:288-303 | 2nnn pushes pc + 2 and jumps to nnn; a 00EE next restores the state as if only `pc += 2` had run |
| Instructions.ReturnOnEmptyStack | Chip8Emulator/CPU.cs:288-289 | 00EE on an empty stack throws (Stack.Pop) |
| Instructions.Skip | Chip8Emulator/CPU.cs:304-324 | 3xnn, 4xnn, 5xy0 and 9xy0 add 2 more to pc exactly when their condition holds and change nothing else |
| Instructions.KeySkip | Chip8Emulator/CPU.cs:452-471 | Ex9E skips exactly when the key V[x] is down, ExA1 exactly when it is not; a V[x] outside 0..F makes ExA1 skip |
| Instructions.NoEffectInstructions | Chip8Emulator/CPU.cs:281-294 | 00E0 and every unlisted sub-opcode of families 0, 8, E and F only advance pc by 2 |
| Instructions.Jumps | Chip8Emulator/CPU.cs:295-298 | 1nnn sets pc to nnn; Bnnn sets pc to nnn + V0, unmasked |
| Instructions.LoadAndAddImmediate | Chip8Emulator/CPU.cs:325-332 | 6xnn sets V[x] to nn; 7xnn adds nn unmasked and leaves VF; no other register changes |
| Instructions.CopyGoesToY | Chip8Emulator/CPU.cs:336-339 | 8xy0 writes V[x] into V[y] and nothing else |
| Instructions.BitwiseOps | Chip8Emulator/CPU.cs:340-351 | 8xy1, 8xy2, 8xy3 change only V[x] (VF only when x is VF), and each bit of its new pattern is the OR, AND or XOR of that bit of V[x] and V[y] |
| Instructions.AddFlag | Chip8Emulator/CPU.cs:352-364 | 8xy4: V[x] is the sum, VF is 1 exactly when the sum exceeds 0xFF, other registers unchanged |
| Instructions.SubFlag | Chip8Emulator/CPU.cs:365-375 | 8xy5: VF is 1 exactly when V[x] > V[y]; V[x] becomes V[x] - V[y] |
| Instructions.SubnFlag | Chip8Emulator/CPU.cs:380-390 | 8xy7: VF is 1 exactly when V[y] > V[x]; V[x] becomes V[y] - V[x] |
| Instructions.LowBit | Chip8Emulator/CPU.cs:377 | the lowest pattern bit of an int32 is its remainder modulo 2 |
| Instructions.ShiftRightFlag | Chip8Emulator/CPU.cs:376-379 | 8xy6 only sets VF to V[x] mod 2 |
| Instructions.ShiftLeftFlag | Chip8Emulator/CPU.cs:391-395 | 8xyE: VF is 0x80 or 0 by bit 7 of V[x]; V[x] doubles unmasked; others unchanged |
| Instructions.ShiftLeftOfFF | Chip8Emulator/CPU.cs:391-395 | 8xyE on 0xFF gives VF = 0x80 and V[x] = 0x1FE |
| Instructions.SetIndex | Chip8Emulator/CPU.cs:407-410 | Annn sets I to nnn |
| Instructions.RandomMasked | Chip8Emulator/CPU.cs:415-428 | Cxnn sets only V[x], and bit k of its new pattern is set exactly when bit k is set in both the random number and nn; so the value lies within 0..nn and is at most the random number when that is non-negative |
| Instructions.FontAddress | Chip8Emulator/CPU.cs:497-500 | Fx29 sets I to V[x] * 5, the start of digit V[x]'s glyph within the font |
| Instructions.AddToIndex | Chip8Emulator/CPU.cs:493-496 | Fx1E adds V[x] to I, unmasked |
| Instructions.TimerTransfers | Chip8Emulator/CPU.cs:475-492 | Fx07 copies the delay timer to V[x]; Fx15 and Fx18 copy V[x] to the timers |
| Instructions.WaitForKey | Chip8Emulator/CPU.cs:479-484 | Fx0A only sets `paused` |
| Instructions.DecimalDigits | Chip8Emulator/CPU.cs:502-506 | for V >= 0 the three quotients are the decimal digits and reassemble V; the first fits a byte exactly below 25600 |
| Instructions.NegativeDigits | Chip8Emulator/CPU.cs:502-506 | for V < 0 one of the three quotients is negative |
| Instructions.Bcd | Chip8Emulator/CPU.cs:501-509 | Fx33 succeeds exactly for V[x] in 0..25599 with I..I+2 in memory; it writes digits that reassemble V[x] and no other cell; the two failure kinds |
| Instructions.StoreFrom | Chip8Emulator/CPU.cs:510-516 | the Fx55 loop from k succeeds exactly when V[k..x] fit a byte and I+k..I+x are addresses, writes them there and nothing else |
| Instructions.LoadFrom | Chip8Emulator/CPU.cs:517-523 | the Fx65 loop from k succeeds exactly when I+k..I+x are addresses, loads them and nothing else |
| Instructions.ExecMisc | Chip8Emulator/CPU.cs:273-279 | an Fxnn opcode has family F, register x and byte nn, and executes as Misc with them after `pc += 2` |
| Instructions.StoreAll | Chip8Emulator/CPU.cs:510-516 | Fx55: it succeeds exactly when V0..Vx fit a byte and I..I+x are addresses; it writes V[j] to I + j and changes nothing else |
| Instructions.LoadAll | Chip8Emulator/CPU.cs:517-523 | Fx65: it succeeds exactly when I..I+x are addresses; it loads memory[I + j] into V[j] and changes nothing else |
| Instructions.StoreThenLoad | Chip8Emulator/CPU.cs:510-523 | Fx55 then Fx65 with unchanged I and memory gives V0..Vx back |
| Drawing.SpriteBits | Chip8Emulator/CPU.cs:439-448 | a sprite byte has eight bits to draw, column j being bit 7 - j |
| Drawing.BitMod | Chip8Emulator/CPU.cs:447 | reducing modulo 2^m, as a byte-typed `<<=` does, keeps every bit below m |
| Drawing.BitHigh | Chip8Emulator/CPU.cs:441 | for a value below 2^(k+1), bit k is set exactly when the value is at least 2^k |
| Drawing.ShiftByte | Chip8Emulator/CPU.cs:441-447 | the `& 0x80` test reads a byte's bit 7, and `<<= 1` on a byte moves bits 0..6 up by one and clears bit 0 |
| Drawing.ColumnBits | Chip8Emulator/CPU.cs:439-448 | at column col the shifted byte's top bit is the sprite's column-col bit, and one more shift leaves the bits of the remaining columns |
| Drawing.DrawColsPixels | Chip8Emulator/CPU.cs:439-448 | the column loop appends one wrapped pixel per set bit, most significant first, and sets VF to 1 exactly when it appended one |
| Drawing.DrawRowsFails | Chip8Emulator/CPU.cs:435-438 | the row loop fails exactly when one of I + row..I + n - 1 is outside memory |
| Drawing.DrawRowsPixels | Chip8Emulator/CPU.cs:435-449 | when every row address is in memory, the row loop appends the reference pixels row after row and sets VF to 1 exactly when it drew one |
| Drawing.DrawSpec | Chip8Emulator/CPU.cs:429-451 | Dxyn fails exactly when I..I+n-1 leaves memory; otherwise it appends the reference pixels and leaves VF = 1 exactly when it drew one, all else unchanged |
| Frames.RunPaused | Chip8Emulator/CPU.cs:211-219 | a paused machine executes nothing and stays unchanged through any number of passes |
| Frames.FramePaused | Chip8Emulator/CPU.cs:208-224 | a frame that starts paused changes nothing, timers included |
| Frames.TraceStep | Chip8Emulator/CPU.cs:211-218 | one unpaused pass: a failing pass ends the loop after at most one opcode; a succeeding one records its opcode and continues |
| Frames.ShortTracePaused | Chip8Emulator/CPU.cs:211-219 | passes that succeed but execute fewer instructions than there were passes end with the machine paused |
| Frames.RunKeepsTimers | Chip8Emulator/CPU.cs:211-219 | passes without Fx15 or Fx18 keep both timers, the key table and speed |
| Frames.FrameInstructions | Chip8Emulator/CPU.cs:211-224 | a frame executes at most `speed` instructions (none for speed <= 0) and ends paused if it executes fewer without failing |
| Frames.FrameTimers | Chip8Emulator/CPU.cs:220-224 | without timer instructions a frame ticks both timers exactly once, or not at all when it ends paused |
| Frames.LoadAndAddProgram | Chip8Emulator/CPU.cs:198-216 | the program 6005 7003 loaded at 0x200 leaves V0 = 8 and pc = 0x204 after two passes |
| Keys.KeyForBinding | Chip8Emulator/CPU.cs:49-67 | every bound key maps to a code 0..F, and KeyFor maps that code back to the key |
| Keys.BindingIsBijection | Chip8Emulator/CPU.cs:49-67 | the binding's values are exactly 0..F, every code has a key, and no two keys share a code |
| Keys.ReleasedKeysMatchBinding | Chip8Emulator/CPU.cs:49-87 | the key-state table starts with exactly the binding's codes, none pressed |
| Keys.SetKeyKeepsCodes | Chip8Emulator/CPU.cs:91-109 | pressing or releasing a key keeps the codes 0..F and changes only that key's entry; a code outside 0..F stays released |

## Left out

- The SFML window is not modelled. This covers creating it, the event loop (`win.IsOpen`, `DispatchEvents`), drawing the recorded pixels, `Clear` and `Display`. `Frame` is one iteration of the `while` loop without these calls.
- Serilog logging is left out; it has no effect on the state.
- `File.ReadAllBytes` is left out. `LoadProgramIntoMemory` takes the program's bytes as a parameter.
- `System.Random` in Cxnn is replaced by a parameter `r`, and each frame takes one random value per pass. In C# the value lies in 0..65024; the model allows any int32.
- PlaySound and the speaker are left out. `Chip8.SoundOn` is the condition under which the speaker plays.
- KeyPressed also checks `Keyboard.IsKeyPressed`, which queries the physical keyboard. It is left out, so `SetKey` is the table update of KeyPressed and KeyReleased.
- `vectors` is a static field in C# and an instance field here.
- The `Vector2f` float coordinates are modelled as int32. Every coordinate SetPixel computes is an int, and a float holds such a value exactly only up to 2^24. Larger coordinates are not modelled faithfully.
- After a thrown exception the state is the model's own and is not constrained. The exception ends Cycle, and no caller catches it.
- The `default` branch of the outer switch throws, but no opcode reaches it: every family has a case. It is not modelled as a fault.
- Drawing.DrawSpec: the reference description requires V[x] and V[y] not to be VF, because the loop reads V[x] and V[y] after it has set VF. Chip8.Draw itself covers every x and y.
- Emulator.Cpu.ExecuteInstruction: splitting the switch into `ExecuteLow` and `ExecuteHigh` only keeps each proof small. It is not in the source.
- Opcodes are limited to 0..0xFFFF, which is every value `memory[pc] << 8 | memory[pc + 1]` can take.
