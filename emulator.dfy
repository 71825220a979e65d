/**
 * The CPU object of Chip8Emulator/CPU.cs: its fields, the loaders, SetPixel,
 * IsKeyPressed, UpdateTimers, ExecuteInstruction and one frame of Cycle.
 * Every method is proved to change the object exactly as the matching
 * function of module Chip8 changes the value `Snapshot()`.
 */
module Emulator {
  import opened Words
  import opened Chip8

  /** What a method that may throw leaves behind: its new state, or the exception. */
  function Outcome(fault: Option<Fault>, s: State): Result<State>
  {
    if fault.None? then Ok(s) else Err(fault.value)
  }

  class Cpu {
    const memory: array<byte>
    const v: array<int32>
    var i: int32
    var delayTimer: int32
    var soundTimer: int32
    var pc: int32
    var stack: seq<int32>
    var paused: bool
    var speed: int32
    var vectors: seq<Pixel>
    var keyIsActive: map<int, bool>

    ghost predicate Valid()
      reads this
    {
      memory.Length == MemorySize && v.Length == 16 && keyIsActive.Keys == KeyCodes
    }

    /** The object's fields as a value of Chip8.State. */
    ghost function Snapshot(): (s: State)
      reads this, memory, v
      ensures Valid() ==> WellFormed(s)
    {
      State(memory[..], v[..], i, pc, stack, delayTimer, soundTimer, paused, speed, vectors,
            keyIsActive)
    }

    constructor ()
      ensures Valid() && fresh(memory) && fresh(v)
      ensures Snapshot() == Initial()
    {
      memory := new byte[MemorySize](_ => 0);
      v := new int32[16](_ => 0);
      i := 0;
      delayTimer := 0;
      soundTimer := 0;
      pc := ProgramStart;
      stack := [];
      paused := false;
      speed := 10;
      vectors := [];
      keyIsActive := ReleasedKeys();
      new;
      assert memory[..] == Initial().memory;
      assert v[..] == Initial().v;
    }

    // ------------------------------------------------------------ keyboard

    /** IsKeyPressed: the key-state table's entry, false for a code the table lacks. */
    function IsKeyPressed(keyCode: int): (pressed: bool)
      reads this
      ensures pressed <==> keyCode in keyIsActive && keyIsActive[keyCode]
    {
      KeyDown(keyIsActive, keyCode)
    }

    /** The table update of the KeyPressed (`down`) and KeyReleased handlers:
      * keyIsActive[keys[key]] := down, and KeyNotFoundException for an unbound key. */
    method SetKey(key: Key, down: bool) returns (fault: Option<Fault>)
      requires Valid()
      modifies this`keyIsActive
      ensures Valid()
      ensures key in KeyBinding ==> fault.None? && keyIsActive == old(keyIsActive)[KeyBinding[key] := down]
      ensures key !in KeyBinding ==> fault == Some(KeyNotFound) && keyIsActive == old(keyIsActive)
    {
      if key !in KeyBinding {
        return Some(KeyNotFound);
      }
      assert KeyBinding[key] in KeyCodes;
      keyIsActive := keyIsActive[KeyBinding[key] := down];
      fault := None;
    }

    // ------------------------------------------------------------- display

    /** SetPixel: wrap each coordinate one step, then record the pixel. */
    method SetPixel(x: int32, y: int32)
      modifies this`vectors
      ensures vectors == old(vectors) + [WrapPixel(x, y)]
    {
      var px, py := x, y;
      if px > Cols {
        px := px - Cols;
      } else if px < 0 {
        px := px + Cols;
      }
      if py > Rows {
        py := py - Rows;
      } else if py < 0 {
        py := py + Rows;
      }
      vectors := vectors + [Pixel(px, py)];
    }

    // ------------------------------------------------------------- loaders

    /** LoadSpritesToMemory: the font goes to addresses 0..79, nothing else changes. */
    method LoadSpritesToMemory()
      requires Valid()
      modifies memory
      ensures memory[..] == Font + old(memory[..])[|Font|..]
    {
      var k := 0;
      while k < |Font|
        invariant 0 <= k <= |Font|
        invariant forall a :: 0 <= a < k ==> memory[a] == Font[a]
        invariant forall a :: k <= a < memory.Length ==> memory[a] == old(memory[a])
      {
        memory[k] := Font[k];
        k := k + 1;
      }
    }

    /** The copy loop of LoadProgramIntoMemory; `program` is what File.ReadAllBytes read.
      * A program longer than 4096 - 0x200 bytes ends in IndexOutOfRangeException after
      * the bytes that fit have been written. */
    method LoadProgramIntoMemory(program: seq<byte>) returns (fault: Option<Fault>)
      requires Valid()
      modifies memory
      ensures memory[..] == CopyProgram(old(memory[..]), program)
      ensures fault.None? <==> |program| <= MemorySize - ProgramStart
      ensures fault.Some? ==> fault.value == IndexOutOfRange
    {
      var k := 0;
      while k < |program|
        invariant 0 <= k <= |program| && ProgramStart + k <= MemorySize
        invariant forall a :: 0 <= a < ProgramStart ==> memory[a] == old(memory[a])
        invariant forall j :: 0 <= j < k ==> memory[ProgramStart + j] == program[j]
        invariant forall a :: ProgramStart + k <= a < MemorySize ==> memory[a] == old(memory[a])
      {
        if ProgramStart + k >= MemorySize {
          fault := Some(IndexOutOfRange);
          assert memory[..] == CopyProgram(old(memory[..]), program);
          return;
        }
        memory[ProgramStart + k] := program[k];
        k := k + 1;
      }
      fault := None;
      assert memory[..] == CopyProgram(old(memory[..]), program);
    }

    // -------------------------------------------------------------- timers

    method UpdateTimers()
      modifies this`delayTimer, this`soundTimer
      ensures delayTimer == Tick(old(delayTimer)) && soundTimer == Tick(old(soundTimer))
    {
      if delayTimer > 0 {
        delayTimer := delayTimer - 1;
      }
      if soundTimer > 0 {
        soundTimer := soundTimer - 1;
      }
    }

    // -------------------------------------------------------- instructions

    /** 8xy4. */
    method AddRegisters(x: nat, y: nat)
      requires Valid() && x < 16 && y < 16
      modifies v
      ensures v[..] == AddRegs(old(v[..]), x, y)
    {
      v[x] := Add32(v[x], v[y]);
      var sum := v[x];
      v[VF] := 0;
      if sum > 0xFF {
        v[VF] := 1;
      }
      v[x] := sum;
    }

    /** 8xy5. */
    method SubRegisters(x: nat, y: nat)
      requires Valid() && x < 16 && y < 16
      modifies v
      ensures v[..] == SubRegs(old(v[..]), x, y)
    {
      v[VF] := 0;
      if v[x] > v[y] {
        v[VF] := 1;
      }
      v[x] := Sub32(v[x], v[y]);
    }

    /** 8xy7. */
    method SubnRegisters(x: nat, y: nat)
      requires Valid() && x < 16 && y < 16
      modifies v
      ensures v[..] == SubnRegs(old(v[..]), x, y)
    {
      v[VF] := 0;
      if v[y] > v[x] {
        v[VF] := 1;
      }
      v[x] := Sub32(v[y], v[x]);
    }

    /** 8xyE. */
    method ShlRegisters(x: nat)
      requires Valid() && x < 16
      modifies v
      ensures v[..] == ShlRegs(old(v[..]), x)
    {
      v[VF] := And32(v[x], 0x80);
      v[x] := Mul32(v[x], 2);
    }

    /** The 8xyk instructions. */
    method ExecuteAlu(x: nat, y: nat, k: nat)
      requires Valid() && x < 16 && y < 16
      modifies v
      ensures v[..] == Alu(old(v[..]), x, y, k)
    {
      match k
      case 0x0 =>
        v[y] := v[x];
      case 0x1 =>
        v[x] := Or32(v[x], v[y]);
      case 0x2 =>
        v[x] := And32(v[x], v[y]);
      case 0x3 =>
        v[x] := Xor32(v[x], v[y]);
      case 0x4 =>
        AddRegisters(x, y);
      case 0x5 =>
        SubRegisters(x, y);
      case 0x6 =>
        v[VF] := And32(v[x], 1);
      case 0x7 =>
        SubnRegisters(x, y);
      case 0xE =>
        ShlRegisters(x);
      case _ =>
    }

    /** The registers and the recorded pixels, the part of the object Dxyn changes. */
    ghost function Picture(): Canvas
      reads this, v
    {
      Canvas(v[..], vectors)
    }

    /** The column loop of Dxyn for one row: for each of the 8 bits of memory[I + row],
      * most significant first, SetPixel and VF := 1 where the bit is set. */
    method DrawRow(x: nat, y: nat, row: nat)
      requires Valid() && x < 16 && y < 16 && row < 16 && 0 <= i + row < MemorySize
      modifies this`vectors, v
      ensures Picture() == DrawCols(old(Picture()), x, y, row, memory[i + row], 0)
    {
      var sprite: byte := memory[i + row];
      ghost var target := DrawCols(Picture(), x, y, row, sprite, 0);
      var col := 0;
      while col < 8
        invariant 0 <= col <= 8 && Valid()
        invariant target == DrawCols(Picture(), x, y, row, sprite, col)
      {
        ghost var c := Picture();
        ghost var c' := if sprite >= 0x80
                        then Canvas(c.v[VF := 1], c.vectors + [WrapPixel(Add32(c.v[x], col), Add32(c.v[y], row))])
                        else c;
        assert DrawCols(c, x, y, row, sprite, col) == DrawCols(c', x, y, row, (sprite as int * 2) % 0x100, col + 1);
        if sprite >= 0x80 {   // (sprite & 0x80) > 0
          SetPixel(Add32(v[x], col), Add32(v[y], row));
          v[VF] := 1;
        }
        assert Picture() == c';
        sprite := (sprite as int * 2) % 0x100;   // sprite <<= 1 on a byte
        col := col + 1;
      }
      assert target == Picture();
    }

    /** Dxyn: VF := 0, then the row loop. */
    method DrawSprite(x: nat, y: nat, n: nat) returns (fault: Option<Fault>)
      requires Valid() && x < 16 && y < 16 && n < 16
      modifies this`vectors, v
      ensures Outcome(fault, Snapshot()) == Draw(old(Snapshot()), x, y, n)
    {
      v[VF] := 0;
      ghost var result := DrawRows(memory[..], i, Picture(), x, y, n, 0);
      assert Draw(old(Snapshot()), x, y, n) ==
             if result.Ok? then Ok(Snapshot().(v := result.value.v, vectors := result.value.vectors))
             else Err(result.fault);
      var row := 0;
      while row < n
        invariant 0 <= row <= n && Valid()
        invariant result == DrawRows(memory[..], i, Picture(), x, y, n, row)
      {
        if !(0 <= i + row < MemorySize) {
          assert result == Err(IndexOutOfRange);
          return Some(IndexOutOfRange);
        }
        assert DrawRows(memory[..], i, Picture(), x, y, n, row) ==
               DrawRows(memory[..], i, DrawCols(Picture(), x, y, row, memory[i + row], 0), x, y, n, row + 1);
        DrawRow(x, y, row);
        row := row + 1;
      }
      assert result == Ok(Picture());
      fault := None;
    }

    /** Fx33: the hundreds, tens and ones digit of V[x] to memory[I], [I + 1], [I + 2]. */
    method StoreBcd(x: nat) returns (fault: Option<Fault>)
      requires Valid() && x < 16
      modifies memory
      ensures Outcome(fault, Snapshot()) == Chip8.StoreBcd(old(Snapshot()), x)
    {
      var vx := v[x];
      var a := i;
      var b := ToByte(Quot(vx, 100));
      if b.None? { return Some(Overflow); }
      if !(0 <= a < MemorySize) { return Some(IndexOutOfRange); }
      memory[a] := b.value;
      b := ToByte(Quot(Rem(vx, 100), 10));
      if b.None? { return Some(Overflow); }
      if !(0 <= a + 1 < MemorySize) { return Some(IndexOutOfRange); }
      memory[a + 1] := b.value;
      b := ToByte(Rem(vx, 10));
      if b.None? { return Some(Overflow); }
      if !(0 <= a + 2 < MemorySize) { return Some(IndexOutOfRange); }
      memory[a + 2] := b.value;
      fault := None;
    }

    /** Fx55: memory[I + k] := Convert.ToByte(V[k]) for k = 0..x. */
    method StoreRegisters(x: nat) returns (fault: Option<Fault>)
      requires Valid() && x < 16
      modifies memory
      ensures Outcome(fault, Snapshot()) == Chip8.StoreRegisters(old(Snapshot()), x, 0)
    {
      var k := 0;
      while k <= x
        invariant 0 <= k <= x + 1
        invariant Chip8.StoreRegisters(old(Snapshot()), x, 0) == Chip8.StoreRegisters(Snapshot(), x, k)
      {
        var b := ToByte(v[k]);
        if b.None? { return Some(Overflow); }
        if !(0 <= i + k < MemorySize) { return Some(IndexOutOfRange); }
        memory[i + k] := b.value;
        k := k + 1;
      }
      fault := None;
    }

    /** Fx65: V[k] := memory[I + k] for k = 0..x. */
    method LoadRegisters(x: nat) returns (fault: Option<Fault>)
      requires Valid() && x < 16
      modifies v
      ensures Outcome(fault, Snapshot()) == Chip8.LoadRegisters(old(Snapshot()), x, 0)
    {
      var k := 0;
      while k <= x
        invariant 0 <= k <= x + 1
        invariant Chip8.LoadRegisters(old(Snapshot()), x, 0) == Chip8.LoadRegisters(Snapshot(), x, k)
      {
        if !(0 <= i + k < MemorySize) { return Some(IndexOutOfRange); }
        v[k] := memory[i + k];
        k := k + 1;
      }
      fault := None;
    }

    /** The Fxnn instructions. */
    method ExecuteMisc(x: nat, nn: int32) returns (fault: Option<Fault>)
      requires Valid() && x < 16
      modifies this, memory, v
      ensures Valid()
      ensures Outcome(fault, Snapshot()) == Misc(old(Snapshot()), x, nn)
    {
      fault := None;
      match nn
      case 0x07 =>
        v[x] := delayTimer;
      case 0x0A =>
        paused := true;
      case 0x15 =>
        delayTimer := v[x];
      case 0x18 =>
        soundTimer := v[x];
      case 0x1E =>
        i := Add32(i, v[x]);
      case 0x29 =>
        i := Mul32(v[x], 5);
      case 0x33 =>
        fault := StoreBcd(x);
      case 0x55 =>
        fault := StoreRegisters(x);
      case 0x65 =>
        fault := LoadRegisters(x);
      case _ =>
    }

    /** Families 0x0..0x7 of ExecuteInstruction's switch, after `pc += 2`. */
    method ExecuteLow(opcode: Opcode) returns (fault: Option<Fault>)
      requires Valid() && Family(opcode) < 8
      modifies this, v
      ensures Valid()
      ensures Outcome(fault, Snapshot()) == ExecLow(old(Snapshot()), opcode)
    {
      var x, y := RegX(opcode), RegY(opcode);
      fault := None;
      match Family(opcode)
      case 0x0 =>
        if opcode == 0x00E0 {
          // win.Clear(): the window is cleared, `vectors` is left as it is
        } else if opcode == 0x00EE {
          if |stack| == 0 {
            return Some(StackEmpty);
          }
          pc := stack[|stack| - 1];
          stack := stack[..|stack| - 1];
        }
      case 0x1 =>
        pc := Address(opcode);
      case 0x2 =>
        stack := stack + [pc];
        pc := Address(opcode);
      case 0x3 =>
        if v[x] == Byte(opcode) {
          pc := Add32(pc, 2);
        }
      case 0x4 =>
        if v[x] != Byte(opcode) {
          pc := Add32(pc, 2);
        }
      case 0x5 =>
        if v[x] == v[y] {
          pc := Add32(pc, 2);
        }
      case 0x6 =>
        v[x] := Byte(opcode);
      case 0x7 =>
        v[x] := Add32(v[x], Byte(opcode));
    }

    /** Families 0x8..0xF of ExecuteInstruction's switch, after `pc += 2`; `r` is the
      * random number Cxnn would draw. */
    method ExecuteHigh(opcode: Opcode, r: int32) returns (fault: Option<Fault>)
      requires Valid() && Family(opcode) >= 8
      modifies this, memory, v
      ensures Valid()
      ensures Outcome(fault, Snapshot()) == ExecHigh(old(Snapshot()), opcode, r)
    {
      var x, y := RegX(opcode), RegY(opcode);
      fault := None;
      match Family(opcode)
      case 0x8 =>
        ExecuteAlu(x, y, Nibble(opcode));
      case 0x9 =>
        if v[x] != v[y] {
          pc := Add32(pc, 2);
        }
      case 0xA =>
        i := Address(opcode);
      case 0xB =>
        pc := Add32(Address(opcode), v[0]);
      case 0xC =>
        v[x] := And32(r, Byte(opcode));
      case 0xD =>
        fault := DrawSprite(x, y, Nibble(opcode));
      case 0xE =>
        if Byte(opcode) == 0x9E {
          if IsKeyPressed(v[x]) {
            pc := Add32(pc, 2);
          }
        } else if Byte(opcode) == 0xA1 {
          if !IsKeyPressed(v[x]) {
            pc := Add32(pc, 2);
          }
        }
      case 0xF =>
        fault := ExecuteMisc(x, Byte(opcode));
    }

    /** ExecuteInstruction(opcode); `r` is the random number Cxnn would draw. The
      * switch on opcode & 0xF000 is split in two halves to keep each proof small. */
    method ExecuteInstruction(opcode: Opcode, r: int32) returns (fault: Option<Fault>)
      requires Valid()
      modifies this, memory, v
      ensures Valid()
      ensures Outcome(fault, Snapshot()) == Exec(old(Snapshot()), opcode, r)
    {
      pc := Add32(pc, 2);
      if Family(opcode) < 8 {
        fault := ExecuteLow(opcode);
      } else {
        fault := ExecuteHigh(opcode, r);
      }
    }

    // --------------------------------------------------------------- cycle

    /** One pass of Cycle's `for` loop: unless paused, fetch the opcode at pc
      * (memory[pc] << 8 | memory[pc + 1]) and execute it. */
    method CyclePass(r: int32) returns (fault: Option<Fault>)
      requires Valid()
      modifies this, memory, v
      ensures Valid()
      ensures Outcome(fault, Snapshot()) == Step(old(Snapshot()), r)
    {
      fault := None;
      if !paused {
        if !(0 <= pc && pc + 1 < MemorySize) {
          return Some(IndexOutOfRange);
        }
        var hi, lo := memory[pc], memory[pc + 1];
        ShiftOrBytes(hi, lo);
        var opcode := Or32(Mul32(hi, 0x100), lo);
        assert Fetch(Snapshot()) == Ok(opcode);
        fault := ExecuteInstruction(opcode, r);
      }
    }

    /** Passes k..n-1 of Cycle's `for (int i = 0; i < speed; i++)` loop; pass j's Cxnn
      * draws rand(j). */
    method RunPasses(k0: nat, n: nat, rand: nat -> int32) returns (fault: Option<Fault>)
      requires Valid() && k0 <= n
      modifies this, memory, v
      ensures Valid()
      ensures Outcome(fault, Snapshot()) == Run(old(Snapshot()), k0, n, rand)
    {
      var k := k0;
      while k < n
        invariant k0 <= k <= n && Valid()
        invariant Run(old(Snapshot()), k0, n, rand) == Run(Snapshot(), k, n, rand)
      {
        fault := CyclePass(rand(k));
        if fault.Some? {
          return;
        }
        k := k + 1;
      }
      fault := None;
    }

    /** One iteration of Cycle's `while (win.IsOpen)` loop, up to the sound and drawing
      * calls: `speed` passes, then UpdateTimers unless paused. Pass k's Cxnn draws rand(k). */
    method Cycle(rand: nat -> int32) returns (fault: Option<Fault>)
      requires Valid()
      modifies this, memory, v
      ensures Valid()
      ensures Outcome(fault, Snapshot()) == Frame(old(Snapshot()), rand)
    {
      var n := if speed > 0 then speed as nat else 0;
      fault := RunPasses(0, n, rand);
      if fault.Some? {
        return;
      }
      if !paused {
        UpdateTimers();
      }
    }
  }
}
