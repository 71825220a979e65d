/**
 * The CHIP-8 interpreter of Chip8Emulator/CPU.cs as a value-level state
 * machine: the machine state, opcode fetch and decode, the effect of one
 * instruction, one pass of the `speed` loop and one frame of `Cycle`.
 *
 * These functions are the specification that the class Emulator.Cpu is
 * proved against. They follow the C# code, quirks included: registers are
 * C# `int`s that are never masked to 8 bits, I is never masked to 12 bits,
 * and the flag computations are the ones the code performs.
 */
module Chip8 {
  import opened Words

  const MemorySize: int := 4096
  const ProgramStart: int := 0x200
  const Cols: int32 := 64
  const Rows: int32 := 32
  /** Index of the flag register VF. */
  const VF: nat := 0xF

  /** A pixel recorded by SetPixel (the C# Vector2f appended to `vectors`). */
  datatype Pixel = Pixel(x: int32, y: int32)

  /** The exceptions the C# code can raise while it runs. */
  datatype Fault =
    | StackEmpty       // Stack<int>.Pop on an empty stack
    | IndexOutOfRange  // memory[...] outside 0..4095
    | Overflow         // Convert.ToByte outside 0..255
    | KeyNotFound      // keys[code] for a key that has no binding

  datatype Result<T> = Ok(value: T) | Err(fault: Fault)

  /** The physical keys of the binding table; every other keyboard key is `Other`. */
  datatype Key =
    | Num1 | Num2 | Num3 | Num4
    | Q | W | E | R
    | A | S | D | F
    | Z | X | C | V
    | Other(code: int)

  /** The physical-to-CHIP-8 binding table `keys`. */
  const KeyBinding: map<Key, int> := map[
    Num1 := 0x1, Num2 := 0x2, Num3 := 0x3, Num4 := 0xC,
    Q := 0x4, W := 0x5, E := 0x6, R := 0xD,
    A := 0x7, S := 0x8, D := 0x9, F := 0xE,
    Z := 0xA, X := 0x0, C := 0xB, V := 0xF
  ]

  /** The CHIP-8 key codes, the keys of the key-state table `keyIsActive`. */
  const KeyCodes: set<int> := set c | 0 <= c < 16

  /** The key-state table as the CPU starts with it: every key released. */
  function ReleasedKeys(): (m: map<int, bool>)
    ensures m.Keys == KeyCodes
    ensures forall c :: c in m ==> !m[c]
  {
    map c | c in KeyCodes :: false
  }

  /** IsKeyPressed: the entry for `code`, or false (FirstOrDefault's default) when there is none. */
  function KeyDown(keys: map<int, bool>, code: int): (down: bool)
    ensures down ==> code in keys
    ensures code in keys ==> down == keys[code]
  {
    if code in keys then keys[code] else false
  }

  /** The 80-byte hexadecimal font of LoadSpritesToMemory, five bytes per digit 0..F. */
  const Font: seq<byte> := [
    0xF0, 0x90, 0x90, 0x90, 0xF0,
    0x20, 0x60, 0x20, 0x20, 0x70,
    0xF0, 0x10, 0xF0, 0x80, 0xF0,
    0xF0, 0x10, 0xF0, 0x10, 0xF0,
    0x90, 0x90, 0xF0, 0x10, 0x10,
    0xF0, 0x80, 0xF0, 0x10, 0xF0,
    0xF0, 0x80, 0xF0, 0x90, 0xF0,
    0xF0, 0x10, 0x20, 0x40, 0x40,
    0xF0, 0x90, 0xF0, 0x90, 0xF0,
    0xF0, 0x90, 0xF0, 0x10, 0xF0,
    0xF0, 0x90, 0xF0, 0x90, 0x90,
    0xE0, 0x90, 0xE0, 0x90, 0xE0,
    0xF0, 0x80, 0x80, 0x80, 0xF0,
    0xE0, 0x90, 0x90, 0x90, 0xE0,
    0xF0, 0x80, 0xF0, 0x80, 0xF0,
    0xF0, 0x80, 0xF0, 0x80, 0x80
  ]

  /** The fields of the CPU object. */
  datatype State = State(
    memory: seq<byte>,
    v: seq<int32>,
    i: int32,
    pc: int32,
    stack: seq<int32>,   // bottom first; the top of the Stack<int> is the last element
    delayTimer: int32,
    soundTimer: int32,
    paused: bool,
    speed: int32,
    vectors: seq<Pixel>,
    keyIsActive: map<int, bool>)

  ghost predicate WellFormed(s: State)
  {
    |s.memory| == MemorySize && |s.v| == 16
  }

  /** The state a freshly constructed CPU is in. */
  function Initial(): (s: State)
    ensures WellFormed(s) && s.pc == ProgramStart && s.stack == [] && !s.paused
    ensures forall a :: 0 <= a < |s.memory| ==> s.memory[a] == 0
    ensures forall r :: 0 <= r < |s.v| ==> s.v[r] == 0
    ensures s.i == 0 && s.delayTimer == 0 && s.soundTimer == 0 && s.speed == 10
    ensures s.vectors == []
    ensures s.keyIsActive.Keys == KeyCodes && forall c :: c in s.keyIsActive ==> !s.keyIsActive[c]
  {
    State(seq(MemorySize, _ => 0), seq(16, _ => 0), 0, ProgramStart, [], 0, 0,
          false, 10, [], ReleasedKeys())
  }

  // ---------------------------------------------------------------- loaders

  /** Memory after LoadProgramIntoMemory's copy loop. The loop stops with an exception
    * at the first address past 4095, so only the bytes that fit have been written. */
  function CopyProgram(mem: seq<byte>, program: seq<byte>): (r: seq<byte>)
    requires |mem| == MemorySize
    ensures |r| == MemorySize
    ensures forall a :: 0 <= a < ProgramStart ==> r[a] == mem[a]
    ensures forall k :: 0 <= k < |program| && ProgramStart + k < MemorySize ==>
              r[ProgramStart + k] == program[k]
    ensures forall a :: ProgramStart + |program| <= a < MemorySize ==> r[a] == mem[a]
  {
    var m := if |program| <= MemorySize - ProgramStart then |program| else MemorySize - ProgramStart;
    mem[..ProgramStart] + program[..m] + mem[ProgramStart + m..]
  }

  // ------------------------------------------------------------ the display

  /** SetPixel's wrap of one coordinate: only one step, and only past `limit` or below 0. */
  function WrapCoord(c: int32, limit: int32): (r: int32)
    requires limit > 0
    ensures -(limit) <= c <= 2 * limit ==> 0 <= r <= limit
    ensures r == c || r == c - limit || r == c + limit
    ensures 0 <= c <= limit ==> r == c
    ensures c > limit ==> r == c - limit
    ensures c < 0 ==> r == c + limit
  {
    if c > limit then c - limit else if c < 0 then c + limit else c
  }

  /** The pixel SetPixel(x, y) appends to `vectors`. */
  function WrapPixel(x: int32, y: int32): (p: Pixel)
    ensures 0 <= x <= Cols && 0 <= y <= Rows ==> p == Pixel(x, y)
    ensures -Cols <= x <= 2 * Cols && -Rows <= y <= 2 * Rows ==> 0 <= p.x <= Cols && 0 <= p.y <= Rows
  {
    Pixel(WrapCoord(x, Cols), WrapCoord(y, Rows))
  }

  // ------------------------------------------------------------ fetch/decode

  /** A fetched opcode: two bytes make at most 0xFFFF. */
  type Opcode = w: int | 0 <= w < 0x10000

  /** The big-endian opcode at `pc`. Words.ShiftOrBytes shows that this is the C#
    * expression memory[pc] << 8 | memory[pc + 1]. */
  function Fetch(s: State): (r: Result<Opcode>)
    requires WellFormed(s)
    ensures r.Err? <==> !(0 <= s.pc && s.pc + 1 < MemorySize)
    ensures r.Err? ==> r.fault == IndexOutOfRange
  {
    if 0 <= s.pc && s.pc + 1 < MemorySize then
      Ok(s.memory[s.pc] as int * 0x100 + s.memory[s.pc + 1])
    else
      Err(IndexOutOfRange)
  }

  // The opcode fields. On an opcode of 16 bits each mask of the source selects a group
  // of hexadecimal digits, which is what these quotients and remainders compute;
  // Instructions.MaskFields proves the masks and these fields agree.

  /** The instruction family, the opcode's first hex digit: the outer switch of
    * ExecuteInstruction is on opcode & 0xF000, which is 0x1000 times this. */
  function Family(op: Opcode): (r: nat)
    ensures r < 16
  {
    op / 0x1000
  }

  /** x = (opcode & 0x0F00) >> 8, the second hex digit. */
  function RegX(op: Opcode): (r: nat)
    ensures r < 16
  {
    (op / 0x100) % 0x10
  }

  /** y = (opcode & 0x00F0) >> 4, the third hex digit. */
  function RegY(op: Opcode): (r: nat)
    ensures r < 16
  {
    (op / 0x10) % 0x10
  }

  /** opcode & 0xF, the last hex digit. */
  function Nibble(op: Opcode): (r: nat)
    ensures r < 16
  {
    op % 0x10
  }

  /** opcode & 0xFF, the last two hex digits. */
  function Byte(op: Opcode): (r: byte)
  {
    op % 0x100
  }

  /** opcode & 0xFFF, the last three hex digits. */
  function Address(op: Opcode): (r: int32)
    ensures 0 <= r < 0x1000
  {
    op % 0x1000
  }

  /** Fx0A, the only instruction that sets `paused`. */
  predicate IsWaitForKey(op: Opcode)
  {
    Family(op) == 0xF && Byte(op) == 0x0A
  }

  /** Fx15 and Fx18, the only instructions that write a timer. */
  predicate WritesTimer(op: Opcode)
  {
    Family(op) == 0xF && (Byte(op) == 0x15 || Byte(op) == 0x18)
  }

  // ---------------------------------------------------------- instructions

  /** 8xy4: `var sum = (v[x] += v[y])`, VF := 0, VF := 1 when sum > 0xFF, v[x] := sum. */
  function AddRegs(v: seq<int32>, x: nat, y: nat): (w: seq<int32>)
    requires |v| == 16 && x < 16 && y < 16
    ensures |w| == 16
  {
    var sum := Add32(v[x], v[y]);
    var v1: seq<int32> := v[x := sum];
    var v2: seq<int32> := v1[VF := if sum > 0xFF then 1 else 0];
    v2[x := sum]
  }

  /** 8xy5: VF := 0, VF := 1 when v[x] > v[y], then v[x] -= v[y]. */
  function SubRegs(v: seq<int32>, x: nat, y: nat): (w: seq<int32>)
    requires |v| == 16 && x < 16 && y < 16
    ensures |w| == 16
  {
    var v1: seq<int32> := v[VF := 0];
    var v2: seq<int32> := v1[VF := if v1[x] > v1[y] then 1 else 0];
    v2[x := Sub32(v2[x], v2[y])]
  }

  /** 8xy7: VF := 0, VF := 1 when v[y] > v[x], then v[x] := v[y] - v[x]. */
  function SubnRegs(v: seq<int32>, x: nat, y: nat): (w: seq<int32>)
    requires |v| == 16 && x < 16 && y < 16
    ensures |w| == 16
  {
    var v1: seq<int32> := v[VF := 0];
    var v2: seq<int32> := v1[VF := if v1[y] > v1[x] then 1 else 0];
    v2[x := Sub32(v2[y], v2[x])]
  }

  /** 8xyE: VF := v[x] & 0x80, then v[x] <<= 1. */
  function ShlRegs(v: seq<int32>, x: nat): (w: seq<int32>)
    requires |v| == 16 && x < 16
    ensures |w| == 16
  {
    var v1: seq<int32> := v[VF := And32(v[x], 0x80)];
    v1[x := Mul32(v1[x], 2)]
  }

  /** The 8xyk arithmetic and logic instructions on the registers; an unmatched k
    * does nothing. */
  function Alu(v: seq<int32>, x: nat, y: nat, k: nat): (w: seq<int32>)
    requires |v| == 16 && x < 16 && y < 16
    ensures |w| == 16
  {
    match k
    case 0x0 => v[y := v[x]]
    case 0x1 => v[x := Or32(v[x], v[y])]
    case 0x2 => v[x := And32(v[x], v[y])]
    case 0x3 => v[x := Xor32(v[x], v[y])]
    case 0x4 => AddRegs(v, x, y)
    case 0x5 => SubRegs(v, x, y)
    case 0x6 => v[VF := And32(v[x], 1)]
    case 0x7 => SubnRegs(v, x, y)
    case 0xE => ShlRegs(v, x)
    case _ => v
  }

  /** The part of the state Dxyn changes: the registers and the recorded pixels. */
  datatype Canvas = Canvas(v: seq<int32>, vectors: seq<Pixel>)

  /** The inner loop of Dxyn for one sprite row: columns `col`..7, where `sprite` is the
    * row's byte already shifted left `col` times. A set top bit calls SetPixel at
    * (V[x] + col, V[y] + row), reading V[x] and V[y] afresh, and sets VF to 1. */
  function DrawCols(c: Canvas, x: nat, y: nat, row: nat, sprite: byte, col: nat): (d: Canvas)
    requires |c.v| == 16 && x < 16 && y < 16 && row < 16 && col <= 8
    ensures |d.v| == 16
    decreases 8 - col
  {
    if col == 8 then c
    else
      var c' := if sprite >= 0x80 then   // (sprite & 0x80) > 0
                  Canvas(c.v[VF := 1],
                         c.vectors + [WrapPixel(Add32(c.v[x], col), Add32(c.v[y], row))])
                else c;
      DrawCols(c', x, y, row, (sprite as int * 2) % 0x100, col + 1)   // sprite <<= 1 on a byte
  }

  /** The outer loop of Dxyn: rows `row`..n-1, each read from memory[I + row]. */
  function DrawRows(mem: seq<byte>, addr: int32, c: Canvas, x: nat, y: nat, n: nat, row: nat): (r: Result<Canvas>)
    requires |mem| == MemorySize && |c.v| == 16 && x < 16 && y < 16 && n < 16 && row <= n
    ensures r.Ok? ==> |r.value.v| == 16
    ensures r.Err? ==> r.fault == IndexOutOfRange
    decreases n - row
  {
    if row == n then Ok(c)
    else if !(0 <= addr + row < MemorySize) then Err(IndexOutOfRange)
    else DrawRows(mem, addr, DrawCols(c, x, y, row, mem[addr + row], 0), x, y, n, row + 1)
  }

  /** Dxyn: VF := 0, then the row and column loops. */
  function Draw(s: State, x: nat, y: nat, n: nat): (r: Result<State>)
    requires WellFormed(s) && x < 16 && y < 16 && n < 16
    ensures r.Ok? ==> WellFormed(r.value) && r.value == s.(v := r.value.v, vectors := r.value.vectors)
  {
    match DrawRows(s.memory, s.i, Canvas(s.v[VF := 0], s.vectors), x, y, n, 0)
    case Err(f) => Err(f)
    case Ok(c) => Ok(s.(v := c.v, vectors := c.vectors))
  }

  /** Fx33's three stores. On each line C# evaluates Convert.ToByte before the array
    * bounds check, so an overflow is reported before a bad index. */
  function StoreBcd(s: State, x: nat): (r: Result<State>)
    requires WellFormed(s) && x < 16
    ensures r.Ok? ==> WellFormed(r.value) && r.value == s.(memory := r.value.memory)
  {
    var vx := s.v[x];
    var hundreds := ToByte(Quot(vx, 100));
    var tens := ToByte(Quot(Rem(vx, 100), 10));
    var ones := ToByte(Rem(vx, 10));
    var a := s.i;
    if hundreds.None? then Err(Overflow)
    else if !(0 <= a < MemorySize) then Err(IndexOutOfRange)
    else if tens.None? then Err(Overflow)
    else if !(0 <= a + 1 < MemorySize) then Err(IndexOutOfRange)
    else if ones.None? then Err(Overflow)
    else if !(0 <= a + 2 < MemorySize) then Err(IndexOutOfRange)
    else Ok(s.(memory := s.memory[a := hundreds.value][a + 1 := tens.value][a + 2 := ones.value]))
  }

  /** Fx55's loop from register k on: memory[I + k] := Convert.ToByte(V[k]) for k = k..x. */
  function StoreRegisters(s: State, x: nat, k: nat): (r: Result<State>)
    requires WellFormed(s) && x < 16 && k <= x + 1
    ensures r.Ok? ==> WellFormed(r.value) && r.value == s.(memory := r.value.memory)
    decreases x + 1 - k
  {
    if k == x + 1 then Ok(s)
    else
      var b := ToByte(s.v[k]);
      var a := s.i + k;
      if b.None? then Err(Overflow)
      else if !(0 <= a < MemorySize) then Err(IndexOutOfRange)
      else StoreRegisters(s.(memory := s.memory[a := b.value]), x, k + 1)
  }

  /** Fx65's loop from register k on: V[k] := memory[I + k] for k = k..x. */
  function LoadRegisters(s: State, x: nat, k: nat): (r: Result<State>)
    requires WellFormed(s) && x < 16 && k <= x + 1
    ensures r.Ok? ==> WellFormed(r.value) && r.value == s.(v := r.value.v)
    decreases x + 1 - k
  {
    if k == x + 1 then Ok(s)
    else
      var a := s.i + k;
      if !(0 <= a < MemorySize) then Err(IndexOutOfRange)
      else LoadRegisters(s.(v := s.v[k := s.memory[a]]), x, k + 1)
  }

  /** The Fxnn instructions; an unmatched nn does nothing. */
  function Misc(s: State, x: nat, nn: int32): (r: Result<State>)
    requires WellFormed(s) && x < 16
    ensures r.Ok? ==> WellFormed(r.value)
    ensures r.Ok? ==> r.value.keyIsActive == s.keyIsActive && r.value.speed == s.speed
    ensures r.Ok? ==> r.value.paused == (s.paused || nn == 0x0A)
    ensures r.Ok? && nn != 0x15 ==> r.value.delayTimer == s.delayTimer
    ensures r.Ok? && nn != 0x18 ==> r.value.soundTimer == s.soundTimer
  {
    match nn
    case 0x07 => Ok(s.(v := s.v[x := s.delayTimer]))
    case 0x0A => Ok(s.(paused := true))
    case 0x15 => Ok(s.(delayTimer := s.v[x]))
    case 0x18 => Ok(s.(soundTimer := s.v[x]))
    case 0x1E => Ok(s.(i := Add32(s.i, s.v[x])))
    case 0x29 => Ok(s.(i := Mul32(s.v[x], 5)))
    case 0x33 => StoreBcd(s, x)
    case 0x55 => StoreRegisters(s, x, 0)
    case 0x65 => LoadRegisters(s, x, 0)
    case _ => Ok(s)
  }

  /** `pc += 2` when `cond` holds: the skip of the conditional instructions. */
  function SkipIf(s: State, cond: bool): (t: State)
    ensures t.(pc := s.pc) == s
    ensures cond ==> t.pc == Add32(s.pc, 2)
    ensures !cond ==> t == s
  {
    if cond then s.(pc := Add32(s.pc, 2)) else s
  }

  /** Families 0x0..0x7 of ExecuteInstruction's switch, on the state after `pc += 2`. */
  function ExecLow(s1: State, op: Opcode): (res: Result<State>)
    requires WellFormed(s1) && Family(op) < 8
    ensures res.Ok? ==> WellFormed(res.value) && res.value == s1.(v := res.value.v, pc := res.value.pc, stack := res.value.stack)
    ensures res.Err? ==> res.fault == StackEmpty
  {
    var x, y := RegX(op), RegY(op);
    match Family(op)
    case 0x0 =>
      if op == 0x00E0 then Ok(s1)   // win.Clear(): the recorded pixels stay
      else if op == 0x00EE then
        if |s1.stack| == 0 then Err(StackEmpty)
        else Ok(s1.(pc := s1.stack[|s1.stack| - 1], stack := s1.stack[..|s1.stack| - 1]))
      else Ok(s1)
    case 0x1 => Ok(s1.(pc := Address(op)))
    case 0x2 => Ok(s1.(stack := s1.stack + [s1.pc], pc := Address(op)))
    case 0x3 => Ok(SkipIf(s1, s1.v[x] == Byte(op)))
    case 0x4 => Ok(SkipIf(s1, s1.v[x] != Byte(op)))
    case 0x5 => Ok(SkipIf(s1, s1.v[x] == s1.v[y]))
    case 0x6 => Ok(s1.(v := s1.v[x := Byte(op)]))
    case 0x7 => Ok(s1.(v := s1.v[x := Add32(s1.v[x], Byte(op))]))
  }

  /** Families 0x8..0xF of ExecuteInstruction's switch, on the state after `pc += 2`.
    * `r` stands for the random number Cxnn draws. */
  function ExecHigh(s1: State, op: Opcode, r: int32): (res: Result<State>)
    requires WellFormed(s1) && Family(op) >= 8
    ensures res.Ok? ==> WellFormed(res.value)
    ensures res.Ok? ==> res.value.keyIsActive == s1.keyIsActive && res.value.speed == s1.speed
    ensures res.Ok? ==> res.value.paused == (s1.paused || IsWaitForKey(op))
    ensures res.Ok? && !WritesTimer(op) ==>
              res.value.delayTimer == s1.delayTimer && res.value.soundTimer == s1.soundTimer
  {
    var x, y := RegX(op), RegY(op);
    match Family(op)
    case 0x8 => Ok(s1.(v := Alu(s1.v, x, y, Nibble(op))))
    case 0x9 => Ok(SkipIf(s1, s1.v[x] != s1.v[y]))
    case 0xA => Ok(s1.(i := Address(op)))
    case 0xB => Ok(s1.(pc := Add32(Address(op), s1.v[0])))
    case 0xC => Ok(s1.(v := s1.v[x := And32(r, Byte(op))]))
    case 0xD => Draw(s1, x, y, Nibble(op))
    case 0xE =>
      if Byte(op) == 0x9E then Ok(SkipIf(s1, KeyDown(s1.keyIsActive, s1.v[x])))
      else if Byte(op) == 0xA1 then Ok(SkipIf(s1, !KeyDown(s1.keyIsActive, s1.v[x])))
      else Ok(s1)
    case 0xF => Misc(s1, x, Byte(op))
  }

  /** ExecuteInstruction: pc += 2, then the instruction's own effect. The switch names
    * all sixteen families, so its `default` branch cannot be reached. */
  function Exec(s: State, op: Opcode, r: int32): (res: Result<State>)
    requires WellFormed(s)
    ensures res.Ok? ==> WellFormed(res.value)
    ensures res.Ok? ==> res.value.keyIsActive == s.keyIsActive && res.value.speed == s.speed
    ensures res.Ok? ==> res.value.paused == (s.paused || IsWaitForKey(op))
    ensures res.Ok? && !WritesTimer(op) ==>
              res.value.delayTimer == s.delayTimer && res.value.soundTimer == s.soundTimer
  {
    var s1 := s.(pc := Add32(s.pc, 2));
    if Family(op) < 8 then ExecLow(s1, op) else ExecHigh(s1, op, r)
  }

  // ------------------------------------------------------------- the frame

  /** One pass of the `speed` loop: nothing when paused, otherwise fetch and execute. */
  function Step(s: State, r: int32): (res: Result<State>)
    requires WellFormed(s)
    ensures res.Ok? ==> WellFormed(res.value) && res.value.speed == s.speed
    ensures res.Ok? ==> res.value.keyIsActive == s.keyIsActive
    ensures s.paused ==> res == Ok(s)
  {
    if s.paused then Ok(s)
    else
      match Fetch(s)
      case Err(f) => Err(f)
      case Ok(op) => Exec(s, op, r)
  }

  /** Passes k..n-1 of the `speed` loop; pass k draws its random number as rand(k). */
  function Run(s: State, k: nat, n: nat, rand: nat -> int32): (res: Result<State>)
    requires WellFormed(s) && k <= n
    ensures res.Ok? ==> WellFormed(res.value) && res.value.speed == s.speed
    decreases n - k
  {
    if k == n then Ok(s)
    else
      match Step(s, rand(k))
      case Err(f) => Err(f)
      case Ok(t) => Run(t, k + 1, n, rand)
  }

  /** The opcodes the passes k..n-1 execute, in order (up to a fault): at most one
    * per pass. */
  function Trace(s: State, k: nat, n: nat, rand: nat -> int32): (ops: seq<Opcode>)
    requires WellFormed(s) && k <= n
    ensures |ops| <= n - k
    decreases n - k
  {
    if k == n || s.paused then []
    else
      match Fetch(s)
      case Err(_) => []
      case Ok(op) =>
        match Exec(s, op, rand(k))
        case Err(_) => [op]
        case Ok(t) => [op] + Trace(t, k + 1, n, rand)
  }

  /** How often `for (int i = 0; i < speed; i++)` goes round. */
  function Passes(speed: int32): nat
  {
    if speed > 0 then speed as nat else 0
  }

  /** UpdateTimers: each positive timer drops by one. */
  function Tick(t: int32): (r: int32)
    ensures t > 0 ==> r == t - 1
    ensures t <= 0 ==> r == t
    ensures t >= 0 ==> r >= 0
  {
    if t > 0 then t - 1 else t
  }

  /** UpdateTimers: a positive timer counts down by one, one at zero (or below) stays;
    * nothing else in the machine changes. */
  function UpdateTimers(s: State): (t: State)
    ensures t.(delayTimer := s.delayTimer, soundTimer := s.soundTimer) == s
    ensures s.delayTimer > 0 ==> t.delayTimer == s.delayTimer - 1
    ensures s.delayTimer <= 0 ==> t.delayTimer == s.delayTimer
    ensures s.soundTimer > 0 ==> t.soundTimer == s.soundTimer - 1
    ensures s.soundTimer <= 0 ==> t.soundTimer == s.soundTimer
  {
    s.(delayTimer := Tick(s.delayTimer), soundTimer := Tick(s.soundTimer))
  }

  /** One iteration of the `while (win.IsOpen)` loop of Cycle, without the drawing:
    * `speed` passes, then the timers, unless the machine is paused by then. */
  function Frame(s: State, rand: nat -> int32): (res: Result<State>)
    requires WellFormed(s)
    ensures res.Ok? ==> WellFormed(res.value)
  {
    match Run(s, 0, Passes(s.speed), rand)
    case Err(f) => Err(f)
    case Ok(t) => Ok(if t.paused then t else UpdateTimers(t))
  }

  /** Whether PlaySound starts the speaker at the end of a frame. */
  predicate SoundOn(s: State)
  {
    s.soundTimer > 0
  }
}
