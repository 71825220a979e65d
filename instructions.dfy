/**
 * What single instructions of ExecuteInstruction (Chip8Emulator/CPU.cs) do,
 * stated as lemmas about Chip8.Exec: the call stack, the conditional skips,
 * the 8xyk flags, the immediate and random loads, the font pointer, the BCD
 * store and the register dump and reload.
 */
module Instructions {
  import opened Words
  import opened Chip8

  // ---------------------------------------------------------------- decode

  /** The opcode fields are its hexadecimal digits: they reassemble the opcode, nn is
    * the last two digits and nnn the last three. */
  lemma DecodeFields(op: Opcode)
    ensures op == 0x1000 * Family(op) + 0x100 * RegX(op) + 0x10 * RegY(op) + Nibble(op)
    ensures Byte(op) == 0x10 * RegY(op) + Nibble(op)
    ensures Address(op) == 0x100 * RegX(op) + Byte(op)
  {
    var f, x, y, n := Family(op), RegX(op), RegY(op), Nibble(op);
    var q1 := op / 0x10;
    var q2 := q1 / 0x10;
    assert op == 0x10 * q1 + n;
    assert q1 == 0x10 * q2 + y;
    DivModUnique(op, 0x100, q2, 0x10 * y + n);
    assert q2 == 0x10 * (q2 / 0x10) + x;
    DivModUnique(op, 0x1000, q2 / 0x10, 0x100 * x + 0x10 * y + n);
  }

  /** The source's masks select the same fields: opcode & 0xF000, & 0x0F00 and & 0x00F0
    * are the family, x and y left in place (so the shifts by 12, 8 and 4 bring back
    * Family, RegX and RegY), and & 0x000F, & 0x00FF and & 0x0FFF are n, nn and nnn. */
  lemma MaskFields(op: Opcode)
    ensures And32(op, 0xF000) == 0x1000 * Family(op)
    ensures And32(op, 0x0F00) == 0x100 * RegX(op)
    ensures And32(op, 0x00F0) == 0x10 * RegY(op)
    ensures And32(op, 0x000F) == Nibble(op)
    ensures And32(op, 0x00FF) == Byte(op)
    ensures And32(op, 0x0FFF) == Address(op)
  {
    assert Pow2(4) == 0x10 && Pow2(8) == 0x100 && Pow2(12) == 0x1000;
    AndFieldMask(op, 4, 12);
    assert (op / 0x1000) % 0x10 == op / 0x1000;
    AndFieldMask(op, 4, 8);
    AndFieldMask(op, 4, 4);
    AndLowMask(op, 4);
    AndLowMask(op, 8);
    AndLowMask(op, 12);
  }

  // ------------------------------------------------------------ subroutines

  /** 2nnn pushes the address after itself and jumps to nnn; a 00EE executed next
    * pops that address, so CALL then RET leaves the machine exactly as if only
    * the CALL's own `pc += 2` had happened. */
  lemma CallThenReturn(s: State, call: Opcode, r1: int32, r2: int32)
    requires WellFormed(s) && Family(call) == 0x2
    ensures Exec(s, call, r1).Ok?
    ensures Exec(s, call, r1).value.pc == Address(call)
    ensures Exec(s, call, r1).value.stack == s.stack + [Add32(s.pc, 2)]
    ensures Exec(Exec(s, call, r1).value, 0x00EE, r2) == Ok(s.(pc := Add32(s.pc, 2)))
  {
    var t := Exec(s, call, r1).value;
    assert t == s.(stack := s.stack + [Add32(s.pc, 2)], pc := Address(call));
    assert Family(0x00EE) == 0;
    assert (t.stack + [])[..|t.stack| - 1] == s.stack;
  }

  /** 00EE on an empty stack is Stack<int>.Pop's InvalidOperationException. */
  lemma ReturnOnEmptyStack(s: State, r: int32)
    requires WellFormed(s) && s.stack == []
    ensures Exec(s, 0x00EE, r) == Err(StackEmpty)
  {
    assert Family(0x00EE) == 0;
  }

  // ----------------------------------------------------------------- skips

  /** The condition under which 3xnn, 4xnn, 5xy0 and 9xy0 skip the next instruction.
    * The last digit of 5xyk and 9xyk is not inspected. */
  predicate SkipTaken(s: State, op: Opcode)
    requires |s.v| == 16
  {
    var vx, vy, nn := s.v[RegX(op)], s.v[RegY(op)], Byte(op);
    match Family(op)
    case 0x3 => vx == nn
    case 0x4 => vx != nn
    case 0x5 => vx == vy
    case 0x9 => vx != vy
    case _ => false
  }

  /** Each skip adds a further 2 to pc exactly when its condition holds, and changes
    * nothing else. */
  lemma {:induction false} Skip(s: State, op: Opcode, r: int32)
    requires WellFormed(s) && Family(op) in {0x3, 0x4, 0x5, 0x9}
    ensures Exec(s, op, r) ==
            Ok(s.(pc := if SkipTaken(s, op) then Add32(Add32(s.pc, 2), 2) else Add32(s.pc, 2)))
    ensures s.pc + 4 < 0x8000_0000 ==>
            Exec(s, op, r).value.pc == s.pc + (if SkipTaken(s, op) then 4 else 2)
  {
  }

  /** Ex9E skips when the key named by V[x] is down, ExA1 when it is not; a V[x]
    * outside the 16-entry table counts as released, so ExA1 then always skips. */
  lemma KeySkip(s: State, op: Opcode, r: int32)
    requires WellFormed(s) && Family(op) == 0xE && (Byte(op) == 0x9E || Byte(op) == 0xA1)
    ensures var down := s.v[RegX(op)] in s.keyIsActive && s.keyIsActive[s.v[RegX(op)]];
            var taken := if Byte(op) == 0x9E then down else !down;
            Exec(s, op, r) == Ok(s.(pc := if taken then Add32(Add32(s.pc, 2), 2) else Add32(s.pc, 2)))
    ensures s.keyIsActive.Keys == KeyCodes && !(0 <= s.v[RegX(op)] < 16) && Byte(op) == 0xA1 ==>
            Exec(s, op, r) == Ok(s.(pc := Add32(Add32(s.pc, 2), 2)))
  {
  }

  // ------------------------------------------------------- flow and no-ops

  /** Opcodes ExecuteInstruction accepts without any effect beyond `pc += 2`: 00E0
    * (it clears the window, not `vectors`) and every sub-opcode the inner switches
    * of families 0, 8, E and F do not list. */
  predicate NoEffect(op: Opcode)
  {
    match Family(op)
    case 0x0 => op != 0x00EE
    case 0x8 => Nibble(op) !in {0x0, 0x1, 0x2, 0x3, 0x4, 0x5, 0x6, 0x7, 0xE}
    case 0xE => Byte(op) != 0x9E && Byte(op) != 0xA1
    case 0xF => Byte(op) !in {0x07, 0x0A, 0x15, 0x18, 0x1E, 0x29, 0x33, 0x55, 0x65}
    case _ => false
  }

  lemma NoEffectInstructions(s: State, op: Opcode, r: int32)
    requires WellFormed(s) && NoEffect(op)
    ensures Exec(s, op, r) == Ok(s.(pc := Add32(s.pc, 2)))
  {
  }

  /** 1nnn and Bnnn: jumps to nnn and to nnn + V0; neither is masked to 12 bits. */
  lemma Jumps(s: State, op: Opcode, r: int32)
    requires WellFormed(s) && (Family(op) == 0x1 || Family(op) == 0xB)
    ensures Family(op) == 0x1 ==> Exec(s, op, r) == Ok(s.(pc := Address(op)))
    ensures Family(op) == 0xB ==> Exec(s, op, r) == Ok(s.(pc := Add32(Address(op), s.v[0])))
    ensures Family(op) == 0xB && s.v[0] < 0x7FFF_0000 ==> Exec(s, op, r).value.pc == Address(op) + s.v[0]
  {
  }

  // ------------------------------------------------------------ 6xnn, 7xnn

  /** 6xnn loads nn; 7xnn adds nn without masking to 8 bits and without touching VF. */
  lemma LoadAndAddImmediate(s: State, op: Opcode, r: int32)
    requires WellFormed(s) && (Family(op) == 0x6 || Family(op) == 0x7)
    ensures Exec(s, op, r).Ok?
    ensures var t := Exec(s, op, r).value;
            t == s.(pc := Add32(s.pc, 2), v := t.v) &&
            (forall k :: 0 <= k < 16 && k != RegX(op) ==> t.v[k] == s.v[k]) &&
            (Family(op) == 0x6 ==> t.v[RegX(op)] == Byte(op)) &&
            (Family(op) == 0x7 && s.v[RegX(op)] < 0x7FFF_FF00 ==> t.v[RegX(op)] == s.v[RegX(op)] + Byte(op))
  {
  }

  // ------------------------------------------------------------------ 8xyk

  /** 8xy0 copies V[x] INTO V[y], the reverse of the usual CHIP-8 meaning. */
  lemma CopyGoesToY(v: seq<int32>, x: nat, y: nat)
    requires |v| == 16 && x < 16 && y < 16
    ensures Alu(v, x, y, 0x0)[y] == v[x]
    ensures forall k :: 0 <= k < 16 && k != y ==> Alu(v, x, y, 0x0)[k] == v[k]
  {
  }

  /** 8xy1, 8xy2, 8xy3: only V[x] changes (VF too only when x is VF), and bit k of its
    * new pattern is the OR, AND or XOR of bit k of V[x] and V[y]. */
  lemma BitwiseOps(v: seq<int32>, x: nat, y: nat, k: nat)
    requires |v| == 16 && x < 16 && y < 16
    ensures forall j :: 0 <= j < 16 && j != x ==>
              Alu(v, x, y, 0x1)[j] == v[j] && Alu(v, x, y, 0x2)[j] == v[j] && Alu(v, x, y, 0x3)[j] == v[j]
    ensures Bit(Unsigned(Alu(v, x, y, 0x1)[x]), k) == (Bit(Unsigned(v[x]), k) || Bit(Unsigned(v[y]), k))
    ensures Bit(Unsigned(Alu(v, x, y, 0x2)[x]), k) == (Bit(Unsigned(v[x]), k) && Bit(Unsigned(v[y]), k))
    ensures Bit(Unsigned(Alu(v, x, y, 0x3)[x]), k) == (Bit(Unsigned(v[x]), k) != Bit(Unsigned(v[y]), k))
  {
    Or32Bits(v[x], v[y], k);
    And32Bits(v[x], v[y], k);
    Xor32Bits(v[x], v[y], k);
  }

  /** 8xy4 (x not VF): V[x] becomes the sum, not masked; VF is 1 exactly when the sum
    * exceeds 0xFF; the other registers keep their values. */
  lemma AddFlag(v: seq<int32>, x: nat, y: nat)
    requires |v| == 16 && x < 16 && y < 16 && x != VF
    ensures var w := Alu(v, x, y, 0x4);
            w[x] == Add32(v[x], v[y]) &&
            w[VF] == (if Add32(v[x], v[y]) > 0xFF then 1 else 0) &&
            (forall k :: 0 <= k < 16 && k != x && k != VF ==> w[k] == v[k])
    ensures -0x8000_0000 <= v[x] + v[y] < 0x8000_0000 ==>
            Alu(v, x, y, 0x4)[x] == v[x] + v[y] && (Alu(v, x, y, 0x4)[VF] == 1 <==> v[x] + v[y] > 0xFF)
  {
  }

  /** 8xy5 (x, y not VF): VF is 1 exactly when V[x] > V[y], judged on the old values;
    * V[x] becomes V[x] - V[y], which may be negative. */
  lemma SubFlag(v: seq<int32>, x: nat, y: nat)
    requires |v| == 16 && x < 16 && y < 16 && x != VF && y != VF
    ensures var w := Alu(v, x, y, 0x5);
            w[x] == Sub32(v[x], v[y]) &&
            w[VF] == (if v[x] > v[y] then 1 else 0) &&
            (forall k :: 0 <= k < 16 && k != x && k != VF ==> w[k] == v[k])
    ensures -0x8000_0000 <= v[x] - v[y] < 0x8000_0000 ==> Alu(v, x, y, 0x5)[x] == v[x] - v[y]
  {
  }

  /** 8xy7 (x, y not VF): VF is 1 exactly when V[y] > V[x]; V[x] becomes V[y] - V[x]. */
  lemma SubnFlag(v: seq<int32>, x: nat, y: nat)
    requires |v| == 16 && x < 16 && y < 16 && x != VF && y != VF
    ensures var w := Alu(v, x, y, 0x7);
            w[x] == Sub32(v[y], v[x]) &&
            w[VF] == (if v[y] > v[x] then 1 else 0) &&
            (forall k :: 0 <= k < 16 && k != x && k != VF ==> w[k] == v[k])
    ensures -0x8000_0000 <= v[y] - v[x] < 0x8000_0000 ==> Alu(v, x, y, 0x7)[x] == v[y] - v[x]
  {
  }

  /** The lowest bit of an int32's pattern is its remainder modulo 2. */
  lemma LowBit(a: int32)
    ensures Bit(Unsigned(a), 0) <==> a % 2 == 1
  {
    assert Unsigned(a) % 2 == a % 2 by {
      assert Unsigned(a) == a % TwoTo32;
      assert TwoTo32 == 2 * 0x8000_0000;
    }
  }

  /** 8xy6 sets VF to the low bit of V[x] and does NOT shift V[x]. */
  lemma ShiftRightFlag(v: seq<int32>, x: nat, y: nat)
    requires |v| == 16 && x < 16 && y < 16
    ensures Alu(v, x, y, 0x6) == v[VF := v[x] % 2]
  {
    AndOne(v[x]);
    LowBit(v[x]);
  }

  /** 8xyE (x not VF): VF is V[x] & 0x80, that is 0x80 (not 1) when bit 7 of V[x] is
    * set and 0 otherwise; V[x] doubles without masking to 8 bits. */
  lemma ShiftLeftFlag(v: seq<int32>, x: nat, y: nat)
    requires |v| == 16 && x < 16 && y < 16 && x != VF
    ensures var w := Alu(v, x, y, 0xE);
            w[VF] == (if Bit(Unsigned(v[x]), 7) then 0x80 else 0) &&
            w[x] == Mul32(v[x], 2) &&
            (forall k :: 0 <= k < 16 && k != x && k != VF ==> w[k] == v[k])
    ensures -0x4000_0000 <= v[x] < 0x4000_0000 ==> Alu(v, x, y, 0xE)[x] == 2 * v[x]
  {
    AndBit7(v[x]);
  }

  /** 8xyE on V[x] = 0xFF: VF becomes 0x80 and V[x] becomes 0x1FE. */
  lemma ShiftLeftOfFF(v: seq<int32>, x: nat, y: nat)
    requires |v| == 16 && x < 16 && y < 16 && x != VF && v[x] == 0xFF
    ensures Alu(v, x, y, 0xE)[VF] == 0x80 && Alu(v, x, y, 0xE)[x] == 0x1FE
  {
    AndBit7(v[x]);
    assert Bit(0xFF, 7);
  }

  // -------------------------------------------------------------- Annn, Cxnn

  /** Annn sets I to nnn. */
  lemma SetIndex(s: State, op: Opcode, r: int32)
    requires WellFormed(s) && Family(op) == 0xA
    ensures Exec(s, op, r) == Ok(s.(pc := Add32(s.pc, 2), i := Address(op)))
    ensures 0 <= Exec(s, op, r).value.i < 0x1000
  {
  }

  /** Cxnn with random value r: V[x] := r & nn lies in 0..nn, and in 0..r when r is
    * not negative; with nn = 0 it is always 0. */
  lemma RandomMasked(s: State, op: Opcode, r: int32)
    requires WellFormed(s) && Family(op) == 0xC
    ensures Exec(s, op, r).Ok?
    ensures var t := Exec(s, op, r).value;
            t == s.(pc := Add32(s.pc, 2), v := s.v[RegX(op) := t.v[RegX(op)]]) &&
            0 <= t.v[RegX(op)] <= Byte(op) &&
            (r >= 0 ==> t.v[RegX(op)] <= r)
    ensures forall k: nat :: Bit(Unsigned(Exec(s, op, r).value.v[RegX(op)]), k) == (Bit(Unsigned(r), k) && Bit(Byte(op), k))
  {
    var x := RegX(op);
    var s1 := s.(pc := Add32(s.pc, 2));
    assert Exec(s, op, r) == ExecHigh(s1, op, r);
    assert ExecHigh(s1, op, r) == Ok(s1.(v := s1.v[x := And32(r, Byte(op))]));
    AndMask(r, Byte(op));
    forall k: nat
      ensures Bit(Unsigned(And32(r, Byte(op))), k) == (Bit(Unsigned(r), k) && Bit(Byte(op), k))
    {
      And32Bits(r, Byte(op), k);
    }
  }

  // ------------------------------------------------------------------ Fxnn

  /** Fx29 points I at V[x] * 5; for a digit 0..F that is the start of its 5-byte
    * glyph in the font LoadSpritesToMemory writes. */
  lemma FontAddress(s: State, op: Opcode, r: int32)
    requires WellFormed(s) && Family(op) == 0xF && Byte(op) == 0x29
    ensures Exec(s, op, r) == Ok(s.(pc := Add32(s.pc, 2), i := Mul32(s.v[RegX(op)], 5)))
    ensures 0 <= s.v[RegX(op)] < 16 ==>
            Exec(s, op, r).value.i == 5 * s.v[RegX(op)] && Exec(s, op, r).value.i + 5 <= |Font|
  {
  }

  /** Fx1E adds V[x] to I without masking to 12 bits. */
  lemma AddToIndex(s: State, op: Opcode, r: int32)
    requires WellFormed(s) && Family(op) == 0xF && Byte(op) == 0x1E
    ensures Exec(s, op, r) == Ok(s.(pc := Add32(s.pc, 2), i := Add32(s.i, s.v[RegX(op)])))
    ensures -0x8000_0000 <= s.i + s.v[RegX(op)] < 0x8000_0000 ==>
            Exec(s, op, r).value.i == s.i + s.v[RegX(op)]
  {
  }

  /** Fx07, Fx15 and Fx18 move values between V[x] and the timers, unmasked. */
  lemma TimerTransfers(s: State, op: Opcode, r: int32)
    requires WellFormed(s) && Family(op) == 0xF && Byte(op) in {0x07, 0x15, 0x18}
    ensures Byte(op) == 0x07 ==> Exec(s, op, r) == Ok(s.(pc := Add32(s.pc, 2), v := s.v[RegX(op) := s.delayTimer]))
    ensures Byte(op) == 0x15 ==> Exec(s, op, r) == Ok(s.(pc := Add32(s.pc, 2), delayTimer := s.v[RegX(op)]))
    ensures Byte(op) == 0x18 ==> Exec(s, op, r) == Ok(s.(pc := Add32(s.pc, 2), soundTimer := s.v[RegX(op)]))
  {
  }

  /** Fx0A only sets `paused`; no instruction clears it, and Frames.RunPaused shows
    * that a paused machine then executes nothing more. */
  lemma WaitForKey(s: State, op: Opcode, r: int32)
    requires WellFormed(s) && IsWaitForKey(op)
    ensures Exec(s, op, r) == Ok(s.(pc := Add32(s.pc, 2), paused := true))
  {
  }

  // ------------------------------------------------------- Fx33, Fx55, Fx65

  /** The three quotients of Fx33 on a value that is not negative: its decimal digits,
    * the first of which fits a byte exactly when the value is below 25600. */
  lemma DecimalDigits(n: int)
    requires n >= 0
    ensures Quot(n, 100) == n / 100 && Quot(Rem(n, 100), 10) == (n / 10) % 10 && Rem(n, 10) == n % 10
    ensures 100 * (n / 100) + 10 * ((n / 10) % 10) + n % 10 == n
    ensures n / 100 < 0x100 <==> n < 25600
  {
    var q, r := n / 100, n % 100;
    var t, o := r / 10, r % 10;
    assert n == 100 * q + r && r == 10 * t + o;
    DivModUnique(n, 100, q, r);
    assert Rem(n, 100) == r;
    DivModUnique(n, 10, 10 * q + t, o);
    DivModUnique(10 * q + t, 10, q, t);
  }

  /** On a negative value one of Fx33's three conversions is out of byte range. */
  lemma NegativeDigits(n: int)
    requires n < 0
    ensures Quot(n, 100) < 0 || Quot(Rem(n, 100), 10) < 0 || Rem(n, 10) < 0
  {
  }

  /** Fx33: the store succeeds exactly when V[x] is in 0..25599 (each quotient then
    * fits Convert.ToByte) and I..I+2 are addresses. It writes the hundreds, tens and
    * ones of V[x] to memory[I], [I+1], [I+2], which read back as V[x], and touches no
    * other cell. For V[x] above 999 the "hundreds" cell holds more than one digit. */
  lemma Bcd(s: State, x: nat)
    requires WellFormed(s) && x < 16
    ensures var vx, a := s.v[x], s.i;
            StoreBcd(s, x).Ok? <==> 0 <= vx < 25600 && 0 <= a && a + 2 < MemorySize
    ensures var vx, a := s.v[x], s.i;
            !(0 <= vx < 25600) && 0 <= a && a + 2 < MemorySize ==> StoreBcd(s, x) == Err(Overflow)
    ensures var vx, a := s.v[x], s.i;
            0 <= vx < 25600 && !(0 <= a && a + 2 < MemorySize) ==> StoreBcd(s, x) == Err(IndexOutOfRange)
    ensures StoreBcd(s, x).Ok? ==>
            var m: seq<int>, vx, a := StoreBcd(s, x).value.memory, s.v[x], s.i;
            m[a] == vx / 100 && m[a + 1] == (vx / 10) % 10 && m[a + 2] == vx % 10 &&
            100 * m[a] + 10 * m[a + 1] + m[a + 2] == vx &&
            (vx < 1000 ==> m[a] < 10) &&
            (forall b :: 0 <= b < MemorySize && !(a <= b <= a + 2) ==> m[b] == s.memory[b])
  {
    if s.v[x] < 0 {
      NegativeDigits(s.v[x]);
    } else {
      DecimalDigits(s.v[x]);
    }
  }

  /** Fx55's loop from register k: it succeeds exactly when V[k..x] all fit a byte
    * and I+k..I+x are addresses, and then memory[I + j] holds V[j] for j in k..x and
    * every other cell is unchanged. */
  lemma {:induction false} StoreFrom(s: State, x: nat, k: nat)
    requires WellFormed(s) && x < 16 && k <= x + 1
    ensures StoreRegisters(s, x, k).Ok? <==>
            (forall j :: k <= j <= x ==> 0 <= s.v[j] < 0x100) && (k == x + 1 || (0 <= s.i + k && s.i + x < MemorySize))
    ensures StoreRegisters(s, x, k).Ok? ==>
            var m := StoreRegisters(s, x, k).value.memory;
            (forall j :: k <= j <= x ==> m[s.i + j] == s.v[j]) &&
            (forall b :: 0 <= b < MemorySize && !(s.i + k <= b <= s.i + x) ==> m[b] == s.memory[b])
    decreases x + 1 - k
  {
    if k <= x {
      var b := ToByte(s.v[k]);
      var a := s.i + k;
      if b.Some? && 0 <= a < MemorySize {
        var t := s.(memory := s.memory[a := b.value]);
        assert StoreRegisters(s, x, k) == StoreRegisters(t, x, k + 1);
        StoreFrom(t, x, k + 1);
        if StoreRegisters(t, x, k + 1).Ok? {
          var m := StoreRegisters(t, x, k + 1).value.memory;
          assert m[a] == t.memory[a] == s.v[k];
          forall j | k <= j <= x
            ensures m[s.i + j] == s.v[j]
          {
            if j == k {
              assert m[a] == s.v[k];
            }
          }
        }
      }
    }
  }

  /** Fx65's loop from register k: it succeeds exactly when I+k..I+x are addresses,
    * and then V[j] holds memory[I + j] for j in k..x and the other registers are
    * unchanged. */
  lemma {:induction false} LoadFrom(s: State, x: nat, k: nat)
    requires WellFormed(s) && x < 16 && k <= x + 1
    ensures LoadRegisters(s, x, k).Ok? <==> k == x + 1 || (0 <= s.i + k && s.i + x < MemorySize)
    ensures LoadRegisters(s, x, k).Ok? ==>
            var v := LoadRegisters(s, x, k).value.v;
            (forall j :: k <= j <= x ==> v[j] == s.memory[s.i + j]) &&
            (forall j :: 0 <= j < 16 && !(k <= j <= x) ==> v[j] == s.v[j])
    decreases x + 1 - k
  {
    if k <= x {
      var a := s.i + k;
      if 0 <= a < MemorySize {
        var t := s.(v := s.v[k := s.memory[a]]);
        LoadFrom(t, x, k + 1);
      }
    }
  }

  /** An Fxnn opcode executes as Misc with that x and nn on the state after `pc += 2`. */
  lemma ExecMisc(s: State, op: Opcode, x: nat, nn: nat, r: int32)
    requires WellFormed(s) && x < 16 && nn < 0x100 && op == 0xF000 + 0x100 * x + nn
    ensures Family(op) == 0xF && RegX(op) == x && Byte(op) == nn
    ensures Exec(s, op, r) == Misc(s.(pc := Add32(s.pc, 2)), x, nn)
  {
    DivModUnique(op, 0x1000, 0xF, 0x100 * x + nn);
    DivModUnique(op, 0x100, 0xF0 + x, nn);
    DivModUnique(0xF0 + x, 0x10, 0xF, x);
    var s1 := s.(pc := Add32(s.pc, 2));
    assert Exec(s, op, r) == ExecHigh(s1, op, r);
  }

  /** Fx55 after the `pc += 2`: it succeeds exactly when V0..Vx fit a byte and I..I+x
    * are addresses; then memory[I + j] holds V[j] for j in 0..x, and the rest of
    * memory and every other part of the state is unchanged. */
  lemma StoreAll(s: State, x: nat)
    requires WellFormed(s) && x < 16
    ensures var e := Misc(s, x, 0x55);
            e.Ok? <==> (forall j :: 0 <= j <= x ==> 0 <= s.v[j] < 0x100) && 0 <= s.i && s.i + x < MemorySize
    ensures var e := Misc(s, x, 0x55);
            e.Ok? ==>
            e.value == s.(memory := e.value.memory) &&
            (forall j :: 0 <= j <= x ==> e.value.memory[s.i + j] == s.v[j]) &&
            (forall b :: 0 <= b < MemorySize && !(s.i <= b <= s.i + x) ==> e.value.memory[b] == s.memory[b])
  {
    assert Misc(s, x, 0x55) == StoreRegisters(s, x, 0);
    StoreFrom(s, x, 0);
  }

  /** Fx65 after the `pc += 2`: it succeeds exactly when I..I+x are addresses; then
    * V[j] holds memory[I + j] for j in 0..x, and the other registers and every other
    * part of the state are unchanged. */
  lemma LoadAll(s: State, x: nat)
    requires WellFormed(s) && x < 16
    ensures var e := Misc(s, x, 0x65);
            e.Ok? <==> 0 <= s.i && s.i + x < MemorySize
    ensures var e := Misc(s, x, 0x65);
            e.Ok? ==>
            e.value == s.(v := e.value.v) &&
            (forall j :: 0 <= j <= x ==> e.value.v[j] == s.memory[s.i + j]) &&
            (forall j :: x < j < 16 ==> e.value.v[j] == s.v[j])
  {
    assert Misc(s, x, 0x65) == LoadRegisters(s, x, 0);
    LoadFrom(s, x, 0);
  }

  /** Fx55 then Fx65 with the same x and an unchanged I and memory (with ExecMisc,
    * after the `pc += 2` of each): when V0..Vx fit a byte and I..I+x are addresses,
    * the reload gives V0..Vx back exactly, whatever happened to the registers in
    * between. */
  lemma StoreThenLoad(s: State, u: State, x: nat)
    requires WellFormed(s) && WellFormed(u) && x < 16
    requires forall j :: 0 <= j <= x ==> 0 <= s.v[j] < 0x100
    requires 0 <= s.i && s.i + x < MemorySize
    ensures Misc(s, x, 0x55).Ok?
    ensures u.memory == Misc(s, x, 0x55).value.memory && u.i == s.i ==>
            Misc(u, x, 0x65).Ok? &&
            (forall j :: 0 <= j <= x ==> Misc(u, x, 0x65).value.v[j] == s.v[j])
  {
    StoreAll(s, x);
    LoadAll(u, x);
  }
}
