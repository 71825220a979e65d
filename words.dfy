/**
 * The arithmetic the interpreter inherits from C#: `int` is a 32-bit
 * two's-complement integer whose `+`, `-`, `*` and `<<` wrap around silently
 * (unchecked context), `/` and `%` truncate toward zero, `&`, `|`, `^` work on
 * the two's-complement bit pattern, and `Convert.ToByte(int)` throws outside
 * 0..255.
 */
module Words {

  type int32 = x: int | -0x8000_0000 <= x < 0x8000_0000
  type byte = b: int | 0 <= b < 0x100

  const TwoTo32: int := 0x1_0000_0000

  datatype Option<T> = None | Some(value: T)

  /** The mathematical value `n` reduced to the int32 it wraps around to. */
  function Wrap32(n: int): (r: int32)
    ensures -0x8000_0000 <= n < 0x8000_0000 ==> r == n
    ensures (n - r) % TwoTo32 == 0
  {
    var m := n % TwoTo32;
    if m < 0x8000_0000 then m else m - TwoTo32
  }

  // C#'s unchecked `+`, `-` and `*` on `int`: the mathematical value when it fits,
  // otherwise the int32 that differs from it by a multiple of 2^32.

  function Add32(a: int32, b: int32): (r: int32)
    ensures -0x8000_0000 <= a + b < 0x8000_0000 ==> r == a + b
    ensures (a + b - r) % TwoTo32 == 0
  {
    Wrap32(a + b)
  }

  function Sub32(a: int32, b: int32): (r: int32)
    ensures -0x8000_0000 <= a - b < 0x8000_0000 ==> r == a - b
    ensures (a - b - r) % TwoTo32 == 0
  {
    Wrap32(a - b)
  }

  function Mul32(a: int32, b: int32): (r: int32)
    ensures -0x8000_0000 <= a * b < 0x8000_0000 ==> r == a * b
    ensures (a * b - r) % TwoTo32 == 0
  {
    Wrap32(a * b)
  }

  // ------------------------------------------------------------ bit patterns

  function Pow2(n: nat): (r: nat)
    ensures r >= 1
  {
    if n == 0 then 1 else 2 * Pow2(n - 1)
  }

  // The bitwise operations on natural numbers, bit by bit from the least significant
  // end until no set bit is left. On two 32-bit patterns they give the 32-bit result.

  /** a AND b. */
  function AndBits(a: nat, b: nat): (r: nat)
    ensures r <= a && r <= b
    decreases a
  {
    if a == 0 || b == 0 then 0
    else (if a % 2 == 1 && b % 2 == 1 then 1 else 0) + 2 * AndBits(a / 2, b / 2)
  }

  /** a OR b. */
  function OrBits(a: nat, b: nat): nat
    decreases a + b
  {
    if a == 0 && b == 0 then 0
    else (if a % 2 == 1 || b % 2 == 1 then 1 else 0) + 2 * OrBits(a / 2, b / 2)
  }

  /** a XOR b. */
  function XorBits(a: nat, b: nat): nat
    decreases a + b
  {
    if a == 0 && b == 0 then 0
    else (if a % 2 != b % 2 then 1 else 0) + 2 * XorBits(a / 2, b / 2)
  }

  /** The two's-complement bit pattern of an int32, read as an unsigned number. */
  function Unsigned(a: int32): (u: nat)
    ensures u < TwoTo32
    ensures a >= 0 ==> u == a
  {
    a % TwoTo32
  }

  // C#'s `&`, `|` and `^` on `int`: the operation on the two bit patterns, read back
  // as an int32.

  function And32(a: int32, b: int32): int32
  {
    Wrap32(AndBits(Unsigned(a), Unsigned(b)))
  }

  function Or32(a: int32, b: int32): int32
  {
    Wrap32(OrBits(Unsigned(a), Unsigned(b)))
  }

  function Xor32(a: int32, b: int32): int32
  {
    Wrap32(XorBits(Unsigned(a), Unsigned(b)))
  }

  /** Masking with a non-negative mask yields a value between 0 and the mask. */
  lemma AndMask(a: int32, m: int32)
    requires m >= 0
    ensures 0 <= And32(a, m) <= m
  {
    assert AndBits(Unsigned(a), m) <= m;
  }

  /** Bit k of the pattern `a`. */
  predicate Bit(a: nat, k: nat)
  {
    if k == 0 then a % 2 == 1 else Bit(a / 2, k - 1)
  }

  /** AND with the single bit 2^k keeps that bit of `a` and clears the others. */
  lemma {:induction false} AndBitsPow2(a: nat, k: nat)
    ensures AndBits(a, Pow2(k)) == if Bit(a, k) then Pow2(k) else 0
    decreases k
  {
    if k == 0 {
      if a > 0 {
        assert AndBits(a / 2, 0) == 0;
      }
    } else {
      assert Pow2(k) % 2 == 0 && Pow2(k) / 2 == Pow2(k - 1);
      AndBitsPow2(a / 2, k - 1);
      if a == 0 {
        assert AndBits(0, Pow2(k - 1)) == 0;
      }
    }
  }

  /** The flag of 8xy6: V & 1 is the lowest bit of V's pattern, 0 or 1. */
  lemma AndOne(a: int32)
    ensures And32(a, 1) == if Bit(Unsigned(a), 0) then 1 else 0
  {
    AndBitsPow2(Unsigned(a), 0);
  }

  /** The flag of 8xyE: V & 0x80 is bit 7 of V's pattern left in place, 0 or 128. */
  lemma AndBit7(a: int32)
    ensures And32(a, 0x80) == if Bit(Unsigned(a), 7) then 0x80 else 0
  {
    assert Pow2(7) == 0x80;
    AndBitsPow2(Unsigned(a), 7);
  }

  /** The low k bits of `a` are all 0. */
  predicate LowClear(a: nat, k: nat)
  {
    k == 0 || (a % 2 == 0 && LowClear(a / 2, k - 1))
  }

  lemma {:induction false} LowClearShifted(h: nat, k: nat)
    ensures LowClear(h * Pow2(k), k)
    decreases k
  {
    if k > 0 {
      assert h * Pow2(k) == 2 * (h * Pow2(k - 1));
      LowClearShifted(h, k - 1);
    }
  }

  /** OR of a number whose low k bits are clear with a number below 2^k is their sum. */
  lemma {:induction false} OrDisjoint(a: nat, b: nat, k: nat)
    requires LowClear(a, k) && b < Pow2(k)
    ensures OrBits(a, b) == a + b
    decreases k
  {
    if k == 0 {
      OrZero(a);
    } else if a != 0 || b != 0 {
      OrDisjoint(a / 2, b / 2, k - 1);
    }
  }

  /** OR with 0 is the identity. */
  lemma {:induction false} OrZero(a: nat)
    ensures OrBits(a, 0) == a
    decreases a
  {
    if a > 0 {
      OrZero(a / 2);
    }
  }

  /** `hi << 8 | lo` on C# ints is hi * 256 + lo for two bytes: the big-endian opcode. */
  lemma ShiftOrBytes(hi: byte, lo: byte)
    ensures Or32(Mul32(hi, 0x100), lo) == hi * 0x100 + lo
  {
    assert Pow2(8) == 0x100;
    LowClearShifted(hi, 8);
    OrDisjoint(hi * 0x100, lo, 8);
  }

  // -------------------------------------------------------- bit by bit

  /** No bit of 0 is set. */
  lemma {:induction false} BitZero(k: nat)
    ensures !Bit(0, k)
    decreases k
  {
    if k > 0 {
      BitZero(k - 1);
    }
  }

  /** Bit k of a AND b is set exactly when bit k is set in both. */
  lemma {:induction false} AndBitsBit(a: nat, b: nat, k: nat)
    ensures Bit(AndBits(a, b), k) == (Bit(a, k) && Bit(b, k))
    decreases k
  {
    if a == 0 || b == 0 {
      BitZero(k);
    } else if k > 0 {
      assert AndBits(a, b) / 2 == AndBits(a / 2, b / 2);
      AndBitsBit(a / 2, b / 2, k - 1);
    }
  }

  /** Bit k of a OR b is set exactly when bit k is set in either. */
  lemma {:induction false} OrBitsBit(a: nat, b: nat, k: nat)
    ensures Bit(OrBits(a, b), k) == (Bit(a, k) || Bit(b, k))
    decreases k
  {
    if a == 0 && b == 0 {
      BitZero(k);
    } else if k > 0 {
      assert OrBits(a, b) / 2 == OrBits(a / 2, b / 2);
      OrBitsBit(a / 2, b / 2, k - 1);
    }
  }

  /** Bit k of a XOR b is set exactly when bit k is set in one of them and not the other. */
  lemma {:induction false} XorBitsBit(a: nat, b: nat, k: nat)
    ensures Bit(XorBits(a, b), k) == (Bit(a, k) != Bit(b, k))
    decreases k
  {
    if a == 0 && b == 0 {
      BitZero(k);
    } else if k > 0 {
      assert XorBits(a, b) / 2 == XorBits(a / 2, b / 2);
      XorBitsBit(a / 2, b / 2, k - 1);
    }
  }

  /** OR and XOR of two numbers below 2^n stay below 2^n. */
  lemma {:induction false} OrXorBelow(a: nat, b: nat, n: nat)
    requires a < Pow2(n) && b < Pow2(n)
    ensures OrBits(a, b) < Pow2(n) && XorBits(a, b) < Pow2(n)
    decreases n
  {
    if n > 0 && (a != 0 || b != 0) {
      OrXorBelow(a / 2, b / 2, n - 1);
    }
  }

  /** A 32-bit pattern read back as an int32 and then as a pattern again is unchanged. */
  lemma UnsignedWrap(n: nat)
    requires n < TwoTo32
    ensures Unsigned(Wrap32(n)) == n
  {
  }

  /** C#'s `&` on `int` works bit by bit on the two's-complement patterns. */
  lemma And32Bits(a: int32, b: int32, k: nat)
    ensures Bit(Unsigned(And32(a, b)), k) == (Bit(Unsigned(a), k) && Bit(Unsigned(b), k))
  {
    UnsignedWrap(AndBits(Unsigned(a), Unsigned(b)));
    AndBitsBit(Unsigned(a), Unsigned(b), k);
  }

  /** C#'s `|` on `int` works bit by bit on the two's-complement patterns. */
  lemma Or32Bits(a: int32, b: int32, k: nat)
    ensures Bit(Unsigned(Or32(a, b)), k) == (Bit(Unsigned(a), k) || Bit(Unsigned(b), k))
  {
    Pow2Of32();
    OrXorBelow(Unsigned(a), Unsigned(b), 32);
    UnsignedWrap(OrBits(Unsigned(a), Unsigned(b)));
    OrBitsBit(Unsigned(a), Unsigned(b), k);
  }

  /** C#'s `^` on `int` works bit by bit on the two's-complement patterns. */
  lemma Xor32Bits(a: int32, b: int32, k: nat)
    ensures Bit(Unsigned(Xor32(a, b)), k) == (Bit(Unsigned(a), k) != Bit(Unsigned(b), k))
  {
    Pow2Of32();
    OrXorBelow(Unsigned(a), Unsigned(b), 32);
    UnsignedWrap(XorBits(Unsigned(a), Unsigned(b)));
    XorBitsBit(Unsigned(a), Unsigned(b), k);
  }

  /** (b mod 2p) / 2 == (b / 2) mod p, and b mod 2p has b's parity. */
  lemma HalveMod(b: nat, p: nat)
    requires p >= 1
    ensures (b % (2 * p)) / 2 == (b / 2) % p && (b % (2 * p)) % 2 == b % 2
  {
    var q, r := b / (2 * p), b % (2 * p);
    var m := p * q;
    assert b == 2 * m + r && 0 <= r < 2 * p;
    assert b / 2 == m + r / 2;
    DivModUnique(b / 2, p, q, r / 2);
  }

  /** Reducing modulo 2p (written d) is reducing the half modulo p, then putting the low bit back. */
  lemma ModDouble(b: nat, p: nat, d: nat)
    requires p >= 1 && d == 2 * p
    ensures b % d == 2 * ((b / 2) % p) + b % 2
  {
    HalveMod(b, p);
  }

  /** Dividing by 2p (written d) is halving and then dividing by p. */
  lemma HalveDiv(b: nat, p: nat, d: nat)
    requires p >= 1 && d == 2 * p
    ensures b / d == (b / 2) / p
  {
    var q, r := b / d, b % d;
    var m := p * q;
    assert b == 2 * m + r && 0 <= r < 2 * p;
    assert b / 2 == m + r / 2;
    DivModUnique(b / 2, p, q, r / 2);
  }

  lemma MulDouble(f: int, p: int, d: int)
    requires d == 2 * p
    ensures f * d == 2 * (f * p)
  {
  }

  /** AND with an odd mask keeps the low bit and ANDs the halves. */
  lemma AndBitsOdd(a: nat, c: nat)
    ensures AndBits(a, 2 * c + 1) == a % 2 + 2 * AndBits(a / 2, c)
  {
    var m := 2 * c + 1;
    assert m % 2 == 1 && m / 2 == c;
    if a == 0 {
      assert AndBits(0, c) == 0;
    }
  }

  /** AND with an even mask clears the low bit and ANDs the halves. */
  lemma AndBitsEven(a: nat, c: nat)
    ensures AndBits(a, 2 * c) == 2 * AndBits(a / 2, c)
  {
    var m := 2 * c;
    if a == 0 {
      assert AndBits(0, c) == 0;
    } else if c == 0 {
      assert AndBits(a / 2, 0) == 0;
    } else {
      assert m % 2 == 0 && m / 2 == c;
    }
  }

  /** AND with 2^n - 1, n one-bits, keeps the remainder modulo 2^n. */
  lemma {:induction false} AndLowMask(a: nat, n: nat)
    ensures AndBits(a, Pow2(n) - 1) == a % Pow2(n)
    decreases n
  {
    if n > 0 {
      var p := Pow2(n - 1);
      assert Pow2(n) - 1 == 2 * (p - 1) + 1;
      AndBitsOdd(a, p - 1);
      AndLowMask(a / 2, n - 1);
      ModDouble(a, p, Pow2(n));
    }
  }

  /** AND with w one-bits starting at bit s keeps those bits of `a` in place:
    * the w-bit field at s, times 2^s. */
  lemma {:induction false} AndFieldMask(a: nat, w: nat, s: nat)
    ensures AndBits(a, (Pow2(w) - 1) * Pow2(s)) == (a / Pow2(s)) % Pow2(w) * Pow2(s)
    decreases s
  {
    if s == 0 {
      AndLowMask(a, w);
    } else {
      var p, m := Pow2(s - 1), Pow2(w) - 1;
      var f := ((a / 2) / p) % Pow2(w);
      MulDouble(m, p, Pow2(s));
      AndBitsEven(a, m * p);
      AndFieldMask(a / 2, w, s - 1);
      HalveDiv(a, p, Pow2(s));
      MulDouble(f, p, Pow2(s));
    }
  }

  lemma {:induction false} Pow2Add(m: nat, n: nat)
    ensures Pow2(m + n) == Pow2(m) * Pow2(n)
    decreases m
  {
    if m > 0 {
      Pow2Add(m - 1, n);
    }
  }

  lemma Pow2Of32()
    ensures Pow2(32) == TwoTo32
  {
    assert Pow2(8) == 0x100;
    Pow2Add(8, 8);
    Pow2Add(16, 16);
  }

  // ------------------------------------------------------- division, bytes

  /** C#'s integer division on `int`: truncates toward zero, so the remainder left
    * over has the sign of the dividend and is smaller than the divisor. */
  function Quot(a: int, b: int): (q: int)
    requires b > 0
    ensures a >= 0 ==> 0 <= a - b * q < b
    ensures a < 0 ==> -b < a - b * q <= 0
  {
    if a >= 0 then a / b else -((-a) / b)
  }

  /** C#'s `%` on `int`: the remainder takes the sign of the dividend. */
  function Rem(a: int, b: int): (m: int)
    requires b > 0
    ensures a == b * Quot(a, b) + m
    ensures a >= 0 ==> 0 <= m < b
    ensures a < 0 ==> -b < m <= 0
  {
    a - b * Quot(a, b)
  }

  /** `Convert.ToByte(int)`: the byte with that value, or None where C# throws OverflowException. */
  function ToByte(n: int): (r: Option<byte>)
    ensures r.Some? <==> 0 <= n < 0x100
    ensures r.Some? ==> r.value == n
  {
    if 0 <= n < 0x100 then Some(n) else None
  }

  /** Division with remainder is unique: a == p * q + t with 0 <= t < p pins down both. */
  lemma DivModUnique(a: int, p: int, q: int, t: int)
    requires p >= 1 && a == p * q + t && 0 <= t < p
    ensures a / p == q && a % p == t
  {
    var q', t' := a / p, a % p;
    assert a == p * q' + t' && 0 <= t' < p;
    assert p * (q - q') == t' - t;
    if q - q' >= 1 {
      assert false;
    } else if q - q' <= -1 {
      assert false;
    }
  }
}
