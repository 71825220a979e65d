/**
 * Dxyn of ExecuteInstruction (Chip8Emulator/CPU.cs) against an independent
 * description: the bits of each sprite byte, most significant first,
 * row after row. Whenever V[x] and V[y] are not VF, the draw appends one pixel
 * per set bit, in row-major, most-significant-bit-first order, at
 * (V[x] + col, V[y] + row) wrapped as SetPixel wraps, and leaves VF = 1
 * exactly when it appended a pixel.
 */
module Drawing {
  import opened Words
  import opened Chip8

  /** The eight bits of a sprite byte, most significant first: entry j is bit 7 - j. */
  function SpriteBits(b: byte): (d: seq<bool>)
    ensures |d| == 8
  {
    seq(8, j requires 0 <= j < 8 => Bit(b, 7 - j))
  }

  /** Reducing modulo 2^m keeps the bits below m. */
  lemma {:induction false} BitMod(a: nat, m: nat, k: nat)
    requires k < m
    ensures Bit(a % Pow2(m), k) == Bit(a, k)
    decreases k
  {
    HalveMod(a, Pow2(m - 1));
    if k > 0 {
      BitMod(a / 2, m - 1, k - 1);
    }
  }

  /** Below 2^(k+1), bit k says whether a >= 2^k. */
  lemma {:induction false} BitHigh(a: nat, k: nat)
    requires a < 2 * Pow2(k)
    ensures Bit(a, k) == (a >= Pow2(k))
    decreases k
  {
    if k > 0 {
      BitHigh(a / 2, k - 1);
    }
  }

  /** The sprite byte's `(sprite & 0x80) > 0` test reads bit 7, and `sprite <<= 1` on a
    * byte moves every bit below 7 one place up and clears bit 0. */
  lemma ShiftByte(b: byte)
    ensures Bit(b, 7) == (b >= 0x80)
    ensures var t := (b as int * 2) % 0x100;
            !Bit(t, 0) && forall k :: 0 <= k < 7 ==> Bit(t, k + 1) == Bit(b, k)
  {
    assert Pow2(7) == 0x80;
    BitHigh(b, 7);
    var t := (b as int * 2) % 0x100;
    var q := if b >= 0x80 then 1 else 0;
    DivModUnique(b as int * 2, 0x100, q, b as int * 2 - 0x100 * q);
    DivModUnique(b, 0x80, q, b - 0x80 * q);
    DivModUnique(t, 2, b - 0x80 * q, 0);
    forall k | 0 <= k < 7
      ensures Bit(t, k + 1) == Bit(b, k)
    {
      BitMod(b, 7, k);
    }
  }

  /** The reference pixels of one sprite row: for each set bit, most significant
    * first, the wrapped point (vx + col, vy + row), where col counts from `col`. */
  function RowPixels(bits: seq<bool>, vx: int32, vy: int32, row: nat, col: nat): seq<Pixel>
    requires col + |bits| <= 8 && row < 16
    decreases |bits|
  {
    if bits == [] then []
    else
      (if bits[0] then [WrapPixel(Add32(vx, col), Add32(vy, row))] else [])
      + RowPixels(bits[1..], vx, vy, row, col + 1)
  }

  /** The reference pixels of rows `row`..n-1 of the sprite at `addr`. */
  function SpritePixels(mem: seq<byte>, addr: int, vx: int32, vy: int32, row: nat, n: nat): seq<Pixel>
    requires row <= n < 16 && (row < n ==> 0 <= addr + row && addr + n <= |mem|)
    decreases n - row
  {
    if row == n then []
    else RowPixels(SpriteBits(mem[addr + row]), vx, vy, row, 0) + SpritePixels(mem, addr, vx, vy, row + 1, n)
  }

  /** The registers after a draw step: VF becomes 1 once a pixel has been recorded. */
  function Flagged(v: seq<int32>, drew: bool): (w: seq<int32>)
    requires |v| == 16
    ensures |w| == 16
  {
    if drew then v[VF := 1] else v
  }

  /** One column step reads the leading remaining bit and leaves the rest to the
    * shifted byte. */
  lemma ColumnBits(sprite: byte, col: nat)
    requires col < 8
    ensures var bits := SpriteBits(sprite)[..8 - col];
            var next: byte := (sprite as int * 2) % 0x100;
            bits != [] && bits[0] == (sprite >= 0x80) && SpriteBits(next)[..7 - col] == bits[1..]
  {
    ShiftByte(sprite);
    var next: byte := (sprite as int * 2) % 0x100;
    var bits := SpriteBits(sprite)[..8 - col];
    forall j | 0 <= j < 7 - col
      ensures SpriteBits(next)[j] == bits[j + 1]
    {
      assert Bit(next, (6 - j) + 1) == Bit(sprite, 6 - j);
    }
  }

  /** One column step of the reference row. */
  lemma RowPixelsStep(bits: seq<bool>, vx: int32, vy: int32, row: nat, col: nat)
    requires bits != [] && col + |bits| <= 8 && row < 16
    ensures RowPixels(bits, vx, vy, row, col) ==
            (if bits[0] then [WrapPixel(Add32(vx, col), Add32(vy, row))] else [])
            + RowPixels(bits[1..], vx, vy, row, col + 1)
  {
  }

  /** One column of the column loop against the reference: given what the columns
    * after `col` do, column `col` with leading bit bits[0] extends it. */
  lemma DrawColsStep(c: Canvas, x: nat, y: nat, row: nat, sprite: byte, col: nat, bits: seq<bool>)
    requires |c.v| == 16 && x < 16 && y < 16 && x != VF && y != VF && row < 16 && col < 8
    requires bits != [] && col + |bits| <= 8 && bits[0] == (sprite >= 0x80)
    requires var c' := if sprite >= 0x80
                       then Canvas(c.v[VF := 1], c.vectors + [WrapPixel(Add32(c.v[x], col), Add32(c.v[y], row))])
                       else c;
             var rest := RowPixels(bits[1..], c.v[x], c.v[y], row, col + 1);
             DrawCols(c', x, y, row, (sprite as int * 2) % 0x100, col + 1) ==
             Canvas(Flagged(c'.v, |rest| > 0), c'.vectors + rest)
    ensures var px := RowPixels(bits, c.v[x], c.v[y], row, col);
            DrawCols(c, x, y, row, sprite, col) == Canvas(Flagged(c.v, |px| > 0), c.vectors + px)
  {
    var vx, vy := c.v[x], c.v[y];
    var p := WrapPixel(Add32(vx, col), Add32(vy, row));
    var rest := RowPixels(bits[1..], vx, vy, row, col + 1);
    RowPixelsStep(bits, vx, vy, row, col);
    if sprite >= 0x80 {
      var c' := Canvas(c.v[VF := 1], c.vectors + [p]);
      assert Flagged(c'.v, |rest| > 0) == c.v[VF := 1];
      assert c'.vectors + rest == c.vectors + ([p] + rest);
    }
  }

  /** The column loop against the reference: with `sprite` shifted `col` times from
    * the row's byte, the remaining columns append the pixels of the remaining
    * leading bits. */
  lemma {:induction false} DrawColsPixels(c: Canvas, x: nat, y: nat, row: nat, sprite: byte, col: nat,
                                          bits: seq<bool>)
    requires |c.v| == 16 && x < 16 && y < 16 && x != VF && y != VF && row < 16 && col <= 8
    requires bits == SpriteBits(sprite)[..8 - col]
    ensures var px := RowPixels(bits, c.v[x], c.v[y], row, col);
            DrawCols(c, x, y, row, sprite, col) == Canvas(Flagged(c.v, |px| > 0), c.vectors + px)
    decreases 8 - col
  {
    if col < 8 {
      ColumnBits(sprite, col);
      var c' := if sprite >= 0x80
                then Canvas(c.v[VF := 1], c.vectors + [WrapPixel(Add32(c.v[x], col), Add32(c.v[y], row))])
                else c;
      DrawColsPixels(c', x, y, row, (sprite as int * 2) % 0x100, col + 1, bits[1..]);
      assert c'.v[x] == c.v[x] && c'.v[y] == c.v[y];
      DrawColsStep(c, x, y, row, sprite, col, bits);
    } else {
      assert bits == [];
      assert c.vectors + [] == c.vectors;
    }
  }

  lemma AppendAssoc(a: seq<Pixel>, b: seq<Pixel>, c: seq<Pixel>)
    ensures (a + b) + c == a + (b + c)
  {
  }

  /** The row loop fails exactly when one of the addresses I + row..I + n - 1 lies
    * outside memory. */
  lemma {:induction false} DrawRowsFails(mem: seq<byte>, addr: int32, c: Canvas, x: nat, y: nat, n: nat, row: nat)
    requires |mem| == MemorySize && |c.v| == 16 && x < 16 && y < 16 && n < 16 && row <= n
    ensures DrawRows(mem, addr, c, x, y, n, row).Ok? <==>
            row == n || (0 <= addr + row && addr + n <= MemorySize)
    decreases n - row
  {
    if row == n {
      assert DrawRows(mem, addr, c, x, y, n, row) == Ok(c);
    } else if !(0 <= addr + row < MemorySize) {
      assert DrawRows(mem, addr, c, x, y, n, row) == Err(IndexOutOfRange);
      assert !(0 <= addr + row && addr + n <= MemorySize);
    } else {
      var c' := DrawCols(c, x, y, row, mem[addr + row], 0);
      assert DrawRows(mem, addr, c, x, y, n, row) == DrawRows(mem, addr, c', x, y, n, row + 1);
      DrawRowsFails(mem, addr, c', x, y, n, row + 1);
      assert (row + 1 == n || (0 <= addr + row + 1 && addr + n <= MemorySize)) <==>
             (0 <= addr + row && addr + n <= MemorySize);
    }
  }

  /** Two draw steps compose: pixels p1 then p2 flag VF as p1 + p2 does. */
  lemma FlaggedAppend(c: Canvas, p1: seq<Pixel>, p2: seq<Pixel>)
    requires |c.v| == 16
    ensures var c' := Canvas(Flagged(c.v, |p1| > 0), c.vectors + p1);
            Canvas(Flagged(c'.v, |p2| > 0), c'.vectors + p2) == Canvas(Flagged(c.v, |p1 + p2| > 0), c.vectors + (p1 + p2))
  {
    AppendAssoc(c.vectors, p1, p2);
  }

  /** The row loop against the reference: when rows `row`..n-1 all lie in memory, it
    * appends the reference pixels of those rows. */
  lemma {:induction false} DrawRowsPixels(mem: seq<byte>, addr: int32, c: Canvas, x: nat, y: nat, n: nat, row: nat)
    requires |mem| == MemorySize && |c.v| == 16 && x < 16 && y < 16 && x != VF && y != VF
    requires n < 16 && row <= n
    requires row == n || (0 <= addr + row && addr + n <= MemorySize)
    ensures var px := SpritePixels(mem, addr, c.v[x], c.v[y], row, n);
            DrawRows(mem, addr, c, x, y, n, row) == Ok(Canvas(Flagged(c.v, |px| > 0), c.vectors + px))
    decreases n - row
  {
    if row < n {
      var b := mem[addr + row];
      assert SpriteBits(b)[..8] == SpriteBits(b);
      DrawColsPixels(c, x, y, row, b, 0, SpriteBits(b));
      var c' := DrawCols(c, x, y, row, b, 0);
      assert DrawRows(mem, addr, c, x, y, n, row) == DrawRows(mem, addr, c', x, y, n, row + 1);
      assert c'.v[x] == c.v[x] && c'.v[y] == c.v[y];
      DrawRowsPixels(mem, addr, c', x, y, n, row + 1);
      var p1 := RowPixels(SpriteBits(b), c.v[x], c.v[y], row, 0);
      var p2 := SpritePixels(mem, addr, c.v[x], c.v[y], row + 1, n);
      assert SpritePixels(mem, addr, c.v[x], c.v[y], row, n) == p1 + p2;
      FlaggedAppend(c, p1, p2);
    } else {
      assert c.vectors + [] == c.vectors;
    }
  }

  /** Dxyn with V[x] and V[y] not VF: it fails exactly when a sprite row lies outside
    * memory; otherwise it appends the reference pixels and sets VF to 1 when at
    * least one bit was set and to 0 when none was; nothing else changes. */
  lemma DrawSpec(s: State, x: nat, y: nat, n: nat)
    requires WellFormed(s) && x < 16 && y < 16 && x != VF && y != VF && n < 16
    ensures Draw(s, x, y, n).Ok? <==> n == 0 || (0 <= s.i && s.i + n <= MemorySize)
    ensures Draw(s, x, y, n).Ok? ==>
            var px := SpritePixels(s.memory, s.i, s.v[x], s.v[y], 0, n);
            Draw(s, x, y, n) ==
            Ok(s.(v := s.v[VF := if |px| > 0 then 1 else 0], vectors := s.vectors + px))
  {
    var c := Canvas(s.v[VF := 0], s.vectors);
    DrawRowsFails(s.memory, s.i, c, x, y, n, 0);
    if n == 0 || (0 <= s.i && s.i + n <= MemorySize) {
      DrawRowsPixels(s.memory, s.i, c, x, y, n, 0);
      var px := SpritePixels(s.memory, s.i, s.v[x], s.v[y], 0, n);
      assert Flagged(c.v, |px| > 0) == s.v[VF := if |px| > 0 then 1 else 0];
    }
  }
}
