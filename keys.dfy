/**
 * The keyboard tables of Chip8Emulator/CPU.cs: the binding `keys` from the
 * sixteen physical keys to the CHIP-8 key codes, and the key-state table
 * `keyIsActive` that KeyPressed and KeyReleased update and IsKeyPressed reads.
 */
module Keys {
  import opened Chip8

  /** The physical key bound to a CHIP-8 code 0..F. */
  function KeyFor(code: int): Key
    requires 0 <= code < 16
  {
    match code
    case 0x0 => X    case 0x1 => Num1 case 0x2 => Num2 case 0x3 => Num3
    case 0x4 => Q    case 0x5 => W    case 0x6 => E    case 0x7 => A
    case 0x8 => S    case 0x9 => D    case 0xA => Z    case 0xB => C
    case 0xC => Num4 case 0xD => R    case 0xE => F    case _ => V
  }

  /** KeyFor undoes the binding on each bound key. */
  lemma KeyForBinding(key: Key)
    requires key in KeyBinding
    ensures 0 <= KeyBinding[key] < 16 && KeyFor(KeyBinding[key]) == key
  {
  }

  /** The binding is one-to-one from the sixteen keys onto the codes 0..F: every code
    * has its key, and two keys with the same code are the same key. */
  lemma BindingIsBijection()
    ensures KeyBinding.Values == KeyCodes
    ensures forall c :: 0 <= c < 16 ==> KeyFor(c) in KeyBinding && KeyBinding[KeyFor(c)] == c
    ensures forall k1, k2 :: k1 in KeyBinding && k2 in KeyBinding && KeyBinding[k1] == KeyBinding[k2] ==> k1 == k2
  {
    forall k1, k2 | k1 in KeyBinding && k2 in KeyBinding && KeyBinding[k1] == KeyBinding[k2]
      ensures k1 == k2
    {
      KeyForBinding(k1);
      KeyForBinding(k2);
    }
    forall c | 0 <= c < 16
      ensures KeyFor(c) in KeyBinding && KeyBinding[KeyFor(c)] == c && c in KeyBinding.Values
    {
      var key := KeyFor(c);
      assert key in KeyBinding && KeyBinding[key] == c;
    }
    forall c | c in KeyBinding.Values
      ensures c in KeyCodes
    {
      var key :| key in KeyBinding && KeyBinding[key] == c;
      KeyForBinding(key);
    }
  }

  /** The key-state table starts with exactly the codes the binding produces. */
  lemma ReleasedKeysMatchBinding()
    ensures ReleasedKeys().Keys == KeyBinding.Values
    ensures forall key :: key in KeyBinding ==> !KeyDown(ReleasedKeys(), KeyBinding[key])
  {
    BindingIsBijection();
  }

  /** Pressing or releasing a bound key keeps the table's codes 0..F, changes only
    * that key's entry, and IsKeyPressed of a code outside 0..F stays false. */
  lemma SetKeyKeepsCodes(m: map<int, bool>, key: Key, down: bool, code: int)
    requires m.Keys == KeyCodes && key in KeyBinding
    ensures m[KeyBinding[key] := down].Keys == KeyCodes
    ensures KeyDown(m[KeyBinding[key] := down], KeyBinding[key]) == down
    ensures code != KeyBinding[key] ==> KeyDown(m[KeyBinding[key] := down], code) == KeyDown(m, code)
    ensures !(0 <= code < 16) ==> !KeyDown(m[KeyBinding[key] := down], code)
  {
    BindingIsBijection();
    assert KeyBinding[key] in KeyBinding.Values;
  }
}
