/**
 * Properties of one frame of Cycle (Chip8Emulator/CPU.cs): the `speed` loop runs
 * at most `speed` instructions, stops executing only once the machine is paused,
 * a paused machine is frozen (registers, program counter and timers alike), and
 * the timers tick exactly once per frame unless an instruction wrote them or the
 * frame ended paused.
 */
module Frames {
  import opened Words
  import opened Chip8

  /** A paused machine runs no instruction on any pass and stays as it is. */
  lemma {:induction false} RunPaused(s: State, k: nat, n: nat, rand: nat -> int32)
    requires WellFormed(s) && s.paused && k <= n
    ensures Run(s, k, n, rand) == Ok(s)
    ensures Trace(s, k, n, rand) == []
    decreases n - k
  {
    if k < n {
      RunPaused(s, k + 1, n, rand);
    }
  }

  /** A frame that starts paused changes nothing, the timers included. */
  lemma FramePaused(s: State, rand: nat -> int32)
    requires WellFormed(s) && s.paused
    ensures Frame(s, rand) == Ok(s)
    ensures Trace(s, 0, Passes(s.speed), rand) == []
  {
    RunPaused(s, 0, Passes(s.speed), rand);
  }

  /** One pass of an unpaused machine: when it fails, the passes fail after at most
    * one opcode; when it succeeds, the passes go on from its result with the fetched
    * opcode recorded. */
  lemma TraceStep(s: State, k: nat, n: nat, rand: nat -> int32)
    requires WellFormed(s) && k < n && !s.paused
    ensures Step(s, rand(k)).Err? ==> Run(s, k, n, rand).Err? && |Trace(s, k, n, rand)| <= 1
    ensures Step(s, rand(k)).Ok? ==>
            Fetch(s).Ok? &&
            Run(s, k, n, rand) == Run(Step(s, rand(k)).value, k + 1, n, rand) &&
            Trace(s, k, n, rand) == [Fetch(s).value] + Trace(Step(s, rand(k)).value, k + 1, n, rand)
  {
    if Fetch(s).Ok? {
      var op := Fetch(s).value;
      assert Step(s, rand(k)) == Exec(s, op, rand(k));
    }
  }

  /** When passes k..n-1 all succeed but execute fewer than n - k instructions,
    * the machine ended paused. */
  lemma {:induction false} ShortTracePaused(s: State, k: nat, n: nat, rand: nat -> int32)
    requires WellFormed(s) && k <= n
    requires Run(s, k, n, rand).Ok? && |Trace(s, k, n, rand)| < n - k
    ensures Run(s, k, n, rand).value.paused
    decreases n - k
  {
    if s.paused {
      RunPaused(s, k, n, rand);
    } else {
      var t := Advance(s, k, n, rand);
      ShortTracePaused(t, k + 1, n, rand);
    }
  }

  /** The state after pass k of a run that succeeds with fewer than n - k instructions:
    * the rest of the run continues from it, again short. */
  lemma Advance(s: State, k: nat, n: nat, rand: nat -> int32) returns (t: State)
    requires WellFormed(s) && k <= n && !s.paused
    requires Run(s, k, n, rand).Ok? && |Trace(s, k, n, rand)| < n - k
    ensures WellFormed(t) && k + 1 <= n
    ensures Run(t, k + 1, n, rand) == Run(s, k, n, rand)
    ensures Run(t, k + 1, n, rand).Ok? && |Trace(t, k + 1, n, rand)| < n - (k + 1)
  {
    TraceStep(s, k, n, rand);
    t := Step(s, rand(k)).value;
  }

  /** Whether none of the opcodes writes a timer (Fx15, Fx18). */
  predicate NoTimerWrites(ops: seq<Opcode>)
  {
    forall j :: 0 <= j < |ops| ==> !WritesTimer(ops[j])
  }

  /** Passes that succeed and execute no timer instruction leave both timers alone;
    * the random numbers, the key table and `speed` do not change either. */
  lemma {:induction false} RunKeepsTimers(s: State, k: nat, n: nat, rand: nat -> int32)
    requires WellFormed(s) && k <= n
    requires Run(s, k, n, rand).Ok? && NoTimerWrites(Trace(s, k, n, rand))
    ensures var t := Run(s, k, n, rand).value;
            t.delayTimer == s.delayTimer && t.soundTimer == s.soundTimer &&
            t.keyIsActive == s.keyIsActive && t.speed == s.speed
    decreases n - k
  {
    if k < n {
      if s.paused {
        RunPaused(s, k, n, rand);
      } else {
        TraceStep(s, k, n, rand);
        var t := Step(s, rand(k)).value;
        var op := Fetch(s).value;
        assert !WritesTimer(Trace(s, k, n, rand)[0]);
        var rest := Trace(t, k + 1, n, rand);
        assert NoTimerWrites(rest) by {
          forall j | 0 <= j < |rest|
            ensures !WritesTimer(rest[j])
          {
            assert rest[j] == Trace(s, k, n, rand)[j + 1];
          }
        }
        RunKeepsTimers(t, k + 1, n, rand);
      }
    }
  }

  /** One frame with `speed` passes executes at most `speed` instructions (none when
    * `speed` is not positive), and when it runs fewer, successfully, it ends paused. */
  lemma FrameInstructions(s: State, rand: nat -> int32)
    requires WellFormed(s)
    ensures |Trace(s, 0, Passes(s.speed), rand)| <= (if s.speed > 0 then s.speed as int else 0)
    ensures Frame(s, rand).Ok? && |Trace(s, 0, Passes(s.speed), rand)| < Passes(s.speed) ==>
            Frame(s, rand).value.paused
  {
    if Frame(s, rand).Ok? && |Trace(s, 0, Passes(s.speed), rand)| < Passes(s.speed) {
      ShortTracePaused(s, 0, Passes(s.speed), rand);
    }
  }

  /** A frame without timer instructions ticks both timers exactly once when it ends
    * unpaused, and leaves them untouched when it ends paused. */
  lemma FrameTimers(s: State, rand: nat -> int32)
    requires WellFormed(s) && Frame(s, rand).Ok?
    requires NoTimerWrites(Trace(s, 0, Passes(s.speed), rand))
    ensures var t := Frame(s, rand).value;
            if t.paused then t.delayTimer == s.delayTimer && t.soundTimer == s.soundTimer
            else t.delayTimer == Tick(s.delayTimer) && t.soundTimer == Tick(s.soundTimer)
  {
    RunKeepsTimers(s, 0, Passes(s.speed), rand);
  }

  /** The program 6005 7003 (V0 := 5; V0 += 3) loaded at 0x200 of a fresh machine:
    * two passes leave V0 == 8 and the program counter past both instructions. */
  lemma LoadAndAddProgram(rand: nat -> int32)
    ensures var s := Initial().(memory := CopyProgram(Initial().memory, [0x60, 0x05, 0x70, 0x03]));
            Run(s, 0, 2, rand).Ok? && Run(s, 0, 2, rand).value.v[0] == 8 &&
            Run(s, 0, 2, rand).value.pc == 0x204 && !Run(s, 0, 2, rand).value.paused
  {
    var s := Initial().(memory := CopyProgram(Initial().memory, [0x60, 0x05, 0x70, 0x03]));
    assert s.memory[0x200] == 0x60 && s.memory[0x201] == 0x05;
    assert s.memory[0x202] == 0x70 && s.memory[0x203] == 0x03;
    assert Fetch(s) == Ok(0x6005);
    var s1 := s.(v := s.v[0 := 5], pc := 0x202);
    assert Exec(s, 0x6005, rand(0)) == Ok(s1);
    assert Step(s, rand(0)) == Ok(s1);
    assert Fetch(s1) == Ok(0x7003);
    var s2 := s1.(v := s1.v[0 := 8], pc := 0x204);
    assert Exec(s1, 0x7003, rand(1)) == Ok(s2);
    assert Run(s, 0, 2, rand) == Run(s1, 1, 2, rand) == Run(s2, 2, 2, rand);
  }
}
