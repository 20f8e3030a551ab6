/** The pause after a provisioning batch in which every attempt failed,
    computed in 64-bit arithmetic as the controller does. */
module Backoff {
  import opened Cluster

  const TWO63: int := 0x8000_0000_0000_0000
  const TWO64: int := 0x1_0000_0000_0000_0000

  /** The value a 64-bit signed integer keeps. */
  function Wrap(x: int): int { (x + TWO63) % TWO64 - TWO63 }

  function Pow2(n: nat): nat { if n == 0 then 1 else 2 * Pow2(n - 1) }

  /** One shifted left in a 64-bit signed integer; from 64 on nothing is left. */
  function ShiftedOne(n: nat): int { if n >= 64 then 0 else Wrap(Pow2(n)) }

  /** The pause in nanoseconds after `failures` consecutive failures. */
  function Pause(failures: nat): int
    requires failures >= 1
  {
    var seconds := Wrap(5 * ShiftedOne(failures - 1));
    Wrap((if seconds > 60 then 60 else seconds) * SECOND)
  }

  /** What the pause is meant to be: 5 s, doubling per failure, at most 60 s. */
  function IdealPause(failures: nat): nat
    requires failures >= 1
  {
    (if failures >= 5 then 60 else 5 * Pow2(failures - 1)) * SECOND
  }

  lemma {:induction false} Pow2Adds(a: nat, b: nat)
    ensures Pow2(a + b) == Pow2(a) * Pow2(b)
  {
    if a == 0 {
    } else {
      Pow2Adds(a - 1, b);
    }
  }

  lemma {:induction false} Pow2Grows(a: nat, b: nat)
    requires a <= b
    ensures 1 <= Pow2(a) <= Pow2(b)
  {
    if a < b {
      Pow2Grows(a, b - 1);
    } else if a > 0 {
      Pow2Grows(a - 1, b - 1);
    }
  }

  lemma SmallPowers()
    ensures Pow2(0) == 1 && Pow2(1) == 2 && Pow2(2) == 4 && Pow2(3) == 8 && Pow2(4) == 16
  {
    assert Pow2(2) == 4;
  }

  lemma SixteenthPower()
    ensures Pow2(16) == 0x1_0000
  {
    SmallPowers();
    Pow2Adds(4, 4);
    Pow2Adds(8, 8);
  }

  lemma LargePowers()
    ensures Pow2(60) == 0x1000_0000_0000_0000 && Pow2(61) == 0x2000_0000_0000_0000
    ensures Pow2(62) == 0x4000_0000_0000_0000 && Pow2(63) == 0x8000_0000_0000_0000
  {
    SmallPowers();
    SixteenthPower();
    Pow2Adds(16, 16);
    Pow2Adds(32, 16);
    Pow2Adds(48, 4);
    Pow2Adds(52, 4);
    Pow2Adds(56, 4);
    Pow2Adds(1, 60);
    Pow2Adds(2, 60);
    Pow2Adds(3, 60);
  }

  /** The cap of 60 seconds is reached from the fifth failure on. */
  lemma IdealIsCapped(failures: nat)
    requires failures >= 1
    ensures IdealPause(failures) == (if 5 * Pow2(failures - 1) > 60 then 60 else 5 * Pow2(failures - 1)) * SECOND
  {
    SmallPowers();
    if failures >= 5 {
      Pow2Grows(4, failures - 1);
    }
  }

  /** In nanoseconds: 5, 10, 20, 40 and then 60 seconds. */
  lemma IdealExactly(failures: nat)
    requires failures >= 1
    ensures IdealPause(failures) ==
            if failures == 1 then 5_000_000_000
            else if failures == 2 then 10_000_000_000
            else if failures == 3 then 20_000_000_000
            else if failures == 4 then 40_000_000_000
            else 60_000_000_000
  {
    SmallPowers();
  }

  lemma IdealGrows(a: nat, b: nat)
    requires 1 <= a <= b
    ensures IdealPause(a) <= IdealPause(b)
  {
    SmallPowers();
    if b < 5 {
      Pow2Grows(a - 1, b - 1);
    } else if a < 5 {
      Pow2Grows(a - 1, 3);
    }
  }

  lemma InRange(x: int)
    requires -TWO63 <= x < TWO63
    ensures Wrap(x) == x
  {
  }

  lemma PauseWithoutOverflow(failures: nat)
    requires 1 <= failures <= 61
    ensures Pause(failures) == IdealPause(failures)
  {
    LargePowers();
    IdealIsCapped(failures);
    Pow2Grows(failures - 1, 60);
    InRange(Pow2(failures - 1));
    InRange(5 * Pow2(failures - 1));
    InRange(IdealPause(failures));
  }

  lemma PauseAt62()
    ensures Pause(62) == 0
  {
    LargePowers();
    assert ShiftedOne(61) == 0x2000_0000_0000_0000;
    assert Wrap(5 * 0x2000_0000_0000_0000) == -0x6000_0000_0000_0000;
    assert -0x6000_0000_0000_0000 * SECOND == -375_000_000 * TWO64;
  }

  lemma PauseAt63()
    ensures Pause(63) == 60 * SECOND
  {
    LargePowers();
    assert ShiftedOne(62) == 0x4000_0000_0000_0000;
    assert Wrap(5 * 0x4000_0000_0000_0000) == 0x4000_0000_0000_0000;
  }

  lemma PauseAt64()
    ensures Pause(64) == 0
  {
    LargePowers();
    assert ShiftedOne(63) == -0x8000_0000_0000_0000;
    assert Wrap(5 * -0x8000_0000_0000_0000) == -0x8000_0000_0000_0000;
    assert -0x8000_0000_0000_0000 * SECOND == -500_000_000 * TWO64;
  }

  lemma PauseWithOverflow(failures: nat)
    requires failures >= 62
    ensures Pause(failures) == if failures == 63 then 60 * SECOND else 0
  {
    if failures == 62 {
      PauseAt62();
    } else if failures == 63 {
      PauseAt63();
    } else if failures == 64 {
      PauseAt64();
    } else {
      assert ShiftedOne(failures - 1) == 0;
    }
  }

  /** The shift overflows: the pause is the intended one exactly up to 61
      consecutive failures and at 63; everywhere else there is no pause. */
  lemma PauseExact(failures: nat)
    requires failures >= 1
    ensures Pause(failures) == IdealPause(failures) <==> failures <= 61 || failures == 63
    ensures !(failures <= 61 || failures == 63) ==> Pause(failures) == 0
  {
    if failures <= 61 {
      PauseWithoutOverflow(failures);
    } else {
      PauseWithOverflow(failures);
    }
  }
}
