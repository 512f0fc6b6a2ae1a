/**
 * Bit-level reading of the 16-bit balance masks (`CellBalCmd`) and of the
 * bytes `WriteCfg` derives from them, on unbounded integers.
 */
module Bits {

  function Pow2(n: nat): (p: nat)
    ensures p >= 1
  {
    if n == 0 then 1 else 2 * Pow2(n - 1)
  }

  lemma {:induction false} Pow2Monotone(a: nat, b: nat)
    requires a <= b
    ensures Pow2(a) <= Pow2(b)
    decreases b
  {
    if a < b {
      Pow2Monotone(a, b - 1);
    }
  }

  /** The powers the byte and word masks use. */
  lemma Pow2Facts()
    ensures Pow2(8) == 0x100 && Pow2(16) == 0x1_0000
  {
    assert Pow2(4) == 16;
    assert Pow2(8) == 256;
    assert Pow2(12) == 4096;
  }

  /** The slot bits of a balance mask stay below bit 14. */
  lemma Pow2Fourteen()
    ensures Pow2(14) == 0x4000
  {
    Pow2Facts();
  }

  /** Bit k of x: the k-th binary digit, least significant first. */
  predicate Bit(x: nat, k: nat)
  {
    if k == 0 then x % 2 == 1 else Bit(x / 2, k - 1)
  }

  /** `x & m` restricted to the low n bits. */
  function And(x: nat, m: nat, n: nat): nat
  {
    if n == 0 then 0
    else (if x % 2 == 1 && m % 2 == 1 then 1 else 0) + 2 * And(x / 2, m / 2, n - 1)
  }

  /** Number of set bits among the low n bits of x. */
  function Popcount(x: nat, n: nat): nat
  {
    if n == 0 then 0 else (if x % 2 == 1 then 1 else 0) + Popcount(x / 2, n - 1)
  }

  /** A bit of `x & m` is set exactly when it is set in both operands, and only the low n bits survive. */
  lemma {:induction false} AndBit(x: nat, m: nat, n: nat, k: nat)
    ensures Bit(And(x, m, n), k) <==> k < n && Bit(x, k) && Bit(m, k)
    decreases n
  {
    var a := And(x, m, n);
    if n == 0 {
      ZeroHasNoBits(k);
    } else if k == 0 {
    } else {
      assert a / 2 == And(x / 2, m / 2, n - 1);
      AndBit(x / 2, m / 2, n - 1, k - 1);
    }
  }

  lemma {:induction false} ZeroHasNoBits(k: nat)
    ensures !Bit(0, k)
    decreases k
  {
    if k > 0 {
      ZeroHasNoBits(k - 1);
    }
  }

  lemma {:induction false} AndOfZero(m: nat, n: nat)
    ensures And(0, m, n) == 0
    decreases n
  {
    if n > 0 {
      AndOfZero(m / 2, n - 1);
    }
  }

  lemma {:induction false} PopcountOfZero(n: nat)
    ensures Popcount(0, n) == 0
    decreases n
  {
    if n > 0 {
      PopcountOfZero(n - 1);
    }
  }

  /** `x & m` over n bits fits in n bits. */
  lemma {:induction false} AndBound(x: nat, m: nat, n: nat)
    ensures And(x, m, n) < Pow2(n)
    decreases n
  {
    if n > 0 {
      AndBound(x / 2, m / 2, n - 1);
    }
  }

  /** Values below 2^n have no bit at position n or above. */
  lemma {:induction false} HighBitsClear(x: nat, n: nat, k: nat)
    requires x < Pow2(n) && n <= k
    ensures !Bit(x, k)
    decreases k
  {
    if k == 0 {
    } else if n == 0 {
      assert x == 0;
      ZeroHasNoBits(k);
    } else {
      HighBitsClear(x / 2, n - 1, k - 1);
    }
  }

  /** Two values below 2^n with the same low n bits are equal. */
  lemma {:induction false} BitsDetermine(x: nat, y: nat, n: nat)
    requires x < Pow2(n) && y < Pow2(n)
    requires forall k | 0 <= k < n :: Bit(x, k) == Bit(y, k)
    ensures x == y
    decreases n
  {
    if n > 0 {
      forall k | 0 <= k < n - 1 ensures Bit(x / 2, k) == Bit(y / 2, k) {
        assert Bit(x, k + 1) == Bit(y, k + 1);
      }
      BitsDetermine(x / 2, y / 2, n - 1);
      assert Bit(x, 0) == Bit(y, 0);
    }
  }

  /**
   * Adding 2^y to a value below 2^y sets bit y and nothing else: this is how
   * `CellBalCmd[Xr] + (0x01 << Yc)` behaves when slots are visited in order.
   */
  lemma {:induction false} AddFreshBit(x: nat, y: nat, k: nat)
    requires x < Pow2(y)
    ensures x + Pow2(y) < Pow2(y + 1)
    ensures Bit(x + Pow2(y), k) <==> k == y || Bit(x, k)
    decreases y
  {
    if y == 0 {
      assert x == 0;
      if k > 0 {
        ZeroHasNoBits(k - 1);
        ZeroHasNoBits(k);
      }
    } else {
      assert (x + Pow2(y)) / 2 == x / 2 + Pow2(y - 1);
      assert (x + Pow2(y)) % 2 == x % 2;
      if k > 0 {
        AddFreshBit(x / 2, y - 1, k - 1);
      } else {
        AddFreshBit(x / 2, y - 1, 0);
      }
    }
  }

  /** Adding a fresh bit adds one to the population count. */
  lemma {:induction false} AddFreshBitCount(x: nat, y: nat, n: nat)
    requires x < Pow2(y) && y < n
    ensures Popcount(x + Pow2(y), n) == Popcount(x, n) + 1
    decreases y
  {
    if y == 0 {
      assert (x + 1) / 2 == x / 2;
    } else {
      assert (x + Pow2(y)) / 2 == x / 2 + Pow2(y - 1);
      assert (x + Pow2(y)) % 2 == x % 2;
      AddFreshBitCount(x / 2, y - 1, n - 1);
    }
  }

  /** A byte-pair word has the bits of its low byte below position 8 and those of its high byte above. */
  lemma {:induction false} WordBits(hi: nat, lo: nat, k: nat)
    requires lo < 256
    ensures Bit(hi * 256 + lo, k) <==> (if k < 8 then Bit(lo, k) else Bit(hi, k - 8))
  {
    ShiftBits(hi, lo, 8, k);
  }

  lemma {:induction false} ShiftBits(hi: nat, lo: nat, n: nat, k: nat)
    requires lo < Pow2(n)
    ensures Bit(hi * Pow2(n) + lo, k) <==> (if k < n then Bit(lo, k) else Bit(hi, k - n))
    decreases n
  {
    if n == 0 {
      assert lo == 0;
    } else {
      var x := hi * Pow2(n) + lo;
      assert x == 2 * (hi * Pow2(n - 1) + lo / 2) + lo % 2;
      assert x / 2 == hi * Pow2(n - 1) + lo / 2 && x % 2 == lo % 2;
      if k > 0 {
        ShiftBits(hi, lo / 2, n - 1, k - 1);
      }
    }
  }

  /** Masking with m and with its complement splits x into two parts that add up to x. */
  lemma {:induction false} AndComplement(x: nat, m: nat, n: nat)
    requires x < Pow2(n) && m < Pow2(n)
    ensures And(x, m, n) + And(x, Pow2(n) - 1 - m, n) == x
    decreases n
  {
    if n > 0 {
      var c := Pow2(n) - 1 - m;
      var p := Pow2(n - 1);
      assert Pow2(n) == 2 * p;
      assert c == 2 * (p - 1 - m / 2) + (1 - m % 2);
      assert c / 2 == p - 1 - m / 2 && c % 2 == 1 - m % 2;
      AndComplement(x / 2, m / 2, n - 1);
    }
  }

  /** The alternating byte masks: 0xAA keeps the odd bit positions, 0x55 the even ones. */
  lemma AlternatingMasks(k: nat)
    requires k < 8
    ensures Bit(0xAA, k) <==> k % 2 == 1
    ensures Bit(0x55, k) <==> k % 2 == 0
  {
    if k == 0 {
    } else if k == 1 {
    } else if k == 2 {
    } else if k == 3 {
    } else if k == 4 {
    } else if k == 5 {
    } else if k == 6 {
    } else {
      assert Bit(0xAA, 7) == Bit(0x2A, 5) == Bit(0x0A, 3) == Bit(2, 1);
      assert Bit(0x55, 7) == Bit(0x15, 5) == Bit(0x05, 3) == Bit(1, 1);
    }
  }

  /** The alternating word masks: 0xAAAA keeps the odd bit positions, 0x5555 the even ones. */
  lemma AlternatingWordMasks(k: nat)
    requires k < 16
    ensures Bit(0xAAAA, k) <==> k % 2 == 1
    ensures Bit(0x5555, k) <==> k % 2 == 0
  {
    WordBits(0xAA, 0xAA, k);
    WordBits(0x55, 0x55, k);
    if k < 8 {
      AlternatingMasks(k);
    } else {
      AlternatingMasks(k - 8);
    }
  }
}
