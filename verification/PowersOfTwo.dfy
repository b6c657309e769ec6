/** Rounding up to a power of two, by adding the lowest set bit (the OSS plugin) and by smearing bits to the right
    (FAudio), against one specification; and the sizing of the OSS fragments. */
module PowersOfTwo {

  function Pow2(k: nat): (p: nat)
    ensures p >= 1
  {
    if k == 0 then 1 else 2 * Pow2(k - 1)
  }

  ghost predicate IsPow2(p: int) {
    exists k: nat :: Pow2(k) == p
  }

  /** The least power of two that is at least `n`. */
  ghost predicate LeastPow2(p: int, n: int) {
    IsPow2(p) && p >= n && forall k: nat :: Pow2(k) >= n ==> p <= Pow2(k)
  }

  lemma LeastIsUnique(p: int, q: int, n: int)
    requires LeastPow2(p, n) && LeastPow2(q, n)
    ensures p == q
  {
  }

  lemma {:induction false} Pow2Monotone(i: nat, j: nat)
    requires i <= j
    ensures Pow2(i) <= Pow2(j)
    decreases j
  {
    if i < j {
      Pow2Monotone(i, j - 1);
    }
  }

  /** The place of the highest bit: every positive number lies between two neighbouring powers. */
  function BitLength(n: nat): (k: nat)
    ensures n < Pow2(k) && (n > 0 ==> k > 0 && Pow2(k - 1) <= n)
  {
    if n == 0 then 0 else BitLength(n / 2) + 1
  }

  lemma LeastAbove(n: nat)
    requires n >= 1
    ensures LeastPow2(Pow2(BitLength(n - 1)), n)
  {
    var k := BitLength(n - 1);
    forall j: nat | Pow2(j) >= n ensures Pow2(k) <= Pow2(j) {
      if j < k {
        Pow2Monotone(j, k - 1);
      } else {
        Pow2Monotone(k, j);
      }
    }
  }

  /** Bitwise operations on non-negative ints. */
  function And(a: nat, b: nat): nat {
    if a == 0 || b == 0 then 0 else 2 * And(a / 2, b / 2) + (if a % 2 == 1 && b % 2 == 1 then 1 else 0)
  }

  /** `a & ~b`. */
  function AndNot(a: nat, b: nat): nat {
    if a == 0 then 0 else 2 * AndNot(a / 2, b / 2) + (if a % 2 == 1 && b % 2 == 0 then 1 else 0)
  }

  function Or(a: nat, b: nat): nat {
    if a == 0 && b == 0 then 0 else 2 * Or(a / 2, b / 2) + (if a % 2 == 1 || b % 2 == 1 then 1 else 0)
  }

  function ShiftRight(a: nat, k: nat): nat {
    if k == 0 then a else ShiftRight(a / 2, k - 1)
  }

  /** The lowest set bit. */
  function LowBit(n: nat): (b: nat)
    requires n > 0
    ensures 0 < b <= n
  {
    if n % 2 == 1 then 1 else 2 * LowBit(n / 2)
  }

  lemma {:induction false} AndSelf(a: nat)
    ensures And(a, a) == a && AndNot(a, a) == 0
  {
    if a > 0 {
      AndSelf(a / 2);
    }
  }

  /** `n & (n - 1)` clears the lowest set bit, and `n & ~(n - 1)` is that bit. */
  lemma {:induction false} LowBitByMask(n: nat)
    requires n > 0
    ensures And(n, n - 1) == n - LowBit(n) && AndNot(n, n - 1) == LowBit(n)
  {
    if n % 2 == 1 {
      AndSelf(n / 2);
      assert (n - 1) / 2 == n / 2;
    } else {
      LowBitByMask(n / 2);
      assert (n - 1) / 2 == n / 2 - 1;
    }
  }

  lemma {:induction false} LowBitOfPow2(k: nat)
    ensures LowBit(Pow2(k)) == Pow2(k)
  {
    if k > 0 {
      LowBitOfPow2(k - 1);
    }
  }

  lemma {:induction false} LowBitIsPow2(n: nat) returns (k: nat)
    requires n > 0
    ensures LowBit(n) == Pow2(k)
  {
    if n % 2 == 1 {
      k := 0;
    } else {
      var j := LowBitIsPow2(n / 2);
      k := j + 1;
    }
  }

  /** Adding the lowest set bit does not pass the next power of two. */
  lemma {:induction false} LowBitStays(n: nat, k: nat)
    requires 0 < n < Pow2(k)
    ensures n + LowBit(n) <= Pow2(k)
    decreases k
  {
    if n % 2 == 0 {
      LowBitStays(n / 2, k - 1);
    }
  }

  /** The loop condition `tmp & (tmp - 1)` fails exactly at the powers of two (and at 0). */
  lemma MaskZeroIff(n: nat)
    requires n > 0
    ensures And(n, n - 1) == 0 <==> IsPow2(n)
  {
    LowBitByMask(n);
    var j := LowBitIsPow2(n);
    if IsPow2(n) {
      var k: nat :| Pow2(k) == n;
      LowBitOfPow2(k);
    }
  }

  /** The rounding loop of `oss_hw_params`. Zero stays zero. */
  method RoundUp(start: nat) returns (tmp: nat)
    ensures start == 0 ==> tmp == 0
    ensures start > 0 ==> LeastPow2(tmp, start)
  {
    tmp := start;
    if start == 0 {
      assert And(0, 0) == 0;
      return;
    }
    ghost var k := BitLength(start - 1);
    LeastAbove(start);
    while And(tmp, tmp - 1) != 0
      invariant start <= tmp <= Pow2(k)
      decreases Pow2(k) - tmp
    {
      LowBitByMask(tmp);
      MaskZeroIff(tmp);
      LowBitStays(tmp, k);
      tmp := tmp + AndNot(tmp, tmp - 1);
    }
    MaskZeroIff(tmp);
    var j: nat :| Pow2(j) == tmp;
  }

  /** Bit `i`. */
  function Bit(a: nat, i: nat): nat {
    if i == 0 then a % 2 else Bit(a / 2, i - 1)
  }

  lemma {:induction false} BitOfZero(i: nat)
    ensures Bit(0, i) == 0
  {
    if i > 0 {
      BitOfZero(i - 1);
    }
  }

  lemma {:induction false} BitOfOr(a: nat, b: nat, i: nat)
    ensures Bit(Or(a, b), i) == 1 <==> Bit(a, i) == 1 || Bit(b, i) == 1
    decreases i
  {
    if a == 0 && b == 0 {
      BitOfZero(i);
    } else if i > 0 {
      BitOfOr(a / 2, b / 2, i - 1);
      assert Or(a, b) / 2 == Or(a / 2, b / 2);
    }
  }

  lemma {:induction false} BitOfShift(a: nat, k: nat, i: nat)
    ensures Bit(ShiftRight(a, k), i) == Bit(a, i + k)
    decreases k
  {
    if k > 0 {
      BitOfShift(a / 2, k - 1, i);
    }
  }

  lemma {:induction false} OrBelow(a: nat, b: nat, k: nat)
    requires a < Pow2(k) && b < Pow2(k)
    ensures a <= Or(a, b) < Pow2(k)
    decreases k
  {
    if k > 0 && !(a == 0 && b == 0) {
      OrBelow(a / 2, b / 2, k - 1);
    }
  }

  lemma {:induction false} ShiftBelow(a: nat, k: nat)
    ensures ShiftRight(a, k) <= a
  {
    if k > 0 {
      ShiftBelow(a / 2, k - 1);
    }
  }

  lemma {:induction false} AllOnes(a: nat, k: nat)
    requires a < Pow2(k) && forall i: nat :: i < k ==> Bit(a, i) == 1
    ensures a == Pow2(k) - 1
    decreases k
  {
    if k > 0 {
      assert Bit(a, 0) == 1;
      forall i: nat | i < k - 1 ensures Bit(a / 2, i) == 1 {
        assert Bit(a, i + 1) == 1;
      }
      AllOnes(a / 2, k - 1);
    }
  }

  lemma {:induction false} TopBit(a: nat, k: nat)
    requires k > 0 && Pow2(k - 1) <= a < Pow2(k)
    ensures Bit(a, k - 1) == 1
    decreases k
  {
    if k > 1 {
      TopBit(a / 2, k - 1);
    }
  }

  /** `a` has `k` bits, of which the first `r` are all set. */
  ghost predicate TopRun(a: nat, k: nat, r: nat) {
    a < Pow2(k) && forall i: nat :: k - r <= i < k ==> Bit(a, i) == 1
  }

  /** One smearing step doubles the run. */
  lemma SmearStep(a: nat, k: nat, r: nat)
    requires TopRun(a, k, r)
    ensures TopRun(Or(a, ShiftRight(a, r)), k, 2 * r)
  {
    ShiftBelow(a, r);
    OrBelow(a, ShiftRight(a, r), k);
    forall i: nat | k - 2 * r <= i < k ensures Bit(Or(a, ShiftRight(a, r)), i) == 1 {
      BitOfOr(a, ShiftRight(a, r), i);
      BitOfShift(a, r, i);
    }
  }

  const WORD := 65536

  /** The rounding of `want.samples`, a 16-bit field: one step after the other, wrapping. */
  method SmearUp(samples: nat) returns (n: nat)
    requires samples < WORD
    ensures 1 <= samples <= 32768 ==> LeastPow2(n, samples)
    ensures samples == 0 || samples > 32768 ==> n == 0
  {
    hide Smeared, Pow2, BitLength, LeastPow2;
    var before := (samples + WORD - 1) % WORD;
    SmearFills(before);
    SmearResult(samples, before);
    ghost var p := Pow2(BitLength(before));
    n := Smear(before);
    assert n + 1 == p;
    n := (n + 1) % WORD;
  }

  method Smear(start: nat) returns (n: nat)
    ensures n == Smeared(start)
  {
    hide Or, ShiftRight;
    n := start;
    n := Or(n, ShiftRight(n, 1));
    n := Or(n, ShiftRight(n, 2));
    n := Or(n, ShiftRight(n, 4));
    n := Or(n, ShiftRight(n, 8));
    n := Or(n, ShiftRight(n, 16));
  }

  /** The power above the decremented value is the one above the value; beyond 32768, and for 0, it is 65536,
      which wraps to 0. */
  lemma SmearResult(samples: nat, n: nat)
    requires samples < WORD && n == (samples + WORD - 1) % WORD
    ensures 1 <= samples <= 32768 ==> Pow2(BitLength(n)) < WORD && LeastPow2(Pow2(BitLength(n)), samples)
    ensures samples == 0 || samples > 32768 ==> Pow2(BitLength(n)) == WORD
  {
    Decremented(samples);
    SixteenBits(n);
    hide Pow2, BitLength, LeastPow2;
    if 1 <= samples <= 32768 {
      LeastAbove(samples);
      FifteenBits(samples - 1);
    }
  }

  lemma Decremented(samples: nat)
    requires samples < WORD
    ensures (samples + WORD - 1) % WORD == if samples == 0 then WORD - 1 else samples - 1
  {
  }

  function Smeared(n: nat): nat {
    var n1 := Or(n, ShiftRight(n, 1));
    var n2 := Or(n1, ShiftRight(n1, 2));
    var n4 := Or(n2, ShiftRight(n2, 4));
    var n8 := Or(n4, ShiftRight(n4, 8));
    Or(n8, ShiftRight(n8, 16))
  }

  /** After the five steps every bit below the highest one is set. */
  lemma SmearFills(n: nat)
    requires n < WORD
    ensures Smeared(n) == Pow2(BitLength(n)) - 1
  {
    var k := BitLength(n);
    hide Or, ShiftRight, Bit, BitLength;
    FirstRun(n);
    var n1 := Or(n, ShiftRight(n, 1));
    var n2 := Or(n1, ShiftRight(n1, 2));
    var n4 := Or(n2, ShiftRight(n2, 4));
    var n8 := Or(n4, ShiftRight(n4, 8));
    SmearStep(n, k, 1);
    SmearStep(n1, k, 2);
    SmearStep(n2, k, 4);
    SmearStep(n4, k, 8);
    SmearStep(n8, k, 16);
    SixteenBits(n);
    AllOnes(Smeared(n), k);
  }

  lemma FirstRun(n: nat)
    ensures TopRun(n, BitLength(n), 1)
  {
    if n > 0 {
      TopBit(n, BitLength(n));
    }
  }

  lemma SixteenBits(n: nat)
    requires n < WORD
    ensures BitLength(n) <= 16 && (n >= 32768 ==> BitLength(n) == 16)
    ensures Pow2(16) == WORD
  {
    PowerValues();
    var k := BitLength(n);
    hide Pow2, BitLength;
    if k > 16 {
      Pow2Monotone(16, k - 1);
      LengthBound(n);
    }
    if n >= 32768 && k < 16 {
      Pow2Monotone(k, 15);
      LengthBound(n);
    }
  }

  lemma LengthBound(n: nat)
    ensures n < Pow2(BitLength(n)) && (n > 0 ==> BitLength(n) > 0 && Pow2(BitLength(n) - 1) <= n)
    ensures n == 0 ==> BitLength(n) == 0
  {
  }

  lemma FifteenBits(n: nat)
    requires n < 32768
    ensures Pow2(BitLength(n)) <= 32768
  {
    PowerValues();
    var k := BitLength(n);
    LengthBound(n);
    hide Pow2, BitLength;
    if k > 15 {
      Pow2Monotone(15, k - 1);
    } else {
      Pow2Monotone(k, 15);
    }
  }

  lemma PowerValues()
    ensures Pow2(15) == 32768 && Pow2(16) == 65536
  {
    assert Pow2(4) == 16;
    assert Pow2(8) == 256;
    assert Pow2(12) == 4096;
  }

  /** The two algorithms agree where both are meant to work. */
  lemma SameRounding(n: nat, added: nat, smeared: nat)
    requires 1 <= n <= 32768 && LeastPow2(added, n) && LeastPow2(smeared, n)
    ensures added == smeared
  {
    LeastIsUnique(added, smeared, n);
  }

  const SHIFT_MAX := 24
  const BLKCNT_MIN := 2
  const BLKCNT_MAX := 4096

  /** The logarithm loop. */
  method LogTwo(tmp: nat) returns (shift: nat)
    ensures shift <= SHIFT_MAX && (shift < SHIFT_MAX ==> tmp == Pow2(shift))
    ensures forall k: nat :: k < SHIFT_MAX && tmp == Pow2(k) ==> shift == k
  {
    shift := 0;
    while shift < SHIFT_MAX
      invariant shift <= SHIFT_MAX && forall k: nat :: k < shift ==> tmp != Pow2(k)
    {
      if tmp == Pow2(shift) {
        Pow2Injective(shift);
        return;
      }
      shift := shift + 1;
    }
  }

  lemma Pow2Injective(i: nat)
    ensures forall k: nat :: Pow2(k) == Pow2(i) ==> k == i
  {
    forall k: nat ensures Pow2(k) == Pow2(i) ==> k == i {
      if k < i {
        Pow2Strict(k, i);
      } else if i < k {
        Pow2Strict(i, k);
      }
    }
  }

  lemma Pow2Strict(i: nat, j: nat)
    requires i < j
    ensures Pow2(i) < Pow2(j)
  {
    Pow2Monotone(i + 1, j);
  }

  /** `blkcnt << shift`. */
  function Blocks(count: nat, shift: nat): nat {
    count * Pow2(shift)
  }

  lemma BlocksDouble(count: nat, shift: nat)
    ensures Blocks(2 * count, shift) == 2 * Blocks(count, shift)
  {
  }

  /** The block-count loop: the least power of two from 2 on whose blocks hold the buffer, or the cap. Computing
      it stays within 32 bits for buffers of up to 2^30 bytes. */
  method BlockCount(shift: nat, bytes: nat) returns (blkcnt: nat, ghost k: nat)
    requires shift <= SHIFT_MAX
    ensures 1 <= k <= 12 && blkcnt == Pow2(k)
    ensures Blocks(blkcnt, shift) >= bytes || blkcnt == BLKCNT_MAX
    ensures forall j: nat :: 1 <= j < k ==> Blocks(Pow2(j), shift) < bytes
    ensures bytes <= 0x4000_0000 && blkcnt < BLKCNT_MAX ==> Blocks(blkcnt, shift) < 0x8000_0000
  {
    blkcnt, k := BLKCNT_MIN, 1;
    PowerOfTwelve();
    SmallBlocks(shift);
    hide Blocks;
    while blkcnt != BLKCNT_MAX
      invariant 1 <= k <= 12 && blkcnt == Pow2(k)
      invariant forall j: nat :: 1 <= j < k ==> Blocks(Pow2(j), shift) < bytes
      invariant bytes <= 0x4000_0000 ==> Blocks(blkcnt, shift) < 0x8000_0000
      decreases 12 - k
    {
      if Blocks(blkcnt, shift) >= bytes {
        break;
      }
      BlocksDouble(blkcnt, shift);
      TwelveAtMost(k);
      blkcnt := blkcnt * 2;
      k := k + 1;
    }
  }

  lemma PowerOfTwelve()
    ensures Pow2(1) == BLKCNT_MIN && Pow2(12) == BLKCNT_MAX
  {
    assert Pow2(4) == 16;
    assert Pow2(8) == 256;
  }

  lemma TwelveAtMost(k: nat)
    requires k <= 12 && Pow2(k) != BLKCNT_MAX
    ensures k < 12
  {
    PowerOfTwelve();
  }

  lemma SmallBlocks(shift: nat)
    requires shift <= SHIFT_MAX
    ensures Blocks(BLKCNT_MIN, shift) < 0x8000_0000
  {
    Pow2Monotone(shift, SHIFT_MAX);
    PowerOfTwentyFour();
  }

  lemma PowerOfTwentyFour()
    ensures Pow2(24) == 0x100_0000
  {
    PowerOfTwelve();
    assert Pow2(16) == 16 * Pow2(12);
    assert Pow2(20) == 16 * Pow2(16);
  }

  function BlockBytes(ms: nat, rate: nat, frameBytes: nat): nat {
    ((ms * rate) / 1000) * frameBytes
  }

  /** The sizing of the hardware buffer in `oss_hw_params`, with blocks of `ms` milliseconds. The block size is the
      least power of two that holds so many bytes if and only if there are any and at most 2^24 of them; a rate so low
      that they make no frame at all ends, like one too high, in the largest block. */
  method SizeFragments(ms: nat, rate: nat, frameBytes: nat, bufferSize: nat)
    returns (shift: nat, blkcnt: nat, ghost k: nat)
    ensures var want := BlockBytes(ms, rate, frameBytes);
            && (LeastPow2(Pow2(shift), want) <==> 0 < want <= Pow2(SHIFT_MAX))
            && (want == 0 || want > Pow2(SHIFT_MAX - 1) ==> shift == SHIFT_MAX)
    ensures shift <= SHIFT_MAX && 1 <= k <= 12 && blkcnt == Pow2(k)
    ensures Blocks(blkcnt, shift) >= bufferSize * frameBytes || blkcnt == BLKCNT_MAX
    ensures forall j: nat :: 1 <= j < k ==> Blocks(Pow2(j), shift) < bufferSize * frameBytes
  {
    hide BlockBytes, LeastPow2, Pow2, Blocks;
    var tmp := BlockBytes(ms, rate, frameBytes);
    ghost var want := tmp;
    tmp := RoundUp(tmp);
    ghost var rounded := tmp;
    shift := LogTwo(tmp);
    ShiftIs(want, rounded, shift);
    tmp := bufferSize * frameBytes;
    blkcnt, k := BlockCount(shift, tmp);
  }

  /** What the logarithm loop makes of a rounded size. */
  lemma ShiftIs(want: nat, rounded: nat, shift: nat)
    requires (want == 0 ==> rounded == 0) && (want > 0 ==> LeastPow2(rounded, want))
    requires shift <= SHIFT_MAX && (shift < SHIFT_MAX ==> rounded == Pow2(shift))
    requires forall k: nat :: k < SHIFT_MAX && rounded == Pow2(k) ==> shift == k
    ensures LeastPow2(Pow2(shift), want) <==> 0 < want <= Pow2(SHIFT_MAX)
    ensures want == 0 || want > Pow2(SHIFT_MAX - 1) ==> shift == SHIFT_MAX
  {
    hide Pow2, LeastPow2;
    if want == 0 {
      NeverZero();
      ZeroHasOne(shift);
    } else if want <= Pow2(SHIFT_MAX - 1) {
      ghost var j := RoundedSmall(rounded, want);
      Pow2Strict(SHIFT_MAX - 1, SHIFT_MAX);
    } else {
      AtLeast(rounded, want);
      if shift < SHIFT_MAX {
        Pow2Monotone(shift, SHIFT_MAX - 1);
      }
      LastPower(want);
    }
  }

  lemma AtLeast(p: nat, n: nat)
    requires LeastPow2(p, n)
    ensures p >= n
  {
  }

  lemma ZeroHasOne(shift: nat)
    requires shift == SHIFT_MAX
    ensures !LeastPow2(Pow2(shift), 0)
  {
    assert Pow2(0) == 1;
    Pow2Strict(0, shift);
  }

  lemma LastPower(want: nat)
    requires want > Pow2(SHIFT_MAX - 1)
    ensures LeastPow2(Pow2(SHIFT_MAX), want) <==> want <= Pow2(SHIFT_MAX)
  {
    if want <= Pow2(SHIFT_MAX) {
      forall k: nat | Pow2(k) >= want ensures Pow2(SHIFT_MAX) <= Pow2(k) {
        if k < SHIFT_MAX {
          Pow2Monotone(k, SHIFT_MAX - 1);
        } else {
          Pow2Monotone(SHIFT_MAX, k);
        }
      }
    }
  }

  lemma NeverZero()
    ensures forall k: nat :: Pow2(k) != 0
  {
  }

  lemma RoundedSmall(p: nat, n: nat) returns (k: nat)
    requires LeastPow2(p, n) && n <= Pow2(SHIFT_MAX - 1)
    ensures k < SHIFT_MAX && p == Pow2(k)
  {
    k :| Pow2(k) == p;
    if k >= SHIFT_MAX {
      Pow2Monotone(SHIFT_MAX, k);
    }
  }
}
