/**
 Numbers of the host language, IEEE 754 doubles: finite ones are counted in steps of the
 smallest positive one, of which there are 2^1074 in one.
 */
module Numbers {
  import opened Words

  /** Every finite double is a whole number of steps. What is not a number never comes up. */
  datatype Number = Finite(steps: int) | Infinite(negative: bool)

  function Whole(n: int): Number {
    Finite(n * Pow2(1074))
  }

  predicate Positive(n: Number) {
    if n.Finite? then n.steps > 0 else !n.negative
  }

  /** How far apart doubles are around `k` steps: 53 significant bits are kept. */
  function Spacing(k: nat): (r: nat)
    ensures r > 0
  {
    if k < 0x20_0000_0000_0000 then 1 else 2 * Spacing(k / 2)
  }

  /** The double nearest to `k` steps; of two equally near the even one. */
  function Nearest(k: nat): nat {
    var gap := Spacing(k);
    var below, rest := k / gap, k % gap;
    if 2 * rest < gap || (2 * rest == gap && below % 2 == 0) then below * gap else (below + 1) * gap
  }

  function Bits(k: nat): nat {
    if k == 0 then 0 else 1 + Bits(k / 2)
  }

  /** Rounding takes the number to 2^1024 or beyond. */
  predicate TooLarge(k: nat) {
    Bits(Nearest(k)) > 2098
  }

  /** The product with a positive whole number, rounded. */
  function Times(x: Number, n: nat): Number
    requires n > 0
  {
    if x.Infinite? then x else Rounded(x.steps * n)
  }

  function Rounded(k: int): Number {
    if k < 0 then (if TooLarge(-k) then Infinite(true) else Finite(Nearest(-k) * -1))
    else if TooLarge(k) then Infinite(false) else Finite(Nearest(k))
  }

  lemma PositiveTimes(x: Number, n: nat)
    requires n > 0 && Positive(x)
    ensures Times(x, n).Infinite? ==> Times(x, n) == Infinite(false)
  {
    if x.Finite? {
      assert x.steps * n > 0;
    }
  }

  lemma {:induction false} SpacingIsSmall(k: nat)
    requires k >= 2
    ensures 2 * Spacing(k) <= k
  {
    if k >= 0x20_0000_0000_0000 {
      SpacingIsSmall(k / 2);
    }
  }

  lemma NearestIsNear(k: nat)
    requires k >= 2
    ensures 2 * Nearest(k) >= k
  {
    SpacingIsSmall(k);
    var gap := Spacing(k);
    assert k == k / gap * gap + k % gap;
    assert (k / gap + 1) * gap == k / gap * gap + gap;
  }

  lemma {:induction false} BitsOfLarge(k: nat, n: nat)
    requires k >= Pow2(n)
    ensures Bits(k) > n
    decreases n
  {
    if n > 0 {
      BitsOfLarge(k / 2, n - 1);
    }
  }

  lemma LargePower(n: nat)
    ensures Pow2(n + 8) == 256 * Pow2(n)
  {
    assert Pow2(n + 2) == 4 * Pow2(n);
    assert Pow2(n + 4) == 4 * Pow2(n + 2);
    assert Pow2(n + 6) == 4 * Pow2(n + 4);
    assert Pow2(n + 8) == 4 * Pow2(n + 6);
  }

  lemma LargeRoundsTooLarge(k: nat, n: nat)
    requires 2 <= n && k >= 2 * Pow2(n) && n >= 2098
    ensures TooLarge(k)
  {
    NearestIsNear(k);
    BitsOfLarge(Nearest(k), n);
  }

  /** A finite number can have an infinite product: a thousand times anything from 2^1016 on. */
  lemma ThousandfoldOverflow(n: nat)
    requires n >= 2090
    ensures Times(Finite(Pow2(n)), 1000) == Infinite(false)
  {
    LargePower(n);
    LargeRoundsTooLarge(Pow2(n) * 1000, n + 8);
  }

  lemma {:induction false} BitsOfSmall(k: nat, n: nat)
    requires k < Pow2(n)
    ensures Bits(k) <= n
    decreases n
  {
    if k > 0 {
      BitsOfSmall(k / 2, n - 1);
    }
  }

  lemma NearestBelow(k: nat)
    requires k >= 2
    ensures Nearest(k) <= 2 * k
  {
    SpacingIsSmall(k);
    var gap := Spacing(k);
    assert k == k / gap * gap + k % gap;
    assert (k / gap + 1) * gap == k / gap * gap + gap;
  }

  lemma SmallRounds(k: nat, n: nat)
    requires 2 <= k && 2 * k < Pow2(n) && n <= 2098
    ensures !TooLarge(k)
  {
    NearestBelow(k);
    BitsOfSmall(Nearest(k), n);
  }

  /** Up to 512 times a power of two, a thousandfold product stays finite, unless the power is huge. */
  lemma ThousandfoldFits(x: Number, n: nat)
    requires x.Finite? && 0 <= x.steps <= 512 * Pow2(n) && n <= 2000
    ensures Times(x, 1000).Finite?
  {
    var k := x.steps * 1000;
    LargePower(n);
    LargePower(n + 8);
    LargePower(n + 16);
    if k >= 2 {
      SmallRounds(k, n + 24);
    } else {
      assert Bits(Nearest(0)) == 0 by {
        assert Nearest(0) == 0;
      }
    }
  }
}
