/** 32-bit words as the host language works on them: bitwise on unsigned, compared as signed. */
module Words {
  function Pow2(k: nat): (r: nat)
    ensures r > 0
  {
    if k == 0 then 1 else 2 * Pow2(k - 1)
  }

  const WORD := 0x1_0000_0000

  lemma WordIsPow2()
    ensures Pow2(32) == WORD
  {
    assert Pow2(8) == 256;
    assert Pow2(16) == 256 * Pow2(8);
    assert Pow2(24) == 256 * Pow2(16);
    assert Pow2(32) == 256 * Pow2(24);
  }

  function And(x: nat, y: nat): nat {
    if x == 0 || y == 0 then 0
    else 2 * And(x / 2, y / 2) + (if x % 2 == 1 && y % 2 == 1 then 1 else 0)
  }

  function Or(x: nat, y: nat): nat
    decreases x + y
  {
    if x == 0 then y else if y == 0 then x
    else 2 * Or(x / 2, y / 2) + (if x % 2 == 1 || y % 2 == 1 then 1 else 0)
  }

  /** `ToInt32`. */
  function Signed(u: nat): (r: int)
    requires u < WORD
    ensures -WORD <= r < WORD
  {
    if u >= WORD / 2 then u - WORD else u
  }

  /** `>>> 0`, of a number at most one word away from an unsigned one. */
  function Unsigned(i: int): (r: nat)
    requires -WORD <= i < 2 * WORD
    ensures r < WORD
  {
    if i < 0 then i + WORD else if i >= WORD then i - WORD else i
  }

  function BitAnd(a: int, b: int): (r: int)
    requires -WORD <= a < WORD && -WORD <= b < WORD
    ensures -WORD <= r < WORD
  {
    AndFits(Unsigned(a), Unsigned(b));
    Signed(And(Unsigned(a), Unsigned(b)))
  }

  function BitOr(a: int, b: int): (r: int)
    requires -WORD <= a < WORD && -WORD <= b < WORD
    ensures -WORD <= r < WORD
  {
    OrFits(Unsigned(a), Unsigned(b));
    Signed(Or(Unsigned(a), Unsigned(b)))
  }

  /** `~a >>> 0`. */
  function Not(a: int): (r: nat)
    requires -WORD <= a < WORD
    ensures r < WORD
  {
    WORD - 1 - Unsigned(a)
  }

  lemma SignedBack(u: nat)
    requires u < WORD
    ensures Unsigned(Signed(u)) == u
  {
  }

  lemma {:induction false} AndFits(x: nat, y: nat)
    ensures And(x, y) <= x
    decreases x
  {
    if x > 0 && y > 0 {
      AndFits(x / 2, y / 2);
    }
  }

  lemma OrFits(x: nat, y: nat)
    requires x < WORD && y < WORD
    ensures Or(x, y) < WORD
  {
    WordIsPow2();
    OrBelow(x, y, 32);
  }

  lemma {:induction false} OrBelow(x: nat, y: nat, k: nat)
    requires x < Pow2(k) && y < Pow2(k)
    ensures Or(x, y) < Pow2(k)
    decreases k
  {
    if x > 0 && y > 0 {
      OrBelow(x / 2, y / 2, k - 1);
    }
  }

  // ---- prefixes -----------------------------------------------------------------------

  /** The mask with `k` host bits, section 3.1 of RFC 4632. */
  function MaskOf(k: nat): (m: nat)
    requires k <= 32
    ensures m < WORD
  {
    WordIsPow2();
    Pow2Grows(k, 32);
    WORD - Pow2(k)
  }

  lemma {:induction false} Pow2Grows(a: nat, b: nat)
    requires a <= b
    ensures Pow2(a) <= Pow2(b)
    decreases b - a
  {
    if a < b {
      Pow2Grows(a, b - 1);
    }
  }

  lemma {:induction false} AndAllOnes(x: nat, n: nat)
    requires x < Pow2(n)
    ensures And(x, Pow2(n) - 1) == x
    decreases n
  {
    if n > 0 && x > 0 {
      AndAllOnes(x / 2, n - 1);
      assert (Pow2(n) - 1) / 2 == Pow2(n - 1) - 1 && (Pow2(n) - 1) % 2 == 1;
    }
  }

  /** A number with its `k` low bits cleared. */
  function Network(x: nat, k: nat): nat {
    if k == 0 then x else 2 * Network(x / 2, k - 1)
  }

  lemma {:induction false} NetworkBelow(x: nat, k: nat)
    ensures Network(x, k) <= x < Network(x, k) + Pow2(k)
    decreases k
  {
    if k > 0 {
      NetworkBelow(x / 2, k - 1);
    }
  }

  /** Two numbers share a network exactly when one lies in the stretch of the other. */
  lemma {:induction false} NetworkIsInterval(x: nat, y: nat, k: nat)
    ensures Network(y, k) == Network(x, k) <==> Network(x, k) <= y < Network(x, k) + Pow2(k)
    decreases k
  {
    if k > 0 {
      NetworkIsInterval(x / 2, y / 2, k - 1);
    }
  }

  /** The stretch of a number below a power of two stays below it. */
  lemma {:induction false} NetworkFits(x: nat, k: nat, n: nat)
    requires x < Pow2(n) && k <= n
    ensures Network(x, k) + Pow2(k) <= Pow2(n)
    decreases k
  {
    if k > 0 {
      NetworkFits(x / 2, k - 1, n - 1);
    }
  }

  lemma {:induction false} NetworkOfAll(x: nat, k: nat)
    requires x < Pow2(k)
    ensures Network(x, k) == 0
    decreases k
  {
    if k > 0 {
      NetworkOfAll(x / 2, k - 1);
    }
  }

  /** Masking with `k` host bits clears them. */
  lemma {:induction false} AndMask(x: nat, n: nat, k: nat)
    requires x < Pow2(n) && k <= n
    ensures Pow2(k) <= Pow2(n) && And(x, Pow2(n) - Pow2(k)) == Network(x, k)
    decreases n
  {
    Pow2Grows(k, n);
    if k == 0 {
      AndAllOnes(x, n);
    } else {
      Pow2Grows(k - 1, n - 1);
      var mask: nat := Pow2(n - 1) - Pow2(k - 1);
      AndMask(x / 2, n - 1, k - 1);
      AndEven(x, mask);
      assert Pow2(n) - Pow2(k) == 2 * mask;
    }
  }

  lemma AndEven(x: nat, y: nat)
    ensures And(x, 2 * y) == 2 * And(x / 2, y)
  {
  }

  /** Filling the cleared host bits. */
  lemma {:induction false} OrHosts(x: nat, k: nat)
    ensures Or(Network(x, k), Pow2(k) - 1) == Network(x, k) + Pow2(k) - 1
    decreases k
  {
    if k > 0 {
      OrHosts(x / 2, k - 1);
      OrOdd(Network(x / 2, k - 1), Pow2(k - 1) - 1);
    }
  }

  lemma OrOdd(x: nat, y: nat)
    ensures Or(2 * x, 2 * y + 1) == 2 * Or(x, y) + 1
  {
  }

  ghost predicate AllOnes(z: nat) {
    exists k: nat :: Ones(z, k)
  }

  predicate Ones(z: nat, k: nat) {
    z + 1 == Pow2(k)
  }

  /** The bit trick of the contiguity test: no bit is shared with the successor. */
  lemma {:induction false} SuccessorSharesNoBit(z: nat)
    ensures And(z + 1, z) == 0 <==> AllOnes(z)
    decreases z
  {
    if z == 0 {
      assert Ones(0, 0);
    } else if z % 2 == 0 {
      AndSelf(z / 2);
      assert (z + 1) / 2 == z / 2;
      forall k: nat ensures !Ones(z, k) {
      }
    } else {
      SuccessorSharesNoBit(z / 2);
      assert (z + 1) / 2 == z / 2 + 1;
      if AllOnes(z / 2) {
        var k: nat :| Ones(z / 2, k);
        assert Ones(z, k + 1);
      }
      if AllOnes(z) {
        var k: nat :| Ones(z, k);
        assert Ones(z / 2, k - 1);
      }
    }
  }

  lemma {:induction false} AndSelf(x: nat)
    ensures And(x, x) == x
    decreases x
  {
    if x > 0 {
      AndSelf(x / 2);
    }
  }
}
