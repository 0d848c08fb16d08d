/**
 * Unsigned machine integers as mathematical naturals.
 *
 * The tools compute on `uint32_t`/`uint64_t` values and combine them with
 * `&` and `~`.  Here a machine word is a `nat` below `2^k`, wrap-around is
 * written out with `%`, and bitwise AND is a recursive function on the binary
 * digits, so that the mask expressions of the source can be related to plain
 * division and remainder by proof.
 */
module Bits {

  const U32: nat := 0x1_0000_0000
  const U64: nat := 0x1_0000_0000_0000_0000

  function Pow2(k: nat): (r: nat)
    ensures r > 0
  {
    if k == 0 then 1 else 2 * Pow2(k - 1)
  }

  lemma {:induction false} Pow2Add(a: nat, b: nat)
    ensures Pow2(a + b) == Pow2(a) * Pow2(b)
  {
    if a > 0 {
      Pow2Add(a - 1, b);
      assert Pow2(a + b) == 2 * Pow2(a - 1 + b);
    }
  }

  /** The powers of two that name the source's constants. */
  lemma Pow2Constants()
    ensures Pow2(4) == 16 && Pow2(8) == 256 && Pow2(12) == 4096
    ensures Pow2(16) == 0x1_0000 && Pow2(32) == U32 && Pow2(64) == U64
  {
    assert Pow2(2) == 4;
    assert Pow2(4) == 16;
    Pow2Add(4, 4);
    Pow2Add(8, 4);
    Pow2Add(8, 8);
    Pow2Add(16, 16);
    Pow2Add(32, 32);
  }

  /** Bitwise AND of two naturals, one binary digit at a time. */
  function BitAnd(a: nat, b: nat): nat
  {
    if a == 0 || b == 0 then 0
    else (if a % 2 == 1 && b % 2 == 1 then 1 else 0) + 2 * BitAnd(a / 2, b / 2)
  }

  /** `~x` on a 64-bit word. */
  function BitNot64(x: nat): (r: nat)
    requires x < U64
    ensures r < U64 && r + x == U64 - 1
    ensures BitAnd(r, x) == 0
  {
    NotDisjoint(x);
    U64 - 1 - x
  }

  lemma NotDisjoint(x: nat)
    requires x < U64
    ensures BitAnd(U64 - 1 - x, x) == 0
  {
    Pow2Constants();
    ComplementDisjoint(64, x);
  }

  lemma {:induction false} ComplementDisjoint(k: nat, x: nat)
    requires x < Pow2(k)
    ensures BitAnd(Pow2(k) - 1 - x, x) == 0
  {
    if k > 0 && x > 0 && Pow2(k) - 1 - x > 0 {
      var y := Pow2(k) - 1 - x;
      assert y / 2 == Pow2(k - 1) - 1 - x / 2;
      assert y % 2 != x % 2;
      ComplementDisjoint(k - 1, x / 2);
    }
  }

  /** Splitting a remainder by a product into a remainder and a digit. */
  lemma ModSplit(a: nat, b: nat, p: nat, bp: nat)
    requires b > 0 && p > 0 && bp == b * p
    ensures a % bp == a % b + b * ((a / b) % p)
  {
    var x, r1 := a / b, a % b;
    var q, r2 := x / p, x % p;
    MulAdd(a, b, p, x, r1, q, r2);
    DivModUnique(a, b * p, q, b * r2 + r1);
  }

  lemma MulAdd(a: nat, b: nat, p: nat, x: nat, r1: nat, q: nat, r2: nat)
    requires a == b * x + r1 && r1 < b && x == p * q + r2 && r2 < p
    ensures a == (b * p) * q + (b * r2 + r1) && b * r2 + r1 < b * p
  {
    assert b * x == b * (p * q) + b * r2;
    assert b * (p * q) == (b * p) * q;
    assert b * r2 <= b * (p - 1) by { MulMono(b, r2, p - 1); }
    assert b * (p - 1) == b * p - b;
  }

  lemma MulMono(b: nat, x: nat, y: nat)
    requires x <= y
    ensures b * x <= b * y
  {
  }

  /** Splitting off the lowest binary digit of a remainder by a power of two. */
  lemma ModDouble(a: nat, k: nat)
    requires k > 0
    ensures a % Pow2(k) == 2 * ((a / 2) % Pow2(k - 1)) + a % 2
  {
    ModSplit(a, 2, Pow2(k - 1), Pow2(k));
  }

  lemma DivModUnique(a: nat, d: nat, q: nat, r: nat)
    requires d > 0 && a == d * q + r && r < d
    ensures a % d == r && a / d == q
  {
    var q0, r0 := a / d, a % d;
    assert d * (q0 - q) == r - r0;
    MulStep(d, q0 - q);
  }

  /** A remainder is never larger than the number divided. */
  lemma ModAtMost(a: nat, d: nat)
    requires d > 0
    ensures a % d <= a
  {
    if a >= d {
      MulStep(d, a / d);
    }
  }

  lemma MulStep(d: nat, k: int)
    requires d > 0
    ensures k >= 1 ==> d * k >= d
    ensures k <= -1 ==> d * k <= 0 - d
  {
  }

  /**
   * A contiguous mask of ones, from binary digit `j` up to (not including)
   * digit `k`, keeps exactly the digits of `a` between those positions.
   */
  lemma {:induction false} BitAndRange(a: nat, j: nat, k: nat)
    requires j <= k
    ensures Pow2(j) <= Pow2(k)
    ensures a % Pow2(j) <= a % Pow2(k)
    ensures BitAnd(a, Pow2(k) - Pow2(j)) == a % Pow2(k) - a % Pow2(j)
    decreases k
  {
    Pow2Mono(j, k);
    if j == 0 {
      LowMask(a, k);
      DivModUnique(a, 1, a, 0);
    } else if a == 0 {
      DivModUnique(0, Pow2(k), 0, 0);
      DivModUnique(0, Pow2(j), 0, 0);
    } else {
      var m, m2 := Pow2(k) - Pow2(j), Pow2(k - 1) - Pow2(j - 1);
      var x, y := (a / 2) % Pow2(k - 1), (a / 2) % Pow2(j - 1);
      assert BitAnd(a / 2, m2) == x - y && y <= x by {
        BitAndRange(a / 2, j - 1, k - 1);
      }
      assert a % Pow2(k) == 2 * x + a % 2 && a % Pow2(j) == 2 * y + a % 2 by {
        ModDouble(a, k);
        ModDouble(a, j);
      }
      if m != 0 {
        assert BitAnd(a, m) == 2 * BitAnd(a / 2, m2) by {
          assert m == 2 * m2 by {
            assert Pow2(k) == 2 * Pow2(k - 1) && Pow2(j) == 2 * Pow2(j - 1);
          }
          BitAndStep(a, m, m2, 0);
        }
      }
    }
  }

  /** The mask of the k lowest binary digits keeps `a % 2^k`. */
  lemma {:induction false} LowMask(a: nat, k: nat)
    ensures BitAnd(a, Pow2(k) - 1) == a % Pow2(k)
    decreases k
  {
    if k == 0 {
      DivModUnique(a, 1, a, 0);
    } else if a == 0 {
      DivModUnique(0, Pow2(k), 0, 0);
    } else {
      var p := Pow2(k - 1);
      LowMask(a / 2, k - 1);
      ModDouble(a, k);
      assert Pow2(k) == 2 * p;
      BitAndStep(a, 2 * p - 1, p - 1, 1);
    }
  }

  /** One step of `BitAnd`: the lowest digits, and the rest halved. */
  lemma BitAndStep(a: nat, m: nat, hm: nat, bit: nat)
    requires a > 0 && m > 0 && bit < 2 && m == 2 * hm + bit
    ensures BitAnd(a, m) == (if a % 2 == 1 && bit == 1 then 1 else 0) + 2 * BitAnd(a / 2, hm)
  {
    DivModUnique(m, 2, hm, bit);
  }

  lemma {:induction false} Pow2Mono(j: nat, k: nat)
    requires j <= k
    ensures Pow2(j) <= Pow2(k)
    decreases k
  {
    if j < k {
      Pow2Mono(j, k - 1);
    }
  }

}
