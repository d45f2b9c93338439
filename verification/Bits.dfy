/** Bit strings and the bitwise operators on Python's unbounded non-negative integers. */
module Bits {

  function Pow2(k: nat): (r: nat)
    ensures r > 0
  {
    if k == 0 then 1 else 2 * Pow2(k - 1)
  }

  lemma {:induction false} Pow2Monotone(a: nat, b: nat)
    requires a <= b
    ensures Pow2(a) <= Pow2(b)
  {
    if a < b {
      Pow2Monotone(a, b - 1);
    }
  }

  predicate IsBits(s: string) {
    forall i | 0 <= i < |s| :: s[i] == '0' || s[i] == '1'
  }

  /** int(s, 2). */
  function Val(s: string): nat
    requires IsBits(s)
  {
    if s == "" then 0 else 2 * Val(s[..|s| - 1]) + (if s[|s| - 1] == '1' then 1 else 0)
  }

  /** The binary rendering of n, zero-padded on the left to w digits. */
  function Fixed(n: nat, w: nat): (s: string)
    requires n < Pow2(w)
    ensures |s| == w && IsBits(s)
  {
    if w == 0 then "" else Fixed(n / 2, w - 1) + [if n % 2 == 1 then '1' else '0']
  }

  function Zeros(k: nat): (s: string)
    ensures |s| == k && IsBits(s)
  {
    seq(k, _ => '0')
  }

  lemma {:induction false} ValFixed(n: nat, w: nat)
    requires n < Pow2(w)
    ensures Val(Fixed(n, w)) == n
  {
    if w > 0 {
      ValFixed(n / 2, w - 1);
      var s := Fixed(n, w);
      assert s[..|s| - 1] == Fixed(n / 2, w - 1);
    }
  }

  lemma {:induction false} FixedVal(s: string)
    requires IsBits(s)
    ensures Val(s) < Pow2(|s|) && Fixed(Val(s), |s|) == s
  {
    if s != "" {
      FixedVal(s[..|s| - 1]);
      assert s == s[..|s| - 1] + [s[|s| - 1]];
    }
  }

  lemma {:induction false} ValConcat(a: string, b: string)
    requires IsBits(a) && IsBits(b)
    ensures Val(a + b) == Shl(Val(a), |b|) + Val(b)
  {
    if b == "" {
      assert a + b == a;
    } else {
      ValConcat(a, b[..|b| - 1]);
      assert (a + b)[..|a + b| - 1] == a + b[..|b| - 1];
    }
  }

  lemma {:induction false} ValZeros(k: nat)
    ensures Val(Zeros(k)) == 0
  {
    if k > 0 {
      ValZeros(k - 1);
      assert Zeros(k)[..k - 1] == Zeros(k - 1);
    }
  }

  /** x << k. */
  function Shl(x: nat, k: nat): nat {
    if k == 0 then x else 2 * Shl(x, k - 1)
  }

  /** x >> k. */
  function Shr(x: nat, k: nat): nat {
    if k == 0 then x else Shr(x, k - 1) / 2
  }

  /** x & y. */
  function And(x: nat, y: nat): nat {
    if x == 0 || y == 0 then 0
    else 2 * And(x / 2, y / 2) + (if x % 2 == 1 && y % 2 == 1 then 1 else 0)
  }

  /** x | y. */
  function Or(x: nat, y: nat): nat
    decreases x + y
  {
    if x == 0 then y else if y == 0 then x
    else 2 * Or(x / 2, y / 2) + (if x % 2 == 1 || y % 2 == 1 then 1 else 0)
  }

  lemma {:induction false} ShlAdd(x: nat, j: nat, k: nat)
    ensures Shl(Shl(x, j), k) == Shl(x, j + k)
  {
    if k > 0 {
      ShlAdd(x, j, k - 1);
    }
  }

  lemma {:induction false} ShlSum(x: nat, y: nat, k: nat)
    ensures Shl(x + y, k) == Shl(x, k) + Shl(y, k)
  {
    if k > 0 {
      ShlSum(x, y, k - 1);
    }
  }

  lemma {:induction false} ShrHalf(x: nat, k: nat)
    ensures Shr(x, k) / 2 == Shr(x / 2, k)
  {
    if k > 0 {
      ShrHalf(x, k - 1);
    }
  }

  /** Shifting back down drops what was added below. */
  lemma {:induction false} ShrShl(a: nat, k: nat, c: nat)
    requires c < Pow2(k)
    ensures Shr(Shl(a, k) + c, k) == a
  {
    if k > 0 {
      ShrShl(a, k - 1, c / 2);
      ShrHalf(Shl(a, k) + c, k - 1);
      assert (Shl(a, k) + c) / 2 == Shl(a, k - 1) + c / 2;
    }
  }

  /** Masking with k ones keeps the k low bits. */
  lemma {:induction false} AndLowMask(a: nat, k: nat, c: nat)
    requires c < Pow2(k)
    ensures And(Shl(a, k) + c, Pow2(k) - 1) == c
  {
    if k > 0 {
      AndLowMask(a, k - 1, c / 2);
      var x, y := Shl(a, k) + c, Pow2(k) - 1;
      assert x / 2 == Shl(a, k - 1) + c / 2 && x % 2 == c % 2;
      assert y / 2 == Pow2(k - 1) - 1 && y % 2 == 1;
      if x != 0 {
        assert And(x, y) == 2 * And(x / 2, y / 2) + x % 2;
      }
    }
  }

  /** Masking with j ones shifted up by k clears the k low bits of a number of j + k bits. */
  lemma {:induction false} AndHighMask(x: nat, j: nat, k: nat)
    requires x < Pow2(j + k)
    ensures And(x, Shl(Pow2(j) - 1, k)) == Shl(Shr(x, k), k)
  {
    if k == 0 {
      ShlZero(j);
      AndLowMask(0, j, x);
    } else {
      AndHighMask(x / 2, j, k - 1);
      ShrHalf(x, k - 1);
      if x == 0 {
        ShrZero(k);
        ShlZero(k);
      } else if Shl(Pow2(j) - 1, k) == 0 {
        assert And(x / 2, 0) == 0;
      }
    }
  }

  lemma {:induction false} ShlZero(k: nat)
    ensures Shl(0, k) == 0
  {
    if k > 0 {
      ShlZero(k - 1);
    }
  }

  lemma {:induction false} ShrZero(k: nat)
    ensures Shr(0, k) == 0
  {
    if k > 0 {
      ShrZero(k - 1);
    }
  }

  /** Or of a shifted number and one that fits below it is their sum. */
  lemma {:induction false} OrDisjoint(a: nat, k: nat, c: nat)
    requires c < Pow2(k)
    ensures Or(Shl(a, k), c) == Shl(a, k) + c
  {
    if k > 0 && c > 0 {
      OrDisjoint(a, k - 1, c / 2);
    }
  }
}
