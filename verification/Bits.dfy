/** Bit masks on natural numbers, and what masking with a power of two less one computes. */
module Bits {
  import opened Arith

  /** Bitwise and. */
  function BitAnd(a: nat, b: nat): nat {
    if a == 0 || b == 0 then 0
    else 2 * BitAnd(a / 2, b / 2) + (if a % 2 == 1 && b % 2 == 1 then 1 else 0)
  }

  function Pow2(k: nat): (p: nat)
    ensures p >= 1
  {
    if k == 0 then 1 else 2 * Pow2(k - 1)
  }

  ghost predicate IsPow2(n: nat) {
    exists k :: n == Pow2(k)
  }

  lemma {:induction false} MaskIsMod(a: nat, k: nat)
    ensures BitAnd(a, Pow2(k) - 1) == a % Pow2(k)
  {
    if k > 0 && a > 0 {
      var p := Pow2(k - 1);
      assert (2 * p - 1) / 2 == p - 1 && (p == 1 || (2 * p - 1) % 2 == 1);
      MaskIsMod(a / 2, k - 1);
      HalfMod(a, p);
    } else if k > 0 {
      DivUnique(Pow2(k), 0, 0);
    }
  }

  lemma HalfMod(a: nat, p: nat)
    requires p > 0
    ensures a % (2 * p) == 2 * ((a / 2) % p) + a % 2
  {
    var q, r := (a / 2) / p, (a / 2) % p;
    assert a / 2 == p * q + r;
    assert a == (2 * p) * q + (2 * r + a % 2);
    DivUnique(2 * p, q, 2 * r + a % 2);
  }

  /** The test `c & (c - 1)` singles out the powers of two. */
  lemma {:induction false} Pow2Test(c: nat)
    requires c > 0
    ensures BitAnd(c, c - 1) == 0 <==> IsPow2(c)
  {
    if c == 1 {
      assert Pow2(0) == 1;
    } else if c % 2 == 0 {
      Pow2Test(c / 2);
      assert (c - 1) / 2 == c / 2 - 1;
      if IsPow2(c / 2) {
        var k: nat :| c / 2 == Pow2(k);
        assert c == Pow2(k + 1);
      }
      if IsPow2(c) {
        var k: nat :| c == Pow2(k);
        assert c / 2 == Pow2(k - 1);
      }
    } else {
      assert (c - 1) / 2 == c / 2;
      AndSelf(c / 2);
      forall k: nat ensures c != Pow2(k) {
        assert k > 0 ==> Pow2(k) == 2 * Pow2(k - 1);
      }
    }
  }

  lemma {:induction false} AndSelf(a: nat)
    ensures BitAnd(a, a) == a
  {
    if a > 0 {
      AndSelf(a / 2);
    }
  }

  /** `next_power_of_two`, doubling from `p`. */
  function RoundUp(c: nat, p: nat): (r: nat)
    requires 0 < p < 2 * c
    requires IsPow2(p)
    ensures IsPow2(r) && c <= r < 2 * c
    decreases 2 * c - p
  {
    if p >= c then p
    else
      assert IsPow2(2 * p) by {
        var k: nat :| p == Pow2(k);
        assert 2 * p == Pow2(k + 1);
      }
      RoundUp(c, 2 * p)
  }

  function WrappingSub(a: nat, b: nat): nat {
    (a - b) % 0x1_0000_0000_0000_0000
  }

  /** Wrapping subtraction, masked: the distance from `b` to `a` around a ring of that size. */
  lemma RingDistance(a: nat, b: nat, k: nat)
    requires k <= 64
    ensures BitAnd(WrappingSub(a, b), Pow2(k) - 1) == (a - b) % Pow2(k)
  {
    hide BitAnd, Pow2;
    var w := WrappingSub(a, b);
    MaskIsMod(w, k);
    Pow2Of64();
    var c := Pow2Divides(64, k);
    WrapShift(a - b, w, 0x1_0000_0000_0000_0000, Pow2(k), c);
  }

  lemma WrapShift(d: int, w: nat, word: nat, p: nat, c: nat)
    requires p > 0 && c > 0 && word == p * c && w == d % word
    ensures d % p == w % p
  {
    var q := d / word;
    assert d == w + (p * c) * q == w + p * (c * q);
    ModShift(w, c * q, p);
  }

  lemma {:induction false} Pow2Divides(m: nat, k: nat) returns (c: nat)
    requires k <= m
    ensures Pow2(m) == Pow2(k) * c && c > 0
    decreases m - k
  {
    if k == m {
      c := 1;
    } else {
      var d := Pow2Divides(m, k + 1);
      c := 2 * d;
    }
  }

  lemma Pow2Of64()
    ensures Pow2(64) == 0x1_0000_0000_0000_0000
  {
    assert Pow2(8) == 0x100;
    assert Pow2(16) == 0x1_0000;
    assert Pow2(24) == 0x100_0000;
    assert Pow2(32) == 0x1_0000_0000;
    assert Pow2(40) == 0x100_0000_0000;
    assert Pow2(48) == 0x1_0000_0000_0000;
    assert Pow2(56) == 0x100_0000_0000_0000;
  }

  lemma ModShift(w: nat, q: int, p: nat)
    requires p > 0
    ensures (w + p * q) % p == w % p
  {
    var x := w + p * q;
    assert x == p * (x / p) + x % p && w == p * (w / p) + w % p;
    ZeroByMagnitude(p, x / p - w / p - q, w % p - x % p);
  }
}
