/** Division facts that the solver does not find by itself. */
module Arith {

  lemma ZeroByMagnitude(s: int, d: int, e: int)
    requires s > 0 && s * d == e && -s < e < s
    ensures d == 0
  {
    assert d >= 1 ==> s * d >= s;
    assert d <= -1 ==> s * d <= -s;
  }

  lemma DivUnique(s: nat, y: nat, r: nat)
    requires s > 0 && r < s
    ensures (s * y + r) / s == y && (s * y + r) % s == r
  {
    var x := s * y + r;
    var z, m := x / s, x % s;
    assert x == s * z + m && 0 <= m < s;
    ZeroByMagnitude(s, y - z, m - r);
  }

  lemma ModSum(s: nat, a: nat, b: nat)
    requires s > 0 && a % s == 0 && b % s == 0
    ensures (a + b) % s == 0
  {
    assert a + b == s * (a / s + b / s);
    DivUnique(s, a / s + b / s, 0);
  }

  lemma ModNext(s: nat, a: nat, b: nat)
    requires s > 0 && a % s == 0 && b % s == 0 && a < b
    ensures a + s <= b && (a + s) % s == 0
  {
    var x, y := a / s, b / s;
    assert a == s * x && b == s * y;
    assert y <= x ==> s * y <= s * x;
    assert s * (x + 1) == s * x + s;
    assert y >= x + 1 ==> s * y >= s * (x + 1);
    DivUnique(s, x + 1, 0);
  }

  lemma DivMono(s: nat, a: nat, b: nat)
    requires s > 0 && a <= b
    ensures a / s <= b / s
  {
    var x, y := a / s, b / s;
    assert s * x <= a < s * x + s && s * y <= b < s * y + s;
    assert y + 1 <= x ==> s * (y + 1) <= s * x;
    assert s * (y + 1) == s * y + s;
  }

  /** An aligned `m` separates the blocks below it from the blocks above it. */
  lemma DivAcross(s: nat, c: nat, m: nat, v: nat)
    requires s > 0 && m % s == 0 && c < m <= v
    ensures c / s < m / s <= v / s && m <= v / s * s
  {
    DivMono(s, m, v);
    DivMono(s, c, m);
    assert m == s * (m / s) && c < s * (m / s);
    assert c >= s * (c / s);
    assert m / s <= v / s ==> s * (m / s) <= s * (v / s);
  }

  /** Two numbers less than `c` apart with the same residue are equal. */
  lemma SameResidue(c: nat, a: nat, b: nat)
    requires c > 0 && a % c == b % c && a <= b < a + c
    ensures a == b
  {
    assert b - a == c * (b / c - a / c);
    ZeroByMagnitude(c, b / c - a / c, b - a);
  }

  lemma ResidueStep(c: nat, a: nat)
    requires c >= 2
    ensures (a + c) % c == a % c && (a + 1) % c != a % c
  {
    assert a + c == c * (a / c + 1) + a % c;
    DivUnique(c, a / c + 1, a % c);
    if (a + 1) % c == a % c {
      SameResidue(c, a, a + 1);
    }
  }

  lemma ModAtMost(a: nat, c: nat)
    requires c > 0
    ensures a % c <= a
  {
    assert a == c * (a / c) + a % c;
  }
}
