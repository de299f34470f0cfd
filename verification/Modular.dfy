/** Congruences modulo a positive number. */
module Modular {
  import opened Bits

  lemma ModPlus(x: int, k: int, m: int)
    requires m > 0
    ensures (x + k * m) % m == x % m
  {
    var q, r := x / m, x % m;
    assert x == m * q + r;
    assert x + k * m == (q + k) * m + r;
    DivModUnique(x + k * m, m, q + k, r);
  }

  /** Equal remainders differ by a multiple of the modulus. */
  lemma ModDiff(x: int, y: int, m: int) returns (k: int)
    requires m > 0 && x % m == y % m
    ensures x == y + k * m
  {
    k := x / m - y / m;
    assert x == m * (x / m) + x % m && y == m * (y / m) + y % m;
    assert k * m == m * (x / m) - m * (y / m);
  }

  lemma ModAdd(a: int, b: int, c: int, d: int, m: int)
    requires m > 0 && a % m == b % m && c % m == d % m
    ensures (a + c) % m == (b + d) % m
  {
    var j := ModDiff(a, b, m);
    var k := ModDiff(c, d, m);
    assert a + c == b + d + (j + k) * m;
    ModPlus(b + d, j + k, m);
  }

  lemma ModSub(a: int, b: int, c: int, d: int, m: int)
    requires m > 0 && a % m == b % m && c % m == d % m
    ensures (a - c) % m == (b - d) % m
  {
    var j := ModDiff(a, b, m);
    var k := ModDiff(c, d, m);
    assert a - c == b - d + (j - k) * m;
    ModPlus(b - d, j - k, m);
  }

  lemma ModMul(a: int, b: int, c: int, d: int, m: int)
    requires m > 0 && a % m == b % m && c % m == d % m
    ensures (a * c) % m == (b * d) % m
  {
    var j := ModDiff(a, b, m);
    var k := ModDiff(c, d, m);
    var t := b * k + j * d + j * k * m;
    Expand(b, d, j, k, m, t);
    ModPlus(b * d, t, m);
  }

  lemma Expand(b: int, d: int, j: int, k: int, m: int, t: int)
    requires t == b * k + j * d + j * k * m
    ensures (b + j * m) * (d + k * m) == b * d + t * m
  {
    calc {
      (b + j * m) * (d + k * m);
      b * d + b * (k * m) + (j * m) * d + (j * m) * (k * m);
      b * d + (b * k) * m + (j * d) * m + (j * k * m) * m;
    }
  }

  lemma ModIdem(x: int, m: int)
    requires m > 0
    ensures (x % m) % m == x % m
  {
    DivModUnique(x % m, m, 0, x % m);
  }

  lemma ModSmall(x: int, m: int)
    requires 0 <= x < m
    ensures x % m == x
  {
    DivModUnique(x, m, 0, x);
  }
}
