/** Integer facts the models share: 32-bit words, powers of two, quotients and remainders. */
module Arithmetic {
  const WORD: nat := 0x1_0000_0000

  function Pow2(k: nat): (p: nat)
    ensures p > 0
  {
    if k == 0 then 1 else 2 * Pow2(k - 1)
  }

  lemma RemainderIs(a: int, m: nat, q: int, r: nat)
    requires r < m && a == m * q + r
    ensures a % m == r
  {
    var d := a / m - q;
    assert a == m * (a / m) + a % m;
    assert m * d == r - a % m by { assert m * (a / m) - m * q == m * d; }
    if d > 0 { Scale(m, 1, d); } else if d < 0 { Scale(m, d, -1); }
  }

  lemma Scale(m: nat, a: int, b: int)
    requires a <= b
    ensures m * a <= m * b
  {
    assert m * (b - a) >= 0;
    assert m * b == m * a + m * (b - a);
  }

  lemma HalfRemainder(a: nat, p: nat)
    requires p > 0
    ensures a % (2 * p) == a % 2 + 2 * (a / 2 % p)
  {
    var q, r := a / 2 / p, a / 2 % p;
    assert a / 2 == p * q + r;
    assert a == 2 * p * q + (2 * r + a % 2) by { assert 2 * (p * q) == 2 * p * q; }
    RemainderIs(a, 2 * p, q, 2 * r + a % 2);
  }

  lemma RemainderTwice(n: nat, w: nat, p: nat, m: nat)
    requires p > 0 && w > 0 && w == p * m
    ensures n % w % p == n % p
  {
    var q, r := n / w, n % w;
    assert n == w * q + r;
    assert r == p * (r / p) + r % p;
    assert w * q == p * (m * q);
    assert p * (m * q + r / p) == p * (m * q) + p * (r / p);
    RemainderIs(n, p, m * q + r / p, r % p);
  }

  lemma DoubledProduct(x: nat, y: nat, z: nat, d: nat)
    requires z == x * y && d == 2 * x
    ensures 2 * z == d * y
  {
  }

  lemma {:induction false} PowersAdd(a: nat, b: nat)
    ensures Pow2(a + b) == Pow2(a) * Pow2(b)
  {
    if a == 0 {
    } else {
      PowersAdd(a - 1, b);
      DoubledProduct(Pow2(a - 1), Pow2(b), Pow2(a - 1 + b), Pow2(a));
    }
  }

  lemma PowersDivide(k: nat, n: nat) returns (m: nat)
    requires k <= n
    ensures Pow2(n) == Pow2(k) * m
  {
    m := Pow2(n - k);
    PowersAdd(k, n - k);
  }

  lemma WordIsPower()
    ensures Pow2(32) == WORD
  {
    assert Pow2(8) == 256;
    PowersAdd(8, 8);
    PowersAdd(16, 16);
  }
}
