/**
 C integers: wrap-around of the fixed-width types, truncating division, powers of two, and
 congruences. Signed overflow is modelled as wrap-around where the source relies on it.
 */
module CInt {

  const TWO_31 := 0x8000_0000
  const TWO_32 := 0x1_0000_0000
  const TWO_63 := 0x8000_0000_0000_0000
  const TWO_64 := 0x1_0000_0000_0000_0000

  function U32(x: int): (r: int)
    ensures 0 <= r < TWO_32
  {
    x % TWO_32
  }

  function S32(x: int): (r: int)
    ensures -TWO_31 <= r < TWO_31
  {
    (x + TWO_31) % TWO_32 - TWO_31
  }

  function U64(x: int): (r: int)
    ensures 0 <= r < TWO_64
  {
    x % TWO_64
  }

  function S64(x: int): (r: int)
    ensures -TWO_63 <= r < TWO_63
  {
    (x + TWO_63) % TWO_64 - TWO_63
  }

  predicate IsS32(x: int) {
    -TWO_31 <= x < TWO_31
  }

  /** Signed division of C: towards zero. */
  function Quot(a: int, b: int): int
    requires b > 0
  {
    if a >= 0 then a / b else -((-a) / b)
  }

  function AbsInt(x: int): nat {
    if x < 0 then -x else x
  }

  function Min(a: int, b: int): int {
    if a < b then a else b
  }

  function Max(a: int, b: int): int {
    if a < b then b else a
  }

  function Pow2(n: nat): (r: int)
    ensures r >= 1
    ensures n >= 1 ==> r % 2 == 0
  {
    if n == 0 then 1 else 2 * Pow2(n - 1)
  }

  lemma {:induction false} Pow2Split(n: nat, k: nat)
    ensures Pow2(n) * Pow2(k) == Pow2(n + k)
  {
    if n > 0 {
      Pow2Split(n - 1, k);
      MulDouble(Pow2(n - 1), Pow2(k), Pow2(n));
    }
  }

  lemma MulDouble(p: int, q: int, r: int)
    requires r == 2 * p
    ensures r * q == 2 * (p * q)
  {
  }

  lemma Pow2Of32()
    ensures Pow2(32) == TWO_32
  {
    assert Pow2(8) == 0x100;
    Pow2Split(8, 8);
    Pow2Split(16, 16);
  }

  /** a and b differ by a multiple of m. */
  ghost predicate Congruent(a: int, b: int, m: int) {
    exists k: int :: a == b + k * m
  }

  lemma CongruentBy(a: int, b: int, m: int, k: int)
    requires a == b + k * m
    ensures Congruent(a, b, m)
  {
  }

  lemma CongruentTrans(a: int, b: int, c: int, m: int)
    requires Congruent(a, b, m) && Congruent(b, c, m)
    ensures Congruent(a, c, m)
  {
    var i :| a == b + i * m;
    var j :| b == c + j * m;
    CongruentBy(a, c, m, i + j);
  }

  lemma CongruentSym(a: int, b: int, m: int)
    requires Congruent(a, b, m)
    ensures Congruent(b, a, m)
  {
    var i :| a == b + i * m;
    CongruentBy(b, a, m, -i);
  }

  lemma CongruentAdd(a: int, b: int, c: int, d: int, m: int)
    requires Congruent(a, b, m) && Congruent(c, d, m)
    ensures Congruent(a + c, b + d, m)
    ensures Congruent(a - c, b - d, m)
  {
    var i :| a == b + i * m;
    var j :| c == d + j * m;
    CongruentBy(a + c, b + d, m, i + j);
    CongruentBy(a - c, b - d, m, i - j);
  }

  lemma CongruentRefl(a: int, m: int)
    ensures Congruent(a, a, m)
  {
    CongruentBy(a, a, m, 0);
  }

  /** Two congruent numbers less than one modulus apart are equal. */
  lemma CongruentClose(a: int, b: int, m: int)
    requires Congruent(a, b, m) && m > 0
    requires -m < a - b < m
    ensures a == b
  {
  }

  lemma MulAtLeast(k: int, m: int)
    requires m >= 0
    ensures k >= 1 ==> k * m >= m
  {
  }

  /** Quotient and remainder are determined by y == s*d + r. */
  lemma EuclidUnique(y: int, s: int, d: int, r: int)
    requires s > 0 && y == s * d + r && 0 <= r < s
    ensures y / s == d && y % s == r
  {
    var e := y / s - d;
    assert s * e == s * (y / s) - s * d;
    assert e * s == r - y % s;
    MulAtLeast(e, s);
    MulAtLeast(-e, s);
    assert (-e) * s == -(e * s);
  }

  /** A congruence modulo a multiple holds modulo the factor. */
  lemma CongruentFactor(a: int, b: int, m: int, s: int)
    requires Congruent(a, b, m * s)
    ensures Congruent(a, b, m)
  {
    var k :| a == b + k * (m * s);
    assert k * (m * s) == (k * s) * m;
    CongruentBy(a, b, m, k * s);
  }

  lemma ModCongruent(a: int, m: int)
    requires m > 0
    ensures Congruent(a % m, a, m)
  {
    assert a == m * (a / m) + a % m;
    assert m * (a / m) == (a / m) * m;
    CongruentBy(a % m, a, m, -(a / m));
  }

  lemma U32Congruent(x: int)
    ensures Congruent(U32(x), x, TWO_32)
  {
    ModCongruent(x, TWO_32);
  }

  lemma S32Congruent(x: int)
    ensures Congruent(S32(x), x, TWO_32)
  {
    ModCongruent(x + TWO_31, TWO_32);
    CongruentRefl(TWO_31, TWO_32);
    CongruentAdd((x + TWO_31) % TWO_32, x + TWO_31, TWO_31, TWO_31, TWO_32);
  }

  lemma U64Congruent(x: int)
    ensures Congruent(U64(x), x, TWO_64)
  {
    ModCongruent(x, TWO_64);
  }

  lemma S64Congruent(x: int)
    ensures Congruent(S64(x), x, TWO_64)
  {
    ModCongruent(x + TWO_63, TWO_64);
    CongruentRefl(TWO_63, TWO_64);
    CongruentAdd((x + TWO_63) % TWO_64, x + TWO_63, TWO_63, TWO_63, TWO_64);
  }

  lemma NextResidue(k: int, d: int)
    requires d >= 1
    ensures (k + 1) % d == if k % d == d - 1 then 0 else k % d + 1
  {
    var q, r := k / d, k % d;
    if r == d - 1 {
      assert d * (q + 1) == d * q + d;
      EuclidUnique(k + 1, d, q + 1, 0);
    } else {
      EuclidUnique(k + 1, d, q, r + 1);
    }
  }

  lemma ModDivides(k: int, a: int, b: int)
    requires a > 0 && b > 0 && k % b == 0 && b % a == 0
    ensures k % a == 0
  {
    var i, j := k / b, b / a;
    assert k == b * i && b == a * j;
    MulAssoc(a, j, i);
    EuclidUnique(k, a, j * i, 0);
  }

  lemma MulAssoc(a: int, b: int, c: int)
    ensures (a * b) * c == a * (b * c)
  {
  }

  lemma MulMono(a: int, b: int, c: int)
    requires a <= b && 0 <= c
    ensures a * c <= b * c
  {
  }

  lemma MulStep(w: int, d: int)
    ensures (w + 1) * d == w * d + d
  {
  }

  /** Two multiples of d less than d apart are the same multiple. */
  lemma SameMultiple(w: int, q: int, d: int)
    requires d >= 1 && -d < w * d - q * d < d
    ensures w == q
  {
    MulAtLeast(w - q, d);
    MulAtLeast(q - w, d);
    assert (w - q) * d == w * d - q * d;
    assert (q - w) * d == q * d - w * d;
  }

  /** Wrapping to 32 or 64 bits keeps the residue modulo every smaller power of two. */
  lemma WrapCongruent(x: int, bits: nat)
    requires bits <= 32
    ensures Congruent(S32(x), x, Pow2(bits))
    ensures Congruent(S64(x), x, Pow2(bits))
  {
    S32Congruent(x);
    S64Congruent(x);
    Pow2Split(bits, 32 - bits);
    Pow2Of32();
    CongruentFactor(S32(x), x, Pow2(bits), Pow2(32 - bits));
    CongruentFactor(S64(x), x, TWO_32, TWO_32);
    CongruentFactor(S64(x), x, Pow2(bits), Pow2(32 - bits));
  }

}
