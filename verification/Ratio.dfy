/**
 The algebra behind the continued-fraction loop, over plain reals and integers. Keeping it apart
 from the loop's own invariant keeps every proof to a handful of products.
 */
module RatioAlgebra {

  function Abs(r: real): real {
    if r < 0.0 then -r else r
  }

  lemma {:induction false} MulReal(a: int, b: int)
    ensures (a * b) as real == a as real * b as real
    decreases if b < 0 then -b else b
  {
  }

  lemma MulMono(a: real, b: real, c: real)
    requires a <= b && 0.0 <= c
    ensures a * c <= b * c && c * a <= c * b
  {
  }

  lemma MulStrict(a: real, b: real, c: real)
    requires a < b && 0.0 < c
    ensures a * c < b * c && c * a < c * b
  {
  }

  lemma IntMulMono(a: int, b: int, c: int)
    requires a <= b && 0 <= c
    ensures a * c <= b * c
  {
  }

  lemma AbsMul(c: real, d: real)
    ensures Abs(c * d) == Abs(c) * Abs(d)
  {
  }

  lemma TailAtLeast(q: real, q0: real, x: real)
    requires 1.0 <= q && 0.0 <= q0 && 0.0 <= x
    ensures x <= q * x + q0
  {
    assert (q - 1.0) * x >= 0.0;
  }

  lemma ShiftMobius(p: real, p0: real, q: real, q0: real, x: real, e: real, y: real, v: real)
    requires (x - e) * y == 1.0
    requires v * (q * x + q0) == p * x + p0
    ensures v * ((q * e + q0) * y + q) == (p * e + p0) * y + p
  {
  }

  lemma Reciprocal(f: real) returns (y: real)
    requires 0.0 < f < 1.0
    ensures y == 1.0 / f && f * y == 1.0 && 1.0 < y
  {
    y := 1.0 / f;
    if y <= 1.0 {
      MulMono(y, 1.0, f);
    }
  }

  /** Products as predicates, so that equal arguments give equal products by congruence. */
  predicate IsProduct(g: real, c: real, d: real) {
    g == c * d
  }

  predicate IsUnitProduct(d: real, t: real) {
    IsProduct(1.0, d, t) || IsProduct(-1.0, d, t)
  }

  /** a < 1/limit */
  predicate Within(a: real, limit: int) {
    a * limit as real < 1.0
  }

  lemma ProductMono(a: real, b: real, c: real, u: real)
    requires 0.0 < a && b < c && IsProduct(u, a, c)
    ensures a * b < u
  {
    assert a * (c - b) > 0.0;
  }

  lemma ScaledMono(a: real, b: real, c: real, ac: real, bc: real)
    requires a <= b && 0.0 <= c && IsProduct(ac, a, c) && IsProduct(bc, b, c)
    ensures ac <= bc
  {
    MulMono(a, b, c);
  }

  lemma AbsOfUnit(d: real, t: real)
    requires IsUnitProduct(d, t) && 0.0 < t
    ensures 0.0 < Abs(d) && IsProduct(1.0, Abs(d), t)
  {
  }

  lemma WithinOfUnit(a: real, t: real, limit: int)
    requires 0.0 < a && IsProduct(1.0, a, t) && limit as real < t
    ensures Within(a, limit)
  {
    ProductMono(a, limit as real, t, 1.0);
  }

  lemma UnitOverTail(d: real, t: real, limit: int)
    requires IsUnitProduct(d, t)
    requires 0 < limit && limit as real < t
    ensures Within(Abs(d), limit)
  {
    AbsOfUnit(d, t);
    WithinOfUnit(Abs(d), t, limit);
  }

  lemma ScaledUp(g: real, c: real, d: real)
    requires IsProduct(g, c, d) && Abs(c) >= 1.0
    ensures Abs(d) <= Abs(g)
  {
    AbsMul(c, d);
    MulMono(1.0, Abs(c), Abs(d));
  }

  lemma Decompose(p: int, p0: int, q: int, q0: int, a: int, b: int, s: int) returns (u: int, w: int)
    requires s == p * q0 - p0 * q && (s == 1 || s == -1)
    ensures a == u * p + w * p0
    ensures b == u * q + w * q0
  {
    u, w := s * (a * q0 - b * p0), s * (p * b - q * a);
    assert (a * q0 - b * p0) * p + (p * b - q * a) * p0 == a * (p * q0 - p0 * q);
    assert (a * q0 - b * p0) * q + (p * b - q * a) * q0 == b * (p * q0 - p0 * q);
  }

  /** The integer heart of the best-approximation law. */
  lemma FarFromLine(q: int, q0: int, x: real, b: int, u: int, w: int)
    requires 0 < q && 0 <= q0 && 1.0 < x
    requires b == u * q + w * q0
    requires 1 <= b < q * x.Floor + q0
    ensures Abs(u as real - w as real * x) >= 1.0
  {
    var e := x.Floor;
    if w == 0 {
      assert u != 0;
      assert w as real * x == 0.0;
    } else if w > 0 {
      BelowLine(q, q0, e, b, u, w);
      FloorMultiple(w, x);
    } else {
      AboveLine(q, q0, e, b, u, w);
      FloorMultiple(-w, x);
      assert (-w) as real * x == -(w as real * x);
      assert (-w) * e == -(w * e);
    }
  }

  lemma FloorMultiple(w: int, x: real)
    requires 0 <= w
    ensures (w * x.Floor) as real <= w as real * x
  {
  }

  lemma BelowLine(q: int, q0: int, e: int, b: int, u: int, w: int)
    requires 0 < q && 0 <= q0 && 1 <= e && 0 < w
    requires b == u * q + w * q0 && b < q * e + q0
    ensures u + 1 <= w * e
  {
    if u >= w * e {
      IntMulMono(w * e, u, q);
      Regroup(q, q0, e, w);
      IntMulMono(1, w, q * e + q0);
    }
  }

  lemma AboveLine(q: int, q0: int, e: int, b: int, u: int, w: int)
    requires 0 < q && 0 <= q0 && 1 <= e && w < 0
    requires b == u * q + w * q0 && 1 <= b
    ensures w * e + 1 <= u
  {
  }

  lemma Regroup(q: int, q0: int, e: int, w: int)
    ensures (w * e) * q + w * q0 == w * (q * e + q0)
  {
  }

  /** A nonzero integer k with k == b*d and d*t a unit bounds t by b. */
  lemma TailAtMost(k: int, b: real, d: real, t: real)
    requires IsProduct(k as real, b, d) && IsUnitProduct(d, t)
    requires 0.0 < b && 0.0 < t
    ensures t <= b
  {
    AbsOfUnit(d, t);
    var a := Abs(d);
    AbsMul(b, d);
    assert k != 0;
    assert IsProduct(Abs(k as real), b, a);
    OverUnit(Abs(k as real), b, a, t);
  }

  lemma OverUnit(k: real, b: real, a: real, t: real)
    requires IsProduct(k, b, a) && IsProduct(1.0, a, t) && 1.0 <= k && 0.0 < a
    ensures t <= b
  {
  }

  lemma SmallInteger(k: int, b: int, d: real, limit: int)
    requires IsProduct(k as real, b as real, d) && 1 <= b <= limit && Within(Abs(d), limit)
    ensures k == 0
  {
    var a := Abs(d);
    AbsMul(b as real, d);
    SmallProduct(Abs(k as real), b, a, limit);
  }

  lemma SmallProduct(k: real, b: int, a: real, limit: int)
    requires IsProduct(k, b as real, a) && 0.0 <= a && 1 <= b <= limit && Within(a, limit)
    ensures k < 1.0
  {
    SmallRealProduct(k, b as real, a, limit as real, 1.0);
  }

  lemma SmallRealProduct(k: real, b: real, a: real, l: real, u: real)
    requires k == b * a && 0.0 <= a && b <= l && a * l < u
    ensures k < u
  {
    MulMono(b, l, a);
  }

  lemma {:induction false} UnitNotMultiple(k: int, d: int)
    requires d > 1
    ensures k * d != 1 && k * d != -1
  {
  }
}

/**
 The ratio modParam: the continued-fraction loop of lcec_cia402_decode_ratio_modparam.

 The C `double` is read as an exact real. The C `int` is not: every product that would leave the
 range of `int` ends the run in `IntOverflow`, so nothing is promised where C promises nothing.
 */
module RatioModparam {
  import opened RatioAlgebra

  const INT_MAX := 0x7fff_ffff

  datatype Outcome = Ratio(numerator: int, denominator: int) | IntOverflow

  predicate Divides(d: int, n: int)
    requires d > 0
  {
    n % d == 0
  }

  ghost predicate LowestTerms(p: int, q: int) {
    forall d: int {:trigger Divides(d, p)} :: d > 1 ==> !(Divides(d, p) && Divides(d, q))
  }

  /** b*v - a */
  function Gap(v: real, a: int, b: int): real {
    b as real * v - a as real
  }

  /** How far the fraction a/b is from v, scaled by b. */
  function Defect(v: real, a: int, b: int): real {
    Abs(Gap(v, a, b))
  }

  /** a/b == v, without the division. */
  predicate IsFraction(v: real, a: int, b: int) {
    b as real * v == a as real
  }

  /** The 2x2 matrix of the loop: the last two convergents p/q and p0/q0. */
  datatype Matrix = Matrix(p: int, p0: int, q: int, q0: int) {
    function Det(): int {
      p * q0 - p0 * q
    }

    function Tail(x: real): real {
      q as real * x + q0 as real
    }
  }

  ghost predicate Shape(m: Matrix, x: real) {
    && 0 <= m.p && 0 <= m.p0 && 0 <= m.q && 0 <= m.q0 && 0.0 <= x
    && (m.q == 0 ==> m == Matrix(1, 0, 0, 1))
    && (m.q != 0 ==> m.q0 <= m.q && 1.0 < x)
  }

  ghost predicate Unit(m: Matrix) {
    m.Det() == 1 || m.Det() == -1
  }

  /** v == (p*x + p0) / (q*x + q0) */
  ghost predicate Mobius(m: Matrix, x: real, v: real) {
    v * m.Tail(x) == m.p as real * x + m.p0 as real
  }

  /** What the loop keeps. */
  ghost predicate Inv(m: Matrix, x: real, v: real) {
    Shape(m, x) && Unit(m) && Mobius(m, x, v)
  }

  /** One entry of the matrix product: row (c, c0) times the quotient e. */
  function Advance(c: int, c0: int, e: int): int {
    c * e + c0
  }

  function Next(m: Matrix, e: int): Matrix {
    Matrix(Advance(m.p, m.p0, e), m.p, Advance(m.q, m.q0, e), m.q)
  }

  // --- one turn of the loop ---

  lemma NextUnit(m: Matrix, e: int)
    requires Unit(m)
    ensures Unit(Next(m, e))
  {
  }

  lemma NextShape(m: Matrix, x: real)
    requires Shape(m, x)
    ensures var n := Next(m, x.Floor);
            0 <= n.p && 0 < n.q && 0 <= n.q0 <= n.q && m.q + m.q0 <= n.q + (if m.q == 0 then 1 else 0)
  {
    var e := x.Floor;
    if m.q == 0 {
      assert m.q * e == 0;
    } else {
      IntMulMono(1, e, m.q);
      IntMulMono(0, e, m.p);
    }
  }

  lemma NextMobius(m: Matrix, x: real, v: real) returns (y: real)
    requires Mobius(m, x, v) && x != x.Floor as real
    ensures y == 1.0 / (x - x.Floor as real) && 1.0 < y
    ensures Mobius(Next(m, x.Floor), y, v)
  {
    var e := x.Floor;
    y := Reciprocal(x - e as real);
    MulReal(m.p, e);
    MulReal(m.q, e);
    ShiftMobius(m.p as real, m.p0 as real, m.q as real, m.q0 as real, x, e as real, y, v);
  }

  function Inverse(f: real): real
    requires f != 0.0
  {
    1.0 / f
  }

  lemma NextInv(m: Matrix, x: real, e: int, v: real)
    requires Inv(m, x, v) && e == x.Floor && x != e as real
    ensures Inv(Next(m, e), Inverse(x - e as real), v)
  {
    var y := NextMobius(m, x, v);
    NextShape(m, x);
    NextUnit(m, e);
  }

  // --- what holds at the exits of the loop ---

  /** A common factor of numerator and denominator divides the determinant. */
  lemma CommonFactor(m: Matrix, d: int) returns (k: int)
    requires d > 1 && Divides(d, m.p) && Divides(d, m.q)
    ensures m.Det() == k * d
  {
    var i, j := m.p / d, m.q / d;
    assert m.p == i * d && m.q == j * d;
    k := i * m.q0 - m.p0 * j;
    assert (i * d) * m.q0 == i * m.q0 * d;
    assert m.p0 * (j * d) == m.p0 * j * d;
  }

  lemma UnitIsLowest(m: Matrix)
    requires Unit(m)
    ensures LowestTerms(m.p, m.q)
  {
    forall d: int {:trigger Divides(d, m.p)} | d > 1
      ensures !(Divides(d, m.p) && Divides(d, m.q))
    {
      if Divides(d, m.p) && Divides(d, m.q) {
        var k := CommonFactor(m, d);
        UnitNotMultiple(k, d);
      }
    }
  }

  lemma GapTimesTail(m: Matrix, x: real, v: real)
    requires Unit(m) && Mobius(m, x, v)
    ensures IsUnitProduct(Gap(v, m.p, m.q), m.Tail(x))
  {
  }

  /** With v == a/b, the product b * (q*v - p) is the integer a*q - b*p. */
  lemma GapIsInteger(v: real, a: int, b: int, p: int, q: int)
    requires IsFraction(v, a, b)
    ensures IsProduct((a * q - b * p) as real, b as real, Gap(v, p, q))
  {
  }

  lemma TailPositive(m: Matrix, x: real)
    requires Shape(m, x)
    ensures 0.0 < m.Tail(x)
    ensures m.q > 0 ==> x <= m.Tail(x)
  {
    if m.q > 0 {
      TailAtLeast(m.q as real, m.q0 as real, x);
    } else {
      assert m.q as real * x == 0.0;
    }
  }

  /** The integer next denominator never exceeds the real tail. */
  lemma NextBelowTail(m: Matrix, x: real)
    requires 0 <= m.q
    ensures (m.q * x.Floor + m.q0) as real <= m.Tail(x)
  {
    FloorMultiple(m.q, x);
  }

  /** Dirichlet's bound, whenever the tail exceeds the limit. */
  lemma BoundAtExit(m: Matrix, x: real, v: real, limit: int)
    requires Unit(m) && Mobius(m, x, v) && 1 <= limit
    requires limit as real < m.Tail(x)
    ensures Within(Defect(v, m.p, m.q), limit)
  {
    GapTimesTail(m, x, v);
    UnitOverTail(Gap(v, m.p, m.q), m.Tail(x), limit);
  }

  /** The gap of any a/b is a multiple c of the gap of the convergent. */
  lemma GapFactor(m: Matrix, x: real, v: real, u: int, w: int)
    requires Mobius(m, x, v)
    ensures IsProduct(Gap(v, u * m.p + w * m.p0, u * m.q + w * m.q0), u as real - w as real * x, Gap(v, m.p, m.q))
  {
  }

  /** Every fraction with a denominator below the next one has at least the same defect. */
  lemma BestAtExit(m: Matrix, x: real, v: real, a: int, b: int)
    requires Inv(m, x, v) && m.q > 0
    requires 1 <= b < m.q * x.Floor + m.q0
    ensures Defect(v, m.p, m.q) <= Defect(v, a, b)
  {
    var u, w := Decompose(m.p, m.p0, m.q, m.q0, a, b, m.Det());
    FarFromLine(m.q, m.q0, x, b, u, w);
    GapFactor(m, x, v, u, w);
    ScaledUp(Gap(v, a, b), u as real - w as real * x, Gap(v, m.p, m.q));
  }

  lemma BestOfAll(m: Matrix, x: real, v: real, limit: int)
    requires Inv(m, x, v) && m.q > 0
    requires limit < m.q * x.Floor + m.q0
    ensures forall a: int, b: int {:trigger Defect(v, a, b)} ::
      1 <= b <= limit ==> Defect(v, m.p, m.q) <= Defect(v, a, b)
  {
    forall a: int, b: int {:trigger Defect(v, a, b)} | 1 <= b <= limit
      ensures Defect(v, m.p, m.q) <= Defect(v, a, b)
    {
      BestAtExit(m, x, v, a, b);
    }
  }

  /** When the loop stops because x is an integer, the convergent is the value itself. */
  lemma ExactExit(m: Matrix, x: real, v: real)
    requires Mobius(m, x, v) && x == x.Floor as real
    ensures var n := Next(m, x.Floor); Defect(v, n.p, n.q) == 0.0
  {
  }

  /** For v == a/b, neither the next denominator nor the next numerator exceeds b and a. */
  lemma FractionBoundsNext(m: Matrix, x: real, v: real, a: int, b: int)
    requires Inv(m, x, v)
    requires IsFraction(v, a, b) && 1 <= b && 0 <= a
    ensures m.q * x.Floor + m.q0 <= b
    ensures m.p * x.Floor + m.p0 <= a
  {
    TailAtMostDenominator(m, x, v, a, b);
    NextBelowTail(m, x);
    NumeratorAtMost(m, x, v, a, b);
  }

  lemma NumeratorAtMost(m: Matrix, x: real, v: real, a: int, b: int)
    requires 0 <= m.p && Mobius(m, x, v) && m.Tail(x) <= b as real
    requires IsFraction(v, a, b) && 1 <= b && 0 <= a
    ensures m.p * x.Floor + m.p0 <= a
  {
  }

  lemma TailAtMostDenominator(m: Matrix, x: real, v: real, a: int, b: int)
    requires Inv(m, x, v)
    requires IsFraction(v, a, b) && 1 <= b
    ensures m.Tail(x) <= b as real
  {
    hide Mobius, IsFraction, IsProduct, IsUnitProduct, Gap, Matrix.Tail;
    GapTimesTail(m, x, v);
    TailPositive(m, x);
    GapIsInteger(v, a, b, m.p, m.q);
    TailAtMost(a * m.q - b * m.p, b as real, Gap(v, m.p, m.q), m.Tail(x));
  }

  /** No fraction of two non-negative ints equals v. */
  ghost predicate NotAnIntRatio(v: real) {
    forall a: int, b: int {:trigger IsFraction(v, a, b)} ::
      !(IsFraction(v, a, b) && 0 <= a <= INT_MAX && 1 <= b <= INT_MAX)
  }

  lemma OverflowMeansNotAnIntRatio(m: Matrix, x: real, e: int, v: real)
    requires Inv(m, x, v) && e == x.Floor
    requires Next(m, e).p > INT_MAX || Next(m, e).q > INT_MAX
    ensures NotAnIntRatio(v)
  {
    forall a: int, b: int {:trigger IsFraction(v, a, b)}
      ensures !(IsFraction(v, a, b) && 0 <= a <= INT_MAX && 1 <= b <= INT_MAX)
    {
      if IsFraction(v, a, b) && 0 <= a <= INT_MAX && 1 <= b <= INT_MAX {
        FractionBoundsNext(m, x, v, a, b);
      }
    }
  }

  /** A fraction within 1/limit of a target whose denominator is at most limit is that target. */
  lemma BoundRecoversFraction(v: real, p: int, q: int, limit: int, a: int, b: int)
    requires IsFraction(v, a, b) && 1 <= b <= limit
    requires Within(Defect(v, p, q), limit)
    ensures p * b == a * q
  {
    GapIsInteger(v, a, b, p, q);
    SmallInteger(a * q - b * p, b, Gap(v, p, q), limit);
  }

  lemma RecoverAll(v: real, p: int, q: int, limit: int)
    requires Within(Defect(v, p, q), limit)
    ensures forall a: int, b: int {:trigger IsFraction(v, a, b)} ::
      IsFraction(v, a, b) && 1 <= b <= limit ==> p * b == a * q
  {
    forall a: int, b: int {:trigger IsFraction(v, a, b)} | IsFraction(v, a, b) && 1 <= b <= limit
      ensures p * b == a * q
    {
      BoundRecoversFraction(v, p, q, limit, a, b);
    }
  }

  // --- where the loop stops ---

  /** The exits of the loop, if ints were unbounded: x is an integer, 1/x is too large, or the next denominator is. */
  datatype Exit = Exact(m: Matrix) | Steep(m: Matrix, x: real) | Limit(m: Matrix, x: real)

  lemma NextGrows(m: Matrix, x: real)
    requires Shape(m, x)
    ensures var n := Next(m, x.Floor);
            && 0 <= n.p && 1 <= n.q && n.q0 == m.q
            && (m.q > 0 ==> n.q + n.q0 > m.q + m.q0 && n.p >= m.p)
            && (m.q == 0 ==> n.q == 1)
  {
    NextShape(m, x);
    if m.q > 0 {
      IntMulMono(1, x.Floor, m.p);
    } else {
      assert m.q * x.Floor == 0;
    }
  }

  lemma ShapeOfNext(m: Matrix, x: real)
    requires Shape(m, x) && x != x.Floor as real
    ensures Shape(Next(m, x.Floor), Inverse(x - x.Floor as real))
  {
    var y := Reciprocal(x - x.Floor as real);
    NextShape(m, x);
  }

  /** The exit reached from a state of the loop; a property of the value and the limit alone. */
  ghost function ExitFrom(m: Matrix, x: real, limit: int): Exit
    requires Shape(m, x) && 1 <= limit && m.q <= limit
    decreases if m.q == 0 then 1 else 0, 2 * limit - m.q - m.q0
  {
    var n := Next(m, x.Floor);
    NextGrows(m, x);
    if n.q > limit then Limit(m, x)
    else if x == x.Floor as real then Exact(n)
    else
      ShapeOfNext(m, x);
      var y := Inverse(x - x.Floor as real);
      if y > INT_MAX as real then Steep(n, y) else ExitFrom(n, y, limit)
  }

  ghost function ExitOf(v: real, limit: int): Exit
    requires 0.0 <= v && 1 <= limit
  {
    ExitFrom(Matrix(1, 0, 0, 1), v, limit)
  }

  /** The exit keeps the invariant, and numerators only grow towards it. */
  lemma {:induction false} ExitKeeps(m: Matrix, x: real, v: real, limit: int)
    requires Inv(m, x, v) && 1 <= limit && m.q <= limit
    ensures var s := ExitFrom(m, x, limit);
            && (m.q > 0 ==> s.m.p >= m.p)
            && 1 <= s.m.q <= limit && 0 <= s.m.p
            && (!s.Exact? ==> Inv(s.m, s.x, v))
            && (s.Exact? ==> Defect(v, s.m.p, s.m.q) == 0.0 && Unit(s.m))
            && (s.Limit? ==> limit < Next(s.m, s.x.Floor).q)
            && (s.Steep? ==> INT_MAX as real < s.x)
    decreases if m.q == 0 then 1 else 0, 2 * limit - m.q - m.q0
  {
    hide Mobius, Unit, Advance, Inverse, Defect, Next;
    var n := Next(m, x.Floor);
    NextGrows(m, x);
    if n.q <= limit {
      if x == x.Floor as real {
        ExactExit(m, x, v);
        NextUnit(m, x.Floor);
      } else {
        ShapeOfNext(m, x);
        NextInv(m, x, x.Floor, v);
        var y := Inverse(x - x.Floor as real);
        if y <= INT_MAX as real {
          ExitKeeps(n, y, v, limit);
        }
      }
    }
  }

  // --- when the ratio is the nearest fraction ---

  /** The distance of a/b from v. */
  function Distance(v: real, a: int, b: int): real
    requires b > 0
  {
    Abs(v - a as real / b as real)
  }

  /** No fraction with an allowed denominator is nearer to v. */
  ghost predicate Nearest(v: real, limit: int, p: int, q: int)
    requires q > 0
  {
    forall a: int, b: int {:trigger Distance(v, a, b)} :: 1 <= b <= limit ==> Distance(v, p, q) <= Distance(v, a, b)
  }

  /** The largest k for which k*q + q0 is still an allowed denominator. */
  function Steps(m: Matrix, limit: int): int
    requires m.q > 0
  {
    (limit - m.q0) / m.q
  }

  /** The condition on the exit: x is past the middle between p/q and the last allowed fraction before the next one. */
  predicate PastMiddle(m: Matrix, x: real, limit: int)
    requires m.q > 0
  {
    (2 * (Steps(m, limit) * m.q) + m.q0) as real <= Scaled(m, x)
  }

  lemma DistanceTimes(v: real, a: int, b: int)
    requires 0 < b
    ensures IsProduct(Defect(v, a, b), Distance(v, a, b), b as real)
  {
    var f := a as real / b as real;
    assert f * b as real == a as real;
    assert Gap(v, a, b) == (v - f) * b as real;
    AbsMul(v - f, b as real);
  }

  /** Distances compare as defects do, each against the other's denominator. */
  lemma Order(c: real, d: real, cq: real, db: real, q: real, b: real)
    requires 0.0 < q && 0.0 < b && IsProduct(cq, c, q) && IsProduct(db, d, b)
    ensures c <= d <==> cq * b <= db * q
  {
    var qb := q * b;
    assert cq * b == c * qb && db * q == d * qb;
    MulStrict(0.0, q, b);
    if c <= d {
      MulMono(c, d, qb);
    } else {
      MulStrict(d, c, qb);
    }
  }

  lemma CompareScaled(g: real, cg: real, c: real, b: real, q: real, z: real)
    requires 0.0 < g && IsProduct(cg, c, g) && IsProduct(z, c, q)
    ensures g * b <= cg * q <==> b <= z
  {
    assert cg * q == g * z;
    if b <= z {
      MulMono(b, z, g);
    } else {
      MulStrict(z, b, g);
    }
  }

  /** The coordinates of a fraction in the two last convergents. */
  predicate Coordinates(m: Matrix, u: int, w: int, a: int, b: int) {
    a == u * m.p + w * m.p0 && b == u * m.q + w * m.q0
  }

  lemma DefectFactor(m: Matrix, x: real, v: real, u: int, w: int, a: int, b: int)
    requires Inv(m, x, v) && Coordinates(m, u, w, a, b)
    ensures IsProduct(Defect(v, a, b), Factor(u, w, x), Defect(v, m.p, m.q))
  {
    hide Inv, Gap, Mobius, IsProduct;
    InvMobius(m, x, v);
    GapFactor(m, x, v, u, w);
    AbsProduct(Gap(v, a, b), u as real - w as real * x, Gap(v, m.p, m.q));
  }

  lemma InvMobius(m: Matrix, x: real, v: real)
    requires Inv(m, x, v)
    ensures Mobius(m, x, v)
  {
  }

  lemma AbsProduct(g: real, c: real, d: real)
    requires IsProduct(g, c, d)
    ensures IsProduct(Abs(g), Abs(c), Abs(d))
  {
    AbsMul(c, d);
  }

  function Factor(u: int, w: int, x: real): real {
    Abs(u as real - w as real * x)
  }

  function Scaled(m: Matrix, x: real): real {
    m.q as real * x
  }

  /** How far u*q is from w*(q*x). */
  function Offset(s: int, w: int, t: real): real {
    Abs(s as real - w as real * t)
  }

  lemma OffsetFactor(m: Matrix, x: real, u: int, w: int, s: int)
    requires 0 < m.q && s == u * m.q
    ensures IsProduct(Offset(s, w, Scaled(m, x)), Factor(u, w, x), m.q as real)
  {
    var c, q := u as real - w as real * x, m.q as real;
    MulReal(u, m.q);
    assert c * q == s as real - w as real * (q * x);
    AbsMul(c, q);
  }

  /** p/q against any other fraction, in the coordinates of the two last convergents. */
  lemma CompareWith(m: Matrix, x: real, v: real, u: int, w: int, s: int, a: int, b: int)
    requires Inv(m, x, v) && m.q > 0
    requires Coordinates(m, u, w, a, b) && 0 < b && s == u * m.q
    ensures Distance(v, m.p, m.q) <= Distance(v, a, b) <==> b as real <= Offset(s, w, Scaled(m, x))
  {
    hide *;
    DistanceTimes(v, m.p, m.q);
    DistanceTimes(v, a, b);
    DefectFactor(m, x, v, u, w, a, b);
    OffsetFactor(m, x, u, w, s);
    DefectPositive(m, x, v);
    CompareChain(Distance(v, m.p, m.q), Distance(v, a, b), Defect(v, m.p, m.q), Defect(v, a, b),
      Factor(u, w, x), m.q as real, b as real, Offset(s, w, Scaled(m, x)));
  }

  lemma CompareChain(c: real, d: real, cq: real, db: real, f: real, q: real, b: real, z: real)
    requires 0.0 < q && 0.0 < b && 0.0 < cq && IsProduct(cq, c, q) && IsProduct(db, d, b)
    requires IsProduct(db, f, cq) && IsProduct(z, f, q)
    ensures c <= d <==> b <= z
  {
    hide IsProduct;
    Order(c, d, cq, db, q, b);
    CompareScaled(cq, db, f, b, q, z);
  }

  lemma DefectPositive(m: Matrix, x: real, v: real)
    requires Inv(m, x, v)
    ensures 0.0 < Defect(v, m.p, m.q)
  {
    GapTimesTail(m, x, v);
    TailPositive(m, x);
    AbsOfUnit(Gap(v, m.p, m.q), m.Tail(x));
  }

  /** Beyond the middle nothing allowed is nearer; kq is k*q, s is u*q, r is w*q0 and t is q*x. */
  lemma NothingNearer(q: int, q0: int, t: real, limit: int, k: int, kq: int, u: int, w: int, s: int, r: int)
    requires 0 < q && 0 <= q0 <= q <= limit && q as real <= t && s == u * q && kq == k * q && r == w * q0
    requires kq <= limit - q0 < kq + q && 0 <= k && (2 * kq + q0) as real <= t
    requires 1 <= s + r <= limit
    ensures (s + r) as real <= Offset(s, w, t)
  {
    SideSteps(q0, t, w, r);
    if w > 0 {
      AtMostSteps(q, k, kq, u, s, limit - q0);
    }
    Settle(q0, t, kq, w, s, r, w as real * t);
  }

  lemma Settle(q0: int, t: real, kq: int, w: int, s: int, r: int, wt: real)
    requires 1 <= s + r && (2 * kq + q0) as real <= t
    requires w == 0 ==> r == 0 && wt == 0.0
    requires w < 0 ==> r <= 0 && wt <= 0.0
    requires w > 0 ==> s <= kq && wt - r as real >= t - q0 as real
    ensures (s + r) as real <= Abs(s as real - wt)
  {
  }

  lemma SideSteps(q0: int, t: real, w: int, r: int)
    requires 0 <= q0 && q0 as real <= t && r == w * q0
    ensures w == 0 ==> r == 0 && w as real * t == 0.0
    ensures w < 0 ==> r <= 0 && w as real * t <= 0.0
    ensures w > 0 ==> q0 <= r && w as real * t - r as real >= t - q0 as real
  {
    if w < 0 {
      IntMulMono(w, 0, q0);
      MulMono(w as real, 0.0, t);
    } else if w > 0 {
      IntMulMono(1, w, q0);
      MulMono(1.0, w as real, t - q0 as real);
      MulReal(w, q0);
    }
  }

  lemma AtMostSteps(q: int, k: int, kq: int, u: int, s: int, room: int)
    requires 0 < q && s == u * q && kq == k * q && s <= room < kq + q
    ensures s <= kq
  {
    if u <= k {
      IntMulMono(u, k, q);
    } else {
      IntMulMono(k + 1, u, q);
    }
  }

  lemma StepsBounds(m: Matrix, limit: int)
    requires 0 < m.q && 0 <= m.q0 <= m.q <= limit
    ensures var k := Steps(m, limit); 0 <= k && k * m.q <= limit - m.q0 < k * m.q + m.q
  {
    var k := Steps(m, limit);
    assert limit - m.q0 == k * m.q + (limit - m.q0) % m.q;
  }

  lemma NotNearerThan(m: Matrix, x: real, v: real, limit: int, k: int, kq: int, a: int, b: int)
    requires Inv(m, x, v) && 1 <= m.q <= limit && 0 <= m.q0 <= m.q && m.q as real <= Scaled(m, x)
    requires 0 <= k && kq == k * m.q && kq <= limit - m.q0 < kq + m.q && (2 * kq + m.q0) as real <= Scaled(m, x)
    requires 1 <= b <= limit
    ensures Distance(v, m.p, m.q) <= Distance(v, a, b)
  {
    hide Inv, Distance, Offset, Scaled;
    InvUnit(m, x, v);
    var u, w := Decompose(m.p, m.p0, m.q, m.q0, a, b, m.Det());
    var s, r := u * m.q, w * m.q0;
    CompareWith(m, x, v, u, w, s, a, b);
    NothingNearer(m.q, m.q0, Scaled(m, x), limit, k, kq, u, w, s, r);
  }

  lemma InvUnit(m: Matrix, x: real, v: real)
    requires Inv(m, x, v)
    ensures m.Det() == 1 || m.Det() == -1
  {
  }

  /** What the shape of the state gives at an exit. */
  lemma ScaledBounds(m: Matrix, x: real, v: real)
    requires Inv(m, x, v) && 1 <= m.q
    ensures 0 <= m.q0 <= m.q && m.q as real < Scaled(m, x)
  {
    hide Mobius, Unit;
    AboveOne(m.q as real, x);
  }

  lemma AboveOne(q: real, x: real)
    requires 0.0 < q && 1.0 < x
    ensures q < q * x
  {
    assert (x - 1.0) * q > 0.0;
  }

  lemma NearestPastMiddle(m: Matrix, x: real, v: real, limit: int)
    requires Inv(m, x, v) && 1 <= m.q <= limit && PastMiddle(m, x, limit)
    ensures Nearest(v, limit, m.p, m.q)
  {
    hide Inv, Steps, Distance, Scaled;
    ScaledBounds(m, x, v);
    StepsBounds(m, limit);
    var k := Steps(m, limit);
    var kq := k * m.q;
    forall a: int, b: int {:trigger Distance(v, a, b)} | 1 <= b <= limit
      ensures Distance(v, m.p, m.q) <= Distance(v, a, b)
    {
      NotNearerThan(m, x, v, limit, k, kq, a, b);
    }
  }

  /** Short of the middle the last allowed fraction on the way to the next convergent is strictly nearer. */
  lemma SemiconvergentNearer(m: Matrix, x: real, v: real, limit: int)
    requires Inv(m, x, v) && 1 <= m.q <= limit && limit as real <= m.Tail(x) && !PastMiddle(m, x, limit)
    ensures var k := Steps(m, limit);
            && 1 <= k * m.q + m.q0 <= limit
            && Distance(v, k * m.p + m.p0, k * m.q + m.q0) < Distance(v, m.p, m.q)
  {
    hide Inv, Steps, Distance;
    ScaledBounds(m, x, v);
    StepsBounds(m, limit);
    var k := Steps(m, limit);
    CompareWith(m, x, v, k, 1, k * m.q, k * m.p + m.p0, k * m.q + m.q0);
  }

  /** The exact condition, for every value and limit: a property of the state the loop stops in. */
  ghost predicate StopsNearest(v: real, limit: int)
    requires 0.0 <= v && 1 <= limit
  {
    var s := ExitOf(v, limit);
    s.Exact? || (s.m.q > 0 && PastMiddle(s.m, s.x, limit))
  }

  lemma NearestIff(v: real, limit: int)
    requires 0.0 <= v && 1 <= limit <= INT_MAX
    ensures var s := ExitOf(v, limit);
            1 <= s.m.q <= limit && (Nearest(v, limit, s.m.p, s.m.q) <==> StopsNearest(v, limit))
  {
    hide Mobius, Unit, PastMiddle, Nearest, ExitFrom;
    StartInv(v);
    ExitKeeps(Matrix(1, 0, 0, 1), v, v, limit);
    var s := ExitOf(v, limit);
    if s.Exact? {
      ExactIsNearest(v, limit, s.m.p, s.m.q);
    } else {
      TailPositive(s.m, s.x);
      NextBelowTail(s.m, s.x);
      if PastMiddle(s.m, s.x, limit) {
        NearestPastMiddle(s.m, s.x, v, limit);
      } else {
        SemiconvergentNearer(s.m, s.x, v, limit);
        NotNearest(v, limit, s.m.p, s.m.q,
          Steps(s.m, limit) * s.m.p + s.m.p0, Steps(s.m, limit) * s.m.q + s.m.q0);
      }
    }
  }

  lemma ExactIsNearest(v: real, limit: int, p: int, q: int)
    requires 1 <= q && Defect(v, p, q) == 0.0
    ensures Nearest(v, limit, p, q)
  {
    DistanceTimes(v, p, q);
    assert Distance(v, p, q) == 0.0;
  }

  lemma NotNearest(v: real, limit: int, p: int, q: int, a: int, b: int)
    requires 1 <= q && 1 <= b <= limit && Distance(v, a, b) < Distance(v, p, q)
    ensures !Nearest(v, limit, p, q)
  {
  }

  // --- when the ints of the source overflow ---

  /**
   An int of the loop overflows exactly when the last numerator does or, at the limit exit, the next
   denominator does that the loop test computes.
   */
  ghost predicate Overflows(v: real, limit: int)
    requires 0.0 <= v && 1 <= limit
  {
    var s := ExitOf(v, limit);
    s.m.p > INT_MAX || (s.Limit? && Next(s.m, s.x.Floor).q > INT_MAX)
  }

  lemma ExitUnfold(m: Matrix, x: real, limit: int)
    requires Shape(m, x) && 1 <= limit && m.q <= limit
    ensures var n, f := Next(m, x.Floor), x - x.Floor as real;
            && (n.q > limit ==> ExitFrom(m, x, limit) == Limit(m, x))
            && (n.q <= limit && f == 0.0 ==> ExitFrom(m, x, limit) == Exact(n))
            && (n.q <= limit && f != 0.0 ==>
              && Shape(n, Inverse(f))
              && ExitFrom(m, x, limit) ==
                (if Inverse(f) > INT_MAX as real then Steep(n, Inverse(f)) else ExitFrom(n, Inverse(f), limit)))
  {
    NextGrows(m, x);
    if x != x.Floor as real {
      ShapeOfNext(m, x);
    }
  }

  /** Numerators grow, so one that overflows on the way overflows at the exit. */
  lemma NumeratorTooLarge(m: Matrix, x: real, v: real, limit: int)
    requires Inv(m, x, v) && 1 <= limit && m.q <= limit
    requires var n := Next(m, x.Floor); n.q <= limit && n.p > INT_MAX
    ensures ExitFrom(m, x, limit).m.p > INT_MAX
  {
    hide Mobius, Unit, Advance, Inverse, ExitFrom, Next;
    NextGrows(m, x);
    ExitUnfold(m, x, limit);
    var n, e := Next(m, x.Floor), x.Floor as real;
    if x != e && Inverse(x - e) <= INT_MAX as real {
      NextInv(m, x, x.Floor, v);
      ExitKeeps(n, Inverse(x - e), v, limit);
    }
  }

  /** An overflow means a large numerator, or an allowed fraction less than 1/(b * INT_MAX) away from v but not v. */
  lemma OverflowIsNear(v: real, limit: int)
    requires 0.0 <= v && 1 <= limit <= INT_MAX && Overflows(v, limit)
    ensures var m := ExitOf(v, limit).m;
      m.p > INT_MAX || (1 <= m.q <= limit && 0.0 < Defect(v, m.p, m.q) && Within(Defect(v, m.p, m.q), INT_MAX))
  {
    hide Mobius, Unit, ExitFrom, Defect, Matrix.Tail;
    StartInv(v);
    ExitKeeps(Matrix(1, 0, 0, 1), v, v, limit);
    var s := ExitOf(v, limit);
    if s.m.p <= INT_MAX {
      DefectPositive(s.m, s.x, v);
      NextBelowTail(s.m, s.x);
      BoundAtExit(s.m, s.x, v, INT_MAX);
    }
  }

  /** v is no fraction with an allowed denominator. */
  ghost predicate NotAllowedFraction(v: real, limit: int) {
    forall a: int, b: int {:trigger IsFraction(v, a, b)} :: 1 <= b <= limit ==> !IsFraction(v, a, b)
  }

  /** No allowed fraction is so near to v that the loop stops before the overflow. */
  ghost predicate NothingTooNear(v: real, limit: int) {
    forall a: int, b: int {:trigger Defect(v, a, b)} ::
      1 <= b <= limit ==> 1.0 <= Defect(v, a, b) * (b * INT_MAX) as real
  }

  /** Conversely an allowed fraction that near is enough, unless v is one or the loop stops for a steep x before. */
  lemma NearOverflows(v: real, limit: int, a: int, b: int)
    requires 0.0 <= v && 1 <= limit <= INT_MAX
    requires NotAllowedFraction(v, limit) && NothingTooNear(v, limit)
    requires 1 <= b <= limit && Within(Defect(v, a, b), INT_MAX + limit)
    ensures Overflows(v, limit)
  {
    hide Mobius, Unit, ExitFrom, Defect, Next, NothingTooNear, Matrix.Tail;
    StartInv(v);
    ExitKeeps(Matrix(1, 0, 0, 1), v, v, limit);
    var s := ExitOf(v, limit);
    match s
    case Exact(m) =>
      ZeroIsFraction(v, m.p, m.q);
    case Steep(m, x) =>
      SteepIsTooNear(m, x, v, limit);
    case Limit(m, x) =>
      NextIs(m, x);
      BestAtExit(m, x, v, a, b);
      NextAfter(m, x, v, limit, Defect(v, a, b));
  }

  lemma NextIs(m: Matrix, x: real)
    ensures Next(m, x.Floor).q == m.q * x.Floor + m.q0
  {
  }

  lemma ZeroIsFraction(v: real, p: int, q: int)
    requires Defect(v, p, q) == 0.0
    ensures IsFraction(v, p, q)
  {
  }

  lemma SteepIsTooNear(m: Matrix, x: real, v: real, limit: int)
    requires Inv(m, x, v) && 1 <= m.q <= limit && INT_MAX as real < x
    ensures !NothingTooNear(v, limit)
  {
    hide Mobius, Unit, Gap;
    var d := Defect(v, m.p, m.q);
    var large := m.q * INT_MAX;
    GapTimesTail(m, x, v);
    TailPositive(m, x);
    AbsOfUnit(Gap(v, m.p, m.q), m.Tail(x));
    MulReal(m.q, INT_MAX);
    SteepTail(m.q as real, m.q0 as real, INT_MAX as real, x);
    ProductMono(d, large as real, m.Tail(x), 1.0);
  }

  lemma SteepTail(q: real, q0: real, i: real, x: real)
    requires 0.0 < q && 0.0 <= q0 && i < x
    ensures q * i < q * x + q0
  {
    assert q * (x - i) > 0.0;
  }

  lemma NextAfter(m: Matrix, x: real, v: real, limit: int, d: real)
    requires Inv(m, x, v) && 1 <= m.q <= limit && Defect(v, m.p, m.q) <= d && Within(d, INT_MAX + limit)
    ensures m.q * x.Floor + m.q0 > INT_MAX
  {
    hide Mobius, Unit, Gap, IsProduct, Within, Matrix.Tail, Defect;
    DefectTimesTail(m, x, v);
    TailAbove(1.0, Defect(v, m.p, m.q), m.Tail(x), d, INT_MAX + limit);
    TailIs(m, x);
    FloorLoss(m.q, m.q0, x);
  }

  lemma TailIs(m: Matrix, x: real)
    ensures m.Tail(x) == m.q as real * x + m.q0 as real
  {
  }

  lemma DefectTimesTail(m: Matrix, x: real, v: real)
    requires Inv(m, x, v)
    ensures 0.0 < Defect(v, m.p, m.q) && IsProduct(1.0, Defect(v, m.p, m.q), m.Tail(x))
  {
    GapTimesTail(m, x, v);
    TailPositive(m, x);
    AbsOfUnit(Gap(v, m.p, m.q), m.Tail(x));
  }

  lemma TailAbove(one: real, g: real, t: real, d: real, n: int)
    requires one == 1.0 && 0.0 < g <= d && IsProduct(one, g, t) && Within(d, n) && 0 <= n
    ensures n as real < t
  {
    Above(one, g, t, d, n as real, d * n as real);
  }

  lemma Above(u: real, g: real, t: real, d: real, l: real, dl: real)
    requires 0.0 < g <= d && 0.0 <= l && u == g * t && dl == d * l && dl < u
    ensures l < t
  {
    if t <= l {
      MulMono(t, l, g);
      MulMono(g, d, l);
    }
  }

  /** Rounding x down costs less than one denominator. */
  lemma FloorLoss(q: int, q0: int, x: real)
    requires 0 < q
    ensures q as real * x + q0 as real < (q * x.Floor + q0 + q) as real
  {
    MulReal(q, x.Floor + 1);
    assert q as real * ((x.Floor + 1) as real - x) > 0.0;
    assert q * (x.Floor + 1) == q * x.Floor + q;
  }

  /** No numerator overflows while the value times the limit stays below INT_MAX. */
  lemma SmallNumerators(v: real, limit: int)
    requires 0.0 <= v && 1 <= limit && v * limit as real + 1.0 <= INT_MAX as real
    ensures ExitOf(v, limit).m.p <= INT_MAX
  {
    hide Mobius, Unit, ExitFrom, Defect, IsProduct, Matrix.Tail;
    StartInv(v);
    ExitKeeps(Matrix(1, 0, 0, 1), v, v, limit);
    var s := ExitOf(v, limit);
    if !s.Exact? {
      DefectTimesTail(s.m, s.x, v);
      TailPositive(s.m, s.x);
      DefectBelowOne(1.0, Defect(v, s.m.p, s.m.q), s.m.Tail(s.x));
    }
    NumeratorBound(v, s.m.p, s.m.q, limit);
  }

  lemma DefectBelowOne(one: real, g: real, t: real)
    requires one == 1.0 && 0.0 < g && IsProduct(one, g, t) && one <= t
    ensures g <= one
  {
    MulMono(1.0, t, g);
  }

  lemma NumeratorBound(v: real, p: int, q: int, limit: int)
    requires 0.0 <= v && q <= limit && v * limit as real + 1.0 <= INT_MAX as real && Defect(v, p, q) <= 1.0
    ensures p <= INT_MAX
  {
    var qv, lv := q as real * v, limit as real * v;
    ScaledMono(q as real, limit as real, v, qv, lv);
    assert lv == v * limit as real && Abs(qv - p as real) == Defect(v, p, q);
    BelowBound(qv, p as real, lv, INT_MAX as real);
  }

  lemma BelowBound(qv: real, p: real, lv: real, bound: real)
    requires Abs(qv - p) <= 1.0 && qv <= lv && lv + 1.0 <= bound
    ensures p <= bound
  {
  }

  const DOUBLE_8001 := 4504162577323917.0 / 562949953421312.0

  /** The double nearest to the decimal 8.001 overflows at the limit 2^14: the next denominator is 1804326773001. */
  lemma DecimalOverflows()
    ensures Overflows(DOUBLE_8001, 16384)
    ensures ExitOf(DOUBLE_8001, 16384) == Limit(Matrix(8001, 8, 1000, 1), 562949953421.0 / 312.0)
  {
    hide ExitFrom;
    var x0, x1, x2 := DOUBLE_8001, 562949953421312.0 / 562949953421.0, 562949953421.0 / 312.0;
    var m0, m1, m2 := Matrix(1, 0, 0, 1), Matrix(8, 1, 1, 0), Matrix(8001, 8, 1000, 1);
    assert x0.Floor == 8 && x1.Floor == 1000 && x2.Floor == 1804326773;
    assert Inverse(x0 - 8.0) == x1 && Inverse(x1 - 1000.0) == x2;
    ExitUnfold(m0, x0, 16384);
    ExitUnfold(m1, x1, 16384);
    ExitUnfold(m2, x2, 16384);
  }

  // --- the loop ---

  /** What a returned ratio promises about `value`. */
  ghost predicate GoodRatio(v: real, limit: int, p: int, q: int) {
    && 1 <= q <= limit && 0 <= p <= INT_MAX
    && LowestTerms(p, q)
    // exact, or within 1 / (q * limit)
    && Within(Defect(v, p, q), limit)
    // no fraction with an allowed denominator has a smaller |b*v - a|
    && (forall a: int, b: int {:trigger Defect(v, a, b)} ::
      1 <= b <= limit && b < INT_MAX ==> Defect(v, p, q) <= Defect(v, a, b))
    // a fraction with an allowed denominator comes back
    && (forall a: int, b: int {:trigger IsFraction(v, a, b)} ::
      IsFraction(v, a, b) && 1 <= b <= limit ==> p * b == a * q)
  }

  /**
   The floating-point branch of lcec_cia402_decode_ratio_modparam. `value` is what atof returned;
   `error = x` needs a value that fits an int, and the documented use is a non-negative number.
   */
  method Approximate(value: real, maxDenominator: int) returns (r: Outcome)
    requires 0.0 <= value < (INT_MAX + 1) as real
    requires maxDenominator <= INT_MAX
    ensures maxDenominator < 1 ==> r == Ratio(1, 0)
    // the outcome is decided by the value and the limit
    ensures 1 <= maxDenominator ==> (r.IntOverflow? <==> Overflows(value, maxDenominator))
    ensures r.Ratio? && 1 <= maxDenominator ==>
      && GoodRatio(value, maxDenominator, r.numerator, r.denominator)
      && (Nearest(value, maxDenominator, r.numerator, r.denominator) <==> StopsNearest(value, maxDenominator))
    // a fraction of two ints never overflows
    ensures r.IntOverflow? ==> NotAnIntRatio(value)
  {
    var m00, m01, m10, m11 := 1, 0, 0, 1;
    var x := value;
    var error := x.Floor;
    ghost var m := Matrix(1, 0, 0, 1);
    StartInv(value);
    hide Mobius, Unit, GoodRatio, IsFraction, Advance, Inverse, ExitFrom, StopsNearest, Nearest;
    while Advance(m10, m11, error) <= maxDenominator
      invariant m == Matrix(m00, m01, m10, m11)
      invariant Inv(m, x, value)
      invariant error == x.Floor
      invariant m00 <= INT_MAX && m10 <= INT_MAX
      invariant m10 == 0 || 1 <= m10 <= maxDenominator
      invariant m10 == 0 ==> Advance(m10, m11, error) == 1
      invariant 1 <= maxDenominator ==> ExitFrom(m, x, maxDenominator) == ExitOf(value, maxDenominator)
      decreases if m10 == 0 then 1 else 0, 2 * maxDenominator - m10 - m11
    {
      NextShape(m, x);
      ExitUnfold(m, x, maxDenominator);
      var temp := Advance(m00, m01, error);
      if temp > INT_MAX {
        OverflowMeansNotAnIntRatio(m, x, error, value);
        NumeratorTooLarge(m, x, value, maxDenominator);
        return IntOverflow;
      }
      m01 := m00;
      m00 := temp;

      temp := Advance(m10, m11, error);
      m11 := m10;
      m10 := temp;

      ghost var before := m;
      m := Next(m, error);
      if x == error as real {
        AtExactExit(before, x, error, value, maxDenominator);
        NearestIff(value, maxDenominator);
        return Ratio(m00, m10);
      }
      NextInv(before, x, error, value);
      x := Inverse(x - error as real);
      if x > INT_MAX as real {
        AtOverflowExit(m, x, value, maxDenominator);
        NearestIff(value, maxDenominator);
        return Ratio(m00, m10);
      }
      error := x.Floor;
    }
    if 1 <= maxDenominator {
      ExitUnfold(m, x, maxDenominator);
    }
    if Advance(m10, m11, error) > INT_MAX {
      OverflowMeansNotAnIntRatio(m, x, error, value);
      return IntOverflow;
    }
    if 1 <= maxDenominator {
      AtLimitExit(m, x, error, value, maxDenominator);
      NearestIff(value, maxDenominator);
    }
    return Ratio(m00, m10);
  }

  lemma StartInv(v: real)
    requires 0.0 <= v
    ensures Inv(Matrix(1, 0, 0, 1), v, v)
  {
    var m := Matrix(1, 0, 0, 1);
    assert m.Tail(v) == 1.0;
    assert Mobius(m, v, v);
  }

  lemma AtExactExit(before: Matrix, x: real, e: int, v: real, limit: int)
    requires Inv(before, x, v) && e == x.Floor && x == e as real
    requires var m := Next(before, e); 1 <= m.q <= limit && 0 <= m.p <= INT_MAX
    ensures var m := Next(before, e); GoodRatio(v, limit, m.p, m.q) && Defect(v, m.p, m.q) == 0.0
  {
    var m := Next(before, e);
    ExactExit(before, x, v);
    NextUnit(before, x.Floor);
    UnitIsLowest(m);
    WithinZero(Defect(v, m.p, m.q), limit);
    RecoverAll(v, m.p, m.q, limit);
  }

  lemma WithinZero(d: real, limit: int)
    requires d == 0.0
    ensures Within(d, limit)
  {
  }

  lemma AtOverflowExit(m: Matrix, x: real, v: real, limit: int)
    requires Inv(m, x, v) && 1 <= m.q <= limit <= INT_MAX && m.p <= INT_MAX
    requires x > INT_MAX as real
    ensures GoodRatio(v, limit, m.p, m.q)
  {
    TailPositive(m, x);
    UnitIsLowest(m);
    BoundAtExit(m, x, v, limit);
    RecoverAll(v, m.p, m.q, limit);
    IntMulMono(1, m.q, x.Floor);
    BestOfAll(m, x, v, if limit == INT_MAX then limit - 1 else limit);
  }

  lemma AtLimitExit(m: Matrix, x: real, e: int, v: real, limit: int)
    requires Inv(m, x, v) && 1 <= m.q <= limit <= INT_MAX && m.p <= INT_MAX
    requires e == x.Floor && limit < Next(m, e).q
    ensures GoodRatio(v, limit, m.p, m.q)
  {
    NextBelowTail(m, x);
    UnitIsLowest(m);
    BoundAtExit(m, x, v, limit);
    RecoverAll(v, m.p, m.q, limit);
    BestOfAll(m, x, v, limit);
  }

  /**
   The convergent minimises |b*v - a|, not the distance |v - a/b|: for 0.31 with denominators up
   to 12 the answer can only be 1/3, yet 3/10 is closer.
   */
  lemma CloserFractionExists(p: int, q: int)
    requires GoodRatio(0.31, 12, p, q)
    ensures p == 1 && q == 3
    ensures Abs(0.31 - 3.0 / 10.0) < Abs(0.31 - 1.0 / 3.0)
  {
  }

  /** With the limit at INT_MAX that one denominator can do better: for 2/(2*INT_MAX + 1) the answer is 0/1. */
  lemma LargestDenominatorIsBetter()
    ensures var v := 2.0 / (2 * INT_MAX + 1) as real;
            && ExitOf(v, INT_MAX).m == Matrix(0, 1, 1, 0)
            && Defect(v, 1, INT_MAX) < Defect(v, 0, 1)
  {
    hide ExitFrom;
    var v := 2.0 / (2 * INT_MAX + 1) as real;
    assert v.Floor == 0;
    assert Inverse(v) == INT_MAX as real + 0.5;
    ExitUnfold(Matrix(1, 0, 0, 1), v, INT_MAX);
  }
}
