/** The Wilson score interval in exact reals, with the square root as its non-negative root. */
module Wilson {
  import opened Options

  lemma MulPos(a: real, b: real, product: real)
    requires a > 0.0 && b > 0.0 && product == a * b
    ensures product > 0.0
  {
  }

  lemma MulNonNeg(a: real, b: real, product: real)
    requires a >= 0.0 && b >= 0.0 && product == a * b
    ensures product >= 0.0
  {
    if a > 0.0 && b > 0.0 {
      MulPos(a, b, product);
    }
  }

  lemma SquarePos(a: real, s: real)
    requires s == a * a
    ensures s >= 0.0 && (a != 0.0 ==> s > 0.0)
  {
    assert (-a) * (-a) == s;
    if a > 0.0 {
      MulPos(a, a, s);
    } else if a < 0.0 {
      MulPos(-a, -a, s);
    }
  }

  /** The share k/n. */
  function Portion(k: nat, n: nat): real
    requires n > 0
  {
    k as real / n as real
  }

  /** The radicand of the half width. */
  function Radicand(k: nat, n: nat, z: real): real
    requires n > 0
  {
    var p, m := Portion(k, n), n as real;
    var mm := m * m;
    MulPos(m, m, mm);
    p * (1.0 - p) / m + z * z / (4.0 * mm)
  }

  /** What math.sqrt returns, rounding aside. */
  predicate IsRoot(root: real, x: real) {
    root >= 0.0 && root * root == x
  }

  function Centre(k: nat, n: nat, z: real): real
    requires n > 0
  {
    var p, m := Portion(k, n), n as real;
    var zz := z * z;
    SquarePos(z, zz);
    Quotient(zz, m);
    (p + zz / (2.0 * m)) / (1.0 + zz / m)
  }

  function Half(n: nat, z: real, root: real): real
    requires n > 0
  {
    var m := n as real;
    var zz := z * z;
    SquarePos(z, zz);
    Quotient(zz, m);
    z * root / (1.0 + zz / m)
  }

  function Max(a: real, b: real): real { if a > b then a else b }
  function Min(a: real, b: real): real { if a < b then a else b }

  /** The interval before it is printed in percent; none for an empty sample. */
  function Interval(k: nat, n: nat, z: real, root: real): (interval: Option<(real, real)>)
    ensures interval == None <==> n == 0
  {
    if n == 0 then None
    else Some((Max(0.0, Centre(k, n, z) - Half(n, z, root)), Min(1.0, Centre(k, n, z) + Half(n, z, root))))
  }

  predicate AtMost(m: real, square: real, zz: real, spread: real) {
    m * square <= zz * spread
  }

  /** The score test accepts x as the true share: n (x - k/n)^2 <= z^2 x (1 - x). */
  predicate Accepts(x: real, k: nat, n: nat, z: real)
    requires n > 0
  {
    AtMost(n as real, (x - Portion(k, n)) * (x - Portion(k, n)), z * z, x * (1.0 - x))
  }

  // ---------------------------------------------------------------- small algebra

  lemma Quotient(a: real, b: real)
    requires b > 0.0
    ensures a / b * b == a && (a >= 0.0 ==> a / b >= 0.0)
  {
    var q := a / b;
    assert q * b == a && (-q) * b == -a;
    if q < 0.0 {
      MulPos(-q, b, -a);
    }
  }

  lemma Unique(q: real, b: real, a: real)
    requires b > 0.0 && q * b == a
    ensures a / b == q
  {
    Quotient(a, b);
    var e := a / b - q;
    assert e * b == 0.0 && (-e) * b == 0.0;
    if e > 0.0 {
      MulPos(e, b, 0.0);
    } else if -e > 0.0 {
      MulPos(-e, b, 0.0);
    }
  }

  lemma SameSign(d: real, a: real)
    requires d > 0.0
    ensures d * a <= 0.0 <==> a <= 0.0
  {
    var product := d * a;
    assert d * (-a) == -product;
    if a > 0.0 {
      MulPos(d, a, product);
    } else {
      MulNonNeg(d, -a, -product);
    }
  }

  lemma DifferenceOfSquares(a: real, h: real)
    ensures (a - h) * (a + h) == a * a - h * h
  {
  }

  lemma SquareGrows(a: real, h: real)
    requires a > h >= 0.0
    ensures a * a > h * h
  {
    DifferenceOfSquares(a, h);
    MulPos(a - h, a + h, a * a - h * h);
  }

  lemma SquareOrder(a: real, h: real)
    requires h >= 0.0
    ensures a * a <= h * h <==> -h <= a <= h
  {
    var b := -a;
    assert b * b == a * a;
    if a > h {
      SquareGrows(a, h);
    } else if b > h {
      SquareGrows(b, h);
    } else {
      DifferenceOfSquares(h, a);
      MulNonNeg(h - a, h + a, h * h - a * a);
    }
  }

  lemma GapOrder(a: real, h: real)
    requires h >= 0.0
    ensures a * a - h * h <= 0.0 <==> -h <= a <= h
  {
    SquareOrder(a, h);
  }

  // ---------------------------------------------------------------- completing the square

  /** d (c^2 - h^2) = p^2 */
  lemma CentreMinusHalf(p: real, w: real, c: real, h: real, d: real)
    requires d == 1.0 + w && d > 0.0
    requires c * d == p + w / 2.0
    requires (h * d) * (h * d) == w * (p * (1.0 - p)) + w * w / 4.0
    ensures d * (c * c - h * h) == p * p
  {
    var cd, hd := c * d, h * d;
    assert cd * cd == p * p + p * w + w * w / 4.0 by {
      assert cd * cd == (p + w / 2.0) * (p + w / 2.0);
    }
    assert w * (p * (1.0 - p)) == w * p - w * (p * p);
    assert cd * cd - hd * hd == p * p * d;
    assert cd * cd - hd * hd == d * (d * (c * c - h * h)) by {
      assert cd * cd == d * (d * (c * c));
      assert hd * hd == d * (d * (h * h));
    }
    Cancel(d, d * (c * c - h * h), p * p);
  }

  lemma Cancel(d: real, a: real, b: real)
    requires d > 0.0 && d * a == b * d
    ensures a == b
  {
    Unique(a, d, b * d);
    Unique(b, d, b * d);
  }

  lemma CompleteSquare(x: real, p: real, w: real, c: real, h: real, d: real)
    requires d == 1.0 + w && d > 0.0
    requires c * d == p + w / 2.0
    requires d * (c * c - h * h) == p * p
    ensures d * ((x - c) * (x - c) - h * h) == (x - p) * (x - p) - w * (x * (1.0 - x))
  {
    assert (x - c) * (x - c) == x * x - 2.0 * (x * c) + c * c;
    assert d * ((x - c) * (x - c) - h * h) == d * (x * x) - 2.0 * (x * (c * d)) + d * (c * c - h * h) by {
      assert d * (2.0 * (x * c)) == 2.0 * (x * (c * d));
      assert (x - c) * (x - c) - h * h == x * x - 2.0 * (x * c) + (c * c - h * h);
      assert d * (x * x - 2.0 * (x * c) + (c * c - h * h)) == d * (x * x) - d * (2.0 * (x * c)) + d * (c * c - h * h);
    }
    assert x * (c * d) == x * p + x * w / 2.0;
    assert d * (x * x) == x * x + w * (x * x);
    assert w * (x * (1.0 - x)) == x * w - w * (x * x);
    assert (x - p) * (x - p) == x * x - 2.0 * (x * p) + p * p;
  }

  // ---------------------------------------------------------------- the quantities of the source

  lemma HalfOver(a: real, m: real)
    requires m > 0.0
    ensures a / (2.0 * m) == a / m / 2.0
  {
    Quotient(a, m);
    var q := a / m / 2.0;
    assert q * (2.0 * m) == a / m * m;
    Unique(q, 2.0 * m, a);
  }

  lemma QuarterOverSquare(a: real, m: real, mm: real)
    requires m > 0.0 && mm == m * m && mm > 0.0
    ensures a / (4.0 * mm) == a / m / m / 4.0
  {
    Quotient(a, m);
    var t := a / m;
    Quotient(t, m);
    var u := t / m;
    assert u * mm == (u * m) * m;
    assert u / 4.0 * (4.0 * mm) == u * mm;
    Unique(u / 4.0, 4.0 * mm, a);
  }

  /** y (t / m) = (y / m) t */
  lemma Swap(y: real, t: real, m: real)
    requires m > 0.0
    ensures y * (t / m) == y / m * t
  {
    Quotient(y, m);
    Quotient(t, m);
    var u, v := y / m, t / m;
    assert y * v == u * m * v == u * (v * m);
  }

  /** z^2 (p(1-p)/m + z^2/4m^2) = w p(1-p) + w^2/4 with w = z^2/m */
  lemma RadicandForm(q: real, zz: real, m: real, mm: real, radicand: real)
    requires m > 0.0 && mm == m * m && mm > 0.0 && radicand == q / m + zz / (4.0 * mm)
    ensures var w := zz / m; zz * radicand == w * q + w * w / 4.0
  {
    var w := zz / m;
    Swap(zz, q, m);
    QuarterOverSquare(zz, m, mm);
    Swap(zz, w, m);
    var u := w / m;
    assert zz * (u / 4.0) == zz * u / 4.0;
    assert zz * (q / m + u / 4.0) == zz * (q / m) + zz * (u / 4.0);
  }

  /** z^2 / n */
  function Weight(n: nat, z: real): (w: real)
    requires n > 0
    ensures w >= 0.0 && w * n as real == z * z
  {
    var zz := z * z;
    SquarePos(z, zz);
    Quotient(zz, n as real);
    zz / n as real
  }

  lemma CentreForm(k: nat, n: nat, z: real)
    requires n > 0
    ensures Centre(k, n, z) * (1.0 + Weight(n, z)) == Portion(k, n) + Weight(n, z) / 2.0
  {
    HalfOver(z * z, n as real);
    Quotient(Portion(k, n) + Weight(n, z) / 2.0, 1.0 + Weight(n, z));
  }

  lemma HalfForm(k: nat, n: nat, z: real, root: real)
    requires n > 0 && z >= 0.0 && IsRoot(root, Radicand(k, n, z))
    ensures var w, p := Weight(n, z), Portion(k, n);
            Half(n, z, root) >= 0.0
            && (Half(n, z, root) * (1.0 + w)) * (Half(n, z, root) * (1.0 + w)) == w * (p * (1.0 - p)) + w * w / 4.0
  {
    var m, p, zr := n as real, Portion(k, n), z * root;
    var mm := m * m;
    MulPos(m, m, mm);
    MulNonNeg(z, root, zr);
    Quotient(zr, 1.0 + Weight(n, z));
    assert zr * zr == z * z * (root * root);
    RadicandForm(p * (1.0 - p), z * z, m, mm, root * root);
    SameSquare(Half(n, z, root) * (1.0 + Weight(n, z)), zr, z * z * (root * root));
  }

  lemma SameSquare(a: real, b: real, square: real)
    requires a == b && b * b == square
    ensures a * a == square
  {
  }

  /** The square root is taken of a number that has one. */
  lemma RadicandNonNeg(k: nat, n: nat, z: real)
    requires 0 < n && k <= n
    ensures Radicand(k, n, z) >= 0.0
  {
    var p, m := Portion(k, n), n as real;
    var mm, spread, zz := m * m, p * (1.0 - p), z * z;
    MulPos(m, m, mm);
    PortionIsShare(k, n);
    MulNonNeg(p, 1.0 - p, spread);
    Quotient(spread, m);
    SquarePos(z, zz);
    Quotient(zz, 4.0 * mm);
  }

  // ---------------------------------------------------------------- the interval

  lemma Assemble(d: real, gap: real, m: real, w: real, zz: real, square: real, spread: real)
    requires d > 0.0 && m > 0.0 && w * m == zz
    requires d * gap == square - w * spread
    ensures gap <= 0.0 <==> AtMost(m, square, zz, spread)
  {
    SameSign(d, gap);
    assert m * (w * spread) == w * m * spread;
    assert m * (square - w * spread) == m * square - zz * spread;
    SameSign(m, square - w * spread);
  }

  lemma CompletedSquare(x: real, k: nat, n: nat, z: real, root: real)
    requires n > 0 && z >= 0.0 && IsRoot(root, Radicand(k, n, z))
    ensures var w, p, c, h := Weight(n, z), Portion(k, n), Centre(k, n, z), Half(n, z, root);
            h >= 0.0 && (1.0 + w) * ((x - c) * (x - c) - h * h) == (x - p) * (x - p) - w * (x * (1.0 - x))
  {
    var w, p, c, h := Weight(n, z), Portion(k, n), Centre(k, n, z), Half(n, z, root);
    CentreForm(k, n, z);
    HalfForm(k, n, z, root);
    WholeSquare(x, p, w, c, h, 1.0 + w);
  }

  lemma WholeSquare(x: real, p: real, w: real, c: real, h: real, d: real)
    requires d == 1.0 + w && d > 0.0
    requires c * d == p + w / 2.0
    requires (h * d) * (h * d) == w * (p * (1.0 - p)) + w * w / 4.0
    ensures d * ((x - c) * (x - c) - h * h) == (x - p) * (x - p) - w * (x * (1.0 - x))
  {
    CentreMinusHalf(p, w, c, h, d);
    CompleteSquare(x, p, w, c, h, d);
  }

  /** x lies between centre - half and centre + half exactly when the score test accepts it. */
  lemma BetweenExactlyWhenAccepted(x: real, k: nat, n: nat, z: real, root: real)
    requires n > 0 && z >= 0.0 && IsRoot(root, Radicand(k, n, z))
    ensures Centre(k, n, z) - Half(n, z, root) <= x <= Centre(k, n, z) + Half(n, z, root) <==> Accepts(x, k, n, z)
  {
    var w, p, c, h := Weight(n, z), Portion(k, n), Centre(k, n, z), Half(n, z, root);
    CompletedSquare(x, k, n, z, root);
    GapOrder(x - c, h);
    Assemble(1.0 + w, (x - c) * (x - c) - h * h, n as real, w, z * z, (x - p) * (x - p), x * (1.0 - x));
  }

  lemma PortionIsShare(k: nat, n: nat)
    requires 0 < n && k <= n
    ensures 0.0 <= Portion(k, n) <= 1.0
  {
    var m, p := n as real, Portion(k, n);
    Quotient(k as real, m);
    assert (p - 1.0) * m == k as real - m;
    if p > 1.0 {
      MulPos(p - 1.0, m, k as real - m);
    }
  }

  lemma OutsideSpread(x: real, spread: real)
    requires spread == x * (1.0 - x) && spread >= 0.0
    ensures 0.0 <= x <= 1.0
  {
    assert x * (x - 1.0) == -spread == (-x) * (1.0 - x);
    if x > 1.0 {
      MulPos(x, x - 1.0, -spread);
    } else if x < 0.0 {
      MulPos(-x, 1.0 - x, -spread);
    }
  }

  lemma SpreadNonNeg(m: real, square: real, zz: real, spread: real)
    requires m > 0.0 && square >= 0.0 && zz > 0.0 && AtMost(m, square, zz, spread)
    ensures spread >= 0.0
  {
    var product := zz * spread;
    MulNonNeg(m, square, m * square);
    assert zz * (-spread) == -product;
    if spread < 0.0 {
      MulPos(zz, -spread, -product);
    }
  }

  /** The observed share is always accepted. */
  lemma ObservedIsAccepted(k: nat, n: nat, z: real)
    requires 0 < n && k <= n
    ensures Accepts(Portion(k, n), k, n, z)
  {
    var p, zz := Portion(k, n), z * z;
    var spread := p * (1.0 - p);
    PortionIsShare(k, n);
    MulNonNeg(p, 1.0 - p, spread);
    SquarePos(z, zz);
    MulNonNeg(zz, spread, zz * spread);
    assert (p - p) * (p - p) == 0.0;
  }

  /** Only shares between 0 and 1 are accepted. */
  lemma AcceptedAreShares(x: real, k: nat, n: nat, z: real)
    requires 0 < n && k <= n && z > 0.0 && Accepts(x, k, n, z)
    ensures 0.0 <= x <= 1.0
  {
    var p := Portion(k, n);
    var square, zz, spread := (x - p) * (x - p), z * z, x * (1.0 - x);
    SquarePos(x - p, square);
    SquarePos(z, zz);
    SpreadNonNeg(n as real, square, zz, spread);
    OutsideSpread(x, spread);
  }

  /** The printed interval: it holds the observed share, both clamps do nothing, and it is exactly the
      set of shares the score test accepts. */
  lemma IntervalIsScoreTest(k: nat, n: nat, z: real, root: real)
    requires 0 < n && k <= n && z > 0.0 && IsRoot(root, Radicand(k, n, z))
    ensures var (lo, hi) := Interval(k, n, z, root).value;
            && lo == Centre(k, n, z) - Half(n, z, root) && hi == Centre(k, n, z) + Half(n, z, root)
            && 0.0 <= lo <= Portion(k, n) <= hi <= 1.0
            && (forall x: real :: Accepts(x, k, n, z) <==> lo <= x <= hi)
  {
    var lo, hi := Centre(k, n, z) - Half(n, z, root), Centre(k, n, z) + Half(n, z, root);
    HalfForm(k, n, z, root);
    BetweenExactlyWhenAccepted(lo, k, n, z, root);
    BetweenExactlyWhenAccepted(hi, k, n, z, root);
    AcceptedAreShares(lo, k, n, z);
    AcceptedAreShares(hi, k, n, z);
    ObservedIsAccepted(k, n, z);
    BetweenExactlyWhenAccepted(Portion(k, n), k, n, z, root);
    forall x: real ensures Accepts(x, k, n, z) <==> lo <= x <= hi {
      BetweenExactlyWhenAccepted(x, k, n, z, root);
    }
  }

  // ---------------------------------------------------------------- symmetry and monotony

  lemma PortionMirrors(k: nat, n: nat)
    requires 0 < n && k <= n
    ensures Portion(n - k, n) == 1.0 - Portion(k, n)
  {
    var m := n as real;
    Quotient(k as real, m);
    assert (1.0 - Portion(k, n)) * m == m - Portion(k, n) * m;
    Unique(1.0 - Portion(k, n), m, (n - k) as real);
  }

  lemma RadicandMirrors(k: nat, n: nat, z: real)
    requires 0 < n && k <= n
    ensures Radicand(n - k, n, z) == Radicand(k, n, z)
  {
    var p := Portion(k, n);
    PortionMirrors(k, n);
    assert (1.0 - p) * (1.0 - (1.0 - p)) == p * (1.0 - p);
  }

  lemma CentreMirrors(k: nat, n: nat, z: real)
    requires 0 < n && k <= n
    ensures Centre(n - k, n, z) == 1.0 - Centre(k, n, z)
  {
    PortionMirrors(k, n);
    CentreForm(k, n, z);
    CentreForm(n - k, n, z);
    Complement(Portion(k, n), Weight(n, z), Centre(k, n, z), Centre(n - k, n, z));
  }

  lemma Complement(p: real, w: real, c: real, c': real)
    requires 1.0 + w > 0.0 && c * (1.0 + w) == p + w / 2.0 && c' * (1.0 + w) == 1.0 - p + w / 2.0
    ensures c' == 1.0 - c
  {
    assert (1.0 - c) * (1.0 + w) == 1.0 + w - c * (1.0 + w);
    Unique(1.0 - c, 1.0 + w, 1.0 - p + w / 2.0);
    Unique(c', 1.0 + w, 1.0 - p + w / 2.0);
  }

  /** Swapping hits and misses mirrors the interval. */
  lemma Mirror(k: nat, n: nat, z: real, root: real)
    requires 0 < n && k <= n && z > 0.0 && IsRoot(root, Radicand(k, n, z))
    ensures IsRoot(root, Radicand(n - k, n, z))
    ensures var (lo, hi) := Interval(k, n, z, root).value;
            Interval(n - k, n, z, root) == Some((1.0 - hi, 1.0 - lo))
  {
    RadicandMirrors(k, n, z);
    CentreMirrors(k, n, z);
    IntervalIsScoreTest(k, n, z, root);
    IntervalIsScoreTest(n - k, n, z, root);
  }

  lemma PortionRises(k: nat, k': nat, n: nat)
    requires k < k' && n > 0
    ensures Portion(k, n) < Portion(k', n)
  {
    var m, p, p' := n as real, Portion(k, n), Portion(k', n);
    Quotient(k as real, m);
    Quotient(k' as real, m);
    var product := (p - p') * m;
    assert product == k as real - k' as real;
    if p - p' >= 0.0 {
      MulNonNeg(p - p', m, product);
    }
  }

  lemma SquareSwaps(a: real, b: real)
    ensures (a - b) * (a - b) == (b - a) * (b - a)
  {
  }

  /** Left of both shares, what the larger share accepts the smaller accepts too. */
  lemma AcceptedByLarger(x: real, k: nat, k': nat, n: nat, z: real)
    requires k < k' && n > 0 && x <= Portion(k, n) && Accepts(x, k', n, z)
    ensures Accepts(x, k, n, z)
  {
    var p, p' := Portion(k, n), Portion(k', n);
    PortionRises(k, k', n);
    SquareGrows(p' - x, p - x);
    SquareSwaps(x, p);
    SquareSwaps(x, p');
    Monotone(n as real, (x - p) * (x - p), (x - p') * (x - p'));
  }

  lemma Monotone(m: real, a: real, b: real)
    requires m >= 0.0 && a <= b
    ensures m * a <= m * b
  {
    MulNonNeg(m, b - a, m * (b - a));
    assert m * (b - a) == m * b - m * a;
  }

  predicate Balances(square: real, w: real, spread: real) {
    square == w * spread
  }

  /** The score test holds with equality. */
  ghost predicate OnBoundary(x: real, k: nat, n: nat, z: real)
    requires n > 0
  {
    Balances((x - Portion(k, n)) * (x - Portion(k, n)), Weight(n, z), x * (1.0 - x))
  }

  lemma LowerEndIsBoundary(x: real, k: nat, n: nat, z: real, root: real)
    requires n > 0 && z >= 0.0 && IsRoot(root, Radicand(k, n, z)) && x == Centre(k, n, z) - Half(n, z, root)
    ensures OnBoundary(x, k, n, z)
  {
    var c, h := Centre(k, n, z), Half(n, z, root);
    CompletedSquare(x, k, n, z, root);
    assert (x - c) * (x - c) - h * h == 0.0 by {
      NegSquare(x - c, h);
    }
  }

  lemma NegSquare(a: real, h: real)
    requires a == -h
    ensures a * a - h * h == 0.0
  {
  }

  /** One point is not on the boundaries of two shares above it. */
  lemma NotBothBoundaries(x: real, k: nat, k': nat, n: nat, z: real)
    requires 0 < n && k < k' && x <= Portion(k, n) && OnBoundary(x, k, n, z)
    ensures !OnBoundary(x, k', n, z)
  {
    var p, p' := Portion(k, n), Portion(k', n);
    PortionRises(k, k', n);
    SquareGrows(p' - x, p - x);
    SquareSwaps(x, p);
    SquareSwaps(x, p');
  }

  lemma LowerEndRises(k: nat, k': nat, n: nat, z: real, root: real, root': real)
    requires k < k' <= n && z > 0.0
    requires IsRoot(root, Radicand(k, n, z)) && IsRoot(root', Radicand(k', n, z))
    ensures Interval(k, n, z, root).value.0 < Interval(k', n, z, root').value.0
  {
    IntervalIsScoreTest(k, n, z, root);
    IntervalIsScoreTest(k', n, z, root');
    var x, x' := Interval(k, n, z, root).value.0, Interval(k', n, z, root').value.0;
    if x' <= Portion(k, n) {
      assert Accepts(x', k', n, z);
      AcceptedByLarger(x', k, k', n, z);
      LowerEndIsBoundary(x, k, n, z, root);
      LowerEndIsBoundary(x', k', n, z, root');
      NotBothBoundaries(x, k, k', n, z);
    }
  }

  /** A further hit raises both ends. */
  lemma EndsRise(k: nat, k': nat, n: nat, z: real, root: real, root': real)
    requires k < k' <= n && z > 0.0
    requires IsRoot(root, Radicand(k, n, z)) && IsRoot(root', Radicand(k', n, z))
    ensures var (lo, hi) := Interval(k, n, z, root).value;
            var (lo', hi') := Interval(k', n, z, root').value;
            lo < lo' && hi < hi'
  {
    LowerEndRises(k, k', n, z, root, root');
    Mirror(k, n, z, root);
    Mirror(k', n, z, root');
    LowerEndRises(n - k', n - k, n, z, root', root);
  }
}
