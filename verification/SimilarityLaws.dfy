/** What the similarity of two articles measures: when the cosine is positive, when it is one, and
    what equal articles score. */
module SimilarityLaws {
  import opened Wrappers
  import opened Similarity
  import opened Text

  ghost predicate Positive(a: Bag) {
    forall t :: t in a ==> a[t] > 0.0
  }

  // ----- Sums over more tokens -----

  /** Tokens outside a bag add nothing to its products. */
  lemma {:induction false} DotOutside(a: Bag, b: Bag, keys: set<string>, more: set<string>)
    requires keys <= more && forall t :: t in more && t !in keys ==> Weight(a, t) == 0.0 || Weight(b, t) == 0.0
    ensures Dot(a, b, more) == Dot(a, b, keys)
    decreases more
  {
    if t :| t in more && t !in keys {
      DotRemove(a, b, more, t);
      ProductAt(a, b, t, Weight(a, t), Weight(b, t));
      ZeroTimes(Weight(a, t), Weight(b, t));
      DotOutside(a, b, keys, more - {t});
    } else {
      assert more == keys;
    }
  }

  lemma ZeroTimes(x: real, y: real)
    requires x == 0.0 || y == 0.0
    ensures x * y == 0.0
  {
  }

  /** All tokens of two bags. */
  function Both(a: Bag, b: Bag): set<string> {
    a.Keys + b.Keys
  }

  lemma DotsOverBoth(a: Bag, b: Bag)
    ensures Dot(a, a, Both(a, b)) == Dot(a, a, a.Keys)
    ensures Dot(b, b, Both(a, b)) == Dot(b, b, b.Keys)
    ensures Dot(a, b, Both(a, b)) == Dot(a, b, a.Keys * b.Keys)
  {
    DotOutside(a, a, a.Keys, Both(a, b));
    DotOutside(b, b, b.Keys, Both(a, b));
    DotOutside(a, b, a.Keys * b.Keys, Both(a, b));
  }

  // ----- Positive -----

  lemma {:induction false} DotPositive(a: Bag, b: Bag, keys: set<string>, t: string)
    requires NonNegative(a) && NonNegative(b) && t in keys && Weight(a, t) > 0.0 && Weight(b, t) > 0.0
    ensures Dot(a, b, keys) > 0.0
  {
    DotRemove(a, b, keys, t);
    ProductAt(a, b, t, Weight(a, t), Weight(b, t));
    ProductPositive(Weight(a, t), Weight(b, t));
    DotNonNegative(a, b, keys - {t});
  }

  lemma NormPositive(root: real -> real, a: Bag)
    requires IsRoot(root) && Positive(a) && a != map[]
    ensures Norm(root, a) > 0.0 && Norm(root, a) * Norm(root, a) == Dot(a, a, a.Keys) > 0.0
  {
    var t :| t in a;
    DotPositive(a, a, a.Keys, t);
    NormSquare(root, a);
  }

  lemma NormsPositive(root: real -> real, a: Bag, b: Bag)
    requires IsRoot(root) && Positive(a) && Positive(b) && a != map[] && b != map[]
    ensures Norm(root, a) > 0.0 && Norm(root, b) > 0.0
  {
    NormPositive(root, a);
    NormPositive(root, b);
  }

  /** The cosine is the product of the bags over the product of their norms. */
  lemma CosineIs(root: real -> real, a: Bag, b: Bag)
    requires IsRoot(root) && Positive(a) && Positive(b) && a != map[] && b != map[]
    ensures var m, n := Norm(root, a), Norm(root, b);
            m > 0.0 && n > 0.0 && m * n > 0.0 && Cosine(root, a, b) == Dot(a, b, a.Keys * b.Keys) / (m * n)
  {
    NormPositive(root, a);
    NormPositive(root, b);
    ProductPositive(Norm(root, a), Norm(root, b));
  }

  lemma QuotientPositive(d: real, m: real)
    requires d > 0.0 && m > 0.0
    ensures d / m > 0.0
  {
  }

  /** The cosine of bags of positive weights is positive iff they share a token. */
  lemma {:induction false} CosinePositiveIff(root: real -> real, a: Bag, b: Bag)
    requires IsRoot(root) && Positive(a) && Positive(b)
    ensures Cosine(root, a, b) > 0.0 <==> exists t :: t in a && t in b
  {
    if t :| t in a && t in b {
      CosineIs(root, a, b);
      DotPositive(a, b, a.Keys * b.Keys, t);
      QuotientPositive(Dot(a, b, a.Keys * b.Keys), Norm(root, a) * Norm(root, b));
    } else {
      assert a.Keys !! b.Keys;
      CosineDisjoint(root, a, b);
    }
  }

  // ----- One -----

  /** The squared gap between two bags, the first one scaled, at one token. */
  function Gaps(c: real, a: Bag, b: Bag): string -> real {
    t => (c * Weight(a, t) - Weight(b, t)) * (c * Weight(a, t) - Weight(b, t))
  }

  ghost function Gap(c: real, a: Bag, b: Bag, keys: set<string>): real {
    Sum(Gaps(c, a, b), keys)
  }

  lemma GapRemove(c: real, a: Bag, b: Bag, keys: set<string>, t: string)
    requires t in keys
    ensures Gap(c, a, b, keys) == Gaps(c, a, b)(t) + Gap(c, a, b, keys - {t})
  {
    SumRemove(Gaps(c, a, b), keys, t);
  }

  /** Two sums of squares and a sum of products. */
  datatype Dots = Dots(p: real, q: real, d: real)

  function Plus(x: Dots, y: Dots): Dots {
    Dots(x.p + y.p, x.q + y.q, x.d + y.d)
  }

  /** The gap that they make. */
  function SpreadOf(c: real): Dots -> real {
    (x: Dots) => (c * c) * x.p + x.q - (2.0 * c) * x.d
  }

  ghost predicate Adds(spread: Dots -> real) {
    spread(Dots(0.0, 0.0, 0.0)) == 0.0 && forall x: Dots, y: Dots :: spread(Plus(x, y)) == spread(x) + spread(y)
  }

  lemma SpreadAt(c: real, x: Dots, y: Dots)
    ensures SpreadOf(c)(Plus(x, y)) == SpreadOf(c)(x) + SpreadOf(c)(y)
  {
    assert (c * c) * (x.p + y.p) == (c * c) * x.p + (c * c) * y.p;
    assert (2.0 * c) * (x.d + y.d) == (2.0 * c) * x.d + (2.0 * c) * y.d;
  }

  lemma SpreadAdds(c: real)
    ensures Adds(SpreadOf(c))
  {
    var spread := SpreadOf(c);
    forall x: Dots, y: Dots ensures spread(Plus(x, y)) == spread(x) + spread(y) {
      SpreadAt(c, x, y);
    }
    SpreadZero(c);
  }

  lemma SpreadZero(c: real)
    ensures SpreadOf(c)(Dots(0.0, 0.0, 0.0)) == 0.0
  {
  }

  lemma SquareOfGap(c: real, x: real, y: real)
    ensures (c * x - y) * (c * x - y) == SpreadOf(c)(Dots(x * x, y * y, x * y))
  {
    assert (c * x) * (c * x) == (c * c) * (x * x);
    assert (c * x) * y == c * (x * y);
    assert (c * x - y) * (c * x - y) == (c * x) * (c * x) - 2.0 * ((c * x) * y) + y * y;
  }

  lemma GapAt(c: real, a: Bag, b: Bag, t: string)
    ensures Gaps(c, a, b)(t) == SpreadOf(c)(Dots(Products(a, a)(t), Products(b, b)(t), Products(a, b)(t)))
  {
    SquareOfGap(c, Weight(a, t), Weight(b, t));
    ProductAt(a, a, t, Weight(a, t), Weight(a, t));
    ProductAt(b, b, t, Weight(b, t), Weight(b, t));
    ProductAt(a, b, t, Weight(a, t), Weight(b, t));
  }

  lemma {:induction false} SumSpread(f: string -> real, p: string -> real, q: string -> real, d: string -> real,
                                     spread: Dots -> real, keys: set<string>)
    requires Adds(spread) && forall t :: t in keys ==> f(t) == spread(Dots(p(t), q(t), d(t)))
    ensures Sum(f, keys) == spread(Dots(Sum(p, keys), Sum(q, keys), Sum(d, keys)))
    decreases keys
  {
    if keys == {} {
    } else {
      var t :| t in keys;
      var rest := keys - {t};
      SumRemove(f, keys, t);
      SumRemove(p, keys, t);
      SumRemove(q, keys, t);
      SumRemove(d, keys, t);
      SumSpread(f, p, q, d, spread, rest);
      var x, y := Dots(p(t), q(t), d(t)), Dots(Sum(p, rest), Sum(q, rest), Sum(d, rest));
      assert Plus(x, y) == Dots(Sum(p, keys), Sum(q, keys), Sum(d, keys));
    }
  }

  /** The gap, in products. */
  lemma GapIs(c: real, a: Bag, b: Bag, keys: set<string>)
    ensures Gap(c, a, b, keys) == SpreadOf(c)(Dots(Dot(a, a, keys), Dot(b, b, keys), Dot(a, b, keys)))
  {
    SpreadAdds(c);
    forall t | t in keys
      ensures Gaps(c, a, b)(t) == SpreadOf(c)(Dots(Products(a, a)(t), Products(b, b)(t), Products(a, b)(t)))
    {
      GapAt(c, a, b, t);
    }
    SumSpread(Gaps(c, a, b), Products(a, a), Products(b, b), Products(a, b), SpreadOf(c), keys);
  }

  lemma {:induction false} GapNonNegative(c: real, a: Bag, b: Bag, keys: set<string>)
    ensures Gap(c, a, b, keys) >= 0.0
    decreases keys
  {
    if keys == {} {
    } else {
      var t :| t in keys;
      GapRemove(c, a, b, keys, t);
      SquareNonNegative(c * Weight(a, t) - Weight(b, t));
      GapNonNegative(c, a, b, keys - {t});
    }
  }

  lemma SquareZero(x: real)
    requires x * x == 0.0
    ensures x == 0.0
  {
    ZeroFactor(x, x);
  }

  /** Bags without a gap are proportional. */
  lemma {:induction false} NoGap(c: real, a: Bag, b: Bag, keys: set<string>, t: string)
    requires Gap(c, a, b, keys) == 0.0 && t in keys
    ensures Weight(b, t) == c * Weight(a, t)
  {
    GapRemove(c, a, b, keys, t);
    GapNonNegative(c, a, b, keys - {t});
    SquareNonNegative(c * Weight(a, t) - Weight(b, t));
    SquareZero(c * Weight(a, t) - Weight(b, t));
  }

  lemma CommonIsCosine(root: real -> real, a: Bag, b: Bag)
    requires IsRoot(root) && Positive(a) && Positive(b) && a != map[] && b != map[]
    ensures Dot(a, b, a.Keys * b.Keys) == (Norm(root, a) * Norm(root, b)) * Cosine(root, a, b)
  {
    CosineIs(root, a, b);
    QuotientTimes(Dot(a, b, a.Keys * b.Keys), Norm(root, a) * Norm(root, b));
  }

  lemma EmptyIsCosine(root: real -> real, a: Bag, b: Bag)
    requires a == map[] || b == map[]
    ensures Dot(a, b, a.Keys * b.Keys) == 0.0 && Cosine(root, a, b) == 0.0
  {
    assert a.Keys * b.Keys == {};
  }

  /** The product of two bags is that of their norms and their cosine. */
  lemma DotIsCosine(root: real -> real, a: Bag, b: Bag)
    requires IsRoot(root) && Positive(a) && Positive(b)
    ensures Dot(a, b, Both(a, b)) == (Norm(root, a) * Norm(root, b)) * Cosine(root, a, b)
  {
    DotsOverBoth(a, b);
    if a != map[] && b != map[] {
      CommonIsCosine(root, a, b);
    } else {
      EmptyIsCosine(root, a, b);
    }
  }

  lemma SquaresAreNorms(root: real -> real, a: Bag, b: Bag)
    requires IsRoot(root)
    ensures Dot(a, a, Both(a, b)) == Norm(root, a) * Norm(root, a)
    ensures Dot(b, b, Both(a, b)) == Norm(root, b) * Norm(root, b)
  {
    DotsOverBoth(a, b);
    NormSquare(root, a);
    NormSquare(root, b);
  }

  lemma UnitSpread(m: real, n: real, d: real)
    ensures SpreadOf(1.0)(Dots(m * m, n * n, d)) == m * m + n * n - 2.0 * d
  {
  }

  /** The law of cosines: the squared distance of two bags of positive weights, by their norms and
      their cosine. */
  lemma LawOfCosines(root: real -> real, a: Bag, b: Bag)
    requires IsRoot(root) && Positive(a) && Positive(b)
    ensures var m, n := Norm(root, a), Norm(root, b);
            Gap(1.0, a, b, Both(a, b)) == m * m + n * n - 2.0 * ((m * n) * Cosine(root, a, b))
  {
    var m, n := Norm(root, a), Norm(root, b);
    GapIs(1.0, a, b, Both(a, b));
    SquaresAreNorms(root, a, b);
    DotIsCosine(root, a, b);
    UnitSpread(m, n, (m * n) * Cosine(root, a, b));
  }

  lemma QuotientTimes(d: real, m: real)
    requires m > 0.0
    ensures m * (d / m) == d
  {
  }

  ghost predicate Proportional(c: real, a: Bag, b: Bag) {
    forall t :: Weight(b, t) == c * Weight(a, t)
  }

  /** Equality in Cauchy-Schwarz: the cosine of bags of positive weights is one iff they are
      proportional. */
  lemma {:induction false} CosineOneIff(root: real -> real, a: Bag, b: Bag)
    requires IsRoot(root) && Positive(a) && Positive(b) && a != map[] && b != map[]
    ensures Cosine(root, a, b) == 1.0 <==> exists c: real :: c > 0.0 && Proportional(c, a, b)
  {
    if Cosine(root, a, b) == 1.0 {
      var c := OneIsProportional(root, a, b);
    }
    if c: real :| c > 0.0 && Proportional(c, a, b) {
      ProportionalIsOne(root, a, b, c);
    }
  }

  lemma {:induction false} OneIsProportional(root: real -> real, a: Bag, b: Bag) returns (c: real)
    requires IsRoot(root) && Positive(a) && Positive(b) && a != map[] && b != map[] && Cosine(root, a, b) == 1.0
    ensures c > 0.0 && Proportional(c, a, b)
  {
    var m, n, keys := Norm(root, a), Norm(root, b), Both(a, b);
    NormPositive(root, a);
    NormPositive(root, b);
    c := n / m;
    QuotientPositive(n, m);
    NoGapAtOne(root, a, b, c, m, n);
    forall t ensures Weight(b, t) == c * Weight(a, t) {
      if t in keys {
        NoGap(c, a, b, keys, t);
      }
    }
  }

  lemma NoGapAtOne(root: real -> real, a: Bag, b: Bag, c: real, m: real, n: real)
    requires IsRoot(root) && Positive(a) && Positive(b) && Cosine(root, a, b) == 1.0
    requires m == Norm(root, a) > 0.0 && n == Norm(root, b) && c == n / m
    ensures Gap(c, a, b, Both(a, b)) == 0.0
  {
    GapIs(c, a, b, Both(a, b));
    SquaresAreNorms(root, a, b);
    DotIsCosine(root, a, b);
    assert (m * n) * 1.0 == m * n;
    NoSpread(c, m, n);
  }

  lemma NoSpread(c: real, m: real, n: real)
    requires m > 0.0 && c == n / m
    ensures SpreadOf(c)(Dots(m * m, n * n, m * n)) == 0.0
  {
    QuotientTimes(n, m);
    assert m * c == n;
    assert (c * c) * (m * m) == (m * c) * (m * c);
    assert (2.0 * c) * (m * n) == 2.0 * ((m * c) * n);
  }

  lemma ProportionalIsOne(root: real -> real, a: Bag, b: Bag, c: real)
    requires IsRoot(root) && Positive(a) && Positive(b) && a != map[] && b != map[]
    requires c > 0.0 && Proportional(c, a, b)
    ensures Cosine(root, a, b) == 1.0
  {
    var keys := Both(a, b);
    DotsScaled(a, b, c, keys);
    var m, n := NormsOf(root, a, b);
    ScaledNorms(c, m, n, Dot(a, a, keys), Dot(a, b, keys), Dot(b, b, keys));
  }

  /** Two norms, and that the cosine is one if their product is that of the bags. */
  lemma NormsOf(root: real -> real, a: Bag, b: Bag) returns (m: real, n: real)
    requires IsRoot(root) && Positive(a) && Positive(b) && a != map[] && b != map[]
    ensures m > 0.0 && n > 0.0 && m * m == Dot(a, a, Both(a, b)) && n * n == Dot(b, b, Both(a, b))
    ensures Dot(a, b, Both(a, b)) == m * n ==> Cosine(root, a, b) == 1.0
  {
    m, n := Norm(root, a), Norm(root, b);
    NormsPositive(root, a, b);
    SquaresAreNorms(root, a, b);
    if Dot(a, b, Both(a, b)) == m * n {
      OneOfNorms(root, a, b, m * n);
    }
  }

  lemma DotsScaled(a: Bag, b: Bag, c: real, keys: set<string>)
    requires Proportional(c, a, b)
    ensures Dot(a, b, keys) == c * Dot(a, a, keys) && Dot(b, b, keys) == c * Dot(a, b, keys)
  {
    DotScaled(a, a, b, c, keys);
    DotScaled(b, a, b, c, keys);
    DotSymmetric(a, b, keys);
  }

  lemma OneOfNorms(root: real -> real, a: Bag, b: Bag, mn: real)
    requires IsRoot(root) && Positive(a) && Positive(b) && a != map[] && b != map[]
    requires mn == Norm(root, a) * Norm(root, b) && Dot(a, b, Both(a, b)) == mn
    ensures Cosine(root, a, b) == 1.0
  {
    DotsOverBoth(a, b);
    CosineIs(root, a, b);
    WholeQuotient(mn);
  }

  lemma WholeQuotient(m: real)
    requires m > 0.0
    ensures m / m == 1.0
  {
  }

  function Times(c: real): real -> real {
    x => c * x
  }

  lemma TimesAdds(c: real)
    ensures Additive(Times(c))
  {
    assert c * 0.0 == 0.0;
    forall x: real, y: real ensures Times(c)(x) + Times(c)(y) == Times(c)(x + y) {
      assert c * x + c * y == c * (x + y);
    }
  }

  lemma ProductScaled(e: Bag, a: Bag, b: Bag, c: real, t: string)
    requires Weight(b, t) == c * Weight(a, t)
    ensures Products(e, b)(t) == Times(c)(Products(e, a)(t))
  {
    ProductAt(e, b, t, Weight(e, t), Weight(b, t));
    ProductAt(e, a, t, Weight(e, t), Weight(a, t));
    assert Weight(e, t) * (c * Weight(a, t)) == c * (Weight(e, t) * Weight(a, t));
  }

  lemma ProductsScaled(e: Bag, a: Bag, b: Bag, c: real)
    requires Proportional(c, a, b)
    ensures forall t :: Products(e, b)(t) == Times(c)(Products(e, a)(t))
  {
    forall t ensures Products(e, b)(t) == Times(c)(Products(e, a)(t)) {
      ProductScaled(e, a, b, c, t);
    }
  }

  lemma SumTimes(f: string -> real, g: string -> real, c: real, keys: set<string>)
    requires forall t :: f(t) == Times(c)(g(t))
    ensures Sum(f, keys) == Times(c)(Sum(g, keys))
  {
    TimesAdds(c);
    SumScaled(f, g, Times(c), keys);
  }

  /** Products with a scaled bag. */
  lemma DotScaled(e: Bag, a: Bag, b: Bag, c: real, keys: set<string>)
    requires Proportional(c, a, b)
    ensures Dot(e, b, keys) == Times(c)(Dot(e, a, keys))
  {
    ProductsScaled(e, a, b, c);
    SumTimes(Products(e, b), Products(e, a), c, keys);
  }

  lemma ScaledNorms(c: real, m: real, n: real, p: real, d: real, q: real)
    requires c > 0.0 && m > 0.0 && n > 0.0 && m * m == p && n * n == q && d == c * p && q == c * d
    ensures d == m * n
  {
    assert q == c * (c * p);
    assert c * (c * p) == (c * m) * (c * m);
    ProductPositive(c, m);
    OrderOfSquares(n, c * m);
    OrderOfSquares(c * m, n);
    assert m * n == m * (c * m);
    assert m * (c * m) == c * (m * m);
  }

  // ----- The bag of an article -----

  lemma ShareIs(count: nat, total: nat, weight: real)
    requires total > 0 && weight > 0.0
    ensures count > 0 ==> count as real / total as real * weight > 0.0
    ensures (count as real / total as real * weight) * total as real == count as real * weight
  {
    var share := count as real / total as real;
    if count > 0 {
      QuotientPositive(count as real, total as real);
      ProductPositive(share, weight);
    }
    QuotientTimes(count as real, total as real);
    assert (share * weight) * total as real == (total as real * share) * weight;
  }

  /** Frequencies are in proportion to the counts. */
  lemma TfIs(counter: multiset<string>, weight: real, t: string)
    requires weight > 0.0
    ensures t in Tf(counter, weight) <==> t in counter
    ensures t in counter ==> Tf(counter, weight)[t] > 0.0
    ensures Weight(Tf(counter, weight), t) * |counter| as real == counter[t] as real * weight
  {
    if t in counter {
      assert |counter| > 0;
      ShareIs(counter[t], |counter|, weight);
    }
  }

  /** The bag of an article: a token weighs twice its frequency in the title plus its frequency in the
      description, and every weight is positive. */
  lemma BagIs(title: Option<string>, description: Option<string>, t: string)
    ensures Weight(BagOf(title, description), t) == Weight(Tf(Tokenize(title), 2.0), t) + Weight(Tf(Tokenize(description), 1.0), t)
    ensures t in BagOf(title, description) <==> t in Tokenize(title) || t in Tokenize(description)
    ensures Positive(BagOf(title, description))
  {
    TfIs(Tokenize(title), 2.0, t);
    TfIs(Tokenize(description), 1.0, t);
    forall u | u in BagOf(title, description) ensures BagOf(title, description)[u] > 0.0 {
      TfIs(Tokenize(title), 2.0, u);
      TfIs(Tokenize(description), 1.0, u);
    }
  }

  /** The text similarity of two articles is positive iff they share a token. */
  lemma TextPositiveIff(root: real -> real, a: Profile, b: Profile)
    requires IsRoot(root)
    ensures TextSimilarity(root, a, b) > 0.0 <==> TokensOf(a) * TokensOf(b) != {}
  {
    PositiveIff(root, a, b, BagOf(a.title, a.description), BagOf(b.title, b.description));
  }

  lemma BagPositive(a: Profile)
    ensures Positive(BagOf(a.title, a.description))
  {
    BagIs(a.title, a.description, "");
  }

  lemma PositiveIff(root: real -> real, a: Profile, b: Profile, x: Bag, y: Bag)
    requires IsRoot(root) && x == BagOf(a.title, a.description) && y == BagOf(b.title, b.description)
    ensures Cosine(root, x, y) > 0.0 <==> x.Keys * y.Keys != {}
  {
    BagPositive(a);
    BagPositive(b);
    CosinePositiveIff(root, x, y);
    if t :| t in x && t in y {
      assert t in x.Keys * y.Keys;
    }
  }

  lemma SameBag(root: real -> real, a: Bag)
    requires IsRoot(root) && Positive(a) && a != map[]
    ensures Cosine(root, a, a) == 1.0
  {
    assert Proportional(1.0, a, a);
    CosineOneIff(root, a, a);
  }

  // ----- Time and place -----

  /** Articles published within a day count as simultaneous, a week apart or more, or at an unknown
      time, as unrelated, and in between the factor falls evenly; instants are in seconds. */
  lemma TimeMeaning(a: real, b: real, apart: real)
    requires apart == (if a >= b then a - b else b - a)
    ensures TimeFactor(None, Some(b)) == 0.0 && TimeFactor(Some(a), None) == 0.0 && TimeFactor(None, None) == 0.0
    ensures apart <= 86400.0 ==> TimeFactor(Some(a), Some(b)) == 1.0
    ensures apart >= 604800.0 ==> TimeFactor(Some(a), Some(b)) == 0.0
    ensures 86400.0 <= apart <= 604800.0 ==> TimeFactor(Some(a), Some(b)) * 518400.0 == 604800.0 - apart
  {
  }

  /** A place is the same whatever blanks surround it and however it is capitalised; an unknown one
      counts half. */
  lemma PlaceMeaning(a: string, b: string, front: string, back: string)
    requires (forall i :: 0 <= i < |front| ==> Blank(front[i])) && forall i :: 0 <= i < |back| ==> Blank(back[i])
    requires a != "" && !Blank(a[0]) && !Blank(a[|a| - 1]) && b != "" && !Blank(b[0]) && !Blank(b[|b| - 1])
    ensures LocationFactor(Some(front + a + back), Some(b)) == if SameLetters(a, b) then 1.0 else 0.0
    ensures LocationFactor(None, Some(b)) == 0.5 && LocationFactor(Some(a), None) == 0.5
    ensures LocationFactor(Some(""), Some(b)) == 0.5 && LocationFactor(Some(a), Some("")) == 0.5
  {
    StripPadded(front, a, back);
    StripPadded("", b, "");
    assert "" + b + "" == b;
    SameLettersIff(a, b);
  }

  /** The same text, up to the case of its letters. */
  predicate SameLetters(a: string, b: string) {
    |a| == |b| && forall i :: 0 <= i < |a| ==> SameLetter(a[i], b[i])
  }

  predicate SameLetter(x: char, y: char) {
    || x == y
    || ('A' <= x <= 'Z' && y as int == x as int + 32)
    || ('A' <= y <= 'Z' && x as int == y as int + 32)
  }

  lemma LowerLetter(x: char, y: char)
    ensures LowerChar(x) == LowerChar(y) <==> SameLetter(x, y)
  {
  }

  lemma {:induction false} LowerAt(text: string)
    ensures |Lower(text)| == |text| && forall i :: 0 <= i < |text| ==> Lower(text)[i] == LowerChar(text[i])
  {
    if text != "" {
      LowerAt(text[1..]);
      forall i | 0 <= i < |text| ensures Lower(text)[i] == LowerChar(text[i]) {
        if i > 0 {
          assert Lower(text)[i] == Lower(text[1..])[i - 1];
        }
      }
    }
  }

  lemma SameLettersIff(a: string, b: string)
    ensures Lower(a) == Lower(b) <==> SameLetters(a, b)
  {
    LowerAt(a);
    LowerAt(b);
    forall i | 0 <= i < |a| && i < |b| ensures Lower(a)[i] == Lower(b)[i] <==> SameLetter(a[i], b[i]) {
      LowerLetter(a[i], b[i]);
    }
    if SameLetters(a, b) {
      assert Lower(a) == Lower(b);
    }
  }

  lemma {:induction false} StripPadded(front: string, a: string, back: string)
    requires (forall i :: 0 <= i < |front| ==> Blank(front[i])) && forall i :: 0 <= i < |back| ==> Blank(back[i])
    requires a != "" && !Blank(a[0]) && !Blank(a[|a| - 1])
    ensures Strip(front + a + back) == a
    decreases |front| + |back|
  {
    var text := front + a + back;
    if front != "" {
      assert text[1..] == front[1..] + a + back;
      StripPadded(front[1..], a, back);
    } else if back != "" {
      assert text == a + back && text[..|text| - 1] == a + back[..|back| - 1];
      assert text[0] == a[0];
      StripPadded("", a, back[..|back| - 1]);
      assert "" + a + back[..|back| - 1] == a + back[..|back| - 1];
    } else {
      assert text == a;
    }
  }

  // ----- Articles -----

  /** Two articles with the same title and description, with a token kept, published within a day
      and without a location, score exactly 0.925. */
  lemma SameTextScores(root: real -> real, a: Profile, b: Profile)
    requires IsRoot(root) && a.title == b.title && a.description == b.description && TokensOf(a) != {}
    requires a.publishedAt.Some? && b.publishedAt.Some? && (a.location.None? || b.location.None?)
    requires -86400.0 <= a.publishedAt.value - b.publishedAt.value <= 86400.0
    ensures ArticleSimilarity(root, a, b) == 0.925
  {
    var x, y := a.publishedAt.value, b.publishedAt.value;
    BagIs(a.title, a.description, "");
    SameBag(root, BagOf(a.title, a.description));
    TimeMeaning(x, y, if x >= y then x - y else y - x);
    MixOfSame();
  }

  /** At whatever times, they score at least 0.775. */
  lemma SameTextAtLeast(root: real -> real, a: Profile, b: Profile)
    requires IsRoot(root) && a.title == b.title && a.description == b.description && TokensOf(a) != {}
    requires a.location.None? || b.location.None?
    ensures 0.775 <= ArticleSimilarity(root, a, b) <= 0.925
  {
    BagIs(a.title, a.description, "");
    SameBag(root, BagOf(a.title, a.description));
    MixOfSameText(TimeFactor(a.publishedAt, b.publishedAt));
  }

  lemma MixOfSameText(time: real)
    requires 0.0 <= time <= 1.0
    ensures 0.775 <= Mix(1.0, time, 0.5) <= 0.925
  {
    RoundBounds(0.7 * 1.0 + 0.15 * time + 0.15 * 0.5, 7750, 9250);
  }

  lemma MixOfSame()
    ensures Mix(1.0, 1.0, 0.5) == 0.925
  {
    RoundBounds(0.7 * 1.0 + 0.15 * 1.0 + 0.15 * 0.5, 9250, 9250);
  }

  /** The mixture: seven tenths for the text and fifteen hundredths each for time and place, rounded
      to four decimals. */
  lemma MixIs(text: real, time: real, place: real) returns (k: int)
    ensures -0.00005 <= Mix(text, time, place) - (0.7 * text + 0.15 * time + 0.15 * place) <= 0.00005
    ensures Mix(text, time, place) == k as real / 10000.0
  {
    k := Round4Is(0.7 * text + 0.15 * time + 0.15 * place);
  }

  lemma Round4Is(x: real) returns (k: int)
    ensures -0.00005 <= Round4(x) - x <= 0.00005
    ensures Round4(x) == k as real / 10000.0
  {
    k := Nearest(x * 10000.0);
    NearestIsNear(x * 10000.0);
  }

  lemma NearestIsNear(x: real)
    ensures -0.5 <= Nearest(x) as real - x <= 0.5
  {
  }

  // ----- Tokens -----

  predicate IsWord(word: string) {
    word != "" && forall i :: 0 <= i < |word| ==> 'a' <= word[i] <= 'z' || '0' <= word[i] <= '9'
  }

  lemma {:induction false} WordsRun(word: string, rest: string, run: string)
    requires forall i :: 0 <= i < |word| ==> 'a' <= word[i] <= 'z' || '0' <= word[i] <= '9'
    ensures Words(word + rest, run) == Words(rest, run + word)
  {
    if word == "" {
      assert word + rest == rest && run + word == run;
    } else {
      assert (word + rest)[1..] == word[1..] + rest;
      WordsRun(word[1..], rest, run + [word[0]]);
      assert (run + [word[0]]) + word[1..] == run + word;
    }
  }

  lemma WordsHead(word: string, sep: char, rest: string)
    requires IsWord(word) && !('a' <= sep <= 'z' || '0' <= sep <= '9')
    ensures Words(word + [sep] + rest, "") == [word] + Words(rest, "")
  {
    var tail := [sep] + rest;
    assert word + [sep] + rest == word + tail && "" + word == word;
    WordsRun(word, tail, "");
    assert tail[1..] == rest;
  }

  lemma WordsAlone(word: string)
    requires IsWord(word)
    ensures Words(word, "") == [word]
  {
    assert word + "" == word && "" + word == word;
    WordsRun(word, "", "");
  }

  /** Words of lower-case letters and digits, set apart by any other character, are found again. */
  lemma {:induction false} WordsOfJoined(words: seq<string>, sep: char)
    requires (forall i :: 0 <= i < |words| ==> IsWord(words[i])) && !('a' <= sep <= 'z' || '0' <= sep <= '9')
    ensures Words(JoinWith(words, sep), "") == words
  {
    if |words| == 1 {
      WordsAlone(words[0]);
    } else if words != [] {
      WordsHead(words[0], sep, JoinWith(words[1..], sep));
      WordsOfJoined(words[1..], sep);
    }
  }

  /** Words of one character and stop words are dropped, the others counted. */
  lemma {:induction false} KeptCount(words: seq<string>, t: string)
    ensures KeptTokens(words)[t] == if |t| > 1 && t !in STOPWORDS then multiset(words)[t] else 0
  {
    if words == [] {
    } else {
      assert words == [words[0]] + words[1..];
      KeptCount(words[1..], t);
    }
  }
}
