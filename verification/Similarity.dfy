/** app/event_engine/similarity.py: the deterministic similarity of two articles, in exact real
    arithmetic.  The square root is a parameter, known only by its defining property. */
module Similarity {
  import opened Wrappers

  // ----- Tokens -----

  const STOPWORDS: set<string> := {
    "yang", "di", "ke", "dari", "dan", "atau", "pada", "akan", "untuk",
    "dengan", "ini", "itu", "sebagai", "pasca", "setelah", "sebelum",
    "juga", "serta", "dalam", "oleh", "para", "suatu", "adalah", "telah",
    "saat", "warga", "sejumlah", "kepada", "bisa", "dapat", "sudah",
    "masih", "sampai", "hanya", "agar",
    "the", "a", "an", "of", "and", "or", "in", "on", "at", "to", "for",
    "with", "after", "before", "from", "that", "this", "they", "will"
  }

  function LowerChar(c: char): char {
    if 'A' <= c <= 'Z' then ((c as int) - ('A' as int) + ('a' as int)) as char else c
  }

  function Lower(text: string): string {
    if text == "" then "" else [LowerChar(text[0])] + Lower(text[1..])
  }

  predicate WordChar(c: char) {
    'a' <= c <= 'z' || '0' <= c <= '9'
  }

  /** The maximal runs of word characters; `run` is the one being collected. */
  function Words(text: string, run: string): seq<string>
    decreases |text|
  {
    if text == "" then if run == "" then [] else [run]
    else if WordChar(text[0]) then Words(text[1..], run + [text[0]])
    else (if run == "" then [] else [run]) + Words(text[1..], "")
  }

  function KeptTokens(words: seq<string>): multiset<string> {
    if words == [] then multiset{}
    else (if |words[0]| > 1 && words[0] !in STOPWORDS then multiset{words[0]} else multiset{}) + KeptTokens(words[1..])
  }

  function Tokenize(text: Option<string>): multiset<string> {
    match text
    case None => multiset{}
    case Some(t) => KeptTokens(Words(Lower(t), ""))
  }

  // ----- Weighted bags -----

  type Bag = map<string, real>

  function Weight(a: Bag, t: string): real {
    if t in a then a[t] else 0.0
  }

  /** `_tf`: term frequencies that add up to `weight`. */
  function Tf(counter: multiset<string>, weight: real): Bag {
    var total := if |counter| == 0 then 1 else |counter|;
    map t | t in counter :: counter[t] as real / total as real * weight
  }

  /** `_bag`: the title counts twice as much as the description. */
  function BagOf(title: Option<string>, description: Option<string>): Bag {
    var a, b := Tf(Tokenize(title), 2.0), Tf(Tokenize(description), 1.0);
    map t | t in a.Keys + b.Keys :: Weight(a, t) + Weight(b, t)
  }

  ghost predicate NonNegative(a: Bag) {
    forall t :: t in a ==> a[t] >= 0.0
  }

  ghost function Sum(f: string -> real, keys: set<string>): real {
    if keys == {} then 0.0
    else
      var t :| t in keys;
      f(t) + Sum(f, keys - {t})
  }

  function Products(a: Bag, b: Bag): string -> real {
    t => Weight(a, t) * Weight(b, t)
  }

  function Weights(a: Bag): string -> real {
    t => Weight(a, t)
  }

  /** The sum of the products of the weights over the tokens `keys`. */
  ghost function Dot(a: Bag, b: Bag, keys: set<string>): real {
    Sum(Products(a, b), keys)
  }

  ghost function Mass(a: Bag): real {
    Sum(Weights(a), a.Keys)
  }

  /** What `** 0.5` is trusted to be. */
  ghost predicate IsRoot(root: real -> real) {
    forall x: real :: x >= 0.0 ==> root(x) >= 0.0 && root(x) * root(x) == x
  }

  ghost function Norm(root: real -> real, a: Bag): real {
    root(Dot(a, a, a.Keys))
  }

  /** `cosine`. */
  ghost function Cosine(root: real -> real, a: Bag, b: Bag): real {
    if a == map[] || b == map[] then 0.0
    else if Norm(root, a) == 0.0 || Norm(root, b) == 0.0 then 0.0
    else Ratio(Dot(a, b, a.Keys * b.Keys), Norm(root, a), Norm(root, b))
  }

  ghost function Ratio(d: real, m: real, n: real): real
    requires m != 0.0 && n != 0.0
  {
    NonZeroProduct(m, n);
    d / (m * n)
  }

  // ----- Sums -----

  /** The order of summation does not matter: any token may be taken out first. */
  lemma {:induction false} SumRemove(f: string -> real, keys: set<string>, t: string)
    requires t in keys
    ensures Sum(f, keys) == f(t) + Sum(f, keys - {t})
    decreases keys
  {
    var u :| u in keys && Sum(f, keys) == f(u) + Sum(f, keys - {u});
    if u != t {
      SumRemove(f, keys - {u}, t);
      SumRemove(f, keys - {t}, u);
      assert keys - {u} - {t} == keys - {t} - {u};
    }
  }

  lemma DotRemove(a: Bag, b: Bag, keys: set<string>, t: string)
    requires t in keys
    ensures Dot(a, b, keys) == Products(a, b)(t) + Dot(a, b, keys - {t})
  {
    SumRemove(Products(a, b), keys, t);
  }

  lemma ProductAt(a: Bag, b: Bag, t: string, x: real, y: real)
    requires x == Weight(a, t) && y == Weight(b, t)
    ensures Products(a, b)(t) == x * y
  {
  }

  lemma {:induction false} DotSymmetric(a: Bag, b: Bag, keys: set<string>)
    ensures Dot(a, b, keys) == Dot(b, a, keys)
    decreases keys
  {
    if keys == {} {
    } else {
      var t :| t in keys;
      DotRemove(a, b, keys, t);
      DotRemove(b, a, keys, t);
      DotSymmetric(a, b, keys - {t});
      ProductAt(a, b, t, Weight(a, t), Weight(b, t));
      ProductAt(b, a, t, Weight(b, t), Weight(a, t));
    }
  }

  lemma {:induction false} DotNonNegative(a: Bag, b: Bag, keys: set<string>)
    requires NonNegative(a) && NonNegative(b)
    ensures Dot(a, b, keys) >= 0.0
    decreases keys
  {
    if keys == {} {
    } else {
      var t :| t in keys;
      DotRemove(a, b, keys, t);
      DotNonNegative(a, b, keys - {t});
      ProductAt(a, b, t, Weight(a, t), Weight(b, t));
      ProductNonNegative(Weight(a, t), Weight(b, t));
    }
  }

  /** A sum of squares over fewer tokens is no larger. */
  lemma {:induction false} SquaresGrow(a: Bag, keys: set<string>, more: set<string>)
    requires keys <= more
    ensures 0.0 <= Dot(a, a, keys) <= Dot(a, a, more)
    decreases more
  {
    if more == {} {
      assert keys == {};
    } else {
      var t :| t in more;
      DotRemove(a, a, more, t);
      ProductAt(a, a, t, Weight(a, t), Weight(a, t));
      SquareNonNegative(Weight(a, t));
      if t in keys {
        DotRemove(a, a, keys, t);
      }
      SquaresGrow(a, keys - {t}, more - {t});
      assert t !in keys ==> keys - {t} == keys;
    }
  }

  lemma SquareNonNegative(x: real)
    ensures x * x >= 0.0
  {
  }

  lemma ProductNonNegative(x: real, y: real)
    requires x >= 0.0 && y >= 0.0
    ensures x * y >= 0.0
  {
  }

  /** The step of Cauchy-Schwarz: one more pair of weights. */
  lemma CauchyStep(d: real, p: real, q: real, x: real, y: real)
    requires p >= 0.0 && q >= 0.0 && d * d <= p * q
    ensures (d + x * y) * (d + x * y) <= (p + x * x) * (q + y * y)
  {
    // It suffices that p*y*y + q*x*x - 2*d*x*y is not negative.
    var cross := p * (y * y) + q * (x * x) - 2.0 * d * (x * y);
    assert (p + x * x) * (q + y * y) - (d + x * y) * (d + x * y) == (p * q - d * d) + cross by {
      Expand(d, p, q, x, y);
    }
    if p == 0.0 {
      SquareNonNegative(d);
      assert d * d == 0.0;
      ZeroFactor(d, d);
      SquareNonNegative(x);
      ProductNonNegative(q, x * x);
      assert 2.0 * d * (x * y) == 0.0;
    } else {
      SquareNonNegative(p * y - d * x);
      SquareNonNegative(x);
      ProductNonNegative(x * x, p * q - d * d);
      Complete(d, p, q, x, y);
      PositiveQuotient(p, cross);
    }
  }

  lemma Expand(d: real, p: real, q: real, x: real, y: real)
    ensures (p + x * x) * (q + y * y) - (d + x * y) * (d + x * y)
         == (p * q - d * d) + (p * (y * y) + q * (x * x) - 2.0 * d * (x * y))
  {
    assert (p + x * x) * (q + y * y) == p * q + p * (y * y) + (x * x) * q + (x * x) * (y * y);
    assert (d + x * y) * (d + x * y) == d * d + 2.0 * d * (x * y) + (x * y) * (x * y);
    assert (x * x) * (y * y) == (x * y) * (x * y);
  }

  lemma Complete(d: real, p: real, q: real, x: real, y: real)
    ensures p * (p * (y * y) + q * (x * x) - 2.0 * d * (x * y))
         == (p * y - d * x) * (p * y - d * x) + (x * x) * (p * q - d * d)
  {
    assert (p * y - d * x) * (p * y - d * x) == (p * y) * (p * y) - 2.0 * ((p * y) * (d * x)) + (d * x) * (d * x);
    assert (p * y) * (p * y) == p * (p * (y * y));
    assert (p * y) * (d * x) == p * (d * (x * y));
    assert (d * x) * (d * x) == (x * x) * (d * d);
    assert (x * x) * (p * q - d * d) == p * (q * (x * x)) - (x * x) * (d * d);
  }

  lemma PositiveQuotient(p: real, c: real)
    requires p > 0.0 && p * c >= 0.0
    ensures c >= 0.0
  {
  }

  lemma ZeroFactor(x: real, y: real)
    requires x * y == 0.0
    ensures x == 0.0 || y == 0.0
  {
    if x != 0.0 {
      assert x * y / x == y;
    }
  }

  /** The inequality, for three sums. */
  ghost predicate Squared(d: real, p: real, q: real) {
    p >= 0.0 && q >= 0.0 && d * d <= p * q
  }

  /** The step, for the products at one more token. */
  lemma CauchyAt(a: Bag, b: Bag, t: string, d: real, p: real, q: real)
    requires Squared(d, p, q)
    ensures Squared(Products(a, b)(t) + d, Products(a, a)(t) + p, Products(b, b)(t) + q)
  {
    var x, y := Weight(a, t), Weight(b, t);
    ProductAt(a, b, t, x, y);
    ProductAt(a, a, t, x, x);
    ProductAt(b, b, t, y, y);
    CauchyLift(d, p, q, x, y, Products(a, b)(t) + d, Products(a, a)(t) + p, Products(b, b)(t) + q);
  }

  lemma CauchyLift(d: real, p: real, q: real, x: real, y: real, d': real, p': real, q': real)
    requires Squared(d, p, q) && d' == x * y + d && p' == x * x + p && q' == y * y + q
    ensures Squared(d', p', q')
  {
    CauchyStep(d, p, q, x, y);
    SquareNonNegative(x);
    SquareNonNegative(y);
    assert d' == d + x * y && p' == p + x * x && q' == q + y * y;
  }

  lemma {:induction false} SquaredDots(a: Bag, b: Bag, keys: set<string>)
    ensures Squared(Dot(a, b, keys), Dot(a, a, keys), Dot(b, b, keys))
    decreases keys
  {
    if keys == {} {
    } else {
      var t :| t in keys;
      var rest := keys - {t};
      DotRemove(a, b, keys, t);
      DotRemove(a, a, keys, t);
      DotRemove(b, b, keys, t);
      SquaredDots(a, b, rest);
      CauchyAt(a, b, t, Dot(a, b, rest), Dot(a, a, rest), Dot(b, b, rest));
    }
  }

  /** The Cauchy-Schwarz inequality for weighted bags. */
  lemma CauchySchwarz(a: Bag, b: Bag, keys: set<string>)
    ensures Dot(a, b, keys) * Dot(a, b, keys) <= Dot(a, a, keys) * Dot(b, b, keys)
  {
    SquaredDots(a, b, keys);
  }

  lemma OrderOfSquares(x: real, y: real)
    requires y >= 0.0 && x * x <= y * y
    ensures x <= y
  {
    assert (x - y) * (x + y) == x * x - y * y;
    if x > y {
      ProductPositive(x - y, x + y);
    }
  }

  lemma ProductsGrow(x: real, y: real, x': real, y': real)
    requires 0.0 <= x <= x' && 0.0 <= y <= y'
    ensures x * y <= x' * y'
  {
    ProductNonNegative(x' - x, y);
    ProductNonNegative(x', y' - y);
    assert x' * y' - x * y == (x' - x) * y + x' * (y' - y);
  }

  // ----- Cosine -----

  lemma CosineSymmetric(root: real -> real, a: Bag, b: Bag)
    ensures Cosine(root, a, b) == Cosine(root, b, a)
  {
    assert a.Keys * b.Keys == b.Keys * a.Keys;
    DotSymmetric(a, b, a.Keys * b.Keys);
  }

  lemma QuotientRange(d: real, m: real)
    requires 0.0 <= d <= m && m > 0.0
    ensures 0.0 <= d / m <= 1.0
  {
  }

  /** Cosine similarity of non-negative bags lies between 0 and 1. */
  lemma CosineRange(root: real -> real, a: Bag, b: Bag)
    requires IsRoot(root) && NonNegative(a) && NonNegative(b)
    ensures 0.0 <= Cosine(root, a, b) <= 1.0
  {
    var m, n := Norm(root, a), Norm(root, b);
    NormSquare(root, a);
    NormSquare(root, b);
    DotSquared(a, b);
    if a != map[] && b != map[] && m != 0.0 && n != 0.0 {
      DotBounded(Dot(a, b, a.Keys * b.Keys), Dot(a, a, a.Keys), Dot(b, b, b.Keys), m, n);
    }
  }

  /** The inequality over the common tokens, with the squares taken over all tokens. */
  lemma DotSquared(a: Bag, b: Bag)
    requires NonNegative(a) && NonNegative(b)
    ensures var d := Dot(a, b, a.Keys * b.Keys); d >= 0.0 && d * d <= Dot(a, a, a.Keys) * Dot(b, b, b.Keys)
  {
    var keys := a.Keys * b.Keys;
    SquaresGrow(a, keys, a.Keys);
    SquaresGrow(b, keys, b.Keys);
    CauchySchwarz(a, b, keys);
    ProductsGrow(Dot(a, a, keys), Dot(b, b, keys), Dot(a, a, a.Keys), Dot(b, b, b.Keys));
    DotNonNegative(a, b, keys);
  }

  lemma NormSquare(root: real -> real, a: Bag)
    requires IsRoot(root)
    ensures Norm(root, a) >= 0.0 && Norm(root, a) * Norm(root, a) == Dot(a, a, a.Keys)
  {
    SquaresGrow(a, {}, a.Keys);
  }

  lemma DotBounded(d: real, p: real, q: real, m: real, n: real)
    requires d >= 0.0 && d * d <= p * q && m > 0.0 && n > 0.0 && m * m == p && n * n == q
    ensures 0.0 <= Ratio(d, m, n) <= 1.0
  {
    assert (m * n) * (m * n) == (m * m) * (n * n);
    ProductPositive(m, n);
    OrderOfSquares(d, m * n);
    QuotientRange(d, m * n);
  }

  lemma ProductPositive(x: real, y: real)
    requires x > 0.0 && y > 0.0
    ensures x * y > 0.0
  {
  }

  /** Bags without a common token have similarity zero. */
  lemma {:induction false} CosineDisjoint(root: real -> real, a: Bag, b: Bag)
    requires a.Keys !! b.Keys
    ensures Cosine(root, a, b) == 0.0
  {
    assert a.Keys * b.Keys == {};
    assert Dot(a, b, {}) == 0.0;
    if Norm(root, a) != 0.0 && Norm(root, b) != 0.0 {
      NonZeroProduct(Norm(root, a), Norm(root, b));
      assert Ratio(0.0, Norm(root, a), Norm(root, b)) == 0.0;
    }
  }

  lemma NonZeroProduct(x: real, y: real)
    requires x != 0.0 && y != 0.0
    ensures x * y != 0.0 && 0.0 / (x * y) == 0.0
  {
  }

  // ----- Term frequencies -----

  lemma TfNonNegative(counter: multiset<string>, weight: real)
    requires weight >= 0.0
    ensures NonNegative(Tf(counter, weight))
  {
    var total := if |counter| == 0 then 1 else |counter|;
    forall t | t in counter ensures Tf(counter, weight)[t] >= 0.0 {
      ShareNonNegative(counter[t], total, weight);
    }
  }

  lemma ShareNonNegative(count: nat, total: int, weight: real)
    requires total >= 1 && weight >= 0.0
    ensures count as real / total as real * weight >= 0.0
  {
    var share := count as real / total as real;
    assert share >= 0.0;
    ProductNonNegative(share, weight);
  }

  lemma BagNonNegative(title: Option<string>, description: Option<string>)
    ensures NonNegative(BagOf(title, description))
  {
    TfNonNegative(Tokenize(title), 2.0);
    TfNonNegative(Tokenize(description), 1.0);
  }

  function Counts(counter: multiset<string>): string -> real {
    t => counter[t] as real
  }

  /** Counting a multiset token by token gives its size. */
  lemma {:induction false} SumCounts(counter: multiset<string>, keys: set<string>)
    requires forall t :: t in counter ==> t in keys
    ensures Sum(Counts(counter), keys) == |counter| as real
    decreases keys
  {
    if keys == {} {
      assert counter == multiset{};
    } else {
      var t :| t in keys;
      var rest := counter[t := 0];
      SumRemove(Counts(counter), keys, t);
      SumCounts(rest, keys - {t});
      SumSame(Counts(counter), Counts(rest), keys - {t});
      assert |counter| == counter[t] + |rest|;
    }
  }

  lemma {:induction false} SumSame(f: string -> real, g: string -> real, keys: set<string>)
    requires forall t :: t in keys ==> f(t) == g(t)
    ensures Sum(f, keys) == Sum(g, keys)
    decreases keys
  {
    if keys == {} {
    } else {
      var t :| t in keys;
      SumRemove(f, keys, t);
      SumRemove(g, keys, t);
      SumSame(f, g, keys - {t});
    }
  }

  ghost predicate Additive(share: real -> real) {
    share(0.0) == 0.0 && forall x: real, y: real :: share(x) + share(y) == share(x + y)
  }

  lemma {:induction false} SumScaled(f: string -> real, g: string -> real, share: real -> real, keys: set<string>)
    requires Additive(share) && forall t :: t in keys ==> f(t) == share(g(t))
    ensures Sum(f, keys) == share(Sum(g, keys))
    decreases keys
  {
    if keys == {} {
    } else {
      var t :| t in keys;
      SumRemove(f, keys, t);
      SumRemove(g, keys, t);
      SumScaled(f, g, share, keys - {t});
      assert share(g(t)) + share(Sum(g, keys - {t})) == share(g(t) + Sum(g, keys - {t}));
    }
  }

  function ShareOf(total: real, weight: real): real -> real
    requires total > 0.0
  {
    x => x / total * weight
  }

  lemma SharesAdd(total: real, weight: real)
    requires total > 0.0
    ensures Additive(ShareOf(total, weight))
  {
    NoShare(total, weight);
    var share := ShareOf(total, weight);
    forall x: real, y: real ensures share(x) + share(y) == share(x + y) {
      TwoShares(total, weight, x, y);
    }
  }

  lemma TwoShares(total: real, weight: real, x: real, y: real)
    requires total > 0.0
    ensures var share := ShareOf(total, weight); share(x) + share(y) == share(x + y)
  {
    AddShares(x, y, total, weight);
  }

  lemma WeightIsShare(counter: multiset<string>, weight: real, t: string)
    requires t in counter && |counter| > 0
    ensures Weights(Tf(counter, weight))(t) == ShareOf(|counter| as real, weight)(Counts(counter)(t))
  {
  }

  lemma NoShare(total: real, weight: real)
    requires total > 0.0
    ensures 0.0 / total * weight == 0.0
  {
  }

  lemma AddShares(x: real, y: real, total: real, weight: real)
    requires total > 0.0
    ensures x / total * weight + y / total * weight == (x + y) / total * weight
  {
    assert x / total + y / total == (x + y) / total;
  }

  lemma MassIsShare(counter: multiset<string>, weight: real)
    requires |counter| > 0
    ensures Mass(Tf(counter, weight)) == ShareOf(|counter| as real, weight)(|counter| as real)
  {
    var keys, share := Tf(counter, weight).Keys, ShareOf(|counter| as real, weight);
    SumCounts(counter, keys);
    SharesAdd(|counter| as real, weight);
    forall t | t in keys ensures Weights(Tf(counter, weight))(t) == share(Counts(counter)(t)) {
      WeightIsShare(counter, weight, t);
    }
    SumScaled(Weights(Tf(counter, weight)), Counts(counter), share, keys);
  }

  lemma WholeShare(total: real, weight: real)
    requires total > 0.0
    ensures ShareOf(total, weight)(total) == weight
  {
    assert total / total == 1.0;
  }

  /** The frequencies of a text with any kept token add up to exactly their weight, those of a
      text without one to zero. */
  lemma {:induction false} TfMass(counter: multiset<string>, weight: real)
    ensures Mass(Tf(counter, weight)) == if counter == multiset{} then 0.0 else weight
  {
    if counter == multiset{} {
      assert Tf(counter, weight).Keys == {};
    } else {
      assert |counter| > 0;
      MassIsShare(counter, weight);
      WholeShare(|counter| as real, weight);
    }
  }

  // ----- Time, place and the whole -----

  /** `_time_factor`; instants in seconds. */
  function TimeFactor(a: Option<real>, b: Option<real>): (f: real)
    ensures 0.0 <= f <= 1.0
  {
    if a.None? || b.None? then 0.0
    else
      var distance := if a.value >= b.value then a.value - b.value else b.value - a.value;
      var hours := distance / 3600.0;
      if hours <= 24.0 then 1.0
      else if hours >= 168.0 then 0.0
      else 1.0 - (hours - 24.0) / 144.0
  }

  predicate Blank(c: char) {
    c in {' ', '\t', '\n', '\r'}
  }

  function Strip(text: string): string {
    if text == "" then ""
    else if Blank(text[0]) then Strip(text[1..])
    else if Blank(text[|text| - 1]) then Strip(text[..|text| - 1])
    else text
  }

  function LocationFactor(a: Option<string>, b: Option<string>): real {
    if a.None? || a.value == "" || b.None? || b.value == "" then 0.5
    else if Lower(Strip(a.value)) == Lower(Strip(b.value)) then 1.0
    else 0.0
  }

  /** `round(x, 4)`, halves to even. */
  function Round4(x: real): real {
    Nearest(x * 10000.0) as real / 10000.0
  }

  datatype Profile = Profile(title: Option<string>, description: Option<string>, publishedAt: Option<real>,
                             location: Option<string>)

  ghost function TextSimilarity(root: real -> real, a: Profile, b: Profile): real {
    Cosine(root, BagOf(a.title, a.description), BagOf(b.title, b.description))
  }

  /** `article_similarity`. */
  ghost function ArticleSimilarity(root: real -> real, a: Profile, b: Profile): real {
    Mix(TextSimilarity(root, a, b), TimeFactor(a.publishedAt, b.publishedAt), LocationFactor(a.location, b.location))
  }

  function Mix(text: real, time: real, place: real): real {
    Round4(0.7 * text + 0.15 * time + 0.15 * place)
  }

  lemma {:induction false} RoundBounds(x: real, lo: int, hi: int)
    requires lo as real / 10000.0 <= x <= hi as real / 10000.0
    ensures lo as real / 10000.0 <= Round4(x) <= hi as real / 10000.0
  {
    NearestMonotone(lo as real, x * 10000.0);
    NearestMonotone(x * 10000.0, hi as real);
    assert Nearest(lo as real) == lo && Nearest(hi as real) == hi;
  }

  lemma TimeSymmetric(a: Option<real>, b: Option<real>)
    ensures TimeFactor(a, b) == TimeFactor(b, a)
  {
  }

  lemma {:induction false} PlaceSymmetric(a: Option<string>, b: Option<string>)
    ensures LocationFactor(a, b) == LocationFactor(b, a)
  {
  }

  /** The similarity of two articles does not depend on their order. */
  lemma {:induction false} SimilaritySymmetric(root: real -> real, a: Profile, b: Profile)
    ensures ArticleSimilarity(root, a, b) == ArticleSimilarity(root, b, a)
  {
    CosineSymmetric(root, BagOf(a.title, a.description), BagOf(b.title, b.description));
    TimeSymmetric(a.publishedAt, b.publishedAt);
    PlaceSymmetric(a.location, b.location);
    var x, y := TextSimilarity(root, a, b), TextSimilarity(root, b, a);
    assert x == y;
  }

  lemma {:induction false} TextRange(root: real -> real, a: Profile, b: Profile)
    requires IsRoot(root)
    ensures 0.0 <= TextSimilarity(root, a, b) <= 1.0
  {
    BagNonNegative(a.title, a.description);
    BagNonNegative(b.title, b.description);
    CosineRange(root, BagOf(a.title, a.description), BagOf(b.title, b.description));
  }

  /** The similarity lies between 0 and 1, and without a location on either side, as in
      clustering, between 0.075 and 0.925. */
  lemma {:induction false} SimilarityRange(root: real -> real, a: Profile, b: Profile)
    requires IsRoot(root)
    ensures 0.0 <= ArticleSimilarity(root, a, b) <= 1.0
    ensures a.location.None? || b.location.None? ==> 0.075 <= ArticleSimilarity(root, a, b) <= 0.925
  {
    TextRange(root, a, b);
    var text, time, place :=
      TextSimilarity(root, a, b), TimeFactor(a.publishedAt, b.publishedAt), LocationFactor(a.location, b.location);
    MixRange(text, time, place);
  }

  lemma MixRange(text: real, time: real, place: real)
    requires 0.0 <= text <= 1.0 && 0.0 <= time <= 1.0 && 0.0 <= place <= 1.0
    ensures 0.0 <= Mix(text, time, place) <= 1.0
    ensures place == 0.5 ==> 0.075 <= Mix(text, time, place) <= 0.925
  {
    var x := 0.7 * text + 0.15 * time + 0.15 * place;
    RoundBounds(x, 0, 10000);
    if place == 0.5 {
      RoundBounds(x, 750, 9250);
    }
  }

  /** The tokens an article is compared by. */
  function TokensOf(a: Profile): set<string> {
    BagOf(a.title, a.description).Keys
  }

  /** Articles without a location that share no token are at most 0.225 similar. */
  lemma {:induction false} NoSharedToken(root: real -> real, a: Profile, b: Profile)
    requires TokensOf(a) !! TokensOf(b) && (a.location.None? || b.location.None?)
    ensures ArticleSimilarity(root, a, b) <= 0.225
  {
    CosineDisjoint(root, BagOf(a.title, a.description), BagOf(b.title, b.description));
    var time := TimeFactor(a.publishedAt, b.publishedAt);
    MixWithoutText(time);
  }

  lemma MixWithoutText(time: real)
    requires 0.0 <= time <= 1.0
    ensures Mix(0.0, time, 0.5) <= 0.225
  {
    RoundBounds(0.7 * 0.0 + 0.15 * time + 0.15 * 0.5, 0, 2250);
  }
}
