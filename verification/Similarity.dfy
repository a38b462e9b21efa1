/**
 Cosine similarity of n-gram counters and the thresholded best match
 (scripts/import_mcu_planning_weights.py). The square root is a parameter; what is assumed of it is IsRoot.
 */
module Similarity {
  import opened Wrappers

  type Counter = map<string, nat>

  function Get(c: Counter, k: string): nat { if k in c then c[k] else 0 }

  // ---------- Sums over sets of keys ----------

  ghost function Sum(keys: set<string>, f: string -> int): int {
    if keys == {} then 0
    else
      var k :| k in keys;
      f(k) + Sum(keys - {k}, f)
  }

  lemma {:induction false} SumRemove(keys: set<string>, f: string -> int, x: string)
    requires x in keys
    ensures Sum(keys, f) == f(x) + Sum(keys - {x}, f)
    decreases |keys|
  {
    var k :| k in keys && Sum(keys, f) == f(k) + Sum(keys - {k}, f);
    if k != x {
      SumRemove(keys - {k}, f, x);
      SumRemove(keys - {x}, f, k);
      assert keys - {k} - {x} == keys - {x} - {k};
    }
  }

  lemma {:induction false} SumLinear(keys: set<string>, f: string -> int, g: string -> int, h: string -> int, p: int, q: int)
    requires forall k :: k in keys ==> h(k) == p * f(k) + q * g(k)
    ensures Sum(keys, h) == p * Sum(keys, f) + q * Sum(keys, g)
  {
    if keys != {} {
      var x :| x in keys;
      SumRemove(keys, f, x);
      SumRemove(keys, g, x);
      SumRemove(keys, h, x);
      var rest := keys - {x};
      SumLinear(rest, f, g, h, p, q);
      Distribute(p, f(x), Sum(rest, f));
      Distribute(q, g(x), Sum(rest, g));
    }
  }

  lemma {:induction false} Distribute(p: int, x: int, y: int)
    ensures p * (x + y) == p * x + p * y
  {
  }

  lemma {:induction false} SumSupport(keys: set<string>, support: set<string>, f: string -> int)
    requires support <= keys && forall k :: k in keys && k !in support ==> f(k) == 0
    ensures Sum(keys, f) == Sum(support, f)
    decreases |keys|
  {
    if keys != support {
      var x :| x in keys && x !in support;
      SumRemove(keys, f, x);
      SumSupport(keys - {x}, support, f);
    }
  }

  /** A sum of squares is zero only when every term is. */
  lemma {:induction false} SumNonNegative(keys: set<string>, f: string -> int)
    requires forall k :: k in keys ==> f(k) >= 0
    ensures Sum(keys, f) >= 0
    ensures Sum(keys, f) == 0 <==> forall k :: k in keys ==> f(k) == 0
  {
    if keys != {} {
      var x :| x in keys;
      SumRemove(keys, f, x);
      SumNonNegative(keys - {x}, f);
      assert forall k :: k in keys <==> k == x || k in keys - {x};
    }
  }

  // ---------- Products of counters ----------

  ghost function Dot(a: Counter, b: Counter): int {
    Sum(a.Keys * b.Keys, (k: string) => Get(a, k) * Get(b, k))
  }

  ghost function Norm(a: Counter): int { Dot(a, a) }

  /** The square of the cosine. */
  ghost function Score(a: Counter, b: Counter): real {
    if a == map[] || b == map[] || Norm(a) == 0 || Norm(b) == 0 then 0.0
    else (Dot(a, b) * Dot(a, b)) as real / (Norm(a) * Norm(b)) as real
  }

  lemma {:induction false} DotOver(a: Counter, b: Counter, keys: set<string>)
    requires a.Keys * b.Keys <= keys
    ensures Dot(a, b) == Sum(keys, (k: string) => Get(a, k) * Get(b, k))
  {
    SumSupport(keys, a.Keys * b.Keys, (k: string) => Get(a, k) * Get(b, k));
  }

  lemma {:induction false} DotSymmetric(a: Counter, b: Counter)
    ensures Dot(a, b) == Dot(b, a)
  {
    var f, g := (k: string) => Get(a, k) * Get(b, k), (k: string) => Get(b, k) * Get(a, k);
    assert a.Keys * b.Keys == b.Keys * a.Keys;
    SumLinear(a.Keys * b.Keys, f, f, g, 1, 0);
  }

  lemma {:induction false} NormPositive(a: Counter)
    ensures Norm(a) >= 0
    ensures Norm(a) == 0 <==> forall k :: k in a ==> a[k] == 0
  {
    var f := (k: string) => Get(a, k) * Get(a, k);
    assert a.Keys * a.Keys == a.Keys;
    assert forall k :: k in a.Keys ==> f(k) >= 0 && (f(k) == 0 <==> a[k] == 0);
    SumNonNegative(a.Keys, f);
  }

  /** How far b is, at key k, from the multiple of a nearest to it. */
  ghost function Residue(a: Counter, b: Counter, k: string): int {
    Norm(a) * Get(b, k) - Dot(a, b) * Get(a, k)
  }

  lemma {:induction false} ResidueSum(a: Counter, b: Counter, p: int, q: int, d: int)
    requires forall k :: Residue(a, b, k) * Residue(a, b, k)
                         == p * (Get(b, k) * Get(b, k)) + q * (Get(a, k) * Get(b, k)) + d * (Get(a, k) * Get(a, k))
    ensures Sum(a.Keys + b.Keys, (k: string) => Residue(a, b, k) * Residue(a, b, k))
            == p * Norm(b) + q * Dot(a, b) + d * Norm(a)
  {
    var keys := a.Keys + b.Keys;
    var aa, bb, ab := (k: string) => Get(a, k) * Get(a, k), (k: string) => Get(b, k) * Get(b, k),
                      (k: string) => Get(a, k) * Get(b, k);
    var rr := (k: string) => Residue(a, b, k) * Residue(a, b, k);
    var part := (k: string) => p * bb(k) + q * ab(k);
    DotOver(a, a, keys);
    DotOver(b, b, keys);
    DotOver(a, b, keys);
    hide Dot, Norm, Sum, Residue, Get;
    SumLinear(keys, bb, ab, part, p, q);
    SumLinear(keys, part, aa, rr, 1, d);
  }

  /** The squared residues add up to |a|^2 (|a|^2 |b|^2 - (a.b)^2). */
  lemma {:induction false} ResidueIdentity(a: Counter, b: Counter)
    ensures Sum(a.Keys + b.Keys, (k: string) => Residue(a, b, k) * Residue(a, b, k))
            == Norm(a) * (Norm(a) * Norm(b) - Dot(a, b) * Dot(a, b))
  {
    hide *;
    var A, D := Norm(a), Dot(a, b);
    forall k
      ensures Residue(a, b, k) * Residue(a, b, k)
              == A * A * (Get(b, k) * Get(b, k)) + (-2 * A * D) * (Get(a, k) * Get(b, k)) + D * D * (Get(a, k) * Get(a, k))
    {
      ResidueTerm(a, b, k);
    }
    ResidueSum(a, b, A * A, -2 * A * D, D * D);
    Collect(A, Norm(b), D);
  }

  lemma {:induction false} ResidueTerm(a: Counter, b: Counter, k: string)
    ensures var A, D, x, y := Norm(a), Dot(a, b), Get(a, k), Get(b, k);
      Residue(a, b, k) * Residue(a, b, k) == A * A * (y * y) + (-2 * A * D) * (x * y) + D * D * (x * x)
  {
    hide Norm, Dot, Get;
    SquareOfDifference(Norm(a), Dot(a, b), Get(a, k), Get(b, k));
  }

  lemma {:induction false} SquareOfDifference(A: int, D: int, x: int, y: int)
    ensures (A * y - D * x) * (A * y - D * x) == A * A * (y * y) + (-2 * A * D) * (x * y) + D * D * (x * x)
  {
  }

  lemma {:induction false} Collect(A: int, B: int, D: int)
    ensures A * A * B + (-2 * A * D) * D + D * D * A == A * (A * B - D * D)
  {
  }

  ghost predicate Proportional(a: Counter, b: Counter) {
    forall j, k :: Get(a, j) * Get(b, k) == Get(a, k) * Get(b, j)
  }

  lemma {:induction false} NonZeroCauchySchwarz(a: Counter, b: Counter)
    requires Norm(a) > 0
    ensures Dot(a, b) * Dot(a, b) <= Norm(a) * Norm(b)
    ensures Dot(a, b) * Dot(a, b) == Norm(a) * Norm(b) <==> Proportional(a, b)
  {
    var keys := a.Keys + b.Keys;
    var A, gap := Norm(a), Norm(a) * Norm(b) - Dot(a, b) * Dot(a, b);
    var rr := (k: string) => Residue(a, b, k) * Residue(a, b, k);
    ResidueIdentity(a, b);
    forall k ensures rr(k) >= 0 && (rr(k) == 0 <==> Residue(a, b, k) == 0) { Square(Residue(a, b, k)); }
    ResidueOutside(a, b);
    hide Dot, Norm, Sum, Residue, Proportional;
    SumNonNegative(keys, rr);
    SignOfProduct(A, gap);
    ResiduesVanish(a, b);
    assert gap == 0 <==> forall k :: k in keys ==> Residue(a, b, k) == 0;
  }

  lemma {:induction false} ZeroCauchySchwarz(a: Counter, b: Counter)
    requires Norm(a) == 0
    ensures Dot(a, b) == 0 && Proportional(a, b)
  {
    NormPositive(a);
    var f := (k: string) => Get(a, k) * Get(b, k);
    assert forall k :: Get(a, k) == 0;
    SumNonNegative(a.Keys * b.Keys, f);
  }

  /** The Cauchy-Schwarz inequality for counters, and when it is an equality. */
  lemma {:induction false} CauchySchwarz(a: Counter, b: Counter)
    ensures Dot(a, b) * Dot(a, b) <= Norm(a) * Norm(b)
    ensures Dot(a, b) * Dot(a, b) == Norm(a) * Norm(b) <==> Proportional(a, b)
  {
    NormPositive(a);
    hide Dot, Norm, Proportional;
    if Norm(a) > 0 { NonZeroCauchySchwarz(a, b); } else { ZeroCauchySchwarz(a, b); }
  }

  lemma {:induction false} Square(x: int)
    ensures x * x >= 0 && (x * x == 0 <==> x == 0)
  {
  }

  lemma {:induction false} SignOfProduct(x: int, y: int)
    requires x > 0
    ensures (x * y >= 0 <==> y >= 0) && (x * y == 0 <==> y == 0)
  {
  }

  lemma {:induction false} ResidueOutside(a: Counter, b: Counter)
    ensures forall k :: k !in a.Keys + b.Keys ==> Residue(a, b, k) == 0
  {
    hide Dot, Norm;
  }

  lemma {:induction false} ResiduesVanish(a: Counter, b: Counter)
    requires Norm(a) > 0
    ensures (forall k :: Residue(a, b, k) == 0) <==> Proportional(a, b)
  {
    var A, D := Norm(a), Dot(a, b);
    if forall k :: Residue(a, b, k) == 0 {
      forall j, k ensures Get(a, j) * Get(b, k) == Get(a, k) * Get(b, j) {
        assert Residue(a, b, j) == 0 && Residue(a, b, k) == 0;
        Cancel(A, D, Get(a, j), Get(b, j), Get(a, k), Get(b, k));
      }
    }
    if Proportional(a, b) {
      forall k ensures Residue(a, b, k) == 0 { ProportionalResidue(a, b, k); }
    }
  }

  lemma {:induction false} Cancel(A: int, D: int, x: int, y: int, u: int, v: int)
    requires A > 0 && A * y == D * x && A * v == D * u
    ensures x * v == u * y
  {
    calc {
      A * (x * v);
      x * (A * v);
      x * (D * u);
      u * (D * x);
      u * (A * y);
      A * (u * y);
    }
    SignOfProduct(A, x * v - u * y);
    assert A * (x * v - u * y) == A * (x * v) - A * (u * y);
  }

  lemma {:induction false} ProportionalResidue(a: Counter, b: Counter, k: string)
    requires Proportional(a, b)
    ensures Residue(a, b, k) == 0
  {
    var keys := a.Keys + b.Keys;
    var x, y := Get(a, k), Get(b, k);
    var aa, ab := (j: string) => Get(a, j) * Get(a, j), (j: string) => Get(a, j) * Get(b, j);
    var ya := (j: string) => y * aa(j);
    DotOver(a, a, keys);
    DotOver(a, b, keys);
    hide Dot, Sum, Proportional;
    forall j | j in keys ensures ya(j) == x * ab(j) + 0 * ab(j) {
      Swap(a, b, j, k);
      Zero(ab(j));
    }
    forall j | j in keys ensures ya(j) == y * aa(j) + 0 * aa(j) { Zero(aa(j)); }
    SumLinear(keys, aa, aa, ya, y, 0);
    SumLinear(keys, ab, ab, ya, x, 0);
    Balance(Norm(a), Dot(a, b), x, y, Sum(keys, ya));
  }

  lemma {:induction false} Zero(x: int)
    ensures 0 * x == 0
  {
  }

  lemma {:induction false} Balance(A: int, D: int, x: int, y: int, s: int)
    requires s == y * A + 0 * A && s == x * D + 0 * D
    ensures A * y - D * x == 0
  {
  }

  lemma {:induction false} Swap(a: Counter, b: Counter, j: string, k: string)
    requires Proportional(a, b)
    ensures Get(b, k) * (Get(a, j) * Get(a, j)) == Get(a, k) * (Get(a, j) * Get(b, j))
  {
    assert Get(a, j) * Get(b, k) == Get(a, k) * Get(b, j);
    calc {
      Get(b, k) * (Get(a, j) * Get(a, j));
      (Get(a, j) * Get(b, k)) * Get(a, j);
      (Get(a, k) * Get(b, j)) * Get(a, j);
      Get(a, k) * (Get(a, j) * Get(b, j));
    }
  }

  lemma {:induction false} ScoreRange(a: Counter, b: Counter)
    ensures Score(a, b) == Score(b, a)
    ensures 0.0 <= Score(a, b) <= 1.0
    ensures Score(a, b) == 1.0 <==> Norm(a) > 0 && Norm(b) > 0 && Proportional(a, b)
  {
    DotSymmetric(a, b);
    NormPositive(a);
    NormPositive(b);
    if a != map[] && b != map[] && Norm(a) > 0 && Norm(b) > 0 {
      CauchySchwarz(a, b);
      Quotient(Dot(a, b) * Dot(a, b), Norm(a), Norm(b), Dot(a, b));
    }
  }

  // ---------- The cosine ----------

  type Root = real -> real

  /** The square root of the number that is not negative. */
  ghost predicate IsRoot(root: Root) { forall x: real :: x >= 0.0 ==> root(x) >= 0.0 && root(x) * root(x) == x }

  /** The cosine, as the code computes it from a dot product and two norms. */
  function CosineOf(root: Root, dot: int, normA: int, normB: int): real
    requires normA >= 0 && normB >= 0
  {
    var product := root(normA as real) * root(normB as real);
    if product == 0.0 then 0.0 else dot as real / product
  }

  ghost function Cosine(root: Root, a: Counter, b: Counter): real {
    if a == map[] || b == map[] || Norm(a) <= 0 || Norm(b) <= 0 then 0.0
    else CosineOf(root, Dot(a, b), Norm(a), Norm(b))
  }

  lemma {:induction false} DotNonNegative(a: Counter, b: Counter)
    ensures Dot(a, b) >= 0
  {
    SumNonNegative(a.Keys * b.Keys, (k: string) => Get(a, k) * Get(b, k));
  }

  lemma {:induction false} SquareOfReal(x: real)
    ensures x == 0.0 ==> x * x == 0.0
    ensures 0.0 <= x < 1.0 ==> x * x < 1.0
    ensures x > 1.0 ==> x * x > 1.0
  {
    if 0.0 < x < 1.0 { assert x * x < x; }
    if x > 1.0 { assert x * x > x; }
  }

  lemma {:induction false} RootPositive(root: Root, x: real)
    requires IsRoot(root) && x > 0.0
    ensures root(x) > 0.0 && root(x) * root(x) == x
  {
    SquareOfReal(root(x));
  }

  /** Squares of quotients, with p and q the roots of A and B. */
  lemma {:induction false} QuotientSquared(d: real, p: real, q: real, A: real, B: real)
    requires p > 0.0 && q > 0.0 && p * p == A && q * q == B
    ensures p * q > 0.0 && A * B > 0.0 && (d / (p * q)) * (d / (p * q)) == (d * d) / (A * B)
  {
    var n, x := p * q, d / (p * q);
    assert n > 0.0;
    assert x * n == d;
    assert n * n == A * B by { Interchange(p, q); }
    assert (x * x) * (n * n) == d * d by { Interchange(x, n); }
    assert n * n > 0.0;
    DivideBack(x * x, n * n, d * d);
  }

  lemma {:induction false} Interchange(p: real, q: real)
    ensures (p * q) * (p * q) == (p * p) * (q * q)
  {
  }

  lemma {:induction false} DivideBack(x: real, n: real, d: real)
    requires n > 0.0 && x * n == d
    ensures x == d / n
  {
  }

  /** The score is the square of the cosine, which is not negative. */
  lemma {:induction false} ScoreIsSquare(root: Root, a: Counter, b: Counter)
    requires IsRoot(root)
    ensures Cosine(root, a, b) >= 0.0 && Cosine(root, a, b) * Cosine(root, a, b) == Score(a, b)
  {
    NormPositive(a);
    NormPositive(b);
    DotNonNegative(a, b);
    if a != map[] && b != map[] && Norm(a) > 0 && Norm(b) > 0 {
      CosineSquared(root, Dot(a, b), Norm(a), Norm(b));
    }
  }

  lemma {:induction false} CosineSquared(root: Root, d: int, A: int, B: int)
    requires IsRoot(root) && d >= 0 && A > 0 && B > 0
    ensures var x := CosineOf(root, d, A, B); x >= 0.0 && A * B != 0 && x * x == (d * d) as real / (A * B) as real
  {
    RootPositive(root, A as real);
    RootPositive(root, B as real);
    hide IsRoot;
    var p, q := root(A as real), root(B as real);
    QuotientSquared(d as real, p, q, A as real, B as real);
    Products(d, A, B);
    NotNegative(d as real, p * q);
  }

  lemma {:induction false} Products(d: int, A: int, B: int)
    requires A > 0 && B > 0
    ensures (d * d) as real == d as real * d as real && (A * B) as real == A as real * B as real && A * B > 0
  {
  }

  lemma {:induction false} NotNegative(d: real, n: real)
    requires d >= 0.0 && n > 0.0
    ensures d / n >= 0.0
  {
  }

  lemma {:induction false} SquareToUnit(x: real, s: real)
    requires x >= 0.0 && x * x == s && s <= 1.0
    ensures x <= 1.0 && (x == 1.0 <==> s == 1.0)
  {
    SquareOfReal(x);
  }

  /** The similarity is symmetric, lies between 0 and 1, and is 1 exactly for counters that are multiples of each other. */
  lemma {:induction false} CosineRange(root: Root, a: Counter, b: Counter)
    requires IsRoot(root)
    ensures Cosine(root, a, b) == Cosine(root, b, a)
    ensures 0.0 <= Cosine(root, a, b) <= 1.0
    ensures Cosine(root, a, b) == 1.0 <==> Norm(a) > 0 && Norm(b) > 0 && Proportional(a, b)
  {
    DotSymmetric(a, b);
    ScoreIsSquare(root, a, b);
    ScoreRange(a, b);
    assert Cosine(root, a, b) == Cosine(root, b, a);
    hide Cosine, Score, Proportional;
    SquareToUnit(Cosine(root, a, b), Score(a, b));
  }

  lemma {:induction false} Quotient(dd: int, A: int, B: int, d: int)
    requires A > 0 && B > 0 && dd == d * d && dd <= A * B
    ensures A * B > 0 && A * B == B * A
    ensures 0.0 <= dd as real / (A * B) as real <= 1.0
    ensures dd as real / (A * B) as real == 1.0 <==> dd == A * B
  {
    Square(d);
    var n := A * B;
    assert n > 0;
    Ratio(dd as real, n as real);
  }

  lemma {:induction false} Ratio(x: real, n: real)
    requires n > 0.0 && 0.0 <= x <= n
    ensures 0.0 <= x / n <= 1.0 && (x / n == 1.0 <==> x == n)
  {
  }

  // ---------- Character n-grams ----------

  const GRAM := 2

  function NoSpaces(text: string): string {
    if text == "" then "" else (if text[0] == ' ' then "" else [text[0]]) + NoSpaces(text[1..])
  }

  function Windows(text: string): seq<string> {
    if |text| < GRAM then []
    else seq(|text| - GRAM + 1, i requires 0 <= i <= |text| - GRAM => text[i..i + GRAM])
  }

  function Tally(items: seq<string>): Counter {
    if items == [] then map[]
    else
      var c := Tally(items[..|items| - 1]);
      var x := items[|items| - 1];
      c[x := Get(c, x) + 1]
  }

  function CharNgrams(text: string): Counter { Tally(Windows(NoSpaces(text))) }

  lemma {:induction false} TallyCounts(items: seq<string>, k: string)
    ensures Get(Tally(items), k) == multiset(items)[k]
    ensures k in Tally(items) <==> k in items
  {
    if items != [] {
      var front, x := items[..|items| - 1], items[|items| - 1];
      assert items == front + [x];
      TallyCounts(front, k);
      TallyCounts(front, x);
    }
  }

  function Places(items: seq<string>, k: string): set<int> {
    set i | 0 <= i < |items| && items[i] == k
  }

  lemma {:induction false} OneMorePlace(front: seq<string>, x: string, k: string)
    ensures Places(front + [x], k) == Places(front, k) + if x == k then {|front|} else {}
    ensures |front| !in Places(front, k)
  {
  }

  lemma {:induction false} OccurrencesAt(items: seq<string>, k: string)
    ensures multiset(items)[k] == |Places(items, k)|
  {
    if items != [] {
      var front, x := items[..|items| - 1], items[|items| - 1];
      assert items == front + [x];
      OneMorePlace(front, x, k);
      OccurrencesAt(front, k);
      hide Places;
    }
  }

  lemma {:induction false} SpaceParts(s: string, t: string)
    ensures NoSpaces(s + " " + t) == NoSpaces(s) + NoSpaces(t)
  {
    if s != [] {
      SpaceParts(s[1..], t);
      assert (s + " " + t)[1..] == s[1..] + " " + t;
    } else {
      assert s + " " + t == " " + t && (" " + t)[1..] == t;
    }
  }

  lemma {:induction false} NoSpaceToLose(t: string)
    requires ' ' !in t
    ensures NoSpaces(t) == t
  {
    if t != [] {
      assert t == [t[0]] + t[1..];
      NoSpaceToLose(t[1..]);
    }
  }

  /** Only the spaces of a text go. */
  lemma {:induction false} SpacesGo(s: string, t: string)
    ensures NoSpaces(s + " " + t) == NoSpaces(s) + NoSpaces(t)
    ensures ' ' !in t ==> NoSpaces(t) == t
  {
    SpaceParts(s, t);
    if ' ' !in t { NoSpaceToLose(t); }
  }

  /** The text k is the two characters from place i of t on. */
  predicate StandsAt(k: string, t: string, i: int) {
    0 <= i < |t| - 1 && |k| == 2 && k[0] == t[i] && k[1] == t[i + 1]
  }

  /** The counter of a text gives every pair of characters the number of places where it stands, spaces not counted. */
  lemma {:induction false} NgramsCountOccurrences(text: string, k: string)
    ensures var t := NoSpaces(text);
      && Get(CharNgrams(text), k) == |set i | 0 <= i < |t| && StandsAt(k, t, i)|
      && (k in CharNgrams(text) <==> exists i :: StandsAt(k, t, i))
  {
    var t, w := NoSpaces(text), Windows(NoSpaces(text));
    TallyCounts(w, k);
    OccurrencesAt(w, k);
    forall i ensures StandsAt(k, t, i) <==> 0 <= i < |w| && w[i] == k {
      if 0 <= i < |w| { assert w[i] == [t[i], t[i + 1]]; }
    }
    assert (set i | 0 <= i < |t| && StandsAt(k, t, i)) == Places(w, k);
  }

  /** Texts that agree up to spaces are entirely similar as soon as they have a single n-gram. */
  lemma {:induction false} SameTextScoresOne(root: Root, s: string, t: string)
    requires IsRoot(root) && NoSpaces(s) == NoSpaces(t)
    ensures Cosine(root, CharNgrams(s), CharNgrams(t)) == if |NoSpaces(s)| >= GRAM then 1.0 else 0.0
  {
    var a, w := CharNgrams(s), Windows(NoSpaces(s));
    if |NoSpaces(s)| >= GRAM {
      assert w[0] in w && multiset(w)[w[0]] > 0;
      TallyCounts(w, w[0]);
      hide Cosine, IsRoot, Dot, Tally, Windows, NoSpaces;
      NormPositive(a);
      CosineRange(root, a, a);
    }
  }

  // ---------- Best matches ----------

  datatype Concept = Concept(id: string, text: string)

  /** Index, among the first n concepts, of the first one of greatest score, if any scores above 0. */
  ghost function BestIndex(root: Root, grams: seq<Counter>, m: Counter, n: nat): (best: Option<nat>)
    requires n <= |grams|
    ensures best.Some? ==> best.value < n
  {
    if n == 0 then None
    else
      var best := BestIndex(root, grams, m, n - 1);
      if Cosine(root, m, grams[n - 1]) > (if best.None? then 0.0 else Cosine(root, m, grams[best.value])) then Some(n - 1) else best
  }

  /** The chosen concept is a true maximum, the first of equal ones; none is chosen only when all score 0. */
  lemma {:induction false} BestIndexIsMaximum(root: Root, grams: seq<Counter>, m: Counter, n: nat)
    requires n <= |grams| && IsRoot(root)
    ensures match BestIndex(root, grams, m, n)
      case None => forall k :: 0 <= k < n ==> Cosine(root, m, grams[k]) == 0.0
      case Some(j) =>
        && Cosine(root, m, grams[j]) > 0.0
        && (forall k :: 0 <= k < n ==> Cosine(root, m, grams[k]) <= Cosine(root, m, grams[j]))
        && (forall k :: 0 <= k < j ==> Cosine(root, m, grams[k]) < Cosine(root, m, grams[j]))
  {
    hide Cosine, IsRoot;
    if n > 0 {
      BestIndexIsMaximum(root, grams, m, n - 1);
      CosineRange(root, m, grams[n - 1]);
    }
  }

  ghost function Grams(kb: seq<Concept>): seq<Counter> {
    seq(|kb|, i requires 0 <= i < |kb| => CharNgrams(kb[i].text))
  }

  /** What a text is matched with: an id that is the empty string counts as none. */
  ghost function MatchOf(root: Root, kb: seq<Concept>, content: string, threshold: real): Option<(string, real)> {
    var best := BestIndex(root, Grams(kb), CharNgrams(content), |kb|);
    if best.None? || kb[best.value].id == "" then None
    else
      var score := Cosine(root, CharNgrams(content), Grams(kb)[best.value]);
      if score >= threshold then Some((kb[best.value].id, score)) else None
  }

  // ---------- What a match is, said of the scores alone ----------

  ghost function Likeness(root: Root, s: string, t: string): real {
    Cosine(root, CharNgrams(s), CharNgrams(t))
  }

  /** Concept j resembles the text at all, no concept resembles it more, and every earlier one resembles it less. */
  ghost predicate FirstBest(root: Root, kb: seq<Concept>, text: string, j: nat) {
    && j < |kb| && Likeness(root, text, kb[j].text) > 0.0
    && (forall k :: 0 <= k < |kb| ==> Likeness(root, text, kb[k].text) <= Likeness(root, text, kb[j].text))
    && (forall k :: 0 <= k < j ==> Likeness(root, text, kb[k].text) < Likeness(root, text, kb[j].text))
  }

  ghost predicate Accepted(root: Root, kb: seq<Concept>, text: string, threshold: real, j: nat) {
    j < |kb| && kb[j].id != "" && Likeness(root, text, kb[j].text) >= threshold
  }

  /** The entry of a text in the result, if it has one: id and score of the first best concept, if acceptable. */
  ghost predicate RightEntry(root: Root, kb: seq<Concept>, text: string, threshold: real, entry: Option<(string, real)>) {
    match entry
    case Some(found) =>
      exists j: nat :: FirstBest(root, kb, text, j) && Accepted(root, kb, text, threshold, j)
        && found.0 == kb[j].id && found.1 == Likeness(root, text, kb[j].text)
    case None =>
      || (forall k :: 0 <= k < |kb| ==> Likeness(root, text, kb[k].text) == 0.0)
      || exists j: nat :: FirstBest(root, kb, text, j) && !Accepted(root, kb, text, threshold, j)
  }

  lemma {:induction false} MatchIsRight(root: Root, kb: seq<Concept>, text: string, threshold: real)
    requires IsRoot(root)
    ensures RightEntry(root, kb, text, threshold, MatchOf(root, kb, text, threshold))
  {
    hide IsRoot, Cosine, CharNgrams, BestIndex;
    var best := BestIndex(root, Grams(kb), CharNgrams(text), |kb|);
    BestIndexIsMaximum(root, Grams(kb), CharNgrams(text), |kb|);
    forall k | 0 <= k < |kb| ensures Likeness(root, text, kb[k].text) == Cosine(root, CharNgrams(text), Grams(kb)[k]) {
    }
    if best.Some? { assert FirstBest(root, kb, text, best.value); }
  }

  function Lookup<V>(r: map<string, V>, id: string): Option<V> { if id in r then Some(r[id]) else None }

  /** The result holds exactly the matched patterns, each with its match. */
  ghost predicate IsMatching(root: Root, r: map<string, (string, real)>, mcu: seq<Concept>, kb: seq<Concept>, threshold: real) {
    && (forall id :: id in r ==> exists i :: 0 <= i < |mcu| && mcu[i].id == id)
    && (forall i :: 0 <= i < |mcu| ==> Lookup(r, mcu[i].id) == MatchOf(root, kb, mcu[i].text, threshold))
  }

  method DotProduct(a: Counter, b: Counter) returns (d: int)
    ensures d == Dot(a, b)
  {
    d := 0;
    var keys := a.Keys * b.Keys;
    while keys != {}
      invariant keys <= a.Keys * b.Keys
      invariant d + Sum(keys, (k: string) => Get(a, k) * Get(b, k)) == Dot(a, b)
      decreases |keys|
    {
      var k :| k in keys;
      SumRemove(keys, (k: string) => Get(a, k) * Get(b, k), k);
      d := d + a[k] * b[k];
      keys := keys - {k};
    }
  }

  method CosineSimilarity(root: Root, a: Counter, b: Counter) returns (score: real)
    requires IsRoot(root)
    ensures score == Cosine(root, a, b)
    ensures score >= 0.0 && score * score == Score(a, b)
  {
    ScoreIsSquare(root, a, b);
    if a == map[] || b == map[] { return 0.0; }
    var dot := DotProduct(a, b);
    var normA := DotProduct(a, a);
    var normB := DotProduct(b, b);
    NormPositive(a);
    NormPositive(b);
    if normA == 0 || normB == 0 { return 0.0; }
    var rootA, rootB := root(normA as real), root(normB as real);
    RootPositive(root, normA as real);
    RootPositive(root, normB as real);
    return dot as real / (rootA * rootB);
  }

  method MatchMcuToKb(root: Root, mcu: seq<Concept>, kb: seq<Concept>, threshold: real)
      returns (result: map<string, (string, real)>)
    requires IsRoot(root)
    requires forall i, j :: 0 <= i < j < |mcu| ==> mcu[i].id != mcu[j].id
    ensures IsMatching(root, result, mcu, kb, threshold)
    ensures forall i :: 0 <= i < |mcu| ==>
      RightEntry(root, kb, mcu[i].text, threshold, if mcu[i].id in result then Some(result[mcu[i].id]) else None)
  {
    hide Cosine, IsRoot, CharNgrams, RightEntry;
    var grams := seq(|kb|, i requires 0 <= i < |kb| => CharNgrams(kb[i].text));
    assert grams == Grams(kb);
    result := map[];
    for i := 0 to |mcu|
      invariant forall id :: id in result ==> exists k :: 0 <= k < i && mcu[k].id == id
      invariant forall k :: 0 <= k < i ==> Lookup(result, mcu[k].id) == MatchOf(root, kb, mcu[k].text, threshold)
    {
      var best, score := BestMatch(root, CharNgrams(mcu[i].text), grams);
      if best.Some? && kb[best.value].id != "" && score >= threshold {
        result := result[mcu[i].id := (kb[best.value].id, score)];
      }
    }
    forall i | 0 <= i < |mcu|
      ensures RightEntry(root, kb, mcu[i].text, threshold, Lookup(result, mcu[i].id))
    {
      MatchIsRight(root, kb, mcu[i].text, threshold);
    }
  }

  method BestMatch(root: Root, m: Counter, grams: seq<Counter>) returns (best: Option<nat>, bestScore: real)
    requires IsRoot(root)
    ensures best == BestIndex(root, grams, m, |grams|)
    ensures best.Some? ==> bestScore == Cosine(root, m, grams[best.value])
  {
    hide Cosine, IsRoot;
    best, bestScore := None, 0.0;
    for k := 0 to |grams|
      invariant best == BestIndex(root, grams, m, k)
      invariant bestScore == if best.None? then 0.0 else Cosine(root, m, grams[best.value])
    {
      var score := CosineSimilarity(root, m, grams[k]);
      if score > bestScore {
        best, bestScore := Some(k), score;
      }
    }
  }

  /** A match at a higher threshold is the match at the lower one, kept exactly when its score reaches the higher. */
  lemma {:induction false} ThresholdOnlyRemoves(root: Root, kb: seq<Concept>, content: string, low: real, high: real)
    requires low <= high
    ensures var was := MatchOf(root, kb, content, low);
      MatchOf(root, kb, content, high) == if was.Some? && was.value.1 >= high then was else None
  {
    hide BestIndex, Cosine, CharNgrams;
  }

  /** No cosine passes 1, so a threshold above 1 matches nothing. */
  lemma {:induction false} NothingAboveOne(root: Root, kb: seq<Concept>, content: string, threshold: real)
    requires IsRoot(root) && threshold > 1.0
    ensures MatchOf(root, kb, content, threshold) == None
  {
    hide BestIndex, Cosine, IsRoot, CharNgrams;
    var best := BestIndex(root, Grams(kb), CharNgrams(content), |kb|);
    if best.Some? { CosineRange(root, CharNgrams(content), Grams(kb)[best.value]); }
  }
}
