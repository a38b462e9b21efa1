/** Total orders, Python's lexicographic comparison of strings and tuples, and `sorted` of a set. */
module Ordering {

  ghost predicate TotalOrder<T(!new)>(le: (T, T) -> bool) {
    && (forall a :: le(a, a))
    && (forall a, b :: le(a, b) && le(b, a) ==> a == b)
    && (forall a, b, c :: le(a, b) && le(b, c) ==> le(a, c))
    && (forall a, b :: le(a, b) || le(b, a))
  }

  ghost predicate SortedBy<T>(s: seq<T>, le: (T, T) -> bool) {
    forall i, j :: 0 <= i < j < |s| ==> le(s[i], s[j])
  }

  predicate Distinct<T(==)>(s: seq<T>) {
    forall i, j :: 0 <= i < j < |s| ==> s[i] != s[j]
  }

  /** Python's comparison of two sequences: the first difference decides, a proper prefix is smaller. */
  predicate LexLe<T(==)>(le: (T, T) -> bool, a: seq<T>, b: seq<T>) {
    a == [] || (b != [] && if a[0] == b[0] then LexLe(le, a[1..], b[1..]) else le(a[0], b[0]))
  }

  predicate CharLe(a: char, b: char) { a <= b }

  predicate StringLe(a: string, b: string) { LexLe(CharLe, a, b) }

  predicate PathLe(a: seq<string>, b: seq<string>) { LexLe(StringLe, a, b) }

  predicate PairLe(a: (string, string), b: (string, string)) {
    if a.0 == b.0 then StringLe(a.1, b.1) else StringLe(a.0, b.0)
  }

  // ---------- What the orders mean, said without them ----------

  /** The order of strings by code points: a prefix comes first, and otherwise the first difference decides. */
  ghost predicate ByCodePoint(a: string, b: string) {
    a <= b || exists i :: 0 <= i < |a| && i < |b| && a[..i] == b[..i] && a[i] < b[i]
  }

  /** The order of lists of strings: a prefix comes first, and otherwise the first different strings decide. */
  ghost predicate ByStrings(a: seq<string>, b: seq<string>) {
    a <= b || exists i :: 0 <= i < |a| && i < |b| && a[..i] == b[..i] && a[i] != b[i] && ByCodePoint(a[i], b[i])
  }

  lemma {:induction false} LexPrefix<T>(le: (T, T) -> bool, p: seq<T>, r: seq<T>)
    ensures LexLe(le, p, p + r)
  {
    if p != [] {
      LexPrefix(le, p[1..], r);
      assert (p + r)[1..] == p[1..] + r;
    }
  }

  lemma {:induction false} LexDifference<T>(le: (T, T) -> bool, p: seq<T>, x: T, y: T, r: seq<T>, s: seq<T>)
    requires x != y
    ensures LexLe(le, p + [x] + r, p + [y] + s) <==> le(x, y)
  {
    if p == [] {
      assert [] + [x] + r == [x] + r && [] + [y] + s == [y] + s;
    } else {
      LexDifference(le, p[1..], x, y, r, s);
      assert (p + [x] + r)[1..] == p[1..] + [x] + r && (p + [y] + s)[1..] == p[1..] + [y] + s;
    }
  }

  lemma {:induction false} LexDecides<T>(le: (T, T) -> bool, a: seq<T>, b: seq<T>)
    requires LexLe(le, a, b) && !(a <= b)
    ensures exists i :: 0 <= i < |a| && i < |b| && a[..i] == b[..i] && a[i] != b[i]
  {
    if a[0] != b[0] {
      assert a[..0] == b[..0];
    } else {
      assert a == [a[0]] + a[1..] && b == [b[0]] + b[1..];
      LexDecides(le, a[1..], b[1..]);
      var i :| 0 <= i < |a[1..]| && i < |b[1..]| && a[1..][..i] == b[1..][..i] && a[1..][i] != b[1..][i];
      assert a[..i + 1] == [a[0]] + a[1..][..i] && b[..i + 1] == [b[0]] + b[1..][..i];
    }
  }

  /** A string comes before its extensions, and the first different character decides. */
  lemma {:induction false} StringOrder(p: string, r: string, s: string, x: char, y: char)
    requires x < y
    ensures StringLe(p, p + r)
    ensures StringLe(p + [x] + r, p + [y] + s)
    ensures !StringLe(p + [y] + s, p + [x] + r)
  {
    LexPrefix(CharLe, p, r);
    LexDifference(CharLe, p, x, y, r, s);
    LexDifference(CharLe, p, y, x, s, r);
  }

  /** A list comes before its extensions, and the first different string decides. */
  lemma {:induction false} PathOrder(p: seq<string>, r: seq<string>, s: seq<string>, x: string, y: string)
    requires x != y && ByCodePoint(x, y)
    ensures PathLe(p, p + r)
    ensures PathLe(p + [x] + r, p + [y] + s)
    ensures !PathLe(p + [y] + s, p + [x] + r)
  {
    hide ByCodePoint, StringLe;
    LexPrefix(StringLe, p, r);
    StringLeIsByCodePoint(x, y);
    if StringLe(y, x) { StringAntisymmetric(x, y); }
    LexDifference(StringLe, p, x, y, r, s);
    LexDifference(StringLe, p, y, x, s, r);
  }

  lemma {:induction false} SplitAt<T>(a: seq<T>, i: nat)
    requires i < |a|
    ensures a == a[..i] + [a[i]] + a[i + 1..]
  {
  }

  lemma {:induction false} StringLeIsByCodePoint(a: string, b: string)
    ensures StringLe(a, b) <==> ByCodePoint(a, b)
  {
    if a <= b {
      assert b == a + b[|a|..];
      LexPrefix(CharLe, a, b[|a|..]);
    } else if StringLe(a, b) {
      LexDecides(CharLe, a, b);
      var i :| 0 <= i < |a| && i < |b| && a[..i] == b[..i] && a[i] != b[i];
      SplitAt(a, i); SplitAt(b, i);
      LexDifference(CharLe, a[..i], a[i], b[i], a[i + 1..], b[i + 1..]);
    } else if ByCodePoint(a, b) {
      var i :| 0 <= i < |a| && i < |b| && a[..i] == b[..i] && a[i] < b[i];
      SplitAt(a, i); SplitAt(b, i);
      StringOrder(a[..i], a[i + 1..], b[i + 1..], a[i], b[i]);
    }
  }

  lemma {:induction false} PathLeIsByStrings(a: seq<string>, b: seq<string>)
    ensures PathLe(a, b) <==> ByStrings(a, b)
  {
    hide ByCodePoint, StringLe;
    if a <= b {
      assert b == a + b[|a|..];
      LexPrefix(StringLe, a, b[|a|..]);
    } else if PathLe(a, b) {
      LexDecides(StringLe, a, b);
      var i :| 0 <= i < |a| && i < |b| && a[..i] == b[..i] && a[i] != b[i];
      SplitAt(a, i); SplitAt(b, i);
      LexDifference(StringLe, a[..i], a[i], b[i], a[i + 1..], b[i + 1..]);
      StringLeIsByCodePoint(a[i], b[i]);
    } else if ByStrings(a, b) {
      var i :| 0 <= i < |a| && i < |b| && a[..i] == b[..i] && a[i] != b[i] && ByCodePoint(a[i], b[i]);
      SplitAt(a, i); SplitAt(b, i);
      PathOrder(a[..i], a[i + 1..], b[i + 1..], a[i], b[i]);
    }
  }

  /** Pairs go by their first strings, and those with the same first one by their second. */
  lemma {:induction false} PairOrder(a: (string, string), b: (string, string))
    ensures PairLe(a, b) <==> if a.0 == b.0 then ByCodePoint(a.1, b.1) else ByCodePoint(a.0, b.0)
  {
    hide ByCodePoint, StringLe;
    StringLeIsByCodePoint(a.0, b.0);
    StringLeIsByCodePoint(a.1, b.1);
  }

  lemma {:induction false} LexReflexive<T(!new)>(le: (T, T) -> bool, a: seq<T>)
    requires TotalOrder(le)
    ensures LexLe(le, a, a)
  {
    if a != [] { LexReflexive(le, a[1..]); }
  }

  lemma {:induction false} LexAntisymmetric<T(!new)>(le: (T, T) -> bool, a: seq<T>, b: seq<T>)
    requires TotalOrder(le) && LexLe(le, a, b) && LexLe(le, b, a)
    ensures a == b
  {
    if a != [] && b != [] {
      if a[0] == b[0] {
        LexAntisymmetric(le, a[1..], b[1..]);
        assert a == [a[0]] + a[1..] && b == [b[0]] + b[1..];
      }
    }
  }

  lemma {:induction false} LexTransitive<T(!new)>(le: (T, T) -> bool, a: seq<T>, b: seq<T>, c: seq<T>)
    requires TotalOrder(le) && LexLe(le, a, b) && LexLe(le, b, c)
    ensures LexLe(le, a, c)
  {
    if a != [] && a[0] == b[0] && b[0] == c[0] {
      LexTransitive(le, a[1..], b[1..], c[1..]);
    }
  }

  lemma {:induction false} LexConnex<T(!new)>(le: (T, T) -> bool, a: seq<T>, b: seq<T>)
    requires TotalOrder(le)
    ensures LexLe(le, a, b) || LexLe(le, b, a)
  {
    if a != [] && b != [] && a[0] == b[0] { LexConnex(le, a[1..], b[1..]); }
  }

  lemma {:induction false} LexTotalOrder<T(!new)>(le: (T, T) -> bool)
    requires TotalOrder(le)
    ensures TotalOrder((a: seq<T>, b: seq<T>) => LexLe(le, a, b))
  {
    forall a: seq<T> ensures LexLe(le, a, a) { LexReflexive(le, a); }
    forall a: seq<T>, b: seq<T> | LexLe(le, a, b) && LexLe(le, b, a) ensures a == b { LexAntisymmetric(le, a, b); }
    forall a: seq<T>, b: seq<T>, c: seq<T> | LexLe(le, a, b) && LexLe(le, b, c) ensures LexLe(le, a, c) {
      LexTransitive(le, a, b, c);
    }
    forall a: seq<T>, b: seq<T> ensures LexLe(le, a, b) || LexLe(le, b, a) { LexConnex(le, a, b); }
  }

  lemma {:induction false} StringTotalOrder()
    ensures TotalOrder(StringLe)
  {
    LexTotalOrder(CharLe);
    var f := (a: string, b: string) => LexLe(CharLe, a, b);
    assert forall a, b :: StringLe(a, b) == f(a, b);
  }

  lemma {:induction false} StringAntisymmetric(a: string, b: string)
    requires StringLe(a, b) && StringLe(b, a)
    ensures a == b
  {
    LexAntisymmetric(CharLe, a, b);
  }

  lemma {:induction false} PathTotalOrder()
    ensures TotalOrder(PathLe)
  {
    StringTotalOrder();
    LexTotalOrder(StringLe);
    var f := (a: seq<string>, b: seq<string>) => LexLe(StringLe, a, b);
    assert forall a, b :: PathLe(a, b) == f(a, b);
  }

  lemma {:induction false} PairTotalOrder()
    ensures TotalOrder(PairLe)
  {
    StringTotalOrder();
  }

  lemma {:induction false} Transitive<T(!new)>(le: (T, T) -> bool, a: T, b: T, c: T)
    requires TotalOrder(le) && le(a, b) && le(b, c)
    ensures le(a, c)
  {
  }

  lemma {:induction false} Connex<T(!new)>(le: (T, T) -> bool, a: T, b: T)
    requires TotalOrder(le)
    ensures le(a, a) && (le(a, b) || le(b, a))
  {
  }

  lemma {:induction false} LeastExists<T(!new)>(s: set<T>, le: (T, T) -> bool)
    requires TotalOrder(le) && s != {}
    ensures exists m :: m in s && forall x :: x in s ==> le(m, x)
    decreases |s|
  {
    hide TotalOrder;
    var y :| y in s;
    Connex(le, y, y);
    if s != {y} {
      assert s - {y} != {};
      LeastExists(s - {y}, le);
      var m :| m in s - {y} && forall x :: x in s - {y} ==> le(m, x);
      Connex(le, y, m);
      var k := if le(y, m) then y else m;
      forall x | x in s ensures le(k, x) {
        if x != y && k == y { Transitive(le, y, m, x); }
      }
    }
  }

  /** Python's `sorted` applied to a set: every element once, in increasing order. */
  function Sorted<T(==, !new)>(s: set<T>, le: (T, T) -> bool): (r: seq<T>)
    requires TotalOrder(le)
    ensures |r| == |s| && Distinct(r) && SortedBy(r, le)
    ensures forall x :: x in r <==> x in s
  {
    if s == {} then []
    else
      LeastExists(s, le);
      var m :| m in s && forall x :: x in s ==> le(m, x);
      [m] + Sorted(s - {m}, le)
  }

  /** `sorted` of a set of strings, for loops that need no more than its members. */
  method InOrder(s: set<string>) returns (r: seq<string>)
    ensures (forall x :: x in r <==> x in s) && forall i :: 0 <= i < |r| ==> r[i] in s
    ensures SortedBy(r, StringLe) && Distinct(r)
  {
    StringTotalOrder();
    hide TotalOrder, SortedBy, Distinct, StringLe;
    r := Sorted(s, StringLe);
  }

  // ---------- Sorting a list by a key ----------

  ghost predicate TotalPreorder<T(!new)>(le: (T, T) -> bool) {
    && (forall a, b, c :: le(a, b) && le(b, c) ==> le(a, c))
    && (forall a, b :: le(a, b) || le(b, a))
  }

  function Insert<T>(le: (T, T) -> bool, x: T, s: seq<T>): seq<T> {
    if s == [] || le(x, s[0]) then [x] + s else [s[0]] + Insert(le, x, s[1..])
  }

  /** Python's `sorted` applied to a list: in increasing order, equals staying in their given order. */
  function StableSort<T>(le: (T, T) -> bool, s: seq<T>): (r: seq<T>) {
    if s == [] then [] else Insert(le, s[0], StableSort(le, s[1..]))
  }

  lemma {:induction false} InsertKeeps<T>(le: (T, T) -> bool, x: T, s: seq<T>)
    ensures multiset(Insert(le, x, s)) == multiset{x} + multiset(s)
  {
    if s != [] && !le(x, s[0]) {
      InsertKeeps(le, x, s[1..]);
      assert s == [s[0]] + s[1..];
    }
  }

  lemma {:induction false} InsertSorts<T(!new)>(le: (T, T) -> bool, x: T, s: seq<T>)
    requires TotalPreorder(le) && SortedBy(s, le)
    ensures SortedBy(Insert(le, x, s), le)
  {
    var r := Insert(le, x, s);
    if s == [] || le(x, s[0]) {
      forall i, j | 0 <= i < j < |r| ensures le(r[i], r[j]) {
        if i == 0 { assert le(x, s[0]) && (j == 1 || le(s[0], s[j - 1])); }
      }
    } else {
      InsertSorts(le, x, s[1..]);
      InsertKeeps(le, x, s[1..]);
      var t := Insert(le, x, s[1..]);
      forall k | 0 <= k < |t| ensures le(s[0], t[k]) {
        assert t[k] in multiset(t);
        if t[k] != x { assert t[k] in s[1..]; }
      }
    }
  }

  lemma {:induction false} StableSortSorts<T(!new)>(le: (T, T) -> bool, s: seq<T>)
    requires TotalPreorder(le)
    ensures SortedBy(StableSort(le, s), le) && multiset(StableSort(le, s)) == multiset(s)
    ensures |StableSort(le, s)| == |s| && (forall x :: x in StableSort(le, s) <==> x in s)
  {
    hide TotalPreorder;
    if s != [] {
      StableSortSorts(le, s[1..]);
      InsertSorts(le, s[0], StableSort(le, s[1..]));
      InsertKeeps(le, s[0], StableSort(le, s[1..]));
      assert s == [s[0]] + s[1..];
    }
    SameMembers(StableSort(le, s), s);
  }

  lemma {:induction false} SameMembers<T>(a: seq<T>, b: seq<T>)
    requires multiset(a) == multiset(b)
    ensures |a| == |b| && (forall x :: x in a <==> x in b)
  {
    assert |multiset(a)| == |a| && |multiset(b)| == |b|;
    forall x ensures x in a <==> x in b { assert x in a <==> x in multiset(a); }
  }

  lemma {:induction false} DistinctCounts<T>(s: seq<T>)
    ensures Distinct(s) <==> forall x :: x in s ==> multiset(s)[x] == 1
  {
    if s != [] {
      var n := |s| - 1;
      DistinctCounts(s[..n]);
      assert s == s[..n] + [s[n]];
      if Distinct(s) {
        assert s[n] !in s[..n];
      } else if Distinct(s[..n]) {
        assert s[n] in s[..n];
        assert multiset(s)[s[n]] > 1;
      } else {
        var x :| x in s[..n] && multiset(s[..n])[x] != 1;
        assert x in s && multiset(s)[x] > 1;
      }
    }
  }

  /** Sorting adds no repetition. */
  lemma {:induction false} StableSortDistinct<T(!new)>(le: (T, T) -> bool, s: seq<T>)
    requires TotalPreorder(le) && Distinct(s)
    ensures Distinct(StableSort(le, s))
  {
    hide TotalPreorder, StableSort, Distinct, SortedBy;
    StableSortSorts(le, s);
    DistinctCounts(s);
    DistinctCounts(StableSort(le, s));
  }

  /** Elements of equal rank come in the order of their list, whatever order that is. */
  ghost predicate TiesInOrder<T(!new)>(s: seq<T>, le: (T, T) -> bool, tie: (T, T) -> bool) {
    forall i, j :: 0 <= i < j < |s| && le(s[j], s[i]) ==> tie(s[i], s[j])
  }

  lemma {:induction false} InsertTies<T(!new)>(le: (T, T) -> bool, tie: (T, T) -> bool, x: T, s: seq<T>)
    requires TiesInOrder(s, le, tie) && forall y :: y in s ==> tie(x, y)
    ensures TiesInOrder(Insert(le, x, s), le, tie)
  {
    if s != [] && !le(x, s[0]) {
      assert forall y :: y in s[1..] ==> y in s;
      InsertTies(le, tie, x, s[1..]);
      var t := Insert(le, x, s[1..]);
      InsertKeeps(le, x, s[1..]);
      forall j | 0 <= j < |t| && le(t[j], s[0]) ensures tie(s[0], t[j]) {
        assert t[j] in multiset(t);
        if t[j] != x {
          assert t[j] in s[1..];
          var k :| 0 <= k < |s[1..]| && s[1..][k] == t[j];
          assert s[k + 1] == t[j];
        }
      }
    }
  }

  lemma {:induction false} StableSortTies<T(!new)>(le: (T, T) -> bool, tie: (T, T) -> bool, s: seq<T>)
    requires TotalPreorder(le) && SortedBy(s, tie)
    ensures TiesInOrder(StableSort(le, s), le, tie)
  {
    hide TotalPreorder, TiesInOrder, Insert;
    if s == [] {
      NoTies(le, tie);
    } else {
      StableSortTies(le, tie, s[1..]);
      StableSortSorts(le, s[1..]);
      forall y | y in StableSort(le, s[1..]) ensures tie(s[0], y) { assert y in s[1..]; }
      InsertTies(le, tie, s[0], StableSort(le, s[1..]));
    }
  }

  lemma {:induction false} NoTies<T(!new)>(le: (T, T) -> bool, tie: (T, T) -> bool)
    ensures TiesInOrder([], le, tie)
  {
  }
}
