/** The watcher's issue list: duplicates merged, summary rebuilt (scripts/guardian_runtime.py). */
module Issues {
  import opened Ordering
  import opened Sequences
  import opened Wrappers

  datatype Issue = Issue(code: string, severity: string, summary: string, blocksCompletion: bool,
                         requiredBefore: Option<string>, commandHint: string)
  {
    function Key(): (string, string) { (code, summary) }

    function Rank(): nat { SeverityRank(severity) }
  }

  function SeverityRank(severity: string): nat {
    if severity == "green" then 0 else if severity == "red" then 2 else 1
  }

  /** Worst first, then by code and summary. */
  predicate IssueLe(a: Issue, b: Issue) {
    a.Rank() > b.Rank() || (a.Rank() == b.Rank() && PairLe(a.Key(), b.Key()))
  }

  // ---------- What the merged list is ----------

  /** Issue p is the first of the worst among those that share its code and summary. */
  predicate FirstWorst(items: seq<Issue>, p: int) {
    0 <= p < |items| && forall q :: 0 <= q < |items| && items[q].Key() == items[p].Key() ==>
      items[q].Rank() <= items[p].Rank() && (q < p ==> items[q].Rank() < items[p].Rank())
  }

  ghost predicate Chosen(items: seq<Issue>, x: Issue) { exists p :: FirstWorst(items, p) && items[p] == x }

  predicate KeysDistinct(r: seq<Issue>) { forall i, j :: 0 <= i < j < |r| ==> r[i].Key() != r[j].Key() }

  ghost predicate HasKey(items: seq<Issue>, key: (string, string)) { exists y :: y in items && y.Key() == key }

  ghost predicate Merged(items: seq<Issue>, r: seq<Issue>) {
    && SortedBy(r, IssueLe) && KeysDistinct(r)
    && (forall x :: x in r ==> Chosen(items, x))
    && (forall x :: x in items ==> HasKey(r, x.Key()))
  }

  lemma {:induction false} IssuePreorder()
    ensures TotalPreorder(IssueLe)
  {
    PairTotalOrder();
    hide PairLe;
  }

  /** Red issues come first and green ones last; issues of one rank go by code, and those of one code by summary. */
  ghost predicate ListedBefore(a: Issue, b: Issue) {
    && (b.severity == "red" ==> a.severity == "red") && (a.severity == "green" ==> b.severity == "green")
    && ((a.severity == "red" <==> b.severity == "red") && (a.severity == "green" <==> b.severity == "green") ==>
          if a.code == b.code then ByCodePoint(a.summary, b.summary) else ByCodePoint(a.code, b.code))
  }

  lemma {:induction false} MergedOrder(items: seq<Issue>, r: seq<Issue>)
    requires Merged(items, r)
    ensures SortedBy(r, ListedBefore)
  {
    hide PairLe, ByCodePoint, Chosen, HasKey, KeysDistinct;
    forall i, j | 0 <= i < j < |r| ensures ListedBefore(r[i], r[j]) {
      assert IssueLe(r[i], r[j]);
      PairOrder(r[i].Key(), r[j].Key());
    }
  }

  lemma {:induction false} ChosenIsUnique(items: seq<Issue>, x: Issue, y: Issue)
    requires Chosen(items, x) && Chosen(items, y) && x.Key() == y.Key()
    ensures x == y
  {
    var p :| FirstWorst(items, p) && items[p] == x;
    var q :| FirstWorst(items, q) && items[q] == y;
    assert p == q;
  }

  lemma {:induction false} SameMembers(items: seq<Issue>, a: seq<Issue>, b: seq<Issue>)
    requires Merged(items, a) && Merged(items, b)
    ensures forall x :: x in a ==> x in b
  {
    hide SortedBy, KeysDistinct, Chosen;
    forall x | x in a ensures x in b {
      InItems(items, x);
      var y :| y in b && y.Key() == x.Key();
      ChosenIsUnique(items, x, y);
    }
  }

  lemma {:induction false} InItems(items: seq<Issue>, x: Issue)
    requires Chosen(items, x)
    ensures x in items
  {
  }

  lemma {:induction false} TailMembers(s: seq<Issue>)
    requires s != [] && KeysDistinct(s)
    ensures forall x :: x in s[1..] <==> x in s && x != s[0]
  {
    forall x | x in s && x != s[0] ensures x in s[1..] {
      var k :| 0 <= k < |s| && s[k] == x;
      assert s[1..][k - 1] == x;
    }
  }

  /** A strictly ordered list is known by its members. */
  lemma {:induction false} OrderFixesList(a: seq<Issue>, b: seq<Issue>)
    requires SortedBy(a, IssueLe) && KeysDistinct(a) && SortedBy(b, IssueLe) && KeysDistinct(b)
    requires forall x :: x in a <==> x in b
    ensures a == b
  {
    hide SortedBy, KeysDistinct, IssueLe;
    NoMembers(a);
    NoMembers(b);
    if a != [] {
      HeadsEqual(a, b);
      TailMembers(a);
      TailMembers(b);
      TailOrdered(a);
      TailOrdered(b);
      OrderFixesList(a[1..], b[1..]);
      assert a == [a[0]] + a[1..] && b == [b[0]] + b[1..];
    }
  }

  lemma {:induction false} TailOrdered(s: seq<Issue>)
    requires s != [] && SortedBy(s, IssueLe) && KeysDistinct(s)
    ensures SortedBy(s[1..], IssueLe) && KeysDistinct(s[1..])
  {
    hide IssueLe;
  }

  lemma {:induction false} HeadIsLeast(s: seq<Issue>, x: Issue)
    requires SortedBy(s, IssueLe) && KeysDistinct(s) && x in s
    ensures s != [] && (x == s[0] || (IssueLe(s[0], x) && x.Key() != s[0].Key()))
  {
    hide IssueLe;
    var i :| 0 <= i < |s| && s[i] == x;
  }

  lemma {:induction false} IssueAntisymmetric(a: Issue, b: Issue)
    requires IssueLe(a, b) && IssueLe(b, a)
    ensures a.Key() == b.Key()
  {
    PairTotalOrder();
    hide PairLe;
  }

  lemma {:induction false} HeadsEqual(a: seq<Issue>, b: seq<Issue>)
    requires SortedBy(a, IssueLe) && SortedBy(b, IssueLe) && KeysDistinct(a) && KeysDistinct(b)
    requires a != [] && b != [] && a[0] in b && b[0] in a
    ensures a[0] == b[0]
  {
    hide IssueLe, SortedBy, KeysDistinct;
    HeadIsLeast(a, b[0]);
    HeadIsLeast(b, a[0]);
    if a[0] != b[0] { IssueAntisymmetric(a[0], b[0]); }
  }

  /** The merged list is determined by the items. */
  lemma {:induction false} MergedIsUnique(items: seq<Issue>, a: seq<Issue>, b: seq<Issue>)
    requires Merged(items, a) && Merged(items, b)
    ensures a == b
  {
    SameMembers(items, a, b);
    SameMembers(items, b, a);
    hide SortedBy, KeysDistinct, Chosen;
    OrderFixesList(a, b);
  }

  // ---------- Merging again loses nothing ----------

  lemma {:induction false} WorstOfItems(items: seq<Issue>, r: seq<Issue>, x: Issue) returns (y: Issue)
    requires Merged(items, r) && x in items
    ensures y in r && y.Key() == x.Key() && x.Rank() <= y.Rank()
  {
    y :| y in r && y.Key() == x.Key();
    assert Chosen(items, y);
  }

  /** The choice among old results and new items is the choice among all items. */
  lemma {:induction false} ChosenFromAll(a: seq<Issue>, r: seq<Issue>, b: seq<Issue>, x: Issue)
    requires Merged(a, r) && Chosen(r + b, x)
    ensures Chosen(a + b, x)
  {
    hide SortedBy, Chosen;
    var p := ChosenPlace(r + b, x);
    if p < |r| {
      assert x in r;
      ChosenFromOld(a, r, b, x, p);
    } else {
      ChosenFromNew(a, r, b, x, p);
    }
  }

  lemma {:induction false} ChosenPlace(items: seq<Issue>, x: Issue) returns (p: nat)
    requires Chosen(items, x)
    ensures FirstWorst(items, p) && items[p] == x
  {
    p :| FirstWorst(items, p) && items[p] == x;
  }

  lemma {:induction false} ChosenFromOld(a: seq<Issue>, r: seq<Issue>, b: seq<Issue>, x: Issue, p: nat)
    requires Merged(a, r) && FirstWorst(r + b, p) && (r + b)[p] == x && p < |r|
    ensures Chosen(a + b, x)
  {
    hide SortedBy, KeysDistinct;
    assert x in r;
    var q := ChosenPlace(a, x);
    forall k | 0 <= k < |a + b| && (a + b)[k].Key() == x.Key()
      ensures (a + b)[k].Rank() <= x.Rank() && (k < q ==> (a + b)[k].Rank() < x.Rank())
    {
      if k >= |a| { assert (a + b)[k] == (r + b)[k - |a| + |r|]; }
    }
    assert FirstWorst(a + b, q);
  }

  lemma {:induction false} ChosenFromNew(a: seq<Issue>, r: seq<Issue>, b: seq<Issue>, x: Issue, p: nat)
    requires Merged(a, r) && FirstWorst(r + b, p) && (r + b)[p] == x && p >= |r|
    ensures Chosen(a + b, x)
  {
    hide SortedBy, KeysDistinct, Chosen, Merged;
    var q := p - |r| + |a|;
    forall k | 0 <= k < |a + b| && (a + b)[k].Key() == x.Key()
      ensures (a + b)[k].Rank() <= x.Rank() && (k < q ==> (a + b)[k].Rank() < x.Rank())
    {
      if k < |a| {
        assert a[k] in a;
        var y := WorstOfItems(a, r, a[k]);
        var m :| 0 <= m < |r| && r[m] == y;
        assert (r + b)[m] == y;
      } else {
        assert (a + b)[k] == (r + b)[k - |a| + |r|];
      }
    }
    assert FirstWorst(a + b, q);
    PlaceIsChosen(a + b, q);
  }

  lemma {:induction false} PlaceIsChosen(items: seq<Issue>, p: nat)
    requires FirstWorst(items, p)
    ensures Chosen(items, items[p])
  {
  }

  /** Merging the merged items with new ones gives what merging everything at once gives. */
  lemma {:induction false} MergeIsIncremental(a: seq<Issue>, r: seq<Issue>, b: seq<Issue>, s: seq<Issue>)
    requires Merged(a, r)
    ensures Merged(r + b, s) <==> Merged(a + b, s)
  {
    hide SortedBy, KeysDistinct, Chosen, FirstWorst;
    KeysOfAll(a, r, b);
    if Merged(r + b, s) {
      forall x | x in s ensures Chosen(a + b, x) { ChosenFromAll(a, r, b, x); }
    }
    if Merged(a + b, s) {
      forall x | x in s ensures Chosen(r + b, x) { ChosenStays(a, r, b, x); }
    }
  }

  lemma {:induction false} KeysOfAll(a: seq<Issue>, r: seq<Issue>, b: seq<Issue>)
    requires Merged(a, r)
    ensures forall x :: x in a + b ==> HasKey(r + b, x.Key())
    ensures forall x :: x in r + b ==> HasKey(a + b, x.Key())
  {
    hide SortedBy, KeysDistinct, Chosen;
    forall x | x in a + b ensures HasKey(r + b, x.Key()) {
      if x in a {
        var y :| y in r && y.Key() == x.Key();
        assert y in r + b;
      } else {
        assert x in r + b;
      }
    }
    forall x | x in r + b ensures HasKey(a + b, x.Key()) {
      if x in r { InItems(a, x); }
      assert x in a + b;
    }
  }

  lemma {:induction false} ChosenStays(a: seq<Issue>, r: seq<Issue>, b: seq<Issue>, x: Issue)
    requires Merged(a, r) && Chosen(a + b, x)
    ensures Chosen(r + b, x)
  {
    hide SortedBy, KeysDistinct, Chosen, Merged;
    InItems(a + b, x);
    KeysOfAll(a, r, b);
    var y :| y in r + b && y.Key() == x.Key();
    var z := BestOfKey(r + b, y);
    ChosenFromAll(a, r, b, z);
    ChosenIsUnique(a + b, x, z);
  }

  /** Every key that occurs has a chosen issue. */
  lemma {:induction false} BestOfKey(items: seq<Issue>, y: Issue) returns (z: Issue)
    requires y in items
    ensures Chosen(items, z) && z.Key() == y.Key()
  {
    var p := FirstWorstExists(items, y.Key(), |items|);
    z := items[p];
  }

  lemma {:induction false} FirstWorstExists(items: seq<Issue>, key: (string, string), n: nat) returns (p: nat)
    requires n <= |items| && exists i :: 0 <= i < n && items[i].Key() == key
    ensures p < n && items[p].Key() == key && FirstWorst(items[..n], p)
    ensures n == |items| ==> FirstWorst(items, p)
  {
    var last := n - 1;
    if exists i :: 0 <= i < last && items[i].Key() == key {
      p := FirstWorstExists(items, key, last);
      assert forall q :: 0 <= q < last ==> items[..last][q] == items[..n][q];
      if items[last].Key() == key && items[last].Rank() > items[p].Rank() { p := last; }
    } else {
      p := last;
    }
    if n == |items| { assert items[..n] == items; }
  }

  /** Merging is idempotent. */
  lemma {:induction false} MergeIsIdempotent(items: seq<Issue>, r: seq<Issue>)
    requires Merged(items, r)
    ensures Merged(r, r)
  {
    hide Merged;
    MergeIsIncremental(items, r, [], r);
    assert r + [] == r && items + [] == items;
  }

  // ---------- The code ----------

  /** The issue a key leads to is the first of the worst under that key, at place p. */
  ghost predicate ChosenAt(items: seq<Issue>, p: int, key: (string, string), x: Issue) {
    FirstWorst(items, p) && items[p] == x && x.Key() == key
  }

  lemma {:induction false} KeepsChoice(items: seq<Issue>, item: Issue, p: int, key: (string, string), x: Issue)
    requires ChosenAt(items, p, key, x) && (item.Key() == key ==> item.Rank() <= x.Rank())
    ensures ChosenAt(items + [item], p, key, x)
  {
  }

  lemma {:induction false} NewChoice(items: seq<Issue>, item: Issue)
    requires forall k :: 0 <= k < |items| && items[k].Key() == item.Key() ==> items[k].Rank() < item.Rank()
    ensures ChosenAt(items + [item], |items|, item.Key(), item)
  {
  }

  lemma {:induction false} SortedValuesMerge(items: seq<Issue>, values: seq<Issue>)
    requires KeysDistinct(values) && (forall x :: x in values ==> Chosen(items, x))
    requires forall x :: x in items ==> HasKey(values, x.Key())
    ensures Merged(items, StableSort(IssueLe, values))
  {
    hide IssueLe, StableSort, Chosen;
    IssuePreorder();
    StableSortSorts(IssueLe, values);
    assert Distinct(values);
    StableSortDistinct(IssueLe, values);
    var r := StableSort(IssueLe, values);
    forall i, j | 0 <= i < j < |r| ensures r[i].Key() != r[j].Key() {
      assert r[i] in r && r[j] in r;
    }
  }

  /** dedupe_issues: a dictionary from (code, summary) to the worst issue so far, then its values sorted. */
  method DedupeIssues(items: seq<Issue>) returns (r: seq<Issue>)
    ensures Merged(items, r)
  {
    hide IssueLe, StableSort, ChosenAt, Merged;
    var byKey: map<(string, string), Issue>, order := map[], [];
    ghost var place: map<(string, string), int> := map[];
    for i := 0 to |items|
      invariant place.Keys == byKey.Keys && (forall key :: key in order <==> key in byKey) && Distinct(order)
      invariant forall key :: key in byKey ==> ChosenAt(items[..i], place[key], key, byKey[key])
      invariant forall k :: 0 <= k < i ==> items[k].Key() in byKey
    {
      var item := items[i];
      var key := item.Key();
      assert items[..i + 1] == items[..i] + [item];
      forall k | k in byKey && (k == key ==> item.Rank() <= byKey[k].Rank())
        ensures ChosenAt(items[..i + 1], place[k], k, byKey[k])
      {
        KeepsChoice(items[..i], item, place[k], k, byKey[k]);
      }
      if key !in byKey {
        NewChoice(items[..i], item);
        byKey, order, place := byKey[key := item], order + [key], place[key := i];
      } else if item.Rank() > byKey[key].Rank() {
        ChoiceIsWorst(items[..i], place[key], key, byKey[key]);
        NewChoice(items[..i], item);
        byKey, place := byKey[key := item], place[key := i];
      }
    }
    assert items[..|items|] == items;
    var values := seq(|order|, k requires 0 <= k < |order| => assert order[k] in order; byKey[order[k]]);
    ListedValues(items, byKey, place, order, values);
    r := StableSort(IssueLe, values);
  }

  lemma {:induction false} ChoiceIsWorst(items: seq<Issue>, p: int, key: (string, string), x: Issue)
    requires ChosenAt(items, p, key, x)
    ensures forall k :: 0 <= k < |items| && items[k].Key() == key ==> items[k].Rank() <= x.Rank()
    ensures Chosen(items, x) && x.Key() == key
  {
  }

  lemma {:induction false} ListedValues(items: seq<Issue>, byKey: map<(string, string), Issue>,
                                        place: map<(string, string), int>, order: seq<(string, string)>,
                                        values: seq<Issue>)
    requires place.Keys == byKey.Keys && (forall key :: key in order <==> key in byKey) && Distinct(order)
    requires forall key :: key in byKey ==> ChosenAt(items, place[key], key, byKey[key])
    requires forall k :: 0 <= k < |items| ==> items[k].Key() in byKey
    requires |values| == |order| && forall k :: 0 <= k < |order| ==> order[k] in order && values[k] == byKey[order[k]]
    ensures Merged(items, StableSort(IssueLe, values))
  {
    hide IssueLe, StableSort, ChosenAt, Chosen, Merged, FirstWorst;
    forall k | 0 <= k < |values| ensures values[k].Key() == order[k] && Chosen(items, values[k]) {
      ChoiceIsWorst(items, place[order[k]], order[k], values[k]);
    }
    forall x | x in items ensures HasKey(values, x.Key()) {
      var k :| 0 <= k < |order| && order[k] == x.Key();
      assert values[k] in values;
    }
    SortedValuesMerge(items, values);
  }

  // ---------- The summary ----------

  datatype Action = Action(code: string, requiredBefore: string, commandHint: string, blocksCompletion: bool)

  predicate CountsRed(x: Issue) { x.severity == "red" || x.blocksCompletion }

  predicate CountsYellow(x: Issue) { x.severity == "yellow" && !x.blocksCompletion }

  function CountOf(items: seq<Issue>, counts: Issue -> bool): (n: nat)
    ensures n > 0 <==> exists x :: x in items && counts(x)
  {
    if items == [] then 0
    else CountOf(items[..|items| - 1], counts) + if counts(items[|items| - 1]) then 1 else 0
  }

  ghost function Places(items: seq<Issue>, counts: Issue -> bool): set<int> {
    set i | 0 <= i < |items| && counts(items[i])
  }

  lemma {:induction false} OneMorePlace(front: seq<Issue>, x: Issue, counts: Issue -> bool)
    ensures Places(front + [x], counts) == Places(front, counts) + if counts(x) then {|front|} else {}
    ensures |front| !in Places(front, counts)
  {
  }

  lemma {:induction false} CountIs(items: seq<Issue>, counts: Issue -> bool)
    ensures CountOf(items, counts) == |Places(items, counts)|
  {
    if items != [] {
      var front, x := items[..|items| - 1], items[|items| - 1];
      assert items == front + [x];
      OneMorePlace(front, x, counts);
      CountIs(front, counts);
      hide Places;
    }
  }

  /** The numbers of issues that count as red and as yellow. */
  lemma {:induction false} RedAndYellow(items: seq<Issue>)
    ensures CountOf(items, CountsRed)
            == |set i | 0 <= i < |items| && (items[i].severity == "red" || items[i].blocksCompletion)|
    ensures CountOf(items, CountsYellow)
            == |set i | 0 <= i < |items| && items[i].severity == "yellow" && !items[i].blocksCompletion|
  {
    CountIs(items, CountsRed);
    CountIs(items, CountsYellow);
    assert Places(items, CountsRed) == set i | 0 <= i < |items| && (items[i].severity == "red" || items[i].blocksCompletion);
    assert Places(items, CountsYellow)
      == set i | 0 <= i < |items| && items[i].severity == "yellow" && !items[i].blocksCompletion;
  }

  function Overall(items: seq<Issue>): string {
    if CountOf(items, CountsRed) > 0 then "red" else if CountOf(items, CountsYellow) > 0 then "yellow" else "green"
  }

  class Snapshot {
    var issues: seq<Issue>
    var redCount: nat
    var yellowCount: nat
    var overall: string
    var actions: seq<Action>

    /** Red are the issues that are or that block, yellow the others that are; every issue has its action. */
    ghost predicate Summarised() reads this {
      && redCount == |set i | 0 <= i < |issues| && (issues[i].severity == "red" || issues[i].blocksCompletion)|
      && yellowCount == |set i | 0 <= i < |issues| && issues[i].severity == "yellow" && !issues[i].blocksCompletion|
      && overall == Overall(issues)
      && |actions| == |issues|
      && forall i :: 0 <= i < |issues| ==>
           && actions[i].code == issues[i].code && actions[i].commandHint == issues[i].commandHint
           && actions[i].blocksCompletion == issues[i].blocksCompletion
           && (issues[i].requiredBefore == Some(actions[i].requiredBefore)
               || (issues[i].requiredBefore == None && actions[i].requiredBefore == "completion"))
    }

    constructor (found: seq<Issue>)
      ensures issues == found
    {
      issues, redCount, yellowCount, overall, actions := found, 0, 0, "green", [];
    }

    /** rebuild_issue_summary: merges the issues and recounts. */
    method Rebuild()
      modifies this
      ensures Merged(old(issues), issues) && Summarised()
    {
      hide Merged, CountOf;
      issues := DedupeIssues(issues);
      RedAndYellow(issues);
      redCount := CountOf(issues, CountsRed);
      yellowCount := CountOf(issues, CountsYellow);
      overall := if redCount > 0 then "red" else if yellowCount > 0 then "yellow" else "green";
      actions := seq(|issues|, i requires 0 <= i < |issues| reads this => ActionOf(issues[i]));
    }

    /** The merge of run_once: transitions found later are added and the summary rebuilt. Whatever was found first, the
        result is that of merging all issues at once. */
    method AddTransitions(ghost first: seq<Issue>, transitions: seq<Issue>)
      requires Merged(first, issues) && Summarised()
      modifies this
      ensures Merged(first + transitions, issues) && Summarised()
    {
      hide Merged;
      if transitions == [] {
        assert first + transitions == first;
      } else {
        MergeIsIncrementalForAll(first, issues, transitions);
        issues := issues + transitions;
        Rebuild();
      }
    }
  }

  lemma {:induction false} MergeIsIncrementalForAll(a: seq<Issue>, r: seq<Issue>, b: seq<Issue>)
    requires Merged(a, r)
    ensures forall s :: Merged(r + b, s) <==> Merged(a + b, s)
  {
    hide Merged;
    forall s ensures Merged(r + b, s) <==> Merged(a + b, s) { MergeIsIncremental(a, r, b, s); }
  }

  function ActionOf(x: Issue): Action {
    Action(x.code, if x.requiredBefore.Some? then x.requiredBefore.value else "completion", x.commandHint,
           x.blocksCompletion)
  }

  // ---------- What the summary says about what was found ----------

  predicate Known(severity: string) { severity == "green" || severity == "yellow" || severity == "red" }

  /** The summary is red exactly when something red was found, or an issue that blocks is the one kept for its key. */
  lemma {:induction false} OverallRed(items: seq<Issue>, r: seq<Issue>)
    requires Merged(items, r)
    ensures Overall(r) == "red"
            <==> (exists x :: x in items && x.severity == "red") || (exists x :: Chosen(items, x) && x.blocksCompletion)
  {
    hide SortedBy, KeysDistinct, FirstWorst;
    if x :| x in items && x.severity == "red" {
      var y := WorstOfItems(items, r, x);
      assert y in r && CountsRed(y);
    }
    if x :| Chosen(items, x) && x.blocksCompletion {
      ChosenIsKept(items, r, x);
      assert CountsRed(x);
    }
    if y :| y in r && CountsRed(y) { InItems(items, y); }
  }

  lemma {:induction false} ChosenIsKept(items: seq<Issue>, r: seq<Issue>, x: Issue)
    requires Merged(items, r) && Chosen(items, x)
    ensures x in r
  {
    hide SortedBy, KeysDistinct, Chosen;
    InItems(items, x);
    var y :| y in r && y.Key() == x.Key();
    ChosenIsUnique(items, x, y);
  }

  /** When all severities are known and nothing blocks, the summary is the worst severity found. */
  lemma {:induction false} OverallIsWorst(items: seq<Issue>, r: seq<Issue>)
    requires Merged(items, r) && forall x :: x in items ==> Known(x.severity) && !x.blocksCompletion
    ensures Overall(r) == "red" <==> exists x :: x in items && x.severity == "red"
    ensures Overall(r) == "green" <==> forall x :: x in items ==> x.severity == "green"
  {
    hide SortedBy, KeysDistinct, Chosen;
    OverallRed(items, r);
    forall x | Chosen(items, x) ensures x in items { InItems(items, x); }
    forall x | x in items && x.severity != "green" ensures Overall(r) != "green" {
      var y := WorstOfItems(items, r, x);
      InItems(items, y);
      assert CountsRed(y) || CountsYellow(y);
    }
    if y :| y in r && (CountsRed(y) || CountsYellow(y)) {
      InItems(items, y);
      assert y.severity != "green";
    }
  }

  /** An issue that blocks completion can be lost: an earlier one of the same severity, code and summary is kept. */
  lemma {:induction false} BlockingCanBeLost()
    ensures exists items: seq<Issue>, r: seq<Issue> ::
      Merged(items, r) && (exists x :: x in items && x.blocksCompletion) && Overall(r) == "yellow"
  {
    var quiet := Issue("PORT", "yellow", "busy", false, None, "");
    var items := [quiet, quiet.(blocksCompletion := true)];
    assert items[1] in items && items[1].blocksCompletion;
    assert FirstWorst(items, 0);
    assert Merged(items, [quiet]);
    assert quiet in [quiet] && CountsYellow(quiet);
    assert Overall([quiet]) == "yellow";
  }
}
