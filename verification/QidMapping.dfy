/** Matching stored question ids with the numbers on the sheet (auto_map_qids in scripts/calibrate_universal.py). */
module QidMapping {
  import opened Ordering
  import opened Wrappers

  /** One student: the stored answer of each question id, and the detected answer of each number. */
  datatype Paper = Paper(stored: map<string, string>, detected: map<int, string>)

  datatype Best = Best(qno: Option<int>, matches: int, total: nat)

  /** A stored and a detected answer that can be compared, and whether they agree. */
  predicate Comparable(p: Paper, qid: string, qno: int) {
    qid in p.stored && p.stored[qid] != "" && qno in p.detected && p.detected[qno] != ""
  }

  predicate Agrees(p: Paper, qid: string, qno: int) { Comparable(p, qid, qno) && p.stored[qid] == p.detected[qno] }

  function Count(papers: seq<Paper>, holds: Paper -> bool): nat {
    if papers == [] then 0
    else Count(papers[..|papers| - 1], holds) + if holds(papers[|papers| - 1]) then 1 else 0
  }

  function Total(papers: seq<Paper>, qid: string, qno: int): nat { Count(papers, p => Comparable(p, qid, qno)) }

  function Matches(papers: seq<Paper>, qid: string, qno: int): nat { Count(papers, p => Agrees(p, qid, qno)) }

  ghost function Places(papers: seq<Paper>, holds: Paper -> bool): set<int> {
    set k | 0 <= k < |papers| && holds(papers[k])
  }

  lemma {:induction false} OneMorePlace(front: seq<Paper>, p: Paper, holds: Paper -> bool)
    ensures Places(front + [p], holds) == Places(front, holds) + if holds(p) then {|front|} else {}
    ensures |front| !in Places(front, holds)
  {
  }

  lemma {:induction false} CountIs(papers: seq<Paper>, holds: Paper -> bool)
    ensures Count(papers, holds) == |Places(papers, holds)|
  {
    if papers != [] {
      var front, p := papers[..|papers| - 1], papers[|papers| - 1];
      assert papers == front + [p];
      OneMorePlace(front, p, holds);
      CountIs(front, holds);
      hide Places;
    }
  }

  /** Both answers are there, neither of them blank. */
  ghost predicate Answered(p: Paper, qid: string, qno: int) {
    qid in p.stored && p.stored[qid] != "" && qno in p.detected && p.detected[qno] != ""
  }

  /** The counts are those of the papers with both answers, and of those with the same one twice. */
  lemma {:induction false} CountsAreOfPapers(papers: seq<Paper>, qid: string, qno: int)
    ensures Total(papers, qid, qno) == |set k | 0 <= k < |papers| && Answered(papers[k], qid, qno)|
    ensures Matches(papers, qid, qno)
            == |set k | 0 <= k < |papers| && Answered(papers[k], qid, qno) && papers[k].stored[qid] == papers[k].detected[qno]|
  {
    CountIs(papers, p => Comparable(p, qid, qno));
    CountIs(papers, p => Agrees(p, qid, qno));
    assert Places(papers, p => Comparable(p, qid, qno)) == set k | 0 <= k < |papers| && Answered(papers[k], qid, qno);
    assert Places(papers, p => Agrees(p, qid, qno))
      == set k | 0 <= k < |papers| && Answered(papers[k], qid, qno) && papers[k].stored[qid] == papers[k].detected[qno];
  }

  method CountAnswers(papers: seq<Paper>, qid: string, qno: int) returns (matches: nat, total: nat)
    ensures matches == Matches(papers, qid, qno) && total == Total(papers, qid, qno)
    ensures total == |set k | 0 <= k < |papers| && Answered(papers[k], qid, qno)|
    ensures matches
            == |set k | 0 <= k < |papers| && Answered(papers[k], qid, qno) && papers[k].stored[qid] == papers[k].detected[qno]|
  {
    CountsAreOfPapers(papers, qid, qno);
    matches, total := 0, 0;
    for i := 0 to |papers|
      invariant matches == Count(papers[..i], p => Agrees(p, qid, qno))
      invariant total == Count(papers[..i], p => Comparable(p, qid, qno))
    {
      assert papers[..i + 1][..i] == papers[..i];
      if Comparable(papers[i], qid, qno) {
        total := total + 1;
        if papers[i].stored[qid] == papers[i].detected[qno] { matches := matches + 1; }
      }
    }
    assert papers[..|papers|] == papers;
  }

  /** The first number with most agreements among those that could be compared at all. */
  ghost predicate IsBest(papers: seq<Paper>, qid: string, totalQ: nat, b: Best) {
    match b.qno
    case None => b.matches == -1 && b.total == 0 && forall q :: 1 <= q <= totalQ ==> Total(papers, qid, q) == 0
    case Some(n) =>
      && 1 <= n <= totalQ && b.total == Total(papers, qid, n) > 0 && b.matches == Matches(papers, qid, n)
      && forall q :: 1 <= q <= totalQ && Total(papers, qid, q) > 0 ==>
           Matches(papers, qid, q) <= b.matches && (q < n ==> Matches(papers, qid, q) < b.matches)
  }

  method BestMatch(papers: seq<Paper>, qid: string, totalQ: nat) returns (b: Best)
    ensures IsBest(papers, qid, totalQ, b)
  {
    hide Total, Matches;
    b := Best(None, -1, 0);
    for qno := 1 to totalQ + 1
      invariant IsBest(papers, qid, qno - 1, b)
    {
      var matches, total := CountAnswers(papers, qid, qno);
      if total > 0 && matches > b.matches { b := Best(Some(qno), matches, total); }
    }
  }

  // ---------- Who gets a contested number ----------

  function Score(best: map<string, Best>, qid: string): int { if qid in best then best[qid].matches else -1 }

  /** Both want one number; w agrees on it more often, or as often and comes first. */
  predicate Beats(best: map<string, Best>, w: string, qid: string) {
    && w in best && qid in best && w != qid && best[w].qno == best[qid].qno
    && (best[w].matches > best[qid].matches || (best[w].matches == best[qid].matches && StringLe(w, qid)))
  }

  ghost predicate Wins(best: map<string, Best>, qid: string) {
    qid in best && best[qid].qno.Some? && forall w :: w in best ==> !Beats(best, w, qid)
  }

  /** The numbers taken when the fill pass comes to question k: those of the winners, and those filled in before. */
  ghost function TakenBefore(greedy: map<string, int>, qids: seq<string>, mapping: map<string, int>, k: nat): set<int>
    requires k <= |qids|
  {
    greedy.Values + (set m | 0 <= m < k && qids[m] in mapping :: mapping[qids[m]])
  }

  /** The least number up to n that is not taken. */
  ghost predicate IsLeastFree(taken: set<int>, n: nat, r: Option<int>) {
    match r
    case None => forall q :: 1 <= q <= n ==> q in taken
    case Some(v) => 1 <= v <= n && v !in taken && forall q :: 1 <= q < v ==> q in taken
  }

  function Lookup(m: map<string, int>, k: string): Option<int> { if k in m then Some(m[k]) else None }

  predicate Injective(m: map<string, int>) { forall a, b :: a in m && b in m && m[a] == m[b] ==> a == b }

  predicate InRange(m: map<string, int>, n: nat) { forall a :: a in m ==> 1 <= m[a] <= n }

  ghost predicate IsGreedy(best: map<string, Best>, greedy: map<string, int>) {
    && (forall q :: q in greedy <==> Wins(best, q))
    && (forall q :: q in greedy ==> q in best && best[q].qno == Some(greedy[q]))
  }

  // ---------- The greedy pass ----------

  /** By falling number of agreements, ties by id: the order in which the greedy pass meets the questions. */
  ghost predicate GreedyOrder(best: map<string, Best>, s: seq<string>) {
    && Distinct(s) && (forall q :: q in s <==> q in best)
    && forall i, j :: 0 <= i < j < |s| ==>
         Score(best, s[i]) > Score(best, s[j]) || (Score(best, s[i]) == Score(best, s[j]) && StringLe(s[i], s[j]))
  }

  lemma {:induction false} ScoresArePreorder(best: map<string, Best>, le: (string, string) -> bool)
    requires forall a, b :: le(a, b) <==> Score(best, a) >= Score(best, b)
    ensures TotalPreorder(le)
  {
  }

  method SortByMatches(best: map<string, Best>, qids: seq<string>) returns (s: seq<string>)
    requires SortedBy(qids, StringLe) && Distinct(qids) && forall q :: q in qids <==> q in best
    ensures GreedyOrder(best, s)
  {
    hide StableSort, StringLe, Distinct, TotalPreorder;
    var le := (a, b) => Score(best, a) >= Score(best, b);
    ScoresArePreorder(best, le);
    StableSortSorts(le, qids);
    StableSortDistinct(le, qids);
    StableSortTies(le, StringLe, qids);
    s := StableSort(le, qids);
    forall i, j | 0 <= i < j < |s|
      ensures Score(best, s[i]) > Score(best, s[j]) || (Score(best, s[i]) == Score(best, s[j]) && StringLe(s[i], s[j]))
    {
      assert le(s[i], s[j]);
    }
  }

  ghost predicate WantedBefore(best: map<string, Best>, s: seq<string>, k: int, v: int)
    requires k <= |s| && forall q :: q in s ==> q in best
  {
    exists m :: 0 <= m < k && best[s[m]].qno == Some(v)
  }

  ghost predicate FirstWanting(best: map<string, Best>, s: seq<string>, k: int)
    requires forall q :: q in s ==> q in best
  {
    0 <= k < |s| && best[s[k]].qno.Some? && !WantedBefore(best, s, k, best[s[k]].qno.value)
  }

  lemma {:induction false} FirstWantingWins(best: map<string, Best>, s: seq<string>, k: nat)
    requires GreedyOrder(best, s) && k < |s|
    ensures FirstWanting(best, s, k) <==> Wins(best, s[k])
  {
    hide StringLe;
    assert s[k] in s;
    forall w | w in best && w != s[k] && best[w].qno == best[s[k]].qno
      ensures Beats(best, w, s[k]) <==> exists m :: 0 <= m < k && s[m] == w
    {
      assert w in s;
      var m :| 0 <= m < |s| && s[m] == w;
      if k < m && Score(best, w) == Score(best, s[k]) && StringLe(w, s[k]) { StringAntisymmetric(w, s[k]); }
    }
    forall m | 0 <= m < k && best[s[m]].qno == best[s[k]].qno ensures Beats(best, s[m], s[k]) {
      assert s[m] in s;
    }
  }

  ghost predicate ChosenBefore(best: map<string, Best>, s: seq<string>, i: int, q: string)
    requires i <= |s| && forall x :: x in s ==> x in best
  {
    exists k :: 0 <= k < i && s[k] == q && FirstWanting(best, s, k)
  }

  /** After i questions: the numbers wanted so far are used, and whoever wanted one first has it. */
  ghost predicate GreedyTo(best: map<string, Best>, s: seq<string>, greedy: map<string, int>, used: set<int>, i: nat)
    requires i <= |s| && forall q :: q in s ==> q in best
  {
    && (forall v :: v in used <==> WantedBefore(best, s, i, v))
    && (forall q :: q in greedy <==> ChosenBefore(best, s, i, q))
    && (forall q :: q in greedy ==> q in best && best[q].qno == Some(greedy[q]))
  }

  lemma {:induction false} WantedNext(best: map<string, Best>, s: seq<string>, i: nat)
    requires i < |s| && forall q :: q in s ==> q in best
    ensures s[i] in best
    ensures forall v :: WantedBefore(best, s, i + 1, v) <==> WantedBefore(best, s, i, v) || best[s[i]].qno == Some(v)
  {
    assert s[i] in s;
  }

  lemma {:induction false} ChosenNext(best: map<string, Best>, s: seq<string>, i: nat)
    requires i < |s| && forall q :: q in s ==> q in best
    ensures s[i] in best
    ensures forall q :: ChosenBefore(best, s, i + 1, q) <==>
      ChosenBefore(best, s, i, q)
      || (q == s[i] && best[q].qno.Some? && !WantedBefore(best, s, i, best[q].qno.value))
  {
    assert s[i] in s;
    hide WantedBefore;
  }

  lemma {:induction false} GreedyTakes(best: map<string, Best>, s: seq<string>, greedy: map<string, int>,
                                       used: set<int>, i: nat, v: int)
    requires i < |s| && (forall q :: q in s ==> q in best) && GreedyTo(best, s, greedy, used, i)
    requires s[i] in best && best[s[i]].qno == Some(v) && v !in used
    ensures GreedyTo(best, s, greedy[s[i] := v], used + {v}, i + 1)
  {
    hide WantedBefore, ChosenBefore, FirstWanting;
    WantedNext(best, s, i);
    ChosenNext(best, s, i);
  }

  lemma {:induction false} GreedySkips(best: map<string, Best>, s: seq<string>, greedy: map<string, int>,
                                       used: set<int>, i: nat)
    requires i < |s| && (forall q :: q in s ==> q in best) && GreedyTo(best, s, greedy, used, i)
    requires s[i] in best && (best[s[i]].qno.Some? ==> best[s[i]].qno.value in used)
    ensures GreedyTo(best, s, greedy, used, i + 1)
  {
    hide WantedBefore, ChosenBefore, FirstWanting;
    WantedNext(best, s, i);
    ChosenNext(best, s, i);
  }

  method GreedyPass(best: map<string, Best>, qids: seq<string>) returns (greedy: map<string, int>)
    requires SortedBy(qids, StringLe) && Distinct(qids) && forall q :: q in qids <==> q in best
    ensures IsGreedy(best, greedy)
  {
    var s := SortByMatches(best, qids);
    hide SortedBy, StringLe, Distinct, GreedyTo, Wins;
    greedy := map[];
    var used: set<int> := {};
    NothingChosen(best, s);
    for i := 0 to |s|
      invariant GreedyTo(best, s, greedy, used, i)
    {
      assert s[i] in s;
      var qno := best[s[i]].qno;
      if qno.Some? && qno.value !in used {
        GreedyTakes(best, s, greedy, used, i, qno.value);
        greedy, used := greedy[s[i] := qno.value], used + {qno.value};
      } else {
        GreedySkips(best, s, greedy, used, i);
      }
    }
    FirstOnesWin(best, s, greedy, used);
  }

  lemma {:induction false} NothingChosen(best: map<string, Best>, s: seq<string>)
    requires forall q :: q in s ==> q in best
    ensures GreedyTo(best, s, map[], {}, 0)
  {
  }

  lemma {:induction false} FirstOnesWin(best: map<string, Best>, s: seq<string>, greedy: map<string, int>,
                                        used: set<int>)
    requires GreedyOrder(best, s) && GreedyTo(best, s, greedy, used, |s|)
    ensures IsGreedy(best, greedy)
  {
    hide FirstWanting, WantedBefore, Wins;
    forall q | q !in best ensures !Wins(best, q) { OnlyKnownWin(best, q); }
    forall q ensures q in greedy <==> Wins(best, q) {
      if q in best {
        assert q in s;
        var k :| 0 <= k < |s| && s[k] == q;
        FirstWantingWins(best, s, k);
        assert Distinct(s);
      }
    }
  }

  lemma {:induction false} OnlyKnownWin(best: map<string, Best>, q: string)
    ensures Wins(best, q) ==> q in best
  {
  }

  lemma {:induction false} StringConnex(a: string, b: string)
    ensures StringLe(a, b) || StringLe(b, a)
  {
    StringTotalOrder();
  }

  lemma {:induction false} WinnersDiffer(best: map<string, Best>, greedy: map<string, int>)
    requires IsGreedy(best, greedy)
    ensures Injective(greedy)
  {
    hide StringLe;
    forall a, b | a in greedy && b in greedy && greedy[a] == greedy[b] ensures a == b {
      StringConnex(a, b);
      assert Wins(best, a) && Wins(best, b);
      assert a == b || Beats(best, a, b) || Beats(best, b, a);
    }
  }

  /** Every number somebody wants has a winner; whoever wants it is the winner or is beaten by the winner. */
  lemma {:induction false} WinnerExists(best: map<string, Best>, qid: string) returns (w: string)
    requires qid in best && best[qid].qno.Some?
    ensures Wins(best, w) && best[w].qno == best[qid].qno && (w == qid || Beats(best, w, qid))
  {
    StringTotalOrder();
    hide StringLe;
    var le := (a: string, b: string) =>
      Score(best, a) > Score(best, b) || (Score(best, a) == Score(best, b) && StringLe(a, b));
    assert TotalOrder(le);
    var rivals := set q | q in best && best[q].qno == best[qid].qno;
    assert qid in rivals;
    LeastExists(rivals, le);
    w :| w in rivals && forall x :: x in rivals ==> le(w, x);
    forall x | x in best ensures !Beats(best, x, w) {
      if x in rivals && Score(best, x) == Score(best, w) && StringLe(x, w) { StringAntisymmetric(x, w); }
    }
  }

  // ---------- The fill pass ----------

  method LeastFree(used: set<int>, n: nat) returns (r: Option<int>)
    ensures IsLeastFree(used, n, r)
  {
    for qno := 1 to n + 1
      invariant forall q :: 1 <= q < qno ==> q in used
    {
      if qno !in used { return Some(qno); }
    }
    return None;
  }

  /** After k questions: the winners keep theirs, and each other one met so far has the least number free for it. */
  ghost predicate FilledTo(greedy: map<string, int>, qids: seq<string>, n: nat, mapping: map<string, int>, k: nat)
    requires k <= |qids|
  {
    && (forall q :: q in greedy ==> q in mapping && mapping[q] == greedy[q])
    && (forall q :: q in mapping ==> q in greedy || q in qids[..k])
    && Injective(mapping) && InRange(mapping, n)
    && (forall m :: 0 <= m < k && qids[m] !in greedy ==>
          IsLeastFree(TakenBefore(greedy, qids, mapping, m), n, Lookup(mapping, qids[m])))
    && ((forall m :: 0 <= m < k ==> qids[m] in mapping) || forall v :: 1 <= v <= n ==> v in mapping.Values)
  }

  lemma {:induction false} TakenIsUsed(greedy: map<string, int>, qids: seq<string>, mapping: map<string, int>, k: nat)
    requires k <= |qids|
    requires forall q :: q in greedy ==> q in mapping && mapping[q] == greedy[q]
    requires forall q :: q in mapping ==> q in greedy || q in qids[..k]
    ensures TakenBefore(greedy, qids, mapping, k) == mapping.Values
  {
    forall v | v in mapping.Values ensures v in TakenBefore(greedy, qids, mapping, k) {
      var q :| q in mapping && mapping[q] == v;
      if q !in greedy { var m :| 0 <= m < k && qids[..k][m] == q; }
    }
    forall v | v in greedy.Values ensures v in mapping.Values {
      var q :| q in greedy && greedy[q] == v;
      assert mapping[q] == v;
    }
  }

  lemma {:induction false} TakenStays(greedy: map<string, int>, qids: seq<string>, mapping: map<string, int>,
                                      qid: string, v: int, m: nat)
    requires m <= |qids| && qid !in mapping && forall j :: 0 <= j < m ==> qids[j] != qid
    ensures TakenBefore(greedy, qids, mapping[qid := v], m) == TakenBefore(greedy, qids, mapping, m)
  {
    var after := mapping[qid := v];
    forall j | 0 <= j < m ensures qids[j] in after <==> qids[j] in mapping { assert qids[j] != qid; }
    assert (set j | 0 <= j < m && qids[j] in after :: after[qids[j]])
        == (set j | 0 <= j < m && qids[j] in mapping :: mapping[qids[j]]);
  }

  /** Nothing to fill in: the question has its number already. */
  lemma {:induction false} FillSkips(greedy: map<string, int>, qids: seq<string>, n: nat, mapping: map<string, int>,
                                     k: nat)
    requires Distinct(qids) && k < |qids| && FilledTo(greedy, qids, n, mapping, k) && qids[k] in mapping
    ensures FilledTo(greedy, qids, n, mapping, k + 1)
  {
    hide TakenBefore, IsLeastFree, Injective, InRange;
    assert qids[k] !in qids[..k];
    assert qids[..k + 1] == qids[..k] + [qids[k]];
  }

  lemma {:induction false} FillFails(greedy: map<string, int>, qids: seq<string>, n: nat, mapping: map<string, int>,
                                     k: nat)
    requires k < |qids| && FilledTo(greedy, qids, n, mapping, k) && qids[k] !in mapping
    requires IsLeastFree(mapping.Values, n, None)
    ensures FilledTo(greedy, qids, n, mapping, k + 1)
  {
    hide TakenBefore, Injective, InRange;
    TakenIsUsed(greedy, qids, mapping, k);
    assert qids[..k + 1] == qids[..k] + [qids[k]];
  }

  lemma {:induction false} FillTakes(greedy: map<string, int>, qids: seq<string>, n: nat, mapping: map<string, int>,
                                     k: nat, v: int)
    requires Distinct(qids) && k < |qids| && FilledTo(greedy, qids, n, mapping, k) && qids[k] !in mapping
    requires IsLeastFree(mapping.Values, n, Some(v))
    ensures FilledTo(greedy, qids, n, mapping[qids[k] := v], k + 1)
    ensures mapping[qids[k] := v].Values == mapping.Values + {v}
  {
    hide TakenBefore, IsLeastFree;
    var after := mapping[qids[k] := v];
    assert qids[..k + 1] == qids[..k] + [qids[k]];
    TakenIsUsed(greedy, qids, mapping, k);
    forall m | 0 <= m <= k ensures TakenBefore(greedy, qids, after, m) == TakenBefore(greedy, qids, mapping, m) {
      TakenStays(greedy, qids, mapping, qids[k], v, m);
    }
    ValuesGrow(mapping, qids[k], v);
    FreeInRange(mapping, n, v);
    forall m | 0 <= m < k + 1 && qids[m] !in greedy
      ensures IsLeastFree(TakenBefore(greedy, qids, after, m), n, Lookup(after, qids[m]))
    {
      assert m < k ==> qids[m] != qids[k];
    }
  }

  lemma {:induction false} ValuesGrow(mapping: map<string, int>, qid: string, v: int)
    requires qid !in mapping
    ensures mapping[qid := v].Values == mapping.Values + {v}
  {
    var after := mapping[qid := v];
    assert after[qid] == v;
    forall x | x in mapping.Values ensures x in after.Values {
      var q :| q in mapping && mapping[q] == x;
      assert after[q] == x;
    }
  }

  lemma {:induction false} FreeInRange(mapping: map<string, int>, n: nat, v: int)
    requires IsLeastFree(mapping.Values, n, Some(v))
    ensures 1 <= v <= n && forall q :: q in mapping ==> mapping[q] != v
  {
  }

  /** Questions without a number get the least one free, in the order of their ids. */
  method FillPass(qids: seq<string>, greedy: map<string, int>, n: nat) returns (mapping: map<string, int>)
    requires Distinct(qids) && Injective(greedy) && InRange(greedy, n) && forall q :: q in greedy ==> q in qids
    ensures FilledTo(greedy, qids, n, mapping, |qids|)
  {
    hide Distinct, Injective, InRange, IsLeastFree, TakenBefore;
    mapping := greedy;
    var used := greedy.Values;
    for k := 0 to |qids|
      invariant FilledTo(greedy, qids, n, mapping, k) && used == mapping.Values
    {
      var qid := qids[k];
      if qid in mapping {
        FillSkips(greedy, qids, n, mapping, k);
      } else {
        var free := LeastFree(used, n);
        match free {
          case Some(v) =>
            FillTakes(greedy, qids, n, mapping, k, v);
            mapping, used := mapping[qid := v], used + {v};
          case None => FillFails(greedy, qids, n, mapping, k);
        }
      }
    }
  }

  // ---------- The whole mapping ----------

  function Numbers(n: nat): (s: set<int>)
    ensures |s| == n && forall v :: v in s <==> 1 <= v <= n
  {
    if n == 0 then {} else Numbers(n - 1) + {n}
  }

  lemma {:induction false} InjectiveSize(m: map<string, int>)
    requires Injective(m)
    ensures |m.Values| == |m|
    decreases |m|
  {
    if m == map[] {
      assert m.Values == {};
    } else {
      var q :| q in m;
      RemoveOne(m, q);
      InjectiveSize(m - {q});
    }
  }

  lemma {:induction false} RemoveOne(m: map<string, int>, q: string)
    requires Injective(m) && q in m
    ensures Injective(m - {q}) && |m - {q}| == |m| - 1 && |(m - {q}).Values| == |m.Values| - 1
  {
    var rest := m - {q};
    ValuesGrow(rest, q, m[q]);
    assert rest[q := m[q]] == m;
    assert m[q] !in rest.Values;
  }

  lemma {:induction false} SubsetSize(a: set<int>, b: set<int>)
    requires a <= b
    ensures |a| <= |b| && (|a| == |b| ==> a == b)
  {
    assert b == a + (b - a) && |b| == |a| + |b - a|;
  }

  lemma {:induction false} KeysSize(m: map<string, int>, qids: seq<string>)
    requires Distinct(qids) && forall q :: q in m ==> q in qids
    ensures |m| <= |qids| && ((forall q :: q in qids ==> q in m) ==> |m| == |qids|)
  {
    hide Distinct;
    var all := set q | q in qids;
    DistinctSize(qids, all);
    assert m.Keys <= all;
    assert |all| == |m.Keys| + |all - m.Keys| by { assert all == m.Keys + (all - m.Keys); }
    if forall q :: q in qids ==> q in m { assert all == m.Keys; }
  }

  lemma {:induction false} DistinctSize(s: seq<string>, all: set<string>)
    requires Distinct(s) && forall q :: q in s <==> q in all
    ensures |all| == |s|
  {
    if s == [] {
      assert all == {};
    } else {
      var n := |s| - 1;
      assert s == s[..n] + [s[n]] && s[n] !in s[..n];
      DistinctSize(s[..n], all - {s[n]});
    }
  }

  lemma {:induction false} NumbersSize(m: map<string, int>, n: nat)
    requires Injective(m) && InRange(m, n)
    ensures |m| <= n && ((forall v :: 1 <= v <= n ==> v in m.Values) ==> |m| == n)
  {
    InjectiveSize(m);
    assert m.Values <= Numbers(n);
    SubsetSize(m.Values, Numbers(n));
    if forall v :: 1 <= v <= n ==> v in m.Values { assert m.Values == Numbers(n); }
  }

  lemma {:induction false} MappingSize(greedy: map<string, int>, qids: seq<string>, n: nat, mapping: map<string, int>)
    requires Distinct(qids) && FilledTo(greedy, qids, n, mapping, |qids|) && forall q :: q in greedy ==> q in qids
    ensures |mapping| == if |qids| <= n then |qids| else n
    ensures forall q :: q in mapping ==> q in qids
  {
    hide Distinct, TakenBefore, IsLeastFree, Injective, InRange;
    assert qids[..|qids|] == qids;
    NumbersSize(mapping, n);
    KeysSize(mapping, qids);
  }

  method BestMatches(papers: seq<Paper>, qids: seq<string>, n: nat) returns (best: map<string, Best>)
    ensures forall q :: q in qids <==> q in best
    ensures forall q :: q in best ==> IsBest(papers, q, n, best[q])
  {
    hide IsBest;
    best := map[];
    for i := 0 to |qids|
      invariant forall q :: q in best <==> q in qids[..i]
      invariant forall q :: q in best ==> IsBest(papers, q, n, best[q])
    {
      var b := BestMatch(papers, qids[i], n);
      best := best[qids[i] := b];
      assert qids[..i + 1] == qids[..i] + [qids[i]];
    }
    assert qids[..|qids|] == qids;
  }

  /** The ids in increasing order. */
  ghost predicate Lists(qids: seq<string>, known: set<string>) {
    SortedBy(qids, StringLe) && Distinct(qids) && forall q :: q in qids <==> q in known
  }

  /** A question that agrees best with some number gets it, or one that beats it for that very number does. */
  ghost predicate Served(best: map<string, Best>, mapping: map<string, int>, q: string) {
    q in best && best[q].qno.Some? ==>
      exists w :: w in mapping && mapping[w] == best[q].qno.value && Wins(best, w) && (w == q || Beats(best, w, q))
  }

  lemma {:induction false} WinnerServes(best: map<string, Best>, greedy: map<string, int>, qids: seq<string>, n: nat,
                                        mapping: map<string, int>, q: string)
    requires IsGreedy(best, greedy) && FilledTo(greedy, qids, n, mapping, |qids|)
    ensures Served(best, mapping, q)
  {
    hide Wins, Beats, TakenBefore, IsLeastFree, Injective, InRange;
    if q in best && best[q].qno.Some? {
      var w := WinnerExists(best, q);
      assert w in greedy;
    }
  }

  /**
   auto_map_qids, from the papers that could be read; `known` are the ids of all stored answers.
   As many questions as possible get a number, no two the same; contested numbers go to the winners, and the rest are
   filled in order.
   */
  method AutoMapQids(papers: seq<Paper>, known: set<string>, totalQ: nat)
      returns (mapping: map<string, int>, qids: seq<string>, best: map<string, Best>, greedy: map<string, int>)
    ensures Lists(qids, known) && best.Keys == known && forall q :: q in best ==> IsBest(papers, q, totalQ, best[q])
    ensures IsGreedy(best, greedy) && FilledTo(greedy, qids, totalQ, mapping, |qids|)
    ensures Injective(mapping) && InRange(mapping, totalQ) && mapping.Keys <= known
    ensures |mapping| == if |known| <= totalQ then |known| else totalQ
    ensures forall q :: Served(best, mapping, q)
  {
    StringTotalOrder();
    hide StringLe, TotalOrder, SortedBy, Distinct, IsBest, Wins, Beats, Injective, InRange, Served;
    hide TakenBefore, IsLeastFree;
    qids := Sorted(known, StringLe);
    best := BestMatches(papers, qids, totalQ);
    greedy := GreedyPass(best, qids);
    WinnersDiffer(best, greedy);
    BestInRange(papers, best, greedy, totalQ);
    mapping := FillPass(qids, greedy, totalQ);
    MappingSize(greedy, qids, totalQ, mapping);
    forall q ensures Served(best, mapping, q) { WinnerServes(best, greedy, qids, totalQ, mapping, q); }
  }

  lemma {:induction false} BestInRange(papers: seq<Paper>, best: map<string, Best>, greedy: map<string, int>, n: nat)
    requires IsGreedy(best, greedy) && forall q :: q in best ==> IsBest(papers, q, n, best[q])
    ensures InRange(greedy, n)
  {
    hide Total, Matches, Beats;
  }

  // ---------- These properties leave no choice ----------

  lemma {:induction false} LeastFreeIsUnique(taken: set<int>, n: nat, a: Option<int>, b: Option<int>)
    requires IsLeastFree(taken, n, a) && IsLeastFree(taken, n, b)
    ensures a == b
  {
    if a.Some? && b.Some? { assert a.value == b.value; }
  }

  lemma {:induction false} SameTaken(greedy: map<string, int>, qids: seq<string>, a: map<string, int>,
                                     b: map<string, int>, k: nat)
    requires k <= |qids| && forall m :: 0 <= m < k ==> Lookup(a, qids[m]) == Lookup(b, qids[m])
    ensures TakenBefore(greedy, qids, a, k) == TakenBefore(greedy, qids, b, k)
  {
    forall m | 0 <= m < k ensures (qids[m] in a <==> qids[m] in b) && (qids[m] in a ==> a[qids[m]] == b[qids[m]]) {
      assert Lookup(a, qids[m]) == Lookup(b, qids[m]);
    }
    assert (set m | 0 <= m < k && qids[m] in a :: a[qids[m]]) == (set m | 0 <= m < k && qids[m] in b :: b[qids[m]]);
  }

  lemma {:induction false} SameFill(greedy: map<string, int>, qids: seq<string>, n: nat, a: map<string, int>,
                                    b: map<string, int>, k: nat)
    requires k <= |qids| && FilledTo(greedy, qids, n, a, |qids|) && FilledTo(greedy, qids, n, b, |qids|)
    ensures forall m :: 0 <= m < k ==> Lookup(a, qids[m]) == Lookup(b, qids[m])
  {
    hide TakenBefore, IsLeastFree, Injective, InRange;
    if k > 0 {
      SameFill(greedy, qids, n, a, b, k - 1);
      SameTaken(greedy, qids, a, b, k - 1);
      var q := qids[k - 1];
      if q !in greedy {
        LeastFreeIsUnique(TakenBefore(greedy, qids, a, k - 1), n, Lookup(a, q), Lookup(b, q));
      }
    }
  }

  /** The winners, and the least free number for each other question in turn, determine the mapping. */
  lemma {:induction false} MappingIsDetermined(best: map<string, Best>, greedy: map<string, int>,
                                               other: map<string, int>, qids: seq<string>, n: nat,
                                               a: map<string, int>, b: map<string, int>)
    requires IsGreedy(best, greedy) && FilledTo(greedy, qids, n, a, |qids|)
    requires IsGreedy(best, other) && FilledTo(other, qids, n, b, |qids|)
    ensures a == b
  {
    hide Wins, TakenBefore, IsLeastFree, Injective, InRange;
    assert greedy == other;
    SameFill(greedy, qids, n, a, b, |qids|);
    assert qids[..|qids|] == qids;
    forall q ensures Lookup(a, q) == Lookup(b, q) {
      if q in qids { var m :| 0 <= m < |qids| && qids[m] == q; }
    }
    SameLookups(a, b);
  }

  lemma {:induction false} SameLookups(a: map<string, int>, b: map<string, int>)
    requires forall q :: Lookup(a, q) == Lookup(b, q)
    ensures a == b
  {
    forall q ensures (q in a <==> q in b) && (q in a ==> a[q] == b[q]) {
      assert Lookup(a, q) == Lookup(b, q);
    }
  }
}
