/** The cut lines inside an essay region, kept by shifting indices (handlers in frontend/src/card-editor/interact.js). */
module CutLines {
  import opened Ordering
  import opened Wrappers

  /** A sub-question: what it holds, and the number shown for it. */
  datatype Sub = Sub(content: string, number: int)

  /** Cuts stand in different gaps, and never after the last sub-question. */
  ghost predicate ValidCuts(cuts: seq<int>, subs: nat) {
    Distinct(cuts) && forall i :: 0 <= i < |cuts| ==> 0 <= cuts[i] < subs - 1
  }

  // ---------- Deleting a sub-question ----------

  function Renumbered(subs: seq<Sub>): seq<Sub> {
    seq(|subs|, i requires 0 <= i < |subs| => subs[i].(number := i + 1))
  }

  function WithoutSub(subs: seq<Sub>, si: nat): seq<Sub>
    requires si < |subs|
  {
    Renumbered(subs[..si] + subs[si + 1..])
  }

  function InRange(cuts: seq<int>, subs: nat): seq<int> {
    if cuts == [] then []
    else (if 0 <= cuts[0] < subs - 1 then [cuts[0]] else []) + InRange(cuts[1..], subs)
  }

  /** Drops the cut after the deleted sub-question and moves the later ones up. */
  function Shifted(cuts: seq<int>, si: int): seq<int> {
    if cuts == [] then []
    else (if cuts[0] == si then [] else [if cuts[0] > si then cuts[0] - 1 else cuts[0]]) + Shifted(cuts[1..], si)
  }

  /** Where sub-question k stands once sub-question si is gone. */
  function Moved(k: int, si: int): int { if k > si then k - 1 else k }

  lemma {:induction false} ShiftedMembers(cuts: seq<int>, si: int)
    ensures forall k :: k != si ==> (Moved(k, si) in Shifted(cuts, si) <==> k in cuts)
    ensures forall p :: p in Shifted(cuts, si) ==> exists k :: k in cuts && k != si && p == Moved(k, si)
  {
    if cuts != [] {
      ShiftedMembers(cuts[1..], si);
      var head, rest := cuts[0], Shifted(cuts[1..], si);
      assert forall k :: k in cuts <==> k == head || k in cuts[1..];
      assert head != si ==> Shifted(cuts, si) == [Moved(head, si)] + rest;
      assert head == si ==> Shifted(cuts, si) == rest;
      forall p | p in Shifted(cuts, si) ensures exists k :: k in cuts && k != si && p == Moved(k, si) {
        if p in rest {
          var k :| k in cuts[1..] && k != si && p == Moved(k, si);
          assert k in cuts;
        } else {
          assert p == Moved(head, si) && head in cuts;
        }
      }
    }
  }

  lemma {:induction false} ShiftedDistinct(cuts: seq<int>, si: int)
    requires Distinct(cuts)
    ensures Distinct(Shifted(cuts, si))
  {
    if cuts != [] {
      var rest := cuts[1..];
      assert Distinct(rest) && forall i :: 0 <= i < |rest| ==> rest[i] == cuts[i + 1];
      ShiftedDistinct(rest, si);
      if cuts[0] != si {
        assert cuts[0] !in rest;
        ShiftedMembers(rest, si);
        assert Moved(cuts[0], si) !in Shifted(rest, si);
        var tail := Shifted(rest, si);
        assert Shifted(cuts, si) == [Moved(cuts[0], si)] + tail;
        PrependDistinct(Moved(cuts[0], si), tail);
      } else {
        assert Shifted(cuts, si) == Shifted(rest, si);
      }
    }
  }

  lemma {:induction false} PrependDistinct(x: int, s: seq<int>)
    requires Distinct(s) && x !in s
    ensures Distinct([x] + s)
  {
  }

  lemma {:induction false} InRangeMembers(cuts: seq<int>, subs: nat)
    ensures forall p :: p in InRange(cuts, subs) <==> p in cuts && 0 <= p < subs - 1
    ensures Distinct(cuts) ==> Distinct(InRange(cuts, subs))
  {
    if cuts != [] {
      var rest := cuts[1..];
      assert forall i :: 0 <= i < |rest| ==> rest[i] == cuts[i + 1];
      assert Distinct(cuts) ==> Distinct(rest) && cuts[0] !in rest;
      InRangeMembers(rest, subs);
      assert forall k :: k in cuts <==> k == cuts[0] || k in rest;
      assert [] + InRange(rest, subs) == InRange(rest, subs);
      if Distinct(cuts) && 0 <= cuts[0] < subs - 1 { PrependDistinct(cuts[0], InRange(rest, subs)); }
    }
  }

  /** The cuts that remain after deleting sub-question si out of n. */
  function CutsAfterDelete(cuts: seq<int>, si: nat, n: nat): seq<int>
    requires n > 0
  {
    InRange(Shifted(cuts, si), n - 1)
  }

  lemma {:induction false} SubsMove(subs: seq<Sub>, si: nat)
    requires si < |subs|
    ensures var left := WithoutSub(subs, si);
      && |left| == |subs| - 1
      && forall k :: 0 <= k < |subs| && k != si ==>
           left[Moved(k, si)].content == subs[k].content && left[Moved(k, si)].number == Moved(k, si) + 1
  {
  }

  lemma {:induction false} CutsMove(cuts: seq<int>, n: nat, si: nat)
    requires si < n && ValidCuts(cuts, n)
    ensures var kept := CutsAfterDelete(cuts, si, n);
      && ValidCuts(kept, n - 1)
      && forall k :: 0 <= k < n && k != si ==> (Moved(k, si) in kept <==> k in cuts && Moved(k, si) != n - 2)
  {
    hide Shifted, InRange;
    ShiftedMembers(cuts, si);
    ShiftedDistinct(cuts, si);
    hide Distinct;
    InRangeMembers(Shifted(cuts, si), n - 1);
    var kept := CutsAfterDelete(cuts, si, n);
    assert forall i :: 0 <= i < |kept| ==> kept[i] in kept;
    assert forall k :: k in cuts ==> 0 <= k < n - 1;
  }

  /** Every other sub-question keeps its cut, at its new place, unless it has become the last one; no cut appears. */
  lemma {:induction false} CutsFollowTheirSubs(subs: seq<Sub>, cuts: seq<int>, si: nat)
    requires si < |subs| && ValidCuts(cuts, |subs|)
    ensures var left, kept := WithoutSub(subs, si), CutsAfterDelete(cuts, si, |subs|);
      && |left| == |subs| - 1 && ValidCuts(kept, |left|)
      && (forall k :: 0 <= k < |subs| && k != si ==>
            && left[Moved(k, si)].content == subs[k].content && left[Moved(k, si)].number == Moved(k, si) + 1
            && (Moved(k, si) in kept <==> k in cuts && Moved(k, si) != |left| - 1))
  {
    hide WithoutSub, CutsAfterDelete, ValidCuts;
    SubsMove(subs, si);
    CutsMove(cuts, |subs|, si);
  }

  // ---------- Adding a cut ----------

  /** The i-th gap tried: from the middle one on, and round to the start again. */
  function Candidate(gaps: nat, i: nat): (p: int)
    requires 0 < gaps
    ensures 0 <= p < gaps
  {
    (gaps / 2 + i) % gaps
  }

  /** The first free gap looking on from the middle one and round to the start again, among the first n candidates. */
  function FreeGap(cuts: seq<int>, gaps: nat, n: nat): Option<int>
    requires 0 < gaps
  {
    if n == 0 then None
    else if FreeGap(cuts, gaps, n - 1).Some? then FreeGap(cuts, gaps, n - 1)
    else
      var candidate := Candidate(gaps, n - 1);
      if candidate !in cuts then Some(candidate) else None
  }

  lemma {:induction false} Wrap(p: int, gaps: nat)
    requires 0 <= p < gaps
    ensures (p + gaps) % gaps == p
  {
  }

  lemma {:induction false} Wraps(gaps: nat, p: int) returns (i: nat)
    requires 0 <= p < gaps
    ensures i < gaps && Candidate(gaps, i) == p
  {
    if p >= gaps / 2 {
      i := p - gaps / 2;
    } else {
      i := p + gaps - gaps / 2;
      Wrap(p, gaps);
      assert gaps / 2 + i == p + gaps;
    }
  }

  lemma {:induction false} FreeGapMeaning(cuts: seq<int>, gaps: nat, n: nat)
    requires 0 < gaps
    ensures var g := FreeGap(cuts, gaps, n);
      && (g.Some? ==> 0 <= g.value < gaps && g.value !in cuts)
      && (g.None? ==> forall i :: 0 <= i < n ==> Candidate(gaps, i) in cuts)
  {
    hide Candidate;
    if n > 0 { FreeGapMeaning(cuts, gaps, n - 1); }
  }

  lemma {:induction false} CandidateAt(gaps: nat, i: nat)
    requires i < gaps
    ensures Candidate(gaps, i) == if gaps / 2 + i < gaps then gaps / 2 + i else gaps / 2 + i - gaps
  {
    if gaps / 2 + i >= gaps { Wrap(gaps / 2 + i - gaps, gaps); }
  }

  lemma {:induction false} FreeGapIsFirst(cuts: seq<int>, gaps: nat, n: nat)
    requires 0 < gaps && FreeGap(cuts, gaps, n).Some?
    ensures exists i ::
      && 0 <= i < n && Candidate(gaps, i) == FreeGap(cuts, gaps, n).value
      && forall j :: 0 <= j < i ==> Candidate(gaps, j) in cuts
  {
    hide Candidate;
    if FreeGap(cuts, gaps, n - 1).Some? {
      FreeGapIsFirst(cuts, gaps, n - 1);
    } else {
      FreeGapMeaning(cuts, gaps, n - 1);
    }
  }

  /** All gaps that come before p, looking on from the middle one and round to the start again, have a cut. */
  ghost predicate TakenBefore(cuts: seq<int>, gaps: nat, p: int) {
    && (forall q :: gaps / 2 <= q < (if p >= gaps / 2 then p else gaps) ==> q in cuts)
    && (p < gaps / 2 ==> forall q :: 0 <= q < p ==> q in cuts)
  }

  /** The search round the gaps finds one exactly when one is free, and then the first free one from the middle on. */
  lemma {:induction false} FreeGapExact(cuts: seq<int>, gaps: nat)
    requires 0 < gaps
    ensures var g := FreeGap(cuts, gaps, gaps);
      && (g.Some? ==> 0 <= g.value < gaps && g.value !in cuts && TakenBefore(cuts, gaps, g.value))
      && (g.Some? <==> exists p :: 0 <= p < gaps && p !in cuts)
  {
    hide Candidate;
    FreeGapMeaning(cuts, gaps, gaps);
    if p :| 0 <= p < gaps && p !in cuts {
      var i := Wraps(gaps, p);
      assert Candidate(gaps, i) in cuts || FreeGap(cuts, gaps, gaps).Some?;
    }
    if FreeGap(cuts, gaps, gaps).Some? { FoundFirst(cuts, gaps, FreeGap(cuts, gaps, gaps).value); }
  }

  lemma {:induction false} FoundFirst(cuts: seq<int>, gaps: nat, p: int)
    requires 0 < gaps && FreeGap(cuts, gaps, gaps) == Some(p) && 0 <= p < gaps
    ensures TakenBefore(cuts, gaps, p)
  {
    hide Candidate, FreeGap;
    FreeGapIsFirst(cuts, gaps, gaps);
    var i :| 0 <= i < gaps && Candidate(gaps, i) == p && forall j :: 0 <= j < i ==> Candidate(gaps, j) in cuts;
    CandidateAt(gaps, i);
    forall q | gaps / 2 <= q < (if p >= gaps / 2 then p else gaps) ensures q in cuts {
      CandidateAt(gaps, q - gaps / 2);
      assert Candidate(gaps, q - gaps / 2) in cuts;
    }
    if p < gaps / 2 {
      forall q | 0 <= q < p ensures q in cuts {
        CandidateAt(gaps, q + gaps - gaps / 2);
        assert Candidate(gaps, q + gaps - gaps / 2) in cuts;
      }
    }
  }

  lemma {:induction false} AppendCut(cuts: seq<int>, subs: nat, p: int)
    requires ValidCuts(cuts, subs) && 0 <= p < subs - 1 && p !in cuts
    ensures ValidCuts(cuts + [p], subs)
  {
  }

  // ---------- Dragging a cut ----------

  function Abs(x: real): (r: real)
    ensures r >= 0.0 && (r == x || r == -x)
  {
    if x < 0.0 then -x else x
  }

  /** Cut positions other than that of cut `idx`. */
  predicate Used(cuts: seq<int>, idx: nat, p: int) {
    exists i :: 0 <= i < |cuts| && i != idx && cuts[i] == p
  }

  /** p is a gap no other cut uses, and no such gap is nearer to the mouse; the first of equally near ones. */
  ghost predicate NearestFree(cuts: seq<int>, idx: nat, gaps: seq<real>, y: real, n: nat, p: int) {
    && 0 <= p < n <= |gaps| && !Used(cuts, idx, p)
    && (forall q :: 0 <= q < n && !Used(cuts, idx, q) ==> Abs(y - gaps[p]) <= Abs(y - gaps[q]))
    && (forall q :: 0 <= q < p && !Used(cuts, idx, q) ==> Abs(y - gaps[p]) < Abs(y - gaps[q]))
  }

  method Closest(cuts: seq<int>, idx: nat, gaps: seq<real>, y: real) returns (closest: Option<int>)
    ensures closest.None? ==> forall q :: 0 <= q < |gaps| ==> Used(cuts, idx, q)
    ensures closest.Some? ==> NearestFree(cuts, idx, gaps, y, |gaps|, closest.value)
  {
    closest := None;
    for g := 0 to |gaps|
      invariant closest.None? ==> forall q :: 0 <= q < g ==> Used(cuts, idx, q)
      invariant closest.Some? ==> NearestFree(cuts, idx, gaps, y, g, closest.value)
    {
      if !Used(cuts, idx, g) {
        if closest.None? || Abs(y - gaps[g]) < Abs(y - gaps[closest.value]) {
          closest := Some(g);
        }
      }
    }
  }

  // ---------- The region ----------

  method RenumberSubs(subs: seq<Sub>) returns (r: seq<Sub>)
    ensures r == Renumbered(subs)
  {
    r := subs;
    for i := 0 to |subs|
      invariant |r| == |subs| && forall k :: 0 <= k < |subs| ==> r[k] == if k < i then subs[k].(number := k + 1) else subs[k]
    {
      r := r[i := r[i].(number := i + 1)];
    }
  }

  class EssayRegion {
    var subs: seq<Sub>
    var cuts: seq<int>

    constructor (subs: seq<Sub>)
      ensures this.subs == subs && cuts == [] && Valid()
    {
      this.subs, cuts := subs, [];
    }

    ghost predicate Valid()
      reads this
    {
      ValidCuts(cuts, |subs|)
    }

    /** Menu entry offered for at least two sub-questions: a cut in the first free gap from the middle on. */
    method AddCut()
      requires Valid() && |subs| >= 2
      modifies this`cuts
      ensures Valid()
      ensures var gap := FreeGap(old(cuts), |subs| - 1, |subs| - 1);
        cuts == if gap.Some? then old(cuts) + [gap.value] else old(cuts)
    {
      var maxPos := |subs| - 1;
      var pos := maxPos / 2;
      assert Candidate(maxPos, 0) == pos;
      hide Candidate, ValidCuts;
      var i := 0;
      var found := false;
      while i < maxPos && !found
        invariant 0 <= i <= maxPos && cuts == old(cuts)
        invariant found ==> FreeGap(cuts, maxPos, maxPos) == Some(pos) && 0 <= pos < maxPos && pos !in cuts
        invariant !found ==> FreeGap(cuts, maxPos, i) == None && pos == Candidate(maxPos, 0)
      {
        var candidate := Candidate(maxPos, i);
        if candidate !in cuts {
          pos, found := candidate, true;
          FreeGapStays(cuts, maxPos, i + 1, maxPos);
        }
        i := i + 1;
      }
      FreeGapMeaning(cuts, maxPos, maxPos);
      if pos !in cuts {
        AppendCut(cuts, |subs|, pos);
        cuts := cuts + [pos];
      }
    }

    /** Moves a cut to the free gap nearest to the mouse. */
    method DragCut(idx: nat, gaps: seq<real>, y: real)
      requires Valid() && idx < |cuts| && |gaps| == |subs| - 1
      modifies this`cuts
      ensures Valid() && exists p :: NearestFree(old(cuts), idx, gaps, y, |gaps|, p) && cuts == old(cuts)[idx := p]
    {
      var closest := Closest(cuts, idx, gaps, y);
      assert !Used(cuts, idx, cuts[idx]);
      cuts := cuts[idx := closest.value];
      assert forall i :: 0 <= i < |cuts| && i != idx ==> Used(old(cuts), idx, cuts[i]);
    }

    method DeleteCut(idx: nat)
      requires Valid() && idx < |cuts|
      modifies this`cuts
      ensures Valid() && cuts == old(cuts)[..idx] + old(cuts)[idx + 1..]
    {
      cuts := cuts[..idx] + cuts[idx + 1..];
      InRangeKeeps(cuts, |subs|);
      cuts := InRange(cuts, |subs|);
    }

    /** Deletes a sub-question, renumbers the rest, and takes the cuts along. */
    method DeleteSub(si: nat)
      requires Valid() && si < |subs|
      modifies this
      ensures Valid()
      ensures subs == WithoutSub(old(subs), si) && cuts == CutsAfterDelete(old(cuts), si, |old(subs)|)
    {
      CutsFollowTheirSubs(subs, cuts, si);
      hide ValidCuts, Shifted, InRange, Renumbered;
      subs := RenumberSubs(subs[..si] + subs[si + 1..]);
      cuts := InRange(Shifted(cuts, si), |subs|);
    }
  }

  lemma {:induction false} FreeGapStays(cuts: seq<int>, gaps: nat, n: nat, m: nat)
    requires 0 < gaps && n <= m && FreeGap(cuts, gaps, n).Some?
    ensures FreeGap(cuts, gaps, m) == FreeGap(cuts, gaps, n)
  {
    if n < m { FreeGapStays(cuts, gaps, n, m - 1); }
  }

  lemma {:induction false} InRangeKeeps(cuts: seq<int>, subs: nat)
    requires forall i :: 0 <= i < |cuts| ==> 0 <= cuts[i] < subs - 1
    ensures InRange(cuts, subs) == cuts
  {
    if cuts != [] { InRangeKeeps(cuts[1..], subs); }
  }
}
