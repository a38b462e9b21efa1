/** The layout a new card starts from (createDefaultLayout in frontend/src/card-editor/model.js). */
module DefaultLayout {
  import opened CardLayout
  import opened LayoutRuns

  // ---------- The default layout ----------

  datatype Paper = A3 | A4

  /** Missing counts and scores are 0: the source then falls back to 11, 3 and 10. */
  datatype Config = Config(choiceCount: nat, fillCount: nat, essayScores: seq<int>, paper: Paper)

  function OrElse(n: nat, fallback: nat): nat { if n == 0 then fallback else n }

  function FixedSlots(): seq<Slot> {
    [Slot("header", Fixed, 0, 0, 0.0), Slot("info", Fixed, 0, 0, 0.0),
     Slot("notice", Fixed, 0, 0, 0.0), Slot("choices", Fixed, 0, 0, 0.0)]
  }

  /** A number as JavaScript writes it. */
  function Decimal(n: nat): string {
    (if n < 10 then "" else Decimal(n / 10)) + [('0' as int + n % 10) as char]
  }

  lemma {:induction false} DecimalIsInjective(a: nat, b: nat)
    requires Decimal(a) == Decimal(b)
    ensures a == b
  {
    assert Decimal(a)[|Decimal(a)| - 1] == Decimal(b)[|Decimal(b)| - 1];
    assert a % 10 == b % 10;
    var x, y := if a < 10 then "" else Decimal(a / 10), if b < 10 then "" else Decimal(b / 10);
    assert x == Decimal(a)[..|Decimal(a)| - 1] && y == Decimal(b)[..|Decimal(b)| - 1];
    if a >= 10 && b >= 10 { DecimalIsInjective(a / 10, b / 10); }
  }

  /** The number that a text of digits stands for. */
  function NumberOf(digits: string): int {
    if digits == "" then 0 else 10 * NumberOf(digits[..|digits| - 1]) + (digits[|digits| - 1] as int - '0' as int)
  }

  /** Decimal notation: digits only, none of them a needless zero, and the number can be read off. */
  lemma {:induction false} DecimalReadsBack(n: nat)
    ensures NumberOf(Decimal(n)) == n && Decimal(n) != "" && (Decimal(n)[0] == '0' <==> n == 0)
    ensures forall i :: 0 <= i < |Decimal(n)| ==> '0' <= Decimal(n)[i] <= '9'
  {
    if n >= 10 {
      DecimalReadsBack(n / 10);
      assert Decimal(n)[..|Decimal(n)| - 1] == Decimal(n / 10);
    }
  }

  function FillSlots(from: nat, count: nat): seq<Slot>
    requires count > 0
  {
    seq(count, i requires 0 <= i < count => Slot("fill-" + Decimal(from + i), Fill, 0, from + i, 1.0 / (count as real)))
  }

  function EssaySlots(from: nat, scores: seq<int>): seq<Slot> {
    seq(|scores|, i requires 0 <= i < |scores| =>
      Slot("essay-" + Decimal(from + i), Essay, if scores[i] == 0 then 10 else scores[i], from + i, 1.0))
  }

  /** Deals the essays to the six columns of A3: one each, the rest to the last. */
  method DealEssays(essays: seq<Slot>) returns (slots: Sheet)
    requires EssayColumn(essays)
    ensures |slots| == 6 && Flatten(slots) == essays && forall k :: 0 <= k < 6 ==> EssayColumn(slots[k])
    ensures forall k :: 0 <= k < 5 ==> |slots[k]| == if k < |essays| then 1 else 0
  {
    hide Flatten;
    slots := [[], [], [], [], [], []];
    FlattenEmpty(slots);
    var slotIdx := 0;
    for i := 0 to |essays|
      invariant |slots| == 6 && slotIdx == if i < 5 then i else 5
      invariant forall k :: 0 <= k < 5 ==> |slots[k]| == if k < i then 1 else 0
      invariant forall k :: slotIdx < k < 6 ==> slots[k] == []
      invariant Flatten(slots) == essays[..i]
      invariant forall k :: 0 <= k < 6 ==> EssayColumn(slots[k])
    {
      ghost var before := slots;
      slots := slots[slotIdx := slots[slotIdx] + [essays[i]]];
      FlattenAppend(before, slotIdx, essays[i]);
      assert essays[..i + 1] == essays[..i] + [essays[i]];
      slotIdx := if slotIdx + 1 < 5 then slotIdx + 1 else 5;
    }
    assert essays[..|essays|] == essays;
  }

  function FirstColumn(from: nat, count: nat): seq<Slot>
    requires count > 0
  {
    FixedSlots() + FillSlots(from, count)
  }

  /** The fill questions are numbered on from the first one and share one height equally; the essays follow, each of
      height 1, and worth 10 where nothing else is said. The fixed regions above have neither number nor height. */
  lemma {:induction false} DefaultQuestions(from: nat, count: nat, scores: seq<int>)
    requires count > 0
    ensures var fixed := FixedSlots();
      && |fixed| == 4 && fixed[0].id == "header" && fixed[1].id == "info" && fixed[2].id == "notice"
      && fixed[3].id == "choices"
      && forall i :: 0 <= i < 4 ==>
           fixed[i].kind == Fixed && fixed[i].score == 0 && fixed[i].qno == 0 && fixed[i].height == 0.0
    ensures var fills := FillSlots(from, count);
      && |fills| == count && EditableHeight(fills) == 1.0
      && forall i :: 0 <= i < count ==>
           && fills[i].kind == Fill && fills[i].id == "fill-" + Decimal(from + i) && fills[i].qno == from + i
           && fills[i].score == 0 && fills[i].height == fills[0].height
    ensures var essays := EssaySlots(from + count, scores);
      && |essays| == |scores|
      && forall i :: 0 <= i < |scores| ==>
           && essays[i].kind == Essay && essays[i].id == "essay-" + Decimal(from + count + i)
           && essays[i].qno == from + count + i && essays[i].height == 1.0
           && (scores[i] != 0 ==> essays[i].score == scores[i]) && (scores[i] == 0 ==> essays[i].score == 10)
  {
    hide Decimal;
    FillsUpTo(from, count, count);
    assert FillSlots(from, count)[..count] == FillSlots(from, count);
    Whole(count as real);
  }

  lemma {:induction false} Whole(n: real)
    requires n > 0.0
    ensures n * (1.0 / n) == 1.0
  {
  }

  lemma {:induction false} FillsUpTo(from: nat, count: nat, n: nat)
    requires n <= count && count > 0
    ensures EditableHeight(FillSlots(from, count)[..n]) == n as real * (1.0 / (count as real))
  {
    hide Decimal;
    var fills := FillSlots(from, count);
    if n == 0 {
      Nothing(1.0 / (count as real));
    } else {
      FillsUpTo(from, count, n - 1);
      assert fills[..n][..n - 1] == fills[..n - 1] && fills[..n][n - 1] == fills[n - 1];
      OneMore(n as real, 1.0 / (count as real));
    }
  }

  lemma {:induction false} Nothing(h: real)
    ensures 0.0 * h == 0.0
  {
  }

  lemma {:induction false} OneMore(n: real, h: real)
    ensures (n - 1.0) * h + h == n * h
  {
  }

  /** All slots of a default layout in reading order. */
  function DefaultSlots(from: nat, count: nat, scores: seq<int>): seq<Slot>
    requires count > 0
  {
    FirstColumn(from, count) + EssaySlots(from + count, scores)
  }

  /** The default layout deals out all questions in order, each under its own id and at most one essay to a column of A3
      but the last; it is valid, and it is already numbered. */
  method CreateDefaultLayout(config: Config) returns (sheet: Sheet)
    ensures |sheet| == if config.paper == A4 then 2 else 6
    ensures Flatten(sheet)
            == DefaultSlots((if config.choiceCount == 0 then 11 else config.choiceCount) + 1,
                            if config.fillCount == 0 then 3 else config.fillCount, config.essayScores)
    ensures IdsDiffer(Flatten(sheet))
    ensures config.paper == A4 ==> |sheet[1]| == |config.essayScores| / 2
    ensures config.paper == A3 ==>
      |sheet[0]| == 4 + (if config.fillCount == 0 then 3 else config.fillCount) + if |config.essayScores| > 0 then 1 else 0
    ensures config.paper == A3 ==> forall k :: 1 <= k < 5 ==> |sheet[k]| == if k < |config.essayScores| then 1 else 0
    ensures ValidSheet(sheet)
    ensures Renumber(sheet) == sheet && Numbered(sheet)
  {
    hide *;
    FallbackIs(config.choiceCount, 11);
    FallbackIs(config.fillCount, 3);
    var from, fillCount := OrElse(config.choiceCount, 11) + 1, OrElse(config.fillCount, 3);
    var essays := EssaySlots(from + fillCount, config.essayScores);
    EssaySlotsAreEssays(from + fillCount, config.essayScores);
    var slots := DealEssays(essays);
    var col0 := FirstColumn(from, fillCount);
    FirstColumnValid(from, fillCount);
    if config.paper == A4 {
      sheet := TwoColumns(col0, essays);
      TwoColumnSheet(col0, essays);
    } else {
      sheet := SixColumns(col0, slots);
      SixColumnSheet(col0, slots);
    }
    DefaultParts(from, fillCount, config.essayScores);
    DefaultIdsDiffer(from, fillCount, config.essayScores);
    DefaultIsNumbered(sheet, from, fillCount, config.essayScores);
    NumberedIsFixed(sheet, from);
    RenumberNumbers(sheet);
  }

  lemma {:induction false} DefaultParts(from: nat, count: nat, scores: seq<int>)
    requires count > 0
    ensures DefaultSlots(from, count, scores) == FirstColumn(from, count) + EssaySlots(from + count, scores)
  {
  }

  lemma {:induction false} FallbackIs(n: nat, fallback: nat)
    ensures OrElse(n, fallback) == if n == 0 then fallback else n
  {
  }

  lemma {:induction false} EssaySlotsAreEssays(from: nat, scores: seq<int>)
    ensures EssayColumn(EssaySlots(from, scores)) && |EssaySlots(from, scores)| == |scores|
  {
  }

  /** A4: one column a side, the first half of the essays on side A. */
  function TwoColumns(col0: seq<Slot>, essays: seq<Slot>): Sheet {
    var half := (|essays| + 1) / 2;
    [col0 + essays[..half], essays[half..]]
  }

  function SixColumns(col0: seq<Slot>, slots: Sheet): Sheet
    requires slots != []
  {
    slots[0 := col0 + slots[0]]
  }

  lemma {:induction false} TwoColumnSheet(col0: seq<Slot>, essays: seq<Slot>)
    requires ValidColumn(col0) && EssayColumn(essays)
    ensures var sheet := TwoColumns(col0, essays);
      |sheet| == 2 && Flatten(sheet) == col0 + essays && ValidSheet(sheet) && |sheet[1]| == |essays| / 2
  {
    hide Flatten;
    var half := (|essays| + 1) / 2;
    FlattenTwo(col0 + essays[..half], essays[half..]);
    assert col0 + essays[..half] + essays[half..] == col0 + essays;
    ExtendValid(col0, essays[..half]);
  }

  lemma {:induction false} SixColumnSheet(col0: seq<Slot>, slots: Sheet)
    requires ValidColumn(col0) && slots != [] && forall k :: 0 <= k < |slots| ==> EssayColumn(slots[k])
    ensures var sheet := SixColumns(col0, slots);
      |sheet| == |slots| && Flatten(sheet) == col0 + Flatten(slots) && ValidSheet(sheet)
      && |sheet[0]| == |col0| + |slots[0]| && forall k :: 0 < k < |slots| ==> sheet[k] == slots[k]
  {
    hide Flatten;
    FlattenFirst(slots, col0);
    ExtendValid(col0, slots[0]);
  }

  lemma {:induction false} FlattenEmpty(sheet: Sheet)
    requires forall k :: 0 <= k < |sheet| ==> sheet[k] == []
    ensures Flatten(sheet) == []
  {
    if sheet != [] { FlattenEmpty(sheet[..|sheet| - 1]); }
  }

  /** The slots of a sheet in reading order. */
  function Flatten(sheet: Sheet): seq<Slot> {
    if sheet == [] then [] else Flatten(sheet[..|sheet| - 1]) + sheet[|sheet| - 1]
  }

  ghost predicate EssayColumn(col: seq<Slot>) {
    forall i :: 0 <= i < |col| ==> col[i].kind == Essay && col[i].height == 1.0
  }

  lemma {:induction false} FlattenAppend(sheet: Sheet, k: nat, s: Slot)
    requires k < |sheet| && forall j :: k < j < |sheet| ==> sheet[j] == []
    ensures Flatten(sheet[k := sheet[k] + [s]]) == Flatten(sheet) + [s]
  {
    var n := |sheet| - 1;
    var r := sheet[k := sheet[k] + [s]];
    if k == n {
      assert r[..n] == sheet[..n];
    } else {
      FlattenAppend(sheet[..n], k, s);
      assert r[..n] == sheet[..n][k := sheet[..n][k] + [s]];
    }
  }

  lemma {:induction false} FlattenFirst(sheet: Sheet, front: seq<Slot>)
    requires sheet != []
    ensures Flatten(sheet[0 := front + sheet[0]]) == front + Flatten(sheet)
  {
    var n := |sheet| - 1;
    var r := sheet[0 := front + sheet[0]];
    if n == 0 {
      assert r[..0] == [] && sheet[..0] == [];
    } else {
      FlattenFirst(sheet[..n], front);
      assert r[..n] == sheet[..n][0 := front + sheet[..n][0]];
    }
  }

  lemma {:induction false} FlattenTwo(a: seq<Slot>, b: seq<Slot>)
    ensures Flatten([a, b]) == a + b
  {
    assert [a, b][..1] == [a] && [a][..0] == [];
    assert Flatten([a]) == a;
  }

  lemma {:induction false} FirstColumnValid(from: nat, count: nat)
    requires count > 0
    ensures ValidColumn(FirstColumn(from, count)) && |FirstColumn(from, count)| == 4 + count
  {
    assert 1.0 / (count as real) > 0.0;
  }

  lemma {:induction false} ExtendValid(col: seq<Slot>, more: seq<Slot>)
    requires ValidColumn(col) && EssayColumn(more)
    ensures ValidColumn(col + more)
  {
  }

  /** Place of the slot in the flattened sheet. */
  function Offset(sheet: Sheet, c: nat): nat
    requires c <= |sheet|
  {
    |Flatten(sheet[..c])|
  }

  lemma {:induction false} FlattenAt(sheet: Sheet, c: nat, i: nat)
    requires c < |sheet| && i < |sheet[c]|
    ensures Offset(sheet, c) + i < |Flatten(sheet)| && Flatten(sheet)[Offset(sheet, c) + i] == sheet[c][i]
    ensures Rank(sheet, c, i) == Count(Flatten(sheet)[..Offset(sheet, c) + i])
  {
    var n := |sheet| - 1;
    var front := Flatten(sheet[..n]);
    if c == n {
      FlattenCount(sheet[..n]);
      assert Flatten(sheet)[..|front| + i] == front + sheet[n][..i];
      CountConcat(front, sheet[n][..i]);
    } else {
      FlattenAt(sheet[..n], c, i);
      assert sheet[..n][..c] == sheet[..c];
      var k := Offset(sheet, c) + i;
      assert Flatten(sheet)[..k] == front[..k];
    }
  }

  lemma {:induction false} FlattenCount(sheet: Sheet)
    ensures CountAll(sheet) == Count(Flatten(sheet))
  {
    if sheet != [] {
      FlattenCount(sheet[..|sheet| - 1]);
      CountConcat(Flatten(sheet[..|sheet| - 1]), sheet[|sheet| - 1]);
    }
  }

  lemma {:induction false} AllEditable(col: seq<Slot>)
    requires forall i :: 0 <= i < |col| ==> Editable(col[i])
    ensures Count(col) == |col|
  {
    if col != [] { AllEditable(col[..|col| - 1]); }
  }

  lemma {:induction false} DefaultIsNumbered(sheet: Sheet, from: nat, count: nat, scores: seq<int>)
    requires count > 0
    requires Flatten(sheet) == DefaultSlots(from, count, scores)
    ensures NumberedFrom(sheet, from)
  {
    var flat := Flatten(sheet);
    forall c, i | 0 <= c < |sheet| && 0 <= i < |sheet[c]| && Editable(sheet[c][i])
      ensures sheet[c][i].qno == from + Rank(sheet, c, i)
    {
      FlattenAt(sheet, c, i);
      DefaultCount(flat, from, count, scores, Offset(sheet, c) + i);
    }
  }

  lemma {:induction false} SlotAt(from: nat, count: nat, scores: seq<int>, j: nat)
    requires count > 0 && j < |DefaultSlots(from, count, scores)|
    ensures var s := DefaultSlots(from, count, scores)[j]; (Editable(s) <==> j >= 4) && (j >= 4 ==> s.qno == from + (j - 4))
    ensures DefaultSlots(from, count, scores)[..4] == FixedSlots()
  {
    hide Decimal;
    if 4 <= j < 4 + count {
      assert DefaultSlots(from, count, scores)[j] == FillSlots(from, count)[j - 4];
    } else if j >= 4 + count {
      assert DefaultSlots(from, count, scores)[j] == EssaySlots(from + count, scores)[j - 4 - count];
    }
  }

  lemma {:induction false} DefaultCount(flat: seq<Slot>, from: nat, count: nat, scores: seq<int>, k: nat)
    requires count > 0 && flat == DefaultSlots(from, count, scores)
    requires k < |flat| && Editable(flat[k])
    ensures flat[k].qno == from + Count(flat[..k])
  {
    hide Count, Decimal, FillSlots, EssaySlots;
    forall j | 0 <= j < |flat| ensures Editable(flat[j]) <==> j >= 4 { SlotAt(from, count, scores, j); }
    SlotAt(from, count, scores, k);
    assert flat[..k] == FixedSlots() + flat[4..k];
    CountConcat(FixedSlots(), flat[4..k]);
    NoneEditable(FixedSlots());
    AllEditable(flat[4..k]);
  }

  // ---------- Ids ----------

  ghost predicate IdsDiffer(slots: seq<Slot>) {
    forall i, j :: 0 <= i < j < |slots| ==> slots[i].id != slots[j].id
  }

  lemma {:induction false} PrefixedIdsDiffer(prefix: string, a: nat, b: nat)
    requires prefix + Decimal(a) == prefix + Decimal(b)
    ensures a == b
  {
    assert (prefix + Decimal(a))[|prefix|..] == Decimal(a);
    assert (prefix + Decimal(b))[|prefix|..] == Decimal(b);
    DecimalIsInjective(a, b);
  }

  lemma {:induction false} FillIdsDiffer(from: nat, count: nat)
    requires count > 0
    ensures IdsDiffer(FillSlots(from, count)) && forall x :: x in FillSlots(from, count) ==> x.id != "" && x.id[0] == 'f'
  {
    var slots := FillSlots(from, count);
    forall i, j | 0 <= i < j < |slots| ensures slots[i].id != slots[j].id {
      if slots[i].id == slots[j].id { PrefixedIdsDiffer("fill-", from + i, from + j); }
    }
  }

  lemma {:induction false} EssayIdsDiffer(from: nat, scores: seq<int>)
    ensures IdsDiffer(EssaySlots(from, scores))
    ensures forall x :: x in EssaySlots(from, scores) ==> x.id != "" && x.id[0] == 'e'
  {
    var slots := EssaySlots(from, scores);
    forall i, j | 0 <= i < j < |slots| ensures slots[i].id != slots[j].id {
      if slots[i].id == slots[j].id { PrefixedIdsDiffer("essay-", from + i, from + j); }
    }
  }

  lemma {:induction false} FixedIdsDiffer()
    ensures IdsDiffer(FixedSlots())
    ensures forall x :: x in FixedSlots() ==> x.id != "" && x.id[0] != 'f' && x.id[0] != 'e'
  {
    var ids := ["header", "info", "notice", "choices"];
    assert ids[0][0] == 'h' && ids[1][0] == 'i' && ids[2][0] == 'n' && ids[3][0] == 'c';
    assert forall i :: 0 <= i < 4 ==> FixedSlots()[i].id == ids[i];
  }

  lemma {:induction false} DefaultIdsDiffer(from: nat, count: nat, scores: seq<int>)
    requires count > 0
    ensures IdsDiffer(DefaultSlots(from, count, scores))
  {
    FixedIdsDiffer();
    FillIdsDiffer(from, count);
    EssayIdsDiffer(from + count, scores);
    hide FixedSlots, FillSlots, EssaySlots;
    var a: seq<Slot>, b: seq<Slot>, c: seq<Slot> := FixedSlots(), FillSlots(from, count), EssaySlots(from + count, scores);
    forall i, j | 0 <= i < j < |a + b| ensures (a + b)[i].id != (a + b)[j].id {
      assert i < |a| ==> (a + b)[i] in a;
      assert j >= |a| ==> (a + b)[j] in b;
    }
    var all: seq<Slot> := a + b + c;
    forall i, j | 0 <= i < j < |all| ensures all[i].id != all[j].id {
      assert i < |a + b| ==> all[i] == (a + b)[i] && ((a + b)[i] in a || (a + b)[i] in b);
      assert j < |a + b| ==> all[j] == (a + b)[j];
      assert j >= |a + b| ==> all[j] in c;
    }
  }
}
