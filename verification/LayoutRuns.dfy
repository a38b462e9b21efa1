/** What the card editor keeps through every operation and so in every layout it can reach (see CardLayout). */
module LayoutRuns {
  import opened CardLayout

  // ---------- What every editing operation keeps ----------

  /** Fixed regions come first in a column, and every editable region has some height. */
  ghost predicate ValidColumn(col: seq<Slot>) {
    && (forall i, j :: 0 <= i < j < |col| && Editable(col[i]) ==> Editable(col[j]))
    && (forall i :: 0 <= i < |col| && Editable(col[i]) ==> col[i].height > 0.0)
  }

  ghost predicate ValidSheet(sheet: Sheet) {
    forall c :: 0 <= c < |sheet| ==> ValidColumn(sheet[c])
  }

  /** What the user can do, with the guards of the handlers. */
  datatype Op =
    | SplitAt(c: nat, i: nat, id: string)
    | MergeAt(c: nat, i: nat)
    | DragDivider(c: nat, k: nat, delta: real)
    | AddTo(c: nat, id: string)
    | AddLast(id: string)
    | DeleteById(id: string)

  function Apply(sheet: Sheet, op: Op): Sheet {
    match op
    case SplitAt(c, i, id) =>
      if c < |sheet| && i < |sheet[c]| && Editable(sheet[c][i]) then Split(sheet, c, i, 0.5, id) else sheet
    case MergeAt(c, i) =>
      if c < |sheet| && 0 < i < |sheet[c]| && Editable(sheet[c][i]) && Count(sheet[c][..i + 1]) > 1
      then Merge(sheet, c, i - 1) else sheet
    case DragDivider(c, k, delta) => if c < |sheet| then Drag(sheet, c, k, delta) else sheet
    case AddTo(c, id) => if c < |sheet| then AddHere(sheet, c, id) else sheet
    case AddLast(id) => AddQuestion(sheet, id)
    case DeleteById(id) => Delete(sheet, id)
  }

  function Run(sheet: Sheet, ops: seq<Op>): Sheet {
    if ops == [] then sheet else Apply(Run(sheet, ops[..|ops| - 1]), ops[|ops| - 1])
  }

  /** Number of fixed regions of a column. */
  function FixedCount(col: seq<Slot>): int { |col| - Count(col) }

  lemma {:induction false} CountOfPrefix(col: seq<Slot>)
    requires ValidColumn(col)
    ensures 0 <= FixedCount(col) <= |col|
    ensures forall i :: 0 <= i < |col| ==> (Editable(col[i]) <==> i >= FixedCount(col))
  {
    if col != [] {
      var n := |col| - 1;
      var front := col[..n];
      assert forall i :: 0 <= i < n ==> front[i] == col[i];
      CountOfPrefix(front);
      if !Editable(col[n]) && n > 0 { assert !Editable(col[n - 1]); }
    }
  }

  lemma {:induction false} CountUpTo(col: seq<Slot>, i: nat)
    requires ValidColumn(col) && i <= |col|
    ensures Count(col[..i]) == if i <= FixedCount(col) then 0 else i - FixedCount(col)
  {
    CountOfPrefix(col);
    if i > 0 {
      CountUpTo(col, i - 1);
      CountPrefix(col, i - 1);
    }
  }

  lemma {:induction false} EditableFromIs(col: seq<Slot>, k: nat, from: nat)
    requires ValidColumn(col) && from <= |col| && from <= FixedCount(col) + k
    ensures EditableFrom(col, k, from) == if k < Count(col) then FixedCount(col) + k else -1
    decreases |col| - from
  {
    CountOfPrefix(col);
    if from < |col| {
      CountUpTo(col, from);
      if from < FixedCount(col) + k { EditableFromIs(col, k, from + 1); }
    }
  }

  /** On a valid column the k-th editable region is the k-th after the fixed ones, so neighbours stay neighbours. */
  lemma {:induction false} EditableIndexIsContiguous(col: seq<Slot>, k: nat)
    requires ValidColumn(col)
    ensures EditableToReal(col, k) == if k < Count(col) then FixedCount(col) + k else -1
    ensures EditableToReal(col, k + 1) >= 0 ==>
      0 <= EditableToReal(col, k) == EditableToReal(col, k + 1) - 1 < |col| - 1
      && Editable(col[EditableToReal(col, k)]) && Editable(col[EditableToReal(col, k + 1)])
  {
    CountOfPrefix(col);
    EditableFromIs(col, k, 0);
    EditableFromIs(col, k + 1, 0);
  }

  // ---------- What a run is ----------

  /** Running some operations and then others is running them all. */
  lemma {:induction false} RunsCompose(sheet: Sheet, first: seq<Op>, more: seq<Op>, op: Op)
    ensures Run(sheet, first + more) == Run(Run(sheet, first), more)
    ensures Run(sheet, []) == sheet && Run(sheet, [op]) == Apply(sheet, op)
  {
    assert [op][..0] == [];
    if more == [] {
      assert first + more == first;
    } else {
      assert (first + more)[..|first + more| - 1] == first + more[..|more| - 1];
      RunsCompose(sheet, first, more[..|more| - 1], op);
    }
  }

  /** Below f fixed regions, every question can be split in half, and every question but the first can be merged with
      the one above it. */
  lemma {:induction false} WhatTheMenuOffers(sheet: Sheet, c: nat, f: nat, i: nat, id: string)
    requires c < |sheet| && ValidColumn(sheet[c]) && f <= |sheet[c]| && i < |sheet[c]|
    requires forall j :: 0 <= j < |sheet[c]| ==> (j < f <==> sheet[c][j].kind == Fixed)
    ensures Apply(sheet, SplitAt(c, i, id)) == if i >= f then Split(sheet, c, i, 0.5, id) else sheet
    ensures Apply(sheet, MergeAt(c, i)) == if i > f then Merge(sheet, c, i - 1) else sheet
  {
    hide ValidColumn, Split, Merge;
    FixedAre(sheet[c], f);
    CountUpTo(sheet[c], i + 1);
  }

  // ---------- Columns after an operation ----------

  lemma {:induction false} RenumberColumns(sheet: Sheet)
    ensures |Renumber(sheet)| == |sheet|
    ensures ValidSheet(sheet) ==> ValidSheet(Renumber(sheet))
    ensures forall d :: 0 <= d < |sheet| ==> EditableHeight(Renumber(sheet)[d]) == EditableHeight(sheet[d])
  {
    var r := Renumber(sheet);
    NumberFromShape(sheet, StartQno(sheet));
    forall d | 0 <= d < |sheet| ensures EditableHeight(r[d]) == EditableHeight(sheet[d]) {
      SameCount(sheet[d], r[d]);
    }
    if ValidSheet(sheet) {
      forall d | 0 <= d < |sheet| ensures ValidColumn(r[d]) {
        assert ValidColumn(sheet[d]) && SameColumn(sheet[d], r[d]);
        ValidSame(sheet[d], r[d]);
      }
    }
  }

  lemma {:induction false} ValidSame(a: seq<Slot>, b: seq<Slot>)
    requires ValidColumn(a) && SameColumn(a, b)
    ensures ValidColumn(b)
  {
    assert forall i :: 0 <= i < |a| ==> SameSlot(a[i], b[i]);
  }

  /** Replacing one column by a valid one. */
  lemma {:induction false} ReplaceColumn(sheet: Sheet, c: nat, col: seq<Slot>)
    requires ValidSheet(sheet) && c < |sheet| && ValidColumn(col)
    ensures var r := Renumber(sheet[c := col]);
      && |r| == |sheet| && ValidSheet(r) && ValidSheet(sheet[c := col])
      && (forall d :: 0 <= d < |sheet| ==>
            EditableHeight(r[d]) == EditableHeight(if d == c then col else sheet[d]))
  {
    hide Renumber, ValidColumn;
    RenumberColumns(sheet[c := col]);
  }

  lemma {:induction false} SpliceValid(col: seq<Slot>, i: nat, drop: nat, insert: seq<Slot>)
    requires ValidColumn(col) && i < |col| && i + drop <= |col| && Editable(col[i])
    requires forall k :: 0 <= k < |insert| ==> Editable(insert[k]) && insert[k].height > 0.0
    ensures ValidColumn(Splice(col, i, drop, insert))
  {
    var r := Splice(col, i, drop, insert);
    assert forall k :: 0 <= k < |r| ==>
      r[k] == if k < i then col[k] else if k < i + |insert| then insert[k - i] else col[k - |insert| + drop];
  }

  lemma {:induction false} ProductPositive(a: real, b: real)
    requires a > 0.0 && b > 0.0
    ensures a * b > 0.0
  {
  }

  lemma {:induction false} SplitStep(sheet: Sheet, c: nat, i: nat, ratio: real, id: string)
    requires ValidSheet(sheet) && c < |sheet| && i < |sheet[c]| && Editable(sheet[c][i]) && 0.0 < ratio < 1.0
    ensures var r := Split(sheet, c, i, ratio, id);
      && |r| == |sheet| && ValidSheet(r)
      && forall d :: 0 <= d < |sheet| ==> EditableHeight(r[d]) == EditableHeight(sheet[d])
  {
    var col, s := sheet[c], sheet[c][i];
    assert s.height > 0.0 by { assert ValidColumn(col); }
    var halves := [UpperHalf(s, ratio), LowerHalf(s, ratio, id)];
    ProductPositive(s.height, ratio);
    ProductPositive(s.height, 1.0 - ratio);
    HalvesJoin(s, ratio, id);
    assert ValidColumn(col);
    assert halves[0].height > 0.0 && halves[1].height > 0.0;
    hide UpperHalf, LowerHalf, ValidColumn;
    SpliceValid(col, i, 1, halves);
    SpliceHeight(col, i, 1, halves);
    OneTotal(col, i);
    PairTotal(halves[0], halves[1]);
    hide Renumber, Splice;
    ReplaceColumn(sheet, c, Splice(col, i, 1, halves));
  }

  lemma {:induction false} OneTotal(col: seq<Slot>, i: nat)
    requires i < |col|
    ensures Total(col[i..i + 1]) == if Editable(col[i]) then col[i].height else 0.0
  {
    assert col[i..i + 1] == [col[i]] && [col[i]][1..] == [];
  }

  lemma {:induction false} PairTotal(a: Slot, b: Slot)
    requires Editable(a) && Editable(b)
    ensures Total([a, b]) == a.height + b.height
  {
    assert [a, b][1..] == [b] && [b][1..] == [];
    assert Total([b]) == b.height;
  }

  lemma {:induction false} TwoTotal(col: seq<Slot>, i: nat)
    requires i + 1 < |col| && Editable(col[i]) && Editable(col[i + 1])
    ensures Total(col[i..i + 2]) == col[i].height + col[i + 1].height
  {
    assert col[i..i + 2] == [col[i], col[i + 1]];
    PairTotal(col[i], col[i + 1]);
  }

  lemma {:induction false} MergeStep(sheet: Sheet, c: nat, i: nat)
    requires ValidSheet(sheet) && c < |sheet| && i + 1 < |sheet[c]| && Editable(sheet[c][i])
    ensures var r := Merge(sheet, c, i);
      && |r| == |sheet| && ValidSheet(r)
      && forall d :: 0 <= d < |sheet| ==> EditableHeight(r[d]) == EditableHeight(sheet[d])
  {
    var col := sheet[c];
    var one := [Joined(col[i], col[i + 1])];
    assert ValidColumn(col) && Editable(col[i + 1]) && one[1..] == [];
    SpliceValid(col, i, 2, one);
    SpliceHeight(col, i, 2, one);
    TwoTotal(col, i);
    hide Renumber, Splice;
    ReplaceColumn(sheet, c, Splice(col, i, 2, one));
  }

  lemma {:induction false} ShiftHeight(col: seq<Slot>, i: nat, a: real, b: real)
    requires ValidColumn(col) && i + 1 < |col| && Editable(col[i]) && a > 0.0 && b > 0.0
    requires a + b == col[i].height + col[i + 1].height
    ensures var r := Splice(col, i, 2, [col[i].(height := a), col[i + 1].(height := b)]);
      ValidColumn(r) && EditableHeight(r) == EditableHeight(col)
  {
    assert Editable(col[i + 1]);
    var two := [col[i].(height := a), col[i + 1].(height := b)];
    hide ValidColumn, Splice, Total;
    SpliceValid(col, i, 2, two);
    SpliceHeight(col, i, 2, two);
    TwoTotal(col, i);
    PairTotal(two[0], two[1]);
  }

  lemma {:induction false} ResizeStep(sheet: Sheet, c: nat, i: nat, delta: real)
    requires ValidSheet(sheet) && c < |sheet| && i + 1 < |sheet[c]| && Editable(sheet[c][i])
    ensures |Resize(sheet, c, i, delta)| == |sheet| && ValidSheet(Resize(sheet, c, i, delta))
    ensures forall d :: 0 <= d < |sheet| ==> EditableHeight(Resize(sheet, c, i, delta)[d]) == EditableHeight(sheet[d])
  {
    hide ValidColumn, Splice, EditableHeight;
    var upper, lower := sheet[c][i], sheet[c][i + 1];
    if upper.height + delta >= MIN_RATIO && lower.height - delta >= MIN_RATIO {
      ShiftHeight(sheet[c], i, upper.height + delta, lower.height - delta);
    }
  }

  lemma {:induction false} AppendStep(sheet: Sheet, c: nat, col: seq<Slot>, added: Slot)
    requires ValidSheet(sheet) && c < |sheet| && ValidColumn(col) && Editable(added) && added.height > 0.0
    ensures var r := Renumber(sheet[c := col + [added]]);
      && |r| == |sheet| && ValidSheet(r)
      && forall d :: 0 <= d < |sheet| ==>
           EditableHeight(r[d]) == if d == c then EditableHeight(col) + added.height else EditableHeight(sheet[d])
  {
    assert ValidColumn(col + [added]);
    HeightConcat(col, [added]);
    assert [added][..0] == [];
    hide Renumber, ValidColumn;
    ReplaceColumn(sheet, c, col + [added]);
  }

  lemma {:induction false} UpdateHeight(col: seq<Slot>, i: nat, h: real)
    requires i < |col| && Editable(col[i])
    ensures EditableHeight(col[i := col[i].(height := h)]) == EditableHeight(col) - col[i].height + h
  {
    var one := [col[i].(height := h)];
    assert col[i := col[i].(height := h)] == Splice(col, i, 1, one) && one[1..] == [];
    SpliceHeight(col, i, 1, one);
    OneTotal(col, i);
  }

  lemma {:induction false} UpdateValid(col: seq<Slot>, i: nat, h: real)
    requires ValidColumn(col) && i < |col| && Editable(col[i]) && h > 0.0
    ensures ValidColumn(col[i := col[i].(height := h)])
  {
  }

  ghost predicate SameHeights(a: Sheet, b: Sheet) {
    |a| == |b| && forall d :: 0 <= d < |a| ==> EditableHeight(a[d]) == EditableHeight(b[d])
  }

  lemma {:induction false} HalveLast(sheet: Sheet, c: nat, i: nat, id: string)
    requires ValidSheet(sheet) && c < |sheet| && i < |sheet[c]| && Editable(sheet[c][i])
    ensures
      var half := sheet[c][i].height / 2.0;
      var r := Renumber(sheet[c := sheet[c][i := sheet[c][i].(height := half)] + [Slot(id, Essay, 12, 0, half)]]);
      |r| == |sheet| && ValidSheet(r) && SameHeights(sheet, r)
  {
    var col, half := sheet[c], sheet[c][i].height / 2.0;
    assert ValidColumn(col) && half > 0.0;
    hide Renumber, ValidColumn, EditableHeight;
    UpdateHeight(col, i, half);
    UpdateValid(col, i, half);
    AppendStep(sheet, c, col[i := col[i].(height := half)], Slot(id, Essay, 12, 0, half));
  }

  lemma {:induction false} AddQuestionStep(sheet: Sheet, id: string)
    requires ValidSheet(sheet)
    ensures var r, c := AddQuestion(sheet, id), LastEditableColumn(sheet, |sheet|);
      && |r| == |sheet| && ValidSheet(r)
      && forall d :: 0 <= d < |sheet| ==>
           EditableHeight(r[d]) == EditableHeight(sheet[d]) + if c < 0 && d == |sheet| - 1 then 1.0 else 0.0
  {
    hide Renumber, EditableHeight, LastEditable, LastEditableColumn, ValidColumn, Count;
    var c := LastEditableColumn(sheet, |sheet|);
    if c >= 0 {
      HalveLast(sheet, c, LastEditable(sheet[c]), id);
    } else if |sheet| > 0 {
      AppendStep(sheet, |sheet| - 1, sheet[|sheet| - 1], Slot(id, Essay, 10, 0, 1.0));
    } else {
      RenumberColumns(sheet);
    }
  }

  lemma {:induction false} CountWithout(col: seq<Slot>, i: nat)
    requires i < |col| && Editable(col[i])
    ensures Count(Drop(col, i)) == Count(col) - 1
  {
    assert col == col[..i + 1] + col[i + 1..];
    CountConcat(col[..i + 1], col[i + 1..]);
    CountPrefix(col, i);
    CountConcat(col[..i], col[i + 1..]);
  }

  lemma {:induction false} RemoveStep(col: seq<Slot>, i: nat)
    requires ValidColumn(col) && i < |col| && Editable(col[i])
    ensures ValidColumn(Drop(col, i))
    ensures EditableHeight(Drop(col, i)) == EditableHeight(col) - col[i].height
  {
    assert Drop(col, i) == Splice(col, i, 1, []);
    hide ValidColumn, Splice, Drop;
    SpliceHeight(col, i, 1, []);
    OneTotal(col, i);
    SpliceValid(col, i, 1, []);
  }

  lemma {:induction false} WithoutStep(col: seq<Slot>, i: nat)
    requires ValidColumn(col) && i < |col| && Editable(col[i])
    ensures ValidColumn(Without(col, i))
    ensures EditableHeight(Without(col, i)) == EditableHeight(col) - if Count(col) > 1 then 0.0 else col[i].height
  {
    hide ValidColumn, EditableHeight, Count, Drop, GiveToFirst;
    PositiveHeight(col, i);
    RemoveStep(col, i);
    CountWithout(col, i);
    GiveStep(Drop(col, i), col[i].height);
  }

  lemma {:induction false} GiveAt(col: seq<Slot>, n: nat, h: real)
    requires ValidColumn(col) && n < |col| && Editable(col[n]) && h > 0.0
    ensures var r := col[n := col[n].(height := col[n].height + h)];
      ValidColumn(r) && EditableHeight(r) == EditableHeight(col) + h
    ensures Count(col) > 0
  {
    hide EditableHeight, ValidColumn, Count;
    PositiveHeight(col, n);
    CountPositive(col, n);
    UpdateHeight(col, n, col[n].height + h);
    UpdateValid(col, n, col[n].height + h);
  }

  lemma {:induction false} GiveStep(col: seq<Slot>, h: real)
    requires ValidColumn(col) && h > 0.0
    ensures ValidColumn(GiveToFirst(col, h))
    ensures EditableHeight(GiveToFirst(col, h)) == EditableHeight(col) + if Count(col) > 0 then h else 0.0
  {
    hide EditableHeight, ValidColumn, Count;
    var n := FirstEditable(col);
    if n < |col| { GiveAt(col, n, h); } else { NoneEditable(col); }
  }

  lemma {:induction false} PositiveHeight(col: seq<Slot>, i: nat)
    requires ValidColumn(col) && i < |col| && Editable(col[i])
    ensures col[i].height > 0.0
  {
  }

  lemma {:induction false} NoneEditable(col: seq<Slot>)
    requires forall i :: 0 <= i < |col| ==> !Editable(col[i])
    ensures Count(col) == 0
  {
    if col != [] { NoneEditable(col[..|col| - 1]); }
  }

  lemma {:induction false} DeleteStep(sheet: Sheet, id: string)
    requires ValidSheet(sheet)
    ensures var r, c := Delete(sheet, id), ColumnOf(sheet, id);
      && |r| == |sheet| && ValidSheet(r)
      && forall d :: 0 <= d < |sheet| ==>
           EditableHeight(r[d]) == EditableHeight(sheet[d])
             - if d == c && Count(sheet[d]) == 1 then sheet[d][FindId(sheet[d], id)].height else 0.0
  {
    var c := ColumnOf(sheet, id);
    if c < |sheet| {
      var i := FindId(sheet[c], id);
      assert ValidColumn(sheet[c]);
      WithoutStep(sheet[c], i);
      CountPositive(sheet[c], i);
      hide Renumber, Without, ValidColumn;
      ReplaceColumn(sheet, c, Without(sheet[c], i));
    }
  }

  /** The operations that leave every column's editable height as it was. */
  predicate Conserves(sheet: Sheet, op: Op) {
    match op
    case SplitAt(_, _, _) => true
    case MergeAt(_, _) => true
    case DragDivider(_, _, _) => true
    case AddTo(c, _) => c >= |sheet|
    case AddLast(_) => sheet == [] || LastEditableColumn(sheet, |sheet|) >= 0
    case DeleteById(id) => ColumnOf(sheet, id) == |sheet| || Count(sheet[ColumnOf(sheet, id)]) > 1
  }

  /** One step keeps the invariant, and keeps all column heights exactly when it is a conserving one. */
  lemma {:induction false} ApplyStep(sheet: Sheet, op: Op)
    requires ValidSheet(sheet)
    ensures |Apply(sheet, op)| == |sheet| && ValidSheet(Apply(sheet, op))
    ensures SameHeights(sheet, Apply(sheet, op)) <==> Conserves(sheet, op)
  {
    hide Split, Merge, Resize, AddQuestion, Delete, Renumber, EditableToReal, EditableHeight, ValidColumn, Count;
    match op
    case SplitAt(c, i, id) =>
      if c < |sheet| && i < |sheet[c]| && Editable(sheet[c][i]) { SplitStep(sheet, c, i, 0.5, id); }
    case MergeAt(c, i) =>
      if c < |sheet| && 0 < i < |sheet[c]| && Editable(sheet[c][i]) && Count(sheet[c][..i + 1]) > 1 {
        AboveIsEditable(sheet[c], i);
        MergeStep(sheet, c, i - 1);
      }
    case DragDivider(c, k, delta) =>
      if c < |sheet| {
        EditableIndexIsContiguous(sheet[c], k);
        if EditableToReal(sheet[c], k + 1) >= 0 { ResizeStep(sheet, c, EditableToReal(sheet[c], k), delta); }
      }
    case AddTo(c, id) =>
      if c < |sheet| { AppendStep(sheet, c, sheet[c], Slot(id, Essay, 12, 0, 1.0)); }
    case AddLast(id) => AddQuestionStep(sheet, id);
    case DeleteById(id) =>
      DeleteStep(sheet, id);
      var c := ColumnOf(sheet, id);
      if c < |sheet| { DeletedHeight(sheet[c], FindId(sheet[c], id)); }
  }

  lemma {:induction false} DeletedHeight(col: seq<Slot>, i: nat)
    requires ValidColumn(col) && i < |col| && Editable(col[i])
    ensures col[i].height > 0.0 && Count(col) > 0
  {
    CountPositive(col, i);
  }

  lemma {:induction false} AboveIsEditable(col: seq<Slot>, i: nat)
    requires ValidColumn(col) && 0 < i < |col| && Count(col[..i + 1]) > 1
    ensures Editable(col[i - 1])
  {
    CountOfPrefix(col);
    CountUpTo(col, i + 1);
  }

  /** Every layout that any run of editing operations can reach keeps the invariant. */
  lemma {:induction false} RunKeepsValid(sheet: Sheet, ops: seq<Op>)
    requires ValidSheet(sheet)
    ensures |Run(sheet, ops)| == |sheet| && ValidSheet(Run(sheet, ops))
  {
    if ops != [] {
      hide Apply, ValidSheet;
      RunKeepsValid(sheet, ops[..|ops| - 1]);
      ApplyStep(Run(sheet, ops[..|ops| - 1]), ops[|ops| - 1]);
    }
  }

  // ---------- Numbers over a run ----------

  /** The questions are numbered consecutively in reading order, from some positive number. */
  ghost predicate Numbered(sheet: Sheet) { exists s :: s > 0 && NumberedFrom(sheet, s) }

  lemma {:induction false} RenumberNumbers(sheet: Sheet)
    ensures Numbered(Renumber(sheet))
  {
    RenumberIsConsecutive(sheet);
  }

  lemma {:induction false} SameShapeStaysNumbered(a: Sheet, b: Sheet, s: int)
    requires NumberedFrom(a, s) && SameKinds(a, b)
    ensures NumberedFrom(b, s)
  {
    forall c, i | 0 <= c < |b| && 0 <= i < |b[c]| && Editable(b[c][i]) ensures b[c][i].qno == s + Rank(b, c, i) {
      SameKindRank(a, b, c, i);
    }
  }

  /** Same places, kinds and numbers; only heights may differ. */
  ghost predicate SameKinds(a: Sheet, b: Sheet) {
    |a| == |b| && forall c :: 0 <= c < |a| ==> SameKindColumn(a[c], b[c])
  }

  ghost predicate SameKindColumn(a: seq<Slot>, b: seq<Slot>) {
    |a| == |b| && forall i :: 0 <= i < |a| ==> a[i].kind == b[i].kind && a[i].qno == b[i].qno
  }

  lemma {:induction false} SameKindCount(a: seq<Slot>, b: seq<Slot>)
    requires SameKindColumn(a, b)
    ensures Count(a) == Count(b)
  {
    if a != [] { SameKindCount(a[..|a| - 1], b[..|b| - 1]); }
  }

  lemma {:induction false} SameKindCountAll(a: Sheet, b: Sheet)
    requires SameKinds(a, b)
    ensures CountAll(a) == CountAll(b)
  {
    if a != [] {
      var n := |a| - 1;
      assert SameKindColumn(a[n], b[n]);
      SameKindCountAll(a[..n], b[..n]);
      SameKindCount(a[n], b[n]);
    }
  }

  lemma {:induction false} SameKindRank(a: Sheet, b: Sheet, c: nat, i: nat)
    requires SameKinds(a, b) && c < |a| && i < |a[c]| && i < |b[c]|
    ensures Rank(a, c, i) == Rank(b, c, i)
    ensures a[c][i].kind == b[c][i].kind && a[c][i].qno == b[c][i].qno
  {
    assert SameKindColumn(a[c], b[c]);
    SameKindCountAll(a[..c], b[..c]);
    SameKindCount(a[c][..i], b[c][..i]);
  }

  /** A drag does not renumber, and need not. */
  lemma {:induction false} ResizeNumbers(sheet: Sheet, c: nat, i: nat, delta: real)
    requires c < |sheet| && Numbered(sheet)
    ensures Numbered(Resize(sheet, c, i, delta))
  {
    var s :| s > 0 && NumberedFrom(sheet, s);
    var r := Resize(sheet, c, i, delta);
    if i + 1 < |sheet[c]| { ResizeChanges(sheet, c, i, delta); }
    hide Resize, NumberedFrom;
    forall d | 0 <= d < |sheet| ensures SameKindColumn(sheet[d], r[d]) {
      if d != c { assert r[d] == sheet[d]; }
    }
    SameShapeStaysNumbered(sheet, r, s);
  }

  lemma {:induction false} ApplyKeepsNumbers(sheet: Sheet, op: Op)
    requires Numbered(sheet)
    ensures Numbered(Apply(sheet, op))
  {
    hide Numbered, Renumber, Resize, EditableToReal, Count, LastEditable, LastEditableColumn, ColumnOf, Without, FindId;
    forall other: Sheet ensures Numbered(Renumber(other)) { RenumberNumbers(other); }
    match op
    case DragDivider(c, k, delta) =>
      if c < |sheet| && EditableToReal(sheet[c], k) >= 0 {
        ResizeNumbers(sheet, c, EditableToReal(sheet[c], k), delta);
      }
    case _ =>
  }

  /** Every layout that a run can reach from a numbered one, such as the default layout, is numbered consecutively. */
  lemma {:induction false} RunKeepsNumbers(sheet: Sheet, ops: seq<Op>)
    requires Numbered(sheet)
    ensures Numbered(Run(sheet, ops))
  {
    if ops != [] {
      hide Apply, Numbered;
      RunKeepsNumbers(sheet, ops[..|ops| - 1]);
      ApplyKeepsNumbers(Run(sheet, ops[..|ops| - 1]), ops[|ops| - 1]);
    }
  }

  // ---------- What each operation changes, and what it leaves ----------

  /** All columns but c are as they were, up to question numbers. */
  ghost predicate OnlyColumn(sheet: Sheet, after: Sheet, c: nat) {
    |after| == |sheet| && forall d :: 0 <= d < |sheet| && d != c ==> SameColumn(sheet[d], after[d])
  }

  lemma {:induction false} RenumberedColumn(sheet: Sheet, c: nat, col: seq<Slot>)
    requires c < |sheet|
    ensures var r := Renumber(sheet[c := col]); |r| == |sheet| && OnlyColumn(sheet, r, c) && SameColumn(col, r[c])
  {
    var changed := sheet[c := col];
    RenumberIsConsecutive(changed);
    hide Renumber, SameColumn;
    assert forall d :: 0 <= d < |sheet| ==> SameColumn(changed[d], Renumber(changed)[d]);
  }

  lemma {:induction false} SplicedAt(col: seq<Slot>, i: nat, drop: nat, insert: seq<Slot>, after: seq<Slot>)
    requires i + drop <= |col| && SameColumn(Splice(col, i, drop, insert), after)
    ensures |after| == |col| - drop + |insert|
    ensures forall j :: 0 <= j < i ==> SameSlot(col[j], after[j])
    ensures forall j :: 0 <= j < |insert| ==> SameSlot(insert[j], after[i + j])
    ensures forall j :: i + drop <= j < |col| ==> SameSlot(col[j], after[j - drop + |insert|])
  {
    hide SameSlot;
    var r := Splice(col, i, drop, insert);
    assert forall j :: 0 <= j < i ==> r[j] == col[j];
    forall j | 0 <= j < |insert| ensures SameSlot(insert[j], after[i + j]) { assert r[i + j] == insert[j]; }
    forall j | i + drop <= j < |col| ensures SameSlot(col[j], after[j - drop + |insert|]) {
      assert r[j - drop + |insert|] == col[j];
    }
  }

  lemma {:induction false} HalvesOf(r: Slot, ratio: real, id: string)
    requires Editable(r)
    ensures var top, added := UpperHalf(r, ratio), LowerHalf(r, ratio, id);
      && Editable(top) && top.id == r.id && top.kind == r.kind && top.score == r.score && top.height == ratio * r.height
      && added.id == id && added.kind == Essay && added.score == (if r.score == 0 then 10 else r.score)
      && top.height + added.height == r.height
  {
    HalvesJoin(r, ratio, id);
  }

  /** The region at i keeps its name and the given share of its height; the rest of it goes to a new essay below. */
  lemma {:induction false} SplitChanges(sheet: Sheet, c: nat, i: nat, ratio: real, id: string)
    requires c < |sheet| && i < |sheet[c]| && Editable(sheet[c][i])
    ensures var r, was := Split(sheet, c, i, ratio, id), sheet[c];
      && |r| == |sheet| && OnlyColumn(sheet, r, c) && |r[c]| == |was| + 1
      && (forall j :: 0 <= j < i ==> SameSlot(was[j], r[c][j]))
      && (forall j :: i < j < |was| ==> SameSlot(was[j], r[c][j + 1]))
      && r[c][i].id == was[i].id && r[c][i].kind == was[i].kind && r[c][i].score == was[i].score
      && r[c][i].height == ratio * was[i].height
      && r[c][i + 1].id == id && r[c][i + 1].kind == Essay
      && r[c][i + 1].score == (if was[i].score == 0 then 10 else was[i].score)
      && r[c][i].height + r[c][i + 1].height == was[i].height
  {
    hide UpperHalf, LowerHalf, Splice, Renumber, SameColumn, OnlyColumn;
    var col := sheet[c];
    var two := [UpperHalf(col[i], ratio), LowerHalf(col[i], ratio, id)];
    var r := Split(sheet, c, i, ratio, id);
    RenumberedColumn(sheet, c, Splice(col, i, 1, two));
    SplicedAt(col, i, 1, two, r[c]);
    assert SameSlot(two[0], r[c][i + 0]) && SameSlot(two[1], r[c][i + 1]);
    HalvesOf(col[i], ratio, id);
  }

  /** The region at i keeps its name and gets the height of the one below, which goes; the last region stays alone. */
  lemma {:induction false} MergeChanges(sheet: Sheet, c: nat, i: nat)
    requires c < |sheet| && i < |sheet[c]| && Editable(sheet[c][i])
    ensures var r, was := Merge(sheet, c, i), sheet[c];
      if i + 1 == |was| then r == sheet
      else
        && |r| == |sheet| && OnlyColumn(sheet, r, c) && |r[c]| == |was| - 1
        && (forall j :: 0 <= j < i ==> SameSlot(was[j], r[c][j]))
        && (forall j :: i + 1 < j < |was| ==> SameSlot(was[j], r[c][j - 1]))
        && SameSlot(was[i], r[c][i].(height := was[i].height))
        && r[c][i].height == was[i].height + was[i + 1].height
  {
    hide Splice, Renumber, SameColumn, OnlyColumn;
    var col := sheet[c];
    if i + 1 < |col| {
      var one := [Joined(col[i], col[i + 1])];
      var r := Merge(sheet, c, i);
      RenumberedColumn(sheet, c, Splice(col, i, 2, one));
      SplicedAt(col, i, 2, one, r[c]);
      assert SameSlot(one[0], r[c][i + 0]);
    }
  }

  lemma {:induction false} SplicedTwo(col: seq<Slot>, i: nat, a: Slot, b: Slot)
    requires i + 1 < |col|
    ensures |Splice(col, i, 2, [a, b])| == |col|
    ensures forall j :: 0 <= j < |col| ==>
      Splice(col, i, 2, [a, b])[j] == if j == i then a else if j == i + 1 then b else col[j]
  {
  }

  /** Dragging by delta moves that much height from the lower region to the upper one, if both are questions and
      keep enough; nothing else changes, numbers included. */
  lemma {:induction false} ResizeChanges(sheet: Sheet, c: nat, i: nat, delta: real)
    requires c < |sheet| && i + 1 < |sheet[c]|
    ensures var r, was := Resize(sheet, c, i, delta), sheet[c];
      var fits := Editable(was[i]) && Editable(was[i + 1])
        && was[i].height + delta >= 0.05 && was[i + 1].height - delta >= 0.05;
      && |r| == |sheet| && |r[c]| == |was| && (!fits ==> r == sheet)
      && (forall d :: 0 <= d < |sheet| && d != c ==> r[d] == sheet[d])
      && (forall j :: 0 <= j < |was| ==>
            r[c][j] == if fits && j == i then was[j].(height := was[j].height + delta)
                       else if fits && j == i + 1 then was[j].(height := was[j].height - delta)
                       else was[j])
  {
    hide Splice;
    var col := sheet[c];
    SplicedTwo(col, i, col[i].(height := col[i].height + delta), col[i + 1].(height := col[i + 1].height - delta));
  }

  /** Below f fixed regions, dragging divider k moves height between questions k and k + 1 if both keep enough. */
  lemma {:induction false} DragChanges(sheet: Sheet, c: nat, f: nat, k: nat, delta: real)
    requires c < |sheet| && ValidColumn(sheet[c]) && f <= |sheet[c]|
    requires forall j :: 0 <= j < |sheet[c]| ==> (j < f <==> sheet[c][j].kind == Fixed)
    ensures
      var r, was := Drag(sheet, c, k, delta), sheet[c];
      var fits := f + k + 1 < |was| && was[f + k].height + delta >= 0.05 && was[f + k + 1].height - delta >= 0.05;
      && |r| == |sheet| && |r[c]| == |was| && (!fits ==> r == sheet)
      && (forall d :: 0 <= d < |sheet| && d != c ==> r[d] == sheet[d])
      && (fits ==> forall j :: 0 <= j < |was| ==>
            r[c][j] == if j == f + k then was[j].(height := was[j].height + delta)
                       else if j == f + k + 1 then was[j].(height := was[j].height - delta)
                       else was[j])
  {
    hide Resize, ValidColumn, EditableToReal;
    var col := sheet[c];
    FixedAre(col, f);
    EditableIndexIsContiguous(col, k);
    EditableIndexIsContiguous(col, k + 1);
    if f + k + 1 < |col| { ResizeChanges(sheet, c, f + k, delta); }
  }

  lemma {:induction false} FixedAre(col: seq<Slot>, f: nat)
    requires ValidColumn(col) && f <= |col| && forall j :: 0 <= j < |col| ==> (j < f <==> col[j].kind == Fixed)
    ensures FixedCount(col) == f && Count(col) == |col| - f
  {
    CountOfPrefix(col);
    forall j | 0 <= j < |col| ensures col[j].kind == Fixed <==> j < FixedCount(col) { assert Editable(col[j]) <==> j >= FixedCount(col); }
    assert f < |col| ==> col[f].kind != Fixed;
    assert FixedCount(col) < |col| ==> col[FixedCount(col)].kind != Fixed;
  }

  lemma {:induction false} FindIdIsFirst(col: seq<Slot>, id: string)
    ensures var i := FindId(col, id);
      if i < 0 then forall j :: 0 <= j < |col| ==> col[j].id != id
      else i < |col| && col[i].id == id && forall j :: 0 <= j < i ==> col[j].id != id
  {
    if col != [] && col[0].id != id { FindIdIsFirst(col[1..], id); }
  }

  /** The first region of the column with the id is region i, and it can be deleted. */
  ghost predicate Deletable(col: seq<Slot>, id: string, i: nat) {
    i < |col| && col[i].id == id && col[i].kind != Fixed && forall j :: 0 <= j < i ==> col[j].id != id
  }

  lemma {:induction false} DeletableIs(col: seq<Slot>, id: string, i: nat)
    ensures Deletable(col, id, i) <==> FindId(col, id) == i && Editable(col[i])
  {
    FindIdIsFirst(col, id);
  }

  lemma {:induction false} ColumnOfIs(sheet: Sheet, id: string, c: nat, i: nat)
    requires c < |sheet| && Deletable(sheet[c], id, i)
    requires forall d, k: nat :: 0 <= d < c ==> !Deletable(sheet[d], id, k)
    ensures ColumnOf(sheet, id) == c && FindId(sheet[c], id) == i
  {
    hide Deletable, FindId;
    DeletableIs(sheet[c], id, i);
    if c > 0 {
      assert !Deletable(sheet[0], id, 0);
      if FindId(sheet[0], id) >= 0 { DeletableIs(sheet[0], id, FindId(sheet[0], id)); }
      ColumnOfIs(sheet[1..], id, c - 1, i);
    }
  }

  lemma {:induction false} ColumnOfNone(sheet: Sheet, id: string)
    requires forall c, i: nat :: 0 <= c < |sheet| ==> !Deletable(sheet[c], id, i)
    ensures ColumnOf(sheet, id) == |sheet|
  {
    hide Deletable, FindId;
    if sheet != [] {
      if FindId(sheet[0], id) >= 0 { DeletableIs(sheet[0], id, FindId(sheet[0], id)); }
      ColumnOfNone(sheet[1..], id);
    }
  }

  /** Without a column whose first region with the id can be deleted, nothing happens. */
  lemma {:induction false} DeleteOfNone(sheet: Sheet, id: string)
    requires forall c, i: nat :: 0 <= c < |sheet| ==> !Deletable(sheet[c], id, i)
    ensures Delete(sheet, id) == sheet
  {
    ColumnOfNone(sheet, id);
  }

  /** The deleted question is the first one of the first column where that can be deleted. The others keep their
      order, and the first question among them gets its height. */
  lemma {:induction false} DeleteChanges(sheet: Sheet, id: string, c: nat, i: nat)
    requires c < |sheet| && Deletable(sheet[c], id, i)
    requires forall d, k: nat :: 0 <= d < c ==> !Deletable(sheet[d], id, k)
    ensures
      var r, was, left := Delete(sheet, id), sheet[c], sheet[c][..i] + sheet[c][i + 1..];
      && |r| == |sheet| && OnlyColumn(sheet, r, c) && |r[c]| == |left| == |was| - 1
      && (forall j :: 0 <= j < |left| ==>
            SameSlot(left[j], r[c][j].(height := left[j].height))
            && r[c][j].height == left[j].height
                 + if left[j].kind != Fixed && (forall k :: 0 <= k < j ==> left[k].kind == Fixed) then was[i].height else 0.0)
  {
    hide Renumber, OnlyColumn, SameColumn, Without, FirstEditable, SameSlot, Deletable, FindId, ColumnOf;
    ColumnOfIs(sheet, id, c, i);
    RenumberedColumn(sheet, c, Without(sheet[c], i));
    SlotsWithout(sheet[c], i, Delete(sheet, id)[c]);
    var left := Drop(sheet[c], i);
    forall j | 0 <= j < |left|
      ensures j == FirstEditable(left) <==> left[j].kind != Fixed && (forall k :: 0 <= k < j ==> left[k].kind == Fixed)
    {
      assert FirstEditable(left) < j ==> left[FirstEditable(left)].kind != Fixed;
    }
  }

  lemma {:induction false} SlotsWithout(was: seq<Slot>, i: nat, after: seq<Slot>)
    requires i < |was| && SameColumn(Without(was, i), after)
    ensures var left := Drop(was, i);
      && |after| == |left| == |was| - 1
      && forall j :: 0 <= j < |left| ==>
           SameSlot(left[j], after[j].(height := left[j].height))
           && after[j].height == left[j].height + if j == FirstEditable(left) then was[i].height else 0.0
  {
    var left := Drop(was, i);
    var given := Without(was, i);
    forall j | 0 <= j < |left|
      ensures SameSlot(left[j], after[j].(height := left[j].height))
      ensures after[j].height == left[j].height + if j == FirstEditable(left) then was[i].height else 0.0
    {
      assert SameSlot(given[j], after[j]);
    }
  }

  lemma {:induction false} CountIsPositive(col: seq<Slot>)
    ensures Count(col) > 0 <==> exists i :: 0 <= i < |col| && col[i].kind != Fixed
  {
    if i :| 0 <= i < |col| && col[i].kind != Fixed {
      CountPositive(col, i);
    } else {
      NoneEditable(col);
    }
  }

  lemma {:induction false} LastQuestionIs(sheet: Sheet, c: nat, i: nat)
    requires c < |sheet| && i < |sheet[c]| && sheet[c][i].kind != Fixed
    requires forall j :: i < j < |sheet[c]| ==> sheet[c][j].kind == Fixed
    requires forall d, j :: c < d < |sheet| && 0 <= j < |sheet[d]| ==> sheet[d][j].kind == Fixed
    ensures LastEditableColumn(sheet, |sheet|) == c && Count(sheet[c]) > 0 && LastEditable(sheet[c]) == i
  {
    hide LastEditableColumn, LastEditable, Count;
    forall d | 0 <= d < |sheet| ensures Count(sheet[d]) > 0 <==> exists j :: 0 <= j < |sheet[d]| && sheet[d][j].kind != Fixed {
      CountIsPositive(sheet[d]);
    }
    assert Editable(sheet[c][i]) && Count(sheet[c]) > 0;
    assert i <= LastEditable(sheet[c]);
  }

  /** The new question stands at the end of the last column with a question, and shares the height of the last
      question there. */
  lemma {:induction false} AddChanges(sheet: Sheet, id: string, c: nat, i: nat)
    requires c < |sheet| && i < |sheet[c]| && sheet[c][i].kind != Fixed
    requires forall j :: i < j < |sheet[c]| ==> sheet[c][j].kind == Fixed
    requires forall d, j :: c < d < |sheet| && 0 <= j < |sheet[d]| ==> sheet[d][j].kind == Fixed
    ensures
      var r, was := AddQuestion(sheet, id), sheet[c];
      && |r| == |sheet| && OnlyColumn(sheet, r, c) && |r[c]| == |was| + 1
      && (forall j :: 0 <= j < |was| ==> SameSlot(was[j], r[c][j].(height := was[j].height)))
      && (forall j :: 0 <= j < |was| && j != i ==> r[c][j].height == was[j].height)
      && r[c][|was|].id == id && r[c][|was|].kind == Essay && r[c][|was|].score == 12
      && r[c][i].height == r[c][|was|].height == was[i].height / 2.0
  {
    hide AddQuestion, LastEditableColumn, LastEditable, Count, OnlyColumn, SameSlot;
    LastQuestionIs(sheet, c, i);
    AddAtLast(sheet, id);
  }

  /** Column c has a new essay at its end; the other columns are as they were, up to question numbers. */
  ghost predicate EssayAdded(sheet: Sheet, after: Sheet, c: int, id: string, height: real, score: int) {
    && 0 <= c < |sheet| == |after| && OnlyColumn(sheet, after, c) && |after[c]| == |sheet[c]| + 1
    && after[c][|sheet[c]|].id == id && after[c][|sheet[c]|].kind == Essay
    && after[c][|sheet[c]|].height == height && after[c][|sheet[c]|].score == score
  }

  /** In a layout without questions the new one stands at the end of the last column, with a height of its own. */
  lemma {:induction false} AddFirst(sheet: Sheet, id: string)
    requires sheet != [] && forall d, j :: 0 <= d < |sheet| && 0 <= j < |sheet[d]| ==> sheet[d][j].kind == Fixed
    ensures EssayAdded(sheet, AddQuestion(sheet, id), |sheet| - 1, id, 1.0, 10)
    ensures sheet[|sheet| - 1] <= AddQuestion(sheet, id)[|sheet| - 1]
  {
    hide AddQuestion, LastEditableColumn, LastEditable, Count, OnlyColumn;
    var l := LastEditableColumn(sheet, |sheet|);
    assert l >= 0 ==> Count(sheet[l]) > 0;
    forall d | 0 <= d < |sheet| ensures Count(sheet[d]) == 0 { CountIsPositive(sheet[d]); }
    AddAtLast(sheet, id);
    var was, col := sheet[|sheet| - 1], AddQuestion(sheet, id)[|sheet| - 1];
    forall j | 0 <= j < |was| ensures col[j] == was[j] { assert SameSlot(was[j], col[j].(height := was[j].height)); }
  }

  lemma {:induction false} AddAtLast(sheet: Sheet, id: string)
    requires sheet != []
    ensures var r, c := AddQuestion(sheet, id), LastEditableColumn(sheet, |sheet|);
      var at := if c >= 0 then c else |sheet| - 1;
      |r| == |sheet| &&
      var was, col := sheet[at], r[at];
      && OnlyColumn(sheet, r, at) && |col| == |was| + 1 && col[|was|].id == id && col[|was|].kind == Essay
      && (forall j :: 0 <= j < |was| ==> SameSlot(was[j], col[j].(height := was[j].height)))
      && (forall j :: 0 <= j < |was| && !(c >= 0 && j == LastEditable(was)) ==> col[j].height == was[j].height)
      && (if c >= 0 then col[LastEditable(was)].height == col[|was|].height == was[LastEditable(was)].height / 2.0
          else col[|was|].height == 1.0)
      && col[|was|].score == if c >= 0 then 12 else 10
  {
    hide Renumber, SameColumn, OnlyColumn, LastEditable, LastEditableColumn, SameSlot;
    var c := LastEditableColumn(sheet, |sheet|);
    if c >= 0 {
      var was, i := sheet[c], LastEditable(sheet[c]);
      var half := was[i].height / 2.0;
      AppendChanges(sheet, c, was[i := was[i].(height := half)], Slot(id, Essay, 12, 0, half));
      HalvedSlots(was, i, half, AddQuestion(sheet, id)[c]);
    } else {
      AppendChanges(sheet, |sheet| - 1, sheet[|sheet| - 1], Slot(id, Essay, 10, 0, 1.0));
      KeptSlots(sheet[|sheet| - 1], AddQuestion(sheet, id)[|sheet| - 1]);
    }
  }

  /** A question added to a column stands at its end, with a height of its own. */
  lemma {:induction false} AddHereChanges(sheet: Sheet, c: nat, id: string)
    requires c < |sheet|
    ensures EssayAdded(sheet, AddHere(sheet, c, id), c, id, 1.0, 12)
    ensures forall j :: 0 <= j < |sheet[c]| ==> SameSlot(sheet[c][j], AddHere(sheet, c, id)[c][j])
  {
    hide Renumber, SameColumn, OnlyColumn, SameSlot;
    AppendChanges(sheet, c, sheet[c], Slot(id, Essay, 12, 0, 1.0));
  }

  lemma {:induction false} AppendChanges(sheet: Sheet, c: nat, col: seq<Slot>, added: Slot)
    requires c < |sheet| && Editable(added)
    ensures var r := Renumber(sheet[c := col + [added]]);
      && |r| == |sheet| && OnlyColumn(sheet, r, c) && |r[c]| == |col| + 1
      && (forall j :: 0 <= j < |col| ==> SameSlot(col[j], r[c][j]))
      && r[c][|col|].id == added.id && r[c][|col|].kind == added.kind && r[c][|col|].height == added.height
      && r[c][|col|].score == added.score
  {
    hide Renumber, OnlyColumn, SameSlot;
    var full := col + [added];
    RenumberedColumn(sheet, c, full);
    var r := Renumber(sheet[c := full]);
    assert full[|col|] == added && SameSlot(full[|col|], r[c][|col|]);
    SameEditable(added, r[c][|col|]);
    forall j | 0 <= j < |col| ensures SameSlot(col[j], r[c][j]) { assert full[j] == col[j]; }
  }

  lemma {:induction false} SameEditable(a: Slot, b: Slot)
    requires Editable(a) && SameSlot(a, b)
    ensures a.id == b.id && a.kind == b.kind && a.height == b.height && a.score == b.score
  {
  }

  lemma {:induction false} HalvedSlots(was: seq<Slot>, i: nat, half: real, after: seq<Slot>)
    requires i < |was| <= |after|
    requires forall j :: 0 <= j < |was| ==> SameSlot(was[i := was[i].(height := half)][j], after[j])
    ensures forall j :: 0 <= j < |was| ==> SameSlot(was[j], after[j].(height := was[j].height))
    ensures forall j :: 0 <= j < |was| && j != i ==> after[j].height == was[j].height
    ensures after[i].height == half
  {
    assert SameSlot(was[i].(height := half), after[i]);
  }

  lemma {:induction false} KeptSlots(was: seq<Slot>, after: seq<Slot>)
    requires |was| <= |after| && forall j :: 0 <= j < |was| ==> SameSlot(was[j], after[j])
    ensures forall j :: 0 <= j < |was| ==> SameSlot(was[j], after[j].(height := was[j].height))
    ensures forall j :: 0 <= j < |was| ==> after[j].height == was[j].height
  {
  }
}
