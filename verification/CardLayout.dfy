/**
 The answer-card layout: columns of regions that the editor splits, merges, resizes, adds and deletes
 in place, renumbering the questions after each change (frontend/src/card-editor/model.js, and the
 data part of the handlers in interact.js and panel.js).
 */
module CardLayout {
  import opened Wrappers

  datatype Kind = Fixed | Fill | Essay

  /** The value of a region. A fixed region has neither number nor height: both stay 0. */
  datatype Slot = Slot(id: string, kind: Kind, score: int, qno: int, height: real)

  /** The value of a layout: its columns in reading order, side A before side B. */
  type Sheet = seq<seq<Slot>>

  predicate Editable(s: Slot) { s.kind != Fixed }

  // ---------- Numbering ----------

  function Count(col: seq<Slot>): nat {
    if col == [] then 0 else Count(col[..|col| - 1]) + if Editable(col[|col| - 1]) then 1 else 0
  }

  function CountAll(sheet: Sheet): nat {
    if sheet == [] then 0 else CountAll(sheet[..|sheet| - 1]) + Count(sheet[|sheet| - 1])
  }

  function Less(least: Option<int>, s: Slot): Option<int> {
    if Editable(s) && s.qno > 0 && (least.None? || s.qno < least.value) then Some(s.qno) else least
  }

  function LeastQno(col: seq<Slot>, least: Option<int>): Option<int> {
    if col == [] then least else Less(LeastQno(col[..|col| - 1], least), col[|col| - 1])
  }

  function LeastQnoAll(sheet: Sheet): Option<int> {
    if sheet == [] then None else LeastQno(sheet[|sheet| - 1], LeastQnoAll(sheet[..|sheet| - 1]))
  }

  function StartQno(sheet: Sheet): int {
    if LeastQnoAll(sheet).None? then 1 else LeastQnoAll(sheet).value
  }

  function NumberColumn(col: seq<Slot>, from: int): seq<Slot> {
    seq(|col|, i requires 0 <= i < |col| =>
      if Editable(col[i]) then col[i].(qno := from + Count(col[..i])) else col[i])
  }

  function NumberFrom(sheet: Sheet, from: int): Sheet {
    seq(|sheet|, c requires 0 <= c < |sheet| => NumberColumn(sheet[c], from + CountAll(sheet[..c])))
  }

  function Renumber(sheet: Sheet): Sheet { NumberFrom(sheet, StartQno(sheet)) }

  // ---------- The operations on values ----------

  function Splice(col: seq<Slot>, i: nat, drop: nat, insert: seq<Slot>): seq<Slot>
    requires i + drop <= |col|
  {
    col[..i] + insert + col[i + drop..]
  }

  function UpperHalf(r: Slot, ratio: real): Slot { r.(height := r.height * ratio) }

  function LowerHalf(r: Slot, ratio: real, id: string): Slot {
    Slot(id, Essay, if r.score == 0 then 10 else r.score, 0, r.height * (1.0 - ratio))
  }

  function Joined(upper: Slot, lower: Slot): Slot { upper.(height := upper.height + lower.height) }

  function Split(sheet: Sheet, c: nat, i: nat, ratio: real, id: string): Sheet
    requires c < |sheet| && i < |sheet[c]|
  {
    var r := sheet[c][i];
    Renumber(sheet[c := Splice(sheet[c], i, 1, [UpperHalf(r, ratio), LowerHalf(r, ratio, id)])])
  }

  function Merge(sheet: Sheet, c: nat, i: nat): Sheet
    requires c < |sheet|
  {
    if i + 1 >= |sheet[c]| then sheet
    else
      Renumber(sheet[c := Splice(sheet[c], i, 2, [Joined(sheet[c][i], sheet[c][i + 1])])])
  }

  const MIN_RATIO := 0.05

  /** A fixed region has no height to change; the source then compares with a height that is not a number. */
  function Resize(sheet: Sheet, c: nat, i: nat, delta: real): Sheet
    requires c < |sheet|
  {
    if i + 1 >= |sheet[c]| then sheet
    else
      var upper, lower := sheet[c][i], sheet[c][i + 1];
      if Editable(upper) && Editable(lower)
        && upper.height + delta >= MIN_RATIO && lower.height - delta >= MIN_RATIO then
        sheet[c := Splice(sheet[c], i, 2,
          [upper.(height := upper.height + delta), lower.(height := lower.height - delta)])]
      else sheet
  }

  /** Real index of the k-th editable region, or -1. */
  function EditableToReal(col: seq<Slot>, k: int): int {
    EditableFrom(col, k, 0)
  }

  function EditableFrom(col: seq<Slot>, k: int, from: nat): (r: int)
    requires from <= |col|
    ensures -1 <= r < |col|
    decreases |col| - from
  {
    if from == |col| then -1
    else if Editable(col[from]) && Count(col[..from]) == k then from
    else EditableFrom(col, k, from + 1)
  }

  /** Dragging the divider below the k-th editable region. */
  function Drag(sheet: Sheet, c: nat, k: nat, delta: real): Sheet
    requires c < |sheet|
  {
    var upper, lower := EditableToReal(sheet[c], k), EditableToReal(sheet[c], k + 1);
    if upper < 0 || lower < 0 then sheet else Resize(sheet, c, upper, delta)
  }

  /** The context-menu entry of an empty column. */
  function AddHere(sheet: Sheet, c: nat, id: string): Sheet
    requires c < |sheet|
  {
    Renumber(sheet[c := sheet[c] + [Slot(id, Essay, 12, 0, 1.0)]])
  }

  /** Last column with an editable region among the first n, or -1. */
  function LastEditableColumn(sheet: Sheet, n: nat): (c: int)
    requires n <= |sheet|
    ensures -1 <= c < n && (c >= 0 ==> Count(sheet[c]) > 0)
    ensures forall d :: c < d < n ==> Count(sheet[d]) == 0
  {
    if n == 0 then -1 else if Count(sheet[n - 1]) > 0 then n - 1 else LastEditableColumn(sheet, n - 1)
  }

  /** Index of the last editable region. */
  function LastEditable(col: seq<Slot>): (i: nat)
    requires Count(col) > 0
    ensures i < |col| && Editable(col[i])
    ensures forall j :: i < j < |col| ==> !Editable(col[j])
  {
    if Editable(col[|col| - 1]) then |col| - 1 else LastEditable(col[..|col| - 1])
  }

  /** The add-question button: halves the last question of the last column that has one. */
  function AddQuestion(sheet: Sheet, id: string): Sheet {
    var c := LastEditableColumn(sheet, |sheet|);
    if c >= 0 then
      var i := LastEditable(sheet[c]);
      var half := sheet[c][i].height / 2.0;
      Renumber(sheet[c := sheet[c][i := sheet[c][i].(height := half)] + [Slot(id, Essay, 12, 0, half)]])
    else if |sheet| > 0 then
      Renumber(sheet[|sheet| - 1 := sheet[|sheet| - 1] + [Slot(id, Essay, 10, 0, 1.0)]])
    else Renumber(sheet)
  }

  /** Index of the first region with the given id, or -1. */
  function FindId(col: seq<Slot>, id: string): (i: int)
    ensures -1 <= i < |col| && (i >= 0 ==> col[i].id == id)
  {
    if col == [] then -1
    else if col[0].id == id then 0
    else
      var i := FindId(col[1..], id);
      if i < 0 then -1 else i + 1
  }

  /** The first column whose first region with the id can be deleted, or |sheet|. */
  function ColumnOf(sheet: Sheet, id: string): (c: nat)
    ensures c <= |sheet|
    ensures c < |sheet| ==> FindId(sheet[c], id) >= 0 && Editable(sheet[c][FindId(sheet[c], id)])
  {
    if sheet == [] then 0
    else
      var i := FindId(sheet[0], id);
      if i >= 0 && Editable(sheet[0][i]) then 0 else 1 + ColumnOf(sheet[1..], id)
  }

  function FirstEditable(col: seq<Slot>): (i: nat)
    ensures i <= |col| && (i < |col| ==> Editable(col[i])) && forall j :: 0 <= j < i ==> !Editable(col[j])
  {
    if col == [] || Editable(col[0]) then 0 else 1 + FirstEditable(col[1..])
  }

  function Drop(col: seq<Slot>, i: nat): seq<Slot>
    requires i < |col|
  {
    col[..i] + col[i + 1..]
  }

  /** Adds a height to the first editable region, if there is one. */
  function GiveToFirst(col: seq<Slot>, h: real): seq<Slot> {
    var n := FirstEditable(col);
    if n < |col| then col[n := col[n].(height := col[n].height + h)] else col
  }

  /** A column without the region at i, its height given to the first editable region that remains. */
  function Without(col: seq<Slot>, i: nat): seq<Slot>
    requires i < |col|
  {
    GiveToFirst(Drop(col, i), col[i].height)
  }

  function Delete(sheet: Sheet, id: string): Sheet {
    var c := ColumnOf(sheet, id);
    if c == |sheet| then sheet
    else Renumber(sheet[c := Without(sheet[c], FindId(sheet[c], id))])
  }

  // ---------- Counting and summing over columns ----------

  lemma {:induction false} CountConcat(a: seq<Slot>, b: seq<Slot>)
    ensures Count(a + b) == Count(a) + Count(b)
  {
    if b == [] {
      assert a + b == a;
    } else {
      assert (a + b)[..|a + b| - 1] == a + b[..|b| - 1];
      CountConcat(a, b[..|b| - 1]);
    }
  }

  lemma {:induction false} CountPrefix(col: seq<Slot>, i: nat)
    requires i < |col|
    ensures Count(col[..i + 1]) == Count(col[..i]) + if Editable(col[i]) then 1 else 0
  {
    assert col[..i + 1][..i] == col[..i];
  }

  /** Total height of the editable regions of a column. */
  function EditableHeight(col: seq<Slot>): real {
    if col == [] then 0.0
    else EditableHeight(col[..|col| - 1]) + if Editable(col[|col| - 1]) then col[|col| - 1].height else 0.0
  }

  lemma {:induction false} HeightConcat(a: seq<Slot>, b: seq<Slot>)
    ensures EditableHeight(a + b) == EditableHeight(a) + EditableHeight(b)
  {
    if b == [] {
      assert a + b == a;
    } else {
      assert (a + b)[..|a + b| - 1] == a + b[..|b| - 1];
      HeightConcat(a, b[..|b| - 1]);
    }
  }

  function Total(slots: seq<Slot>): real {
    if slots == [] then 0.0 else (if Editable(slots[0]) then slots[0].height else 0.0) + Total(slots[1..])
  }

  lemma {:induction false} TotalIsHeight(slots: seq<Slot>)
    ensures Total(slots) == EditableHeight(slots)
  {
    if slots != [] {
      TotalIsHeight(slots[1..]);
      HeightConcat([slots[0]], slots[1..]);
      assert [slots[0]] + slots[1..] == slots && [slots[0]][..0] == [];
      assert EditableHeight([]) == 0.0;
    }
  }

  lemma {:induction false} SpliceHeight(col: seq<Slot>, i: nat, drop: nat, insert: seq<Slot>)
    requires i + drop <= |col|
    ensures EditableHeight(Splice(col, i, drop, insert))
            == EditableHeight(col) - Total(col[i..i + drop]) + Total(insert)
  {
    var mid, post := col[i..i + drop], col[i + drop..];
    assert col == col[..i] + mid + post;
    HeightConcat(col[..i] + mid, post);
    HeightConcat(col[..i], mid);
    HeightConcat(col[..i] + insert, post);
    HeightConcat(col[..i], insert);
    TotalIsHeight(mid);
    TotalIsHeight(insert);
  }

  // ---------- Numbering ----------

  /** Place of a slot among the editable slots of the sheet, from 0. */
  function Rank(sheet: Sheet, c: nat, i: nat): nat
    requires c < |sheet| && i < |sheet[c]|
  {
    CountAll(sheet[..c]) + Count(sheet[c][..i])
  }

  /** The editable slots carry s, s + 1, ... in reading order. */
  ghost predicate NumberedFrom(sheet: Sheet, s: int) {
    forall c, i :: 0 <= c < |sheet| && 0 <= i < |sheet[c]| && Editable(sheet[c][i]) ==>
      sheet[c][i].qno == s + Rank(sheet, c, i)
  }

  /** Same columns, and the same slots but for their numbers. */
  ghost predicate SameShape(a: Sheet, b: Sheet) {
    |a| == |b| && forall c :: 0 <= c < |a| ==> SameColumn(a[c], b[c])
  }

  ghost predicate SameColumn(a: seq<Slot>, b: seq<Slot>) {
    |a| == |b| && forall i :: 0 <= i < |a| ==> SameSlot(a[i], b[i])
  }

  ghost predicate SameSlot(a: Slot, b: Slot) {
    && (Editable(a) ==> b == a.(qno := b.qno))
    && (!Editable(a) ==> b == a)
  }

  lemma {:induction false} SameCount(a: seq<Slot>, b: seq<Slot>)
    requires SameColumn(a, b)
    ensures Count(a) == Count(b) && EditableHeight(a) == EditableHeight(b)
  {
    if a != [] { SameCount(a[..|a| - 1], b[..|b| - 1]); }
  }

  lemma {:induction false} SameCountAll(a: Sheet, b: Sheet)
    requires SameShape(a, b)
    ensures CountAll(a) == CountAll(b)
  {
    if a != [] {
      SameCountAll(a[..|a| - 1], b[..|b| - 1]);
      SameCount(a[|a| - 1], b[|b| - 1]);
    }
  }

  lemma {:induction false} SameRank(a: Sheet, b: Sheet, c: nat, i: nat)
    requires SameShape(a, b) && c < |a| && i < |a[c]|
    ensures Rank(a, c, i) == Rank(b, c, i)
  {
    SameCountAll(a[..c], b[..c]);
    SameCount(a[c][..i], b[c][..i]);
  }

  lemma {:induction false} NumberFromAt(sheet: Sheet, s: int, c: nat, i: nat)
    requires c < |sheet| && i < |sheet[c]|
    ensures |NumberFrom(sheet, s)| == |sheet| && |NumberFrom(sheet, s)[c]| == |sheet[c]|
    ensures NumberFrom(sheet, s)[c][i]
            == if Editable(sheet[c][i]) then sheet[c][i].(qno := s + Rank(sheet, c, i)) else sheet[c][i]
  {
  }

  lemma {:induction false} NumberFromShape(sheet: Sheet, s: int)
    ensures SameShape(sheet, NumberFrom(sheet, s))
  {
  }

  lemma {:induction false} NumberFromNumbers(sheet: Sheet, s: int)
    ensures NumberedFrom(NumberFrom(sheet, s), s)
  {
    var r := NumberFrom(sheet, s);
    NumberFromShape(sheet, s);
    forall c, i | 0 <= c < |r| && 0 <= i < |r[c]| && Editable(r[c][i]) ensures r[c][i].qno == s + Rank(r, c, i) {
      NumberFromAt(sheet, s, c, i);
      SameRank(sheet, r, c, i);
    }
  }

  /** A numbered sheet is the only numbering of its shape. */
  lemma {:induction false} NumberingIsUnique(sheet: Sheet, b: Sheet, s: int)
    requires SameShape(sheet, b) && NumberedFrom(b, s)
    ensures NumberFrom(sheet, s) == b
  {
    var r := NumberFrom(sheet, s);
    forall c | 0 <= c < |r| ensures r[c] == b[c] {
      forall i | 0 <= i < |r[c]| ensures r[c][i] == b[c][i] {
        NumberFromAt(sheet, s, c, i);
        SameRank(sheet, b, c, i);
      }
    }
  }

  lemma {:induction false} LeastQnoBounds(col: seq<Slot>, least: Option<int>)
    requires least.Some? ==> least.value > 0
    ensures var v := LeastQno(col, least);
      && (v.Some? ==> v.value > 0)
      && (least.Some? ==> v.Some? && v.value <= least.value)
      && (v.Some? ==> v == least || exists i :: 0 <= i < |col| && Editable(col[i]) && col[i].qno == v.value)
      && (forall i :: 0 <= i < |col| && Editable(col[i]) && col[i].qno > 0 ==> v.Some? && v.value <= col[i].qno)
  {
    if col != [] {
      var n := |col| - 1;
      LeastQnoBounds(col[..n], least);
      assert forall i :: 0 <= i < n ==> col[..n][i] == col[i];
    }
  }

  ghost predicate Carries(sheet: Sheet, qno: int) {
    exists c, i :: 0 <= c < |sheet| && 0 <= i < |sheet[c]| && Editable(sheet[c][i]) && sheet[c][i].qno == qno
  }

  /** The least positive number of an editable slot, if there is one. */
  lemma {:induction false} LeastQnoAllBounds(sheet: Sheet)
    ensures var v := LeastQnoAll(sheet);
      && (v.Some? ==> v.value > 0 && Carries(sheet, v.value))
      && (forall c, i :: 0 <= c < |sheet| && 0 <= i < |sheet[c]| && Editable(sheet[c][i]) && sheet[c][i].qno > 0 ==>
            v.Some? && v.value <= sheet[c][i].qno)
  {
    if sheet != [] {
      var n := |sheet| - 1;
      LeastQnoAllBounds(sheet[..n]);
      LeastQnoBounds(sheet[n], LeastQnoAll(sheet[..n]));
      assert forall c :: 0 <= c < n ==> sheet[..n][c] == sheet[c];
    }
  }

  lemma {:induction false} CountPositive(col: seq<Slot>, i: nat)
    requires i < |col| && Editable(col[i])
    ensures Count(col) > 0
  {
    assert col == col[..i + 1] + col[i + 1..];
    CountConcat(col[..i + 1], col[i + 1..]);
    CountPrefix(col, i);
  }

  lemma {:induction false} FirstInColumn(col: seq<Slot>) returns (i: nat)
    requires Count(col) > 0
    ensures i < |col| && Editable(col[i]) && Count(col[..i]) == 0
  {
    var n := |col| - 1;
    if Count(col[..n]) > 0 {
      i := FirstInColumn(col[..n]);
      assert col[..n][..i] == col[..i];
    } else {
      i := n;
    }
  }

  lemma {:induction false} CountAllPrefix(sheet: Sheet, c: nat)
    requires c < |sheet|
    ensures CountAll(sheet[..c + 1]) == CountAll(sheet[..c]) + Count(sheet[c])
    ensures CountAll(sheet[..c]) <= CountAll(sheet)
    decreases |sheet| - c
  {
    assert sheet[..c + 1][..c] == sheet[..c];
    if c + 1 < |sheet| {
      CountAllPrefix(sheet, c + 1);
    } else {
      assert sheet[..c + 1] == sheet;
    }
  }

  lemma {:induction false} FirstSlot(sheet: Sheet) returns (c: nat, i: nat)
    requires CountAll(sheet) > 0
    ensures c < |sheet| && i < |sheet[c]| && Editable(sheet[c][i]) && Rank(sheet, c, i) == 0
  {
    var n := |sheet| - 1;
    if CountAll(sheet[..n]) > 0 {
      c, i := FirstSlot(sheet[..n]);
      assert sheet[..n][..c] == sheet[..c];
    } else {
      c := n;
      i := FirstInColumn(sheet[n]);
    }
  }

  /** A number that some editable slot carries, and none undercuts, is where renumbering starts. */
  lemma {:induction false} StartIs(sheet: Sheet, v: int, c: nat, i: nat)
    requires v > 0 && c < |sheet| && i < |sheet[c]| && Editable(sheet[c][i]) && sheet[c][i].qno == v
    requires forall d, j :: 0 <= d < |sheet| && 0 <= j < |sheet[d]| && Editable(sheet[d][j]) ==> sheet[d][j].qno >= v
    ensures StartQno(sheet) == v
  {
    LeastQnoAllBounds(sheet);
  }

  lemma {:induction false} StartPositive(sheet: Sheet)
    ensures StartQno(sheet) > 0
  {
    LeastQnoAllBounds(sheet);
  }

  lemma {:induction false} StartOfNumbered(sheet: Sheet, s: int)
    requires NumberedFrom(sheet, s) && s > 0 && CountAll(sheet) > 0
    ensures StartQno(sheet) == s
  {
    var c, i := FirstSlot(sheet);
    StartIs(sheet, s, c, i);
  }

  /** A sheet numbered consecutively from a positive number is left as it is. */
  lemma {:induction false} NumberedIsFixed(sheet: Sheet, s: int)
    requires NumberedFrom(sheet, s) && s > 0
    ensures Renumber(sheet) == sheet
  {
    if CountAll(sheet) > 0 {
      StartOfNumbered(sheet, s);
    } else {
      forall c, i | 0 <= c < |sheet| && 0 <= i < |sheet[c]| ensures !Editable(sheet[c][i]) {
        if Editable(sheet[c][i]) { CountPositive(sheet[c], i); CountAllPrefix(sheet, c); CountAllMonotone(sheet, c); }
      }
    }
    NumberingIsUnique(sheet, sheet, StartQno(sheet));
  }

  lemma {:induction false} CountAllMonotone(sheet: Sheet, c: nat)
    requires c < |sheet|
    ensures CountAll(sheet[..c + 1]) <= CountAll(sheet)
  {
    if c + 1 < |sheet| { CountAllPrefix(sheet, c + 1); } else { assert sheet[..c + 1] == sheet; }
  }

  /** Renumbering gives s, s + 1, ... in reading order, where s is the least positive number there was, or 1. */
  lemma {:induction false} RenumberIsConsecutive(sheet: Sheet)
    ensures SameShape(sheet, Renumber(sheet)) && NumberedFrom(Renumber(sheet), StartQno(sheet)) && StartQno(sheet) > 0
    ensures var s := StartQno(sheet);
      Carries(sheet, s)
      || (s == 1 && forall c, i :: 0 <= c < |sheet| && 0 <= i < |sheet[c]| && Editable(sheet[c][i]) ==> sheet[c][i].qno <= 0)
    ensures forall c, i :: 0 <= c < |sheet| && 0 <= i < |sheet[c]| && Editable(sheet[c][i]) && sheet[c][i].qno > 0 ==>
      StartQno(sheet) <= sheet[c][i].qno
  {
    NumberFromShape(sheet, StartQno(sheet));
    NumberFromNumbers(sheet, StartQno(sheet));
    LeastQnoAllBounds(sheet);
  }

  lemma {:induction false} RenumberIsIdempotent(sheet: Sheet)
    ensures Renumber(Renumber(sheet)) == Renumber(sheet)
  {
    StartPositive(sheet);
    NumberFromNumbers(sheet, StartQno(sheet));
    NumberedIsFixed(Renumber(sheet), StartQno(sheet));
  }

  // ---------- Merging undoes splitting ----------

  lemma {:induction false} ShapeTransitive(a: Sheet, b: Sheet, x: int)
    requires SameShape(a, b)
    ensures NumberFrom(a, x) == NumberFrom(b, x)
  {
    NumberFromNumbers(b, x);
    NumberFromShape(b, x);
    var r := NumberFrom(b, x);
    forall c | 0 <= c < |a| ensures SameColumn(a[c], r[c]) {
      assert SameColumn(a[c], b[c]) && SameColumn(b[c], r[c]);
    }
    NumberingIsUnique(a, r, x);
  }

  function Widen(sheet: Sheet, c: nat, i: nat, top: Slot, added: Slot): Sheet
    requires c < |sheet| && i < |sheet[c]|
  {
    sheet[c := Splice(sheet[c], i, 1, [top, added])]
  }

  function Narrow(sheet: Sheet, c: nat, i: nat, joined: Slot): Sheet
    requires c < |sheet| && i + 1 < |sheet[c]|
  {
    sheet[c := Splice(sheet[c], i, 2, [joined])]
  }

  lemma {:induction false} WidenAt(sheet: Sheet, c: nat, i: nat, top: Slot, added: Slot, d: nat, k: nat)
    requires c < |sheet| && i < |sheet[c]| && d < |sheet|
    ensures var w := Widen(sheet, c, i, top, added);
      && |w| == |sheet| && |w[d]| == (if d == c then |sheet[c]| + 1 else |sheet[d]|)
      && (k < |w[d]| ==> w[d][k] == if d != c || k < i then sheet[d][k] else if k == i then top
                                    else if k == i + 1 then added else sheet[d][k - 1])
  {
  }

  lemma {:induction false} NarrowAt(sheet: Sheet, c: nat, i: nat, joined: Slot, d: nat, k: nat)
    requires c < |sheet| && i + 1 < |sheet[c]| && d < |sheet|
    ensures var n := Narrow(sheet, c, i, joined);
      && |n| == |sheet| && |n[d]| == (if d == c then |sheet[c]| - 1 else |sheet[d]|)
      && (k < |n[d]| ==> n[d][k] == if d != c || k < i then sheet[d][k] else if k == i then joined else sheet[d][k + 1])
  {
  }

  lemma {:induction false} SameStart(a: Sheet, b: Sheet)
    requires forall q :: q > 0 ==> (Carries(a, q) <==> Carries(b, q))
    ensures StartQno(a) == StartQno(b)
  {
    LeastQnoAllBounds(a);
    LeastQnoAllBounds(b);
  }

  /** The new half carries no number yet, so the start of the numbering does not move. */
  lemma {:induction false} SplitKeepsStart(sheet: Sheet, c: nat, i: nat, top: Slot, added: Slot)
    requires c < |sheet| && i < |sheet[c]| && top.kind == sheet[c][i].kind && top.qno == sheet[c][i].qno && added.qno == 0
    ensures StartQno(Widen(sheet, c, i, top, added)) == StartQno(sheet)
  {
    hide Widen, StartQno;
    var wide := Widen(sheet, c, i, top, added);
    forall q | q > 0 && Carries(sheet, q) ensures Carries(wide, q) {
      var d, j :| 0 <= d < |sheet| && 0 <= j < |sheet[d]| && Editable(sheet[d][j]) && sheet[d][j].qno == q;
      WidenAt(sheet, c, i, top, added, d, if d == c && j > i then j + 1 else j);
    }
    forall q | q > 0 && Carries(wide, q) ensures Carries(sheet, q) {
      WidenAt(sheet, c, i, top, added, c, 0);
      var d, k :| 0 <= d < |wide| && 0 <= k < |wide[d]| && Editable(wide[d][k]) && wide[d][k].qno == q;
      WidenAt(sheet, c, i, top, added, d, k);
      var j := if d == c && k > i then k - 1 else k;
      assert Editable(sheet[d][j]) && sheet[d][j].qno == q;
    }
    SameStart(sheet, wide);
  }

  /** Splitting and numbering, then joining the two halves: only numbers can differ from the sheet before. */
  lemma {:induction false} NarrowShape(sheet: Sheet, c: nat, i: nat, top: Slot, added: Slot, s: int, joined: Slot)
    requires c < |sheet| && i < |sheet[c]| && SameSlot(sheet[c][i], joined)
    requires var split := NumberFrom(Widen(sheet, c, i, top, added), s); |split| == |sheet| && i + 1 < |split[c]|
    ensures SameShape(sheet, Narrow(NumberFrom(Widen(sheet, c, i, top, added), s), c, i, joined))
  {
    hide Widen, Narrow, NumberFrom;
    var wide := Widen(sheet, c, i, top, added);
    var split := NumberFrom(wide, s);
    var narrow := Narrow(split, c, i, joined);
    NumberFromShape(wide, s);
    NarrowAt(split, c, i, joined, c, 0);
    forall d | 0 <= d < |sheet| ensures SameColumn(sheet[d], narrow[d]) {
      WidenAt(sheet, c, i, top, added, d, 0);
      NarrowAt(split, c, i, joined, d, 0);
      assert SameColumn(wide[d], split[d]);
      forall j | 0 <= j < |sheet[d]| ensures SameSlot(sheet[d][j], narrow[d][j]) {
        NarrowAt(split, c, i, joined, d, j);
        WidenAt(sheet, c, i, top, added, d, if d == c && j > i then j + 1 else j);
      }
    }
  }

  /** Joining the two halves keeps the least number: the first question is never the lower half. */
  lemma {:induction false} NarrowStart(wide: Sheet, c: nat, i: nat, s: int, joined: Slot)
    requires c < |wide| && i + 1 < |wide[c]| && s > 0 && Editable(wide[c][i])
    requires var split := NumberFrom(wide, s);
      |split| == |wide| && i + 1 < |split[c]| && Editable(joined) && joined.qno == split[c][i].qno
    ensures StartQno(Narrow(NumberFrom(wide, s), c, i, joined)) == s
  {
    hide Narrow, NumberFrom, StartQno, Rank;
    var split := NumberFrom(wide, s);
    var narrow := Narrow(split, c, i, joined);
    SomeEditable(wide, c, i);
    var d, j := FirstSlot(wide);
    NumberFromAt(wide, s, d, j);
    NextRank(wide, c, i);
    var k := if d == c && j > i + 1 then j - 1 else j;
    NarrowAt(split, c, i, joined, d, k);
    forall e, l | 0 <= e < |narrow| && 0 <= l < |narrow[e]| && Editable(narrow[e][l]) ensures narrow[e][l].qno >= s {
      NarrowAt(split, c, i, joined, c, 0);
      NumberFromAt(wide, s, c, i);
      var m := if e == c && l > i then l + 1 else l;
      NumberFromShape(wide, s);
      assert SameColumn(wide[e], split[e]);
      NarrowAt(split, c, i, joined, e, l);
      NumberFromAt(wide, s, e, m);
    }
    StartIs(narrow, s, d, k);
  }

  lemma {:induction false} SomeEditable(sheet: Sheet, c: nat, i: nat)
    requires c < |sheet| && i < |sheet[c]| && Editable(sheet[c][i])
    ensures CountAll(sheet) > 0
  {
    CountPositive(sheet[c], i);
    CountAllPrefix(sheet, c);
    CountAllMonotone(sheet, c);
  }

  lemma {:induction false} NextRank(sheet: Sheet, c: nat, i: nat)
    requires c < |sheet| && i + 1 < |sheet[c]| && Editable(sheet[c][i])
    ensures Rank(sheet, c, i + 1) > 0
  {
    CountPrefix(sheet[c], i);
  }

  /** Splitting an editable region and merging the two halves again only renumbers the layout: on a consecutively
      numbered one (see NumberedIsFixed) it restores heights, order and numbers exactly. */
  lemma {:induction false} MergeUndoesSplit(sheet: Sheet, c: nat, i: nat, ratio: real, id: string)
    requires c < |sheet| && i < |sheet[c]| && Editable(sheet[c][i])
    ensures |Split(sheet, c, i, ratio, id)| == |sheet|
    ensures Merge(Split(sheet, c, i, ratio, id), c, i) == Renumber(sheet)
  {
    hide Widen, Narrow, NumberFrom, StartQno, Rank, SameShape, UpperHalf, LowerHalf, Split, Merge;
    var r := sheet[c][i];
    var top, added := UpperHalf(r, ratio), LowerHalf(r, ratio, id);
    var wide := Widen(sheet, c, i, top, added);
    var s := StartQno(sheet);
    HalvesJoin(r, ratio, id);
    SplitKeepsStart(sheet, c, i, top, added);
    StartPositive(sheet);
    SplitIsWiden(sheet, c, i, ratio, id);
    var split := NumberFrom(wide, s);
    WidenAt(sheet, c, i, top, added, c, i);
    WidenAt(sheet, c, i, top, added, c, i + 1);
    NumberFromAt(wide, s, c, i);
    NumberFromAt(wide, s, c, i + 1);
    var joined := Joined(split[c][i], split[c][i + 1]);
    NarrowShape(sheet, c, i, top, added, s, joined);
    NarrowStart(wide, c, i, s, joined);
    ShapeTransitive(sheet, Narrow(split, c, i, joined), s);
    MergeIsNarrow(split, c, i);
  }

  lemma {:induction false} HalvesJoin(r: Slot, ratio: real, id: string)
    ensures UpperHalf(r, ratio).height + LowerHalf(r, ratio, id).height == r.height
    ensures r == UpperHalf(r, ratio).(height := r.height)
    ensures Editable(LowerHalf(r, ratio, id)) && LowerHalf(r, ratio, id).qno == 0
  {
    assert r.height * (1.0 - ratio) == r.height - r.height * ratio;
  }

  lemma {:induction false} SplitIsWiden(sheet: Sheet, c: nat, i: nat, ratio: real, id: string)
    requires c < |sheet| && i < |sheet[c]|
    ensures Split(sheet, c, i, ratio, id)
            == Renumber(Widen(sheet, c, i, UpperHalf(sheet[c][i], ratio), LowerHalf(sheet[c][i], ratio, id)))
  {
  }

  lemma {:induction false} MergeIsNarrow(sheet: Sheet, c: nat, i: nat)
    requires c < |sheet| && i + 1 < |sheet[c]|
    ensures Merge(sheet, c, i) == Renumber(Narrow(sheet, c, i, Joined(sheet[c][i], sheet[c][i + 1])))
  {
  }
}
