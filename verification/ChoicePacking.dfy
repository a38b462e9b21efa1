/**
 The flat-flow packing of choice questions on an answer card: batches of `perRow` questions, the
 blank cells of tall rows reclaimed by the questions that follow, and their left-over option rows
 (frontend/src/card-editor/render.js, buildChoiceGroupsHTML).
 */
module ChoicePacking {

  datatype Question = Question(qno: int, options: nat)

  /** A grid cell. A bubble shows only its option: which question it answers is a matter of its column. */
  datatype Cell = Left(dot: bool) | Right(dot: bool) | Header(qno: int) | Bubble(opt: nat) | Blank

  type Row = seq<Cell>

  /** A CSS grid of perRow + 2 columns; `rows` is what its template declares. */
  datatype Grid = Grid(rows: nat, cells: seq<Cell>)

  // ---------- Quantities the renderer computes from a batch ----------

  function Min(a: int, b: int): int { if a <= b then a else b }

  function MinOptions(qs: seq<Question>): (m: nat)
    requires qs != []
    ensures forall q :: q in qs ==> m <= q.options
    ensures exists q :: q in qs && m == q.options
  {
    if |qs| == 1 then assert qs[0] in qs; qs[0].options
    else
      var m := MinOptions(qs[1..]);
      assert qs[0] in qs && forall q :: q in qs <==> q == qs[0] || q in qs[1..];
      Min(qs[0].options, m)
  }

  function MaxOptions(qs: seq<Question>): (m: nat)
    requires qs != []
    ensures forall q :: q in qs ==> q.options <= m
    ensures exists q :: q in qs && m == q.options
  {
    if |qs| == 1 then assert qs[0] in qs; qs[0].options
    else
      var m := MaxOptions(qs[1..]);
      assert qs[0] in qs && forall q :: q in qs <==> q == qs[0] || q in qs[1..];
      if qs[0].options <= m then m else qs[0].options
  }

  function HighCount(qs: seq<Question>, low: nat): (h: nat)
    ensures h <= |qs|
  {
    if qs == [] then 0 else (if qs[0].options > low then 1 else 0) + HighCount(qs[1..], low)
  }

  lemma {:induction false} HighCountPositive(qs: seq<Question>, low: nat, i: nat)
    requires i < |qs| && qs[i].options > low
    ensures HighCount(qs, low) > 0
  {
    if i > 0 { HighCountPositive(qs[1..], low, i - 1); }
  }

  lemma {:induction false} HighCountPartial(qs: seq<Question>, low: nat, i: nat)
    requires i < |qs| && qs[i].options <= low
    ensures HighCount(qs, low) < |qs|
  {
    if i > 0 { HighCountPartial(qs[1..], low, i - 1); }
  }

  function Batch(qs: seq<Question>, perRow: nat): seq<Question> {
    qs[..Min(perRow, |qs|)]
  }

  /** The questions borrowed to fill the reclaimed cells; none when the batch is uniform. */
  function Borrowed(qs: seq<Question>, perRow: nat): (next: seq<Question>)
    requires qs != [] && perRow > 0
  {
    var batch := Batch(qs, perRow);
    if MinOptions(batch) == MaxOptions(batch) then []
    else qs[|batch|..][..Min(perRow - HighCount(batch, MinOptions(batch)), |qs| - |batch|)]
  }

  function Remaining(qs: seq<Question>, perRow: nat): seq<Question>
    requires qs != [] && perRow > 0
  {
    qs[|Batch(qs, perRow)| + |Borrowed(qs, perRow)|..]
  }

  function BorrowedOptions(next: seq<Question>): nat {
    if next == [] then 0 else next[0].options
  }

  // ---------- The rows of a batch ----------

  function Headers(qs: seq<Question>): Row { seq(|qs|, i requires 0 <= i < |qs| => Header(qs[i].qno)) }

  function Blanks(n: int): Row { seq(if n < 0 then 0 else n, i => Blank) }

  function Bubbles(n: nat, opt: nat): Row { seq(n, i => Bubble(opt)) }

  function BubblesWithin(qs: seq<Question>, opt: nat): Row {
    seq(|qs|, i requires 0 <= i < |qs| => if opt < qs[i].options then Bubble(opt) else Blank)
  }

  function Framed(dot: bool, middle: Row): Row { [Left(dot)] + middle + [Right(dot)] }

  function HeaderRow(qs: seq<Question>, perRow: nat): Row {
    Framed(false, Headers(qs) + Blanks(perRow - |qs|))
  }

  function CommonRow(count: nat, opt: nat, perRow: nat): Row {
    Framed(true, Bubbles(count, opt) + Blanks(perRow - count))
  }

  function ExtraLeft(next: seq<Question>, extra: nat, reclaimed: nat, slots: nat): Row {
    if extra == 0 then Headers(next) + Blanks(slots - |next|)
    else if extra - 1 < reclaimed then BubblesWithin(next, extra - 1) + Blanks(slots - |next|)
    else Blanks(slots)
  }

  function LeftoverRow(next: seq<Question>, opt: nat, perRow: nat): Row {
    Framed(true, BubblesWithin(next, opt) + Blanks(perRow - |next|))
  }

  function CommonRows(count: nat, n: nat, perRow: nat): seq<Row> {
    seq(n, o requires 0 <= o => CommonRow(count, o, perRow))
  }

  function ExtraRow(next: seq<Question>, high: nat, low: nat, extra: nat, perRow: nat, e: nat): Row
    requires high <= perRow && extra > 0
  {
    Framed(true, ExtraLeft(next, e, Min(BorrowedOptions(next), extra - 1), perRow - high) + Bubbles(high, low + e))
  }

  /** Reclaimed rows: borrowed questions on the left, the extra options of the tall questions on the right. */
  function ExtraRows(next: seq<Question>, high: nat, low: nat, extra: nat, perRow: nat): seq<Row>
    requires high <= perRow && extra > 0
  {
    seq(extra, e requires 0 <= e => ExtraRow(next, high, low, extra, perRow, e))
  }

  function LeftoverRows(next: seq<Question>, from: nat, perRow: nat): seq<Row> {
    var to := BorrowedOptions(next);
    if from >= to then [] else seq(to - from, k requires 0 <= k => LeftoverRow(next, from + k, perRow))
  }

  function Flat(rows: seq<Row>): seq<Cell> {
    if rows == [] then [] else rows[0] + Flat(rows[1..])
  }

  function GridOf(rows: seq<Row>): Grid { Grid(|rows|, Flat(rows)) }

  /** The rows of the first batch's grid, and of the grid of left-over rows (possibly none). */
  function MainRows(qs: seq<Question>, perRow: nat): seq<Row>
    requires qs != [] && perRow > 0
  {
    var batch := Batch(qs, perRow);
    var low, top := MinOptions(batch), MaxOptions(batch);
    [HeaderRow(batch, perRow)] + CommonRows(|batch|, low, perRow)
    + if low == top then [] else ExtraRows(Borrowed(qs, perRow), HighCount(batch, low), low, top - low, perRow)
  }

  function TailRows(qs: seq<Question>, perRow: nat): seq<Row>
    requires qs != [] && perRow > 0
  {
    var batch := Batch(qs, perRow);
    var low, top := MinOptions(batch), MaxOptions(batch);
    var next := Borrowed(qs, perRow);
    if low == top then [] else LeftoverRows(next, Min(BorrowedOptions(next), top - low - 1), perRow)
  }

  function BatchGrids(qs: seq<Question>, perRow: nat): seq<Grid>
    requires qs != [] && perRow > 0
  {
    var tail := TailRows(qs, perRow);
    [GridOf(MainRows(qs, perRow))] + if tail == [] then [] else [GridOf(tail)]
  }

  /** What the renderer emits, batch by batch. */
  function Pack(qs: seq<Question>, perRow: nat): seq<Grid>
    requires perRow > 0
    decreases |qs|
  {
    if qs == [] then [] else BatchGrids(qs, perRow) + Pack(Remaining(qs, perRow), perRow)
  }

  // ---------- The renderer ----------

  method AppendHeaders(cells: seq<Cell>, qs: seq<Question>) returns (r: seq<Cell>)
    ensures r == cells + Headers(qs)
  {
    r := cells;
    for i := 0 to |qs|
      invariant r == cells + Headers(qs)[..i]
    {
      r := r + [Header(qs[i].qno)];
    }
  }

  method AppendBlanks(cells: seq<Cell>, from: int, to: int) returns (r: seq<Cell>)
    ensures r == cells + Blanks(to - from)
  {
    r := cells;
    var e := from;
    while e < to
      invariant from <= e && (e == from || e <= to) && r == cells + Blanks(e - from)
    {
      r := r + [Blank];
      e := e + 1;
    }
  }

  method AppendBubbles(cells: seq<Cell>, n: nat, opt: nat) returns (r: seq<Cell>)
    ensures r == cells + Bubbles(n, opt)
  {
    r := cells;
    for i := 0 to n
      invariant r == cells + Bubbles(i, opt)
    {
      r := r + [Bubble(opt)];
    }
  }

  method AppendBubblesWithin(cells: seq<Cell>, qs: seq<Question>, opt: nat) returns (r: seq<Cell>)
    ensures r == cells + BubblesWithin(qs, opt)
  {
    r := cells;
    for i := 0 to |qs|
      invariant r == cells + BubblesWithin(qs, opt)[..i]
    {
      r := r + [if opt < qs[i].options then Bubble(opt) else Blank];
    }
  }

  /** The header row and the rows of the options that every question of the batch has. */
  method RenderCommon(batch: seq<Question>, n: nat, perRow: nat) returns (cells: seq<Cell>)
    ensures cells == Flat([HeaderRow(batch, perRow)] + CommonRows(|batch|, n, perRow))
  {
    cells := AppendHeaders([Left(false)], batch);
    cells := AppendBlanks(cells, |batch|, perRow);
    cells := cells + [Right(false)];
    ghost var rows := [HeaderRow(batch, perRow)] + CommonRows(|batch|, n, perRow);
    FlatPrefix(rows, 0);
    for o := 0 to n
      invariant cells == Flat(rows[..o + 1])
    {
      ghost var before := cells;
      cells := AppendBubbles(cells + [Left(true)], |batch|, o);
      cells := AppendBlanks(cells, |batch|, perRow);
      cells := cells + [Right(true)];
      FlatPrefix(rows, o + 1);
      assert cells == before + CommonRow(|batch|, o, perRow);
    }
    assert rows[..n + 1] == rows;
  }

  method AppendExtraLeft(cells: seq<Cell>, next: seq<Question>, e: nat, reclaimed: nat, slots: nat) returns (r: seq<Cell>)
    ensures r == cells + ExtraLeft(next, e, reclaimed, slots)
  {
    if e == 0 {
      r := AppendHeaders(cells, next);
      r := AppendBlanks(r, |next|, slots);
    } else if e - 1 < reclaimed {
      r := AppendBubblesWithin(cells, next, e - 1);
      r := AppendBlanks(r, |next|, slots);
    } else {
      r := AppendBlanks(cells, 0, slots);
    }
  }

  method RenderExtraRow(cells0: seq<Cell>, next: seq<Question>, high: nat, low: nat, extra: nat, perRow: nat, e: nat)
    returns (cells: seq<Cell>)
    requires 0 < high <= perRow && extra > 0
    ensures cells == cells0 + ExtraRow(next, high, low, extra, perRow, e)
  {
    hide ExtraLeft, BorrowedOptions;
    var reclaimed := Min(BorrowedOptions(next), extra - 1);
    cells := AppendExtraLeft(cells0 + [Left(|next| > 0 || high > 0)], next, e, reclaimed, perRow - high);
    cells := AppendBubbles(cells, high, low + e);
    cells := cells + [Right(true)];
  }

  method RenderExtra(cells0: seq<Cell>, next: seq<Question>, high: nat, low: nat, extra: nat, perRow: nat)
    returns (cells: seq<Cell>)
    requires 0 < high <= perRow && extra > 0
    ensures cells == cells0 + Flat(ExtraRows(next, high, low, extra, perRow))
  {
    hide ExtraRow;
    cells := cells0;
    ghost var rows := ExtraRows(next, high, low, extra, perRow);
    for e := 0 to extra
      invariant cells == cells0 + Flat(rows[..e])
    {
      ghost var before := cells;
      cells := RenderExtraRow(cells, next, high, low, extra, perRow, e);
      FlatPrefix(rows, e);
      assert rows[e] == ExtraRow(next, high, low, extra, perRow, e);
    }
    assert rows[..extra] == rows;
  }

  method RenderLeftover(next: seq<Question>, from: nat, to: nat, perRow: nat) returns (cells: seq<Cell>)
    requires from < to == BorrowedOptions(next)
    ensures cells == Flat(LeftoverRows(next, from, perRow))
  {
    cells := [];
    ghost var rows := LeftoverRows(next, from, perRow);
    for o := from to to
      invariant cells == Flat(rows[..o - from])
    {
      ghost var before := cells;
      cells := AppendBubblesWithin(cells + [Left(true)], next, o);
      cells := AppendBlanks(cells, |next|, perRow);
      cells := cells + [Right(true)];
      assert rows[o - from] == LeftoverRow(next, o, perRow);
      assert cells == before + LeftoverRow(next, o, perRow);
      FlatPrefix(rows, o - from);
    }
    assert rows[..to - from] == rows;
  }

  /** A batch of different option counts: its grid, then a grid of the left-over rows of the borrowed questions. */
  method RenderMixed(ghost qs: seq<Question>, batch: seq<Question>, rest: seq<Question>, perRow: nat)
    returns (html: seq<Grid>, taken: nat)
    requires perRow > 0 && qs != [] && batch == Batch(qs, perRow) && rest == qs[|batch|..]
    requires MinOptions(batch) != MaxOptions(batch)
    ensures taken == |Borrowed(qs, perRow)|
    ensures html == BatchGrids(qs, perRow)
  {
    hide Flat, HeaderRow, CommonRows, ExtraRows, LeftoverRows, HighCount, MinOptions, MaxOptions, BatchGrids, Batch, Borrowed;
    BorrowedIsSlice(qs, perRow);
    var low, top := MinOptions(batch), MaxOptions(batch);
    var i :| 0 <= i < |batch| && batch[i].options == top;
    HighCountPositive(batch, low, i);
    var high := HighCount(batch, low);
    var next := rest[..Min(perRow - high, |rest|)];
    var cells := RenderCommon(batch, low, perRow);
    cells := RenderExtra(cells, next, high, low, top - low, perRow);
    html := [Grid(low + 1 + (top - low), cells)];
    taken := 0;
    if |next| > 0 {
      taken := |next|;
      var reclaimed := Min(BorrowedOptions(next), top - low - 1);
      if BorrowedOptions(next) > reclaimed {
        var remCells := RenderLeftover(next, reclaimed, BorrowedOptions(next), perRow);
        html := html + [Grid(BorrowedOptions(next) - reclaimed, remCells)];
      }
    }
    MixedGrids(qs, perRow);
  }

  lemma {:induction false} BorrowedIsSlice(qs: seq<Question>, perRow: nat)
    requires perRow > 0 && qs != [] && MinOptions(Batch(qs, perRow)) != MaxOptions(Batch(qs, perRow))
    ensures var batch := Batch(qs, perRow);
      && |batch| <= perRow && |batch| <= |qs|
      && Borrowed(qs, perRow)
         == qs[|batch|..][..Min(perRow - HighCount(batch, MinOptions(batch)), |qs| - |batch|)]
  {
  }

  lemma {:induction false} MixedGrids(qs: seq<Question>, perRow: nat)
    requires perRow > 0 && qs != [] && MinOptions(Batch(qs, perRow)) != MaxOptions(Batch(qs, perRow))
    ensures
      var batch, next := Batch(qs, perRow), Borrowed(qs, perRow);
      var low, top := MinOptions(batch), MaxOptions(batch);
      var reclaimed := Min(BorrowedOptions(next), top - low - 1);
      var main := Grid(low + 1 + (top - low), Flat([HeaderRow(batch, perRow)] + CommonRows(|batch|, low, perRow))
        + Flat(ExtraRows(next, HighCount(batch, low), low, top - low, perRow)));
      BatchGrids(qs, perRow) ==
        if BorrowedOptions(next) <= reclaimed then [main]
        else [main] + [Grid(BorrowedOptions(next) - reclaimed, Flat(LeftoverRows(next, reclaimed, perRow)))]
  {
    hide Flat, HeaderRow, HighCount, MinOptions, MaxOptions, Borrowed, LeftoverRow, CommonRow, ExtraRow;
    var batch, next := Batch(qs, perRow), Borrowed(qs, perRow);
    var low, top := MinOptions(batch), MaxOptions(batch);
    FlatConcat([HeaderRow(batch, perRow)] + CommonRows(|batch|, low, perRow),
               ExtraRows(next, HighCount(batch, low), low, top - low, perRow));
  }

  method BuildChoiceGroups(allQs: seq<Question>, perRow: nat) returns (html: seq<Grid>)
    requires perRow > 0
    ensures html == Pack(allQs, perRow)
  {
    hide BatchGrids, Batch, Borrowed, Remaining;
    html := [];
    var qi := 0;
    while qi < |allQs|
      invariant 0 <= qi <= |allQs|
      invariant Pack(allQs, perRow) == html + Pack(allQs[qi..], perRow)
    {
      BatchIsSlice(allQs, qi, perRow);
      ghost var qs := allQs[qi..];
      var batch := allQs[qi..Min(qi + perRow, |allQs|)];
      qi := qi + |batch|;
      var grids, taken := RenderBatch(qs, batch, allQs[qi..], perRow);
      html := html + grids;
      qi := qi + taken;
    }
  }

  lemma {:induction false} BatchIsSlice(allQs: seq<Question>, qi: nat, perRow: nat)
    requires perRow > 0 && qi < |allQs|
    ensures Batch(allQs[qi..], perRow) == allQs[qi..Min(qi + perRow, |allQs|)]
    ensures var used := |Batch(allQs[qi..], perRow)|;
      && 0 < used <= |allQs| - qi && allQs[qi..][used..] == allQs[qi + used..]
      && used + |Borrowed(allQs[qi..], perRow)| <= |allQs| - qi
      && Remaining(allQs[qi..], perRow) == allQs[qi + used + |Borrowed(allQs[qi..], perRow)|..]
  {
    hide MinOptions, MaxOptions, HighCount;
  }

  method RenderBatch(ghost qs: seq<Question>, batch: seq<Question>, rest: seq<Question>, perRow: nat)
    returns (html: seq<Grid>, taken: nat)
    requires perRow > 0 && qs != [] && batch == Batch(qs, perRow) && rest == qs[|batch|..]
    ensures taken == |Borrowed(qs, perRow)|
    ensures html == BatchGrids(qs, perRow)
  {
    hide Flat, HeaderRow, CommonRows, ExtraRows, HighCount, MinOptions, MaxOptions;
    if MinOptions(batch) == MaxOptions(batch) {
      var cells := RenderCommon(batch, MaxOptions(batch), perRow);
      CommonRowCount(|batch|, MaxOptions(batch), perRow);
      html, taken := [Grid(MaxOptions(batch) + 1, cells)], 0;
      assert MainRows(qs, perRow) == [HeaderRow(batch, perRow)] + CommonRows(|batch|, MaxOptions(batch), perRow);
    } else {
      html, taken := RenderMixed(qs, batch, rest, perRow);
    }
  }

  lemma {:induction false} CommonRowCount(count: nat, n: nat, perRow: nat)
    ensures |CommonRows(count, n, perRow)| == n
  {
  }

  lemma {:induction false} FlatConcat(a: seq<Row>, b: seq<Row>)
    ensures Flat(a + b) == Flat(a) + Flat(b)
  {
    if a == [] {
      assert a + b == b;
    } else {
      assert (a + b)[0] == a[0] && (a + b)[1..] == a[1..] + b;
      FlatConcat(a[1..], b);
    }
  }

  lemma {:induction false} FlatPrefix(rows: seq<Row>, i: nat)
    requires i < |rows|
    ensures Flat(rows[..i + 1]) == Flat(rows[..i]) + rows[i]
  {
    assert rows[..i + 1] == rows[..i] + [rows[i]];
    FlatConcat(rows[..i], [rows[i]]);
    assert [rows[i]][1..] == [];
  }

  // ---------- Reading a card back ----------

  /** A question as a reader of the card sees it: its header, and the bubbles below it in the same column. */
  datatype Record = Record(qno: int, bubbles: seq<nat>)

  function RowsOf(cells: seq<Cell>, width: nat): seq<Row>
    requires width > 0
  {
    if |cells| < width then [] else [cells[..width]] + RowsOf(cells[width..], width)
  }

  function CardRows(html: seq<Grid>, width: nat): seq<Row>
    requires width > 0
  {
    if html == [] then [] else RowsOf(html[0].cells, width) + CardRows(html[1..], width)
  }

  /** The bubbles of column j, down to the next header in that column. */
  function Below(rows: seq<Row>, j: nat): seq<nat> {
    if rows == [] then []
    else if j < |rows[0]| && rows[0][j].Header? then []
    else (if j < |rows[0]| && rows[0][j].Bubble? then [rows[0][j].opt] else []) + Below(rows[1..], j)
  }

  function RowRecords(row: Row, rest: seq<Row>, j: nat): seq<Record>
    decreases |row| - j
  {
    if j >= |row| then []
    else (if row[j].Header? then [Record(row[j].qno, Below(rest, j))] else []) + RowRecords(row, rest, j + 1)
  }

  function Read(rows: seq<Row>): seq<Record> {
    if rows == [] then [] else RowRecords(rows[0], rows[1..], 0) + Read(rows[1..])
  }

  function ReadCard(html: seq<Grid>, perRow: nat): seq<Record> {
    Read(CardRows(html, perRow + 2))
  }

  function Range(from: nat, to: nat): seq<nat> {
    if from >= to then [] else seq(to - from, i requires 0 <= i => from + i)
  }

  /** What the card is for: every question in order, with each of its options exactly once. */
  function Expected(qs: seq<Question>): seq<Record> {
    seq(|qs|, i requires 0 <= i < |qs| => Record(qs[i].qno, Range(0, qs[i].options)))
  }

  // ---------- Rows and columns ----------

  ghost predicate Rectangular(rows: seq<Row>, width: nat) {
    forall r :: r in rows ==> |r| == width
  }

  lemma {:induction false} OneMore(n: nat, width: nat)
    ensures width + n * width == (n + 1) * width
  {
  }

  lemma {:induction false} FlatLength(rows: seq<Row>, width: nat)
    requires Rectangular(rows, width)
    ensures |Flat(rows)| == |rows| * width
  {
    if rows != [] {
      assert |rows[0]| == width by { assert rows[0] in rows; }
      assert Rectangular(rows[1..], width);
      assert |Flat(rows)| == width + |Flat(rows[1..])|;
      hide Flat, Rectangular;
      FlatLength(rows[1..], width);
      OneMore(|rows[1..]|, width);
    }
  }

  /** Cutting a grid's cells at the column count of its template gives its rows back. */
  lemma {:induction false} RowsOfFlat(rows: seq<Row>, width: nat)
    requires width > 0 && Rectangular(rows, width)
    ensures RowsOf(Flat(rows), width) == rows
  {
    if rows != [] {
      assert rows[0] in rows;
      RowsOfFlat(rows[1..], width);
      var cells := rows[0] + Flat(rows[1..]);
      assert cells[..width] == rows[0] && cells[width..] == Flat(rows[1..]);
    }
  }

  ghost predicate NoHeaders(rows: seq<Row>) {
    forall k, j :: 0 <= k < |rows| && 0 <= j < |rows[k]| ==> !rows[k][j].Header?
  }

  /** Column j of the rows holds the options from `base` on as far as `limit`, one a row, and no header. */
  ghost predicate Column(rows: seq<Row>, j: nat, base: nat, limit: nat) {
    forall k :: 0 <= k < |rows| ==>
      && j < |rows[k]| && !rows[k][j].Header?
      && (if base + k < limit then rows[k][j] == Bubble(base + k) else !rows[k][j].Bubble?)
  }

  lemma {:induction false} BelowCons(row: Row, rest: seq<Row>, j: nat)
    ensures Below([row] + rest, j)
            == if j < |row| && row[j].Header? then []
               else (if j < |row| && row[j].Bubble? then [row[j].opt] else []) + Below(rest, j)
  {
    assert ([row] + rest)[1..] == rest;
  }

  lemma {:induction false} RangeCons(from: nat, to: nat)
    ensures Range(from, to) == if from < to then [from] + Range(from + 1, to) else []
  {
  }

  lemma {:induction false} ColumnTail(rows: seq<Row>, j: nat, base: nat, limit: nat)
    requires rows != [] && Column(rows, j, base, limit)
    ensures j < |rows[0]| && !rows[0][j].Header?
    ensures if base < limit then rows[0][j] == Bubble(base) else !rows[0][j].Bubble?
    ensures Column(rows[1..], j, base + 1, limit)
  {
    var rest := rows[1..];
    assert forall k :: 0 <= k < |rest| ==> rest[k] == rows[k + 1];
  }

  lemma {:induction false} Prepend<T>(x: seq<T>, a: seq<T>, b: seq<T>)
    ensures (x + a) + b == x + (a + b) && [] + a == a
  {
  }

  lemma {:induction false} HeadFirst<T>(s: seq<T>, more: seq<T>)
    requires s != []
    ensures s + more == [s[0]] + (s[1..] + more)
  {
  }

  lemma {:induction false} ColumnStep(row: Row, below: seq<Row>, more: seq<nat>, j: nat, base: nat, to: nat)
    requires j < |row| && !row[j].Header?
    requires if base < to then row[j] == Bubble(base) else !row[j].Bubble?
    requires Below(below, j) == Range(base + 1, to) + more
    ensures Below([row] + below, j) == Range(base, to) + more
  {
    hide *;
    BelowCons(row, below, j);
    RangeCons(base, to);
    RangeCons(base + 1, to);
    Prepend([base], Range(base + 1, to), more);
    Prepend([], more, []);
  }

  lemma {:induction false} BelowColumn(rows: seq<Row>, more: seq<Row>, j: nat, base: nat, limit: nat)
    requires Column(rows, j, base, limit)
    ensures Below(rows + more, j) == Range(base, Min(limit, base + |rows|)) + Below(more, j)
  {
    var to := Min(limit, base + |rows|);
    assert to <= base + |rows| && (|rows| > 0 ==> (base < to <==> base < limit));
    hide *;
    if rows == [] {
      RangeCons(base, to);
      Prepend([], more, []);
      Prepend([], Below(more, j), []);
    } else {
      ColumnTail(rows, j, base, limit);
      BelowColumn(rows[1..], more, j, base + 1, limit);
      ColumnStep(rows[0], rows[1..] + more, Below(more, j), j, base, to);
      HeadFirst(rows, more);
    }
  }

  lemma {:induction false} NoRecords(row: Row, rest: seq<Row>, j: nat)
    requires forall i :: j <= i < |row| ==> !row[i].Header?
    ensures RowRecords(row, rest, j) == []
    decreases |row| - j
  {
    if j < |row| { NoRecords(row, rest, j + 1); }
  }

  lemma {:induction false} SkipHeaderless(rows: seq<Row>, more: seq<Row>)
    requires NoHeaders(rows)
    ensures Read(rows + more) == Read(more)
  {
    if rows == [] {
      assert rows + more == more;
    } else {
      assert (rows + more)[0] == rows[0] && (rows + more)[1..] == rows[1..] + more;
      NoRecords(rows[0], rows[1..] + more, 0);
      SkipHeaderless(rows[1..], more);
    }
  }

  /** The records that the headers of `qs` open in a row whose cells from column 1 on show them. */
  function Opened(qs: seq<Question>, rest: seq<Row>): seq<Record> {
    seq(|qs|, i requires 0 <= i < |qs| => Record(qs[i].qno, Below(rest, i + 1)))
  }

  ghost predicate Shows(row: Row, qs: seq<Question>) {
    && |qs| < |row|
    && (forall i :: 0 <= i < |qs| ==> row[i + 1] == Header(qs[i].qno))
    && (forall j :: |qs| < j < |row| ==> !row[j].Header?)
    && !row[0].Header?
  }

  lemma {:induction false} OpenFrom(row: Row, qs: seq<Question>, rest: seq<Row>, j: nat)
    requires Shows(row, qs) && 1 <= j <= |qs| + 1
    ensures RowRecords(row, rest, j) == Opened(qs, rest)[j - 1..]
    decreases |qs| + 1 - j
  {
    if j == |qs| + 1 {
      NoRecords(row, rest, j);
    } else {
      OpenFrom(row, qs, rest, j + 1);
      assert Opened(qs, rest)[j - 1..] == [Opened(qs, rest)[j - 1]] + Opened(qs, rest)[j..];
    }
  }

  lemma {:induction false} ReadShowing(row: Row, qs: seq<Question>, rest: seq<Row>)
    requires Shows(row, qs)
    ensures Read([row] + rest) == Opened(qs, rest) + Read(rest)
  {
    OpenFrom(row, qs, rest, 1);
    assert ([row] + rest)[1..] == rest;
  }

  // ---------- What one batch shows ----------

  /** Number of bubbles in the column of a batch question: the right-hand columns get all rows. */
  function Shown(batch: seq<Question>, perRow: nat, j: nat): nat
    requires batch != []
  {
    var low, top := MinOptions(batch), MaxOptions(batch);
    if low == top || j < perRow - HighCount(batch, low) then low else top
  }

  /** No column starts with a bubble: nothing here can be read as part of an earlier question. */
  ghost predicate NoStray(rows: seq<Row>, perRow: nat) {
    forall j :: 1 <= j <= perRow ==> Below(rows, j) == []
  }

  lemma {:induction false} HeaderRowShape(qs: seq<Question>, perRow: nat)
    requires |qs| <= perRow
    ensures |HeaderRow(qs, perRow)| == perRow + 2 && Shows(HeaderRow(qs, perRow), qs)
  {
  }

  lemma {:induction false} CommonColumn(count: nat, n: nat, perRow: nat, j: nat)
    requires count <= perRow
    ensures NoHeaders(CommonRows(count, n, perRow)) && Rectangular(CommonRows(count, n, perRow), perRow + 2)
    ensures j < count ==> Column(CommonRows(count, n, perRow), j + 1, 0, n)
  {
  }

  lemma {:induction false} ExtraCells(next: seq<Question>, high: nat, low: nat, extra: nat, perRow: nat, e: nat)
    requires high <= perRow && |next| <= perRow - high && e < extra
    ensures
      var row := ExtraRow(next, high, low, extra, perRow, e);
      var reclaimed := Min(BorrowedOptions(next), extra - 1);
      && |row| == perRow + 2
      && forall j :: 0 <= j < perRow + 2 ==>
        row[j] == if j == 0 then Left(true)
                  else if j == perRow + 1 then Right(true)
                  else if j > perRow - high then Bubble(low + e)
                  else if j > |next| then Blank
                  else if e == 0 then Header(next[j - 1].qno)
                  else if e - 1 < Min(next[j - 1].options, reclaimed) then Bubble(e - 1) else Blank
  {
    var reclaimed := Min(BorrowedOptions(next), extra - 1);
    var left := ExtraLeft(next, e, reclaimed, perRow - high);
    assert |left| == perRow - high;
  }

  lemma {:induction false} ExtraShape(next: seq<Question>, high: nat, low: nat, extra: nat, perRow: nat)
    requires 0 < high <= perRow && extra > 0 && |next| <= perRow - high
    ensures var rows := ExtraRows(next, high, low, extra, perRow);
      Rectangular(rows, perRow + 2) && Shows(rows[0], next) && NoHeaders(rows[1..])
  {
    hide ExtraRow;
    var rows := ExtraRows(next, high, low, extra, perRow);
    forall r | r in rows ensures |r| == perRow + 2 {
      var e :| 0 <= e < extra && r == rows[e];
      ExtraCells(next, high, low, extra, perRow, e);
    }
    assert Shows(rows[0], next) by { ExtraCells(next, high, low, extra, perRow, 0); }
    forall k, i | 0 <= k < |rows[1..]| && 0 <= i < |rows[1..][k]| ensures !rows[1..][k][i].Header? {
      ExtraCells(next, high, low, extra, perRow, k + 1);
    }
  }

  lemma {:induction false} ExtraColumn(next: seq<Question>, high: nat, low: nat, extra: nat, perRow: nat, j: nat)
    requires 0 < high <= perRow && extra > 0 && |next| <= perRow - high && j < perRow
    ensures
      var rows := ExtraRows(next, high, low, extra, perRow);
      var reclaimed := Min(BorrowedOptions(next), extra - 1);
      && (j < |next| ==> Column(rows[1..], j + 1, 0, Min(next[j].options, reclaimed)))
      && (|next| <= j < perRow - high ==> Column(rows, j + 1, 0, 0))
      && (j >= perRow - high ==> Column(rows, j + 1, low, low + extra))
  {
    hide ExtraRow, BorrowedOptions;
    var rows := ExtraRows(next, high, low, extra, perRow);
    var reclaimed := Min(BorrowedOptions(next), extra - 1);
    forall e | 0 <= e < extra
      ensures |rows[e]| == perRow + 2
      ensures rows[e][j + 1] ==
        if j >= perRow - high then Bubble(low + e)
        else if j >= |next| then Blank
        else if e == 0 then Header(next[j].qno)
        else if e - 1 < Min(next[j].options, reclaimed) then Bubble(e - 1) else Blank
    {
      ExtraCells(next, high, low, extra, perRow, e);
    }
  }

  lemma {:induction false} LeftoverColumn(next: seq<Question>, from: nat, perRow: nat, j: nat)
    requires |next| <= perRow && j < perRow
    ensures
      var rows := LeftoverRows(next, from, perRow);
      && NoHeaders(rows) && Rectangular(rows, perRow + 2)
      && (j < |next| ==> Column(rows, j + 1, from, Min(next[j].options, BorrowedOptions(next))))
      && (j >= |next| ==> Column(rows, j + 1, 0, 0))
  {
    var rows := LeftoverRows(next, from, perRow);
    forall k | 0 <= k < |rows|
      ensures |rows[k]| == perRow + 2
      ensures forall i :: 0 <= i < perRow + 2 ==>
        rows[k][i] == if i == 0 then Left(true)
                      else if i == perRow + 1 then Right(true)
                      else if i <= |next| && from + k < next[i - 1].options then Bubble(from + k) else Blank
    {
      assert rows[k] == LeftoverRow(next, from + k, perRow);
    }
  }

  lemma {:induction false} RangeSplit(a: nat, b: nat, c: nat)
    requires a <= b <= c
    ensures Range(a, b) + Range(b, c) == Range(a, c)
    ensures |Range(a, b)| == b - a && Range(b, a) == []
  {
  }

  lemma {:induction false} RowCounts(count: nat, next: seq<Question>, high: nat, low: nat, top: nat, perRow: nat)
    requires high <= perRow && low < top
    ensures |CommonRows(count, low, perRow)| == low
    ensures |ExtraRows(next, high, low, top - low, perRow)| == top - low
    ensures |LeftoverRows(next, Min(BorrowedOptions(next), top - low - 1), perRow)|
            == BorrowedOptions(next) - Min(BorrowedOptions(next), top - low - 1)
  {
  }

  /** A column of the common rows, continued with the options `from` .. `to` in the rows that follow. */
  lemma {:induction false} JoinColumns(common: seq<Row>, extra: seq<Row>, rest: seq<Row>, c: nat, low: nat, limit: nat, to: nat)
    requires |common| == low && Column(common, c, 0, low) && Below(rest, c) == []
    requires (limit == 0 && to == low) || (low <= limit == to == low + |extra|)
    requires Column(extra, c, if limit == 0 then 0 else low, limit)
    ensures Below(common + (extra + rest), c) == Range(0, to)
  {
    hide Column, Below, Range;
    RangeSplit(0, low, to);
    RangeSplit(0, 0, to);
    RangeSplit(low, to, to);
    BelowColumn(common, extra + rest, c, 0, low);
    BelowColumn(extra, rest, c, if limit == 0 then 0 else low, limit);
  }

  lemma {:induction false} HeaderStops(common: seq<Row>, extra: seq<Row>, rest: seq<Row>, c: nat, low: nat)
    requires |common| == low && Column(common, c, 0, low)
    requires extra != [] && c < |extra[0]| && extra[0][c].Header?
    ensures Below(common + (extra + rest), c) == Range(0, low)
  {
    hide Column;
    BelowColumn(common, extra + rest, c, 0, low);
    assert (extra + rest)[0] == extra[0];
  }

  lemma {:induction false} ExtraHeader(next: seq<Question>, high: nat, low: nat, extra: nat, perRow: nat, j: nat)
    requires 0 < high <= perRow && extra > 0 && |next| <= perRow - high && j < |next|
    ensures var row := ExtraRows(next, high, low, extra, perRow)[0]; j + 1 < |row| && row[j + 1].Header?
  {
    ExtraCells(next, high, low, extra, perRow, 0);
  }

  lemma {:induction false} ColumnUnderHeader(common: seq<Row>, next: seq<Question>, high: nat, low: nat, top: nat,
                                             perRow: nat, rest: seq<Row>, j: nat)
    requires 0 < high <= perRow && |next| <= perRow - high && low < top && j < |next|
    requires |common| == low && Column(common, j + 1, 0, low)
    ensures Below(common + (ExtraRows(next, high, low, top - low, perRow) + rest), j + 1) == Range(0, low)
  {
    hide Column, ExtraRows;
    var extra := ExtraRows(next, high, low, top - low, perRow);
    RowCounts(0, next, high, low, top, perRow);
    ExtraHeader(next, high, low, top - low, perRow, j);
    HeaderStops(common, extra, rest, j + 1, low);
  }

  lemma {:induction false} ColumnBesideHeader(common: seq<Row>, next: seq<Question>, high: nat, low: nat, top: nat,
                                              perRow: nat, rest: seq<Row>, j: nat)
    requires 0 < high <= perRow && |next| <= perRow - high && low < top && |next| <= j < perRow
    requires |common| == low && Column(common, j + 1, 0, low) && Below(rest, j + 1) == []
    ensures Below(common + (ExtraRows(next, high, low, top - low, perRow) + rest), j + 1)
            == Range(0, if j < perRow - high then low else top)
  {
    hide Column, ExtraRows, Below, Range;
    var extra := ExtraRows(next, high, low, top - low, perRow);
    RowCounts(0, next, high, low, top, perRow);
    ExtraColumn(next, high, low, top - low, perRow, j);
    JoinColumns(common, extra, rest, j + 1, low,
                if j < perRow - high then 0 else top, if j < perRow - high then low else top);
  }

  lemma {:induction false} TailColumn(next: seq<Question>, from: nat, perRow: nat, after: seq<Row>, j: nat)
    requires |next| <= j < perRow && NoStray(after, perRow)
    ensures Below(LeftoverRows(next, from, perRow) + after, j + 1) == []
  {
    var tail := LeftoverRows(next, from, perRow);
    hide LeftoverRows, Column;
    LeftoverColumn(next, from, perRow, j);
    BelowColumn(tail, after, j + 1, 0, 0);
  }

  /** The column of a batch question, read to the end of the card. */
  lemma {:induction false} BatchColumn(count: nat, next: seq<Question>, high: nat, low: nat, top: nat, perRow: nat,
                                       after: seq<Row>, j: nat)
    requires 0 < high <= perRow && |next| <= perRow - high && low < top && j < count <= perRow
    requires NoStray(after, perRow)
    ensures
      var tail := LeftoverRows(next, Min(BorrowedOptions(next), top - low - 1), perRow);
      Below(CommonRows(count, low, perRow) + (ExtraRows(next, high, low, top - low, perRow) + (tail + after)), j + 1)
      == Range(0, if j < perRow - high then low else top)
  {
    hide *;
    MinBound(BorrowedOptions(next), top - low - 1);
    var from := Min(BorrowedOptions(next), top - low - 1);
    RowCounts(count, next, high, low, top, perRow);
    CommonColumn(count, low, perRow, j);
    var common := CommonRows(count, low, perRow);
    if j < |next| {
      ColumnUnderHeader(common, next, high, low, top, perRow, LeftoverRows(next, from, perRow) + after, j);
    } else {
      TailColumn(next, from, perRow, after, j);
      ColumnBesideHeader(common, next, high, low, top, perRow, LeftoverRows(next, from, perRow) + after, j);
    }
  }

  lemma {:induction false} BorrowedBounds(next: seq<Question>, low: nat, top: nat)
    requires next != [] && low < top
    ensures BorrowedOptions(next) == next[0].options
    ensures var reclaimed := Min(BorrowedOptions(next), top - low - 1);
      0 <= reclaimed <= top - low - 1 && reclaimed <= next[0].options
  {
  }

  lemma {:induction false} NoStrayAt(rows: seq<Row>, perRow: nat, j: nat)
    requires NoStray(rows, perRow) && 1 <= j <= perRow
    ensures Below(rows, j) == []
  {
  }

  /** The column of a borrowed question below its header in the first reclaimed row. */
  lemma {:induction false} BorrowedColumn(next: seq<Question>, high: nat, low: nat, top: nat, perRow: nat, after: seq<Row>, j: nat)
    requires 0 < high <= perRow && |next| <= perRow - high && low < top && j < |next|
    requires NoStray(after, perRow)
    ensures
      var tail := LeftoverRows(next, Min(BorrowedOptions(next), top - low - 1), perRow);
      Below(ExtraRows(next, high, low, top - low, perRow)[1..] + (tail + after), j + 1)
      == Range(0, Min(next[j].options, next[0].options))
  {
    hide *;
    BorrowedBounds(next, low, top);
    var extra := ExtraRows(next, high, low, top - low, perRow);
    var reclaimed := Min(BorrowedOptions(next), top - low - 1);
    var tail := LeftoverRows(next, reclaimed, perRow);
    NoStrayAt(after, perRow, j + 1);
    RowCounts(0, next, high, low, top, perRow);
    ExtraColumn(next, high, low, top - low, perRow, j);
    LeftoverColumn(next, reclaimed, perRow, j);
    TwoColumns(extra[1..], tail, after, j + 1, reclaimed, next[j].options, next[0].options);
  }

  /** A clipped column that the reclaimed rows start and the left-over rows finish. */
  lemma {:induction false} TwoColumns(upper: seq<Row>, lower: seq<Row>, after: seq<Row>, c: nat, reclaimed: nat,
                                      options: nat, all: nat)
    requires reclaimed <= |upper| && reclaimed <= all && |lower| == all - reclaimed
    requires Column(upper, c, 0, Min(options, reclaimed)) && Column(lower, c, reclaimed, Min(options, all))
    requires Below(after, c) == []
    ensures Below(upper + (lower + after), c) == Range(0, Min(options, all))
  {
    hide Column, Below, Range;
    BelowColumn(upper, lower + after, c, 0, Min(options, reclaimed));
    BelowColumn(lower, after, c, reclaimed, Min(options, all));
    if options <= reclaimed {
      RangeSplit(0, options, options);
      RangeSplit(options, reclaimed, reclaimed);
    } else {
      RangeSplit(0, reclaimed, Min(options, all));
    }
  }

  /** Each question of a batch with the bubbles found under its header. */
  function ShownBatch(batch: seq<Question>, perRow: nat): seq<Record>
    requires batch != []
  {
    seq(|batch|, j requires 0 <= j < |batch| => Record(batch[j].qno, Range(0, Shown(batch, perRow, j))))
  }

  function ShownBorrowed(next: seq<Question>): seq<Record> {
    seq(|next|, j requires 0 <= j < |next| => Record(next[j].qno, Range(0, Min(next[j].options, next[0].options))))
  }

  /** Reading a batch: its own headers first, then the headers of the reclaimed row, then the rest of the card. */
  lemma {:induction false} ReadBothHeaderRows(hdr: Row, batch: seq<Question>, common: seq<Row>, extra: seq<Row>, next: seq<Question>,
                           tail: seq<Row>, after: seq<Row>)
    requires Shows(hdr, batch) && NoHeaders(common) && NoHeaders(tail)
    requires extra != [] && Shows(extra[0], next) && NoHeaders(extra[1..])
    ensures Read([hdr] + (common + (extra + (tail + after))))
            == Opened(batch, common + (extra + (tail + after))) + (Opened(next, extra[1..] + (tail + after)) + Read(after))
  {
    var shown := extra[1..] + (tail + after);
    hide Shows, NoHeaders, Opened, Read;
    ReadShowing(hdr, batch, common + (extra + (tail + after)));
    SkipHeaderless(common, extra + (tail + after));
    assert extra + (tail + after) == [extra[0]] + shown;
    ReadShowing(extra[0], next, shown);
    SkipHeaderless(extra[1..], tail + after);
    SkipHeaderless(tail, after);
  }

  lemma {:induction false} OpenedAsShown(batch: seq<Question>, rows: seq<Row>, perRow: nat)
    requires batch != []
    requires forall j :: 0 <= j < |batch| ==> Below(rows, j + 1) == Range(0, Shown(batch, perRow, j))
    ensures Opened(batch, rows) == ShownBatch(batch, perRow)
  {
    hide Below, Range, Shown;
  }

  lemma {:induction false} ShownInMixed(batch: seq<Question>, perRow: nat, j: nat)
    requires batch != [] && MinOptions(batch) < MaxOptions(batch)
    ensures Shown(batch, perRow, j)
            == if j < perRow - HighCount(batch, MinOptions(batch)) then MinOptions(batch) else MaxOptions(batch)
  {
  }

  lemma {:induction false} OpenedBatch(batch: seq<Question>, next: seq<Question>, high: nat, low: nat, top: nat,
                                       perRow: nat, after: seq<Row>)
    requires batch != [] && |batch| <= perRow && low == MinOptions(batch) < top == MaxOptions(batch)
    requires 0 < high == HighCount(batch, low) && |next| <= perRow - high && NoStray(after, perRow)
    ensures
      var tail := LeftoverRows(next, Min(BorrowedOptions(next), top - low - 1), perRow);
      Opened(batch, CommonRows(|batch|, low, perRow) + (ExtraRows(next, high, low, top - low, perRow) + (tail + after)))
      == ShownBatch(batch, perRow)
  {
    hide *;
    MinBound(BorrowedOptions(next), top - low - 1);
    var tail := LeftoverRows(next, Min(BorrowedOptions(next), top - low - 1), perRow);
    var rows := CommonRows(|batch|, low, perRow) + (ExtraRows(next, high, low, top - low, perRow) + (tail + after));
    forall j | 0 <= j < |batch| ensures Below(rows, j + 1) == Range(0, Shown(batch, perRow, j)) {
      ShownInMixed(batch, perRow, j);
      BatchColumn(|batch|, next, high, low, top, perRow, after, j);
    }
    OpenedAsShown(batch, rows, perRow);
  }

  lemma {:induction false} BorrowedAsShown(next: seq<Question>, rows: seq<Row>)
    requires forall j :: 0 <= j < |next| ==> Below(rows, j + 1) == Range(0, Min(next[j].options, next[0].options))
    ensures Opened(next, rows) == ShownBorrowed(next)
  {
    hide Below, Range;
  }

  lemma {:induction false} OpenedBorrowed(next: seq<Question>, high: nat, low: nat, top: nat, perRow: nat, after: seq<Row>)
    requires 0 < high <= perRow && |next| <= perRow - high && low < top && NoStray(after, perRow)
    requires |ExtraRows(next, high, low, top - low, perRow)| > 0
    ensures
      var tail := LeftoverRows(next, Min(BorrowedOptions(next), top - low - 1), perRow);
      Opened(next, ExtraRows(next, high, low, top - low, perRow)[1..] + (tail + after)) == ShownBorrowed(next)
  {
    hide ExtraRows, LeftoverRows, Below, BorrowedOptions, NoStray, Range, Opened, ShownBorrowed;
    var tail := LeftoverRows(next, Min(BorrowedOptions(next), top - low - 1), perRow);
    var shown := ExtraRows(next, high, low, top - low, perRow)[1..] + (tail + after);
    forall j | 0 <= j < |next| ensures Below(shown, j + 1) == Range(0, Min(next[j].options, next[0].options)) {
      BorrowedColumn(next, high, low, top, perRow, after, j);
    }
    BorrowedAsShown(next, shown);
  }

  // ---------- The whole card ----------

  function AllRows(qs: seq<Question>, perRow: nat): seq<Row>
    requires perRow > 0
    decreases |qs|
  {
    if qs == [] then []
    else MainRows(qs, perRow) + (TailRows(qs, perRow) + AllRows(Remaining(qs, perRow), perRow))
  }

  lemma {:induction false} Reassociate(a: seq<Row>, b: seq<Row>, c: seq<Row>, d: seq<Row>)
    ensures ((a + b) + c) + d == a + (b + (c + d))
    ensures ((a + b) + []) + ([] + d) == a + (b + d)
  {
  }

  lemma {:induction false} BatchSplit(qs: seq<Question>, perRow: nat)
    requires perRow > 0 && qs != []
    ensures
      var batch, next, rest := Batch(qs, perRow), Borrowed(qs, perRow), Remaining(qs, perRow);
      && 0 < |batch| <= perRow && qs == batch + next + rest && |rest| < |qs|
      && (|batch| < perRow ==> next == [] && rest == [])
      && (MinOptions(batch) == MaxOptions(batch) ==> next == [])
  {
    hide MinOptions, MaxOptions, HighCount;
  }

  lemma {:induction false} MixedFacts(qs: seq<Question>, perRow: nat)
    requires perRow > 0 && qs != [] && MinOptions(Batch(qs, perRow)) != MaxOptions(Batch(qs, perRow))
    ensures
      var batch := Batch(qs, perRow);
      var high := HighCount(batch, MinOptions(batch));
      && MinOptions(batch) < MaxOptions(batch) && 0 < high < |batch|
      && |Borrowed(qs, perRow)| <= perRow - high
  {
    var batch := Batch(qs, perRow);
    var low, top := MinOptions(batch), MaxOptions(batch);
    var i :| 0 <= i < |batch| && batch[i].options == top;
    var k :| 0 <= k < |batch| && batch[k].options == low;
    hide MinOptions, MaxOptions, HighCount;
    HighCountPositive(batch, low, i);
    HighCountPartial(batch, low, k);
  }

  lemma {:induction false} UniformRows(qs: seq<Question>, perRow: nat, after: seq<Row>)
    requires perRow > 0 && qs != [] && MinOptions(Batch(qs, perRow)) == MaxOptions(Batch(qs, perRow))
    ensures
      var batch := Batch(qs, perRow);
      MainRows(qs, perRow) + (TailRows(qs, perRow) + after)
      == [HeaderRow(batch, perRow)] + (CommonRows(|batch|, MinOptions(batch), perRow) + after)
  {
    hide MinOptions, MaxOptions, HeaderRow, CommonRows, Batch, Borrowed;
    var batch := Batch(qs, perRow);
    Reassociate([HeaderRow(batch, perRow)], CommonRows(|batch|, MinOptions(batch), perRow), [], after);
  }

  lemma {:induction false} MixedRows(qs: seq<Question>, perRow: nat, after: seq<Row>)
    requires perRow > 0 && qs != [] && MinOptions(Batch(qs, perRow)) != MaxOptions(Batch(qs, perRow))
    ensures
      var batch, next := Batch(qs, perRow), Borrowed(qs, perRow);
      var low, top := MinOptions(batch), MaxOptions(batch);
      MainRows(qs, perRow) + (TailRows(qs, perRow) + after)
      == [HeaderRow(batch, perRow)]
         + (CommonRows(|batch|, low, perRow)
            + (ExtraRows(next, HighCount(batch, low), low, top - low, perRow)
               + (LeftoverRows(next, Min(BorrowedOptions(next), top - low - 1), perRow) + after)))
  {
    hide MinOptions, MaxOptions, HighCount, HeaderRow, CommonRows, ExtraRows, LeftoverRows, Batch, Borrowed;
    BatchSplit(qs, perRow);
    MixedFacts(qs, perRow);
    var batch, next := Batch(qs, perRow), Borrowed(qs, perRow);
    var low, top := MinOptions(batch), MaxOptions(batch);
    Reassociate([HeaderRow(batch, perRow)], CommonRows(|batch|, low, perRow),
                ExtraRows(next, HighCount(batch, low), low, top - low, perRow), TailRows(qs, perRow) + after);
  }

  lemma {:induction false} RectangularConcat(a: seq<Row>, b: seq<Row>, width: nat)
    requires Rectangular(a, width) && Rectangular(b, width)
    ensures Rectangular(a + b, width)
  {
  }

  lemma {:induction false} RectangularParts(a: seq<Row>, b: seq<Row>, width: nat)
    requires Rectangular(a + b, width)
    ensures Rectangular(a, width) && Rectangular(b, width)
  {
    assert forall r :: r in a ==> r in a + b;
    assert forall r :: r in b ==> r in a + b;
  }

  lemma {:induction false} OneRectangular(row: Row, width: nat)
    requires |row| == width
    ensures Rectangular([row], width)
  {
  }

  lemma {:induction false} BatchRectangles(qs: seq<Question>, perRow: nat)
    requires perRow > 0 && qs != []
    ensures Rectangular(MainRows(qs, perRow), perRow + 2) && Rectangular(TailRows(qs, perRow), perRow + 2)
  {
    hide *;
    BatchSplit(qs, perRow);
    var batch, next := Batch(qs, perRow), Borrowed(qs, perRow);
    var low, top := MinOptions(batch), MaxOptions(batch);
    var hdr, common := HeaderRow(batch, perRow), CommonRows(|batch|, low, perRow);
    HeaderRowShape(batch, perRow);
    OneRectangular(hdr, perRow + 2);
    CommonColumn(|batch|, low, perRow, 0);
    EmptyRectangular(perRow + 2);
    if low == top {
      UniformRows(qs, perRow, []);
      RectangularConcat(common, [], perRow + 2);
      RectangularConcat([hdr], common + [], perRow + 2);
    } else {
      MixedFacts(qs, perRow);
      MixedRows(qs, perRow, []);
      var high := HighCount(batch, low);
      MinBound(BorrowedOptions(next), top - low - 1);
      var from := Min(BorrowedOptions(next), top - low - 1);
      var extra, tail := ExtraRows(next, high, low, top - low, perRow), LeftoverRows(next, from, perRow);
      ExtraShape(next, high, low, top - low, perRow);
      LeftoverColumn(next, from, perRow, 0);
      RectangularConcat(tail, [], perRow + 2);
      RectangularConcat(extra, tail + [], perRow + 2);
      RectangularConcat(common, extra + (tail + []), perRow + 2);
      RectangularConcat([hdr], common + (extra + (tail + [])), perRow + 2);
    }
    RectangularParts(MainRows(qs, perRow), TailRows(qs, perRow) + [], perRow + 2);
    RectangularParts(TailRows(qs, perRow), [], perRow + 2);
  }

  lemma {:induction false} EmptyRectangular(width: nat)
    ensures Rectangular([], width)
  {
  }

  lemma {:induction false} GridFills(rows: seq<Row>, width: nat, g: Grid)
    requires Rectangular(rows, width) && g == GridOf(rows)
    ensures |g.cells| == g.rows * width
  {
    FlatLength(rows, width);
  }

  /** Every grid fills its template exactly. */
  lemma {:induction false} GridsFillTemplates(qs: seq<Question>, perRow: nat, g: Grid)
    requires perRow > 0 && g in Pack(qs, perRow)
    ensures |g.cells| == g.rows * (perRow + 2)
    decreases |qs|
  {
    hide MainRows, TailRows, Remaining, Rectangular, Flat, GridOf;
    BatchSplit(qs, perRow);
    BatchRectangles(qs, perRow);
    if g in BatchGrids(qs, perRow) {
      GridFills(if g == GridOf(MainRows(qs, perRow)) then MainRows(qs, perRow) else TailRows(qs, perRow), perRow + 2, g);
    } else {
      GridsFillTemplates(Remaining(qs, perRow), perRow, g);
    }
  }

  lemma {:induction false} CardRowsFirst(qs: seq<Question>, perRow: nat)
    requires perRow > 0 && qs != []
    ensures var rest := Remaining(qs, perRow);
      CardRows(Pack(qs, perRow), perRow + 2)
      == MainRows(qs, perRow) + (TailRows(qs, perRow) + CardRows(Pack(rest, perRow), perRow + 2))
  {
    hide MainRows, TailRows, Remaining, Rectangular, Flat, RowsOf, CardRows;
    BatchSplit(qs, perRow);
    BatchRectangles(qs, perRow);
    var main, tail, rest := MainRows(qs, perRow), TailRows(qs, perRow), Remaining(qs, perRow);
    RowsOfFlat(main, perRow + 2);
    RowsOfFlat(tail, perRow + 2);
    CardRowsStep(BatchGrids(qs, perRow), Pack(rest, perRow), main, tail, perRow + 2);
  }

  /** The card read by rows is the concatenation of its batches. */
  lemma {:induction false} CardRowsOfPack(qs: seq<Question>, perRow: nat)
    requires perRow > 0
    ensures CardRows(Pack(qs, perRow), perRow + 2) == AllRows(qs, perRow)
    decreases |qs|
  {
    if qs == [] {
      assert Pack(qs, perRow) == [];
    } else {
      hide Pack, CardRows, MainRows, TailRows, Remaining;
      BatchSplit(qs, perRow);
      CardRowsFirst(qs, perRow);
      CardRowsOfPack(Remaining(qs, perRow), perRow);
    }
  }

  // ---------- Timing marks ----------

  /** A row with a cell for a timing mark at either end and nowhere else, dotted exactly when there is a bubble to read. */
  ghost predicate Marked(row: Row, perRow: nat) {
    && |row| == perRow + 2
    && row[0].Left? && row[perRow + 1].Right? && row[0].dot == row[perRow + 1].dot
    && (forall j :: 0 < j <= perRow ==> !row[j].Left? && !row[j].Right?)
    && (row[0].dot <==> exists j :: 0 < j <= perRow && row[j].Bubble?)
  }

  ghost predicate AllMarked(rows: seq<Row>, perRow: nat) {
    forall row :: row in rows ==> Marked(row, perRow)
  }

  lemma {:induction false} AllMarkedConcat(a: seq<Row>, b: seq<Row>, perRow: nat)
    requires AllMarked(a, perRow) && AllMarked(b, perRow)
    ensures AllMarked(a + b, perRow)
  {
    hide Marked;
  }

  lemma {:induction false} HeaderMarked(batch: seq<Question>, perRow: nat)
    requires |batch| <= perRow
    ensures AllMarked([HeaderRow(batch, perRow)], perRow)
  {
    assert Marked(HeaderRow(batch, perRow), perRow);
    hide Marked, HeaderRow;
  }

  lemma {:induction false} CommonMarked(count: nat, n: nat, perRow: nat)
    requires 0 < count <= perRow
    ensures AllMarked(CommonRows(count, n, perRow), perRow)
  {
    forall row | row in CommonRows(count, n, perRow) ensures Marked(row, perRow) {
      var o :| 0 <= o < n && row == CommonRow(count, o, perRow);
      assert row[1] == Bubble(o);
    }
  }

  lemma {:induction false} ExtraMarked(next: seq<Question>, high: nat, low: nat, extra: nat, perRow: nat)
    requires 0 < high <= perRow && |next| <= perRow - high && extra > 0
    ensures AllMarked(ExtraRows(next, high, low, extra, perRow), perRow)
  {
    hide ExtraRow, BorrowedOptions;
    forall row | row in ExtraRows(next, high, low, extra, perRow) ensures Marked(row, perRow) {
      var e :| 0 <= e < extra && row == ExtraRow(next, high, low, extra, perRow, e);
      ExtraCells(next, high, low, extra, perRow, e);
      assert row[perRow] == Bubble(low + e);
    }
  }

  lemma {:induction false} LeftoverRowMarked(next: seq<Question>, opt: nat, perRow: nat)
    requires |next| <= perRow && opt < BorrowedOptions(next)
    ensures Marked(LeftoverRow(next, opt, perRow), perRow)
  {
    var row := LeftoverRow(next, opt, perRow);
    assert |BubblesWithin(next, opt) + Blanks(perRow - |next|)| == perRow;
    assert row[1] == Bubble(opt);
  }

  lemma {:induction false} LeftoverMarked(next: seq<Question>, from: nat, perRow: nat)
    requires |next| <= perRow
    ensures AllMarked(LeftoverRows(next, from, perRow), perRow)
  {
    hide LeftoverRow, Marked, BorrowedOptions;
    var rows := LeftoverRows(next, from, perRow);
    forall k | 0 <= k < |rows| ensures Marked(rows[k], perRow) {
      assert rows[k] == LeftoverRow(next, from + k, perRow);
      LeftoverRowMarked(next, from + k, perRow);
    }
  }

  lemma {:induction false} NoneMarked(perRow: nat)
    ensures AllMarked([], perRow)
  {
  }

  lemma {:induction false} BatchMarked(qs: seq<Question>, perRow: nat, after: seq<Row>)
    requires perRow > 0 && qs != [] && AllMarked(after, perRow)
    ensures AllMarked(MainRows(qs, perRow) + (TailRows(qs, perRow) + after), perRow)
  {
    hide *;
    BatchSplit(qs, perRow);
    var batch, next := Batch(qs, perRow), Borrowed(qs, perRow);
    var low, top := MinOptions(batch), MaxOptions(batch);
    var hdr, common := HeaderRow(batch, perRow), CommonRows(|batch|, low, perRow);
    HeaderMarked(batch, perRow);
    CommonMarked(|batch|, low, perRow);
    if low == top {
      UniformRows(qs, perRow, after);
      AllMarkedConcat(common, after, perRow);
      AllMarkedConcat([hdr], common + after, perRow);
    } else {
      MixedFacts(qs, perRow);
      MixedRows(qs, perRow, after);
      var high := HighCount(batch, low);
      MinBound(BorrowedOptions(next), top - low - 1);
      var from := Min(BorrowedOptions(next), top - low - 1);
      var extra, tail := ExtraRows(next, high, low, top - low, perRow), LeftoverRows(next, from, perRow);
      ExtraMarked(next, high, low, top - low, perRow);
      LeftoverMarked(next, from, perRow);
      AllMarkedConcat(tail, after, perRow);
      AllMarkedConcat(extra, tail + after, perRow);
      AllMarkedConcat(common, extra + (tail + after), perRow);
      AllMarkedConcat([hdr], common + (extra + (tail + after)), perRow);
    }
  }

  lemma {:induction false} RowsMarked(qs: seq<Question>, perRow: nat)
    requires perRow > 0
    ensures AllMarked(AllRows(qs, perRow), perRow)
    decreases |qs|
  {
    hide MainRows, TailRows, Remaining, AllMarked;
    if qs == [] {
      NoneMarked(perRow);
    } else {
      BatchSplit(qs, perRow);
      RowsMarked(Remaining(qs, perRow), perRow);
      BatchMarked(qs, perRow, AllRows(Remaining(qs, perRow), perRow));
    }
  }

  /** On every card, exactly the rows with a bubble have a timing mark, one at either end. */
  lemma {:induction false} TimingMarks(qs: seq<Question>, perRow: nat)
    requires perRow > 0
    ensures forall row: Row :: row in CardRows(Pack(qs, perRow), perRow + 2) ==>
      && |row| == perRow + 2
      && row[0].Left? && row[perRow + 1].Right? && row[0].dot == row[perRow + 1].dot
      && (forall j :: 0 < j <= perRow ==> !row[j].Left? && !row[j].Right?)
      && (row[0].dot <==> exists j :: 0 < j <= perRow && row[j].Bubble?)
  {
    hide AllRows, Pack, CardRows;
    CardRowsOfPack(qs, perRow);
    RowsMarked(qs, perRow);
  }

  lemma {:induction false} CardRowsStep(g: seq<Grid>, more: seq<Grid>, main: seq<Row>, tail: seq<Row>, width: nat)
    requires width > 0 && RowsOf(Flat(main), width) == main && RowsOf(Flat(tail), width) == tail
    requires g == if tail == [] then [GridOf(main)] else [GridOf(main), GridOf(tail)]
    ensures CardRows(g + more, width) == main + (tail + CardRows(more, width))
  {
    hide RowsOf, Flat;
    assert (g + more)[0] == GridOf(main);
    if tail == [] {
      assert (g + more)[1..] == more;
      assert tail + CardRows(more, width) == CardRows(more, width);
    } else {
      assert (g + more)[1..] == [GridOf(tail)] + more && ([GridOf(tail)] + more)[1..] == more;
    }
  }

  /** The records of the first batch and of the questions it borrows, whatever surrounds them. */
  ghost predicate RecordsOf(a: seq<Record>, qs: seq<Question>) {
    |a| == |qs| && forall i :: 0 <= i < |a| ==> a[i].qno == qs[i].qno
  }

  lemma {:induction false} OpenedRecords(qs: seq<Question>, rows: seq<Row>)
    ensures RecordsOf(Opened(qs, rows), qs)
  {
  }

  lemma {:induction false} ReadFirstUniform(qs: seq<Question>, perRow: nat, after: seq<Row>) returns (a: seq<Record>)
    requires perRow > 0 && qs != [] && MinOptions(Batch(qs, perRow)) == MaxOptions(Batch(qs, perRow))
    ensures Read(MainRows(qs, perRow) + (TailRows(qs, perRow) + after)) == a + Read(after)
    ensures RecordsOf(a, Batch(qs, perRow))
    ensures NoStray(after, perRow) ==> a == ShownBatch(Batch(qs, perRow), perRow)
    ensures |Batch(qs, perRow)| == perRow ==> LastIs(a, Batch(qs, perRow), perRow, after)
  {
    hide *;
    BatchSplit(qs, perRow);
    var batch := Batch(qs, perRow);
    var common := CommonRows(|batch|, MinOptions(batch), perRow);
    UniformRows(qs, perRow, after);
    HeaderRowShape(batch, perRow);
    CommonColumn(|batch|, MinOptions(batch), perRow, 0);
    ReadShowing(HeaderRow(batch, perRow), batch, common + after);
    SkipHeaderless(common, after);
    a := Opened(batch, common + after);
    OpenedRecords(batch, common + after);
    if NoStray(after, perRow) { OpenedUniform(batch, perRow, after); }
    if |batch| == perRow { UniformLast(batch, perRow, after); }
  }

  lemma {:induction false} ReadFirstMixed(qs: seq<Question>, perRow: nat, after: seq<Row>)
    returns (a: seq<Record>, b: seq<Record>)
    requires perRow > 0 && qs != [] && MinOptions(Batch(qs, perRow)) != MaxOptions(Batch(qs, perRow))
    ensures Read(MainRows(qs, perRow) + (TailRows(qs, perRow) + after)) == a + (b + Read(after))
    ensures RecordsOf(a, Batch(qs, perRow)) && RecordsOf(b, Borrowed(qs, perRow))
    ensures NoStray(after, perRow) ==> a == ShownBatch(Batch(qs, perRow), perRow) && b == ShownBorrowed(Borrowed(qs, perRow))
    ensures |Batch(qs, perRow)| == perRow ==> LastIs(a, Batch(qs, perRow), perRow, after)
  {
    hide *;
    BatchSplit(qs, perRow);
    MixedFacts(qs, perRow);
    var batch, next := Batch(qs, perRow), Borrowed(qs, perRow);
    var low, top := MinOptions(batch), MaxOptions(batch);
    var high := HighCount(batch, low);
    var common, extra := CommonRows(|batch|, low, perRow), ExtraRows(next, high, low, top - low, perRow);
    MinBound(BorrowedOptions(next), top - low - 1);
    var tail := LeftoverRows(next, Min(BorrowedOptions(next), top - low - 1), perRow);
    MixedRows(qs, perRow, after);
    RowCounts(|batch|, next, high, low, top, perRow);
    HeaderRowShape(batch, perRow);
    CommonColumn(|batch|, low, perRow, 0);
    ExtraShape(next, high, low, top - low, perRow);
    LeftoverColumn(next, Min(BorrowedOptions(next), top - low - 1), perRow, 0);
    ReadBothHeaderRows(HeaderRow(batch, perRow), batch, common, extra, next, tail, after);
    a, b := Opened(batch, common + (extra + (tail + after))), Opened(next, extra[1..] + (tail + after));
    OpenedRecords(batch, common + (extra + (tail + after)));
    OpenedRecords(next, extra[1..] + (tail + after));
    if NoStray(after, perRow) {
      OpenedBatch(batch, next, high, low, top, perRow, after);
      OpenedBorrowed(next, high, low, top, perRow, after);
    }
    if |batch| == perRow { MixedLast(batch, next, high, low, top, perRow, after); }
  }

  /** The question in the last column of a full batch has its own bubbles, and then whatever stands loose below. */
  ghost predicate LastIs(a: seq<Record>, batch: seq<Question>, perRow: nat, after: seq<Row>)
    requires |batch| == perRow > 0
  {
    |a| == perRow
    && a[perRow - 1] == Record(batch[perRow - 1].qno, Range(0, Shown(batch, perRow, perRow - 1)) + Below(after, perRow))
  }

  lemma {:induction false} UniformLast(batch: seq<Question>, perRow: nat, after: seq<Row>)
    requires |batch| == perRow > 0 && MinOptions(batch) == MaxOptions(batch)
    ensures LastIs(Opened(batch, CommonRows(perRow, MinOptions(batch), perRow) + after), batch, perRow, after)
  {
    var low := MinOptions(batch);
    var common := CommonRows(perRow, low, perRow);
    assert |common| == low && Shown(batch, perRow, perRow - 1) == low;
    hide *;
    CommonColumn(perRow, low, perRow, perRow - 1);
    BelowColumn(common, after, perRow, 0, low);
    OpenedLast(batch, common + after, perRow, low, after);
  }

  lemma {:induction false} OpenedLast(batch: seq<Question>, rows: seq<Row>, perRow: nat, n: nat, after: seq<Row>)
    requires |batch| == perRow > 0 && Shown(batch, perRow, perRow - 1) == n
    requires Below(rows, perRow) == Range(0, n) + Below(after, perRow)
    ensures LastIs(Opened(batch, rows), batch, perRow, after)
  {
    hide Below, Range, Shown;
  }

  lemma {:induction false} MixedLast(batch: seq<Question>, next: seq<Question>, high: nat, low: nat, top: nat,
                                     perRow: nat, after: seq<Row>)
    requires |batch| == perRow > 0 && low == MinOptions(batch) < top == MaxOptions(batch)
    requires 0 < high == HighCount(batch, low) && high <= perRow && |next| <= perRow - high
    ensures
      var tail := LeftoverRows(next, Min(BorrowedOptions(next), top - low - 1), perRow);
      LastIs(Opened(batch, CommonRows(perRow, low, perRow) + (ExtraRows(next, high, low, top - low, perRow) + (tail + after))),
             batch, perRow, after)
  {
    hide *;
    ShownInMixed(batch, perRow, perRow - 1);
    MinBound(BorrowedOptions(next), top - low - 1);
    var tail := LeftoverRows(next, Min(BorrowedOptions(next), top - low - 1), perRow);
    LastMixedColumn(next, high, low, top, perRow, after);
    OpenedLast(batch, CommonRows(perRow, low, perRow) + (ExtraRows(next, high, low, top - low, perRow) + (tail + after)),
               perRow, top, after);
  }

  lemma {:induction false} LastMixedColumn(next: seq<Question>, high: nat, low: nat, top: nat, perRow: nat, after: seq<Row>)
    requires 0 < high <= perRow && |next| <= perRow - high && low < top
    ensures
      var tail := LeftoverRows(next, Min(BorrowedOptions(next), top - low - 1), perRow);
      Below(CommonRows(perRow, low, perRow) + (ExtraRows(next, high, low, top - low, perRow) + (tail + after)), perRow)
      == Range(0, top) + Below(after, perRow)
  {
    hide *;
    MinBound(BorrowedOptions(next), top - low - 1);
    var from, j := Min(BorrowedOptions(next), top - low - 1), perRow - 1;
    var common, extra := CommonRows(perRow, low, perRow), ExtraRows(next, high, low, top - low, perRow);
    RowCounts(perRow, next, high, low, top, perRow);
    CommonColumn(perRow, low, perRow, j);
    ExtraColumn(next, high, low, top - low, perRow, j);
    LeftoverColumn(next, from, perRow, j);
    ThreeColumns(common, extra, LeftoverRows(next, from, perRow), after, j + 1, low, top);
  }

  /** A column of common rows and extra rows with nothing in the left-over rows, read on into what follows. */
  lemma {:induction false} ThreeColumns(common: seq<Row>, extra: seq<Row>, tail: seq<Row>, after: seq<Row>, c: nat,
                                        low: nat, top: nat)
    requires low <= top && |common| == low && |extra| == top - low
    requires Column(common, c, 0, low) && Column(extra, c, low, top) && Column(tail, c, 0, 0)
    ensures Below(common + (extra + (tail + after)), c) == Range(0, top) + Below(after, c)
  {
    hide Column, Below, Range;
    BelowColumn(common, extra + (tail + after), c, 0, low);
    BelowColumn(extra, tail + after, c, low, top);
    BelowColumn(tail, after, c, 0, 0);
    RangeSplit(0, low, top);
    RangeSplit(0, 0, 0);
    Prepend(Range(0, low), Range(low, top), Below(after, c));
    Prepend([], Below(after, c), []);
  }

  lemma {:induction false} MinBound(a: nat, b: nat)
    ensures Min(a, b) >= 0
  {
  }

  /** The first batch of these questions, if there are any, is full or of one option count. */
  predicate LeadsClean(qs: seq<Question>, perRow: nat)
    requires perRow > 0
  {
    qs == [] || |Batch(qs, perRow)| == perRow || MinOptions(Batch(qs, perRow)) == MaxOptions(Batch(qs, perRow))
  }

  /** Reading any card: the headers of the first batch, of the borrowed questions, then the rest. The question in the
      last column of a full batch shows its bubbles and those that stand loose in the rest; when the rest leads clean,
      every question of the batch and of the borrowed ones shows exactly its own. */
  lemma {:induction false} ReadFirstBatch(qs: seq<Question>, perRow: nat) returns (a: seq<Record>, b: seq<Record>)
    requires perRow > 0 && qs != []
    ensures var rest := Remaining(qs, perRow);
      && Read(AllRows(qs, perRow)) == a + (b + Read(AllRows(rest, perRow)))
      && RecordsOf(a, Batch(qs, perRow)) && RecordsOf(b, Borrowed(qs, perRow))
      && (LeadsClean(rest, perRow) ==>
            a == ShownBatch(Batch(qs, perRow), perRow) && b == ShownBorrowed(Borrowed(qs, perRow)))
      && (|Batch(qs, perRow)| == perRow ==> LastIs(a, Batch(qs, perRow), perRow, AllRows(rest, perRow)))
  {
    var rest, after := Remaining(qs, perRow), AllRows(Remaining(qs, perRow), perRow);
    BatchSplit(qs, perRow);
    NoStrayExactly(rest, perRow);
    assert AllRows(qs, perRow) == MainRows(qs, perRow) + (TailRows(qs, perRow) + after);
    a, b := ReadMain(qs, perRow, after);
  }

  /** Reading the rows of one batch, whatever follows. */
  lemma {:induction false} ReadMain(qs: seq<Question>, perRow: nat, after: seq<Row>)
      returns (a: seq<Record>, b: seq<Record>)
    requires perRow > 0 && qs != []
    ensures Read(MainRows(qs, perRow) + (TailRows(qs, perRow) + after)) == a + (b + Read(after))
    ensures RecordsOf(a, Batch(qs, perRow)) && RecordsOf(b, Borrowed(qs, perRow))
    ensures NoStray(after, perRow) ==>
      a == ShownBatch(Batch(qs, perRow), perRow) && b == ShownBorrowed(Borrowed(qs, perRow))
    ensures |Batch(qs, perRow)| == perRow ==> LastIs(a, Batch(qs, perRow), perRow, after)
  {
    assert RecordsOf([], []) && ShownBorrowed([]) == [];
    hide *;
    BatchSplit(qs, perRow);
    if MinOptions(Batch(qs, perRow)) == MaxOptions(Batch(qs, perRow)) {
      a := ReadFirstUniform(qs, perRow, after);
      b := [];
      assert b + Read(after) == Read(after);
    } else {
      a, b := ReadFirstMixed(qs, perRow, after);
    }
  }

  /** Whatever the questions, the rows of one batch read by themselves show each batch question the common or all rows,
      by its column, and each borrowed question its options as far as the first borrowed one has them. */
  lemma {:induction false} BatchShowsItsCounts(qs: seq<Question>, perRow: nat)
    requires perRow > 0 && qs != []
    ensures Read(MainRows(qs, perRow) + TailRows(qs, perRow))
            == ShownBatch(Batch(qs, perRow), perRow) + ShownBorrowed(Borrowed(qs, perRow))
  {
    assert NoStray([], perRow) && Read([]) == [];
    hide *;
    BatchSplit(qs, perRow);
    var a, b := ReadMain(qs, perRow, []);
    assert TailRows(qs, perRow) + [] == TailRows(qs, perRow) && b + [] == b;
  }

  lemma {:induction false} OpenedUniform(batch: seq<Question>, perRow: nat, after: seq<Row>)
    requires batch != [] && |batch| <= perRow && MinOptions(batch) == MaxOptions(batch) && NoStray(after, perRow)
    ensures Opened(batch, CommonRows(|batch|, MinOptions(batch), perRow) + after) == ShownBatch(batch, perRow)
  {
    var low := MinOptions(batch);
    var common := CommonRows(|batch|, low, perRow);
    assert |common| == low;
    hide MinOptions, MaxOptions, HighCount, CommonRows, Below, Range, Column;
    forall j | 0 <= j < |batch| ensures Below(common + after, j + 1) == Range(0, Shown(batch, perRow, j)) {
      CommonColumn(|batch|, low, perRow, j);
      BelowColumn(common, after, j + 1, 0, low);
    }
  }

  lemma {:induction false} RecordsConcat(a: seq<Record>, p: seq<Question>, b: seq<Record>, q: seq<Question>)
    requires RecordsOf(a, p) && RecordsOf(b, q)
    ensures RecordsOf(a + b, p + q)
  {
  }

  lemma {:induction false} RowsOpenStep(qs: seq<Question>, perRow: nat)
    requires perRow > 0 && qs != []
    requires RecordsOf(Read(AllRows(Remaining(qs, perRow), perRow)), Remaining(qs, perRow))
    ensures RecordsOf(Read(AllRows(qs, perRow)), qs)
  {
    hide *;
    BatchSplit(qs, perRow);
    var batch, next, rest := Batch(qs, perRow), Borrowed(qs, perRow), Remaining(qs, perRow);
    var a, b := ReadFirstBatch(qs, perRow);
    var c := Read(AllRows(rest, perRow));
    RecordsConcat(a, batch, b, next);
    RecordsConcat(a + b, batch + next, c, rest);
    assert a + b + c == a + (b + c);
  }

  lemma {:induction false} RowsOpenTheQuestions(qs: seq<Question>, perRow: nat)
    requires perRow > 0
    ensures RecordsOf(Read(AllRows(qs, perRow)), qs)
    decreases |qs|
  {
    if qs == [] {
      assert Read(AllRows(qs, perRow)) == [];
    } else {
      hide *;
      BatchSplit(qs, perRow);
      RowsOpenTheQuestions(Remaining(qs, perRow), perRow);
      RowsOpenStep(qs, perRow);
    }
  }

  /** Whatever the input, the headers read in order are the question list: none lost, repeated or moved. */
  lemma {:induction false} HeadersAreTheQuestions(qs: seq<Question>, perRow: nat)
    requires perRow > 0
    ensures RecordsOf(ReadCard(Pack(qs, perRow), perRow), qs)
  {
    CardRowsOfPack(qs, perRow);
    RowsOpenTheQuestions(qs, perRow);
  }

  // ---------- What any card shows ----------

  /** Every question of the card with the bubbles its batch gives it. */
  function ShownCard(qs: seq<Question>, perRow: nat): seq<Record>
    requires perRow > 0
    decreases |qs|
  {
    if qs == [] then []
    else
      BatchSplit(qs, perRow);
      ShownBatch(Batch(qs, perRow), perRow)
      + (ShownBorrowed(Borrowed(qs, perRow)) + ShownCard(Remaining(qs, perRow), perRow))
  }

  /** No batch after the first is both short and of different option counts (only the last can be). */
  predicate EndsClean(qs: seq<Question>, perRow: nat)
    requires perRow > 0
    decreases |qs|
  {
    qs == [] || (BatchSplit(qs, perRow); var rest := Remaining(qs, perRow); LeadsClean(rest, perRow) && EndsClean(rest, perRow))
  }

  lemma {:induction false} ShownRecords(qs: seq<Question>, perRow: nat)
    requires perRow > 0 && qs != []
    ensures |ShownBatch(Batch(qs, perRow), perRow)| == |Batch(qs, perRow)|
    ensures |ShownBorrowed(Borrowed(qs, perRow))| == |Borrowed(qs, perRow)|
  {
    hide Shown, Range;
  }

  lemma {:induction false} SameParts(a: seq<Record>, b: seq<Record>, c: seq<Record>,
                                     x: seq<Record>, y: seq<Record>, z: seq<Record>)
    requires |a| == |x| && |b| == |y|
    ensures a + (b + c) == x + (y + z) <==> a == x && b == y && c == z
  {
    if a + (b + c) == x + (y + z) {
      assert a == (a + (b + c))[..|a|] && b + c == (a + (b + c))[|a|..];
      assert x == (x + (y + z))[..|x|] && y + z == (x + (y + z))[|x|..];
      assert b == (b + c)[..|b|] && c == (b + c)[|b|..] && y == (y + z)[..|y|] && z == (y + z)[|y|..];
    }
  }

  /** With loose bubbles below, the question in the last column of the batch shows too much. */
  lemma {:induction false} LooseShowsMore(a: seq<Record>, qs: seq<Question>, perRow: nat, after: seq<Row>)
    requires perRow > 0 && qs != [] && |Batch(qs, perRow)| == perRow && LastIs(a, Batch(qs, perRow), perRow, after)
    requires Below(after, perRow) != []
    ensures a != ShownBatch(Batch(qs, perRow), perRow)
  {
    hide Below, Range, Shown;
    var own := Range(0, Shown(Batch(qs, perRow), perRow, perRow - 1));
    assert |own + Below(after, perRow)| > |own|;
    assert ShownBatch(Batch(qs, perRow), perRow)[perRow - 1].bubbles == own;
  }

  lemma {:induction false} ShownStep(qs: seq<Question>, perRow: nat)
    requires perRow > 0 && qs != []
    ensures var rest := Remaining(qs, perRow);
      Read(AllRows(qs, perRow)) == ShownCard(qs, perRow)
      <==> LeadsClean(rest, perRow) && Read(AllRows(rest, perRow)) == ShownCard(rest, perRow)
  {
    var batch, next, rest := Batch(qs, perRow), Borrowed(qs, perRow), Remaining(qs, perRow);
    assert ShownCard(qs, perRow) == ShownBatch(batch, perRow) + (ShownBorrowed(next) + ShownCard(rest, perRow));
    hide *;
    BatchSplit(qs, perRow);
    var a, b := ReadFirstBatch(qs, perRow);
    ShownRecords(qs, perRow);
    RecordCount(a, batch);
    RecordCount(b, next);
    SameParts(a, b, Read(AllRows(rest, perRow)), ShownBatch(batch, perRow), ShownBorrowed(next), ShownCard(rest, perRow));
    if !LeadsClean(rest, perRow) {
      ShortAndMixed(rest, perRow);
      LooseBubbles(rest, perRow);
      LooseShowsMore(a, qs, perRow, AllRows(rest, perRow));
    }
  }

  lemma {:induction false} RecordCount(a: seq<Record>, qs: seq<Question>)
    requires RecordsOf(a, qs)
    ensures |a| == |qs|
  {
  }

  lemma {:induction false} ShortAndMixed(qs: seq<Question>, perRow: nat)
    requires perRow > 0 && !LeadsClean(qs, perRow)
    ensures qs != [] && |Batch(qs, perRow)| < perRow
    ensures MinOptions(Batch(qs, perRow)) != MaxOptions(Batch(qs, perRow))
  {
    hide MinOptions, MaxOptions;
  }

  lemma {:induction false} RowsShowCounts(qs: seq<Question>, perRow: nat)
    requires perRow > 0
    ensures Read(AllRows(qs, perRow)) == ShownCard(qs, perRow) <==> EndsClean(qs, perRow)
    decreases |qs|
  {
    if qs == [] {
      assert Read(AllRows(qs, perRow)) == [];
    } else {
      hide AllRows, Read, ShownCard, Remaining, LeadsClean;
      BatchSplit(qs, perRow);
      RowsShowCounts(Remaining(qs, perRow), perRow);
      ShownStep(qs, perRow);
    }
  }

  /** For any questions: under every header stand exactly the bubbles that its batch gives the column, the common or all
      options to a batch question and those of the first borrowed to a borrowed one, if and only if no batch after the
      first is both short and of different option counts. */
  lemma {:induction false} CardShowsCounts(qs: seq<Question>, perRow: nat)
    requires perRow > 0
    ensures ReadCard(Pack(qs, perRow), perRow) == ShownCard(qs, perRow) <==> EndsClean(qs, perRow)
  {
    CardRowsOfPack(qs, perRow);
    RowsShowCounts(qs, perRow);
  }

  // ---------- When the card can be read back ----------

  /** A batch of different option counts that packs well: full, in order, of two counts, borrowing no longer question. */
  predicate PacksWell(batch: seq<Question>, next: seq<Question>, perRow: nat)
    requires batch != []
  {
    var low, top := MinOptions(batch), MaxOptions(batch);
    && |batch| == perRow
    && (forall i, j :: 0 <= i < j < |batch| ==> batch[i].options <= batch[j].options)
    && (forall q :: q in batch ==> q.options == low || q.options == top)
    && (forall q :: q in next ==> q.options <= next[0].options)
  }

  /** Every batch along the cursor's way is uniform or packs well. */
  predicate Packable(qs: seq<Question>, perRow: nat)
    requires perRow > 0
    decreases |qs|
  {
    qs == []
    || ((MinOptions(Batch(qs, perRow)) == MaxOptions(Batch(qs, perRow))
         || PacksWell(Batch(qs, perRow), Borrowed(qs, perRow), perRow))
        && (BatchSplit(qs, perRow); Packable(Remaining(qs, perRow), perRow)))
  }

  /** The tall questions of a sorted batch are its last ones. */
  lemma {:induction false} HighCountOfSorted(qs: seq<Question>, low: nat, j: nat)
    requires j < |qs| && forall a, b :: 0 <= a < b < |qs| ==> qs[a].options <= qs[b].options
    ensures qs[j].options > low <==> j >= |qs| - HighCount(qs, low)
  {
    var rest := qs[1..];
    if j > 0 {
      HighCountOfSorted(rest, low, j - 1);
    } else if qs[0].options > low {
      AllHigh(rest, low);
    }
  }

  lemma {:induction false} AllHigh(qs: seq<Question>, low: nat)
    requires forall q :: q in qs ==> q.options > low
    ensures HighCount(qs, low) == |qs|
  {
    if qs != [] { assert qs[0] in qs; AllHigh(qs[1..], low); }
  }

  /** Number of tall questions when the tall ones are exactly those from position t on. */
  lemma {:induction false} HighCountFrom(qs: seq<Question>, low: nat, t: nat)
    requires forall j :: 0 <= j < |qs| ==> (qs[j].options > low <==> j >= t)
    ensures HighCount(qs, low) == if t <= |qs| then |qs| - t else 0
  {
    if qs != [] {
      var rest := qs[1..];
      assert forall j :: 0 <= j < |rest| ==> rest[j] == qs[j + 1];
      HighCountFrom(rest, low, if t == 0 then 0 else t - 1);
    }
  }

  lemma {:induction false} PacksWellShowsAll(batch: seq<Question>, perRow: nat, j: nat)
    requires batch != [] && MinOptions(batch) < MaxOptions(batch) && PacksWell(batch, [], perRow) && j < |batch|
    ensures batch[j].options == Shown(batch, perRow, j)
  {
    hide HighCount;
    HighCountOfSorted(batch, MinOptions(batch), j);
    assert batch[j] in batch;
  }

  lemma {:induction false} ShowsAllPacksWell(batch: seq<Question>, perRow: nat)
    requires batch != [] && |batch| <= perRow && MinOptions(batch) < MaxOptions(batch)
    requires forall j :: 0 <= j < |batch| ==> batch[j].options == Shown(batch, perRow, j)
    ensures PacksWell(batch, [], perRow)
  {
    hide HighCount, Shown, MinOptions, MaxOptions;
    var low, top := MinOptions(batch), MaxOptions(batch);
    var high := HighCount(batch, low);
    var i :| 0 <= i < |batch| && batch[i].options == top;
    forall j | 0 <= j < |batch| ensures batch[j].options == if j < perRow - high then low else top {
      ShownInMixed(batch, perRow, j);
    }
    HighCountFrom(batch, low, perRow - high);
    HighCountPositive(batch, low, i);
  }

  /** In a batch of different counts, all columns show the right number of bubbles exactly when the batch packs well. */
  lemma {:induction false} BatchShownExactly(batch: seq<Question>, perRow: nat)
    requires batch != [] && |batch| <= perRow && MinOptions(batch) < MaxOptions(batch)
    ensures (forall j :: 0 <= j < |batch| ==> batch[j].options == Shown(batch, perRow, j))
            <==> PacksWell(batch, [], perRow)
  {
    hide MinOptions, MaxOptions, Shown, PacksWell;
    if PacksWell(batch, [], perRow) {
      forall j | 0 <= j < |batch| ensures batch[j].options == Shown(batch, perRow, j) {
        PacksWellShowsAll(batch, perRow, j);
      }
    }
    if forall j :: 0 <= j < |batch| ==> batch[j].options == Shown(batch, perRow, j) {
      ShowsAllPacksWell(batch, perRow);
    }
  }

  lemma {:induction false} RangesEqual(a: nat, b: nat)
    ensures Range(0, a) == Range(0, b) <==> a == b
  {
    assert |Range(0, a)| == a && |Range(0, b)| == b;
  }

  lemma {:induction false} PacksWellParts(batch: seq<Question>, next: seq<Question>, perRow: nat)
    requires batch != []
    ensures PacksWell(batch, next, perRow)
            <==> PacksWell(batch, [], perRow) && forall q :: q in next ==> q.options <= next[0].options
  {
    hide MinOptions, MaxOptions;
  }

  lemma {:induction false} ShownAsExpected(qs: seq<Question>, perRow: nat)
    requires perRow > 0 && qs != []
    ensures
      var batch, next := Batch(qs, perRow), Borrowed(qs, perRow);
      ShownBatch(batch, perRow) == Expected(batch) && ShownBorrowed(next) == Expected(next)
      <==> MinOptions(batch) == MaxOptions(batch) || PacksWell(batch, next, perRow)
  {
    hide Batch, Borrowed, Range, ShownBatch, ShownBorrowed, Expected, PacksWell, MinOptions, MaxOptions;
    BatchSplit(qs, perRow);
    var batch, next := Batch(qs, perRow), Borrowed(qs, perRow);
    BatchAsExpected(batch, perRow);
    BorrowedAsExpected(next);
    PacksWellParts(batch, next, perRow);
  }

  lemma {:induction false} BatchAsExpected(batch: seq<Question>, perRow: nat)
    requires batch != [] && |batch| <= perRow
    ensures ShownBatch(batch, perRow) == Expected(batch)
            <==> MinOptions(batch) == MaxOptions(batch) || PacksWell(batch, [], perRow)
  {
    forall j | 0 <= j < |batch|
      ensures ShownBatch(batch, perRow)[j] == Expected(batch)[j] <==> batch[j].options == Shown(batch, perRow, j)
    {
      RangesEqual(Shown(batch, perRow, j), batch[j].options);
    }
    hide Range;
    if MinOptions(batch) == MaxOptions(batch) {
      assert forall j :: 0 <= j < |batch| ==> batch[j] in batch;
    } else {
      var q :| q in batch && q.options == MinOptions(batch);
      BatchShownExactly(batch, perRow);
    }
  }

  lemma {:induction false} BorrowedAsExpected(next: seq<Question>)
    ensures ShownBorrowed(next) == Expected(next) <==> forall q :: q in next ==> q.options <= next[0].options
  {
    forall j | 0 <= j < |next|
      ensures ShownBorrowed(next)[j] == Expected(next)[j] <==> next[j].options <= next[0].options
    {
      RangesEqual(Min(next[j].options, next[0].options), next[j].options);
    }
  }

  /** No bubble of a card stands loose above its first headers exactly when its first batch, if it has one, is full or
      of one option count. */
  lemma {:induction false} NoStrayExactly(qs: seq<Question>, perRow: nat)
    requires perRow > 0
    ensures NoStray(AllRows(qs, perRow), perRow) <==> LeadsClean(qs, perRow)
  {
    if qs == [] {
      assert AllRows(qs, perRow) == [];
    } else {
      hide Below, AllRows, MinOptions, MaxOptions;
      BatchSplit(qs, perRow);
      var batch := Batch(qs, perRow);
      if LeadsClean(qs, perRow) {
        forall j | 1 <= j <= perRow ensures Below(AllRows(qs, perRow), j) == [] {
          if j <= |batch| { FirstHeader(qs, perRow, j); } else { UniformBlank(qs, perRow, j); }
        }
      } else {
        LooseBubbles(qs, perRow);
      }
    }
  }

  lemma {:induction false} OnlyBatch(qs: seq<Question>, perRow: nat)
    requires perRow > 0 && qs != [] && |Batch(qs, perRow)| < perRow
    ensures AllRows(qs, perRow) == MainRows(qs, perRow) + (TailRows(qs, perRow) + []) && Borrowed(qs, perRow) == []
  {
    hide MainRows, TailRows, MinOptions, MaxOptions;
    BatchSplit(qs, perRow);
    assert AllRows(Remaining(qs, perRow), perRow) == [];
  }

  lemma {:induction false} UniformBlank(qs: seq<Question>, perRow: nat, j: nat)
    requires perRow > 0 && qs != [] && |Batch(qs, perRow)| < j <= perRow
    requires MinOptions(Batch(qs, perRow)) == MaxOptions(Batch(qs, perRow))
    ensures Below(AllRows(qs, perRow), j) == []
  {
    hide *;
    OnlyBatch(qs, perRow);
    UniformRows(qs, perRow, []);
    BlankColumn(Batch(qs, perRow), MinOptions(Batch(qs, perRow)), perRow, j);
  }

  /** A batch that is neither full nor uniform leaves the further options of its tall questions without a header in the
      last column. */
  lemma {:induction false} LooseBubbles(qs: seq<Question>, perRow: nat)
    requires perRow > 0 && qs != [] && |Batch(qs, perRow)| < perRow
    requires MinOptions(Batch(qs, perRow)) != MaxOptions(Batch(qs, perRow))
    ensures Below(AllRows(qs, perRow), perRow)
            == Range(MinOptions(Batch(qs, perRow)), MaxOptions(Batch(qs, perRow)))
    ensures Below(AllRows(qs, perRow), perRow) != []
  {
    hide *;
    var batch := Batch(qs, perRow);
    var low, top := MinOptions(batch), MaxOptions(batch);
    var high := HighCount(batch, low);
    BatchSplit(qs, perRow);
    OnlyBatch(qs, perRow);
    MixedRows(qs, perRow, []);
    MixedFacts(qs, perRow);
    MinBound(BorrowedOptions([]), top - low - 1);
    var from := Min(BorrowedOptions([]), top - low - 1);
    var header, common := HeaderRow(batch, perRow), CommonRows(|batch|, low, perRow);
    var extra, tail := ExtraRows([], high, low, top - low, perRow), LeftoverRows([], from, perRow);
    RowCounts(|batch|, [], high, low, top, perRow);
    BlankBeside(batch, low, perRow);
    ExtraColumn([], high, low, top - low, perRow, perRow - 1);
    LeftoverColumn([], from, perRow, perRow - 1);
    LooseColumn(header, common, extra, tail, perRow, low, top);
  }

  lemma {:induction false} BlankBeside(batch: seq<Question>, n: nat, perRow: nat)
    requires |batch| < perRow
    ensures Column([HeaderRow(batch, perRow)] + CommonRows(|batch|, n, perRow), perRow, 0, 0)
  {
    var rows := [HeaderRow(batch, perRow)] + CommonRows(|batch|, n, perRow);
    forall k | 0 <= k < |rows| ensures perRow < |rows[k]| && rows[k][perRow] == Blank {}
  }

  lemma {:induction false} LooseColumn(header: Row, common: seq<Row>, extra: seq<Row>, tail: seq<Row>, c: nat, low: nat,
                                       top: nat)
    requires low < top && |extra| == top - low
    requires Column([header] + common, c, 0, 0) && Column(extra, c, low, top) && Column(tail, c, 0, 0)
    ensures Below([header] + (common + (extra + (tail + []))), c) == Range(low, top) != []
  {
    assert Below([], c) == [];
    hide Column, Below, Range;
    BelowColumn([header] + common, extra + (tail + []), c, 0, 0);
    BelowColumn(extra, tail + [], c, low, top);
    BelowColumn(tail, [], c, 0, 0);
    RangeSplit(0, 0, 0);
    RangeSplit(low, top, top);
    Prepend([header], common, extra + (tail + []));
    Prepend([], Range(low, top), []);
    assert Range(low, top) + [] == Range(low, top);
  }

  lemma {:induction false} StartsWithHeader(qs: seq<Question>, perRow: nat)
    requires perRow > 0 && qs != []
    ensures AllRows(qs, perRow) != []
    ensures AllRows(qs, perRow) == [HeaderRow(Batch(qs, perRow), perRow)] + AllRows(qs, perRow)[1..]
  {
    hide MinOptions, MaxOptions, HighCount, CommonRows, ExtraRows, TailRows, Batch, HeaderRow;
    var main := MainRows(qs, perRow);
    assert main[0] == HeaderRow(Batch(qs, perRow), perRow);
    assert AllRows(qs, perRow)[0] == main[0];
  }

  lemma {:induction false} FirstHeader(qs: seq<Question>, perRow: nat, j: nat)
    requires perRow > 0 && qs != [] && 1 <= j <= |Batch(qs, perRow)|
    ensures Below(AllRows(qs, perRow), j) == []
  {
    hide *;
    StartsWithHeader(qs, perRow);
    var hdr, rest := HeaderRow(Batch(qs, perRow), perRow), AllRows(qs, perRow)[1..];
    BatchSplit(qs, perRow);
    HeaderRowShape(Batch(qs, perRow), perRow);
    ShowsAt(hdr, Batch(qs, perRow), j);
    BelowCons(hdr, rest, j);
  }

  lemma {:induction false} ShowsAt(row: Row, qs: seq<Question>, j: nat)
    requires Shows(row, qs) && 1 <= j <= |qs|
    ensures j < |row| && row[j].Header?
  {
    assert row[j - 1 + 1] == Header(qs[j - 1].qno);
  }

  lemma {:induction false} BlankColumn(batch: seq<Question>, n: nat, perRow: nat, j: nat)
    requires |batch| < j <= perRow
    ensures Below([HeaderRow(batch, perRow)] + (CommonRows(|batch|, n, perRow) + []), j) == []
  {
    var rows := [HeaderRow(batch, perRow)] + (CommonRows(|batch|, n, perRow) + []);
    forall k | 0 <= k < |rows| ensures j < |rows[k]| && rows[k][j] == Blank {}
    BelowColumn(rows, [], j, 0, 0);
    assert rows + [] == rows;
  }

  lemma {:induction false} PackableLeadsClean(qs: seq<Question>, perRow: nat)
    requires perRow > 0 && Packable(qs, perRow)
    ensures LeadsClean(qs, perRow)
  {
    hide MinOptions, MaxOptions;
  }

  /** Reading the card gives every question all of its options, each exactly once and in its own column, if and only
      if every batch along the cursor's way is uniform or packs well. */
  lemma {:induction false} CardReadsBackExactly(qs: seq<Question>, perRow: nat)
    requires perRow > 0
    ensures ReadCard(Pack(qs, perRow), perRow) == Expected(qs) <==> Packable(qs, perRow)
  {
    CardRowsOfPack(qs, perRow);
    RowsReadBackExactly(qs, perRow);
  }

  lemma {:induction false} RowsReadBackExactly(qs: seq<Question>, perRow: nat)
    requires perRow > 0
    ensures Read(AllRows(qs, perRow)) == Expected(qs) <==> Packable(qs, perRow)
    decreases |qs|
  {
    if qs == [] {
      assert Read(AllRows(qs, perRow)) == [];
    } else {
      hide AllRows, Read, Expected, Remaining;
      BatchSplit(qs, perRow);
      RowsReadBackExactly(Remaining(qs, perRow), perRow);
      ReadBackStep(qs, perRow);
    }
  }

  lemma {:induction false} ReadBackStep(qs: seq<Question>, perRow: nat)
    requires perRow > 0 && qs != []
    requires var rest := Remaining(qs, perRow); Read(AllRows(rest, perRow)) == Expected(rest) <==> Packable(rest, perRow)
    ensures Read(AllRows(qs, perRow)) == Expected(qs)
            <==> (MinOptions(Batch(qs, perRow)) == MaxOptions(Batch(qs, perRow))
                  || PacksWell(Batch(qs, perRow), Borrowed(qs, perRow), perRow))
                 && Packable(Remaining(qs, perRow), perRow)
  {
    hide *;
    BatchSplit(qs, perRow);
    var batch, next, rest := Batch(qs, perRow), Borrowed(qs, perRow), Remaining(qs, perRow);
    var a, b := ReadFirstBatch(qs, perRow);
    var c := Read(AllRows(rest, perRow));
    ExpectedSplits(a, batch, b, next, c, rest);
    if Packable(rest, perRow) {
      PackableLeadsClean(rest, perRow);
      ShownAsExpected(qs, perRow);
    }
  }

  lemma {:induction false} ExpectedSplits(a: seq<Record>, p: seq<Question>, b: seq<Record>, q: seq<Question>,
                                          c: seq<Record>, r: seq<Question>)
    requires RecordsOf(a, p) && RecordsOf(b, q)
    ensures a + (b + c) == Expected(p + q + r) <==> a == Expected(p) && b == Expected(q) && c == Expected(r)
  {
    hide Range;
    var e := Expected(p + q + r);
    assert e == Expected(p) + (Expected(q) + Expected(r));
    if a + (b + c) == e {
      assert a == e[..|a|] && b + c == e[|a|..];
      assert b == e[|a|..][..|b|] && c == e[|a|..][|b|..];
    }
  }

  // ---------- When no question loses an option ----------

  /** The questions with the fewest options come first. */
  predicate ShortsFirst(batch: seq<Question>)
    requires batch != []
  {
    forall i, j :: 0 <= i < j < |batch| && batch[j].options == MinOptions(batch) ==> batch[i].options == MinOptions(batch)
  }

  lemma {:induction false} TallLast(qs: seq<Question>, low: nat, j: nat)
    requires j < |qs| && forall a, b :: 0 <= a < b < |qs| && qs[b].options <= low ==> qs[a].options <= low
    ensures qs[j].options > low <==> j >= |qs| - HighCount(qs, low)
  {
    var rest := qs[1..];
    if j > 0 {
      assert forall k :: 0 <= k < |rest| ==> rest[k] == qs[k + 1];
      TallLast(rest, low, j - 1);
    } else if qs[0].options > low {
      forall q | q in rest ensures q.options > low {
        var k :| 0 <= k < |rest| && rest[k] == q;
        assert qs[k + 1] == q;
      }
      AllHigh(rest, low);
    }
  }

  /** With m short questions in front the tall ones are at most the others, and if as many, then exactly those. */
  lemma {:induction false} ShortFront(qs: seq<Question>, low: nat, m: nat)
    requires m <= |qs| && forall j :: 0 <= j < m ==> qs[j].options <= low
    ensures HighCount(qs, low) <= |qs| - m
    ensures HighCount(qs, low) == |qs| - m ==> forall j :: m <= j < |qs| ==> qs[j].options > low
  {
    if m > 0 {
      var rest := qs[1..];
      assert forall k :: 0 <= k < |rest| ==> rest[k] == qs[k + 1];
      ShortFront(rest, low, m - 1);
      assert forall j :: m <= j < |qs| ==> qs[j] == rest[j - 1];
    } else {
      forall j | 0 <= j < |qs| && qs[j].options <= low ensures HighCount(qs, low) < |qs| { HighCountPartial(qs, low, j); }
    }
  }

  lemma {:induction false} ShortInFront(batch: seq<Question>, perRow: nat)
    requires batch != [] && |batch| <= perRow && MinOptions(batch) < MaxOptions(batch)
    ensures (forall j :: 0 <= j < |batch| ==> batch[j].options <= Shown(batch, perRow, j))
            <==> forall j :: 0 <= j < |batch| && j < perRow - HighCount(batch, MinOptions(batch)) ==>
                   batch[j].options <= MinOptions(batch)
  {
    var low, top := MinOptions(batch), MaxOptions(batch);
    hide HighCount;
    forall j | 0 <= j < |batch|
      ensures batch[j].options <= top
      ensures Shown(batch, perRow, j) == if j < perRow - HighCount(batch, low) then low else top
    {
      assert batch[j] in batch;
    }
  }

  /** The first so many questions are short exactly when the batch is full and its short questions come first. */
  lemma {:induction false} ShortsInPlace(batch: seq<Question>, low: nat, perRow: nat)
    requires |batch| <= perRow && HighCount(batch, low) > 0
    ensures (forall j :: 0 <= j < |batch| && j < perRow - HighCount(batch, low) ==> batch[j].options <= low)
            <==> |batch| == perRow
                 && forall i, j :: 0 <= i < j < |batch| && batch[j].options <= low ==> batch[i].options <= low
  {
    hide HighCount;
    var places := perRow - HighCount(batch, low);
    if forall j :: 0 <= j < |batch| && j < places ==> batch[j].options <= low {
      ShortFront(batch, low, if places <= |batch| then places else |batch|);
    }
    if |batch| == perRow && forall i, j :: 0 <= i < j < |batch| && batch[j].options <= low ==> batch[i].options <= low {
      forall j | 0 <= j < |batch| && j < places ensures batch[j].options <= low { TallLast(batch, low, j); }
    }
  }

  lemma {:induction false} ShortsFirstMeans(batch: seq<Question>)
    requires batch != []
    ensures ShortsFirst(batch)
            <==> forall i, j :: 0 <= i < j < |batch| && batch[j].options <= MinOptions(batch) ==>
                   batch[i].options <= MinOptions(batch)
  {
    var low := MinOptions(batch);
    forall j | 0 <= j < |batch| ensures batch[j].options <= low <==> batch[j].options == low { assert batch[j] in batch; }
    hide MinOptions;
  }

  /** In a batch of different counts no column lacks an option of its question exactly when the batch is full and its
      shortest questions come first. */
  lemma {:induction false} BatchLosesNothing(batch: seq<Question>, perRow: nat)
    requires batch != [] && |batch| <= perRow && MinOptions(batch) < MaxOptions(batch)
    ensures (forall j :: 0 <= j < |batch| ==> batch[j].options <= Shown(batch, perRow, j))
            <==> |batch| == perRow && ShortsFirst(batch)
  {
    hide HighCount, MinOptions, MaxOptions, Shown, ShortsFirst;
    var i :| 0 <= i < |batch| && batch[i].options == MaxOptions(batch);
    ShortInFront(batch, perRow);
    HighCountPositive(batch, MinOptions(batch), i);
    ShortsInPlace(batch, MinOptions(batch), perRow);
    ShortsFirstMeans(batch);
  }

  /** Every question has a record, with all of its options before anything else. */
  ghost predicate Complete(records: seq<Record>, qs: seq<Question>) {
    RecordsOf(records, qs) && forall i :: 0 <= i < |qs| ==> Range(0, qs[i].options) <= records[i].bubbles
  }

  /** Every batch along the cursor's way is uniform, or full with its shortest questions first, and borrows no question
      longer than the first borrowed. */
  predicate Lossless(qs: seq<Question>, perRow: nat)
    requires perRow > 0
    decreases |qs|
  {
    qs == []
    || (var batch, next := Batch(qs, perRow), Borrowed(qs, perRow);
        && (MinOptions(batch) == MaxOptions(batch) || (|batch| == perRow && ShortsFirst(batch)))
        && (forall q :: q in next ==> q.options <= next[0].options)
        && (BatchSplit(qs, perRow); Lossless(Remaining(qs, perRow), perRow)))
  }

  lemma {:induction false} RangePrefix(a: nat, b: nat)
    ensures Range(0, a) <= Range(0, b) <==> a <= b
  {
    assert |Range(0, a)| == a && |Range(0, b)| == b;
  }

  lemma {:induction false} CompleteMeans(batch: seq<Question>, perRow: nat)
    requires batch != []
    ensures Complete(ShownBatch(batch, perRow), batch)
            <==> forall j :: 0 <= j < |batch| ==> batch[j].options <= Shown(batch, perRow, j)
  {
    hide Shown, Range;
    var a := ShownBatch(batch, perRow);
    forall j | 0 <= j < |batch|
      ensures Range(0, batch[j].options) <= a[j].bubbles <==> batch[j].options <= Shown(batch, perRow, j)
    {
      RangePrefix(batch[j].options, Shown(batch, perRow, j));
    }
  }

  lemma {:induction false} UniformShows(batch: seq<Question>, perRow: nat, j: nat)
    requires batch != [] && MinOptions(batch) == MaxOptions(batch) && j < |batch|
    ensures batch[j].options <= Shown(batch, perRow, j)
  {
    assert batch[j] in batch;
  }

  lemma {:induction false} MinBelowMax(batch: seq<Question>)
    requires batch != []
    ensures MinOptions(batch) <= MaxOptions(batch)
  {
    assert batch[0] in batch;
  }

  lemma {:induction false} BatchComplete(batch: seq<Question>, perRow: nat)
    requires batch != [] && |batch| <= perRow
    ensures Complete(ShownBatch(batch, perRow), batch)
            <==> MinOptions(batch) == MaxOptions(batch) || (|batch| == perRow && ShortsFirst(batch))
  {
    hide Complete, Shown, ShownBatch, MinOptions, MaxOptions, ShortsFirst;
    CompleteMeans(batch, perRow);
    MinBelowMax(batch);
    if MinOptions(batch) == MaxOptions(batch) {
      forall j | 0 <= j < |batch| ensures batch[j].options <= Shown(batch, perRow, j) { UniformShows(batch, perRow, j); }
    } else {
      BatchLosesNothing(batch, perRow);
    }
  }

  lemma {:induction false} BorrowedComplete(next: seq<Question>)
    ensures Complete(ShownBorrowed(next), next) <==> forall q :: q in next ==> q.options <= next[0].options
  {
    forall j | 0 <= j < |next|
      ensures Range(0, next[j].options) <= ShownBorrowed(next)[j].bubbles <==> next[j].options <= next[0].options
    {
      RangePrefix(next[j].options, Min(next[j].options, next[0].options));
    }
  }

  lemma {:induction false} CompleteParts(a: seq<Record>, p: seq<Question>, b: seq<Record>, q: seq<Question>)
    requires |a| == |p|
    ensures Complete(a + b, p + q) <==> Complete(a, p) && Complete(b, q)
  {
    hide Range;
    if Complete(a + b, p + q) {
      forall i | 0 <= i < |a| ensures a[i].qno == p[i].qno && Range(0, p[i].options) <= a[i].bubbles {
        assert (a + b)[i] == a[i] && (p + q)[i] == p[i];
      }
      forall i | 0 <= i < |b| ensures b[i].qno == q[i].qno && Range(0, q[i].options) <= b[i].bubbles {
        assert (a + b)[|a| + i] == b[i] && (p + q)[|a| + i] == q[i];
      }
    }
  }

  lemma {:induction false} LosslessLeadsClean(qs: seq<Question>, perRow: nat)
    requires perRow > 0 && Lossless(qs, perRow)
    ensures LeadsClean(qs, perRow)
  {
    hide MinOptions, MaxOptions;
  }

  lemma {:induction false} CompleteStep(qs: seq<Question>, perRow: nat)
    requires perRow > 0 && qs != []
    requires var rest := Remaining(qs, perRow); Complete(Read(AllRows(rest, perRow)), rest) <==> Lossless(rest, perRow)
    ensures var batch, next, rest := Batch(qs, perRow), Borrowed(qs, perRow), Remaining(qs, perRow);
      Complete(Read(AllRows(qs, perRow)), qs)
      <==> (MinOptions(batch) == MaxOptions(batch) || (|batch| == perRow && ShortsFirst(batch)))
           && (forall q :: q in next ==> q.options <= next[0].options) && Lossless(rest, perRow)
  {
    hide *;
    BatchSplit(qs, perRow);
    var batch, next, rest := Batch(qs, perRow), Borrowed(qs, perRow), Remaining(qs, perRow);
    var a, b := ReadFirstBatch(qs, perRow);
    var c := Read(AllRows(rest, perRow));
    RecordCount(a, batch);
    RecordCount(b, next);
    assert qs == batch + (next + rest);
    CompleteParts(a, batch, b + c, next + rest);
    CompleteParts(b, next, c, rest);
    if Lossless(rest, perRow) {
      LosslessLeadsClean(rest, perRow);
      BatchComplete(batch, perRow);
      BorrowedComplete(next);
    }
  }

  lemma {:induction false} RowsLoseNothing(qs: seq<Question>, perRow: nat)
    requires perRow > 0
    ensures Complete(Read(AllRows(qs, perRow)), qs) <==> Lossless(qs, perRow)
    decreases |qs|
  {
    if qs == [] {
      assert Read(AllRows(qs, perRow)) == [];
    } else {
      hide AllRows, Read, Complete, Remaining, ShortsFirst;
      BatchSplit(qs, perRow);
      RowsLoseNothing(Remaining(qs, perRow), perRow);
      CompleteStep(qs, perRow);
    }
  }

  /** For any questions: read under its header every question has all of its options, before anything else that may have
      come there, if and only if every batch is uniform, or full with its shortest questions first, and borrows no
      question longer than the first borrowed. */
  lemma {:induction false} CardLosesNothing(qs: seq<Question>, perRow: nat)
    requires perRow > 0
    ensures Complete(ReadCard(Pack(qs, perRow), perRow), qs) <==> Lossless(qs, perRow)
  {
    CardRowsOfPack(qs, perRow);
    RowsLoseNothing(qs, perRow);
  }

  // ---------- Cards that go wrong ----------

  lemma {:induction false} UnsortedBatch(qs: seq<Question>)
    requires qs == [Question(1, 5), Question(2, 4)]
    ensures Batch(qs, 2) == qs && MinOptions(qs) == 4 && MaxOptions(qs) == 5 && HighCount(qs, 4) == 1
    ensures Borrowed(qs, 2) == [] && Remaining(qs, 2) == []
  {
    assert qs[1..] == [Question(2, 4)] && HighCount([Question(2, 4)], 4) == 0;
    assert qs[0] in qs && qs[1] in qs;
    assert MinOptions(qs) == 4 && MaxOptions(qs) == 5;
  }

  lemma {:induction false} UnsortedShown(qs: seq<Question>)
    requires qs == [Question(1, 5), Question(2, 4)]
    ensures EndsClean(qs, 2) && ShownCard(qs, 2) == [Record(1, Range(0, 4)), Record(2, Range(0, 5))]
  {
    UnsortedBatch(qs);
    hide Batch, MinOptions, MaxOptions, HighCount, Borrowed, Remaining, Range;
    assert Shown(qs, 2, 0) == 4 && Shown(qs, 2, 1) == 5;
    assert ShownBatch(qs, 2) == [Record(1, Range(0, 4)), Record(2, Range(0, 5))];
    assert ShownBorrowed([]) == [] && ShownCard([], 2) == [];
  }

  /** A question of five options before one of four: the fifth bubble of the first stands under the header of the second. */
  lemma {:induction false} UnsortedBatchMisreads()
    ensures var qs := [Question(1, 5), Question(2, 4)];
      ReadCard(Pack(qs, 2), 2) == [Record(1, [0, 1, 2, 3]), Record(2, [0, 1, 2, 3, 4])] != Expected(qs)
  {
    var qs := [Question(1, 5), Question(2, 4)];
    assert Range(0, 4) == [0, 1, 2, 3] && Range(0, 5) == [0, 1, 2, 3, 4];
    assert Expected(qs)[0].bubbles == Range(0, 5);
    hide ReadCard, Pack, Expected, Range, ShownCard, EndsClean;
    UnsortedShown(qs);
    CardShowsCounts(qs, 2);
  }

  /** And so the first of them loses its fifth option. */
  lemma {:induction false} UnsortedBatchLoses()
    ensures var qs := [Question(1, 5), Question(2, 4)]; !Complete(ReadCard(Pack(qs, 2), 2), qs)
  {
    var qs := [Question(1, 5), Question(2, 4)];
    hide ReadCard, Pack, Complete;
    UnsortedBatch(qs);
    assert qs[0].options == 5 && qs[1].options == 4;
    CardLosesNothing(qs, 2);
  }

  lemma {:induction false} AfterUniform(qs: seq<Question>, perRow: nat, n: nat)
    requires 0 < perRow <= |qs| && forall j :: 0 <= j < perRow ==> qs[j].options == n
    ensures Remaining(qs, perRow) == qs[perRow..]
  {
    hide MinOptions, MaxOptions, HighCount;
    SameOptions(Batch(qs, perRow), n);
  }

  lemma {:induction false} SameOptions(batch: seq<Question>, n: nat)
    requires batch != [] && forall j :: 0 <= j < |batch| ==> batch[j].options == n
    ensures MinOptions(batch) == MaxOptions(batch) == n
  {
    if |batch| > 1 { SameOptions(batch[1..], n); }
  }

  lemma {:induction false} ShortAndMixedBatch(qs: seq<Question>)
    requires qs == [Question(4, 4), Question(5, 5)]
    ensures !LeadsClean(qs, 3)
  {
    assert Batch(qs, 3) == qs && qs[0] in qs && qs[1] in qs && qs[0].options == 4 && qs[1].options == 5;
    hide MinOptions, MaxOptions;
  }

  /** Four questions of four options and one of five, three to a row: the short mixed batch at the end spills a bubble
      under a header above it. */
  lemma {:induction false} ShortBatchSpills()
    ensures var qs := [Question(1, 4), Question(2, 4), Question(3, 4), Question(4, 4), Question(5, 5)];
      ReadCard(Pack(qs, 3), 3) != ShownCard(qs, 3)
  {
    hide *;
    var qs := [Question(1, 4), Question(2, 4), Question(3, 4), Question(4, 4), Question(5, 5)];
    assert qs[3..] == [Question(4, 4), Question(5, 5)];
    AfterUniform(qs, 3, 4);
    ShortAndMixedBatch(qs[3..]);
    EndsCleanMeans(qs, 3);
    CardShowsCounts(qs, 3);
  }

  lemma {:induction false} EndsCleanMeans(qs: seq<Question>, perRow: nat)
    requires perRow > 0 && qs != []
    ensures EndsClean(qs, perRow) ==> LeadsClean(Remaining(qs, perRow), perRow)
  {
  }
}
