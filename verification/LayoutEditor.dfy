/** The layout as the editor holds it: region objects in columns, changed in place (see CardLayout for their values). */
module LayoutEditor {
  import opened Wrappers
  import opened CardLayout
  import opened LayoutRuns

  class Region {
    const id: string
    const kind: Kind
    const score: int
    var qno: int
    var height: real

    constructor (s: Slot)
      ensures View() == s
    {
      id, kind, score, qno, height := s.id, s.kind, s.score, s.qno, s.height;
    }

    function View(): Slot
      reads this
    {
      Slot(id, kind, score, qno, height)
    }
  }

  ghost function ColumnView(col: seq<Region>): seq<Slot>
    reads col
  {
    seq(|col|, i requires 0 <= i < |col| reads col => col[i].View())
  }

  lemma {:induction false} NumberColumnAt(col: seq<Slot>, from: int, i: nat)
    requires i < |col|
    ensures |NumberColumn(col, from)| == |col|
    ensures NumberColumn(col, from)[i] == if Editable(col[i]) then col[i].(qno := from + Count(col[..i])) else col[i]
  {
  }

  /** Numbers the editable regions of one column from `from`, and returns the next number. */
  method NumberRegions(col: seq<Region>, from: int) returns (qno: int)
    requires forall i, j :: 0 <= i < j < |col| ==> col[i] != col[j]
    modifies (set r | r in col)`qno
    ensures ColumnView(col) == NumberColumn(old(ColumnView(col)), from)
    ensures qno == from + Count(old(ColumnView(col)))
  {
    assert Count([]) == 0;
    hide Count, NumberColumn;
    ghost var slots := ColumnView(col);
    assert slots[..0] == [];
    ghost var target := NumberColumn(slots, from);
    qno := from;
    for i := 0 to |col|
      invariant qno == from + Count(slots[..i])
      invariant forall j :: 0 <= j < |col| ==> col[j].qno == if j < i then target[j].qno else slots[j].qno
    {
      CountPrefix(slots, i);
      NumberColumnAt(slots, from, i);
      assert target[i] == if Editable(slots[i]) then slots[i].(qno := qno) else slots[i];
      if col[i].kind == Essay || col[i].kind == Fill {
        col[i].qno := qno;
        qno := qno + 1;
      }
    }
    assert slots[..|col|] == slots;
    forall j | 0 <= j < |col| ensures col[j].View() == target[j] { NumberColumnAt(slots, from, j); }
  }

  function AllRegions(columns: seq<seq<Region>>): set<Region> {
    set col, r | col in columns && r in col :: r
  }

  /** No region object stands in two places. */
  ghost predicate Apart(columns: seq<seq<Region>>) {
    && (forall c, i, j :: 0 <= c < |columns| && 0 <= i < j < |columns[c]| ==> columns[c][i] != columns[c][j])
    && (forall c, d :: 0 <= c < d < |columns| ==> forall r :: r in columns[c] ==> r !in columns[d])
  }

  ghost function SheetView(columns: seq<seq<Region>>): Sheet
    reads AllRegions(columns)
  {
    seq(|columns|, c requires 0 <= c < |columns| reads AllRegions(columns) =>
      (ColumnRegions(columns, c); ColumnView(columns[c])))
  }

  lemma {:induction false} ColumnRegions(columns: seq<seq<Region>>, c: nat)
    requires c < |columns|
    ensures forall r :: r in columns[c] ==> r in AllRegions(columns)
  {
  }

  /** The sheet with its first n columns numbered. */
  ghost function NumberedTo(sheet: Sheet, start: int, n: nat): Sheet
    requires n <= |sheet|
  {
    seq(|sheet|, c requires 0 <= c < |sheet| =>
      if c < n then NumberColumn(sheet[c], start + CountAll(sheet[..c])) else sheet[c])
  }

  lemma {:induction false} NumberedStep(sheet: Sheet, start: int, n: nat)
    requires n < |sheet|
    ensures |NumberedTo(sheet, start, n)| == |sheet| && NumberedTo(sheet, start, n)[n] == sheet[n]
    ensures NumberedTo(sheet, start, n)[n := NumberColumn(sheet[n], start + CountAll(sheet[..n]))]
            == NumberedTo(sheet, start, n + 1)
  {
  }

  lemma {:induction false} NumberedEnds(sheet: Sheet, start: int)
    ensures NumberedTo(sheet, start, 0) == sheet && CountAll(sheet[..0]) == 0
    ensures NumberedTo(sheet, start, |sheet|) == NumberFrom(sheet, start)
  {
  }

  /** Numbers the regions of all columns from `start`. */
  method NumberAll(columns: seq<seq<Region>>, start: int)
    requires Apart(columns)
    modifies AllRegions(columns)`qno
    ensures SheetView(columns) == NumberFrom(old(SheetView(columns)), start)
  {
    ghost var sheet := SheetView(columns);
    hide NumberFrom, NumberColumn, NumberedTo, Count, CountAll, Apart, SheetView, AllRegions;
    NumberedEnds(sheet, start);
    SheetSize(columns);
    var qno := start;
    for c := 0 to |columns|
      invariant qno == start + CountAll(sheet[..c])
      invariant SheetView(columns) == NumberedTo(sheet, start, c)
    {
      CountAllPrefix(sheet, c);
      NumberedStep(sheet, start, c);
      qno := NumberOne(columns, c, qno);
    }
  }

  lemma {:induction false} SheetSize(columns: seq<seq<Region>>)
    ensures |SheetView(columns)| == |columns|
  {
  }

  method NumberOne(columns: seq<seq<Region>>, c: nat, from: int) returns (qno: int)
    requires Apart(columns) && c < |columns| == |SheetView(columns)|
    modifies AllRegions(columns)`qno
    ensures SheetView(columns) == old(SheetView(columns))[c := NumberColumn(old(SheetView(columns))[c], from)]
    ensures qno == from + Count(old(SheetView(columns))[c])
  {
    hide NumberColumn, Count, ColumnView, AllRegions;
    ColumnRegions(columns, c);
    qno := NumberRegions(columns[c], from);
    forall d | 0 <= d < |columns| && d != c ensures ColumnView(columns[d]) == old(ColumnView(columns[d])) {}
  }

  method LeastNumber(columns: seq<seq<Region>>, ghost sheet: Sheet) returns (startQno: Option<int>)
    requires |sheet| == |columns|
    requires forall d :: 0 <= d < |columns| ==> ColumnView(columns[d]) == sheet[d]
    ensures startQno == LeastQnoAll(sheet)
  {
    startQno := None;
    assert LeastQnoAll([]) == None;
    assert forall least :: LeastQno([], least) == least;
    hide Apart, AllRegions;
    for c := 0 to |columns|
      invariant startQno == LeastQnoAll(sheet[..c])
    {
      assert ColumnView(columns[c]) == sheet[c] && sheet[c][..0] == [];
      for i := 0 to |columns[c]|
        invariant startQno == LeastQno(sheet[c][..i], LeastQnoAll(sheet[..c]))
      {
        var r := columns[c][i];
        assert r.View() == sheet[c][i];
        assert sheet[c][..i + 1][..i] == sheet[c][..i];
        if (r.kind == Essay || r.kind == Fill) && r.qno > 0 && (startQno.None? || r.qno < startQno.value) {
          startQno := Some(r.qno);
        }
      }
      assert sheet[c][..|columns[c]|] == sheet[c];
      assert sheet[..c + 1][..c] == sheet[..c];
    }
    assert sheet[..|columns|] == sheet;
  }

  /** Numbers the questions in reading order from the least number in use. */
  method RenumberAll(columns: seq<seq<Region>>)
    requires Apart(columns)
    modifies AllRegions(columns)`qno
    ensures SheetView(columns) == Renumber(old(SheetView(columns)))
  {
    ghost var sheet := SheetView(columns);
    var startQno := LeastNumber(columns, sheet);
    hide NumberFrom, LeastQnoAll, Apart, SheetView, AllRegions;
    NumberAll(columns, if startQno.None? then 1 else startQno.value);
  }

  // ---------- Splicing columns of region objects ----------

  lemma {:induction false} SpliceRegions(columns: seq<seq<Region>>, c: nat, i: nat, drop: nat, insert: seq<Region>)
    requires c < |columns| && i + drop <= |columns[c]|
    ensures AllRegions(columns[c := columns[c][..i] + insert + columns[c][i + drop..]])
            <= AllRegions(columns) + set r | r in insert
  {
    var col := columns[c][..i] + insert + columns[c][i + drop..];
    forall r | r in col ensures r in columns[c] || r in insert {}
    assert columns[c] in columns;
  }

  lemma {:induction false} SpliceApart(columns: seq<seq<Region>>, c: nat, i: nat, drop: nat, insert: seq<Region>)
    requires Apart(columns) && c < |columns| && i + drop <= |columns[c]|
    requires forall k :: 0 <= k < |insert| ==> insert[k] !in AllRegions(columns)
    requires forall k, l :: 0 <= k < l < |insert| ==> insert[k] != insert[l]
    ensures Apart(columns[c := columns[c][..i] + insert + columns[c][i + drop..]])
    ensures AllRegions(columns[c := columns[c][..i] + insert + columns[c][i + drop..]])
            <= AllRegions(columns) + set r | r in insert
  {
    SpliceRegions(columns, c, i, drop, insert);
    var col := columns[c][..i] + insert + columns[c][i + drop..];
    assert forall k :: 0 <= k < |col| ==>
      col[k] == if k < i then columns[c][k] else if k < i + |insert| then insert[k - i]
                else columns[c][k - |insert| + drop];
    forall d | 0 <= d < |columns| { ColumnRegions(columns, d); }
    hide AllRegions;
    forall d, r | 0 <= d < |columns| && d != c && r in col ensures r !in columns[d] {}
  }

  lemma {:induction false} SpliceView(columns: seq<seq<Region>>, c: nat, i: nat, drop: nat, insert: seq<Region>)
    requires c < |columns| && i + drop <= |columns[c]|
    ensures |SheetView(columns)| == |columns| && |SheetView(columns)[c]| == |columns[c]|
    ensures SheetView(columns[c := columns[c][..i] + insert + columns[c][i + drop..]])
            == SheetView(columns)[c := Splice(SheetView(columns)[c], i, drop, ColumnView(insert))]
  {
    var col := columns[c][..i] + insert + columns[c][i + drop..];
    assert ColumnView(col) == Splice(ColumnView(columns[c]), i, drop, ColumnView(insert));
  }

  lemma {:induction false} ViewAt(columns: seq<seq<Region>>, c: nat, i: nat)
    requires c < |columns| && i < |columns[c]|
    ensures |SheetView(columns)| == |columns| && |SheetView(columns)[c]| == |columns[c]|
    ensures SheetView(columns)[c][i] == columns[c][i].View()
    ensures columns[c][i] in AllRegions(columns)
  {
    ColumnRegions(columns, c);
  }

  method SetHeight(region: Region, h: real, ghost columns: seq<seq<Region>>, ghost c: nat, ghost i: nat)
    requires Apart(columns) && c < |columns| && i < |columns[c]| && columns[c][i] == region
    modifies region`height
    ensures |SheetView(columns)| == |columns| && |old(SheetView(columns))| == |columns|
    ensures |old(SheetView(columns))[c]| == |columns[c]|
    ensures var was := old(SheetView(columns));
      SheetView(columns) == was[c := was[c][i := was[c][i].(height := h)]]
  {
    ghost var was := SheetView(columns);
    region.height := h;
    forall d | 0 <= d < |columns| && d != c ensures ColumnView(columns[d]) == was[d] {
      assert region !in columns[d];
    }
    assert ColumnView(columns[c]) == was[c][i := was[c][i].(height := h)];
  }

  /** Region objects for the given values, all of them new. */
  method NewColumn(col: seq<Slot>) returns (rs: seq<Region>)
    ensures ColumnView(rs) == col
    ensures forall r :: r in rs ==> fresh(r)
    ensures forall i, j :: 0 <= i < j < |rs| ==> rs[i] != rs[j]
  {
    rs := [];
    for i := 0 to |col|
      invariant |rs| == i && forall j :: 0 <= j < i ==> rs[j].View() == col[j]
      invariant forall r :: r in rs ==> fresh(r)
      invariant forall j, k :: 0 <= j < k < |rs| ==> rs[j] != rs[k]
    {
      var r := new Region(col[i]);
      assert r !in rs;
      rs := rs + [r];
    }
  }

  method NewColumns(sheet: Sheet) returns (columns: seq<seq<Region>>)
    ensures Apart(columns) && fresh(AllRegions(columns)) && SheetView(columns) == sheet
  {
    hide ColumnView;
    columns := [];
    for c := 0 to |sheet|
      invariant |columns| == c && forall d :: 0 <= d < c ==> ColumnView(columns[d]) == sheet[d]
      invariant forall d, r :: 0 <= d < c && r in columns[d] ==> fresh(r)
      invariant Apart(columns)
    {
      ghost var before := columns;
      label adding:
      var rs := NewColumn(sheet[c]);
      forall d | 0 <= d < c ensures ColumnView(columns[d]) == sheet[d] {
        assert forall r :: r in columns[d] ==> old@adding(allocated(r));
      }
      assert forall d, r :: 0 <= d < c && r in columns[d] ==> r !in rs;
      columns := columns + [rs];
    }
  }

  method NewRegion(s: Slot, ghost columns: seq<seq<Region>>) returns (r: Region)
    ensures fresh(r) && r.View() == s && r !in AllRegions(columns)
    ensures SheetView(columns) == old(SheetView(columns))
  {
    r := new Region(s);
  }

  class Layout {
    var columns: seq<seq<Region>>

    constructor (sheet: Sheet)
      ensures Valid() && View() == sheet && fresh(AllRegions(columns))
    {
      var cs := NewColumns(sheet);
      columns := cs;
    }

    ghost predicate Valid()
      reads this
    {
      Apart(columns)
    }

    ghost function View(): Sheet
      reads this, AllRegions(columns)
    {
      SheetView(columns)
    }

    /** Divides a region in two; the new lower half is a new essay question. */
    method SplitRegion(c: nat, i: nat, ratio: real, id: string)
      requires Valid() && c < |columns| && i < |columns[c]|
      modifies this, AllRegions(columns)
      ensures Valid() && fresh(AllRegions(columns) - old(AllRegions(columns)))
      ensures |old(View())| == old(|columns|) && |old(View())[c]| == old(|columns[c]|)
      ensures View() == Split(old(View()), c, i, ratio, id)
    {
      hide Apart, AllRegions, SheetView, Renumber, Splice;
      ViewAt(columns, c, i);
      ghost var was: Sheet := View();
      var region := columns[c][i];
      var original := region.View();
      SetHeight(region, UpperHalf(original, ratio).height, columns, c, i);
      assert original == was[c][i] && was[c][i].(height := UpperHalf(original, ratio).height) == UpperHalf(original, ratio);
      hide UpperHalf, LowerHalf;
      var lower := NewRegion(LowerHalf(original, ratio, id), columns);
      OneView(lower);
      SpliceView(columns, c, i + 1, 0, [lower]);
      SpliceApart(columns, c, i + 1, 0, [lower]);
      columns := columns[c := columns[c][..i + 1] + [lower] + columns[c][i + 1..]];
      SplitValues(was, c, i, UpperHalf(was[c][i], ratio), LowerHalf(was[c][i], ratio, id));
      RenumberAll(columns);
    }

    /** Joins a region and the one below it; the last region of a column stays as it is. */
    method MergeRegions(c: nat, i: nat)
      requires Valid() && c < |columns|
      modifies this, AllRegions(columns)
      ensures Valid() && AllRegions(columns) <= old(AllRegions(columns))
      ensures |old(View())| == old(|columns|)
      ensures View() == Merge(old(View()), c, i)
    {
      hide Apart, AllRegions, SheetView, Renumber, Splice;
      SizeOf(columns, c);
      if i + 1 >= |columns[c]| { return; }
      ViewAt(columns, c, i);
      ViewAt(columns, c, i + 1);
      ghost var was: Sheet := View();
      var upper, lower := columns[c][i], columns[c][i + 1];
      SetHeight(upper, upper.height + lower.height, columns, c, i);
      SpliceView(columns, c, i + 1, 1, []);
      SpliceApart(columns, c, i + 1, 1, []);
      columns := columns[c := columns[c][..i + 1] + [] + columns[c][i + 2..]];
      MergeValues(was, c, i, Joined(was[c][i], was[c][i + 1]));
      NoView();
      RenumberAll(columns);
    }

    /** Moves the divider below region i unless that would leave one of the two regions too low. */
    method ResizeDivider(c: nat, i: nat, delta: real)
      requires Valid() && c < |columns|
      modifies AllRegions(columns)`height
      ensures |old(View())| == |columns| && View() == Resize(old(View()), c, i, delta)
    {
      hide Apart, AllRegions, SheetView, Splice;
      SizeOf(columns, c);
      if i + 1 >= |columns[c]| { return; }
      ViewAt(columns, c, i);
      ViewAt(columns, c, i + 1);
      ghost var was: Sheet := View();
      var upper, lower := columns[c][i], columns[c][i + 1];
      var newUpper, newLower := upper.height + delta, lower.height - delta;
      if upper.kind != Fixed && lower.kind != Fixed && newUpper >= MIN_RATIO && newLower >= MIN_RATIO {
        SetHeight(upper, newUpper, columns, c, i);
        ViewAt(columns, c, i + 1);
        SetHeight(lower, newLower, columns, c, i + 1);
        ResizeValues(was, c, i, was[c][i].(height := newUpper), was[c][i + 1].(height := newLower));
      }
    }

    /** The real index of the k-th editable region of a column, or -1. */
    method EditableToRealIndex(c: nat, k: int) returns (r: int)
      requires c < |columns|
      ensures View() == old(View()) && |View()| == |columns| && r == EditableToReal(View()[c], k)
    {
      SizeOf(columns, c);
      ghost var col := View()[c];
      var count := -1;
      assert col[..0] == [];
      for i := 0 to |columns[c]|
        invariant count == Count(col[..i]) - 1
        invariant EditableToReal(col, k) == EditableFrom(col, k, i)
      {
        ViewAt(columns, c, i);
        CountPrefix(col, i);
        if columns[c][i].kind != Fixed {
          count := count + 1;
          if count == k { return i; }
        }
      }
      return -1;
    }

    /** One drag step of the handle below the k-th editable region. */
    method DragStep(c: nat, k: nat, delta: real)
      requires Valid() && c < |columns|
      modifies AllRegions(columns)`height
      ensures |old(View())| == |columns| && View() == Drag(old(View()), c, k, delta)
    {
      hide SheetView, Apart, AllRegions, Resize;
      var upper := EditableToRealIndex(c, k);
      var lower := EditableToRealIndex(c, k + 1);
      if upper < 0 || lower < 0 { return; }
      ResizeDivider(c, upper, delta);
    }

    /** Puts a question into a column from the menu of an empty one. */
    method AddToColumn(c: nat, id: string)
      requires Valid() && c < |columns|
      modifies this, AllRegions(columns)
      ensures Valid() && fresh(AllRegions(columns) - old(AllRegions(columns)))
      ensures |old(View())| == old(|columns|) && View() == AddHere(old(View()), c, id)
    {
      hide Apart, SheetView, Renumber, AllRegions;
      SizeOf(columns, c);
      PushRegion(c, Slot(id, Essay, 12, 0, 1.0));
      RenumberAll(columns);
    }

    method PushRegion(c: nat, s: Slot)
      requires Valid() && c < |columns|
      modifies this
      ensures Valid() && fresh(AllRegions(columns) - old(AllRegions(columns)))
      ensures |columns| == old(|columns|) == |View()| == |old(View())|
      ensures View() == old(View())[c := old(View())[c] + [s]]
    {
      hide Apart, SheetView, AllRegions;
      SizeOf(columns, c);
      ghost var was: Sheet := View();
      var n := |columns[c]|;
      var r := NewRegion(s, columns);
      OneView(r);
      SpliceView(columns, c, n, 0, [r]);
      SpliceApart(columns, c, n, 0, [r]);
      columns := columns[c := columns[c][..n] + [r] + columns[c][n..]];
      SizeOf(columns, c);
      assert Splice(was[c], n, 0, [s]) == was[c] + [s];
    }

    /** Index of the last editable region of a column, or -1. */
    method LastEditableIn(c: nat) returns (i: int)
      requires c < |columns|
      ensures View() == old(View()) && |View()| == |columns| && |View()[c]| == |columns[c]|
      ensures if Count(View()[c]) == 0 then i == -1 else i == LastEditable(View()[c])
    {
      SizeOf(columns, c);
      ghost var col := View()[c];
      i := |columns[c]| - 1;
      assert col[..|col|] == col;
      while i >= 0
        invariant -1 <= i < |col|
        invariant Count(col) == Count(col[..i + 1])
        invariant Count(col) > 0 ==> LastEditable(col) == LastEditable(col[..i + 1])
      {
        ViewAt(columns, c, i);
        CountPrefix(col, i);
        assert col[..i + 1][..i] == col[..i];
        if columns[c][i].kind != Fixed { return; }
        i := i - 1;
      }
    }

    /** The add-question button. */
    method AddQuestionButton(id: string)
      requires Valid()
      modifies this, AllRegions(columns)
      ensures Valid() && fresh(AllRegions(columns) - old(AllRegions(columns)))
      ensures View() == AddQuestion(old(View()), id)
    {
      hide Apart, SheetView, AllRegions, Renumber, Count, LastEditable;
      ghost var was: Sheet := View();
      SheetSize(columns);
      var c := |columns| - 1;
      while c >= 0
        invariant -1 <= c < |columns| && columns == old(columns) && View() == was
        invariant LastEditableColumn(was, |was|) == LastEditableColumn(was, c + 1)
      {
        var i := LastEditableIn(c);
        if i >= 0 {
          ViewAt(columns, c, i);
          var half := columns[c][i].height / 2.0;
          SetHeight(columns[c][i], half, columns, c, i);
          PushRegion(c, Slot(id, Essay, 12, 0, half));
          assert View() == was[c := was[c][i := was[c][i].(height := half)] + [Slot(id, Essay, 12, 0, half)]];
          RenumberAll(columns);
          return;
        }
        c := c - 1;
      }
      if |columns| > 0 {
        PushRegion(|columns| - 1, Slot(id, Essay, 10, 0, 1.0));
      }
      RenumberAll(columns);
    }

    /** Index of the first region of a column with the given id, or -1. */
    method FindIndex(c: nat, id: string) returns (i: int)
      requires c < |columns|
      ensures View() == old(View()) && |View()| == |columns| == |old(View())|
      ensures |View()[c]| == |columns[c]| && i == FindId(View()[c], id)
    {
      SizeOf(columns, c);
      ghost var col := View()[c];
      i := 0;
      while i < |columns[c]|
        invariant 0 <= i <= |columns[c]|
        invariant FindId(col, id) == if FindId(col[i..], id) < 0 then -1 else i + FindId(col[i..], id)
      {
        ViewAt(columns, c, i);
        if columns[c][i].id == id { return; }
        assert col[i..][1..] == col[i + 1..];
        i := i + 1;
      }
      i := -1;
    }

    /** Deletes the first editable region with the id, giving its height to the column's first remaining question. */
    method DeleteQuestion(id: string)
      requires Valid()
      modifies this, AllRegions(columns)
      ensures Valid() && AllRegions(columns) <= old(AllRegions(columns))
      ensures View() == Delete(old(View()), id)
    {
      hide Apart, SheetView, AllRegions, Renumber, FindId;
      ghost var was: Sheet := View();
      SheetSize(columns);
      for c := 0 to |columns|
        invariant columns == old(columns) && View() == was
        invariant ColumnOf(was, id) == c + ColumnOf(was[c..], id)
      {
        var i := FindIndex(c, id);
        assert was[c..][0] == was[c] && was[c..][1..] == was[c + 1..];
        if i >= 0 {
          ViewAt(columns, c, i);
          if columns[c][i].kind != Fixed {
            RemoveAt(c, i);
            RenumberAll(columns);
            return;
          }
        }
      }
    }

    method RemoveAt(c: nat, i: nat)
      requires Valid() && c < |columns| && i < |columns[c]|
      modifies this, AllRegions(columns)
      ensures Valid() && AllRegions(columns) <= old(AllRegions(columns))
      ensures |old(View())| == old(|columns|) && |old(View())[c]| == old(|columns[c]|)
      ensures View() == old(View())[c := Without(old(View())[c], i)]
    {
      hide Apart, SheetView, AllRegions;
      ViewAt(columns, c, i);
      ghost var was: Sheet := View();
      var removed := columns[c][i];
      SpliceView(columns, c, i, 1, []);
      SpliceApart(columns, c, i, 1, []);
      columns := columns[c := columns[c][..i] + [] + columns[c][i + 1..]];
      assert Splice(was[c], i, 1, []) == Drop(was[c], i);
      ghost var rest := Drop(was[c], i);
      SizeOf(columns, c);
      for k := 0 to |columns[c]|
        invariant columns == old(columns)[c := old(columns)[c][..i] + [] + old(columns)[c][i + 1..]]
        invariant View() == was[c := rest] && removed.View() == was[c][i]
        invariant forall j :: 0 <= j < k ==> !Editable(rest[j])
      {
        ViewAt(columns, c, k);
        if columns[c][k].kind != Fixed {
          SetHeight(columns[c][k], columns[c][k].height + removed.height, columns, c, k);
          return;
        }
      }
    }
  }

  // ---------- The same changes on values ----------

  lemma {:induction false} OneView(r: Region)
    ensures ColumnView([r]) == [r.View()]
  {
  }

  lemma {:induction false} NoView()
    ensures ColumnView([]) == []
  {
  }

  lemma {:induction false} SizeOf(columns: seq<seq<Region>>, c: nat)
    requires c < |columns|
    ensures |SheetView(columns)| == |columns| && |SheetView(columns)[c]| == |columns[c]|
  {
  }

  lemma {:induction false} SplitValues(sheet: Sheet, c: nat, i: nat, top: Slot, low: Slot)
    requires c < |sheet| && i < |sheet[c]|
    ensures var s := sheet[c := sheet[c][i := top]];
      s[c := Splice(s[c], i + 1, 0, [low])] == sheet[c := Splice(sheet[c], i, 1, [top, low])]
  {
    assert Splice(sheet[c][i := top], i + 1, 0, [low]) == Splice(sheet[c], i, 1, [top, low]);
  }

  lemma {:induction false} MergeValues(sheet: Sheet, c: nat, i: nat, joined: Slot)
    requires c < |sheet| && i + 1 < |sheet[c]|
    ensures var s := sheet[c := sheet[c][i := joined]];
      s[c := Splice(s[c], i + 1, 1, [])] == sheet[c := Splice(sheet[c], i, 2, [joined])]
  {
    assert Splice(sheet[c][i := joined], i + 1, 1, []) == Splice(sheet[c], i, 2, [joined]);
  }

  lemma {:induction false} ResizeValues(sheet: Sheet, c: nat, i: nat, upper: Slot, lower: Slot)
    requires c < |sheet| && i + 1 < |sheet[c]|
    ensures sheet[c := sheet[c][i := upper]][c := sheet[c][i := upper][i + 1 := lower]]
            == sheet[c := Splice(sheet[c], i, 2, [upper, lower])]
  {
    assert sheet[c][i := upper][i + 1 := lower] == Splice(sheet[c], i, 2, [upper, lower]);
  }
}
