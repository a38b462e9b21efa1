/** Texts of properly nested brackets and quotes, which the scanner of ObjectScanner sees as single characters. */
module NestedText {
  import opened Wrappers
  import opened ObjectScanner

  datatype Piece =
    | Plain(ch: char)
    | Quoted(quote: char, chars: seq<Quotable>)
    | Bracketed(open: char, inside: seq<Piece>, close: char)

  /** A character inside quotes, as such or behind a backslash. */
  datatype Quotable = Itself(ch: char) | Escaped(ch: char)

  /** The characters that open a bracket and those that close one. */
  datatype Brackets = Brackets(opens: string, closes: string)

  const ALL := Brackets("([{", ")]}")

  predicate Proper(br: Brackets, pieces: seq<Piece>) {
    forall i :: 0 <= i < |pieces| ==> ProperPiece(br, pieces[i])
  }

  predicate ProperPiece(br: Brackets, p: Piece) {
    match p
    case Plain(ch) => ch != '\'' && ch != '"' && ch !in br.opens && ch !in br.closes
    case Quoted(quote, chars) =>
      && (quote == '\'' || quote == '"')
      && forall i :: 0 <= i < |chars| && chars[i].Itself? ==> chars[i].ch != quote && chars[i].ch != '\\'
    case Bracketed(open, inside, close) =>
      && open != '\'' && open != '"' && open in br.opens
      && close != '\'' && close != '"' && close in br.closes && close !in br.opens
      && Proper(br, inside)
  }

  function Text(pieces: seq<Piece>): string {
    if pieces == [] then "" else TextOf(pieces[0]) + Text(pieces[1..])
  }

  function TextOf(p: Piece): string {
    match p
    case Plain(ch) => [ch]
    case Quoted(quote, chars) => [quote] + Spelled(chars) + [quote]
    case Bracketed(open, inside, close) => [open] + Text(inside) + [close]
  }

  function Spelled(chars: seq<Quotable>): string {
    if chars == [] then ""
    else (if chars[0].Escaped? then ['\\', chars[0].ch] else [chars[0].ch]) + Spelled(chars[1..])
  }

  function Scanned(br: Brackets, s: Scan, text: string): Scan { After(s, text, br.opens, br.closes) }

  /** Throughout the text the scan is inside a quote or at least as deep as d. */
  ghost predicate Deep(br: Brackets, s: Scan, text: string, d: int) {
    forall i :: 0 <= i <= |text| ==> Scanned(br, s, text[..i]).quote.Some? || Scanned(br, s, text[..i]).depth >= d
  }

  /** A state outside quotes at depth d. */
  function At(d: int): Scan { Scan(d, None, false) }

  function Inside(d: int, quote: char): Scan { Scan(d, Some(quote), false) }

  lemma {:induction false} ScannedConcat(br: Brackets, s: Scan, a: string, b: string)
    ensures Scanned(br, s, a + b) == Scanned(br, Scanned(br, s, a), b)
  {
    AfterConcat(s, a, b, br.opens, br.closes);
  }

  lemma {:induction false} ScannedOne(br: Brackets, s: Scan, ch: char)
    ensures Scanned(br, s, [ch]) == Step(s, ch, br.opens, br.closes) && Scanned(br, s, "") == s
  {
    assert [ch][..0] == "";
    assert After(s, "", br.opens, br.closes) == s;
  }

  lemma {:induction false} DeepConcat(br: Brackets, s: Scan, a: string, b: string, d: int)
    requires Deep(br, s, a, d) && Deep(br, Scanned(br, s, a), b, d)
    ensures Deep(br, s, a + b, d)
  {
    forall i | 0 <= i <= |a + b|
      ensures Scanned(br, s, (a + b)[..i]).quote.Some? || Scanned(br, s, (a + b)[..i]).depth >= d
    {
      if i <= |a| {
        assert (a + b)[..i] == a[..i];
      } else {
        assert (a + b)[..i] == a + b[..i - |a|];
        ScannedConcat(br, s, a, b[..i - |a|]);
      }
    }
  }

  lemma {:induction false} DeepOne(br: Brackets, s: Scan, ch: char, d: int)
    requires s.quote.Some? || s.depth >= d
    requires Step(s, ch, br.opens, br.closes).quote.Some? || Step(s, ch, br.opens, br.closes).depth >= d
    ensures Deep(br, s, [ch], d)
  {
    ScannedOne(br, s, ch);
    forall i | 0 <= i <= |[ch]| ensures Scanned(br, s, [ch][..i]).quote.Some? || Scanned(br, s, [ch][..i]).depth >= d {
      if i == 0 { assert [ch][..i] == ""; } else { assert [ch][..i] == [ch]; }
    }
  }

  lemma {:induction false} DeepNothing(br: Brackets, s: Scan, d: int)
    requires s.quote.Some? || s.depth >= d
    ensures Deep(br, s, "", d) && Scanned(br, s, "") == s
  {
    ScannedOne(br, s, 'a');
    assert ""[..0] == "";
  }

  /** Two texts, scanned one after the other. */
  lemma {:induction false} Then(br: Brackets, s: Scan, a: string, b: string, d: int, mid: Scan, end: Scan)
    requires Scanned(br, s, a) == mid && Deep(br, s, a, d) && Scanned(br, mid, b) == end && Deep(br, mid, b, d)
    ensures Scanned(br, s, a + b) == end && Deep(br, s, a + b, d)
  {
    hide Deep, Scanned;
    ScannedConcat(br, s, a, b);
    DeepConcat(br, s, a, b, d);
  }

  lemma {:induction false} OneStep(br: Brackets, s: Scan, ch: char, d: int, next: Scan)
    requires Step(s, ch, br.opens, br.closes) == next && (s.quote.Some? || s.depth >= d) && (next.quote.Some? || next.depth >= d)
    ensures Scanned(br, s, [ch]) == next && Deep(br, s, [ch], d)
  {
    ScannedOne(br, s, ch);
    DeepOne(br, s, ch, d);
  }

  lemma {:induction false} QuotableScan(br: Brackets, c: Quotable, d: int, q: char, e: int)
    requires c.Itself? ==> c.ch != q && c.ch != '\\'
    ensures var t := if c.Escaped? then ['\\', c.ch] else [c.ch];
      Scanned(br, Inside(d, q), t) == Inside(d, q) && Deep(br, Inside(d, q), t, e)
  {
    hide Scanned, Deep;
    if c.Escaped? {
      OneStep(br, Inside(d, q), '\\', e, Scan(d, Some(q), true));
      OneStep(br, Scan(d, Some(q), true), c.ch, e, Inside(d, q));
      Then(br, Inside(d, q), ['\\'], [c.ch], e, Scan(d, Some(q), true), Inside(d, q));
      assert ['\\'] + [c.ch] == ['\\', c.ch];
    } else {
      OneStep(br, Inside(d, q), c.ch, e, Inside(d, q));
    }
  }

  lemma {:induction false} SpelledScan(br: Brackets, chars: seq<Quotable>, d: int, q: char, e: int)
    requires forall i :: 0 <= i < |chars| && chars[i].Itself? ==> chars[i].ch != q && chars[i].ch != '\\'
    ensures Scanned(br, Inside(d, q), Spelled(chars)) == Inside(d, q) && Deep(br, Inside(d, q), Spelled(chars), e)
  {
    hide Scanned, Deep;
    if chars == [] {
      DeepNothing(br, Inside(d, q), e);
    } else {
      QuotableScan(br, chars[0], d, q, e);
      SpelledScan(br, chars[1..], d, q, e);
      Then(br, Inside(d, q), if chars[0].Escaped? then ['\\', chars[0].ch] else [chars[0].ch], Spelled(chars[1..]), e,
           Inside(d, q), Inside(d, q));
    }
  }

  /** A piece leaves the scan where it was, and its inner characters are in a quote or deeper than the piece. */
  lemma {:induction false} PieceScan(br: Brackets, p: Piece, d: int)
    requires ProperPiece(br, p)
    ensures Scanned(br, At(d), TextOf(p)) == At(d) && Deep(br, At(d), TextOf(p), d)
    decreases p
  {
    hide Scanned, Deep;
    match p
    case Plain(ch) => OneStep(br, At(d), ch, d, At(d));
    case Quoted(q, chars) =>
      OneStep(br, At(d), q, d, Inside(d, q));
      SpelledScan(br, chars, d, q, d);
      OneStep(br, Inside(d, q), q, d, At(d));
      Then(br, Inside(d, q), Spelled(chars), [q], d, Inside(d, q), At(d));
      Then(br, At(d), [q], Spelled(chars) + [q], d, Inside(d, q), At(d));
      assert [q] + (Spelled(chars) + [q]) == [q] + Spelled(chars) + [q];
    case Bracketed(open, inside, close) =>
      OneStep(br, At(d), open, d, At(d + 1));
      PiecesScan(br, inside, d + 1);
      DeepLess(br, At(d + 1), Text(inside), d + 1);
      OneStep(br, At(d + 1), close, d, At(d));
      Then(br, At(d + 1), Text(inside), [close], d, At(d + 1), At(d));
      Then(br, At(d), [open], Text(inside) + [close], d, At(d + 1), At(d));
      assert [open] + (Text(inside) + [close]) == [open] + Text(inside) + [close];
  }

  lemma {:induction false} DeepLess(br: Brackets, s: Scan, text: string, d: int)
    requires Deep(br, s, text, d)
    ensures Deep(br, s, text, d - 1)
  {
  }

  lemma {:induction false} PiecesScan(br: Brackets, pieces: seq<Piece>, d: int)
    requires Proper(br, pieces)
    ensures Scanned(br, At(d), Text(pieces)) == At(d) && Deep(br, At(d), Text(pieces), d)
    decreases pieces
  {
    hide Scanned, Deep, ProperPiece;
    if pieces == [] {
      DeepNothing(br, At(d), d);
    } else {
      PieceScan(br, pieces[0], d);
      assert Proper(br, pieces[1..]);
      PiecesScan(br, pieces[1..], d);
      Then(br, At(d), TextOf(pieces[0]), Text(pieces[1..]), d, At(d), At(d));
    }
  }

  /** Between its two ends a quoted or bracketed piece is never at the top. */
  lemma {:induction false} Enclosed(first: char, middle: string, s: Scan, i: nat)
    requires Scanned(ALL, START, [first]) == s && Deep(ALL, s, middle, 1) && 0 < i <= |middle| + 1
    ensures !AtTop(Scanned(ALL, START, ([first] + middle)[..i]))
  {
    assert ([first] + middle)[..i] == [first] + middle[..i - 1];
    ScannedConcat(ALL, START, [first], middle[..i - 1]);
  }

  /** A separator stands at the top of a piece only if it is the piece. */
  lemma {:induction false} PieceTop(p: Piece, sep: char)
    requires ProperPiece(ALL, p) && IsSeparator(sep)
    ensures NoTop(TextOf(p), sep) <==> p != Plain(sep)
  {
    match p
    case Plain(ch) =>
      assert [ch][..0] == "" && After(START, "", OPENS, CLOSES) == START;
      assert TopAt([ch], sep, 0) <==> ch == sep;
    case Quoted(q, chars) =>
      hide Scanned, Deep;
      OneStep(ALL, At(0), q, 0, Inside(0, q));
      SpelledScan(ALL, chars, 0, q, 1);
      EndsOnly(q, Spelled(chars), q, Inside(0, q), sep);
    case Bracketed(open, inside, close) =>
      hide Scanned, Deep;
      OneStep(ALL, At(0), open, 0, At(1));
      PiecesScan(ALL, inside, 1);
      EndsOnly(open, Text(inside), close, At(1), sep);
  }

  lemma {:induction false} EndsOnly(first: char, middle: string, last: char, s: Scan, sep: char)
    requires Scanned(ALL, START, [first]) == s && Deep(ALL, s, middle, 1) && first != sep && last != sep
    ensures NoTop([first] + middle + [last], sep)
  {
    hide Scanned, Deep, AtTop;
    var text := [first] + middle + [last];
    forall i | 0 <= i < |text| ensures !TopAt(text, sep, i) {
      if 0 < i < |text| - 1 {
        Enclosed(first, middle, s, i);
        assert text[..i] == ([first] + middle)[..i];
        TopMeans(text, sep, i);
      }
    }
  }

  lemma {:induction false} TopMeans(text: string, sep: char, i: nat)
    requires i < |text|
    ensures TopAt(text, sep, i) <==> text[i] == sep && AtTop(Scanned(ALL, START, text[..i]))
  {
  }

  lemma {:induction false} NoTopConcat(a: string, b: string, sep: char)
    requires Scanned(ALL, START, a) == START
    ensures NoTop(a + b, sep) <==> NoTop(a, sep) && NoTop(b, sep)
  {
    hide Scanned, AtTop, TopAt;
    forall i | 0 <= i < |a| ensures TopAt(a + b, sep, i) <==> TopAt(a, sep, i) { TopAtPrefix(a, b, sep, i); }
    forall i | 0 <= i < |b| ensures TopAt(a + b, sep, |a| + i) <==> TopAt(b, sep, i) {
      assert (a + b)[..|a| + i] == a + b[..i];
      ScannedConcat(ALL, START, a, b[..i]);
      TopMeans(a + b, sep, |a| + i);
      TopMeans(b, sep, i);
    }
    if NoTop(a, sep) && NoTop(b, sep) {
      forall i | 0 <= i < |a + b| ensures !TopAt(a + b, sep, i) {
        if i >= |a| { assert !TopAt(b, sep, i - |a|); }
      }
    }
  }

  /** A text of nested pieces is closed, and a separator stands at its top exactly where it is a piece by itself. */
  lemma {:induction false} NestingIsSeen(pieces: seq<Piece>, sep: char)
    requires Proper(ALL, pieces) && IsSeparator(sep)
    ensures Closed(Text(pieces))
    ensures NoTop(Text(pieces), sep) <==> Plain(sep) !in pieces
  {
    PiecesScan(ALL, pieces, 0);
    if pieces != [] {
      hide ProperPiece, TextOf, NoTop, Closed, Deep, IsSeparator;
      assert Proper(ALL, pieces[1..]);
      NestingIsSeen(pieces[1..], sep);
      PieceScan(ALL, pieces[0], 0);
      PieceTop(pieces[0], sep);
      NoTopConcat(TextOf(pieces[0]), Text(pieces[1..]), sep);
      assert Plain(sep) in pieces <==> pieces[0] == Plain(sep) || Plain(sep) in pieces[1..];
    }
  }

  /** Nested texts with no comma of their own, joined by commas, are split into these texts again. */
  lemma {:induction false} NestedTextsSplit(parts: seq<seq<Piece>>)
    requires parts != [] && forall i :: 0 <= i < |parts| ==> Proper(ALL, parts[i]) && Plain(',') !in parts[i]
    ensures var texts := seq(|parts|, i requires 0 <= i < |parts| => Text(parts[i]));
      RawSplit(Join(texts)) == texts
  {
    hide NoTop, Closed, RawSplit, Proper;
    var texts := seq(|parts|, i requires 0 <= i < |parts| => Text(parts[i]));
    forall i | 0 <= i < |texts| ensures NoTop(texts[i], ',') && Closed(texts[i]) { NestingIsSeen(parts[i], ','); }
    SplitUndoesJoin(texts);
  }

  // ---------- Blocks ----------

  /** A text whose brackets of one kind are nested is balanced between two of them. */
  lemma {:induction false} NestingIsBalanced(pieces: seq<Piece>, open: char, close: char)
    requires Proper(Brackets([open], [close]), pieces)
    ensures Balanced(Text(pieces), open, close)
  {
    var br, body := Brackets([open], [close]), Text(pieces);
    PiecesScan(br, pieces, 1);
    forall i | 0 <= i < |body| ensures !ClosesAt(body, open, close, i) {
      AfterSnoc(INSIDE, body, i, [open], [close]);
      StepCloses(Scanned(br, INSIDE, body[..i]), body[i], open, close);
      assert Scanned(br, At(1), body[..i + 1]).quote.Some? || Scanned(br, At(1), body[..i + 1]).depth >= 1;
    }
  }

  lemma {:induction false} FindFromIs(text: string, part: string, from: nat, at: nat)
    requires from <= at && at + |part| <= |text| && text[at..at + |part|] == part
    requires forall i :: from <= i < at ==> !(part <= text[i..])
    ensures FindFrom(text, part, from) == Some(at)
    decreases at - from
  {
    if from < at {
      assert part <= text[from..] <==> from + |part| <= |text| && text[from..from + |part|] == part;
      FindFromIs(text, part, from + 1, at);
    }
  }

  /** The block that is found after the first marker is the text between its brackets, whatever is nested in it. */
  lemma {:induction false} ExtractsNested(pre: string, marker: string, gap: string, pieces: seq<Piece>, post: string,
                                          open: char, close: char)
    requires Proper(Brackets([open], [close]), pieces) && open != close && !IsQuote(close)
    requires open !in marker && open !in gap
    requires forall i :: 0 <= i < |pre| ==>
      !(marker <= (pre + marker + gap + [open] + Text(pieces) + [close] + post)[i..])
    ensures Block(pre + marker + gap + [open] + Text(pieces) + [close] + post, marker, open, close) == Some(Text(pieces))
  {
    hide Block, Balanced, Text, Proper;
    var text := pre + marker + gap + [open] + Text(pieces) + [close] + post;
    var at := |pre| + |marker| + |gap|;
    assert text[|pre|..|pre| + |marker|] == marker;
    FindFromIs(text, marker, 0, |pre|);
    forall i | |pre| <= i < at ensures !([open] <= text[i..]) {
      assert text[i] == (marker + gap)[i - |pre|] && text[i] in marker + gap;
    }
    assert text[at..at + 1] == [open];
    FindFromIs(text, [open], |pre|, at);
    assert text[at + 1..] == Text(pieces) + [close] + post;
    NestingIsBalanced(pieces, open, close);
    ExtractUndoesWrap(text, marker, |pre|, at, Text(pieces), open, close, post);
  }
}
