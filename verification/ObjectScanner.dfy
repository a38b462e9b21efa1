/**
 The bracket- and quote-aware scanner that reads object literals out of the front end's source text
 (scripts/governance/check_permission_mirror.py), and the texts it reads back correctly.
 */
module ObjectScanner {
  import opened Wrappers

  /** Where a scan stands: bracket depth, the quote it is inside of, and whether the next character is escaped. */
  datatype Scan = Scan(depth: int, quote: Option<char>, escape: bool)

  const START := Scan(0, None, false)

  predicate IsQuote(ch: char) { ch == '\'' || ch == '"' }

  function Step(s: Scan, ch: char, opens: string, closes: string): Scan {
    if s.quote.Some? then
      if s.escape then s.(escape := false)
      else if ch == '\\' then s.(escape := true)
      else if ch == s.quote.value then s.(quote := None)
      else s
    else if IsQuote(ch) then s.(quote := Some(ch))
    else if ch in opens then s.(depth := s.depth + 1)
    else if ch in closes then s.(depth := s.depth - 1)
    else s
  }

  function After(s: Scan, text: string, opens: string, closes: string): Scan {
    if text == "" then s else Step(After(s, text[..|text| - 1], opens, closes), text[|text| - 1], opens, closes)
  }

  const OPENS := "([{"
  const CLOSES := ")]}"

  /** A character that is neither a quote nor a bracket. */
  predicate IsSeparator(ch: char) { !IsQuote(ch) && ch !in OPENS && ch !in CLOSES }

  predicate AtTop(s: Scan) { s.quote.None? && s.depth == 0 }

  predicate TopAt(text: string, sep: char, i: nat)
    requires i < |text|
  {
    text[i] == sep && AtTop(After(START, text[..i], OPENS, CLOSES))
  }

  /** No separator stands outside all quotes and brackets. */
  ghost predicate NoTop(text: string, sep: char) {
    forall i :: 0 <= i < |text| ==> !TopAt(text, sep, i)
  }

  /** All quotes and brackets are closed. */
  predicate Closed(text: string) { AtTop(After(START, text, OPENS, CLOSES)) }

  function FirstTop(text: string, sep: char, from: nat): Option<nat>
    requires from <= |text|
    decreases |text| - from
  {
    if from == |text| then None else if TopAt(text, sep, from) then Some(from) else FirstTop(text, sep, from + 1)
  }

  lemma {:induction false} FirstTopMeaning(text: string, sep: char, from: nat)
    requires from <= |text| && forall j :: 0 <= j < from ==> !TopAt(text, sep, j)
    ensures match FirstTop(text, sep, from)
      case None => NoTop(text, sep)
      case Some(i) => i < |text| && TopAt(text, sep, i) && forall j :: 0 <= j < i ==> !TopAt(text, sep, j)
    decreases |text| - from
  {
    hide TopAt;
    if from < |text| && !TopAt(text, sep, from) { FirstTopMeaning(text, sep, from + 1); }
  }

  lemma {:induction false} FirstTopIs(text: string, sep: char, i: nat)
    requires i < |text| && TopAt(text, sep, i) && forall j :: 0 <= j < i ==> !TopAt(text, sep, j)
    ensures FirstTop(text, sep, 0) == Some(i)
  {
    hide TopAt;
    FirstTopMeaning(text, sep, 0);
  }

  /** Outside a quote nothing is escaped, so a closed text leaves the scan as it was at the start. */
  lemma {:induction false} EscapeOnlyInQuotes(s: Scan, text: string, opens: string, closes: string)
    requires s.escape ==> s.quote.Some?
    ensures After(s, text, opens, closes).escape ==> After(s, text, opens, closes).quote.Some?
  {
    if text != "" { EscapeOnlyInQuotes(s, text[..|text| - 1], opens, closes); }
  }

  lemma {:induction false} AfterConcat(s: Scan, a: string, b: string, opens: string, closes: string)
    ensures After(s, a + b, opens, closes) == After(After(s, a, opens, closes), b, opens, closes)
  {
    if b == "" {
      assert a + b == a;
    } else {
      assert (a + b)[..|a + b| - 1] == a + b[..|b| - 1];
      AfterConcat(s, a, b[..|b| - 1], opens, closes);
    }
  }

  lemma {:induction false} AfterSnoc(s: Scan, text: string, i: nat, opens: string, closes: string)
    requires i < |text|
    ensures After(s, text[..i + 1], opens, closes) == Step(After(s, text[..i], opens, closes), text[i], opens, closes)
  {
    assert text[..i + 1][..i] == text[..i];
  }

  lemma {:induction false} TopAtPrefix(a: string, b: string, sep: char, i: nat)
    requires i < |a|
    ensures TopAt(a + b, sep, i) == TopAt(a, sep, i)
  {
    assert (a + b)[..i] == a[..i];
  }

  /** The separator after a piece is the first top-level one exactly when the piece is closed and has none itself. */
  lemma {:induction false} FirstTopAfter(piece: string, sep: char, rest: string)
    requires IsSeparator(sep)
    ensures FirstTop(piece + [sep] + rest, sep, 0) == Some(|piece|) <==> Closed(piece) && NoTop(piece, sep)
  {
    var text := piece + [sep] + rest;
    assert text == piece + ([sep] + rest) && text[..|piece|] == piece;
    assert TopAt(text, sep, |piece|) == Closed(piece);
    forall i | 0 <= i < |piece| ensures TopAt(text, sep, i) == TopAt(piece, sep, i) {
      TopAtPrefix(piece, [sep] + rest, sep, i);
    }
    hide TopAt, Closed;
    FirstTopMeaning(text, sep, 0);
    if Closed(piece) && NoTop(piece, sep) { FirstTopIs(text, sep, |piece|); }
  }

  // ---------- Splitting at top-level commas ----------

  function RawSplit(body: string): seq<string> {
    var k := FirstTop(body, ',', 0);
    if k.None? then [body] else (FirstTopMeaning(body, ',', 0); [body[..k.value]] + RawSplit(body[k.value + 1..]))
  }

  function Join(pieces: seq<string>): string
    requires pieces != []
  {
    if |pieces| == 1 then pieces[0] else pieces[0] + "," + Join(pieces[1..])
  }

  /** Joining the raw pieces gives the body back, whatever it is. */
  lemma {:induction false} JoinUndoesSplit(body: string)
    ensures RawSplit(body) != [] && Join(RawSplit(body)) == body
    decreases |body|
  {
    var k := FirstTop(body, ',', 0);
    if k.Some? {
      FirstTopMeaning(body, ',', 0);
      var rest := RawSplit(body[k.value + 1..]);
      JoinUndoesSplit(body[k.value + 1..]);
      assert ([body[..k.value]] + rest)[1..] == rest;
      assert body == body[..k.value] + "," + body[k.value + 1..];
    }
  }

  /** Every piece is free of top-level commas, and every one but the last is closed. */
  ghost predicate WellFormed(pieces: seq<string>) {
    forall i :: 0 <= i < |pieces| ==> NoTop(pieces[i], ',') && (i < |pieces| - 1 ==> Closed(pieces[i]))
  }

  /** Splitting undoes joining exactly for well-formed pieces. */
  lemma {:induction false} SplitUndoesJoin(pieces: seq<string>)
    requires pieces != []
    ensures RawSplit(Join(pieces)) == pieces <==> WellFormed(pieces)
  {
    var first, rest := pieces[0], pieces[1..];
    hide NoTop, Closed, FirstTop;
    if |pieces| == 1 {
      SinglePiece(first);
    } else {
      var body := Join(pieces);
      assert body == first + "," + Join(rest);
      FirstTopAfter(first, ',', Join(rest));
      SplitUndoesJoin(rest);
      assert WellFormed(pieces) <==> Closed(first) && NoTop(first, ',') && WellFormed(rest) by {
        assert forall i :: 0 <= i < |rest| ==> rest[i] == pieces[i + 1];
      }
      SplitFirst(body, first, Join(rest));
      assert RawSplit(body) == pieces ==> RawSplit(body)[0] == first && RawSplit(body)[1..] == rest;
      assert [first] + rest == pieces;
    }
  }

  lemma {:induction false} SinglePiece(piece: string)
    ensures RawSplit(piece) == [piece] <==> NoTop(piece, ',')
  {
    FirstTopMeaning(piece, ',', 0);
    var k := FirstTop(piece, ',', 0);
    if k.Some? { assert |RawSplit(piece)[0]| < |piece|; }
  }

  /** How a body starting with a piece and a comma is split. */
  lemma {:induction false} SplitFirst(body: string, first: string, rest: string)
    requires body == first + "," + rest
    ensures FirstTop(body, ',', 0) == Some(|first|) ==> RawSplit(body) == [first] + RawSplit(rest)
    ensures |RawSplit(body)| > 1 && RawSplit(body)[0] == first ==> FirstTop(body, ',', 0) == Some(|first|)
  {
    FirstTopMeaning(body, ',', 0);
    assert body[..|first|] == first && body[|first| + 1..] == rest;
  }

  // ---------- Trimmed entries ----------

  /** The characters that Python's str.strip removes. */
  predicate IsSpace(c: char) {
    var x := c as int;
    9 <= x <= 13 || 28 <= x <= 32 || x == 0x85 || x == 0xA0 || x == 0x1680 || 0x2000 <= x <= 0x200A
    || x == 0x2028 || x == 0x2029 || x == 0x202F || x == 0x205F || x == 0x3000
  }

  const WHITE_SPACE := "\t\n\U{0B}\U{0C}\r\U{1C}\U{1D}\U{1E}\U{1F} \U{85}\U{A0}\U{1680}\U{2000}\U{2001}\U{2002}\U{2003}"
    + "\U{2004}\U{2005}\U{2006}\U{2007}\U{2008}\U{2009}\U{200A}\U{2028}\U{2029}\U{202F}\U{205F}\U{3000}"

  /** The same, character by character. */
  lemma {:induction false} SpacesListed(c: char)
    ensures IsSpace(c) <==> c in WHITE_SPACE
  {
    var w := WHITE_SPACE;
    assert |w| == 29;
    if IsSpace(c) {
      var x := c as int;
      var i := if x <= 13 then x - 9 else if x <= 32 then x - 23 else if x == 0x85 then 10 else if x == 0xA0 then 11
               else if x == 0x1680 then 12 else if x <= 0x200A then x - 0x2000 + 13 else if x <= 0x2029 then x - 0x2028 + 24
               else if x == 0x202F then 26 else if x == 0x205F then 27 else 28;
      assert w[i] == c;
    }
  }

  function Strip(s: string): (r: string)
    ensures |r| <= |s|
    ensures |r| == |s| ==> r == s
  {
    if s == "" then s
    else if IsSpace(s[0]) then Strip(s[1..])
    else if IsSpace(s[|s| - 1]) then Strip(s[..|s| - 1])
    else s
  }

  /** The pieces that are not blank, trimmed. */
  function Clean(pieces: seq<string>): seq<string> {
    if pieces == [] then []
    else (if Strip(pieces[0]) == "" then [] else [Strip(pieces[0])]) + Clean(pieces[1..])
  }

  function Entries(body: string): seq<string> { Clean(RawSplit(body)) }

  lemma {:induction false} CleanConcat(a: seq<string>, b: seq<string>)
    ensures Clean(a + b) == Clean(a) + Clean(b)
  {
    hide Strip;
    if a == [] {
      assert a + b == b;
    } else {
      assert (a + b)[0] == a[0] && (a + b)[1..] == a[1..] + b;
      CleanConcat(a[1..], b);
    }
  }

  method SplitTopLevelEntries(body: string) returns (entries: seq<string>)
    ensures entries == Entries(body)
  {
    hide Step, After, Strip, FirstTop, RawSplit, NoTop, Clean;
    entries := [];
    var s := START;
    var start := 0;
    EmptyPiece(body, 0);
    assert body[0..] == body && [] + Entries(body) == Entries(body);
    for index := 0 to |body|
      invariant 0 <= start <= index
      invariant s == After(START, body[start..index], OPENS, CLOSES)
      invariant NoTop(body[start..index], ',')
      invariant Entries(body) == entries + Clean(RawSplit(body[start..]))
    {
      var ch := body[index];
      if AtTop(s) && ch == ',' {
        CommaEndsPiece(body, start, index);
        var entry := Strip(body[start..index]);
        if entry != "" { entries := entries + [entry]; }
        start := index + 1;
        s := START;
        EmptyPiece(body, start);
      } else {
        PieceGrows(body, start, index);
        s := Step(s, ch, OPENS, CLOSES);
      }
    }
    LastPiece(body, start);
    var tail := Strip(body[start..]);
    if tail != "" { entries := entries + [tail]; }
  }

  lemma {:induction false} EmptyPiece(body: string, start: nat)
    requires start <= |body|
    ensures After(START, body[start..start], OPENS, CLOSES) == START && NoTop(body[start..start], ',')
  {
  }

  lemma {:induction false} CommaEndsPiece(body: string, start: nat, index: nat)
    requires start <= index < |body| && body[index] == ',' && NoTop(body[start..index], ',')
    requires AtTop(After(START, body[start..index], OPENS, CLOSES))
    ensures var piece := body[start..index];
      Clean(RawSplit(body[start..]))
      == (if Strip(piece) == "" then [] else [Strip(piece)]) + Clean(RawSplit(body[index + 1..]))
  {
    var piece, after := body[start..index], body[index + 1..];
    assert Closed(piece);
    assert body[start..] == piece + "," + after;
    hide After, Strip, FirstTop, RawSplit, NoTop, Clean;
    FirstTopAfter(piece, ',', after);
    SplitFirst(body[start..], piece, after);
    CleanConcat([piece], RawSplit(after));
    CleanOne(piece);
  }

  lemma {:induction false} PieceGrows(body: string, start: nat, index: nat)
    requires start <= index < |body| && NoTop(body[start..index], ',')
    requires !(AtTop(After(START, body[start..index], OPENS, CLOSES)) && body[index] == ',')
    ensures NoTop(body[start..index + 1], ',')
    ensures After(START, body[start..index + 1], OPENS, CLOSES)
            == Step(After(START, body[start..index], OPENS, CLOSES), body[index], OPENS, CLOSES)
  {
    var piece, n := body[start..index + 1], index - start;
    assert piece[..n] == body[start..index] && piece[..n + 1] == piece;
    hide Step, NoTop;
    NoTopSnoc(piece, n);
    AfterSnoc(START, piece, n, OPENS, CLOSES);
  }

  lemma {:induction false} LastPiece(body: string, start: nat)
    requires start <= |body| && NoTop(body[start..|body|], ',')
    ensures Clean(RawSplit(body[start..])) == if Strip(body[start..]) == "" then [] else [Strip(body[start..])]
  {
    assert body[start..|body|] == body[start..];
    SinglePiece(body[start..]);
    CleanOne(body[start..]);
  }

  lemma {:induction false} AfterEmpty(s: Scan)
    ensures After(s, "", OPENS, CLOSES) == s
  {
  }

  lemma {:induction false} CleanOne(piece: string)
    ensures Clean([piece]) == if Strip(piece) == "" then [] else [Strip(piece)]
  {
    assert Clean([piece][1..]) == [];
  }

  lemma {:induction false} NoTopSnoc(text: string, n: nat)
    requires |text| == n + 1 && NoTop(text[..n], ',')
    requires !(text[n] == ',' && AtTop(After(START, text[..n], OPENS, CLOSES)))
    ensures NoTop(text, ',')
  {
    forall i | 0 <= i < |text| ensures !TopAt(text, ',', i) {
      if i < n {
        assert text == text[..n] + text[n..];
        TopAtPrefix(text[..n], text[n..], ',', i);
      }
    }
  }

  /** Length of the joined pieces, commas included. */
  function Extent(pieces: seq<string>): nat {
    if pieces == [] then 0 else |pieces[0]| + 1 + Extent(pieces[1..])
  }

  lemma {:induction false} JoinExtent(pieces: seq<string>)
    requires pieces != []
    ensures |Join(pieces)| + 1 == Extent(pieces)
  {
    if |pieces| > 1 { JoinExtent(pieces[1..]); }
  }

  ghost predicate Trimmed(pieces: seq<string>) {
    forall i :: 0 <= i < |pieces| ==> pieces[i] != "" && Strip(pieces[i]) == pieces[i]
  }

  lemma {:induction false} FirstPiece(first: string, rest: seq<string>)
    ensures Extent([first] + rest) == |first| + 1 + Extent(rest)
    ensures Clean([first] + rest) == (if Strip(first) == "" then [] else [Strip(first)]) + Clean(rest)
    ensures Trimmed([first] + rest) <==> first != "" && Strip(first) == first && Trimmed(rest)
  {
    hide Strip;
    var pieces := [first] + rest;
    assert pieces[1..] == rest;
    assert forall i :: 0 <= i < |rest| ==> rest[i] == pieces[i + 1];
    assert pieces[0] == first;
  }

  lemma {:induction false} NoPieces()
    ensures Extent([]) == 0 && Clean([]) == [] && Trimmed([])
  {
  }

  /** Cleaning shortens unless there was nothing to clean. */
  lemma {:induction false} CleanExtent(pieces: seq<string>)
    ensures Extent(Clean(pieces)) <= Extent(pieces)
    ensures Extent(Clean(pieces)) == Extent(pieces) <==> Trimmed(pieces)
    ensures Trimmed(pieces) ==> Clean(pieces) == pieces
  {
    hide Strip, Clean, Extent, Trimmed;
    NoPieces();
    if pieces != [] {
      var first, rest := pieces[0], pieces[1..];
      assert [first] + rest == pieces;
      CleanExtent(rest);
      FirstPiece(first, rest);
      var head := Strip(first);
      if head == "" {
        assert [] + Clean(rest) == Clean(rest);
      } else {
        FirstPiece(head, Clean(rest));
      }
    }
  }

  /** The entries of joined pieces are these pieces exactly when they are well-formed, trimmed and not blank. */
  lemma {:induction false} EntriesUndoJoin(pieces: seq<string>)
    requires pieces != []
    ensures Entries(Join(pieces)) == pieces <==> WellFormed(pieces) && Trimmed(pieces)
  {
    hide RawSplit, Join, Clean, WellFormed, Trimmed, Extent;
    var body := Join(pieces);
    var raw := RawSplit(body);
    SplitUndoesJoin(pieces);
    JoinUndoesSplit(body);
    JoinExtent(pieces);
    JoinExtent(raw);
    CleanExtent(raw);
  }

  // ---------- Splitting a key from its value ----------

  function KeyValue(entry: string): Option<(string, string)> {
    var i := FirstTop(entry, ':', 0);
    if i.None? then None
    else (FirstTopMeaning(entry, ':', 0); Some((Strip(entry[..i.value]), Strip(entry[i.value + 1..]))))
  }

  method SplitKeyValue(entry: string) returns (r: Result<(string, string)>)
    ensures match KeyValue(entry)
      case None => r.Err?
      case Some(kv) => r == Ok(kv)
  {
    hide Step, After, Strip;
    var s := START;
    AfterEmpty(START);
    for index := 0 to |entry|
      invariant s == After(START, entry[..index], OPENS, CLOSES)
      invariant forall j :: 0 <= j < index ==> !TopAt(entry, ':', j)
    {
      var ch := entry[index];
      if AtTop(s) && ch == ':' {
        FirstTopIs(entry, ':', index);
        return Ok((Strip(entry[..index]), Strip(entry[index + 1..])));
      }
      AfterSnoc(START, entry, index, OPENS, CLOSES);
      s := Step(s, ch, OPENS, CLOSES);
    }
    FirstTopMeaning(entry, ':', 0);
    r := Err("Invalid object entry");
  }

  // ---------- Extracting a balanced block ----------

  predicate Occurs(text: string, marker: string, i: nat) {
    i + |marker| <= |text| && text[i..i + |marker|] == marker
  }

  function FindFrom(text: string, marker: string, from: nat): Option<nat>
    decreases |text| - from
  {
    if from + |marker| > |text| then None
    else if Occurs(text, marker, from) then Some(from)
    else FindFrom(text, marker, from + 1)
  }

  /** The block's inner scan: one bracket open, nothing quoted. */
  const INSIDE := Scan(1, None, false)

  /** The block never closes before its end, and at its end only its own bracket is open. */
  ghost predicate Balanced(body: string, open: char, close: char) {
    && After(INSIDE, body, [open], [close]).depth == 1 && After(INSIDE, body, [open], [close]).quote.None?
    && forall i :: 0 <= i < |body| ==> !ClosesAt(body, open, close, i)
  }

  /** Character i closes the block. */
  predicate ClosesAt(text: string, open: char, close: char, i: nat)
    requires i < |text|
  {
    var s := After(INSIDE, text[..i], [open], [close]);
    s.quote.None? && !IsQuote(text[i]) && text[i] != open && text[i] == close && s.depth == 1
  }

  function FirstClose(text: string, open: char, close: char, from: nat): Option<nat>
    requires from <= |text|
    decreases |text| - from
  {
    if from == |text| then None
    else if ClosesAt(text, open, close, from) then Some(from)
    else FirstClose(text, open, close, from + 1)
  }

  /** The block that opens at the first `open` from the marker on. */
  function Block(text: string, marker: string, open: char, close: char): Option<string> {
    var start := FindFrom(text, marker, 0);
    if start.None? then None
    else
      var at := FindFrom(text, [open], start.value);
      if at.None? then None
      else
        FoundBounds(text, [open], start.value);
        var inner := text[at.value + 1..];
        var end := FirstClose(inner, open, close, 0);
        if end.None? then None else (FirstCloseMeaning(inner, open, close, 0); Some(inner[..end.value]))
  }

  lemma {:induction false} FoundBounds(text: string, marker: string, from: nat)
    ensures var r := FindFrom(text, marker, from);
      && (r.Some? ==> from <= r.value && Occurs(text, marker, r.value))
      && (forall i :: from <= i && (r.Some? ==> i < r.value) ==> !Occurs(text, marker, i))
    decreases |text| - from
  {
    if from + |marker| <= |text| && !Occurs(text, marker, from) { FoundBounds(text, marker, from + 1); }
  }

  lemma {:induction false} FirstCloseMeaning(text: string, open: char, close: char, from: nat)
    requires from <= |text| && forall j :: 0 <= j < from ==> !ClosesAt(text, open, close, j)
    ensures match FirstClose(text, open, close, from)
      case None => forall j :: 0 <= j < |text| ==> !ClosesAt(text, open, close, j)
      case Some(i) => i < |text| && ClosesAt(text, open, close, i)
                      && forall j :: 0 <= j < i ==> !ClosesAt(text, open, close, j)
    decreases |text| - from
  {
    hide ClosesAt;
    if from < |text| && !ClosesAt(text, open, close, from) { FirstCloseMeaning(text, open, close, from + 1); }
  }

  method ExtractBalanced(text: string, marker: string, open: char, close: char) returns (r: Result<string>)
    requires !IsQuote(open)
    ensures match Block(text, marker, open, close)
      case None => r.Err?
      case Some(body) => r == Ok(body)
  {
    hide Step, After;
    var start := FindFrom(text, marker, 0);
    if start.None? { return Err("substring not found"); }
    var at := FindFrom(text, [open], start.value);
    if at.None? { return Err("substring not found"); }
    FoundBounds(text, [open], start.value);
    var openIndex := at.value;
    assert text[openIndex] == open by { assert text[openIndex..openIndex + 1][0] == open; }
    ghost var inner := text[openIndex + 1..];
    var s := START;
    OpenBlock(open, close);
    for index := openIndex to |text|
      invariant index == openIndex ==> s == START
      invariant index > openIndex ==> s == After(INSIDE, inner[..index - openIndex - 1], [open], [close])
      invariant forall j :: 0 <= j < index - openIndex - 1 ==> !ClosesAt(inner, open, close, j)
    {
      var ch := text[index];
      var before := s;
      s := Step(s, ch, [open], [close]);
      if index > openIndex {
        ghost var k := index - openIndex - 1;
        assert inner[k] == ch;
        AfterSnoc(INSIDE, inner, k, [open], [close]);
        StepCloses(before, ch, open, close);
        if before.quote.None? && !IsQuote(ch) && ch != open && ch == close && s.depth == 0 {
          FirstCloseMeaning(inner, open, close, 0);
          assert ClosesAt(inner, open, close, k);
          assert inner[..k] == text[openIndex + 1..index];
          return Ok(text[openIndex + 1..index]);
        }
        DepthStaysPositive(inner, open, close, k);
      }
    }
    FirstCloseMeaning(inner, open, close, 0);
    r := Err("Could not find balanced block");
  }

  lemma {:induction false} OpenBlock(open: char, close: char)
    requires !IsQuote(open)
    ensures Step(START, open, [open], [close]) == INSIDE && After(INSIDE, "", [open], [close]) == INSIDE
  {
  }

  lemma {:induction false} StepCloses(s: Scan, ch: char, open: char, close: char)
    ensures s.quote.None? && !IsQuote(ch) && ch != open && ch == close ==>
      Step(s, ch, [open], [close]).depth == s.depth - 1
  {
  }

  /** Until the block closes at least one bracket stays open. */
  lemma {:induction false} DepthStaysPositive(text: string, open: char, close: char, k: nat)
    requires k <= |text| && forall j :: 0 <= j < k ==> !ClosesAt(text, open, close, j)
    ensures After(INSIDE, text[..k], [open], [close]).depth >= 1
  {
    if k > 0 {
      DepthStaysPositive(text, open, close, k - 1);
      AfterSnoc(INSIDE, text, k - 1, [open], [close]);
      assert !ClosesAt(text, open, close, k - 1);
    }
  }

  /** A body between its brackets, after the marker, is what is extracted exactly when it is balanced. */
  lemma {:induction false} ExtractUndoesWrap(text: string, marker: string, start: nat, at: nat, body: string,
                                             open: char, close: char, post: string)
    requires FindFrom(text, marker, 0) == Some(start) && FindFrom(text, [open], start) == Some(at) && at < |text|
    requires text[at + 1..] == body + [close] + post
    requires open != close && !IsQuote(close)
    ensures Block(text, marker, open, close) == Some(body) <==> Balanced(body, open, close)
  {
    var inner := text[at + 1..];
    var n := |body|;
    assert inner == body + ([close] + post) && inner[..n] == body;
    assert ClosesAt(inner, open, close, n) <==>
      After(INSIDE, body, [open], [close]).depth == 1 && After(INSIDE, body, [open], [close]).quote.None?;
    forall i | 0 <= i < n ensures ClosesAt(inner, open, close, i) == ClosesAt(body, open, close, i) {
      assert inner[..i] == body[..i];
    }
    hide ClosesAt, After, FindFrom;
    FirstCloseMeaning(inner, open, close, 0);
    var end := FirstClose(inner, open, close, 0);
    if end.Some? { assert |inner[..end.value]| == end.value; }
  }

  // ---------- Objects printed and read back ----------

  /** Strip cuts off all the white space at both ends, and nothing else. */
  lemma {:induction false} StripTrims(s: string) returns (i: nat, j: nat)
    ensures i <= j <= |s| && Strip(s) == s[i..j]
    ensures forall k :: 0 <= k < |s| && !(i <= k < j) ==> IsSpace(s[k])
    ensures i < j ==> !IsSpace(s[i]) && !IsSpace(s[j - 1])
  {
    if s == "" {
      i, j := 0, 0;
    } else if IsSpace(s[0]) {
      i, j := StripTrims(s[1..]);
      assert s[1..][i..j] == s[i + 1..j + 1];
      forall k | 0 <= k < |s| && !(i + 1 <= k < j + 1) ensures IsSpace(s[k]) {
        if k > 0 { assert s[1..][k - 1] == s[k]; }
      }
      i, j := i + 1, j + 1;
    } else if IsSpace(s[|s| - 1]) {
      i, j := StripTrims(s[..|s| - 1]);
    } else {
      i, j := 0, |s|;
    }
  }

  lemma {:induction false} NoTopConcat(a: string, b: string, sep: char)
    requires Closed(a) && NoTop(a, sep) && NoTop(b, sep)
    ensures NoTop(a + b, sep)
  {
    EscapeOnlyInQuotes(START, a, OPENS, CLOSES);
    forall i | 0 <= i < |a + b| ensures !TopAt(a + b, sep, i) {
      if i < |a| {
        TopAtPrefix(a, b, sep, i);
      } else {
        assert (a + b)[..i] == a + b[..i - |a|];
        AfterConcat(START, a, b[..i - |a|], OPENS, CLOSES);
        assert !TopAt(b, sep, i - |a|);
      }
    }
  }

  lemma {:induction false} ClosedConcat(a: string, b: string)
    requires Closed(a) && Closed(b)
    ensures Closed(a + b)
  {
    EscapeOnlyInQuotes(START, a, OPENS, CLOSES);
    AfterConcat(START, a, b, OPENS, CLOSES);
  }

  lemma {:induction false} ColonIsClosed()
    ensures Closed(":") && NoTop(":", ',')
  {
    assert ":"[..0] == "";
  }

  lemma {:induction false} StripsToItself(s: string)
    ensures Strip(s) == s <==> s == "" || (!IsSpace(s[0]) && !IsSpace(s[|s| - 1]))
  {
    var i, j := StripTrims(s);
    if Strip(s) == s { assert i == 0 && j == |s|; }
  }

  /** A key and a value that an object literal can hold: trimmed, closed, and without a separator at the top. */
  ghost predicate Printable(key: string, value: string) {
    && Closed(key) && NoTop(key, ':') && NoTop(key, ',') && Strip(key) == key
    && Closed(value) && NoTop(value, ',') && Strip(value) == value
  }

  lemma {:induction false} PrintedEntry(key: string, value: string)
    requires Printable(key, value)
    ensures var e := key + ":" + value;
      && Closed(e) && NoTop(e, ',') && e != "" && Strip(e) == e && KeyValue(e) == Some((key, value))
  {
    var e := key + ":" + value;
    hide Closed, NoTop, Strip, FirstTop;
    ColonIsClosed();
    ClosedConcat(key, ":");
    ClosedConcat(key + ":", value);
    NoTopConcat(key, ":", ',');
    NoTopConcat(key + ":", value, ',');
    FirstTopAfter(key, ':', value);
    assert e[..|key|] == key && e[|key| + 1..] == value;
    StripsToItself(key);
    StripsToItself(value);
    StripsToItself(e);
    assert !IsSpace(':');
  }

  /** Entries printed from printable pairs and joined by commas are split, and their pairs read, as they were. */
  lemma {:induction false} PrintedObjectReadsBack(keys: seq<string>, values: seq<string>, entries: seq<string>)
    requires |keys| == |values| == |entries| > 0
    requires forall i :: 0 <= i < |keys| ==> Printable(keys[i], values[i]) && entries[i] == keys[i] + ":" + values[i]
    ensures Entries(Join(entries)) == entries
    ensures forall i :: 0 <= i < |entries| ==> KeyValue(entries[i]) == Some((keys[i], values[i]))
  {
    hide Closed, NoTop, Strip, KeyValue, Join, RawSplit, Clean, Printable;
    forall i | 0 <= i < |entries|
      ensures Closed(entries[i]) && NoTop(entries[i], ',') && entries[i] != "" && Strip(entries[i]) == entries[i]
      ensures KeyValue(entries[i]) == Some((keys[i], values[i]))
    {
      PrintedEntry(keys[i], values[i]);
    }
    EntriesUndoJoin(entries);
  }
}
