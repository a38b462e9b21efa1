/** The watcher's rotating journal (append_jsonl in scripts/guardian_runtime.py). */
module LogRotation {
  import opened Sequences
  import opened Wrappers

  const MAX_BYTES := 10 * 1024 * 1024
  const BACKUPS := 5

  type Bytes = seq<bv8>

  /** The directory: file 0 is the journal, file i its backup with the suffix i. */
  type Files = map<nat, Bytes>

  function Lookup(files: Files, i: nat): Option<Bytes> { if i in files then Some(files[i]) else None }

  /** What file i holds after a rotation. */
  function AfterRotation(files: Files, i: nat): Option<Bytes> {
    if i == 0 then None
    else if i <= BACKUPS && i - 1 in files then Some(files[i - 1])
    else if i < BACKUPS then None
    else Lookup(files, i)
  }

  predicate Full(files: Files) { 0 in files && |files[0]| >= MAX_BYTES }

  /** What file i holds after a line was appended. */
  function AfterAppend(files: Files, line: Bytes, i: nat): Option<Bytes> {
    if i > 0 then (if Full(files) then AfterRotation(files, i) else Lookup(files, i))
    else if Full(files) || 0 !in files then Some(line)
    else Some(files[0] + line)
  }

  class Directory {
    var files: Files

    constructor ()
      ensures files == map[]
    {
      files := map[];
    }

    method Replace(src: nat, dst: nat)
      requires src in files && src != dst
      modifies this
      ensures files == (old(files) - {src})[dst := old(files)[src]]
    {
      files := (files - {src})[dst := files[src]];
    }

    /** Shifts every backup up by one, the oldest first, and then the journal itself. */
    method Rotate()
      requires 0 in files
      modifies this
      ensures forall i: nat :: Lookup(files, i) == AfterRotation(old(files), i)
    {
      var index := BACKUPS - 1;
      while index > 0
        invariant 0 <= index < BACKUPS
        invariant forall i: nat :: i <= index || i > BACKUPS || i == index + 1 == BACKUPS ==>
          Lookup(files, i) == Lookup(old(files), i)
        invariant index + 1 < BACKUPS ==> Lookup(files, index + 1) == None
        invariant forall i: nat :: index + 1 < i <= BACKUPS ==> Lookup(files, i) == AfterRotation(old(files), i)
      {
        assert Lookup(files, index) == Lookup(old(files), index);
        if index in files { Replace(index, index + 1); }
        index := index - 1;
      }
      assert Lookup(files, 0) == Lookup(old(files), 0);
      Replace(0, 1);
    }
  }

  /** A journal that is switched off (no directory) takes nothing. */
  method AppendJsonl(log: Directory?, line: Bytes)
    modifies log
    ensures log != null ==> forall i: nat :: Lookup(log.files, i) == AfterAppend(old(log.files), line, i)
  {
    if log == null { return; }
    if Full(log.files) { log.Rotate(); }
    ghost var rotated := log.files;
    assert [] + line == line;
    assert Lookup(rotated, 0) == if Full(old(log.files)) then None else Lookup(old(log.files), 0);
    log.files := log.files[0 := (if 0 in log.files then log.files[0] else []) + line];
    assert forall i: nat :: i > 0 ==> Lookup(log.files, i) == Lookup(rotated, i);
  }

  /** In any directory, with gaps or without, a rotation loses one file at most: the oldest backup, and only when
      the one before it takes its place. */
  lemma {:induction false} RotationLosesOnlyTheOldest(files: Files, after: Files, i: nat)
    requires forall k: nat :: Lookup(after, k) == AfterRotation(files, k)
    requires i in files && !(i == BACKUPS && BACKUPS - 1 in files)
    ensures var j := if i < BACKUPS then i + 1 else i; j in after && after[j] == files[i]
  {
    var j := if i < BACKUPS then i + 1 else i;
    assert Lookup(after, j) == AfterRotation(files, j);
  }

  // ---------- Runs from an empty directory ----------

  function Join(lines: seq<Bytes>): Bytes { if lines == [] then [] else Join(lines[..|lines| - 1]) + lines[|lines| - 1] }

  /** The reference: the segments after one more line; a new one begins when the last has reached the limit. */
  function Grow(segments: seq<seq<Bytes>>, line: Bytes): seq<seq<Bytes>> {
    if segments == [] || |Join(segments[|segments| - 1])| >= MAX_BYTES then segments + [[line]]
    else segments[..|segments| - 1] + [segments[|segments| - 1] + [line]]
  }

  /** The whole history cut into segments. */
  function Segments(lines: seq<Bytes>): seq<seq<Bytes>> {
    if lines == [] then [] else Grow(Segments(lines[..|lines| - 1]), lines[|lines| - 1])
  }

  /** Backup i is the i-th segment before the last, which is the journal. */
  function Kept(segments: seq<seq<Bytes>>, i: nat): Option<Bytes> {
    if i <= BACKUPS && i < |segments| then Some(Join(segments[|segments| - 1 - i])) else None
  }

  ghost predicate Holds(files: Files, segments: seq<seq<Bytes>>) {
    forall i: nat :: Lookup(files, i) == Kept(segments, i)
  }

  function JoinAll(segments: seq<seq<Bytes>>): Bytes {
    if segments == [] then [] else JoinAll(segments[..|segments| - 1]) + Join(segments[|segments| - 1])
  }

  /** All that is on disk, the oldest backup first, from file i down to the journal. */
  function OnDisk(files: Files, i: nat): Bytes {
    (if i in files then files[i] else []) + (if i == 0 then [] else OnDisk(files, i - 1))
  }

  lemma {:induction false} JoinAppend(lines: seq<Bytes>, line: Bytes)
    ensures Join(lines + [line]) == Join(lines) + line
  {
    assert (lines + [line])[..|lines|] == lines;
  }

  lemma {:induction false} JoinAllAppend(segments: seq<seq<Bytes>>, segment: seq<Bytes>)
    ensures JoinAll(segments + [segment]) == JoinAll(segments) + Join(segment)
  {
    assert (segments + [segment])[..|segments|] == segments;
  }

  lemma {:induction false} AppendGrows(files: Files, segments: seq<seq<Bytes>>, line: Bytes, i: nat)
    requires Holds(files, segments)
    ensures AfterAppend(files, line, i) == Kept(Grow(segments, line), i)
  {
    hide Join;
    assert Lookup(files, 0) == Kept(segments, 0);
    assert Lookup(files, i) == Kept(segments, i);
    if i > 0 { assert Lookup(files, i - 1) == Kept(segments, i - 1); }
    if segments != [] { JoinAppend(segments[|segments| - 1], line); }
    JoinSingle(line);
  }

  /** The watcher's run: whatever lines it appends to an empty directory, the journal and its backups are the latest
      segments of the history, in order. */
  method Watch(lines: seq<Bytes>) returns (log: Directory)
    ensures Holds(log.files, Segments(lines))
  {
    hide AfterAppend, Kept, Lookup, Join, Grow;
    log := new Directory();
    EmptyHolds();
    assert lines[..0] == [];
    for i := 0 to |lines|
      invariant fresh(log)
      invariant Holds(log.files, Segments(lines[..i]))
    {
      ghost var before := log.files;
      AppendJsonl(log, lines[i]);
      forall k: nat ensures Lookup(log.files, k) == Kept(Grow(Segments(lines[..i]), lines[i]), k) {
        AppendGrows(before, Segments(lines[..i]), lines[i], k);
      }
      assert lines[..i + 1][..i] == lines[..i];
    }
    assert lines[..|lines|] == lines;
  }

  lemma {:induction false} EmptyHolds()
    ensures Holds(map[], Segments([]))
  {
  }

  lemma {:induction false} JoinSingle(line: Bytes)
    ensures Join([line]) == line
  {
    JoinAppend([], line);
    assert [] + [line] == [line] && [] + line == line;
  }

  /** The segments hold the whole history in order: no line is lost, torn or moved. */
  lemma {:induction false} SegmentsHoldHistory(lines: seq<Bytes>)
    ensures JoinAll(Segments(lines)) == Join(lines)
  {
    hide Grow;
    if lines != [] {
      SegmentsHoldHistory(lines[..|lines| - 1]);
      GrowAddsTheLine(Segments(lines[..|lines| - 1]), lines[|lines| - 1]);
    }
  }

  lemma {:induction false} GrowAddsTheLine(segments: seq<seq<Bytes>>, line: Bytes)
    ensures JoinAll(Grow(segments, line)) == JoinAll(segments) + line
  {
    hide Join;
    if segments == [] || |Join(segments[|segments| - 1])| >= MAX_BYTES {
      JoinAllAppend(segments, [line]);
      JoinSingle(line);
    } else {
      var front, last := segments[..|segments| - 1], segments[|segments| - 1];
      JoinAllAppend(front, last + [line]);
      JoinAppend(last, line);
      Associate(JoinAll(front), Join(last), line);
    }
  }

  // ---------- How much is kept ----------

  /** A segment that has lines and would not have been full without its last one. */
  ghost predicate Growing(segment: seq<Bytes>) {
    segment != [] && (|segment| > 1 ==> |Join(segment[..|segment| - 1])| < MAX_BYTES)
  }

  ghost predicate WellSized(segments: seq<seq<Bytes>>) {
    forall i :: 0 <= i < |segments| ==>
      Growing(segments[i]) && (i < |segments| - 1 ==> |Join(segments[i])| >= MAX_BYTES)
  }

  /** A sealed segment reached the limit with its last line, and not before; no line is cut in two. */
  lemma {:induction false} SegmentSizes(lines: seq<Bytes>)
    ensures WellSized(Segments(lines))
  {
    hide Grow, WellSized;
    if lines == [] {
      NoSegmentsSized();
    } else {
      SegmentSizes(lines[..|lines| - 1]);
      GrowSizes(Segments(lines[..|lines| - 1]), lines[|lines| - 1]);
    }
  }

  lemma {:induction false} NoSegmentsSized()
    ensures WellSized([])
  {
  }

  lemma {:induction false} GrowSizes(b: seq<seq<Bytes>>, line: Bytes)
    requires WellSized(b)
    ensures WellSized(Grow(b, line))
  {
    hide Join;
    if b != [] {
      var last := b[|b| - 1];
      assert (last + [line])[..|last|] == last;
    }
  }

  lemma {:induction false} JoinAllSplit(segments: seq<seq<Bytes>>, m: nat)
    requires m <= |segments|
    ensures JoinAll(segments) == JoinAll(segments[..m]) + JoinAll(segments[m..])
  {
    hide Join, JoinAll;
    if m == |segments| {
      assert segments[..m] == segments && segments[m..] == [];
      JoinAllEmpty();
    } else {
      var n := |segments| - 1;
      var middle := segments[..n][m..];
      JoinAllSplit(segments[..n], m);
      JoinAllAppend(segments[..n], segments[n]);
      JoinAllAppend(middle, segments[n]);
      assert segments[..n][..m] == segments[..m] && segments[..n] + [segments[n]] == segments;
      assert segments[m..] == middle + [segments[n]];
      Associate(JoinAll(segments[..m]), JoinAll(middle), Join(segments[n]));
    }
  }

  lemma {:induction false} JoinAllEmpty()
    ensures JoinAll([]) == []
  {
  }

  lemma {:induction false} FullSegmentsSize(segments: seq<seq<Bytes>>)
    requires forall i :: 0 <= i < |segments| ==> |Join(segments[i])| >= MAX_BYTES
    ensures |JoinAll(segments)| >= MAX_BYTES * |segments|
  {
    hide Join, JoinAll;
    if segments != [] {
      var n := |segments| - 1;
      FullSegmentsSize(segments[..n]);
      JoinAllAppend(segments[..n], segments[n]);
      assert segments[..n] + [segments[n]] == segments;
    }
  }

  /** The number of segments that are no longer on disk when files 0 to i are. */
  function Dropped(segments: seq<seq<Bytes>>, i: nat): nat { if i < |segments| then |segments| - 1 - i else 0 }

  lemma {:induction false} JoinAllFirst(segments: seq<seq<Bytes>>, m: nat)
    requires m < |segments|
    ensures JoinAll(segments[m..]) == Join(segments[m]) + JoinAll(segments[m + 1..])
  {
    hide Join, JoinAll;
    JoinAllSplit(segments[m..], 1);
    JoinAllAppend([], segments[m]);
    JoinAllEmpty();
    assert segments[m..][..1] == [] + [segments[m]] && segments[m..][1..] == segments[m + 1..];
    assert [] + Join(segments[m]) == Join(segments[m]);
  }

  lemma {:induction false} FileIs(files: Files, segments: seq<seq<Bytes>>, i: nat)
    requires Holds(files, segments) && i <= BACKUPS
    ensures (if i in files then files[i] else []) == if i < |segments| then Join(segments[|segments| - 1 - i]) else []
  {
    hide Join;
    assert Lookup(files, i) == Kept(segments, i);
  }

  lemma {:induction false} OnDiskNext(files: Files, i: nat, first: Bytes)
    requires first == if i in files then files[i] else []
    ensures i == 0 ==> OnDisk(files, i) == first
    ensures i > 0 ==> OnDisk(files, i) == first + OnDisk(files, i - 1)
  {
    if i == 0 { assert first + [] == first; }
  }

  lemma {:induction false} RestOf(segments: seq<seq<Bytes>>, i: nat, first: Bytes)
    requires first == if i < |segments| then Join(segments[|segments| - 1 - i]) else []
    ensures i == 0 ==> JoinAll(segments[Dropped(segments, i)..]) == first
    ensures i > 0 ==> JoinAll(segments[Dropped(segments, i)..]) == first + JoinAll(segments[Dropped(segments, i - 1)..])
  {
    hide Join, JoinAll;
    JoinAllEmpty();
    if i < |segments| {
      var m := |segments| - 1 - i;
      JoinAllFirst(segments, m);
      if i == 0 {
        assert segments[m + 1..] == [];
        assert first + [] == first;
      }
    } else if i == 0 {
      assert segments[0..] == [];
    } else {
      assert [] + JoinAll(segments[0..]) == JoinAll(segments[0..]);
    }
  }

  lemma {:induction false} DiskHoldsTheRest(files: Files, segments: seq<seq<Bytes>>, i: nat)
    requires Holds(files, segments) && i <= BACKUPS
    ensures OnDisk(files, i) == JoinAll(segments[Dropped(segments, i)..])
  {
    hide Join, JoinAll, OnDisk, Holds, Dropped;
    var first := if i in files then files[i] else [];
    FileIs(files, segments, i);
    OnDiskNext(files, i, first);
    RestOf(segments, i, first);
    if i > 0 { DiskHoldsTheRest(files, segments, i - 1); }
  }

  /** What is on disk, oldest backup first, is the end of the history. Nothing is lost in the first five rotations;
      after that, exactly the oldest segments are, and at least five full files remain. */
  lemma {:induction false} DiskIsEndOfHistory(files: Files, lines: seq<Bytes>)
    requires Holds(files, Segments(lines))
    ensures var rotations := |Segments(lines)| - 1;
      exists lost: Bytes ::
        && Join(lines) == lost + OnDisk(files, BACKUPS)
        && (lost == [] <==> rotations <= BACKUPS)
        && (lost != [] ==> |OnDisk(files, BACKUPS)| >= BACKUPS * MAX_BYTES)
  {
    hide Join, JoinAll, OnDisk, Segments;
    var s := Segments(lines);
    var m := Dropped(s, BACKUPS);
    SegmentsHoldHistory(lines);
    SegmentSizes(lines);
    DiskHoldsTheRest(files, s, BACKUPS);
    JoinAllSplit(s, m);
    FullSegmentsSize(s[..m]);
    NothingJoined(s[..m]);
    if m > 0 {
      JoinAllSplit(s[m..], BACKUPS);
      assert s[m..][..BACKUPS] == s[m..m + BACKUPS];
      FullSegmentsSize(s[m..m + BACKUPS]);
    }
    assert Join(lines) == JoinAll(s[..m]) + OnDisk(files, BACKUPS);
  }

  lemma {:induction false} NothingJoined(segments: seq<seq<Bytes>>)
    ensures segments == [] ==> JoinAll(segments) == []
  {
  }
}
