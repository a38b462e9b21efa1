/** The log handler that rolls by day and by size (_DailyRollingHandler in src/edu_cloud/logging_config.py). */
module RollingLog {
  import opened Ordering
  import opened Sequences
  import opened Wrappers

  type Bytes = seq<bv8>

  /** A log file: its day, and its number within the day. */
  datatype Key = Key(day: int, roll: nat)

  type Files = map<Key, Bytes>

  predicate KeyLe(a: Key, b: Key) { a.day < b.day || (a.day == b.day && a.roll <= b.roll) }

  function Content(files: Files, k: Key): Bytes { if k in files then files[k] else [] }

  // ---------- The handler's step, on values ----------

  /** The directory and the handler's three fields; the open file is that of the day and the roll index. */
  datatype State = State(files: Files, day: Option<int>, size: nat, roll: nat)

  /** The file the next line goes to. */
  function Target(s: State, max: nat, today: int): Key {
    if s.day != Some(today) then Key(today, 0)
    else if s.size >= max then Key(today, s.roll + 1)
    else Key(today, s.roll)
  }

  function EmitStep(s: State, max: nat, today: int, line: Bytes): State {
    var t := Target(s, max, today);
    var stays := s.day == Some(today) && s.size < max;
    var before := if stays then s.size else |Content(s.files, t)|;
    State(s.files[t := Content(s.files, t) + line], Some(today), before + |line|, t.roll)
  }

  /** What the handler believes of its file is true of it. */
  predicate Tracks(s: State) {
    s.day.Some? ==> Key(s.day.value, s.roll) in s.files && s.size == |s.files[Key(s.day.value, s.roll)]|
  }

  lemma {:induction false} StepTracks(s: State, max: nat, today: int, line: Bytes)
    requires Tracks(s)
    ensures Tracks(EmitStep(s, max, today, line))
  {
  }

  // ---------- The handler ----------

  class DailyRollingHandler {
    const maxBytes: nat
    var files: Files
    var currentDate: Option<int>
    var currentSize: nat
    var rollIndex: nat
    var currentPath: Option<Key>

    ghost function View(): State reads this { State(files, currentDate, currentSize, rollIndex) }

    ghost predicate Valid() reads this {
      && (currentPath == if currentDate.Some? then Some(Key(currentDate.value, rollIndex)) else None)
      && Tracks(View())
    }

    constructor (directory: Files, max: nat)
      ensures Valid() && maxBytes == max && View() == State(directory, None, 0, 0)
    {
      maxBytes := max;
      files := directory;
      currentDate := None;
      currentSize := 0;
      rollIndex := 0;
      currentPath := None;
    }

    /** Opens the file of the current day and roll index for appending. */
    method OpenNewFile()
      requires currentDate.Some?
      modifies this
      ensures currentDate == old(currentDate) && rollIndex == old(rollIndex)
      ensures currentPath == Some(Key(currentDate.value, rollIndex))
      ensures files == old(files)[currentPath.value := Content(old(files), currentPath.value)]
      ensures currentSize == |files[currentPath.value]|
    {
      var path := Key(currentDate.value, rollIndex);
      currentPath := Some(path);
      if path !in files { files := files[path := []]; }
      currentSize := |files[path]|;
    }

    method EnsureFile(today: int)
      requires Valid()
      modifies this
      ensures Valid() && currentPath == Some(Target(old(View()), maxBytes, today))
      ensures files == old(files)[currentPath.value := Content(old(files), currentPath.value)]
      ensures currentDate == Some(today)
    {
      if currentDate != Some(today) {
        currentDate := Some(today);
        rollIndex := 0;
        OpenNewFile();
      } else if currentSize >= maxBytes {
        rollIndex := rollIndex + 1;
        OpenNewFile();
      }
    }

    method Emit(today: int, line: Bytes)
      requires Valid()
      modifies this
      ensures Valid() && View() == EmitStep(old(View()), maxBytes, today, line)
    {
      EnsureFile(today);
      var path := currentPath.value;
      files := files[path := files[path] + line];
      currentSize := currentSize + |line|;
    }
  }

  // ---------- The log as it is read: all files, by day and number ----------

  lemma {:induction false} KeyTotalOrder()
    ensures TotalOrder(KeyLe)
    ensures TotalOrder((a, b) => KeyLe(b, a))
  {
  }

  ghost predicate IsLast(files: Files, m: Key) { m in files && forall k :: k in files ==> KeyLe(k, m) }

  lemma {:induction false} LastExists(files: Files)
    requires files != map[]
    ensures exists m :: IsLast(files, m)
  {
    KeyTotalOrder();
    var ge := (a: Key, b: Key) => KeyLe(b, a);
    assert files.Keys != {};
    LeastExists(files.Keys, ge);
    var m :| m in files.Keys && forall k :: k in files.Keys ==> ge(m, k);
    assert IsLast(files, m);
  }

  /** The concatenation of all files, in the order of day and number. */
  ghost function Read(files: Files): Bytes
    decreases |files|
  {
    if files == map[] then []
    else
      LastExists(files);
      var m :| IsLast(files, m);
      Read(files - {m}) + files[m]
  }

  lemma {:induction false} ReadLast(files: Files, m: Key)
    requires IsLast(files, m)
    ensures Read(files) == Read(files - {m}) + files[m]
  {
    LastExists(files);
    var n :| IsLast(files, n) && Read(files) == Read(files - {n}) + files[n];
    assert KeyLe(m, n) && KeyLe(n, m);
  }

  function UpTo(files: Files, t: Key): Files { map k | k in files && KeyLe(k, t) :: files[k] }

  function Beyond(files: Files, t: Key): Files { map k | k in files && !KeyLe(k, t) :: files[k] }

  lemma {:induction false} ReadSplit(files: Files, t: Key)
    ensures Read(files) == Read(UpTo(files, t)) + Read(Beyond(files, t))
    decreases |files|
  {
    hide Read;
    ReadNothing();
    if files == map[] {
      assert UpTo(files, t) == map[] && Beyond(files, t) == map[];
    } else {
      LastExists(files);
      var m :| IsLast(files, m);
      if KeyLe(m, t) {
        assert UpTo(files, t) == files && Beyond(files, t) == map[];
      } else {
        ReadLast(files, m);
        ReadSplit(files - {m}, t);
        ReadLast(Beyond(files, t), m);
        assert Beyond(files, t) - {m} == Beyond(files - {m}, t) && UpTo(files, t) == UpTo(files - {m}, t);
        Associate(Read(UpTo(files, t)), Read(Beyond(files - {m}, t)), files[m]);
      }
    }
  }

  lemma {:induction false} ReadNothing()
    ensures Read(map[]) == []
  {
  }

  function Put(files: Files, t: Key, line: Bytes): Files { files[t := Content(files, t) + line] }

  lemma {:induction false} ReadPut(files: Files, t: Key, line: Bytes)
    ensures Read(Put(files, t, line)) == (Read(UpTo(files, t)) + line) + Read(Beyond(files, t))
  {
    hide Read;
    var after := Put(files, t, line);
    ReadSplit(after, t);
    ReadLast(UpTo(after, t), t);
    assert Beyond(after, t) == Beyond(files, t);
    assert UpTo(after, t) - {t} == UpTo(files, t) - {t};
    if t in files {
      ReadLast(UpTo(files, t), t);
    } else {
      assert UpTo(files, t) - {t} == UpTo(files, t);
      assert [] + line == line;
    }
    Associate(Read(UpTo(files, t) - {t}), Content(files, t), line);
    if t !in files { assert Read(UpTo(files, t)) + [] == Read(UpTo(files, t)); }
  }

  lemma {:induction false} ReadsNothing(files: Files)
    ensures Read(files) == [] <==> forall k :: k in files ==> files[k] == []
    decreases |files|
  {
    hide Read;
    ReadNothing();
    if files != map[] {
      LastExists(files);
      var m :| IsLast(files, m);
      ReadLast(files, m);
      var rest := files - {m};
      ReadsNothing(rest);
      assert Read(files) == [] <==> Read(rest) == [] && files[m] == [];
      assert forall k :: k in files <==> k == m || k in rest;
      assert forall k :: k in rest ==> rest[k] == files[k];
    }
  }

  ghost predicate NothingBeyond(files: Files, t: Key) {
    forall k :: k in files && !KeyLe(k, t) ==> files[k] == []
  }

  /** Whatever the line, it is added at the end of the log exactly when no later file has content. */
  lemma {:induction false} PutIsInOrder(files: Files, t: Key)
    ensures (forall line :: Read(Put(files, t, line)) == Read(files) + line) <==> NothingBeyond(files, t)
  {
    hide Read;
    ReadSplit(files, t);
    ReadsNothing(Beyond(files, t));
    var a, b := Read(UpTo(files, t)), Read(Beyond(files, t));
    assert NothingBeyond(files, t) <==> b == [] by {
      assert forall k :: k in Beyond(files, t) <==> k in files && !KeyLe(k, t);
    }
    if b == [] {
      forall line ensures Read(Put(files, t, line)) == Read(files) + line {
        ReadPut(files, t, line);
        assert a + b == a && (a + line) + b == a + line;
      }
    } else {
      var line: Bytes := [if b[0] == 0 then 1 else 0];
      ReadPut(files, t, line);
      assert ((a + line) + b)[|a|] == line[0] && ((a + b) + line)[|a|] == b[0];
      assert Read(Put(files, t, line)) != Read(files) + line;
    }
  }

  // ---------- Runs of one writer ----------

  datatype Event = Event(day: int, line: Bytes)

  function Run(s: State, max: nat, events: seq<Event>): State {
    if events == [] then s
    else
      var n := |events| - 1;
      EmitStep(Run(s, max, events[..n]), max, events[n].day, events[n].line)
  }

  function Lines(events: seq<Event>): Bytes {
    if events == [] then [] else Lines(events[..|events| - 1]) + events[|events| - 1].line
  }

  /** The clock does not go back a day, nor behind the day of the open file. */
  ghost predicate DaysAdvance(s: State, events: seq<Event>) {
    && (forall i, j :: 0 <= i < j < |events| ==> events[i].day <= events[j].day)
    && (s.day.Some? ==> forall i :: 0 <= i < |events| ==> s.day.value <= events[i].day)
  }

  /** Nothing is written beyond the file in use (before the first line: beyond the first file of that line's day). */
  ghost predicate AtEnd(s: State, today: int) {
    NothingBeyond(s.files, if s.day.Some? then Key(s.day.value, s.roll) else Key(today, 0))
  }

  lemma {:induction false} StepInOrder(s: State, max: nat, today: int, line: Bytes)
    requires Tracks(s) && AtEnd(s, today) && (s.day.Some? ==> s.day.value <= today)
    ensures var after := EmitStep(s, max, today, line);
      Read(after.files) == Read(s.files) + line && forall later :: AtEnd(after, later)
  {
    hide Read;
    var t := Target(s, max, today);
    assert NothingBeyond(s.files, t);
    PutIsInOrder(s.files, t);
    assert EmitStep(s, max, today, line).files == Put(s.files, t, line);
  }

  /** A run of one writer adds exactly its lines, in order, at the end of the log, and the handler's size stays that of
      the file. */
  lemma {:induction false} RunReadsBack(s: State, max: nat, events: seq<Event>)
    requires Tracks(s) && DaysAdvance(s, events) && (events != [] ==> AtEnd(s, events[0].day))
    ensures Tracks(Run(s, max, events)) && Read(Run(s, max, events).files) == Read(s.files) + Lines(events)
    ensures events != [] ==> Run(s, max, events).day == Some(events[|events| - 1].day)
    ensures events != [] ==> forall later :: AtEnd(Run(s, max, events), later)
  {
    hide Read, AtEnd, Tracks;
    if events == [] {
      assert Read(s.files) + [] == Read(s.files);
    } else {
      var n := |events| - 1;
      RunReadsBack(s, max, events[..n]);
      var before := Run(s, max, events[..n]);
      StepTracks(before, max, events[n].day, events[n].line);
      StepInOrder(before, max, events[n].day, events[n].line);
      Associate(Read(s.files), Lines(events[..n]), events[n].line);
    }
  }

  /** A handler started on an existing directory continues the log, whatever its first line, exactly when no file after
      the first of today has content: a restart on a day that already rolled by size does not. */
  lemma {:induction false} RestartContinues(directory: Files, max: nat, today: int)
    ensures var start := State(directory, None, 0, 0);
      (forall line :: Read(EmitStep(start, max, today, line).files) == Read(directory) + line)
      <==> NothingBeyond(directory, Key(today, 0))
  {
    hide Read, NothingBeyond;
    PutIsInOrder(directory, Key(today, 0));
    forall line ensures EmitStep(State(directory, None, 0, 0), max, today, line).files
                        == Put(directory, Key(today, 0), line) {
    }
  }

  // ---------- Sizes in a fresh directory ----------

  /** The content ends with a line, and was below the limit (or empty) before it. */
  ghost predicate LastLineFits(content: Bytes, max: nat, line: Bytes) {
    |line| <= |content| && content[|content| - |line|..] == line
    && (|content| == |line| || |content| - |line| < max)
  }

  const FRESH := State(map[], None, 0, 0)

  /** The last line that a run in a fresh directory writes to file k. */
  function LastLine(max: nat, events: seq<Event>, k: Key): Option<Bytes> {
    if events == [] then None
    else
      var n := |events| - 1;
      if Target(Run(FRESH, max, events[..n]), max, events[n].day) == k then Some(events[n].line)
      else LastLine(max, events[..n], k)
  }

  predicate Full(files: Files, k: Key, max: nat) { k in files && |files[k]| >= max }

  /** What is known of file k of the state that the events lead to. */
  ghost predicate SizedAt(s: State, max: nat, events: seq<Event>, k: Key) {
    if k !in s.files then LastLine(max, events, k).None?
    else
      && s.day.Some? && KeyLe(k, Key(s.day.value, s.roll))
      && LastLine(max, events, k).Some? && LastLineFits(s.files[k], max, LastLine(max, events, k).value)
      && (k.roll > 0 ==> Full(s.files, Key(k.day, k.roll - 1), max))
  }

  ghost predicate Sized(s: State, max: nat, events: seq<Event>) { forall k :: SizedAt(s, max, events, k) }

  /** In a fresh directory the numbers of a day leave no gap, every file but the last of its day has reached the limit,
      and no file was at the limit before the last line written to it. */
  lemma {:induction false} FreshRunSizes(max: nat, events: seq<Event>)
    requires DaysAdvance(FRESH, events)
    ensures Sized(Run(FRESH, max, events), max, events)
  {
    hide SizedAt, Tracks, Read, AtEnd, LastLine, EmitStep;
    if events == [] {
      forall k ensures SizedAt(Run(FRESH, max, events), max, events, k) { NothingSized(max, k); }
    } else {
      var n := |events| - 1;
      FreshRunSizes(max, events[..n]);
      FreshIsReady();
      RunReadsBack(FRESH, max, events[..n]);
      var before := Run(FRESH, max, events[..n]);
      assert before.day.None? ==> n == 0;
      forall k ensures SizedAt(Run(FRESH, max, events), max, events, k) { StepSized(before, max, events, k); }
    }
  }

  lemma {:induction false} FreshIsReady()
    ensures Tracks(FRESH) && forall today :: AtEnd(FRESH, today)
  {
  }

  lemma {:induction false} NothingSized(max: nat, k: Key)
    ensures SizedAt(FRESH, max, [], k)
  {
  }

  /** A line added to a file that was empty or below the limit. */
  lemma {:induction false} GrownFits(before: Bytes, max: nat, line: Bytes)
    requires before == [] || |before| < max
    ensures LastLineFits(before + line, max, line)
  {
    assert (before + line)[|before + line| - |line|..] == line;
  }

  lemma {:induction false} StepSized(s: State, max: nat, events: seq<Event>, k: Key)
    requires events != [] && s == Run(FRESH, max, events[..|events| - 1])
    requires Tracks(s) && Sized(s, max, events[..|events| - 1])
    requires s.day.Some? ==> s.day.value <= events[|events| - 1].day
    requires s.day.None? ==> s.files == map[]
    ensures SizedAt(Run(FRESH, max, events), max, events, k)
  {
    hide Run, LastLine, LastLineFits, EmitStep, Target, SizedAt;
    var front, e := events[..|events| - 1], events[|events| - 1];
    StepOfRun(max, events);
    LastLineStep(max, events, k);
    if k == Target(s, max, e.day) {
      TargetSized(s, max, front, e, LastLine(max, events, k));
      SizedHere(Run(FRESH, max, events), max, events, k);
    } else {
      OtherSized(s, max, front, e, k);
      SizedHere(Run(FRESH, max, events), max, events, k);
    }
  }

  /** What SizedAt says, with the last line of the file given. */
  ghost predicate SizedWith(s: State, max: nat, k: Key, last: Option<Bytes>) {
    if k !in s.files then last.None?
    else
      && s.day.Some? && KeyLe(k, Key(s.day.value, s.roll))
      && last.Some? && LastLineFits(s.files[k], max, last.value)
      && (k.roll > 0 ==> Full(s.files, Key(k.day, k.roll - 1), max))
  }

  lemma {:induction false} SizedHere(s: State, max: nat, events: seq<Event>, k: Key)
    ensures SizedAt(s, max, events, k) <==> SizedWith(s, max, k, LastLine(max, events, k))
  {
    hide LastLine, LastLineFits;
  }

  lemma {:induction false} LastLineStep(max: nat, events: seq<Event>, k: Key)
    requires events != []
    ensures var front, e := events[..|events| - 1], events[|events| - 1];
      LastLine(max, events, k)
      == if Target(Run(FRESH, max, front), max, e.day) == k then Some(e.line) else LastLine(max, front, k)
  {
    hide Run, Target;
  }

  lemma {:induction false} TargetSized(s: State, max: nat, front: seq<Event>, e: Event, last: Option<Bytes>)
    requires Tracks(s) && Sized(s, max, front) && (s.day.Some? ==> s.day.value <= e.day)
    requires s.day.None? ==> s.files == map[]
    requires last == Some(e.line)
    ensures SizedWith(EmitStep(s, max, e.day, e.line), max, Target(s, max, e.day), last)
  {
    hide LastLine, LastLineFits;
    var t := Target(s, max, e.day);
    assert SizedAt(s, max, front, t);
    GrownFits(Content(s.files, t), max, e.line);
  }

  lemma {:induction false} OtherSized(s: State, max: nat, front: seq<Event>, e: Event, k: Key)
    requires Tracks(s) && Sized(s, max, front) && (s.day.Some? ==> s.day.value <= e.day)
    requires k != Target(s, max, e.day)
    ensures SizedWith(EmitStep(s, max, e.day, e.line), max, k, LastLine(max, front, k))
  {
    hide LastLine, LastLineFits;
    assert SizedAt(s, max, front, k);
  }

  lemma {:induction false} StepOfRun(max: nat, events: seq<Event>)
    requires events != []
    ensures var n := |events| - 1;
      Run(FRESH, max, events) == EmitStep(Run(FRESH, max, events[..n]), max, events[n].day, events[n].line)
  {
  }

  // ---------- A restart on the same day ----------

  lemma {:induction false} EndOfRun(max: nat, events: seq<Event>)
    requires events != [] && events[|events| - 1].line != []
    ensures var s, e := Run(FRESH, max, events), events[|events| - 1];
      var k := Key(e.day, s.roll); k in s.files && s.files[k] != []
  {
    StepOfRun(max, events);
    hide Run;
  }

  /** After a run in a fresh directory that ends with a line that is not empty, a handler started anew on the same day
      continues the log, whatever its first line, exactly when that day has not rolled by size. */
  lemma {:induction false} RestartAfterRun(max: nat, events: seq<Event>)
    requires DaysAdvance(FRESH, events) && events != [] && events[|events| - 1].line != []
    ensures var s, today := Run(FRESH, max, events), events[|events| - 1].day;
      (forall line :: Read(EmitStep(State(s.files, None, 0, 0), max, today, line).files) == Read(s.files) + line)
      <==> s.roll == 0
  {
    hide Run, Read, EmitStep, LastLine;
    var s, today := Run(FRESH, max, events), events[|events| - 1].day;
    RestartContinues(s.files, max, today);
    EndOfRun(max, events);
    FreshRunSizes(max, events);
    RunReadsBack(FRESH, max, events);
    assert SizedAt(s, max, events, Key(today, s.roll));
    forall k | k in s.files ensures KeyLe(k, Key(today, s.roll)) { assert SizedAt(s, max, events, k); }
  }

  /** Two lines of one byte on one day, with a limit of one byte: the day has rolled, and a restart does not continue. */
  lemma {:induction false} RestartCanFail()
    ensures var events := [Event(0, [1]), Event(0, [2])];
      var s := Run(FRESH, 1, events);
      s.roll == 1
      && exists line :: Read(EmitStep(State(s.files, None, 0, 0), 1, 0, line).files) != Read(s.files) + line
  {
    var first: seq<Event>, events := [Event(0, [1])], [Event(0, [1]), Event(0, [2])];
    assert first[..0] == [] && events[..1] == first;
    assert Run(FRESH, 1, first).size == 1 && Run(FRESH, 1, first).day == Some(0) && Run(FRESH, 1, first).roll == 0;
    assert Run(FRESH, 1, events).roll == 1;
    hide Run, Read, EmitStep;
    RestartAfterRun(1, events);
  }
}
