/** What the runtime reads from the journals, and the closures that protect it. */
module JsonlReadings {
  import opened Wrappers
  import opened DurableFiles
  import opened JsonlLines
  import opened JsonlGroups
  import opened JsonlMerging
  import opened JsonlSequences
  import opened JsonlCompaction

  const FEEDBACK_LOOKBACK := 200

  /** The last physical lines, blank ones counted. */
  function Window(lines: seq<Line>): (window: seq<Line>)
    ensures |window| <= FEEDBACK_LOOKBACK
  {
    if |lines| <= FEEDBACK_LOOKBACK then lines else lines[|lines| - FEEDBACK_LOOKBACK..]
  }

  /** A turn with a line in the window is still in use. */
  predicate Recent(lines: seq<Line>, key: string) {
    exists line | line in Window(lines) :: line.key == Some(key)
  }

  lemma Associates(a: seq<Line>, b: seq<Line>, c: seq<Line>)
    ensures a + b + c == a + (b + c)
  {
  }

  lemma {:induction false} WithoutConcat(first: seq<Line>, second: seq<Line>, key: string)
    ensures Without(first + second, key) == Without(first, key) + Without(second, key)
  {
    hide Without;
    if second == [] {
      assert first + second == first;
      NothingWithout(key);
      assert Without(first, key) + [] == Without(first, key);
    } else {
      var n := |second| - 1;
      Associates(first, second[..n], [second[n]]);
      assert second == second[..n] + [second[n]];
      WithoutConcat(first, second[..n], key);
      WithoutOneMore(first + second[..n], second[n], key);
      WithoutOneMore(second[..n], second[n], key);
      Associates(Without(first, key), Without(second[..n], key), [second[n]]);
    }
  }

  lemma {:induction false} NothingToTake(lines: seq<Line>, key: string)
    requires forall line | line in lines :: line.key != Some(key)
    ensures Without(lines, key) == lines
  {
    hide Without;
    if lines == [] {
      NothingWithout(key);
    } else {
      NothingToTake(lines[..|lines| - 1], key);
      WithoutLast(lines, key);
    }
  }

  /** Deleting a turn that is not recent leaves the window as it was. */
  lemma WindowSurvives(lines: seq<Line>, key: string)
    requires !Recent(lines, key)
    ensures Window(Without(lines, key)) == Window(lines)
  {
    hide Without;
    var window := Window(lines);
    var older := lines[..|lines| - |window|];
    assert lines == older + window;
    WithoutConcat(older, window, key);
    NothingToTake(window, key);
    var kept := Without(lines, key);
    assert kept == Without(older, key) + window;
    if |lines| <= FEEDBACK_LOOKBACK {
      assert older == [];
      NothingToTake(older, key);
    } else {
      assert kept[|kept| - FEEDBACK_LOOKBACK..] == window;
    }
  }

  /** The last physical lines of a file: what the runtime reads back. */
  function LastLines(raws: seq<Bytes>): seq<Bytes> {
    if |raws| <= FEEDBACK_LOOKBACK then raws else raws[|raws| - FEEDBACK_LOOKBACK..]
  }

  function FileWindow(payload: Bytes): seq<Bytes> {
    LastLines(Split(payload))
  }

  lemma WindowIsFileWindow(parse: Bytes -> Parsed, payload: Bytes)
    requires Reading(parse, payload).Some?
    ensures FileWindow(payload) == Raws(Window(Reading(parse, payload).value))
  {
    hide Split, Reading, LineOf, IsLine;
    ReadingIsSound(parse, payload);
  }

  /** The lines before the window. */
  function Older(lines: seq<Line>): seq<Line> {
    lines[..|lines| - |Window(lines)|]
  }

  /** Without the key, the last line before the window takes the window's first line. */
  predicate SwallowsWindow(lines: seq<Line>, key: string) {
    var kept := Without(Older(lines), key);
    kept != [] && Window(lines) != [] && Swallows(kept[|kept| - 1].raw, Window(lines)[0].raw)
  }

  lemma KeptIsOlderAndWindow(lines: seq<Line>, key: string)
    requires !Recent(lines, key)
    ensures Without(lines, key) == Without(Older(lines), key) + Window(lines)
    ensures Older(lines) != [] ==> |Window(lines)| == FEEDBACK_LOOKBACK
  {
    hide Without;
    assert lines == Older(lines) + Window(lines);
    WithoutConcat(Older(lines), Window(lines), key);
    NothingToTake(Window(lines), key);
  }

  lemma {:induction false} TextConcat(first: seq<Line>, second: seq<Line>)
    ensures Text(first + second) == Text(first) + Text(second)
  {
    assert Raws(first + second) == Raws(first) + Raws(second);
    JoinConcat(Raws(first), Raws(second));
  }

  /** What whole lines end with. */
  lemma TextEnds(parse: Bytes -> Parsed, lines: seq<Line>)
    requires Sound(parse, lines) && lines != []
    ensures lines[|lines| - 1].raw != [] && Terminated(lines[|lines| - 1].raw) && Terminated(Text(lines))
    ensures Text(lines)[|Text(lines)| - 1] == lines[|lines| - 1].raw[|lines[|lines| - 1].raw| - 1]
  {
    hide LineOf, LineEnd;
    assert lines[|lines| - 1] in lines;
    LastOfJoin(Raws(lines));
  }

  /** Lines that stand apart are split as they are. */
  lemma ApartSplits(parse: Bytes -> Parsed, lines: seq<Line>)
    requires Sound(parse, lines) && Apart(lines)
    ensures Split(Text(lines)) == Raws(lines)
    ensures lines != [] ==> Text(lines) != [] && lines[0].raw != [] && Text(lines)[0] == lines[0].raw[0]
  {
    hide LineOf, IsLine, Split;
    SoundIsLines(parse, lines);
    SplitOfJoin(Raws(lines));
    if lines != [] {
      JoinStart(Raws(lines));
    }
  }

  /** What stands before a window and does not swallow its first line leaves it alone. */
  lemma WindowStays(parse: Bytes -> Parsed, older: seq<Line>, window: seq<Line>)
    requires Sound(parse, older) && Sound(parse, window) && Apart(window) && |window| == FEEDBACK_LOOKBACK
    requires older != [] ==> !Swallows(older[|older| - 1].raw, window[0].raw)
    ensures FileWindow(Text(older + window)) == Raws(window)
  {
    hide LineOf, IsLine, Split, Text, Apart, Sound;
    TextConcat(older, window);
    ApartSplits(parse, window);
    if older == [] {
      assert Text([]) == [] by { OneText(window[0]); }
      assert [] + Text(window) == Text(window);
    } else {
      TextEnds(parse, older);
    }
    SplitConcat(Text(older), Text(window));
    assert (Split(Text(older)) + Raws(window))[|Split(Text(older))|..] == Raws(window);
  }

  /** A window whose first line is swallowed begins with an older line instead. */
  lemma WindowMoves(parse: Bytes -> Parsed, older: seq<Line>, window: seq<Line>)
    requires Sound(parse, older) && Sound(parse, window) && Apart(window) && |window| == FEEDBACK_LOOKBACK
    requires older != [] && Swallows(older[|older| - 1].raw, window[0].raw)
    ensures var after := FileWindow(Text(older + window));
            && |after| == FEEDBACK_LOOKBACK && after[0] != [] && after[0][0] != LF && after != Raws(window)
  {
    hide LineOf, LineEnd, Split, Text, Apart, Sound;
    var rest := window[1..];
    assert window == [window[0]] + rest && window[0] in window;
    FirstIsLf(parse, older, window);
    TextConcat(older, window);
    TextConcat([window[0]], rest);
    OneText(window[0]);
    TextEnds(parse, older);
    SwallowedIsNoLine(Text(older));
    RestIsApart(parse, window);
    ApartSplits(parse, rest);
    var front := Text(older) + [LF];
    assert Text(older) + ([LF] + Text(rest)) == front + Text(rest);
    SplitConcat(front, Text(rest));
    var lines := Split(front) + Raws(rest);
    assert lines[|lines| - FEEDBACK_LOOKBACK] == Split(front)[|Split(front)| - 1];
    assert Raws(window)[0] == [LF];
  }

  lemma FirstIsLf(parse: Bytes -> Parsed, older: seq<Line>, window: seq<Line>)
    requires Sound(parse, window) && older != [] && window != [] && Swallows(older[|older| - 1].raw, window[0].raw)
    ensures window[0].raw == [LF] && older[|older| - 1].raw[|older[|older| - 1].raw| - 1] == CR
  {
    hide LineOf;
    assert window[0] in window;
    SwallowedIsLf(older[|older| - 1].raw, window[0].raw);
  }

  lemma RestIsApart(parse: Bytes -> Parsed, lines: seq<Line>)
    requires Sound(parse, lines) && Apart(lines) && lines != []
    ensures Sound(parse, lines[1..]) && Apart(lines[1..])
  {
    hide LineOf, IsLine, Swallows;
    forall i | 0 <= i < |lines[1..]| - 1 ensures !Swallows(lines[1..][i].raw, lines[1..][i + 1].raw) {
      assert !Swallows(lines[i + 1].raw, lines[i + 1 + 1].raw);
    }
    assert forall line | line in lines[1..] :: line in lines;
  }

  lemma WindowIsApart(parse: Bytes -> Parsed, lines: seq<Line>)
    requires Sound(parse, lines) && Apart(lines)
    ensures Sound(parse, Older(lines)) && Sound(parse, Window(lines)) && Apart(Window(lines))
  {
    hide LineOf, IsLine, Swallows;
    var window := Window(lines);
    var n := |lines| - |window|;
    forall i | 0 <= i < |window| - 1 ensures !Swallows(window[i].raw, window[i + 1].raw) {
      assert !Swallows(lines[n + i].raw, lines[n + i + 1].raw);
    }
    assert forall line | line in window :: line in lines;
  }

  /** Deleting a turn outside the window leaves the file's last physical lines if and
      only if the last line that stays before them does not swallow the first of them.
      Otherwise an older line has come into the window, which begins with no LF. */
  lemma WindowExactly(parse: Bytes -> Parsed, payload: Bytes, key: string)
    requires Reading(parse, payload).Some? && !Recent(Reading(parse, payload).value, key)
    ensures var lines := Reading(parse, payload).value;
            var after := FileWindow(Remaining(lines, key));
            && (after == FileWindow(payload) <==> !SwallowsWindow(lines, key))
            && (SwallowsWindow(lines, key) ==> after != [] && after[0] != [] && after[0][0] != LF)
  {
    hide Reading, LineOf, IsLine, Split, Text, Sound, Apart, Recent, Swallows, FileWindow;
    var lines := Reading(parse, payload).value;
    var kept := Without(Older(lines), key);
    ReadingIsSound(parse, payload);
    WindowIsFileWindow(parse, payload);
    KeptIsOlderAndWindow(lines, key);
    WindowIsApart(parse, lines);
    SoundWithout(parse, Older(lines), key);
    if Older(lines) == [] {
      NothingWithout(key);
      assert [] + Window(lines) == Window(lines) == lines;
      assert Remaining(lines, key) == payload by { ReadingIsText(parse, payload); }
    } else if SwallowsWindow(lines, key) {
      WindowMoves(parse, kept, Window(lines));
    } else {
      WindowStays(parse, kept, Window(lines));
    }
  }

  /** Deletions one after another, each allowed by the file as it then reads. */
  ghost predicate FileAllowed(parse: Bytes -> Parsed, protects: (seq<Line>, string) -> bool, payload: Bytes,
                              keys: seq<string>)
    decreases |keys|
  {
    keys == []
    || (&& Reading(parse, payload).Some? && !protects(Reading(parse, payload).value, keys[0])
        && FileAllowed(parse, protects, Remaining(Reading(parse, payload).value, keys[0]), keys[1..]))
  }

  /** At no deletion does the window's first line go with the line before it. */
  predicate NeverSwallows(parse: Bytes -> Parsed, payload: Bytes, keys: seq<string>)
    decreases |keys|
  {
    keys == []
    || (&& Reading(parse, payload).Some? && !SwallowsWindow(Reading(parse, payload).value, keys[0])
        && NeverSwallows(parse, Remaining(Reading(parse, payload).value, keys[0]), keys[1..]))
  }

  lemma {:induction false} AllowedIsAfter(parse: Bytes -> Parsed, protects: (seq<Line>, string) -> bool, payload: Bytes,
                                          keys: seq<string>)
    requires FileAllowed(parse, protects, payload, keys)
    ensures FileAfter(parse, payload, keys).Some?
    decreases |keys|
  {
    hide Reading, Remaining;
    if keys != [] {
      AllowedIsAfter(parse, protects, Remaining(Reading(parse, payload).value, keys[0]), keys[1..]);
    }
  }

  /** A window that begins with no LF is safe from every further deletion. */
  lemma {:induction false} OldWindowStays(parse: Bytes -> Parsed, payload: Bytes, keys: seq<string>)
    requires FileAllowed(parse, Recent, payload, keys)
    requires FileWindow(payload) != [] && FileWindow(payload)[0] != [] && FileWindow(payload)[0][0] != LF
    ensures FileAfter(parse, payload, keys).Some?
    ensures FileWindow(FileAfter(parse, payload, keys).value) == FileWindow(payload)
    decreases |keys|
  {
    hide Reading, Remaining, Recent, FileWindow, Window, Older, Without;
    if keys != [] {
      WindowIsFileWindow(parse, payload);
      WindowExactly(parse, payload, keys[0]);
      OldWindowStays(parse, Remaining(Reading(parse, payload).value, keys[0]), keys[1..]);
    }
  }

  /** Whatever turns are deleted from the file, the runtime reads the same last physical
      lines if and only if none of the deletions lets one of them go. */
  lemma {:induction false} WindowsExactly(parse: Bytes -> Parsed, payload: Bytes, keys: seq<string>)
    requires FileAllowed(parse, Recent, payload, keys)
    ensures FileAfter(parse, payload, keys).Some?
    ensures FileWindow(FileAfter(parse, payload, keys).value) == FileWindow(payload) <==>
      NeverSwallows(parse, payload, keys)
    decreases |keys|
  {
    hide Reading, Remaining, Recent, FileWindow, SwallowsWindow;
    if keys != [] {
      var lines := Reading(parse, payload).value;
      var left := Remaining(lines, keys[0]);
      WindowExactly(parse, payload, keys[0]);
      WindowsExactly(parse, left, keys[1..]);
      if SwallowsWindow(lines, keys[0]) {
        OldWindowStays(parse, left, keys[1..]);
      }
    }
  }

  lemma NoReturnsNoSwallow(parse: Bytes -> Parsed, payload: Bytes, key: string)
    requires Reading(parse, payload).Some? && CR !in payload
    ensures !SwallowsWindow(Reading(parse, payload).value, key)
  {
    hide Reading, IsLine, LineOf, Split;
    var lines := Reading(parse, payload).value;
    var kept := Without(Older(lines), key);
    if kept != [] {
      var last := kept[|kept| - 1];
      assert last in Older(lines);
      var i :| 0 <= i < |Older(lines)| && Older(lines)[i] == last;
      ReadingIsSound(parse, payload);
      assert Raws(lines)[i] == last.raw;
      PiecesOf(payload, last.raw);
    }
  }

  /** Without CR the runtime reads the same last lines, whatever permitted turns go. */
  lemma {:induction false} ReadingsSurvive(parse: Bytes -> Parsed, payload: Bytes, keys: seq<string>)
    requires CR !in payload && FileAllowed(parse, Recent, payload, keys)
    ensures NeverSwallows(parse, payload, keys) && FileAfter(parse, payload, keys).Some?
    ensures FileWindow(FileAfter(parse, payload, keys).value) == FileWindow(payload)
    decreases |keys|
  {
    hide Reading, Remaining, Recent, FileWindow, SwallowsWindow, Without;
    if keys != [] {
      NoReturnsNoSwallow(parse, payload, keys[0]);
      NoReturnsStep(parse, payload, keys[0]);
      ReadingsSurvive(parse, Remaining(Reading(parse, payload).value, keys[0]), keys[1..]);
      WindowExactly(parse, payload, keys[0]);
    }
  }

  /** The protection of one turn does not depend on others that may go. */
  lemma RecentIsSteady(lines: seq<Line>, gone: string, key: string)
    requires !Recent(lines, gone)
    ensures Recent(Without(lines, gone), key) <==> Recent(lines, key)
  {
    WindowSurvives(lines, gone);
  }

  /** The key of the physically last import record of a skill. */
  function Latest(skill: string -> string, lines: seq<Line>, wanted: string): Option<string> {
    if lines == [] then None
    else
      var last := lines[|lines| - 1];
      if last.key.Some? && skill(last.key.value) == wanted then last.key
      else Latest(skill, lines[..|lines| - 1], wanted)
  }

  /** A record is protected while it is the status of its skill. */
  predicate IsStatus(skill: string -> string, lines: seq<Line>, key: string) {
    Latest(skill, lines, skill(key)) == Some(key)
  }

  lemma {:induction false} LatestIsThere(skill: string -> string, lines: seq<Line>, wanted: string)
    ensures Latest(skill, lines, wanted).Some? ==>
      skill(Latest(skill, lines, wanted).value) == wanted && GroupOf(lines, Latest(skill, lines, wanted).value) != []
  {
    if lines != [] {
      LatestIsThere(skill, lines[..|lines| - 1], wanted);
    }
  }

  lemma LatestOneMore(skill: string -> string, lines: seq<Line>, line: Line, wanted: string)
    ensures Latest(skill, lines + [line], wanted) ==
            if line.key.Some? && skill(line.key.value) == wanted then line.key else Latest(skill, lines, wanted)
  {
    assert (lines + [line])[..|lines|] == lines;
  }

  /** Deleting anything but a skill's status leaves that status. */
  lemma {:induction false} StatusSurvives(skill: string -> string, lines: seq<Line>, key: string, wanted: string)
    requires Latest(skill, lines, wanted) != Some(key)
    ensures Latest(skill, Without(lines, key), wanted) == Latest(skill, lines, wanted)
  {
    if lines != [] {
      var n := |lines| - 1;
      var last := lines[n];
      WithoutLast(lines, key);
      if last.key.Some? && skill(last.key.value) == wanted {
        LatestOneMore(skill, Without(lines[..n], key), last, wanted);
      } else {
        StatusSurvives(skill, lines[..n], key, wanted);
        LatestOneMore(skill, Without(lines[..n], key), last, wanted);
      }
    }
  }

  /** Deleting a record that is no skill's status changes no skill's status. */
  lemma StatusesSurvive(skill: string -> string, lines: seq<Line>, key: string, wanted: string)
    requires !IsStatus(skill, lines, key)
    ensures Latest(skill, Without(lines, key), wanted) == Latest(skill, lines, wanted)
  {
    LatestIsThere(skill, lines, wanted);
    StatusSurvives(skill, lines, key, wanted);
  }

  /** Lines that merge keep the order of the records. */
  lemma {:induction false} LatestSettled(parse: Bytes -> Parsed, skill: string -> string, lines: seq<Line>,
                                         wanted: string)
    requires IgnoresEnds(parse) && Sound(parse, lines)
    ensures Latest(skill, Settle(lines), wanted) == Latest(skill, lines, wanted)
  {
    hide Latest, IsLine, LineOf, Swallows, IgnoresEnds;
    if lines != [] {
      var n := |lines| - 1;
      var settled, line := Settle(lines[..n]), lines[n];
      assert lines == lines[..n] + [line] && line in lines;
      LatestSettled(parse, skill, lines[..n], wanted);
      LatestOneMore(skill, lines[..n], line, wanted);
      LatestOneMore(skill, settled, line, wanted);
      SettleIsSound(parse, lines[..n]);
      if settled != [] && Swallows(settled[|settled| - 1].raw, line.raw) {
        var last := settled[|settled| - 1];
        assert last in settled && settled == settled[..|settled| - 1] + [last];
        MergedIsSound(parse, last, line);
        LatestOneMore(skill, settled[..|settled| - 1], last, wanted);
        LatestOneMore(skill, settled[..|settled| - 1], Line(last.key, last.raw + line.raw), wanted);
      }
    }
  }

  /** The last record of a file is its skill's status, so the last line stays. */
  lemma LastLineStays(skill: string -> string, lines: seq<Line>, key: string)
    requires !IsStatus(skill, lines, key) && EndsWithLf(lines)
    ensures EndsWithLf(Without(lines, key))
  {
    if lines != [] {
      WithoutLast(lines, key);
    }
  }

  /** One deletion from the file as it reads leaves every skill its status, with CR or
      without. */
  lemma StatusesSurviveOnFile(parse: Bytes -> Parsed, skill: string -> string, payload: Bytes, key: string,
                              wanted: string)
    requires IgnoresEnds(parse) && Reading(parse, payload).Some?
    requires !IsStatus(skill, Reading(parse, payload).value, key)
    ensures var lines := Reading(parse, payload).value;
            var left := Remaining(lines, key);
            && Reading(parse, left).Some?
            && Latest(skill, Reading(parse, left).value, wanted) == Latest(skill, lines, wanted)
  {
    hide Reading, Sound, Apart, Settle, Without, Text, Latest, EndsWithLf, IgnoresEnds;
    var lines := Reading(parse, payload).value;
    ReadingIsSound(parse, payload);
    SoundWithout(parse, lines, key);
    LastLineStays(skill, lines, key);
    SettledReading(parse, Without(lines, key));
    LatestSettled(parse, skill, Without(lines, key), wanted);
    StatusesSurvive(skill, lines, key, wanted);
  }

  /** Whatever import records are deleted from the file, every skill keeps its status. */
  lemma {:induction false} ImportReadingsSurvive(parse: Bytes -> Parsed, skill: string -> string, payload: Bytes,
                                                 keys: seq<string>, wanted: string)
    requires IgnoresEnds(parse) && Reading(parse, payload).Some?
    requires FileAllowed(parse, (read, key) => IsStatus(skill, read, key), payload, keys)
    ensures FileAfter(parse, payload, keys).Some? && Reading(parse, FileAfter(parse, payload, keys).value).Some?
    ensures Latest(skill, Reading(parse, FileAfter(parse, payload, keys).value).value, wanted) ==
            Latest(skill, Reading(parse, payload).value, wanted)
    decreases |keys|
  {
    hide Reading, Remaining, Latest, IgnoresEnds;
    if keys != [] {
      StatusesSurviveOnFile(parse, skill, payload, keys[0], wanted);
      ImportReadingsSurvive(parse, skill, Remaining(Reading(parse, payload).value, keys[0]), keys[1..], wanted);
    }
  }

  /** A feedback plan: every turn closed when the plan was made stays closed while the
      others go, so the plan can be carried out in any order. */
  lemma FeedbackPermissionsAreSteady(closed: string -> bool)
    ensures Steady((lines, key) => closed(key) && !Recent(lines, key))
  {
    var permits := (lines: seq<Line>, key: string) => closed(key) && !Recent(lines, key);
    forall lines, gone, key | gone != key && permits(lines, gone) && permits(lines, key)
      ensures permits(Without(lines, gone), key)
    {
      RecentIsSteady(lines, gone, key);
    }
  }

  lemma ImportPermissionsAreSteady(skill: string -> string, closed: string -> bool)
    ensures Steady((lines, key) => closed(key) && !IsStatus(skill, lines, key))
  {
    var permits := (lines: seq<Line>, key: string) => closed(key) && !IsStatus(skill, lines, key);
    forall lines, gone, key | gone != key && permits(lines, gone) && permits(lines, key)
      ensures permits(Without(lines, gone), key)
    {
      StatusesSurvive(skill, lines, gone, skill(key));
      assert !IsStatus(skill, Without(lines, gone), key);
    }
  }

  /** A turn may go when nothing about it is open and it is outside the window. */
  ghost function FeedbackPermit(closed: string -> bool): (seq<Line>, string) -> bool {
    (lines, key) => closed(key) && !Recent(lines, key)
  }

  ghost function ImportPermit(skill: string -> string, closed: string -> bool): (seq<Line>, string) -> bool {
    (lines, key) => closed(key) && !IsStatus(skill, lines, key)
  }

  /** A plan whose rows may all go, as deletions from the file one after another. */
  lemma {:induction false} PlanIsAllowed(parse: Bytes -> Parsed, permits: (seq<Line>, string) -> bool,
                                         protects: (seq<Line>, string) -> bool, payload: Bytes, keys: seq<string>)
    requires Reading(parse, payload).Some? && CR !in payload && Distinct(keys) && Steady(permits)
    requires Permitted(permits, Reading(parse, payload).value, keys)
    requires forall lines, key | permits(lines, key) :: !protects(lines, key)
    ensures FileAllowed(parse, protects, payload, keys)
    decreases |keys|
  {
    hide Reading, Remaining, Without;
    if keys != [] {
      var lines := Reading(parse, payload).value;
      assert keys[0] in keys;
      NoReturnsStep(parse, payload, keys[0]);
      LaterKeys(keys);
      forall key | key in keys[1..] ensures permits(Without(lines, keys[0]), key) {
      }
      PlanIsAllowed(parse, permits, protects, Remaining(lines, keys[0]), keys[1..]);
    }
  }

  /** A feedback plan recorded and carried out through any deaths: without CR it is done,
      and the runtime reads the last lines it read before. */
  method DeleteTurns(file: JournalFile, closed: string -> bool, keys: seq<string>, stops: seq<nat>) returns (r: Outcome)
    requires file.permits == FeedbackPermit(closed) && IgnoresEnds(file.parse) && Distinct(keys)
    requires file.partials == map[]
    requires file.payload.Some? && CR !in file.payload.value && Reading(file.parse, file.payload.value).Some?
    requires forall key | key in keys :: closed(key) && !Recent(Reading(file.parse, file.payload.value).value, key)
    modifies file`payload, file`partials, file`stop
    ensures !r.Stopped? && file.payload.Some? && FileWindow(file.payload.value) == FileWindow(old(file.payload).value)
    ensures r.Refused? <==> Missing(file.custody, Reading(file.parse, old(file.payload).value).value, keys)
    ensures r.Done? ==>
      file.payload == Some(Text(WithoutAll(Reading(file.parse, old(file.payload).value).value, SetOf(keys))))
  {
    hide Reading, Text, WithoutAll, VersionOf, Recent, Steady, IgnoresEnds, FileWindow, Recorded;
    ghost var payload := file.payload.value;
    var versions := file.RecordVersions(keys);
    if versions.None? {
      return Refused;
    }
    FeedbackPermissionsAreSteady(closed);
    PlanIsAllowed(file.parse, file.permits, Recent, payload, keys);
    NoReturnsInAnyOrder(file.parse, payload, keys);
    ReadingsSurvive(file.parse, payload, keys);
    ghost var done;
    r, done := file.DeletePlanAcrossStops(keys, versions.value, stops);
  }

  /** The same for import records: every skill keeps its status. */
  method DeleteImports(file: JournalFile, skill: string -> string, closed: string -> bool, keys: seq<string>,
                       stops: seq<nat>)
      returns (r: Outcome)
    requires file.permits == ImportPermit(skill, closed) && IgnoresEnds(file.parse) && Distinct(keys)
    requires file.partials == map[]
    requires file.payload.Some? && CR !in file.payload.value && Reading(file.parse, file.payload.value).Some?
    requires forall key | key in keys ::
      closed(key) && !IsStatus(skill, Reading(file.parse, file.payload.value).value, key)
    modifies file`payload, file`partials, file`stop
    ensures !r.Stopped? && file.payload.Some? && Reading(file.parse, file.payload.value).Some?
    ensures forall wanted :: Latest(skill, Reading(file.parse, file.payload.value).value, wanted) ==
                             Latest(skill, Reading(file.parse, old(file.payload).value).value, wanted)
    ensures r.Refused? <==> Missing(file.custody, Reading(file.parse, old(file.payload).value).value, keys)
    ensures r.Done? ==>
      file.payload == Some(Text(WithoutAll(Reading(file.parse, old(file.payload).value).value, SetOf(keys))))
  {
    hide Reading, Text, WithoutAll, VersionOf, Latest, Steady, IgnoresEnds, Recorded;
    ghost var payload := file.payload.value;
    var versions := file.RecordVersions(keys);
    if versions.None? {
      return Refused;
    }
    ImportPermissionsAreSteady(skill, closed);
    PlanIsAllowed(file.parse, file.permits, (read, key) => IsStatus(skill, read, key), payload, keys);
    NoReturnsInAnyOrder(file.parse, payload, keys);
    forall wanted
      ensures Reading(file.parse, FileAfter(file.parse, payload, keys).value).Some?
      ensures Latest(skill, Reading(file.parse, FileAfter(file.parse, payload, keys).value).value, wanted) ==
              Latest(skill, Reading(file.parse, payload).value, wanted)
    {
      ImportReadingsSurvive(file.parse, skill, payload, keys, wanted);
    }
    ghost var done;
    r, done := file.DeletePlanAcrossStops(keys, versions.value, stops);
  }

  /** So many lines that are only LF. */
  function Blanks(n: nat): (lines: seq<Line>)
    ensures |lines| == n && forall i | 0 <= i < n :: lines[i] == Line(None, [LF])
  {
    seq(n, i => Line(None, [LF]))
  }

  lemma BlanksAreSound(parse: Bytes -> Parsed, n: nat)
    requires IgnoresEnds(parse)
    ensures Sound(parse, Blanks(n))
  {
  }

  lemma SettleOneMore(lines: seq<Line>, line: Line)
    requires Settle(lines) != []
    ensures var settled := Settle(lines);
            var last := settled[|settled| - 1].raw;
            last != [] && last[|last| - 1] == LF ==> Settle(lines + [line]) == settled + [line]
  {
    assert (lines + [line])[..|lines|] == lines;
  }

  /** A record that ends in CR, then blank lines: the first of them goes with it. */
  lemma {:induction false} SettleBlanks(x: Line, n: nat)
    requires x.raw != [] && x.raw[|x.raw| - 1] == CR && n > 0
    ensures Settle([x] + Blanks(n)) == [Line(x.key, x.raw + [LF])] + Blanks(n - 1)
  {
    hide Settle, SettleOn;
    var lines, z := [x] + Blanks(n), Line(None, [LF]);
    assert lines[..n] == [x] + Blanks(n - 1) && lines == lines[..n] + [z];
    if n == 1 {
      assert lines[..n] == [x];
      SettleTwo(x, z);
      EndSwallows(x.raw, z.raw);
      assert lines == [x, z] && [Line(x.key, x.raw + [LF])] + Blanks(0) == [Line(x.key, x.raw + [LF])];
    } else {
      SettleBlanks(x, n - 1);
      var settled := Settle(lines[..n]);
      assert settled[|settled| - 1].raw[|settled[|settled| - 1].raw| - 1] == LF;
      SettleOneMore(lines[..n], z);
      assert Blanks(n - 2) + [z] == Blanks(n - 1);
    }
  }

  lemma SecondGone(x: Line, y: Line, key: string)
    requires x.key != Some(key) && y.key == Some(key)
    ensures Without([x, y], key) == [x]
  {
    hide Without;
    assert [x, y] == [] + [x] + [y];
    NothingWithout(key);
    WithoutOneMore([], x, key);
    WithoutOneMore([] + [x], y, key);
  }

  lemma EndSwallows(first: Bytes, second: Bytes)
    requires first != [] && first[|first| - 1] == CR && second != [] && second[0] == LF
    ensures Swallows(first, second)
  {
  }

  lemma LineOfText(parse: Bytes -> Parsed, text: Bytes, end: Byte, key: string)
    requires CR !in text && LF !in text && end in {CR, LF} && parse(text + [end]) == Keyed(key)
    ensures Sound(parse, [Line(Some(key), text + [end])])
  {
    hide LineEnd;
    PlainLine(text, end, []);
    assert text + [end] + [] == text + [end];
  }

  lemma TwoTurnsAreSound(parse: Bytes -> Parsed, a: Bytes, b: Bytes, first: string, second: string)
    requires CR !in a && LF !in a && CR !in b && LF !in b
    requires parse(a + [CR]) == Keyed(first) && parse(b + [LF]) == Keyed(second)
    ensures Sound(parse, [Line(Some(first), a + [CR]), Line(Some(second), b + [LF])])
  {
    hide IsLine, LineOf;
    LineOfText(parse, a, CR, first);
    LineOfText(parse, b, LF, second);
    assert Line(Some(first), a + [CR]) in [Line(Some(first), a + [CR])];
    assert Line(Some(second), b + [LF]) in [Line(Some(second), b + [LF])];
  }

  lemma TurnsAreApart(x: Line, y: Line, n: nat)
    requires y.raw != [] && y.raw[0] != LF && y.raw[|y.raw| - 1] == LF
    ensures Apart([x, y] + Blanks(n))
  {
  }

  /** Two turns before 200 blank lines: neither is in the window. */
  lemma TurnsBeforeBlanks(parse: Bytes -> Parsed, x: Line, y: Line)
    requires IgnoresEnds(parse) && Sound(parse, [x, y])
    requires y.raw != [] && y.raw[0] != LF && y.raw[|y.raw| - 1] == LF
    ensures var lines := [x, y] + Blanks(FEEDBACK_LOOKBACK);
            && Reading(parse, Text(lines)) == Some(lines)
            && Older(lines) == [x, y] && Window(lines) == Blanks(FEEDBACK_LOOKBACK)
            && FileWindow(Text(lines)) == Raws(Blanks(FEEDBACK_LOOKBACK))
  {
    hide Reading, Text, Split, IsLine, LineOf, Settle, IgnoresEnds, FileWindow, Apart, Recent;
    var zs := Blanks(FEEDBACK_LOOKBACK);
    var lines := [x, y] + zs;
    BlanksAreSound(parse, FEEDBACK_LOOKBACK);
    TurnsAreApart(x, y, FEEDBACK_LOOKBACK);
    SettledReading(parse, lines);
    ApartIsSettled(lines);
    WindowIsFileWindow(parse, Text(lines));
  }

  /** A turn that ends in CR before 200 blank lines: the first line of the window. */
  lemma TurnTakesBlank(parse: Bytes -> Parsed, x: Line, key: string)
    requires IgnoresEnds(parse) && Sound(parse, [x]) && x.key == Some(key) && x.raw != [] && x.raw[|x.raw| - 1] == CR
    ensures var left := Text([x] + Blanks(FEEDBACK_LOOKBACK));
            && Reading(parse, left).Some? && Recent(Reading(parse, left).value, key)
            && FileWindow(left) != [] && FileWindow(left)[0] == x.raw + [LF]
  {
    hide Reading, Text, Split, IsLine, LineOf, Settle, IgnoresEnds, FileWindow, Apart;
    var lines := [x] + Blanks(FEEDBACK_LOOKBACK);
    BlanksAreSound(parse, FEEDBACK_LOOKBACK);
    assert Sound(parse, lines);
    assert EndsWithLf(lines);
    SettledReading(parse, lines);
    SettleBlanks(x, FEEDBACK_LOOKBACK);
    var read := Settle(lines);
    assert Window(read) == read && read[0] in read;
    WindowIsFileWindow(parse, Text(lines));
  }

  /** With CR a permitted deletion can bring an old turn back: `a CR`, `b LF`, and 200
      lines that are only LF. The second turn is outside the window and may go; then the
      first one, which was outside the window too, is its first line. */
  lemma DeletionCanReachBack(parse: Bytes -> Parsed, a: Bytes, b: Bytes, first: string, second: string)
    requires IgnoresEnds(parse) && a != [] && b != [] && CR !in a && LF !in a && CR !in b && LF !in b && first != second
    requires parse(a + [CR]) == Keyed(first) && parse(b + [LF]) == Keyed(second)
    ensures var lines := [Line(Some(first), a + [CR]), Line(Some(second), b + [LF])] + Blanks(FEEDBACK_LOOKBACK);
            var left := Remaining(lines, second);
            && Reading(parse, Text(lines)) == Some(lines) && !Recent(lines, first) && !Recent(lines, second)
            && Reading(parse, left).Some? && Recent(Reading(parse, left).value, first)
            && FileWindow(left) != FileWindow(Text(lines)) && FileWindow(left)[0] == a + [CR, LF]
  {
    hide Reading, Text, Split, IgnoresEnds, Without, IsLine, LineOf, Apart, FileWindow;
    var x, y, zs := Line(Some(first), a + [CR]), Line(Some(second), b + [LF]), Blanks(FEEDBACK_LOOKBACK);
    TwoTurnsAreSound(parse, a, b, first, second);
    TurnsBeforeBlanks(parse, x, y);
    SecondGone(x, y, second);
    KeptIsOlderAndWindow([x, y] + zs, second);
    assert Sound(parse, [x]) by {
      assert x in [x, y];
    }
    TurnTakesBlank(parse, x, first);
    assert a + [CR] + [LF] == a + [CR, LF];
  }
}
