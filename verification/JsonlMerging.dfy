/** What a file reads as when a line that ends in CR comes to stand before an LF. */
module JsonlMerging {
  import opened Wrappers
  import opened DurableFiles
  import opened JsonlLines
  import opened JsonlGroups

  /** The decoder reads the same whether a line ends in CR or in CR LF, and an LF alone
      is blank: JSON ignores white space at its ends. */
  ghost predicate IgnoresEnds(parse: Bytes -> Parsed) {
    && parse([LF]) == BlankLine
    && forall text: Bytes :: parse(text + [CR, LF]) == parse(text + [CR])
  }

  /** One line more: it joins the line before it when that one swallows it. */
  function SettleOn(settled: seq<Line>, line: Line): seq<Line> {
    if settled != [] && Swallows(settled[|settled| - 1].raw, line.raw) then
      var last := settled[|settled| - 1];
      settled[..|settled| - 1] + [Line(last.key, last.raw + line.raw)]
    else settled + [line]
  }

  /** The physical lines that the lines make when they are written one after another. */
  function Settle(lines: seq<Line>): seq<Line> {
    if lines == [] then [] else SettleOn(Settle(lines[..|lines| - 1]), lines[|lines| - 1])
  }

  /** Whole lines that parse to what they are. */
  ghost predicate Sound(parse: Bytes -> Parsed, lines: seq<Line>) {
    forall line | line in lines :: IsLine(line.raw) && LineOf(parse, line.raw) == Some(line)
  }

  ghost predicate Apart(lines: seq<Line>) {
    forall i | 0 <= i < |lines| - 1 :: !Swallows(lines[i].raw, lines[i + 1].raw)
  }

  lemma {:induction false} LineThenLf(raw: Bytes)
    requires IsLine(raw) && raw[|raw| - 1] == CR
    ensures IsLine(raw + [LF])
  {
    if raw[0] !in {LF, CR} {
      assert (raw + [LF])[1..] == raw[1..] + [LF];
      LineThenLf(raw[1..]);
    }
  }

  /** A line that starts with LF is LF alone. */
  lemma SwallowedIsLf(first: Bytes, second: Bytes)
    requires IsLine(second) && Swallows(first, second)
    ensures second == [LF]
  {
  }

  lemma MergedIsSound(parse: Bytes -> Parsed, first: Line, second: Line)
    requires IgnoresEnds(parse) && Sound(parse, [first, second]) && Swallows(first.raw, second.raw)
    ensures Sound(parse, [Line(first.key, first.raw + second.raw)]) && second.key.None? && second.raw == [LF]
    ensures first.raw + second.raw != [] && (first.raw + second.raw)[|first.raw + second.raw| - 1] == LF
  {
    hide IsLine;
    assert first in [first, second] && second in [first, second];
    SwallowedIsLf(first.raw, second.raw);
    LineThenLf(first.raw);
    var text := first.raw[..|first.raw| - 1];
    assert first.raw == text + [CR] && first.raw + [LF] == text + [CR, LF];
  }

  lemma SettleOnIsSound(parse: Bytes -> Parsed, settled: seq<Line>, line: Line)
    requires IgnoresEnds(parse) && Sound(parse, settled) && Apart(settled) && Sound(parse, [line])
    ensures Sound(parse, SettleOn(settled, line)) && Apart(SettleOn(settled, line))
    ensures Text(SettleOn(settled, line)) == Text(settled) + line.raw
    ensures SettleOn(settled, line) != []
    ensures line.raw != []
    ensures var last := SettleOn(settled, line)[|SettleOn(settled, line)| - 1].raw;
            last != [] && last[|last| - 1] == line.raw[|line.raw| - 1]
  {
    hide IsLine, LineOf, Text;
    LineIsNotEmpty(parse, line);
    assert line in [line];
    if settled != [] && Swallows(settled[|settled| - 1].raw, line.raw) {
      var n := |settled| - 1;
      var last := settled[n];
      assert last in settled;
      MergedIsSound(parse, last, line);
      var merged := Line(last.key, last.raw + line.raw);
      assert merged in [merged];
      MergedStaysApart(settled, merged);
      assert settled == settled[..n] + [last];
      TextMore(settled[..n], last);
      TextMore(settled[..n], merged);
      forall other | other in settled[..n] ensures other in settled {
      }
    } else {
      TextMore(settled, line);
    }
  }

  lemma LineIsNotEmpty(parse: Bytes -> Parsed, line: Line)
    requires Sound(parse, [line])
    ensures line.raw != []
  {
    assert line in [line];
  }

  lemma MergedStaysApart(settled: seq<Line>, merged: Line)
    requires Apart(settled) && settled != []
    requires settled[|settled| - 1].raw != [] && settled[|settled| - 1].raw <= merged.raw
    ensures Apart(settled[..|settled| - 1] + [merged])
  {
    var n := |settled| - 1;
    var after := settled[..n] + [merged];
    forall i | 0 <= i < |after| - 1 ensures !Swallows(after[i].raw, after[i + 1].raw) {
      assert !Swallows(settled[i].raw, settled[i + 1].raw);
    }
  }

  /** The last line ends with LF, as a readable file must. */
  predicate EndsWithLf(lines: seq<Line>) {
    lines != [] ==> lines[|lines| - 1].raw != [] && lines[|lines| - 1].raw[|lines[|lines| - 1].raw| - 1] == LF
  }

  lemma {:induction false} SettleIsSound(parse: Bytes -> Parsed, lines: seq<Line>)
    requires IgnoresEnds(parse) && Sound(parse, lines)
    ensures Sound(parse, Settle(lines)) && Apart(Settle(lines))
    ensures Text(Settle(lines)) == Text(lines)
    ensures Settle(lines) == [] <==> lines == []
    ensures EndsWithLf(Settle(lines)) <==> EndsWithLf(lines)
  {
    hide SettleOn, IsLine, LineOf, Text, IgnoresEnds, Apart;
    if lines == [] {
      NothingIsApart();
    } else {
      var n := |lines| - 1;
      assert lines == lines[..n] + [lines[n]] && lines[n] in lines;
      SettleIsSound(parse, lines[..n]);
      SettleOnIsSound(parse, Settle(lines[..n]), lines[n]);
      TextMore(lines[..n], lines[n]);
    }
  }

  lemma NothingIsApart()
    ensures Apart([])
  {
  }

  lemma ReadingIsSound(parse: Bytes -> Parsed, payload: Bytes)
    requires Reading(parse, payload).Some?
    ensures var lines := Reading(parse, payload).value;
            Sound(parse, lines) && Apart(lines) && EndsWithLf(lines) && Text(lines) == payload
              && Raws(lines) == Split(payload)
  {
    hide Reading, IsLine, LineOf, Split, Join, LinesOf, Swallows;
    var lines := Reading(parse, payload).value;
    ReadingUnfolds(parse, payload);
    LinesAreParsed(parse, Split(payload), lines);
    SplitLines(payload);
    SplitNeverSwallows(payload);
    JoinSplit(payload);
    LastOfJoin(Raws(lines));
    forall line | line in lines ensures IsLine(line.raw) {
      var i :| 0 <= i < |lines| && lines[i] == line;
      assert Raws(lines)[i] in Raws(lines);
    }
    forall i | 0 <= i < |lines| - 1 ensures !Swallows(lines[i].raw, lines[i + 1].raw) {
      assert !Swallows(Raws(lines)[i], Raws(lines)[i + 1]);
    }
    if lines != [] {
      assert Raws(lines)[|lines| - 1] in Raws(lines);
      LineEndsSomewhere(lines[|lines| - 1].raw);
    }
  }

  lemma ReadingUnfolds(parse: Bytes -> Parsed, payload: Bytes)
    requires Reading(parse, payload).Some?
    ensures LinesOf(parse, Split(payload)) == Reading(parse, payload)
    ensures payload == [] || payload[|payload| - 1] == LF
  {
  }

  lemma LineEndsSomewhere(raw: Bytes)
    requires IsLine(raw)
    ensures raw != []
  {
  }

  /** The file that whole lines make reads as the lines they settle into, if and only
      if the last one ends with LF. */
  lemma SettledReading(parse: Bytes -> Parsed, lines: seq<Line>)
    requires IgnoresEnds(parse) && Sound(parse, lines)
    ensures Reading(parse, Text(lines)) == if EndsWithLf(lines) then Some(Settle(lines)) else None
  {
    hide IsLine, LineOf, Split, Join, LinesOf, Settle, Swallows, IgnoresEnds;
    var settled := Settle(lines);
    SettleIsSound(parse, lines);
    SoundIsLines(parse, settled);
    SplitOfJoin(Raws(settled));
    LinesAreParsed(parse, Raws(settled), settled);
    LastOfJoin(Raws(settled));
  }

  lemma SoundIsLines(parse: Bytes -> Parsed, lines: seq<Line>)
    requires Sound(parse, lines) && Apart(lines)
    ensures AllLines(Raws(lines)) && NoneSwallows(Raws(lines)) && ParsedFrom(parse, lines)
    ensures lines != [] ==> lines[|lines| - 1].raw != []
  {
    hide LineEnd, LineOf, Swallows;
    forall raw | raw in Raws(lines) ensures IsLine(raw) {
      var i :| 0 <= i < |lines| && Raws(lines)[i] == raw;
      assert lines[i] in lines;
    }
    if lines != [] {
      assert lines[|lines| - 1] in lines;
    }
  }

  /** The lines of a settled reading stand for themselves. */
  lemma {:induction false} ApartIsSettled(lines: seq<Line>)
    requires Apart(lines)
    ensures Settle(lines) == lines
  {
    hide Swallows;
    if lines != [] {
      var n := |lines| - 1;
      ApartIsSettled(lines[..n]);
      assert n > 0 ==> !Swallows(lines[n - 1].raw, lines[n - 1 + 1].raw);
    }
  }

  lemma SoundWithout(parse: Bytes -> Parsed, lines: seq<Line>, key: string)
    requires Sound(parse, lines)
    ensures Sound(parse, Without(lines, key))
  {
    hide IsLine, LineOf;
  }

  /** The same lines, some of them longer at their end. */
  predicate Grown(before: seq<Bytes>, after: seq<Bytes>) {
    |before| == |after| && forall i | 0 <= i < |before| :: before[i] <= after[i]
  }

  lemma {:induction false} GrownWeighs(before: seq<Bytes>, after: seq<Bytes>)
    requires Grown(before, after)
    ensures |Join(before)| <= |Join(after)|
    ensures |Join(before)| == |Join(after)| <==> before == after
  {
    if before != [] {
      var n := |before| - 1;
      GrownWeighs(before[..n], after[..n]);
      assert before == before[..n] + [before[n]] && after == after[..n] + [after[n]];
      JoinMore(before[..n], before[n]);
      JoinMore(after[..n], after[n]);
      assert |before[n]| == |after[n]| ==> before[n] == after[n];
    }
  }

  lemma GroupOneMore(lines: seq<Line>, line: Line, key: string)
    ensures GroupOf(lines + [line], key) == GroupOf(lines, key) + if line.key == Some(key) then [line.raw] else []
  {
    assert (lines + [line])[..|lines|] == lines;
  }

  lemma GroupLast(lines: seq<Line>, key: string)
    requires lines != []
    ensures var n := |lines| - 1;
            GroupOf(lines, key) == GroupOf(lines[..n], key) + if lines[n].key == Some(key) then [lines[n].raw] else []
  {
  }

  /** What one line more does to the records of a key. */
  lemma SettleOnGroup(parse: Bytes -> Parsed, settled: seq<Line>, line: Line, key: string)
    requires IgnoresEnds(parse) && Sound(parse, settled) && Sound(parse, [line])
    ensures
      var after, before := GroupOf(SettleOn(settled, line), key), GroupOf(settled, key);
      if settled != [] && Swallows(settled[|settled| - 1].raw, line.raw) then
        && line.key.None?
        && (if settled[|settled| - 1].key == Some(key)
            then before != [] && after == before[..|before| - 1] + [before[|before| - 1] + [LF]]
            else after == before)
      else after == before + if line.key == Some(key) then [line.raw] else []
  {
    hide GroupOf, IsLine, LineOf, Swallows, IgnoresEnds;
    if settled != [] && Swallows(settled[|settled| - 1].raw, line.raw) {
      var n := |settled| - 1;
      var last := settled[n];
      assert last in settled && line in [line];
      MergedIsSound(parse, last, line);
      GroupLast(settled, key);
      GroupOneMore(settled[..n], Line(last.key, last.raw + line.raw), key);
    } else {
      GroupOneMore(settled, line, key);
    }
  }

  /** Settling only lengthens records, each by an LF that a blank line was. */
  lemma {:induction false} SettleGrows(parse: Bytes -> Parsed, lines: seq<Line>, key: string)
    requires IgnoresEnds(parse) && Sound(parse, lines)
    ensures Grown(GroupOf(lines, key), GroupOf(Settle(lines), key))
  {
    hide GroupOf, SettleOn, IsLine, LineOf, Swallows, IgnoresEnds;
    if lines == [] {
      NoGroup(key);
    } else {
      var n := |lines| - 1;
      assert lines == lines[..n] + [lines[n]] && lines[n] in lines;
      SettleGrows(parse, lines[..n], key);
      SettleIsSound(parse, lines[..n]);
      SettleOnGroup(parse, Settle(lines[..n]), lines[n], key);
      GroupLast(lines, key);
    }
  }

  lemma NoGroup(key: string)
    ensures GroupOf([], key) == []
  {
  }

  /** The text of a file is the text of one group and of everything else. */
  lemma {:induction false} GroupWeighs(lines: seq<Line>, key: string)
    ensures |Text(lines)| == |Text(Without(lines, key))| + |Join(GroupOf(lines, key))|
  {
    hide Join, Text, Without, GroupOf;
    if lines == [] {
      NoGroup(key);
      NothingWithout(key);
      TextMore([], Line(None, []));
      NoJoin();
    } else {
      var n := |lines| - 1;
      var group := GroupOf(lines[..n], key);
      assert lines == lines[..n] + [lines[n]];
      GroupWeighs(lines[..n], key);
      TextMore(lines[..n], lines[n]);
      TextWithout(lines[..n], lines[n], key);
      GroupLast(lines, key);
      JoinMore(group, lines[n].raw);
      assert group + [] == group;
    }
  }

  /** Without a line of the key before it, a merged LF stays with what it joined. */
  lemma SettleOnText(parse: Bytes -> Parsed, settled: seq<Line>, line: Line, key: string)
    requires IgnoresEnds(parse) && Sound(parse, settled) && Sound(parse, [line])
    requires settled != [] && Swallows(settled[|settled| - 1].raw, line.raw) ==> settled[|settled| - 1].key != Some(key)
    ensures Text(Without(SettleOn(settled, line), key)) ==
            Text(Without(settled, key)) + if line.key == Some(key) then [] else line.raw
  {
    hide Text, Without, IsLine, LineOf, Swallows, IgnoresEnds;
    TextWithout(settled, line, key);
    if settled != [] && Swallows(settled[|settled| - 1].raw, line.raw) {
      var n := |settled| - 1;
      var last := settled[n];
      assert last in settled && line in [line] && settled == settled[..n] + [last];
      MergedIsSound(parse, last, line);
      TextWithout(settled[..n], last, key);
      TextWithout(settled[..n], Line(last.key, last.raw + line.raw), key);
    }
  }

  lemma CancelTail(before: seq<Bytes>, after: seq<Bytes>, tail: seq<Bytes>)
    requires before + tail == after + tail
    ensures before == after
  {
    assert |before| == |after|;
    assert before == (before + tail)[..|before|] && after == (after + tail)[..|after|];
  }

  /** If no record of the key was lengthened, none is where the last line joined. */
  lemma UnchangedBefore(parse: Bytes -> Parsed, lines: seq<Line>, key: string)
    requires IgnoresEnds(parse) && Sound(parse, lines) && lines != []
    requires GroupOf(Settle(lines), key) == GroupOf(lines, key)
    ensures var n := |lines| - 1;
            var settled := Settle(lines[..n]);
            && GroupOf(settled, key) == GroupOf(lines[..n], key)
            && (settled != [] && Swallows(settled[|settled| - 1].raw, lines[n].raw) ==>
                  settled[|settled| - 1].key != Some(key))
  {
    hide GroupOf, SettleOn, IsLine, LineOf, Swallows, IgnoresEnds;
    var n := |lines| - 1;
    assert lines == lines[..n] + [lines[n]] && lines[n] in lines;
    var settled := Settle(lines[..n]);
    SettleIsSound(parse, lines[..n]);
    SettleGrows(parse, lines[..n], key);
    SettleOnGroup(parse, settled, lines[n], key);
    GroupLast(lines, key);
    var before, after := GroupOf(lines[..n], key), GroupOf(settled, key);
    if settled != [] && Swallows(settled[|settled| - 1].raw, lines[n].raw) {
      assert before + [] == before;
      if before != [] && after != [] {
        var k := |after| - 1;
        assert |before[k]| < |(after[..k] + [after[k] + [LF]])[k]|;
      }
    } else {
      CancelTail(before, after, if lines[n].key == Some(key) then [lines[n].raw] else []);
    }
  }

  lemma {:induction false} UnchangedText(parse: Bytes -> Parsed, lines: seq<Line>, key: string)
    requires IgnoresEnds(parse) && Sound(parse, lines)
    requires GroupOf(Settle(lines), key) == GroupOf(lines, key)
    ensures Text(Without(Settle(lines), key)) == Text(Without(lines, key))
  {
    hide GroupOf, Without, Text, SettleOn, IsLine, LineOf, Swallows, IgnoresEnds;
    if lines != [] {
      var n := |lines| - 1;
      assert lines == lines[..n] + [lines[n]] && lines[n] in lines;
      UnchangedBefore(parse, lines, key);
      UnchangedText(parse, lines[..n], key);
      SettleIsSound(parse, lines[..n]);
      SettleOnText(parse, Settle(lines[..n]), lines[n], key);
      TextWithout(lines[..n], lines[n], key);
    }
  }

  /** Deleting a group from the file as it reads takes exactly the group's own lines if
      and only if no line of the group took an LF from the blank line after it. */
  lemma UnchangedExactly(parse: Bytes -> Parsed, lines: seq<Line>, key: string)
    requires IgnoresEnds(parse) && Sound(parse, lines)
    ensures Text(Without(Settle(lines), key)) == Text(Without(lines, key)) <==>
            GroupOf(Settle(lines), key) == GroupOf(lines, key)
  {
    hide GroupOf, Without, Text, Settle, IsLine, LineOf, IgnoresEnds, Grown;
    SettleIsSound(parse, lines);
    GroupWeighs(lines, key);
    GroupWeighs(Settle(lines), key);
    SettleGrows(parse, lines, key);
    GrownWeighs(GroupOf(lines, key), GroupOf(Settle(lines), key));
    if GroupOf(Settle(lines), key) == GroupOf(lines, key) {
      UnchangedText(parse, lines, key);
    }
  }
}
