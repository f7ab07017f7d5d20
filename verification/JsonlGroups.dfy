/** The record groups of a journal file, and the lines that stay without them. */
module JsonlGroups {
  import opened Wrappers
  import opened DurableFiles
  import opened JsonlLines

  /** The lines that stay when a key goes: blank lines always do. */
  function Without(lines: seq<Line>, key: string): (kept: seq<Line>)
    ensures forall line | line in kept :: line in lines && line.key != Some(key)
  {
    if lines == [] then []
    else
      var last := lines[|lines| - 1];
      Without(lines[..|lines| - 1], key) + if last.key == Some(key) then [] else [last]
  }

  /** The record lines of one key, in order. */
  function GroupOf(lines: seq<Line>, key: string): seq<Bytes> {
    if lines == [] then []
    else
      var last := lines[|lines| - 1];
      GroupOf(lines[..|lines| - 1], key) + if last.key == Some(key) then [last.raw] else []
  }

  /** The file that lines make. */
  function Text(lines: seq<Line>): Bytes {
    Join(Raws(lines))
  }

  function Remaining(lines: seq<Line>, key: string): Bytes {
    Text(Without(lines, key))
  }

  lemma TextMore(lines: seq<Line>, line: Line)
    ensures Text(lines + [line]) == Text(lines) + line.raw && Text([]) == []
  {
    assert Raws(lines + [line]) == Raws(lines) + [line.raw];
    JoinMore(Raws(lines), line.raw);
  }

  lemma TextWithout(lines: seq<Line>, line: Line, key: string)
    ensures Text(Without(lines + [line], key)) ==
      if line.key == Some(key) then Text(Without(lines, key)) else Text(Without(lines, key)) + line.raw
  {
    hide Text, Without;
    WithoutOneMore(lines, line, key);
    TextMore(Without(lines, key), line);
  }

  /** What the object version of a key is a digest of: where the file is, whose it
      is, and the exact bytes of the key's records. */
  datatype Version = Version(custody: string, records: seq<Bytes>)

  function VersionOf(custody: string, lines: seq<Line>, key: string): Option<Version> {
    if GroupOf(lines, key) == [] then None else Some(Version(custody, GroupOf(lines, key)))
  }

  /** The file that is left reads back as the lines that were kept: no kept line
      ends in CR right before a line that starts with LF, and the last one ends
      with LF. */
  predicate ReadsBack(lines: seq<Line>) {
    NoneSwallows(Raws(lines))
      && (lines != [] ==> lines[|lines| - 1].raw != [] && lines[|lines| - 1].raw[|lines[|lines| - 1].raw| - 1] == LF)
  }

  lemma {:induction false} WithoutOthers(lines: seq<Line>, key: string, other: string)
    requires other != key
    ensures GroupOf(Without(lines, key), other) == GroupOf(lines, other)
  {
    if lines != [] {
      var n := |lines| - 1;
      WithoutOthers(lines[..n], key, other);
      var kept := Without(lines[..n], key);
      if lines[n].key != Some(key) {
        assert (kept + [lines[n]])[..|kept|] == kept;
      } else {
        assert kept + [] == kept;
      }
    }
  }

  lemma {:induction false} WithoutItself(lines: seq<Line>, key: string)
    ensures GroupOf(Without(lines, key), key) == []
  {
    if lines != [] {
      var n := |lines| - 1;
      WithoutItself(lines[..n], key);
      var kept := Without(lines[..n], key);
      if lines[n].key != Some(key) {
        assert (kept + [lines[n]])[..|kept|] == kept;
      } else {
        assert kept + [] == kept;
      }
    }
  }

  /** Two groups can go in either order. */
  lemma {:induction false} WithoutCommutes(lines: seq<Line>, first: string, second: string)
    ensures Without(Without(lines, first), second) == Without(Without(lines, second), first)
  {
    if lines != [] {
      var n := |lines| - 1;
      WithoutCommutes(lines[..n], first, second);
      WithoutLast(lines, first);
      WithoutLast(lines, second);
      WithoutOneMore(Without(lines[..n], first), lines[n], second);
      WithoutOneMore(Without(lines[..n], second), lines[n], first);
    }
  }

  lemma NothingWithout(key: string)
    ensures Without([], key) == []
  {
  }

  lemma WithoutLast(lines: seq<Line>, key: string)
    requires lines != []
    ensures var n := |lines| - 1;
            Without(lines, key) ==
              if lines[n].key == Some(key) then Without(lines[..n], key) else Without(lines[..n], key) + [lines[n]]
  {
  }

  lemma WithoutOneMore(lines: seq<Line>, line: Line, key: string)
    ensures Without(lines + [line], key) ==
      if line.key == Some(key) then Without(lines, key) else Without(lines, key) + [line]
  {
    assert (lines + [line])[..|lines|] == lines;
  }

  lemma {:induction false} WithoutAbsent(lines: seq<Line>, key: string)
    requires GroupOf(lines, key) == []
    ensures Without(lines, key) == lines
  {
    hide Without;
    if lines == [] {
      NothingWithout(key);
    } else {
      WithoutAbsent(lines[..|lines| - 1], key);
      WithoutLast(lines, key);
    }
  }

  lemma KeptIsParsed(parse: Bytes -> Parsed, payload: Bytes, key: string)
    requires Reading(parse, payload).Some?
    ensures var kept := Without(Reading(parse, payload).value, key);
            ParsedFrom(parse, kept) && AllLines(Raws(kept))
  {
    var lines := Reading(parse, payload).value;
    LinesAreParsed(parse, Split(payload), lines);
    SplitLines(payload);
    hide LineOf, IsLine;
    var kept := Without(lines, key);
    forall raw | raw in Raws(kept) ensures IsLine(raw) {
      var i :| 0 <= i < |kept| && Raws(kept)[i] == raw;
      assert kept[i] in lines;
      var j :| 0 <= j < |lines| && lines[j] == kept[i];
      assert Raws(lines)[j] == raw && raw in Raws(lines);
    }
  }

  lemma JoinEnds(raws: seq<Bytes>)
    requires AllLines(raws)
    ensures raws == [] <==> Join(raws) == []
    ensures raws != [] ==>
      raws[|raws| - 1] != [] && Join(raws)[|Join(raws)| - 1] == raws[|raws| - 1][|raws[|raws| - 1]| - 1]
  {
    hide Join, LineEnd;
    LastOfJoin(raws);
    if raws != [] {
      assert IsLine(raws[|raws| - 1]);
    }
  }

  /** Whole lines written one after another read back if and only if they stay apart. */
  lemma LinesReadBack(parse: Bytes -> Parsed, kept: seq<Line>)
    requires ParsedFrom(parse, kept) && AllLines(Raws(kept))
    ensures Reading(parse, Text(kept)) == Some(kept) <==> ReadsBack(kept)
  {
    hide LineOf, IsLine, NoneSwallows, ParsedFrom, Split, Join, LinesOf;
    SplitsBack(Raws(kept));
    LinesAreParsed(parse, Split(Text(kept)), kept);
    JoinEnds(Raws(kept));
  }

  /** The file left by a deletion reads as exactly the kept lines if and only if the
      kept lines read back. */
  lemma SurvivorsExactly(parse: Bytes -> Parsed, payload: Bytes, key: string)
    requires Reading(parse, payload).Some?
    ensures var lines := Reading(parse, payload).value;
            Reading(parse, Remaining(lines, key)) == Some(Without(lines, key)) <==> ReadsBack(Without(lines, key))
  {
    hide Reading, ParsedFrom, AllLines, ReadsBack, Text, Without;
    KeptIsParsed(parse, payload, key);
    LinesReadBack(parse, Without(Reading(parse, payload).value, key));
  }

  lemma {:induction false} PiecesOf(payload: Bytes, raw: Bytes)
    requires raw in Split(payload)
    ensures forall b | b in raw :: b in payload
  {
    if raw != payload[..LineEnd(payload)] {
      PiecesOf(payload[LineEnd(payload)..], raw);
    }
  }

  lemma LinesHaveNoReturns(parse: Bytes -> Parsed, payload: Bytes, line: Line)
    requires Reading(parse, payload).Some? && CR !in payload && line in Reading(parse, payload).value
    ensures CR !in line.raw
  {
    hide Split, LineEnd, ParsedFrom;
    var lines := Reading(parse, payload).value;
    LinesAreParsed(parse, Split(payload), lines);
    var j :| 0 <= j < |lines| && lines[j] == line;
    assert Raws(lines)[j] == line.raw;
    PiecesOf(payload, line.raw);
  }

  /** Without CR there is nothing to watch for. */
  lemma NoReturnsReadBack(parse: Bytes -> Parsed, payload: Bytes, key: string)
    requires Reading(parse, payload).Some? && CR !in payload
    ensures ReadsBack(Without(Reading(parse, payload).value, key))
  {
    hide Reading, LineEnd, ParsedFrom, Without;
    var kept := Without(Reading(parse, payload).value, key);
    KeptIsParsed(parse, payload, key);
    forall i | 0 <= i < |kept| ensures kept[i].raw != [] && kept[i].raw[|kept[i].raw| - 1] == LF {
      assert Raws(kept)[i] in Raws(kept) && kept[i] in kept;
      LinesHaveNoReturns(parse, payload, kept[i]);
    }
  }

  lemma MiddleGone(x: Line, y: Line, z: Line, key: string)
    requires x.key != Some(key) && y.key == Some(key) && z.key != Some(key)
    ensures Without([x, y, z], key) == [x, z]
  {
    hide Without;
    assert [x, y, z] == [] + [x] + [y] + [z];
    NothingWithout(key);
    WithoutOneMore([], x, key);
    WithoutOneMore([] + [x], y, key);
    WithoutOneMore([] + [x] + [y], z, key);
  }

  lemma ThreeLinesRead(parse: Bytes -> Parsed, a: Bytes, b: Bytes, first: string, second: string)
    requires a != [] && b != [] && CR !in a && LF !in a && CR !in b && LF !in b
    requires parse(a + [CR]) == Keyed(first) && parse(b + [LF]) == Keyed(second) && parse([LF]) == BlankLine
    ensures Reading(parse, a + [CR] + b + [LF] + [LF]) ==
            Some([Line(Some(first), a + [CR]), Line(Some(second), b + [LF]), Line(None, [LF])])
  {
    hide Split, LinesOf;
    var payload := a + [CR] + b + [LF] + [LF];
    var lines := [Line(Some(first), a + [CR]), Line(Some(second), b + [LF]), Line(None, [LF])];
    ThreeLines(a, b);
    assert Raws(lines) == [a + [CR], b + [LF], [LF]];
    LinesAreParsed(parse, Split(payload), lines);
  }

  /** With CR it can fail: deleting the second of three lines merges the other two,
      and the version of the first changes under its feet. */
  lemma ReturnsCanMerge(parse: Bytes -> Parsed, a: Bytes, b: Bytes, first: string, second: string)
    requires a != [] && b != [] && CR !in a && LF !in a && CR !in b && LF !in b
    requires parse(a + [CR]) == Keyed(first) && parse(b + [LF]) == Keyed(second) && parse([LF]) == BlankLine
    requires first != second
    ensures var payload := a + [CR] + b + [LF] + [LF];
            var lines := [Line(Some(first), a + [CR]), Line(Some(second), b + [LF]), Line(None, [LF])];
            && Reading(parse, payload) == Some(lines)
            && Reading(parse, Remaining(lines, second)) != Some(Without(lines, second))
            && !ReadsBack(Without(lines, second))
  {
    var payload := a + [CR] + b + [LF] + [LF];
    hide Without, Reading, Split;
    var lines := [Line(Some(first), a + [CR]), Line(Some(second), b + [LF]), Line(None, [LF])];
    ThreeLinesRead(parse, a, b, first, second);
    var kept := [lines[0], lines[2]];
    MiddleGone(lines[0], lines[1], lines[2], second);
    assert Swallows(Raws(kept)[0], Raws(kept)[0 + 1]);
    SurvivorsExactly(parse, payload, second);
  }

  lemma {:induction false} PlainLine(text: Bytes, end: Byte, rest: Bytes)
    requires CR !in text && LF !in text && end in {CR, LF} && (end == CR ==> rest == [] || rest[0] != LF)
    ensures LineEnd(text + [end] + rest) == |text| + 1
  {
    if text != [] {
      assert (text + [end] + rest)[1..] == text[1..] + [end] + rest;
      PlainLine(text[1..], end, rest);
    }
  }

  lemma ThreeLines(a: Bytes, b: Bytes)
    requires a != [] && b != [] && CR !in a && LF !in a && CR !in b && LF !in b
    ensures Split(a + [CR] + b + [LF] + [LF]) == [a + [CR], b + [LF], [LF]]
  {
    var rest := b + [LF] + [LF];
    assert a + [CR] + b + [LF] + [LF] == a + [CR] + rest;
    PlainLine(a, CR, rest);
    PlainLine(b, LF, [LF]);
    var payload := a + [CR] + rest;
    assert payload[..|a| + 1] == a + [CR] && payload[|a| + 1..] == rest;
    assert rest[..|b| + 1] == b + [LF] && rest[|b| + 1..] == [LF];
    assert [LF][..1] == [LF] && [LF][1..] == [];
    assert Split([LF]) == [[LF]];
  }

  predicate Distinct(keys: seq<string>) {
    forall i, j | 0 <= i < j < |keys| :: keys[i] != keys[j]
  }

  function SetOf(keys: seq<string>): set<string> {
    set key | key in keys
  }

  /** The lines that stay when a set of keys goes. */
  function WithoutAll(lines: seq<Line>, keys: set<string>): seq<Line> {
    if lines == [] then []
    else
      var last := lines[|lines| - 1];
      WithoutAll(lines[..|lines| - 1], keys) + if last.key.Some? && last.key.value in keys then [] else [last]
  }

  lemma NothingWithoutAll(keys: set<string>)
    ensures WithoutAll([], keys) == []
  {
  }

  lemma WithoutAllLast(lines: seq<Line>, keys: set<string>)
    requires lines != []
    ensures var n := |lines| - 1;
            WithoutAll(lines, keys) ==
              if lines[n].key.Some? && lines[n].key.value in keys then WithoutAll(lines[..n], keys)
                                       else WithoutAll(lines[..n], keys) + [lines[n]]
  {
  }

  /** One key after others, in whatever order they went. */
  lemma {:induction false} WithoutNext(lines: seq<Line>, keys: set<string>, key: string)
    ensures Without(WithoutAll(lines, keys), key) == WithoutAll(lines, keys + {key})
  {
    hide Without, WithoutAll;
    if lines == [] {
      NothingWithout(key);
      NothingWithoutAll(keys);
      NothingWithoutAll(keys + {key});
    } else {
      var n := |lines| - 1;
      WithoutNext(lines[..n], keys, key);
      WithoutAllLast(lines, keys);
      WithoutAllLast(lines, keys + {key});
      WithoutOneMore(WithoutAll(lines[..n], keys), lines[n], key);
    }
  }

  lemma {:induction false} WithoutNone(lines: seq<Line>)
    ensures WithoutAll(lines, {}) == lines
  {
    if lines != [] {
      WithoutNone(lines[..|lines| - 1]);
    }
  }

  lemma {:induction false} WithoutAllOthers(lines: seq<Line>, keys: set<string>, other: string)
    requires other !in keys
    ensures GroupOf(WithoutAll(lines, keys), other) == GroupOf(lines, other)
  {
    if lines != [] {
      var n := |lines| - 1;
      WithoutAllOthers(lines[..n], keys, other);
      var kept := WithoutAll(lines[..n], keys);
      assert (kept + [lines[n]])[..|kept|] == kept && kept + [] == kept;
    }
  }

  lemma {:induction false} BytesOfJoin(raws: seq<Bytes>, b: Byte)
    ensures b in Join(raws) <==> exists i | 0 <= i < |raws| :: b in raws[i]
  {
    if raws != [] {
      BytesOfJoin(raws[1..], b);
      if i :| 0 <= i < |raws[1..]| && b in raws[1..][i] {
        assert b in raws[i + 1];
      }
      if i :| 0 <= i < |raws| && b in raws[i] {
        if i > 0 {
          assert b in raws[1..][i - 1];
        }
      }
    }
  }

  /** What is left has no CR if the payload had none. */
  lemma RemainingHasNoReturns(parse: Bytes -> Parsed, payload: Bytes, key: string)
    requires Reading(parse, payload).Some? && CR !in payload
    ensures CR !in Remaining(Reading(parse, payload).value, key)
  {
    hide Reading, Join, Without;
    var kept := Without(Reading(parse, payload).value, key);
    BytesOfJoin(Raws(kept), CR);
    forall i | 0 <= i < |kept| ensures CR !in Raws(kept)[i] {
      assert kept[i] in kept;
      LinesHaveNoReturns(parse, payload, kept[i]);
    }
  }
}
