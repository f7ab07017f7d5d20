/** Physical lines of a journal file, and what is left when one group of them goes. */
module JsonlLines {
  import opened Wrappers
  import opened DurableFiles

  const LF: Byte := 10
  const CR: Byte := 13

  /** The length of the first physical line: LF, CR and CR LF all end a line. */
  function LineEnd(payload: Bytes): (length: nat)
    requires payload != []
    ensures 0 < length <= |payload|
  {
    if payload[0] == LF then 1
    else if payload[0] == CR then if |payload| > 1 && payload[1] == LF then 2 else 1
    else if |payload| == 1 then 1
    else 1 + LineEnd(payload[1..])
  }

  function Split(payload: Bytes): (lines: seq<Bytes>)
    ensures payload == [] <==> lines == []
  {
    if payload == [] then []
    else [payload[..LineEnd(payload)]] + Split(payload[LineEnd(payload)..])
  }

  function Join(lines: seq<Bytes>): Bytes {
    if lines == [] then [] else lines[0] + Join(lines[1..])
  }

  predicate Terminated(raw: Bytes) {
    raw != [] && raw[|raw| - 1] in {LF, CR}
  }

  /** One physical line with its terminator. */
  predicate IsLine(raw: Bytes) {
    Terminated(raw) && LineEnd(raw) == |raw|
  }

  predicate AllLines(lines: seq<Bytes>) {
    forall raw | raw in lines :: IsLine(raw)
  }

  /** A line that ends in CR swallows a following line that starts with LF. */
  predicate Swallows(first: Bytes, second: Bytes) {
    first != [] && first[|first| - 1] == CR && second != [] && second[0] == LF
  }

  predicate NoneSwallows(lines: seq<Bytes>) {
    forall i | 0 <= i < |lines| - 1 :: !Swallows(lines[i], lines[i + 1])
  }

  lemma {:induction false} JoinSplit(payload: Bytes)
    ensures Join(Split(payload)) == payload
  {
    if payload != [] {
      JoinSplit(payload[LineEnd(payload)..]);
    }
  }

  /** The first line of a text that begins with a line. */
  lemma {:induction false} LineEndOf(raw: Bytes, rest: Bytes)
    requires IsLine(raw) && !Swallows(raw, rest)
    ensures LineEnd(raw + rest) == |raw|
  {
    if raw[0] !in {LF, CR} {
      assert (raw + rest)[1..] == raw[1..] + rest;
      LineEndOf(raw[1..], rest);
    }
  }

  lemma JoinStart(lines: seq<Bytes>)
    requires AllLines(lines) && lines != []
    ensures lines[0] != [] && Join(lines) != [] && Join(lines)[0] == lines[0][0]
  {
    assert lines[0] in lines;
  }

  lemma LaterLines(lines: seq<Bytes>)
    requires AllLines(lines) && NoneSwallows(lines) && lines != []
    ensures AllLines(lines[1..]) && NoneSwallows(lines[1..]) && IsLine(lines[0])
    ensures lines[1..] != [] ==> !Swallows(lines[0], lines[1])
  {
    hide IsLine, Swallows;
    forall i | 0 <= i < |lines[1..]| - 1 ensures !Swallows(lines[1..][i], lines[1..][i + 1]) {
      assert !Swallows(lines[i + 1], lines[i + 1 + 1]);
    }
    if lines[1..] != [] {
      assert !Swallows(lines[0], lines[0 + 1]);
    }
  }

  lemma FirstLineOfJoin(lines: seq<Bytes>)
    requires AllLines(lines) && NoneSwallows(lines) && lines != []
    ensures Join(lines) != [] && LineEnd(Join(lines)) == |lines[0]|
    ensures Join(lines)[..|lines[0]|] == lines[0] && Join(lines)[|lines[0]|..] == Join(lines[1..])
  {
    hide IsLine, NoneSwallows;
    LaterLines(lines);
    JoinStart(lines);
    if lines[1..] != [] {
      JoinStart(lines[1..]);
    }
    LineEndOf(lines[0], Join(lines[1..]));
  }

  lemma {:induction false} SplitOfJoin(lines: seq<Bytes>)
    requires AllLines(lines) && NoneSwallows(lines)
    ensures Split(Join(lines)) == lines
  {
    hide Split, Join, LineEnd, AllLines, NoneSwallows;
    if lines == [] {
      NoSplit();
      NoJoin();
    } else {
      LaterLines(lines);
      FirstLineOfJoin(lines);
      SplitOfJoin(lines[1..]);
      SplitUnfolds(Join(lines));
    }
  }

  lemma NoSplit()
    ensures Split([]) == []
  {
  }

  lemma NoJoin()
    ensures Join([]) == []
  {
  }

  lemma SplitUnfolds(payload: Bytes)
    requires payload != []
    ensures Split(payload) == [payload[..LineEnd(payload)]] + Split(payload[LineEnd(payload)..])
  {
  }

  /** The first line never stops between CR and LF. */
  lemma {:induction false} LineEndIsMaximal(payload: Bytes)
    requires payload != []
    ensures !Swallows(payload[..LineEnd(payload)], payload[LineEnd(payload)..])
  {
    if payload[0] !in {LF, CR} && |payload| > 1 {
      LineEndIsMaximal(payload[1..]);
      var n := LineEnd(payload[1..]);
      assert payload[1..][..n] == payload[..n + 1][1..] && payload[1..][n..] == payload[n + 1..];
    }
  }

  lemma SplitStart(payload: Bytes)
    requires payload != []
    ensures Split(payload)[0] != [] && Split(payload)[0][0] == payload[0]
  {
  }

  lemma {:induction false} SplitNeverSwallows(payload: Bytes)
    ensures NoneSwallows(Split(payload))
  {
    if payload != [] {
      var rest := payload[LineEnd(payload)..];
      SplitNeverSwallows(rest);
      LineEndIsMaximal(payload);
      if rest != [] {
        SplitStart(rest);
      }
      var lines := Split(payload);
      forall i | 0 <= i < |lines| - 1 ensures !Swallows(lines[i], lines[i + 1]) {
        if i > 0 {
          assert lines[i] == Split(rest)[i - 1] && lines[i + 1] == Split(rest)[i - 1 + 1];
        }
      }
    }
  }

  /** Lines joined and split again are the same lines exactly when none of them
      swallows the next. */
  lemma SplitsBack(lines: seq<Bytes>)
    requires AllLines(lines)
    ensures Split(Join(lines)) == lines <==> NoneSwallows(lines)
  {
    if NoneSwallows(lines) {
      SplitOfJoin(lines);
    } else {
      SplitNeverSwallows(Join(lines));
    }
  }

  lemma {:induction false} FirstIsLine(payload: Bytes)
    requires payload != [] && (Terminated(payload[..LineEnd(payload)]) || LineEnd(payload) < |payload|)
    ensures IsLine(payload[..LineEnd(payload)])
  {
    if payload[0] !in {LF, CR} && |payload| > 1 {
      var n := LineEnd(payload[1..]);
      assert payload[1..][..n] == payload[..n + 1][1..];
      FirstIsLine(payload[1..]);
    }
  }

  /** A payload that ends with LF is made of whole lines. */
  lemma {:induction false} SplitLines(payload: Bytes)
    requires payload == [] || payload[|payload| - 1] == LF
    ensures AllLines(Split(payload))
  {
    if payload != [] {
      var n := LineEnd(payload);
      FirstIsLine(payload);
      if n < |payload| {
        assert payload[n..][|payload| - n - 1] == LF;
      }
      SplitLines(payload[n..]);
    }
  }

  lemma {:induction false} JoinMore(lines: seq<Bytes>, last: Bytes)
    ensures Join(lines + [last]) == Join(lines) + last
  {
    if lines == [] {
      assert lines + [last] == [last];
    } else {
      assert (lines + [last])[1..] == lines[1..] + [last];
      JoinMore(lines[1..], last);
    }
  }

  lemma {:induction false} JoinConcat(first: seq<Bytes>, second: seq<Bytes>)
    ensures Join(first + second) == Join(first) + Join(second)
  {
    if second == [] {
      assert first + second == first;
    } else {
      var n := |second| - 1;
      assert second == second[..n] + [second[n]] && first + second == (first + second[..n]) + [second[n]];
      JoinConcat(first, second[..n]);
      JoinMore(first + second[..n], second[n]);
      JoinMore(second[..n], second[n]);
    }
  }

  lemma {:induction false} LineEndConcat(payload: Bytes, rest: Bytes)
    requires Terminated(payload) && !Swallows(payload, rest)
    ensures LineEnd(payload + rest) == LineEnd(payload)
  {
    if payload[0] !in {LF, CR} {
      assert (payload + rest)[1..] == payload[1..] + rest;
      LineEndConcat(payload[1..], rest);
    }
  }

  lemma LaterSwallows(payload: Bytes, n: nat, rest: Bytes)
    requires n <= |payload| && Terminated(payload) && !Swallows(payload, rest)
    ensures payload[n..] == [] || (Terminated(payload[n..]) && !Swallows(payload[n..], rest))
  {
  }

  /** Where a line ends that does not swallow what follows, the text can be split. */
  lemma {:induction false} SplitConcat(payload: Bytes, rest: Bytes)
    requires payload == [] || (Terminated(payload) && !Swallows(payload, rest))
    ensures Split(payload + rest) == Split(payload) + Split(rest)
    decreases |payload|
  {
    hide Split, LineEnd, Terminated;
    NoSplit();
    if payload == [] {
      assert payload + rest == rest;
    } else {
      var n := LineEnd(payload);
      LineEndConcat(payload, rest);
      SplitUnfolds(payload);
      SplitUnfolds(payload + rest);
      LaterSwallows(payload, n, rest);
      assert (payload + rest)[..n] == payload[..n] && (payload + rest)[n..] == payload[n..] + rest;
      SplitConcat(payload[n..], rest);
    }
  }

  lemma {:induction false} SplitIsNotEmpty(payload: Bytes, raw: Bytes)
    requires raw in Split(payload)
    ensures raw != [] && (raw[0] == LF ==> raw == [LF])
  {
    if raw != payload[..LineEnd(payload)] {
      SplitIsNotEmpty(payload[LineEnd(payload)..], raw);
    }
  }

  /** An LF after a CR belongs to the line before it. */
  lemma SwallowedIsNoLine(payload: Bytes)
    requires payload != [] && payload[|payload| - 1] == CR
    ensures var lines := Split(payload + [LF]);
            lines != [] && lines[|lines| - 1] != [] && lines[|lines| - 1][0] != LF
  {
    hide Split, Join, LineEnd, Swallows;
    var whole := payload + [LF];
    var lines := Split(whole);
    var n := |lines| - 1;
    SplitIsNotEmpty(whole, lines[n]);
    JoinSplit(whole);
    JoinMore(lines[..n], lines[n]);
    assert lines == lines[..n] + [lines[n]];
    if lines[n] == [LF] {
      assert Join(lines[..n]) == whole[..|payload|] == payload;
      LastSwallows(whole, lines[..n]);
    }
  }

  lemma LastSwallows(whole: Bytes, before: seq<Bytes>)
    requires Split(whole) == before + [[LF]]
    ensures Join(before) == [] || Join(before)[|Join(before)| - 1] != CR
  {
    hide Split, Join, LineEnd;
    LastOfJoin(before);
    if before != [] {
      var last := before[|before| - 1];
      assert (before + [[LF]])[|before| - 1] == last;
      SplitIsNotEmpty(whole, last);
      SplitNeverSwallows(whole);
      assert !Swallows(Split(whole)[|before| - 1], Split(whole)[|before| - 1 + 1]);
    }
  }

  lemma LastOfJoin(lines: seq<Bytes>)
    ensures lines == [] ==> Join(lines) == []
    ensures lines != [] && lines[|lines| - 1] != [] ==>
      Join(lines) != [] && Join(lines)[|Join(lines)| - 1] == lines[|lines| - 1][|lines[|lines| - 1]| - 1]
  {
    if lines != [] {
      var n := |lines| - 1;
      JoinMore(lines[..n], lines[n]);
      assert lines == lines[..n] + [lines[n]];
    }
  }

  /** What a decoder makes of one line: a key, or nothing for a blank line, or a
      refusal of the whole file. */
  datatype Parsed = Keyed(key: string) | BlankLine | Invalid

  datatype Line = Line(key: Option<string>, raw: Bytes)

  function LineOf(parse: Bytes -> Parsed, raw: Bytes): Option<Line> {
    match parse(raw)
    case Keyed(key) => Some(Line(Some(key), raw))
    case BlankLine => Some(Line(None, raw))
    case Invalid => None
  }

  function LinesOf(parse: Bytes -> Parsed, raws: seq<Bytes>): Option<seq<Line>> {
    if raws == [] then Some([])
    else
      var before, last := LinesOf(parse, raws[..|raws| - 1]), LineOf(parse, raws[|raws| - 1]);
      if before.None? || last.None? then None else Some(before.value + [last.value])
  }

  /** The strict reading of a journal: whole lines, every one blank or a record. */
  function Reading(parse: Bytes -> Parsed, payload: Bytes): Option<seq<Line>> {
    if payload != [] && payload[|payload| - 1] != LF then None
    else LinesOf(parse, Split(payload))
  }

  /** The loop that builds the line list. */
  method Decode(parse: Bytes -> Parsed, payload: Bytes) returns (lines: Option<seq<Line>>)
    ensures lines == Reading(parse, payload)
  {
    if payload != [] && payload[|payload| - 1] != LF {
      return None;
    }
    var raws := Split(payload);
    var taken: seq<Line> := [];
    for i := 0 to |raws|
      invariant LinesOf(parse, raws[..i]) == Some(taken)
    {
      assert raws[..i + 1][..i] == raws[..i];
      var parsed := parse(raws[i]);
      if parsed.Invalid? {
        LinesPrefix(parse, raws, i + 1);
        return None;
      }
      taken := taken + [Line(if parsed.Keyed? then Some(parsed.key) else None, raws[i])];
    }
    assert raws[..|raws|] == raws;
    return Some(taken);
  }

  lemma {:induction false} LinesPrefix(parse: Bytes -> Parsed, raws: seq<Bytes>, n: nat)
    requires n <= |raws| && LinesOf(parse, raws[..n]).None?
    ensures LinesOf(parse, raws).None?
    decreases |raws|
  {
    if n < |raws| {
      assert raws[..|raws| - 1][..n] == raws[..n];
      LinesPrefix(parse, raws[..|raws| - 1], n);
    } else {
      assert raws[..n] == raws;
    }
  }

  function Raws(lines: seq<Line>): (raws: seq<Bytes>)
    ensures |raws| == |lines| && forall i | 0 <= i < |lines| :: raws[i] == lines[i].raw
  {
    seq(|lines|, i requires 0 <= i < |lines| => lines[i].raw)
  }

  /** Each line is what its text parses to. */
  ghost predicate ParsedFrom(parse: Bytes -> Parsed, lines: seq<Line>) {
    forall line | line in lines :: LineOf(parse, line.raw) == Some(line)
  }

  lemma {:induction false} LinesAreParsed(parse: Bytes -> Parsed, raws: seq<Bytes>, lines: seq<Line>)
    ensures LinesOf(parse, raws) == Some(lines) <==> Raws(lines) == raws && ParsedFrom(parse, lines)
    decreases |raws|
  {
    hide LineOf, ParsedFrom, Raws;
    if raws == [] || lines == [] {
      NoLines(parse, lines);
      assert raws == [] ==> |Raws(lines)| == |lines|;
    } else {
      var m, n := |raws| - 1, |lines| - 1;
      LinesAreParsed(parse, raws[..m], lines[..n]);
      LastRaw(raws, lines);
      LastParsed(parse, lines);
      LastTaken(parse, raws, lines);
      LineKeepsRaw(parse, raws[m]);
    }
  }

  lemma LineKeepsRaw(parse: Bytes -> Parsed, raw: Bytes)
    ensures LineOf(parse, raw).Some? ==> LineOf(parse, raw).value.raw == raw
  {
  }

  lemma NoLines(parse: Bytes -> Parsed, lines: seq<Line>)
    ensures ParsedFrom(parse, []) && Raws([]) == []
    ensures Raws(lines) == [] <==> lines == []
  {
  }

  lemma LastRaw(raws: seq<Bytes>, lines: seq<Line>)
    requires raws != [] && lines != []
    ensures var m, n := |raws| - 1, |lines| - 1;
            Raws(lines) == raws <==> Raws(lines[..n]) == raws[..m] && lines[n].raw == raws[m]
  {
    assert Raws(lines) == Raws(lines[..|lines| - 1]) + [lines[|lines| - 1].raw];
    assert raws == raws[..|raws| - 1] + [raws[|raws| - 1]];
  }

  lemma LastParsed(parse: Bytes -> Parsed, lines: seq<Line>)
    requires lines != []
    ensures var n := |lines| - 1;
            ParsedFrom(parse, lines) <==> ParsedFrom(parse, lines[..n]) && LineOf(parse, lines[n].raw) == Some(lines[n])
  {
    hide LineOf;
    var n := |lines| - 1;
    assert lines == lines[..n] + [lines[n]];
  }

  lemma LastTaken(parse: Bytes -> Parsed, raws: seq<Bytes>, lines: seq<Line>)
    requires raws != [] && lines != []
    ensures var m, n := |raws| - 1, |lines| - 1;
            LinesOf(parse, raws) == Some(lines) <==>
              LinesOf(parse, raws[..m]) == Some(lines[..n]) && LineOf(parse, raws[m]) == Some(lines[n])
  {
    hide LineOf;
    var n := |lines| - 1;
    assert lines == lines[..n] + [lines[n]];
  }
}
