/** Deletions one after another from a file that is read again before each of them. */
module JsonlSequences {
  import opened Wrappers
  import opened DurableFiles
  import opened JsonlLines
  import opened JsonlGroups
  import opened JsonlMerging

  /** The file after the deletions; None when a file on the way does not read. */
  function FileAfter(parse: Bytes -> Parsed, payload: Bytes, keys: seq<string>): Option<Bytes>
    decreases |keys|
  {
    if keys == [] then Some(payload)
    else if Reading(parse, payload).None? then None
    else FileAfter(parse, Remaining(Reading(parse, payload).value, keys[0]), keys[1..])
  }

  /** At its turn each group has the records it had in `lines`, hence its version. */
  predicate VersionsHold(parse: Bytes -> Parsed, payload: Bytes, lines: seq<Line>, keys: seq<string>)
    decreases |keys|
  {
    keys == []
    || (&& Reading(parse, payload).Some?
        && GroupOf(Reading(parse, payload).value, keys[0]) == GroupOf(lines, keys[0])
        && VersionsHold(parse, Remaining(Reading(parse, payload).value, keys[0]), lines, keys[1..]))
  }

  function AfterDeleting(lines: seq<Line>, keys: seq<string>): seq<Line>
    decreases |keys|
  {
    if keys == [] then lines else AfterDeleting(Without(lines, keys[0]), keys[1..])
  }

  lemma {:induction false} WithoutFirst(lines: seq<Line>, keys: set<string>, key: string)
    ensures WithoutAll(Without(lines, key), keys) == WithoutAll(lines, keys + {key})
  {
    hide Without, WithoutAll;
    if lines == [] {
      NothingWithout(key);
      NothingWithoutAll(keys);
      NothingWithoutAll(keys + {key});
    } else {
      var n := |lines| - 1;
      WithoutFirst(lines[..n], keys, key);
      WithoutLast(lines, key);
      WithoutAllLast(lines, keys + {key});
      var kept := Without(lines[..n], key);
      WithoutAllLast(kept + [lines[n]], keys);
      assert (kept + [lines[n]])[..|kept|] == kept;
    }
  }

  /** Of the lines, only which groups went matters, not in which order. */
  lemma {:induction false} AfterDeletingAll(lines: seq<Line>, keys: seq<string>)
    ensures AfterDeleting(lines, keys) == WithoutAll(lines, SetOf(keys))
    decreases |keys|
  {
    hide Without, WithoutAll;
    if keys == [] {
      WithoutNone(lines);
      assert SetOf(keys) == {};
    } else {
      AfterDeletingAll(Without(lines, keys[0]), keys[1..]);
      WithoutFirst(lines, SetOf(keys[1..]), keys[0]);
      assert SetOf(keys[1..]) + {keys[0]} == SetOf(keys);
    }
  }

  lemma LaterKeys(keys: seq<string>)
    requires Distinct(keys) && keys != []
    ensures Distinct(keys[1..]) && keys[0] !in keys[1..]
    ensures forall key | key in keys[1..] :: key in keys && key != keys[0]
  {
    forall key | key in keys[1..] ensures key in keys && key != keys[0] {
      var i :| 0 <= i < |keys[1..]| && keys[1..][i] == key;
      assert keys[i + 1] == key;
    }
  }

  lemma {:induction false} VersionsIgnoreOthers(parse: Bytes -> Parsed, payload: Bytes, lines: seq<Line>,
                                                keys: seq<string>, gone: string)
    requires gone !in keys
    ensures VersionsHold(parse, payload, Without(lines, gone), keys) <==> VersionsHold(parse, payload, lines, keys)
    decreases |keys|
  {
    hide Reading, Remaining, Without, GroupOf;
    if keys != [] && Reading(parse, payload).Some? {
      assert keys[0] in keys && forall key | key in keys[1..] :: key in keys;
      WithoutOthers(lines, gone, keys[0]);
      VersionsIgnoreOthers(parse, Remaining(Reading(parse, payload).value, keys[0]), lines, keys[1..], gone);
    }
  }

  /** The file's records of each key are those of the lines, or longer. */
  ghost predicate GrownFrom(parse: Bytes -> Parsed, lines: seq<Line>, payload: Bytes, keys: seq<string>) {
    Reading(parse, payload).Some? ==>
      forall key | key in keys :: Grown(GroupOf(lines, key), GroupOf(Reading(parse, payload).value, key))
  }

  lemma GrownFurther(before: seq<Bytes>, middle: seq<Bytes>, after: seq<Bytes>)
    requires Grown(before, middle) && Grown(middle, after)
    ensures Grown(before, after)
  {
    forall i | 0 <= i < |before| ensures before[i] <= after[i] {
      assert before[i] <= middle[i] <= after[i];
    }
  }

  /** One deletion from a file that may already have lost an LF. */
  lemma DeletionLoses(parse: Bytes -> Parsed, lines: seq<Line>, payload: Bytes, keys: seq<string>)
    requires IgnoresEnds(parse) && Distinct(keys) && keys != [] && GrownFrom(parse, lines, payload, keys)
    requires Reading(parse, payload).Some?
    ensures var read := Reading(parse, payload).value;
            var left := Remaining(read, keys[0]);
            && GrownFrom(parse, Without(lines, keys[0]), left, keys[1..])
            && |left| + |Text(lines)| <= |Text(Without(lines, keys[0]))| + |payload|
            && (GroupOf(read, keys[0]) != GroupOf(lines, keys[0]) ==>
                  |left| + |Text(lines)| < |Text(Without(lines, keys[0]))| + |payload|)
  {
    hide Reading, Without, GroupOf, Text, Grown, Sound, Settle, IgnoresEnds, EndsWithLf;
    var read := Reading(parse, payload).value;
    var kept := Without(read, keys[0]);
    ReadingIsSound(parse, payload);
    SoundWithout(parse, read, keys[0]);
    SettledReading(parse, kept);
    GroupWeighs(lines, keys[0]);
    GroupWeighs(read, keys[0]);
    assert keys[0] in keys;
    GrownWeighs(GroupOf(lines, keys[0]), GroupOf(read, keys[0]));
    LaterKeys(keys);
    if Reading(parse, Text(kept)).Some? {
      forall key | key in keys[1..]
        ensures Grown(GroupOf(Without(lines, keys[0]), key), GroupOf(Reading(parse, Text(kept)).value, key))
      {
        WithoutOthers(lines, keys[0], key);
        WithoutOthers(read, keys[0], key);
        SettleGrows(parse, kept, key);
        GrownFurther(GroupOf(lines, key), GroupOf(kept, key), GroupOf(Settle(kept), key));
      }
    }
  }

  /** What a file has lost it never gains again. */
  lemma {:induction false} LossesStay(parse: Bytes -> Parsed, lines: seq<Line>, payload: Bytes, keys: seq<string>)
    requires IgnoresEnds(parse) && Distinct(keys) && GrownFrom(parse, lines, payload, keys)
    requires FileAfter(parse, payload, keys).Some?
    ensures |FileAfter(parse, payload, keys).value| + |Text(lines)| <= |Text(AfterDeleting(lines, keys))| + |payload|
    decreases |keys|
  {
    hide Reading, Without, GroupOf, Text, Remaining, GrownFrom, IgnoresEnds;
    if keys != [] {
      DeletionLoses(parse, lines, payload, keys);
      LaterKeys(keys);
      LossesStay(parse, Without(lines, keys[0]), Remaining(Reading(parse, payload).value, keys[0]), keys[1..]);
    }
  }

  lemma SettledIsGrown(parse: Bytes -> Parsed, lines: seq<Line>, keys: seq<string>)
    requires IgnoresEnds(parse) && Sound(parse, lines)
    ensures GrownFrom(parse, lines, Text(lines), keys)
    ensures Reading(parse, Text(lines)).Some? ==> Reading(parse, Text(lines)) == Some(Settle(lines))
  {
    hide Reading, GroupOf, Text, Grown, Sound, Settle, IgnoresEnds;
    SettledReading(parse, lines);
    forall key | key in keys ensures Grown(GroupOf(lines, key), GroupOf(Settle(lines), key)) {
      SettleGrows(parse, lines, key);
    }
  }

  /** From a file that is the text of the lines. */
  lemma {:induction false} TextsExactly(parse: Bytes -> Parsed, lines: seq<Line>, keys: seq<string>)
    requires IgnoresEnds(parse) && Sound(parse, lines) && Distinct(keys)
    ensures FileAfter(parse, Text(lines), keys) == Some(Text(AfterDeleting(lines, keys))) <==>
            VersionsHold(parse, Text(lines), lines, keys)
    decreases |keys|
  {
    hide Reading, Without, GroupOf, Text, GrownFrom, Sound, Settle, IgnoresEnds;
    SettledIsGrown(parse, lines, keys);
    if keys != [] && Reading(parse, Text(lines)).Some? {
      var left, rest := Remaining(Settle(lines), keys[0]), Without(lines, keys[0]);
      UnchangedExactly(parse, lines, keys[0]);
      DeletionLoses(parse, lines, Text(lines), keys);
      LaterKeys(keys);
      SoundWithout(parse, lines, keys[0]);
      if left == Text(rest) {
        TextsExactly(parse, rest, keys[1..]);
        VersionsIgnoreOthers(parse, left, lines, keys[1..], keys[0]);
      } else if FileAfter(parse, left, keys[1..]).Some? {
        LossesStay(parse, rest, left, keys[1..]);
      }
    }
  }

  /** The file that is left is the file without the groups, whatever the order they went
      in, if and only if each group had its recorded version at its turn. */
  lemma FilesExactly(parse: Bytes -> Parsed, payload: Bytes, keys: seq<string>)
    requires IgnoresEnds(parse) && Reading(parse, payload).Some? && Distinct(keys)
    ensures var lines := Reading(parse, payload).value;
            FileAfter(parse, payload, keys) == Some(Text(WithoutAll(lines, SetOf(keys)))) <==>
            VersionsHold(parse, payload, lines, keys)
  {
    hide Reading, Text, Sound, IgnoresEnds, FileAfter, VersionsHold;
    var lines := Reading(parse, payload).value;
    ReadingIsSound(parse, payload);
    assert payload == Text(lines) by { TextIsJoin(lines); }
    TextsExactly(parse, lines, keys);
    AfterDeletingAll(lines, keys);
  }

  lemma TextIsJoin(lines: seq<Line>)
    ensures Text(lines) == Join(Raws(lines))
  {
  }

  lemma NoReturnsStep(parse: Bytes -> Parsed, payload: Bytes, key: string)
    requires Reading(parse, payload).Some? && CR !in payload
    ensures var lines := Reading(parse, payload).value;
            && Reading(parse, Remaining(lines, key)) == Some(Without(lines, key)) && CR !in Remaining(lines, key)
  {
    hide Reading, ReadsBack, Remaining, Without;
    NoReturnsReadBack(parse, payload, key);
    SurvivorsExactly(parse, payload, key);
    RemainingHasNoReturns(parse, payload, key);
  }

  /** Without CR the order never matters. */
  lemma {:induction false} NoReturnsInAnyOrder(parse: Bytes -> Parsed, payload: Bytes, keys: seq<string>)
    requires Reading(parse, payload).Some? && CR !in payload && Distinct(keys)
    ensures var lines := Reading(parse, payload).value;
            && VersionsHold(parse, payload, lines, keys)
            && FileAfter(parse, payload, keys) == Some(Text(WithoutAll(lines, SetOf(keys))))
    decreases |keys|
  {
    hide Reading, Remaining, Without, WithoutAll, GroupOf, Text;
    var lines := Reading(parse, payload).value;
    if keys == [] {
      WithoutNone(lines);
      assert SetOf(keys) == {};
      ReadingIsText(parse, payload);
    } else {
      LaterKeys(keys);
      NoReturnsStep(parse, payload, keys[0]);
      NoReturnsInAnyOrder(parse, Remaining(lines, keys[0]), keys[1..]);
      VersionsIgnoreOthers(parse, Remaining(lines, keys[0]), lines, keys[1..], keys[0]);
      WithoutFirst(lines, SetOf(keys[1..]), keys[0]);
      assert SetOf(keys[1..]) + {keys[0]} == SetOf(keys);
    }
  }

  lemma ReadingIsText(parse: Bytes -> Parsed, payload: Bytes)
    requires Reading(parse, payload).Some?
    ensures Text(Reading(parse, payload).value) == payload
  {
    LinesAreParsed(parse, Split(payload), Reading(parse, payload).value);
    JoinSplit(payload);
  }

  lemma OneGone(x: Line, y: Line, key: string)
    requires x.key == Some(key) && y.key != Some(key)
    ensures Without([x, y], key) == [y] && Without([x], key) == []
  {
    hide Without;
    NothingWithout(key);
    WithoutOneMore([], x, key);
    assert [] + [x] == [x] && [x] + [y] == [x, y];
    WithoutOneMore([x], y, key);
  }

  lemma FirstGone(x: Line, y: Line, z: Line, key: string)
    requires x.key == Some(key) && y.key != Some(key) && z.key != Some(key)
    ensures Without([x, y, z], key) == [y, z]
  {
    hide Without;
    OneGone(x, y, key);
    WithoutOneMore([x, y], z, key);
    assert [x, y, z] == [x, y] + [z];
  }

  lemma SettleTwo(x: Line, y: Line)
    ensures Settle([x]) == [x]
    ensures Settle([x, y]) == if Swallows(x.raw, y.raw) then [Line(x.key, x.raw + y.raw)] else [x, y]
  {
    hide Swallows;
    assert [x][..0] == [] && Settle([x]) == SettleOn([], x);
    assert [x, y][..1] == [x] && Settle([x, y]) == SettleOn(Settle([x]), y);
  }

  lemma OneText(x: Line)
    ensures Text([x]) == x.raw && Text([]) == []
  {
    TextMore([], x);
    assert [] + [x] == [x];
  }

  /** Two lines of which the first is deleted. */
  lemma DeleteFirstOfTwo(parse: Bytes -> Parsed, x: Line, y: Line, key: string)
    requires IgnoresEnds(parse) && Sound(parse, [x, y]) && EndsWithLf([x, y]) && x.key == Some(key) && y.key.None?
    ensures FileAfter(parse, Text([x, y]), [key]) == Some(if Swallows(x.raw, y.raw) then [] else y.raw)
  {
    hide Reading, Without, Text, Sound, IgnoresEnds, Settle, Swallows;
    SettledReading(parse, [x, y]);
    SettleTwo(x, y);
    OneGone(x, y, key);
    OneGone(Line(x.key, x.raw + y.raw), y, key);
    OneText(y);
    var payload := Text([x, y]);
    assert [key][1..] == [];
    assert FileAfter(parse, payload, [key]) == FileAfter(parse, Remaining(Reading(parse, payload).value, key), []);
  }

  /** With CR the order can matter: of three lines, the blank last one goes with the
      first when the second went before, and stays otherwise. */
  lemma OrderCanMatter(parse: Bytes -> Parsed, a: Bytes, b: Bytes, first: string, second: string)
    requires a != [] && b != [] && CR !in a && LF !in a && CR !in b && LF !in b && first != second
    requires IgnoresEnds(parse) && parse(a + [CR]) == Keyed(first) && parse(b + [LF]) == Keyed(second)
    ensures var payload := a + [CR] + b + [LF] + [LF];
            && FileAfter(parse, payload, [second, first]) == Some([])
            && FileAfter(parse, payload, [first, second]) == Some([LF])
  {
    hide Reading, Without, Text, Sound, IgnoresEnds, Split, FileAfter;
    var payload := a + [CR] + b + [LF] + [LF];
    var x, y, z := Line(Some(first), a + [CR]), Line(Some(second), b + [LF]), Line(None, [LF]);
    LfIsBlank(parse);
    ThreeLinesRead(parse, a, b, first, second);
    ReadingIsSound(parse, payload);
    MiddleGone(x, y, z, second);
    FirstGone(x, y, z, first);
    SoundWithout(parse, [x, y, z], second);
    SoundWithout(parse, [x, y, z], first);
    DeleteFirstOfTwo(parse, x, z, first);
    DeleteFirstOfTwo(parse, y, z, second);
    FileAfterTwo(parse, payload, second, first);
    FileAfterTwo(parse, payload, first, second);
  }

  lemma FileAfterTwo(parse: Bytes -> Parsed, payload: Bytes, first: string, second: string)
    requires Reading(parse, payload).Some?
    ensures FileAfter(parse, payload, [first, second]) ==
            FileAfter(parse, Remaining(Reading(parse, payload).value, first), [second])
  {
    assert [first, second][1..] == [second];
  }

  lemma LfIsBlank(parse: Bytes -> Parsed)
    requires IgnoresEnds(parse)
    ensures parse([LF]) == BlankLine
  {
  }
}
