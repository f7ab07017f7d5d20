/** The assumptions about a journal's decoder can be met: records of one letter, read
    with the line ends taken off. */
module JsonlInstances {
  import opened Wrappers
  import opened DurableFiles
  import opened JsonlLines
  import opened JsonlGroups
  import opened JsonlMerging
  import opened JsonlSequences
  import opened JsonlReadings

  /** The text of a line without the line ends behind it. */
  function Stripped(raw: Bytes): Bytes {
    if Terminated(raw) then Stripped(raw[..|raw| - 1]) else raw
  }

  function Letters(raw: Bytes): Parsed {
    var text := Stripped(raw);
    if text == [] then BlankLine else if |text| == 1 then Keyed([text[0] as char]) else Invalid
  }

  lemma StripsOne(raw: Bytes, end: Byte)
    requires end in {CR, LF}
    ensures Stripped(raw + [end]) == Stripped(raw)
  {
    assert (raw + [end])[..|raw|] == raw;
  }

  lemma LettersIgnoreEnds()
    ensures IgnoresEnds(Letters)
  {
    StripsOne([], LF);
    assert [] + [LF] == [LF];
    forall text: Bytes ensures Letters(text + [CR, LF]) == Letters(text + [CR]) {
      StripsOne(text + [CR], LF);
      assert text + [CR] + [LF] == text + [CR, LF];
    }
  }

  lemma OneLetter(letter: Byte, end: Byte)
    requires letter !in {CR, LF} && end in {CR, LF}
    ensures Letters([letter] + [end]) == Keyed([letter as char])
  {
    StripsOne([letter], end);
  }

  /** A file whose older turn comes back, one that depends on the order of deletions,
      and one that merges the records of another group. */
  lemma SomeFilesMisbehave()
    ensures var lines := [Line(Some("a"), [97, CR]), Line(Some("b"), [98, LF])] + Blanks(FEEDBACK_LOOKBACK);
            var left := Remaining(lines, "b");
            && Reading(Letters, Text(lines)) == Some(lines) && !Recent(lines, "a") && !Recent(lines, "b")
            && Reading(Letters, left).Some? && Recent(Reading(Letters, left).value, "a")
    ensures FileAfter(Letters, [97, CR, 98, LF, LF], ["b", "a"]) == Some([])
    ensures FileAfter(Letters, [97, CR, 98, LF, LF], ["a", "b"]) == Some([LF])
  {
    hide Reading, Text, FileAfter, Without, Recent, IgnoresEnds;
    LettersIgnoreEnds();
    OneLetter(97, CR);
    OneLetter(98, LF);
    assert [97] + [CR] == [97, CR] && [98] + [LF] == [98, LF];
    assert [97] + [CR] + [98] + [LF] + [LF] == [97, CR, 98, LF, LF];
    DeletionCanReachBack(Letters, [97], [98], "a", "b");
    OrderCanMatter(Letters, [97], [98], "a", "b");
  }
}
