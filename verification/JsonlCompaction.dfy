/** Removing record groups from a journal file, restartably. */
module JsonlCompaction {
  import opened Wrappers
  import opened DurableFiles
  import opened JsonlLines
  import opened JsonlGroups
  import opened JsonlMerging
  import opened JsonlSequences

  /** When a deletion is refused: the file does not read, the version moved, the
      owner still retains the record, or the partial copy is of something else. */
  predicate DeleteRefused(parse: Bytes -> Parsed, permits: (seq<Line>, string) -> bool, custody: string,
                          payload: Option<Bytes>, partial: Option<Bytes>, key: string, expected: Version) {
    payload.Some? && (Reading(parse, payload.value).None?
      || var lines := Reading(parse, payload.value).value;
         && GroupOf(lines, key) != []
         && (VersionOf(custody, lines, key) != Some(expected) || !permits(lines, key)
             || (partial.Some? && !(partial.value <= Remaining(lines, key)))))
  }

  /** The versions are those that the lines had when the plan was made. */
  predicate Recorded(custody: string, lines: seq<Line>, keys: seq<string>, versions: seq<Version>) {
    |versions| == |keys| && forall i | 0 <= i < |keys| :: VersionOf(custody, lines, keys[i]) == Some(versions[i])
  }

  /** Some row names a group that is not there. */
  predicate Missing(custody: string, lines: seq<Line>, keys: seq<string>) {
    exists i | 0 <= i < |keys| :: VersionOf(custody, lines, keys[i]).None?
  }

  /** One row going never takes another row's permission away. */
  ghost predicate Steady(permits: (seq<Line>, string) -> bool) {
    forall lines, gone, key | gone != key && permits(lines, gone) && permits(lines, key) ::
      permits(Without(lines, gone), key)
  }

  /** Every row of the plan may go. */
  predicate Permitted(permits: (seq<Line>, string) -> bool, lines: seq<Line>, keys: seq<string>) {
    forall key | key in keys :: permits(lines, key)
  }

  /** The lines that the first rows of a plan leave. */
  function LinesLeft(lines: seq<Line>, keys: seq<string>, n: nat): seq<Line>
    requires n <= |keys|
  {
    WithoutAll(lines, SetOf(keys[..n]))
  }

  /** Exactly the first rows of the plan are gone from the file. */
  ghost predicate PlanAt(lines: seq<Line>, payload: Option<Bytes>, keys: seq<string>, n: nat) {
    n <= |keys| && payload == Some(Text(LinesLeft(lines, keys, n)))
  }

  lemma NothingLeftOut(parse: Bytes -> Parsed, payload: Bytes, keys: seq<string>)
    requires Reading(parse, payload).Some?
    ensures PlanAt(Reading(parse, payload).value, Some(payload), keys, 0)
    ensures LinesLeft(Reading(parse, payload).value, keys, 0) == Reading(parse, payload).value
  {
    hide Reading, Text, WithoutAll;
    assert SetOf(keys[..0]) == {};
    WithoutNone(Reading(parse, payload).value);
    ReadingIsText(parse, payload);
  }

  lemma AllLeftOut(lines: seq<Line>, keys: seq<string>)
    ensures LinesLeft(lines, keys, |keys|) == WithoutAll(lines, SetOf(keys))
  {
    assert keys[..|keys|] == keys;
  }

  lemma SetOfMore(keys: seq<string>, n: nat)
    requires n < |keys| && Distinct(keys)
    ensures SetOf(keys[..n + 1]) == SetOf(keys[..n]) + {keys[n]}
    ensures forall i | n <= i < |keys| :: keys[i] !in SetOf(keys[..n])
  {
    assert keys[..n + 1] == keys[..n] + [keys[n]];
  }

  lemma {:induction false} AllIsGone(lines: seq<Line>, keys: set<string>, key: string)
    requires key in keys
    ensures GroupOf(WithoutAll(lines, keys), key) == []
  {
    hide GroupOf;
    if lines == [] {
      NoGroup(key);
    } else {
      var n := |lines| - 1;
      AllIsGone(lines[..n], keys, key);
      assert WithoutAll(lines[..n], keys) + [] == WithoutAll(lines[..n], keys);
      GroupOneMore(WithoutAll(lines[..n], keys), lines[n], key);
    }
  }

  lemma {:induction false} SoundWithoutAll(parse: Bytes -> Parsed, lines: seq<Line>, keys: set<string>)
    requires Sound(parse, lines)
    ensures Sound(parse, WithoutAll(lines, keys))
  {
    hide IsLine, LineOf;
    if lines != [] {
      var n := |lines| - 1;
      assert lines[n] in lines;
      SoundWithoutAll(parse, lines[..n], keys);
    }
  }

  /** What the file reads as while a plan is being carried out: rows that went are gone,
      and a row whose version is the recorded one takes its own lines and no others. */
  lemma PlanReads(parse: Bytes -> Parsed, custody: string, lines: seq<Line>, payload: Bytes,
                  keys: seq<string>, versions: seq<Version>, n: nat)
    requires IgnoresEnds(parse) && Sound(parse, lines) && Distinct(keys) && Recorded(custody, lines, keys, versions)
    requires PlanAt(lines, Some(payload), keys, n) && Reading(parse, payload).Some?
    ensures forall i | 0 <= i < n :: GroupOf(Reading(parse, payload).value, keys[i]) == []
    ensures n < |keys| ==>
      var read := Reading(parse, payload).value;
      && GroupOf(read, keys[n]) != []
      && (VersionOf(custody, read, keys[n]) == Some(versions[n]) ==>
            PlanAt(lines, Some(Remaining(read, keys[n])), keys, n + 1))
  {
    hide Reading, GroupOf, Text, Without, WithoutAll, Settle, Sound, IgnoresEnds;
    var left := LinesLeft(lines, keys, n);
    SoundWithoutAll(parse, lines, SetOf(keys[..n]));
    SettledReading(parse, left);
    forall i | 0 <= i < n ensures GroupOf(Settle(left), keys[i]) == [] {
      assert keys[..n][i] in keys[..n];
      AllIsGone(lines, SetOf(keys[..n]), keys[i]);
      SettleGrows(parse, left, keys[i]);
    }
    if n < |keys| {
      SetOfMore(keys, n);
      SettleGrows(parse, left, keys[n]);
      WithoutAllOthers(lines, SetOf(keys[..n]), keys[n]);
      UnchangedExactly(parse, left, keys[n]);
      WithoutNext(lines, SetOf(keys[..n]), keys[n]);
      assert VersionOf(custody, lines, keys[n]) == Some(versions[n]);
    }
  }

  /** Without CR the file reads as the lines that are left. */
  lemma PlanIsClean(parse: Bytes -> Parsed, permits: (seq<Line>, string) -> bool, custody: string,
                    lines: seq<Line>, payload: Bytes, keys: seq<string>, versions: seq<Version>, n: nat)
    requires Distinct(keys) && Recorded(custody, lines, keys, versions) && n < |keys| && Steady(permits)
    requires CR !in payload && Reading(parse, payload) == Some(LinesLeft(lines, keys, n))
    requires Permitted(permits, LinesLeft(lines, keys, n), keys[n..])
    ensures var left := Remaining(LinesLeft(lines, keys, n), keys[n]);
            && CR !in left && Reading(parse, left) == Some(LinesLeft(lines, keys, n + 1))
            && Permitted(permits, LinesLeft(lines, keys, n + 1), keys[n + 1..])
    ensures VersionOf(custody, LinesLeft(lines, keys, n), keys[n]) == Some(versions[n])
    ensures permits(LinesLeft(lines, keys, n), keys[n])
  {
    hide Reading, GroupOf, Text, Without, WithoutAll, Remaining;
    var left := LinesLeft(lines, keys, n);
    SetOfMore(keys, n);
    WithoutNext(lines, SetOf(keys[..n]), keys[n]);
    WithoutAllOthers(lines, SetOf(keys[..n]), keys[n]);
    NoReturnsStep(parse, payload, keys[n]);
    assert keys[n..][0] in keys[n..] && VersionOf(custody, lines, keys[n]) == Some(versions[n]);
    forall key | key in keys[n + 1..] ensures permits(Without(left, keys[n]), key) {
      var i :| 0 <= i < |keys[n + 1..]| && keys[n + 1..][i] == key;
      assert keys[n..][i + 1] in keys[n..] && keys[n + 1 + i] != keys[n];
    }
  }

  class JournalFile {
    const parse: Bytes -> Parsed
    const permits: (seq<Line>, string) -> bool
    // The file's parents and mode, which a replacement preserves.
    const custody: string
    var payload: Option<Bytes>
    // Partial copies, each under the name of the key being deleted.
    var partials: map<string, Bytes>
    // How many more steps this process lives; None when it is not going to die.
    var stop: Option<nat>

    constructor (parse: Bytes -> Parsed, permits: (seq<Line>, string) -> bool, custody: string,
                 payload: Option<Bytes>, partials: map<string, Bytes>, stop: Option<nat>)
      ensures this.parse == parse && this.permits == permits && this.custody == custody
      ensures this.payload == payload && this.partials == partials && this.stop == stop
    {
      this.parse, this.permits, this.custody := parse, permits, custody;
      this.payload, this.partials, this.stop := payload, partials, stop;
    }

    function Partial(key: string): Option<Bytes>
      reads this`partials
    {
      if key in partials then Some(partials[key]) else None
    }

    method CurrentVersion(key: string) returns (readable: bool, version: Option<Version>)
      ensures payload.None? ==> readable && version.None?
      ensures payload.Some? ==> (readable <==> Reading(parse, payload.value).Some?)
      ensures payload.Some? && readable ==> version == VersionOf(custody, Reading(parse, payload.value).value, key)
    {
      if payload.None? {
        return true, None;
      }
      var lines := Decode(parse, payload.value);
      if lines.None? {
        return false, None;
      }
      return true, VersionOf(custody, lines.value, key);
    }

    /** Bring the copy beside the file to its whole length, or refuse a copy of
        something else. */
    method Copy(key: string, left: Bytes) returns (r: Outcome)
      modifies this`partials, this`stop
      ensures old(stop).None? ==> stop.None? && !r.Stopped?
      ensures r.Refused? <==> key in old(partials) && !(old(partials)[key] <= left)
      ensures r.Refused? ==> partials == old(partials)
      ensures r.Done? ==> partials == old(partials)[key := left]
      ensures r.Stopped? ==>
        partials == old(partials) || (key in partials && partials == old(partials)[key := partials[key]])
      ensures r.Stopped? && key in partials ==> partials[key] <= left
    {
      var alive;
      if key !in partials {
        alive, stop := Spend(stop);
        if !alive {
          return Stopped;
        }
        partials := partials[key := []];
      }
      if !(partials[key] <= left) {
        return Refused;
      }
      var copied := |partials[key]|;
      assert partials[key] == left[..copied];
      assert partials == old(partials)[key := left[..copied]];
      while copied < |left|
        invariant copied <= |left|
        invariant old(stop).None? ==> stop.None?
        invariant partials == old(partials)[key := left[..copied]]
      {
        alive, stop := Spend(stop);
        if !alive {
          assert left[..copied] <= left;
          return Stopped;
        }
        var more :| 0 < more <= |left| - copied;
        partials := partials[key := left[..copied + more]];
        copied := copied + more;
      }
      assert left[..copied] == left;
      return Done;
    }

    /** Delete one group: copy the rest beside the file, resuming a copy that was cut
        short, and put the copy in its place. */
    method Delete(key: string, expected: Version) returns (r: Outcome)
      modifies this`payload, this`partials, this`stop
      ensures old(stop).None? ==> stop.None? && !r.Stopped?
      ensures r.Refused? <==> DeleteRefused(parse, permits, custody, old(payload), old(Partial(key)), key, expected)
      ensures old(payload).Some? && Reading(parse, old(payload).value).None? ==> r.Refused?
      ensures old(payload).Some? && Reading(parse, old(payload).value).Some? ==>
        var lines := Reading(parse, old(payload).value).value;
        var partial := old(partials);
        && ((GroupOf(lines, key) != [] && !permits(lines, key)) ==> r.Refused?)
        && ((GroupOf(lines, key) != [] && expected != Version(custody, GroupOf(lines, key))) ==> r.Refused?)
        && ((GroupOf(lines, key) != [] && key in partial && !(partial[key] <= Remaining(lines, key))) ==> r.Refused?)
        && ((permits(lines, key) && expected == Version(custody, GroupOf(lines, key))
             && (key in partial ==> partial[key] <= Remaining(lines, key))) ==> !r.Refused?)
      ensures r.Refused? ==> payload == old(payload) && partials == old(partials)
      ensures forall other | other != key :: other in partials <==> other in old(partials)
      ensures forall other | other != key && other in partials :: partials[other] == old(partials)[other]
      ensures r.Done? && (old(payload).None? || GroupOf(Reading(parse, old(payload).value).value, key) == []) ==>
        payload == old(payload) && partials == old(partials)
      ensures r.Done? && old(payload).Some? && GroupOf(Reading(parse, old(payload).value).value, key) != [] ==>
        payload == Some(Remaining(Reading(parse, old(payload).value).value, key)) && key !in partials
      ensures r.Stopped? ==> payload == old(payload)
      ensures r.Stopped? ==> old(payload).Some? && Reading(parse, old(payload).value).Some?
                             && GroupOf(Reading(parse, old(payload).value).value, key) != []
                             && (key in partials ==>
                                 partials[key] <= Remaining(Reading(parse, old(payload).value).value, key))
    {
      hide Reading, Remaining, GroupOf;
      if payload.None? {
        return Done;
      }
      var lines := Decode(parse, payload.value);
      if lines.None? {
        return Refused;
      }
      if GroupOf(lines.value, key) == [] {
        return Done;
      }
      if VersionOf(custody, lines.value, key) != Some(expected) || !permits(lines.value, key) {
        return Refused;
      }
      var left := Remaining(lines.value, key);
      r := Copy(key, left);
      if !r.Done? {
        return;
      }
      var alive;
      alive, stop := Spend(stop);
      if !alive {
        return Stopped;
      }
      payload := Some(partials[key]);
      partials := partials - {key};
      return Done;
    }

    /** Resuming from whatever copy the stops left gives the same file. */
    method DeleteAcrossStops(key: string, expected: Version, stops: seq<nat>) returns (r: Outcome)
      requires payload.Some? && Reading(parse, payload.value).Some?
      requires !DeleteRefused(parse, permits, custody, payload, Partial(key), key, expected)
      requires GroupOf(Reading(parse, payload.value).value, key) != []
      modifies this`payload, this`partials, this`stop
      ensures r.Done? && payload == Some(Remaining(Reading(parse, old(payload).value).value, key)) && key !in partials
    {
      for i := 0 to |stops|
        invariant payload == old(payload)
        invariant !DeleteRefused(parse, permits, custody, payload, Partial(key), key, expected)
      {
        stop := Some(stops[i]);
        r := Delete(key, expected);
        if r.Done? {
          return;
        }
      }
      stop := None;
      r := Delete(key, expected);
    }

    /** The versions that a plan records, as the file has them now. */
    method RecordVersions(keys: seq<string>) returns (versions: Option<seq<Version>>)
      requires payload.Some? && Reading(parse, payload.value).Some?
      ensures versions.Some? ==> Recorded(custody, Reading(parse, payload.value).value, keys, versions.value)
      ensures versions.None? <==> Missing(custody, Reading(parse, payload.value).value, keys)
    {
      hide Reading, VersionOf;
      var recorded: seq<Version> := [];
      for i := 0 to |keys|
        invariant |recorded| == i
        invariant forall k | 0 <= k < i ::
          VersionOf(custody, Reading(parse, payload.value).value, keys[k]) == Some(recorded[k])
      {
        var readable, version := CurrentVersion(keys[i]);
        if version.None? {
          return None;
        }
        recorded := recorded + [version.value];
      }
      return Some(recorded);
    }

    /** Nothing stands in the way of the rest of the plan. */
    ghost predicate Clean(lines: seq<Line>, keys: seq<string>, n: nat)
      reads this`payload, this`partials
    {
      && n <= |keys| && payload.Some? && CR !in payload.value
      && Reading(parse, payload.value) == Some(LinesLeft(lines, keys, n))
      && Permitted(permits, LinesLeft(lines, keys, n), keys[n..])
      && forall key | key in partials ::
           n < |keys| && key == keys[n] && partials[key] <= Remaining(LinesLeft(lines, keys, n), key)
    }

    /** One session of a plan: every row in order, each at the version recorded before
        any of them went. Rows that went in earlier sessions are passed over. */
    method DeletePlan(keys: seq<string>, versions: seq<Version>, ghost lines: seq<Line>, ghost before: nat)
        returns (r: Outcome, ghost done: nat)
      requires IgnoresEnds(parse) && Sound(parse, lines) && Distinct(keys) && Recorded(custody, lines, keys, versions)
      requires PlanAt(lines, payload, keys, before)
      modifies this`payload, this`partials, this`stop
      ensures old(stop).None? ==> stop.None? && !r.Stopped?
      ensures before <= done && PlanAt(lines, payload, keys, done)
      ensures r.Done? ==> done == |keys|
      ensures Steady(permits) && old(Clean(lines, keys, before)) ==> !r.Refused? && Clean(lines, keys, done)
    {
      hide Reading, GroupOf, Text, WithoutAll, Steady, Sound, IgnoresEnds, Remaining, LinesLeft, Permitted, VersionOf;
      ghost var clean := Steady(permits) && Clean(lines, keys, before);
      done := before;
      for i := 0 to |keys|
        invariant old(stop).None? ==> stop.None?
        invariant before <= done && i <= done && PlanAt(lines, payload, keys, done)
        invariant clean ==> Clean(lines, keys, done)
      {
        ghost var was := payload.value;
        if Reading(parse, was).Some? {
          PlanReads(parse, custody, lines, was, keys, versions, done);
        }
        if clean && i == done {
          PlanIsClean(parse, permits, custody, lines, was, keys, versions, done);
        }
        r := Delete(keys[i], versions[i]);
        if !r.Done? {
          return;
        }
        if i == done {
          done := done + 1;
        }
      }
      r := Done;
    }

    /** A plan carried out in sessions that die anywhere, then in one that lives. The
        file is always the file without the first rows of the plan, and without all of
        them when the plan is done. Without CR it is always done; with CR a row whose
        records changed since they were recorded refuses the plan there. */
    method DeletePlanAcrossStops(keys: seq<string>, versions: seq<Version>, stops: seq<nat>)
        returns (r: Outcome, ghost done: nat)
      requires IgnoresEnds(parse) && payload.Some? && Reading(parse, payload.value).Some? && Distinct(keys)
      requires Recorded(custody, Reading(parse, payload.value).value, keys, versions)
      modifies this`payload, this`partials, this`stop
      ensures !r.Stopped? && PlanAt(Reading(parse, old(payload).value).value, payload, keys, done)
      ensures r.Done? ==> payload == Some(Text(WithoutAll(Reading(parse, old(payload).value).value, SetOf(keys))))
      ensures (&& Steady(permits) && old(partials) == map[] && CR !in old(payload).value
               && Permitted(permits, Reading(parse, old(payload).value).value, keys)) ==> r.Done?
    {
      hide Reading, Text, WithoutAll, Steady, Sound, IgnoresEnds, Remaining, LinesLeft, Permitted, Recorded, SetOf;
      ghost var lines := Reading(parse, payload.value).value;
      ghost var clean :=
        Steady(permits) && partials == map[] && CR !in payload.value && Permitted(permits, lines, keys);
      ReadingIsSound(parse, payload.value);
      NothingLeftOut(parse, payload.value, keys);
      AllLeftOut(lines, keys);
      assert keys[0..] == keys;
      done := 0;
      for i := 0 to |stops|
        invariant PlanAt(lines, payload, keys, done)
        invariant clean ==> Clean(lines, keys, done)
      {
        stop := Some(stops[i]);
        r, done := DeletePlan(keys, versions, lines, done);
      }
      stop := None;
      r, done := DeletePlan(keys, versions, lines, done);
    }
  }
}
