/** The append-only, hash-linked chain of checkpoints of one transaction. */
module CheckpointChain {
  import opened Wrappers
  import opened DurableFiles
  import opened CanonicalDocuments
  import opened CheckpointCodec

  /** Names in the checkpoint directory: final, pending, and anything else. */
  datatype Name = Numbered(n: nat) | Unfinished(n: nat) | Stray(text: string)

  type CheckpointFolder = map<Name, Bytes>

  /** The step a chain may take next. */
  predicate Follows(canon: Canon, id: Bytes, chain: seq<Checkpoint>, next: Checkpoint) {
    && next.transaction == id && next.sequence == |chain|
    && (if chain == [] then next.previous == None
        else && next.previous == Some(DigestOfCheckpoint(canon, chain[|chain| - 1]))
             && Rank(chain[|chain| - 1].state) <= Rank(next.state))
  }

  /** Contiguous from zero, linked by digest, never going back. */
  ghost predicate Linked(canon: Canon, id: Bytes, chain: seq<Checkpoint>) {
    forall n | 0 <= n < |chain| :: Follows(canon, id, chain[..n], chain[n])
  }

  /** The chain that a directory holds, with at most the next step pending. */
  ghost predicate ChainIs(canon: Canon, id: Bytes, folder: CheckpointFolder, chain: seq<Checkpoint>) {
    && (forall name | name in folder :: !name.Stray?)
    && (forall n: nat :: Numbered(n) in folder <==> n < |chain|)
    && (forall n: nat | Unfinished(n) in folder :: n == |chain|)
    && (forall n | 0 <= n < |chain| :: DecodeCheckpoint(canon, folder[Numbered(n)]) == Some(chain[n]))
    && Linked(canon, id, chain)
  }

  lemma LengthIsKnown(canon: Canon, id: Bytes, folder: CheckpointFolder, chain: seq<Checkpoint>, n: nat)
    requires ChainIs(canon, id, folder, chain)
    ensures Numbered(n) in folder <==> n < |chain|
  {
  }

  /** A directory holds one chain. */
  lemma OneChain(canon: Canon, id: Bytes, folder: CheckpointFolder, first: seq<Checkpoint>, second: seq<Checkpoint>)
    requires ChainIs(canon, id, folder, first) && ChainIs(canon, id, folder, second)
    ensures first == second
  {
    hide Linked, DecodeCheckpoint;
    LengthIsKnown(canon, id, folder, first, |first|);
    LengthIsKnown(canon, id, folder, second, |first|);
    LengthIsKnown(canon, id, folder, first, |second|);
    LengthIsKnown(canon, id, folder, second, |second|);
  }

  lemma LinkedFurther(canon: Canon, id: Bytes, chain: seq<Checkpoint>, next: Checkpoint)
    requires Linked(canon, id, chain) && Follows(canon, id, chain, next)
    ensures Linked(canon, id, chain + [next])
  {
    hide Follows;
    var longer := chain + [next];
    forall n | 0 <= n < |longer| ensures Follows(canon, id, longer[..n], longer[n]) {
      assert longer[..n] == chain[..n];
      assert chain[..|chain|] == chain;
    }
  }

  /** States along a chain never go back, whichever two steps are compared. */
  lemma {:induction false} StatesOnlyAdvance(canon: Canon, id: Bytes, chain: seq<Checkpoint>, i: nat, j: nat)
    requires Linked(canon, id, chain) && i <= j < |chain|
    ensures Rank(chain[i].state) <= Rank(chain[j].state)
    decreases j
  {
    if i < j {
      StatesOnlyAdvance(canon, id, chain, i, j - 1);
      FollowsLast(canon, id, chain, j);
    }
  }

  /** Each step of a chain names its transaction, its place, and the digest of the step
      before it. */
  lemma StepsArePlaced(canon: Canon, id: Bytes, chain: seq<Checkpoint>, i: nat)
    requires Linked(canon, id, chain) && i < |chain|
    ensures chain[i].transaction == id && chain[i].sequence == i
    ensures chain[i].previous == if i == 0 then None else Some(DigestOfCheckpoint(canon, chain[i - 1]))
  {
    hide Rank, DigestOfCheckpoint;
    assert Follows(canon, id, chain[..i], chain[i]);
  }

  /** Nothing is staged after the review passed, and the author's key, the set and the
      marker are installed after it, in that order and each for good. */
  lemma ReviewComesBeforeInstall(canon: Canon, id: Bytes, chain: seq<Checkpoint>, i: nat, j: nat)
    requires Linked(canon, id, chain) && i <= j < |chain|
    ensures chain[j].state == Opened ==> chain[i].state == Opened
    ensures chain[i].state == AuthorStaged ==> chain[j].state != Opened
    ensures chain[i].state == InputsStaged ==> chain[j].state !in {Opened, AuthorStaged}
    ensures chain[i].state == AuthoritiesStaged ==> chain[j].state !in {Opened, AuthorStaged, InputsStaged}
    ensures chain[j].state == ContextStaged ==>
      chain[i].state in {Opened, AuthorStaged, InputsStaged, AuthoritiesStaged, ContextStaged}
    ensures chain[i].state == Verified ==>
      chain[j].state in {Verified, AuthorInstalled, SetInstalled, MarkerInstalled}
    ensures chain[i].state == AuthorInstalled ==> chain[j].state in {AuthorInstalled, SetInstalled, MarkerInstalled}
    ensures chain[i].state == SetInstalled ==> chain[j].state in {SetInstalled, MarkerInstalled}
    ensures chain[i].state == MarkerInstalled ==> chain[j].state == MarkerInstalled
  {
    hide Linked;
    StatesOnlyAdvance(canon, id, chain, i, j);
  }

  lemma FollowsLast(canon: Canon, id: Bytes, chain: seq<Checkpoint>, j: nat)
    requires Linked(canon, id, chain) && 0 < j < |chain|
    ensures Rank(chain[j - 1].state) <= Rank(chain[j].state)
    ensures chain[j].previous == Some(DigestOfCheckpoint(canon, chain[j - 1]))
  {
    hide Rank, DigestOfCheckpoint;
    assert Follows(canon, id, chain[..j], chain[j]);
  }

  /** What a recovery finds whole under the pending name. */
  function Promotable(canon: Canon, id: Bytes, chain: seq<Checkpoint>, pending: Bytes): Option<Checkpoint> {
    var decoded := DecodeCheckpoint(canon, pending);
    if decoded.Some? && Follows(canon, id, chain, decoded.value) then decoded else None
  }

  function Publishing(folder: CheckpointFolder, n: nat, payload: Bytes): CheckpointFolder {
    folder[Unfinished(n) := payload]
  }

  function Published(folder: CheckpointFolder, n: nat, payload: Bytes): CheckpointFolder {
    (folder - {Unfinished(n)})[Numbered(n) := payload]
  }

  lemma PendingKeepsChain(canon: Canon, id: Bytes, folder: CheckpointFolder, chain: seq<Checkpoint>, payload: Bytes)
    requires ChainIs(canon, id, folder, chain)
    ensures ChainIs(canon, id, Publishing(folder, |chain|, payload), chain)
    ensures ChainIs(canon, id, folder - {Unfinished(|chain|)}, chain)
  {
    hide Linked, DecodeCheckpoint;
  }

  lemma PublishedExtendsChain(canon: Canon, id: Bytes, folder: CheckpointFolder, chain: seq<Checkpoint>,
                              payload: Bytes, next: Checkpoint)
    requires ChainIs(canon, id, folder, chain) && Follows(canon, id, chain, next)
    requires DecodeCheckpoint(canon, payload) == Some(next)
    ensures ChainIs(canon, id, Published(folder, |chain|, payload), chain + [next])
  {
    hide Linked, DecodeCheckpoint, Follows;
    LinkedFurther(canon, id, chain, next);
    var after, longer := Published(folder, |chain|, payload), chain + [next];
    forall n | 0 <= n < |longer|
      ensures Numbered(n) in after && DecodeCheckpoint(canon, after[Numbered(n)]) == Some(longer[n])
    {
      LengthIsKnown(canon, id, folder, chain, n);
    }
    forall n: nat ensures Numbered(n) in after <==> n < |longer| {
      LengthIsKnown(canon, id, folder, chain, n);
    }
  }

  /** The pending name is free, or holds a beginning of the step that was interrupted. */
  ghost predicate OnlyTorn(canon: Canon, folder: CheckpointFolder, chain: seq<Checkpoint>, next: Checkpoint) {
    Unfinished(|chain|) in folder ==> folder[Unfinished(|chain|)] <= EncodeCheckpoint(canon, next)
  }

  /** A checkpoint that reads back. */
  ghost predicate Fits(canon: Canon, checkpoint: Checkpoint) {
    CheckpointAdmitted(checkpoint) && |EncodeCheckpoint(canon, checkpoint)| <= MAXIMUM_DOCUMENT_BYTES
  }

  /** Recovery finishes the interrupted step when it was whole, and else undoes it. */
  lemma TornOrWhole(canon: Canon, id: Bytes, chain: seq<Checkpoint>, pending: Bytes, next: Checkpoint)
    requires canon.Faithful() && Fits(canon, next) && Follows(canon, id, chain, next)
    requires pending <= EncodeCheckpoint(canon, next)
    ensures Promotable(canon, id, chain, pending) ==
      if pending == EncodeCheckpoint(canon, next) then Some(next) else None
  {
    hide EncodeCheckpoint, Follows, CheckpointAdmitted;
    if pending == EncodeCheckpoint(canon, next) {
      CheckpointTextIsExact(canon, pending, next);
    } else {
      assert pending == EncodeCheckpoint(canon, next)[..|pending|];
      TornCheckpointIsNone(canon, next, |pending|);
    }
  }

  lemma SequencesAreBounded(canon: Canon, id: Bytes, folder: CheckpointFolder, chain: seq<Checkpoint>)
    requires ChainIs(canon, id, folder, chain)
    ensures |chain| <= MAXIMUM_SEQUENCE + 1
  {
    if chain != [] {
      var n := |chain| - 1;
      assert Follows(canon, id, chain[..n], chain[n]);
      DecodedIsBounded(canon, folder[Numbered(n)]);
    }
  }

  lemma DecodedIsBounded(canon: Canon, raw: Bytes)
    ensures DecodeCheckpoint(canon, raw).Some? ==> DecodeCheckpoint(canon, raw).value.sequence <= MAXIMUM_SEQUENCE
  {
    hide FieldsFrom, EncodeCheckpoint, Order, Repeats, IsHex;
  }

  lemma FollowsAt(canon: Canon, id: Bytes, folder: CheckpointFolder, chain: seq<Checkpoint>, n: nat)
    requires ChainIs(canon, id, folder, chain) && n < |chain|
    ensures Numbered(n) in folder && DecodeCheckpoint(canon, folder[Numbered(n)]) == Some(chain[n])
    ensures Follows(canon, id, chain[..n], chain[n]) && chain[..n + 1] == chain[..n] + [chain[n]]
  {
    hide Follows, DecodeCheckpoint;
  }

  lemma FollowsSequence(canon: Canon, id: Bytes, chain: seq<Checkpoint>, next: Checkpoint)
    requires Follows(canon, id, chain, next)
    ensures next.sequence == |chain|
  {
  }

  lemma FitsReadsBack(canon: Canon, checkpoint: Checkpoint)
    requires canon.Faithful() && Fits(canon, checkpoint)
    ensures DecodeCheckpoint(canon, EncodeCheckpoint(canon, checkpoint)) == Some(checkpoint)
  {
    CheckpointTextIsExact(canon, EncodeCheckpoint(canon, checkpoint), checkpoint);
  }

  /** Only final names below `n`, and at most the n-th pending. */
  ghost predicate NamesAre(folder: CheckpointFolder, n: nat) {
    && (forall name | name in folder :: !name.Stray?)
    && (forall k: nat :: Numbered(k) in folder <==> k < n)
    && (forall k: nat | Unfinished(k) in folder :: k == n)
  }

  lemma NameIsThere(folder: CheckpointFolder, length: nat, n: nat)
    requires NamesAre(folder, length) && n < length
    ensures Numbered(n) in folder
  {
  }

  lemma CountIsExact(folder: CheckpointFolder, m: nat, n: nat)
    requires NamesAre(folder, m) && m <= MAXIMUM_SEQUENCE + 1 && n <= MAXIMUM_SEQUENCE + 1
    requires (forall k: nat | k < n :: Numbered(k) in folder) && (n <= MAXIMUM_SEQUENCE ==> Numbered(n) !in folder)
    ensures m == n
  {
    assert Numbered(n) in folder <==> n < m;
    assert Numbered(m) in folder <==> m < m;
  }

  lemma NamesAreOne(folder: CheckpointFolder, m: nat, n: nat)
    requires NamesAre(folder, m) && NamesAre(folder, n)
    ensures m == n
  {
    assert Numbered(m) in folder <==> m < n;
    assert Numbered(n) in folder <==> n < m;
  }

  lemma ChainNames(canon: Canon, id: Bytes, folder: CheckpointFolder, chain: seq<Checkpoint>)
    requires ChainIs(canon, id, folder, chain)
    ensures |chain| <= MAXIMUM_SEQUENCE + 1 && NamesAre(folder, |chain|)
  {
    hide Linked, DecodeCheckpoint;
    SequencesAreBounded(canon, id, folder, chain);
  }

  /** The first steps, decoded and linked. */
  ghost predicate ReadSoFar(canon: Canon, id: Bytes, folder: CheckpointFolder, steps: seq<Checkpoint>) {
    && Linked(canon, id, steps)
    && forall k | 0 <= k < |steps| ::
         Numbered(k) in folder && DecodeCheckpoint(canon, folder[Numbered(k)]) == Some(steps[k])
  }

  lemma ReadNone(canon: Canon, id: Bytes, folder: CheckpointFolder)
    ensures ReadSoFar(canon, id, folder, [])
  {
  }

  lemma ReadFurther(canon: Canon, id: Bytes, folder: CheckpointFolder, steps: seq<Checkpoint>, next: Checkpoint)
    requires ReadSoFar(canon, id, folder, steps) && Follows(canon, id, steps, next)
    requires Numbered(|steps|) in folder && DecodeCheckpoint(canon, folder[Numbered(|steps|)]) == Some(next)
    ensures ReadSoFar(canon, id, folder, steps + [next])
  {
    hide Linked, Follows, DecodeCheckpoint;
    LinkedFurther(canon, id, steps, next);
  }

  lemma ReadAll(canon: Canon, id: Bytes, folder: CheckpointFolder, steps: seq<Checkpoint>)
    requires ReadSoFar(canon, id, folder, steps) && NamesAre(folder, |steps|)
    ensures ChainIs(canon, id, folder, steps)
  {
    hide Linked, DecodeCheckpoint;
  }

  /** The chain after a recovery: the pending step joins it when it is whole. */
  function RecoveredChain(canon: Canon, id: Bytes, folder: CheckpointFolder, chain: seq<Checkpoint>): seq<Checkpoint> {
    if Unfinished(|chain|) !in folder then chain
    else
      var promoted := Promotable(canon, id, chain, folder[Unfinished(|chain|)]);
      if promoted.Some? then chain + [promoted.value] else chain
  }

  function RecoveredFolder(canon: Canon, id: Bytes, folder: CheckpointFolder,
                           chain: seq<Checkpoint>): CheckpointFolder {
    if Unfinished(|chain|) !in folder then folder
    else if Promotable(canon, id, chain, folder[Unfinished(|chain|)]).Some?
    then Published(folder, |chain|, folder[Unfinished(|chain|)])
    else folder - {Unfinished(|chain|)}
  }

  lemma RecoveredIsChain(canon: Canon, id: Bytes, folder: CheckpointFolder, chain: seq<Checkpoint>)
    requires ChainIs(canon, id, folder, chain)
    ensures ChainIs(canon, id, RecoveredFolder(canon, id, folder, chain), RecoveredChain(canon, id, folder, chain))
    ensures Unfinished(|RecoveredChain(canon, id, folder, chain)|) !in RecoveredFolder(canon, id, folder, chain)
  {
    hide DecodeCheckpoint, Follows, Linked;
    if Unfinished(|chain|) in folder {
      var pending := folder[Unfinished(|chain|)];
      if Promotable(canon, id, chain, pending).Some? {
        PublishedExtendsChain(canon, id, folder, chain, pending, Promotable(canon, id, chain, pending).value);
      } else {
        PendingKeepsChain(canon, id, folder, chain, []);
      }
    }
  }

  /** A committed checkpoint is never altered or lost. */
  ghost predicate CommittedStay(before: CheckpointFolder, after: CheckpointFolder) {
    forall n: nat | Numbered(n) in before :: Numbered(n) in after && after[Numbered(n)] == before[Numbered(n)]
  }

  /** One step of a journal's history. */
  ghost predicate ChainGrows(canon: Canon, id: Bytes, before: CheckpointFolder, after: CheckpointFolder) {
    CommittedStay(before, after) && exists was, now ::
      && ChainIs(canon, id, before, was) && ChainIs(canon, id, after, now)
      && was <= now && |now| <= |was| + 1
  }

  lemma Grown(canon: Canon, id: Bytes, before: CheckpointFolder, after: CheckpointFolder,
              was: seq<Checkpoint>, now: seq<Checkpoint>)
    requires ChainIs(canon, id, before, was) && ChainIs(canon, id, after, now) && CommittedStay(before, after)
    requires now == was || (|now| == |was| + 1 && now[..|was|] == was)
    ensures ChainGrows(canon, id, before, after)
  {
    hide ChainIs;
    assert was <= now && |now| <= |was| + 1;
  }

  lemma RecoveredStay(canon: Canon, id: Bytes, folder: CheckpointFolder, chain: seq<Checkpoint>)
    requires ChainIs(canon, id, folder, chain)
    ensures CommittedStay(folder, RecoveredFolder(canon, id, folder, chain))
  {
    LengthIsKnown(canon, id, folder, chain, |chain|);
    hide ChainIs, Promotable;
  }

  /** What may happen to a journal: the next step is appended, or a stop is recovered. */
  datatype Event = Appending(next: Checkpoint) | Recovering

  /** What an event leaves: a step is taken exactly when nothing is pending and it follows
      and fits, and a recovery that lives leaves nothing pending. */
  ghost predicate Happened(canon: Canon, id: Bytes, before: CheckpointFolder, event: Event, r: Outcome,
                           after: CheckpointFolder) {
    && (event.Recovering? ==> !r.Refused?)
    && (event.Recovering? && r.Done? ==> exists chain ::
          ChainIs(canon, id, after, chain) && Unfinished(|chain|) !in after)
    && (forall chain | event.Appending? && ChainIs(canon, id, before, chain) ::
          && (r.Refused? <==> Unfinished(|chain|) in before || !Follows(canon, id, chain, event.next)
                              || !Fits(canon, event.next))
          && (r.Done? ==> ChainIs(canon, id, after, chain + [event.next])))
  }

  class ChainFolder {
    const canon: Canon
    const id: Bytes
    var folder: CheckpointFolder
    // How many more steps this process lives; None when it is not going to die.
    var stop: Option<nat>

    constructor (canon: Canon, id: Bytes, folder: CheckpointFolder, stop: Option<nat>)
      ensures this.canon == canon && this.id == id && this.folder == folder && this.stop == stop
    {
      this.canon, this.id, this.folder, this.stop := canon, id, folder, stop;
    }

    /** Count the final names, or refuse names that no chain leaves. */
    method CountSteps() returns (length: Option<nat>)
      ensures length.Some? ==> NamesAre(folder, length.value)
      ensures length.None? ==> forall n: nat | n <= MAXIMUM_SEQUENCE + 1 :: !NamesAre(folder, n)
    {
      var n := 0;
      while n <= MAXIMUM_SEQUENCE && Numbered(n) in folder
        invariant n <= MAXIMUM_SEQUENCE + 1
        invariant forall k: nat | k < n :: Numbered(k) in folder
      {
        n := n + 1;
      }
      if exists name | name in folder ::
         name.Stray? || (name.Numbered? && name.n >= n) || (name.Unfinished? && name.n != n) {
        forall m: nat | m <= MAXIMUM_SEQUENCE + 1 && NamesAre(folder, m) ensures m == n {
          CountIsExact(folder, m, n);
        }
        return None;
      }
      return Some(n);
    }

    /** Read the whole chain, or refuse a directory that holds none. */
    method ReadChain() returns (chain: Option<seq<Checkpoint>>)
      ensures chain.Some? ==> ChainIs(canon, id, folder, chain.value)
      ensures chain.None? ==> forall read :: !ChainIs(canon, id, folder, read)
    {
      hide *;
      var length := CountSteps();
      forall read | ChainIs(canon, id, folder, read)
        ensures length.Some? && |read| == length.value && [] == read[..0]
      {
        ChainNames(canon, id, folder, read);
        if length.Some? {
          NamesAreOne(folder, |read|, length.value);
        }
      }
      if length.None? {
        return None;
      }
      var steps: seq<Checkpoint> := [];
      ReadNone(canon, id, folder);
      for n := 0 to length.value
        invariant |steps| == n && ReadSoFar(canon, id, folder, steps)
        invariant forall read | ChainIs(canon, id, folder, read) :: |read| == length.value && steps == read[..n]
      {
        NameIsThere(folder, length.value, n);
        forall read | ChainIs(canon, id, folder, read)
          ensures Numbered(n) in folder && DecodeCheckpoint(canon, folder[Numbered(n)]) == Some(read[n])
          ensures Follows(canon, id, steps, read[n]) && read[..n + 1] == read[..n] + [read[n]]
        {
          FollowsAt(canon, id, folder, read, n);
        }
        var decoded := DecodeCheckpoint(canon, folder[Numbered(n)]);
        if decoded.None? || !Follows(canon, id, steps, decoded.value) {
          return None;
        }
        ReadFurther(canon, id, folder, steps, decoded.value);
        steps := steps + [decoded.value];
      }
      ReadAll(canon, id, folder, steps);
      return Some(steps);
    }

    /** Write one file under its pending name. */
    method WritePending(n: nat, payload: Bytes) returns (alive: bool)
      requires Unfinished(n) !in folder
      modifies this
      ensures old(stop).None? ==> alive && stop.None?
      ensures alive ==> folder == Publishing(old(folder), n, payload)
      ensures !alive ==>
        folder == old(folder) || exists torn | torn <= payload :: folder == Publishing(old(folder), n, torn)
    {
      alive, stop := Spend(stop);
      if !alive {
        return;
      }
      folder := Publishing(folder, n, []);
      var written := 0;
      while written < |payload|
        invariant written <= |payload|
        invariant old(stop).None? ==> stop.None?
        invariant folder == Publishing(old(folder), n, payload[..written])
      {
        alive, stop := Spend(stop);
        if !alive {
          assert payload[..written] <= payload;
          return;
        }
        var more :| 0 < more <= |payload| - written;
        folder := Publishing(folder, n, payload[..written + more]);
        written := written + more;
      }
      assert payload[..written] == payload;
    }

    method RenamePending(n: nat) returns (alive: bool)
      requires Unfinished(n) in folder
      modifies this
      ensures old(stop).None? ==> alive && stop.None?
      ensures folder == if alive then Published(old(folder), n, old(folder)[Unfinished(n)]) else old(folder)
    {
      alive, stop := Spend(stop);
      if alive {
        folder := Published(folder, n, folder[Unfinished(n)]);
      }
    }

    /** Make one further step durable: born pending, written whole, then renamed. */
    method Append(ghost chain: seq<Checkpoint>, next: Checkpoint) returns (r: Outcome)
      requires canon.Faithful() && ChainIs(canon, id, folder, chain) && Fits(canon, next)
      requires Follows(canon, id, chain, next)
      requires Unfinished(|chain|) !in folder
      modifies this
      ensures old(stop).None? ==> stop.None? && !r.Stopped?
      ensures !r.Refused?
      ensures r.Done? ==> ChainIs(canon, id, folder, chain + [next]) && Unfinished(|chain| + 1) !in folder
      ensures r.Stopped? ==> ChainIs(canon, id, folder, chain) && OnlyTorn(canon, folder, chain, next)
      ensures CommittedStay(old(folder), folder)
    {
      hide Follows, DecodeCheckpoint, EncodeCheckpoint, Linked, CheckpointAdmitted;
      FollowsSequence(canon, id, chain, next);
      var n := next.sequence;
      var payload := EncodeCheckpoint(canon, next);
      LengthIsKnown(canon, id, folder, chain, |chain|);
      FitsReadsBack(canon, next);
      ghost var was := folder;
      var alive := WritePending(n, payload);
      forall torn ensures ChainIs(canon, id, Publishing(was, |chain|, torn), chain) {
        PendingKeepsChain(canon, id, was, chain, torn);
      }
      if !alive {
        return Stopped;
      }
      ghost var pending := folder;
      PublishedExtendsChain(canon, id, pending, chain, payload, next);
      alive := RenamePending(n);
      return if alive then Done else Stopped;
    }

    /** Promote the pending of the next step when it is whole and follows; remove it
        otherwise. A directory without one stays as it is. */
    method Recover() returns (r: Outcome, chain: seq<Checkpoint>)
      requires canon.Faithful()
      modifies this
      ensures old(stop).None? ==> stop.None? && !r.Stopped?
      ensures r.Refused? <==> forall read :: !ChainIs(canon, id, old(folder), read)
      ensures !r.Done? ==> folder == old(folder)
      ensures r.Done? ==> ChainIs(canon, id, folder, chain) && Unfinished(|chain|) !in folder
      ensures r.Done? ==> exists before ::
        && ChainIs(canon, id, old(folder), before) && chain == RecoveredChain(canon, id, old(folder), before)
        && folder == RecoveredFolder(canon, id, old(folder), before)
    {
      hide DecodeCheckpoint, Follows, Linked, ChainIs, Promotable, Published;
      var read := ReadChain();
      if read.None? {
        return Refused, [];
      }
      chain := read.value;
      var n := |chain|;
      RecoveredIsChain(canon, id, folder, chain);
      if Unfinished(n) !in folder {
        return Done, chain;
      }
      var promoted := Promotable(canon, id, chain, folder[Unfinished(n)]);
      if promoted.Some? {
        var alive := RenamePending(n);
        if !alive {
          return Stopped, chain;
        }
        return Done, chain + [promoted.value];
      }
      var alive;
      alive, stop := Spend(stop);
      if !alive {
        return Stopped, chain;
      }
      folder := folder - {Unfinished(n)};
      return Done, chain;
    }

    /** One event, dying anywhere. A step that does not follow, or would not read
        back, is not attempted; one that does both is taken. */
    method Happen(event: Event) returns (r: Outcome)
      requires canon.Faithful() && exists chain :: ChainIs(canon, id, folder, chain)
      modifies this
      ensures old(stop).None? ==> !r.Stopped?
      ensures ChainGrows(canon, id, old(folder), folder) && Happened(canon, id, old(folder), event, r, folder)
    {
      hide ChainIs, Follows, DecodeCheckpoint, EncodeCheckpoint, CheckpointAdmitted, CommittedStay, ChainGrows;
      ghost var was :| ChainIs(canon, id, folder, was);
      StaysItself(folder);
      if event.Recovering? {
        var chain;
        r, chain := Recover();
        if r.Done? {
          ghost var before :| && ChainIs(canon, id, old(folder), before)
            && chain == RecoveredChain(canon, id, old(folder), before)
                              && folder == RecoveredFolder(canon, id, old(folder), before);
          RecoveredStay(canon, id, old(folder), before);
          Grown(canon, id, old(folder), folder, before, chain);
        } else {
          Grown(canon, id, old(folder), folder, was, was);
        }
        return;
      }
      var read := ReadChain();
      forall chain | ChainIs(canon, id, folder, chain) ensures read == Some(chain) {
        OneChain(canon, id, folder, read.value, chain);
      }
      if read.None? || Unfinished(|read.value|) in folder || !Follows(canon, id, read.value, event.next)
         || !CheckpointAdmitted(event.next) || |EncodeCheckpoint(canon, event.next)| > MAXIMUM_DOCUMENT_BYTES {
        Grown(canon, id, old(folder), folder, was, was);
        return Refused;
      }
      r := Append(read.value, event.next);
      Grown(canon, id, old(folder), folder, read.value, if r.Done? then read.value + [event.next] else read.value);
    }

    /** Any interleaving of appends, deaths and recoveries. */
    method Unfold(events: seq<(Event, Option<nat>)>) returns (outcomes: seq<Outcome>,
                                                              ghost history: seq<CheckpointFolder>)
      requires canon.Faithful() && exists chain :: ChainIs(canon, id, folder, chain)
      modifies this
      ensures |history| == |events| + 1 && history[0] == old(folder) && history[|events|] == folder
      ensures forall i | 0 <= i < |events| :: ChainGrows(canon, id, history[i], history[i + 1])
      ensures |outcomes| == |events| && forall i | 0 <= i < |events| ::
        && Happened(canon, id, history[i], events[i].0, outcomes[i], history[i + 1])
        && (events[i].1.None? ==> !outcomes[i].Stopped?)
    {
      hide ChainIs, CommittedStay, Happened;
      history, outcomes := [folder], [];
      for i := 0 to |events|
        invariant exists chain :: ChainIs(canon, id, folder, chain)
        invariant |history| == i + 1 && history[0] == old(folder) && history[i] == folder
        invariant forall k | 0 <= k < i :: ChainGrows(canon, id, history[k], history[k + 1])
        invariant |outcomes| == i && forall k | 0 <= k < i ::
          && Happened(canon, id, history[k], events[k].0, outcomes[k], history[k + 1])
          && (events[k].1.None? ==> !outcomes[k].Stopped?)
      {
        ghost var was :| ChainIs(canon, id, folder, was);
        stop := events[i].1;
        assert ChainIs(canon, id, folder, was);
        var r := Happen(events[i].0);
        history, outcomes := history + [folder], outcomes + [r];
      }
    }
  }

  lemma StaysItself(folder: CheckpointFolder)
    ensures CommittedStay(folder, folder)
  {
  }

  /** Whatever happens later, an earlier chain stays a beginning of the chain read. */
  lemma {:induction false} HistoryOnlyAppends(canon: Canon, id: Bytes, history: seq<CheckpointFolder>,
                                             first: seq<Checkpoint>, last: seq<Checkpoint>)
    requires history != [] && forall i | 0 <= i < |history| - 1 :: ChainGrows(canon, id, history[i], history[i + 1])
    requires ChainIs(canon, id, history[0], first) && ChainIs(canon, id, history[|history| - 1], last)
    ensures first <= last && |last| <= |first| + |history| - 1
  {
    hide ChainIs, CommittedStay;
    var n := |history| - 1;
    if n == 0 {
      OneChain(canon, id, history[0], first, last);
    } else {
      assert ChainGrows(canon, id, history[n - 1], history[n - 1 + 1]);
      var was, now :| ChainIs(canon, id, history[n - 1], was) && ChainIs(canon, id, history[n], now)
                      && was <= now && |now| <= |was| + 1;
      OneChain(canon, id, history[n], now, last);
      HistoryOnlyAppends(canon, id, history[..n], first, was);
    }
  }
}
