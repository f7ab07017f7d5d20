/** Where the budgets of the ledger give out: a commit that cannot be read back, a
    full ledger that cannot be opened, an export that does not fit. */
module EvidenceLimits {
  import opened Wrappers
  import opened EvidenceEvents
  import opened EvidenceMeaning
  import opened EvidenceLedger
  import opened EvidenceExport

  /** The length of `sha256:` and 64 digits. */
  const DIGEST_LENGTH := 71

  /** The same act, again and again. */
  function Repeated(rules: Rules, act: Act, n: nat): (events: seq<Event>)
    ensures |events| == n && forall event | event in events :: event.act == act && event.sequence <= n
  {
    if n == 0 then []
    else
      var before := Repeated(rules, act, n - 1);
      before + [Event(n, if n == 1 then None else Some(rules.digest(before[n - 2])), act)]
  }

  /** An uneventful census changes nothing but the place in the chain. */
  lemma {:induction false} RepeatedReplays(rules: Rules, store: Store, act: Act, n: nat)
    requires act.Census? && CensusHolds(rules, store, act) && act.findings == map[]
    ensures Replay(rules, store, Repeated(rules, act, n)).Some?
    ensures Replay(rules, store, Repeated(rules, act, n)).value.pending.None?
  {
    hide Replay, Apply, CensusHolds;
    if n == 0 {
      EmptyReplays(rules, store);
    } else {
      var before := Repeated(rules, act, n - 1);
      RepeatedReplays(rules, store, act, n - 1);
      ReplayCounts(rules, store, before);
      var last := Repeated(rules, act, n)[n - 1];
      CensusIsTaken(rules, store, Replay(rules, store, before).value, last);
      ReplayStep(rules, store, before, last);
    }
  }

  lemma EmptyReplays(rules: Rules, store: Store)
    ensures Replay(rules, store, []) == Some(EMPTY)
  {
  }

  lemma CensusIsTaken(rules: Rules, store: Store, state: State, event: Event)
    requires event.sequence == state.count + 1 && event.previous == state.head && state.pending.None?
    requires event.act.Census? && CensusHolds(rules, store, event.act)
    ensures Apply(rules, store, state, event).Some? && Apply(rules, store, state, event).value.pending.None?
  {
    hide CensusHolds;
  }

  lemma OneTimeMore(n: nat, size: nat)
    ensures (n + 1) * size == n * size + size
  {
  }

  lemma {:induction false} BytesBetween(rules: Rules, events: seq<Event>, low: nat, high: nat)
    requires forall event | event in events :: low <= rules.size(event) <= high
    ensures |events| * low <= EventBytes(rules, events) <= |events| * high
  {
    if events != [] {
      var n := |events| - 1;
      BytesBetween(rules, events[..n], low, high);
      assert events[n] in events;
      OneTimeMore(n, low);
      OneTimeMore(n, high);
    }
  }

  function Names(rules: Rules, rows: seq<Artifact>): seq<Id> {
    seq(|rows|, i requires 0 <= i < |rows| => rules.name(rows[i]))
  }

  /** Every identity in the event has the length of a digest. */
  predicate Digests(event: Event) {
    && event.act.Census? && (event.previous.Some? ==> |event.previous.value| == DIGEST_LENGTH)
    && |event.act.scope| == DIGEST_LENGTH && |event.act.review| == DIGEST_LENGTH
    && forall source | source in event.act.sources :: |source| == DIGEST_LENGTH
  }

  /** How long the text of an uneventful census is: 74 characters for each source, with
      its quotes and comma, and less than 1 KiB for everything else. */
  ghost predicate Weighed(rules: Rules) {
    && (forall artifact :: |rules.name(artifact)| == DIGEST_LENGTH)
    && (forall event :: |rules.digest(event)| == DIGEST_LENGTH)
    && (forall event: Event | Digests(event) && event.act.findings == map[] && event.sequence <= MAX_EVENTS ::
          74 * |event.act.sources| <= rules.size(event) <= 74 * |event.act.sources| + 1024)
  }

  lemma {:induction false} RepeatedIsDigests(rules: Rules, act: Act, n: nat)
    requires Weighed(rules) && Digests(Event(1, None, act))
    ensures forall event | event in Repeated(rules, act, n) :: Digests(event)
  {
    if n > 0 {
      RepeatedIsDigests(rules, act, n - 1);
    }
  }

  lemma StoredByName(rules: Rules, rows: seq<Artifact>, i: nat)
    requires Stored(rules, rows) && i < |rows|
    ensures rules.name(rows[i]) in StoreOf(rules, rows) && StoreOf(rules, rows)[rules.name(rows[i])] == rows[i]
  {
    hide StoreOf;
    InStore(rules, rows, rules.name(rows[i]));
    var j: nat :| j < |rows| && rows[j] == StoreOf(rules, rows)[rules.name(rows[i])];
  }

  /** Storing again what is stored changes nothing. */
  lemma {:induction false} PutAgain(rules: Rules, rows: seq<Artifact>, n: nat)
    requires Stored(rules, rows) && ArtifactBytes(rows) <= MAX_TABLE_BYTES && n <= |rows|
    ensures AfterPuts(rules, rows, rows[..n]) == Some(rows)
  {
    hide StoreOf, ArtifactBytes;
    if n > 0 {
      PutAgain(rules, rows, n - 1);
      assert rows[..n][..n - 1] == rows[..n - 1];
      StoredByName(rules, rows, n - 1);
      assert rows[n - 1] in rows;
    }
  }

  /** The census of everything that is stored. */
  function WholeCensus(rules: Rules, rows: seq<Artifact>, scope: Id): Act
    requires rows != []
  {
    Census(scope, Names(rules, rows), rules.name(rows[0]), map[])
  }

  lemma WholeCensusHolds(rules: Rules, rows: seq<Artifact>, scope: Id)
    requires Stored(rules, rows) && rows != []
    ensures CensusHolds(rules, StoreOf(rules, rows), WholeCensus(rules, rows, scope))
  {
    hide StoreOf;
    forall i: nat | i < |rows| ensures rules.name(rows[i]) in StoreOf(rules, rows) {
      StoredByName(rules, rows, i);
    }
  }

  /** A commit can make the ledger unreadable: after 64 censuses of 14 000 stored
      documents, each of about 1 MB, the next one is accepted, committed, and never
      read again. */
  lemma CommitCanLoseLedger(rules: Rules, rows: seq<Artifact>, scope: Id)
    requires Weighed(rules) && |scope| == DIGEST_LENGTH
    requires Stored(rules, rows) && |rows| == 14_000 && ArtifactBytes(rows) <= MAX_TABLE_BYTES
    ensures var act := WholeCensus(rules, rows, scope);
            var events := Repeated(rules, act, 64);
            && Opens(rules, rows, events)
            && var state := Replay(rules, StoreOf(rules, rows), events).value;
               && !OperationRefused(rules, rows, state, rows, act)
               && !Opens(rules, rows, events + [EventFor(state, act)])
  {
    hide Replay, Apply, Repeated, EventBytes, StoreOf, ArtifactBytes, Stored, CensusHolds, AfterPuts;
    var act := WholeCensus(rules, rows, scope);
    var store, events := StoreOf(rules, rows), Repeated(rules, act, 64);
    WholeCensusHolds(rules, rows, scope);
    RepeatedReplays(rules, store, act, 64);
    ReplayCounts(rules, store, events);
    var state := Replay(rules, store, events).value;
    var event := EventFor(state, act);
    CensusIsTaken(rules, store, state, event);
    PutAgain(rules, rows, |rows|);
    assert rows[..|rows|] == rows;
    CensusWeight(rules, act, events, event);
    BytesBetween(rules, events, 1_036_000, 1_037_024);
    EventBytesStep(rules, events, event);
  }

  lemma CensusWeight(rules: Rules, act: Act, events: seq<Event>, event: Event)
    requires Weighed(rules) && act.Census? && act.findings == map[] && |act.sources| == 14_000
    requires Digests(Event(1, None, act))
    requires events == Repeated(rules, act, 64) && event.act == act && event.sequence == 65
    requires event.previous == Some(rules.digest(events[63]))
    ensures forall e | e in events :: 1_036_000 <= rules.size(e) <= 1_037_024
    ensures 1_036_000 <= rules.size(event) <= 1_037_024
  {
    hide Repeated;
    RepeatedIsDigests(rules, act, 64);
  }

  /** A full ledger can be opened exactly when its last event starts no cycle: closing
      one takes an event more. */
  lemma FullLedgerOpensExactly(rules: Rules, rows: seq<Artifact>, events: seq<Event>)
    requires Opens(rules, rows, events) && |events| == MAX_EVENTS
    ensures CanOpen(rules, rows, events) <==> !events[MAX_EVENTS - 1].act.CycleStarted?
  {
    hide Replay, EventBytes, StoreOf, ArtifactBytes;
    PendingIsLast(rules, StoreOf(rules, rows), events);
    ReplayCounts(rules, StoreOf(rules, rows), events);
  }

  /** Censuses, a profile, and the start of a cycle under it: a full ledger. */
  function FullRun(rules: Rules, census: Act, profile: Act): (events: seq<Event>)
    ensures |events| == MAX_EVENTS && events[MAX_EVENTS - 1].act.CycleStarted?
  {
    var before := Repeated(rules, census, MAX_EVENTS - 2);
    var frozen := Event(MAX_EVENTS - 1, Some(rules.digest(before[MAX_EVENTS - 3])), profile);
    before + [frozen] + [Event(MAX_EVENTS, Some(rules.digest(frozen)), CycleStarted(Some(rules.digest(frozen))))]
  }

  lemma ProfileIsTaken(rules: Rules, store: Store, state: State, event: Event)
    requires event.sequence == state.count + 1 && event.previous == state.head && state.pending.None?
    requires state.scope.Some?
    requires event.act.ProfileFrozen? && ProfileHolds(rules, store, event.act)
    ensures Apply(rules, store, state, event).Some? && Apply(rules, store, state, event).value.pending.None?
    ensures Apply(rules, store, state, event).value.profile == Some(rules.digest(event))
    ensures Apply(rules, store, state, event).value.scope.Some?
  {
    hide CasesHold, Selected;
  }

  lemma StartIsTaken(rules: Rules, store: Store, state: State, event: Event)
    requires event.sequence == state.count + 1 && event.previous == state.head && state.pending.None?
    requires state.scope.Some?
    requires event.act.CycleStarted? && state.profile.Some? && event.act.profile == state.profile
    ensures Apply(rules, store, state, event).Some?
  {
  }

  lemma FullRunReplays(rules: Rules, store: Store, census: Act, profile: Act)
    requires census.Census? && CensusHolds(rules, store, census) && census.findings == map[]
    requires profile.ProfileFrozen? && ProfileHolds(rules, store, profile)
    ensures Replay(rules, store, FullRun(rules, census, profile)).Some?
  {
    hide Replay, Apply, Repeated, CensusHolds, ProfileHolds;
    var n := MAX_EVENTS - 2;
    var before := Repeated(rules, census, n);
    RepeatedReplays(rules, store, census, n);
    ReplayCounts(rules, store, before);
    ScopeIsSet(rules, store, before);
    var events := FullRun(rules, census, profile);
    ProfileIsTaken(rules, store, Replay(rules, store, before).value, events[n]);
    ReplayStep(rules, store, before, events[n]);
    var frozen := before + [events[n]];
    ReplayCounts(rules, store, frozen);
    StartIsTaken(rules, store, Replay(rules, store, frozen).value, events[n + 1]);
    ReplayStep(rules, store, frozen, events[n + 1]);
  }

  /** A readable ledger of 10 000 events, each far below the budget, that no
      administrative session can open any more. */
  lemma FullLedgerCannotOpen(rules: Rules, rows: seq<Artifact>, census: Act, profile: Act)
    requires ArtifactBytes(rows) <= MAX_TABLE_BYTES && census.Census? && census.findings == map[]
    requires profile.ProfileFrozen?
    requires CensusHolds(rules, StoreOf(rules, rows), census) && ProfileHolds(rules, StoreOf(rules, rows), profile)
    requires forall event | event in FullRun(rules, census, profile) :: rules.size(event) <= 4096
    ensures Opens(rules, rows, FullRun(rules, census, profile))
    ensures !CanOpen(rules, rows, FullRun(rules, census, profile))
  {
    hide Replay, FullRun, EventBytes, StoreOf, ArtifactBytes, CensusHolds, ProfileHolds;
    var events := FullRun(rules, census, profile);
    FullRunReplays(rules, StoreOf(rules, rows), census, profile);
    BytesBetween(rules, events, 0, 4096);
    FullLedgerOpensExactly(rules, rows, events);
  }

  /** The export of a ledger whose artifacts fill their budget does not fit: its first
      event body is one artifact too many. */
  lemma ExportMayNotFit(rules: Rules, blob: Event -> Artifact, rows: seq<Artifact>, scope: Id)
    requires Stored(rules, rows) && ArtifactBytes(rows) == MAX_TABLE_BYTES && rows != []
    requires forall event | event in Repeated(rules, WholeCensus(rules, rows, scope), 1) ::
      && rules.size(event) <= MAX_RECORD_BYTES && 0 < blob(event).size <= MAX_RECORD_BYTES
      && rules.name(blob(event)) !in StoreOf(rules, rows)
    ensures var events := Repeated(rules, WholeCensus(rules, rows, scope), 1);
            Opens(rules, rows, events) && !Opens(rules, ExportRows(rules, blob, rows, events), events)
  {
    hide Replay, StoreOf, Stored, CensusHolds, Extends;
    var act := WholeCensus(rules, rows, scope);
    var events := Repeated(rules, act, 1);
    WholeCensusHolds(rules, rows, scope);
    RepeatedReplays(rules, StoreOf(rules, rows), act, 1);
    BytesBetween(rules, events, 0, MAX_RECORD_BYTES);
    assert events[..0] == [] && ExportRows(rules, blob, rows, []) == rows;
    assert (rows + [blob(events[0])])[..|rows|] == rows;
  }
}
