/** Exporting a ledger and replaying it in a fresh store. */
module EvidenceExport {
  import opened Wrappers
  import opened EvidenceEvents
  import opened EvidenceMeaning
  import opened EvidenceLedger

  /** A table that only `Put` has written. */
  ghost predicate Stored(rules: Rules, rows: seq<Artifact>) {
    && (forall row | row in rows :: 0 < row.size <= MAX_RECORD_BYTES)
    && (forall i, j | 0 <= i < j < |rows| :: rules.name(rows[i]) != rules.name(rows[j]))
  }

  lemma {:induction false} InStore(rules: Rules, rows: seq<Artifact>, id: Id)
    ensures id in StoreOf(rules, rows) <==> exists i | 0 <= i < |rows| :: rules.name(rows[i]) == id
    ensures id in StoreOf(rules, rows) ==>
      StoreOf(rules, rows)[id] in rows && rules.name(StoreOf(rules, rows)[id]) == id
  {
    if rows != [] {
      var n := |rows| - 1;
      InStore(rules, rows[..n], id);
      if i :| 0 <= i < |rows| && rules.name(rows[i]) == id {
        if i < n {
          assert rules.name(rows[..n][i]) == id;
        }
      }
      if i :| 0 <= i < n && rules.name(rows[..n][i]) == id {
        assert rules.name(rows[i]) == id;
      }
    }
  }

  /** Storing artifacts keeps the table well stored. */
  lemma {:induction false} PutsKeepStored(rules: Rules, rows: seq<Artifact>, artifacts: seq<Artifact>)
    requires Stored(rules, rows) && AfterPuts(rules, rows, artifacts).Some?
    ensures Stored(rules, AfterPuts(rules, rows, artifacts).value)
  {
    if artifacts != [] {
      var n := |artifacts| - 1;
      PutsKeepStored(rules, rows, artifacts[..n]);
      var before := AfterPuts(rules, rows, artifacts[..n]).value;
      hide StoreOf, AfterPuts, ArtifactBytes;
      forall i | 0 <= i < |before| && rules.name(before[i]) == rules.name(artifacts[n])
        ensures rules.name(artifacts[n]) in StoreOf(rules, before)
      {
        InStore(rules, before, rules.name(artifacts[n]));
      }
    }
  }

  /** The artifacts of an export: the table, and every event body under its plain
      digest. */
  function ExportRows(rules: Rules, blob: Event -> Artifact, rows: seq<Artifact>, events: seq<Event>): seq<Artifact> {
    if events == [] then rows
    else AfterPut(rules, ExportRows(rules, blob, rows, events[..|events| - 1]), blob(events[|events| - 1]))
  }

  lemma {:induction false} ExportExtends(rules: Rules, blob: Event -> Artifact, rows: seq<Artifact>, events: seq<Event>)
    requires Stored(rules, rows) && forall event | event in events :: 0 < blob(event).size <= MAX_RECORD_BYTES
    ensures Stored(rules, ExportRows(rules, blob, rows, events))
    ensures Extends(StoreOf(rules, rows), StoreOf(rules, ExportRows(rules, blob, rows, events)))
  {
    if events != [] {
      var n := |events| - 1;
      ExportExtends(rules, blob, rows, events[..n]);
      var before := ExportRows(rules, blob, rows, events[..n]);
      assert events[n] in events;
      BlobKeepsStored(rules, before, blob(events[n]));
    }
  }

  lemma BlobKeepsStored(rules: Rules, rows: seq<Artifact>, artifact: Artifact)
    requires Stored(rules, rows) && 0 < artifact.size <= MAX_RECORD_BYTES
    ensures Stored(rules, AfterPut(rules, rows, artifact))
    ensures Extends(StoreOf(rules, rows), StoreOf(rules, AfterPut(rules, rows, artifact)))
  {
    InStore(rules, rows, rules.name(artifact));
    assert (rows + [artifact])[..|rows|] == rows;
  }

  lemma {:induction false} BytesGrow(rows: seq<Artifact>, n: nat)
    requires n <= |rows|
    ensures ArtifactBytes(rows[..n]) <= ArtifactBytes(rows)
    decreases |rows|
  {
    if n < |rows| {
      BytesGrow(rows[..|rows| - 1], n);
      assert rows[..|rows| - 1][..n] == rows[..n];
    } else {
      assert rows[..n] == rows;
    }
  }

  /** A well-stored table within the budget is rebuilt row by row. */
  lemma {:induction false} TableRebuilds(rules: Rules, rows: seq<Artifact>)
    requires Stored(rules, rows) && ArtifactBytes(rows) <= MAX_TABLE_BYTES
    ensures AfterPuts(rules, [], rows) == Some(rows)
  {
    if rows != [] {
      var n := |rows| - 1;
      BytesGrow(rows, n);
      TableRebuilds(rules, rows[..n]);
      InStore(rules, rows[..n], rules.name(rows[n]));
      assert rows[n] in rows && rows[..n] + [rows[n]] == rows;
    }
  }

  /** Replay an exported chronology in a fresh, empty store. */
  method ReplayExport(rules: Rules, events: seq<Event>, artifacts: seq<Artifact>) returns (frontier: Option<State>)
    ensures Stored(rules, artifacts) ==>
      (frontier.Some? <==> events != [] && artifacts != [] && Opens(rules, artifacts, events))
    ensures frontier.Some? && Stored(rules, artifacts) ==> frontier == Replay(rules, StoreOf(rules, artifacts), events)
  {
    hide Replay, StoreOf, ArtifactBytes, EventBytes, AfterPuts, Stored;
    if events == [] || |events| > MAX_EVENTS {
      return None;
    }
    StoredBytes(rules, artifacts);
    if ArtifactBytes(artifacts) == 0 || ArtifactBytes(artifacts) > MAX_TABLE_BYTES {
      return None;
    }
    if Stored(rules, artifacts) {
      TableRebuilds(rules, artifacts);
    }
    var owner := new Evidence(rules, [], []);
    var stored := owner.PutAll(artifacts);
    if !stored {
      return None;
    }
    owner.events := events;
    var readable := owner.Rebuild();
    return if readable then Some(owner.state) else None;
  }

  lemma StoredBytes(rules: Rules, rows: seq<Artifact>)
    ensures Stored(rules, rows) ==> (ArtifactBytes(rows) == 0 <==> rows == [])
  {
    if Stored(rules, rows) && rows != [] {
      assert rows[|rows| - 1] in rows;
    }
  }

  /** An exported ledger replays to the state it was exported from, whenever its
      artifacts and its event bodies together fit the table budget. */
  lemma ExportReplaysIdentically(rules: Rules, blob: Event -> Artifact, rows: seq<Artifact>, events: seq<Event>)
    requires Stored(rules, rows) && Opens(rules, rows, events)
    requires forall event | event in events :: 0 < blob(event).size <= MAX_RECORD_BYTES
    ensures var exported := ExportRows(rules, blob, rows, events);
            && Stored(rules, exported)
            && (Opens(rules, exported, events) <==> ArtifactBytes(exported) <= MAX_TABLE_BYTES)
            && Replay(rules, StoreOf(rules, exported), events) == Replay(rules, StoreOf(rules, rows), events)
  {
    hide Replay, StoreOf, ArtifactBytes, EventBytes, ExportRows, Stored, Extends;
    ExportExtends(rules, blob, rows, events);
    ReplayInLarger(rules, StoreOf(rules, rows), StoreOf(rules, ExportRows(rules, blob, rows, events)), events);
  }

  /** The starts, among the given ones, that the chronology finished, in order. */
  method FinishedAmong(events: seq<Event>, starts: seq<Id>) returns (finished: seq<Id>)
    ensures finished == FinishedIn(events, starts)
  {
    finished := [];
    for i := 0 to |events|
      invariant finished == FinishedIn(events[..i], starts)
    {
      assert events[..i + 1][..i] == events[..i];
      if events[i].act.CycleFinished? && events[i].act.start in starts {
        finished := finished + [events[i].act.start];
      }
    }
    assert events[..|events|] == events;
  }

  function FinishedIn(events: seq<Event>, starts: seq<Id>): seq<Id> {
    if events == [] then []
    else
      var last := events[|events| - 1].act;
      FinishedIn(events[..|events| - 1], starts)
        + if last.CycleFinished? && last.start in starts then [last.start] else []
  }

  lemma {:induction false} NoneFinished(events: seq<Event>, starts: seq<Id>, n: nat)
    requires n <= |events|
    requires forall k | n <= k < |events| :: !(events[k].act.CycleFinished? && events[k].act.start in starts)
    ensures FinishedIn(events, starts) == FinishedIn(events[..n], starts)
    decreases |events|
  {
    if n < |events| {
      NoneFinished(events[..|events| - 1], starts, n);
      assert events[..|events| - 1][..n] == events[..n];
    } else {
      assert events[..n] == events;
    }
  }

  lemma OnlyTwoFinish(events: seq<Event>, starts: seq<Id>, i: nat, j: nat)
    requires i < j < |events|
    requires forall k | 0 <= k < |events| ::
      (events[k].act.CycleFinished? && events[k].act.start in starts) <==> (k == i || k == j)
    ensures FinishedIn(events, starts) == [events[i].act.start, events[j].act.start]
  {
    NoneFinished(events, starts, j + 1);
    assert events[..j + 1][..j] == events[..j];
    NoneFinished(events[..j], starts, i + 1);
    assert events[..j][..i + 1] == events[..i + 1] && events[..i + 1][..i] == events[..i];
    NoneFinished(events[..i], starts, 0);
  }

  /** The chronology finishes exactly the successes, in their order: the audit of an
      export never finds them out of order. */
  lemma AuditOrderAgrees(rules: Rules, store: Store, events: seq<Event>)
    requires rules.Apart(events) && Replay(rules, store, events).Some?
    requires |Replay(rules, store, events).value.successes| == 2
    ensures FinishedIn(events, Replay(rules, store, events).value.successes) ==
      Replay(rules, store, events).value.successes
  {
    hide Replay, CasePassed, Consumed, FinishedIn, InForce;
    var starts := Replay(rules, store, events).value.successes;
    var _, i, j := TwoWholeCycles(rules, store, events);
    forall k | 0 <= k < |events| && events[k].act.CycleFinished? && events[k].act.start in starts
      ensures k == i || k == j
    {
      if events[k].act.start == starts[0] {
        StartsCloseOnce(rules, store, events, k, i);
      } else {
        StartsCloseOnce(rules, store, events, k, j);
      }
    }
    OnlyTwoFinish(events, starts, i, j);
  }

  /** What the audit asks of a replayed export: a profile, two successes, nothing
      pending and no finding open. */
  predicate Complete(state: State) {
    && state.profile.Some? && state.pending.None? && |state.successes| == 2
    && forall finding | finding in state.findings :: state.findings[finding].None?
  }

  /** The same, read off the chronology: a profile is in force, two cycles passed since
      the latest reset, none is under way and every reported finding was settled. */
  ghost predicate AuditPasses(rules: Rules, store: Store, events: seq<Event>) {
    && events != [] && !events[|events| - 1].act.CycleStarted? && NothingReported(rules, events)
    && (exists p: nat :: InForce(events, p))
    && (exists k: nat :: SinceReset(store, events, k) && |PassedFrom(store, events, k)| >= 2)
  }

  lemma CompleteExactly(rules: Rules, store: Store, events: seq<Event>)
    requires events != [] && Replay(rules, store, events).Some?
    ensures Complete(Replay(rules, store, events).value) <==> AuditPasses(rules, store, events)
  {
    hide Replay, InForce, SinceReset, PassedFrom, NothingReported, StatusOf;
    var state := Replay(rules, store, events).value;
    PendingIsLast(rules, store, events);
    NothingOpenExactly(rules, store, events);
    SettledFindings(state);
    forall k: nat | SinceReset(store, events, k)
      ensures |state.successes| == 2 <==> |PassedFrom(store, events, k)| >= 2
    {
      SuccessesMean(rules, store, events, k);
    }
    var k := SomeStretch(store, events);
    assert SinceReset(store, events, k);
    if state.profile.Some? {
      var p := SomeInForce(rules, store, events);
      assert InForce(events, p);
    }
    forall p: nat | InForce(events, p) ensures state.profile.Some? {
      ProfileMeans(rules, store, events, p);
    }
  }

  lemma SettledFindings(state: State)
    ensures (forall finding | finding in state.findings :: state.findings[finding].None?) <==>
            forall finding :: StatusOf(state, finding).None?
  {
    if forall finding :: StatusOf(state, finding).None? {
      forall finding | finding in state.findings ensures state.findings[finding].None? {
        assert StatusOf(state, finding).None?;
      }
    }
  }

  /** Replay an export and audit the order of its cycles: what is complete is
      accepted, with the successes as its cycles, and nothing else is. */
  method AuditCycles(rules: Rules, events: seq<Event>, artifacts: seq<Artifact>) returns (cycles: Option<seq<Id>>)
    ensures rules.Apart(events) && Stored(rules, artifacts) ==>
      (cycles.Some? <==>
        && events != [] && artifacts != [] && Opens(rules, artifacts, events)
        && AuditPasses(rules, StoreOf(rules, artifacts), events))
    ensures cycles.Some? && Stored(rules, artifacts) ==>
      var replayed := Replay(rules, StoreOf(rules, artifacts), events);
      replayed.Some? && cycles.value == replayed.value.successes
  {
    hide Replay, StoreOf, ArtifactBytes, EventBytes, FinishedIn, Stored, AuditPasses;
    var frontier := ReplayExport(rules, events, artifacts);
    if frontier.Some? && Stored(rules, artifacts) {
      CompleteExactly(rules, StoreOf(rules, artifacts), events);
    }
    if frontier.None? || !Complete(frontier.value) {
      return None;
    }
    if rules.Apart(events) && Stored(rules, artifacts) {
      AuditOrderAgrees(rules, StoreOf(rules, artifacts), events);
    }
    var finished := FinishedAmong(events, frontier.value.successes);
    return if finished == frontier.value.successes then Some(finished) else None;
  }

  /** An import of the same cycles from the same installation. */
  predicate SameImport(store: Store, act: Act, origin: string, cycles: seq<Id>) {
    && act.OperationalImport? && act.exported in store && store[act.exported].body.ExportDocument?
    && store[act.exported].body.origin == origin && store[act.exported].body.cycles == cycles
  }

  ghost predicate LatestImport(store: Store, events: seq<Event>, origin: string, cycles: seq<Id>, i: nat) {
    && i < |events| && SameImport(store, events[i].act, origin, cycles)
    && forall j | i < j < |events| :: !SameImport(store, events[j].act, origin, cycles)
  }

  /** A finding reported locally invalidates the cycles imported before it. */
  predicate Invalidates(act: Act) {
    act.DefectOpened? || (act.Census? && act.findings != map[])
  }

  /** A fresh import may repeat an earlier one only unchanged: no finding was reported
      since, the destination is the same, and it continued nothing. */
  ghost predicate MayImport(store: Store, events: seq<Event>, origin: string, cycles: seq<Id>, destination: Document) {
    forall i: nat | LatestImport(store, events, origin, cycles, i) ::
      && (forall j | i < j < |events| :: !Invalidates(events[j].act))
      && events[i].act.predecessor.None?
      && events[i].act.destination in store && store[events[i].act.destination].body == destination
  }

  /** The document that an import brought in. */
  function ExportIn(store: Store, act: Act): Option<Document> {
    if act.OperationalImport? && act.exported in store && store[act.exported].body.ExportDocument?
    then Some(store[act.exported].body) else None
  }

  /** A fresh import cannot erase a continuation or bring invalidated cycles back. */
  method CheckImportHistory(store: Store, events: seq<Event>, origin: string, cycles: seq<Id>, destination: Document)
      returns (allowed: bool)
    ensures allowed <==> MayImport(store, events, origin, cycles, destination)
    ensures (forall event | event in events && ExportIn(store, event.act).Some? ::
               ExportIn(store, event.act).value.origin != origin || ExportIn(store, event.act).value.cycles != cycles)
            ==> allowed
  {
    hide SameImport, Invalidates, ExportIn;
    var prior: Option<nat>, invalidated := None, false;
    for n := 0 to |events|
      invariant prior.None? ==> forall k | 0 <= k < n :: !SameImport(store, events[k].act, origin, cycles)
      invariant prior.Some? ==> prior.value < n && SameImport(store, events[prior.value].act, origin, cycles)
                                && forall k | prior.value < k < n :: !SameImport(store, events[k].act, origin, cycles)
      invariant prior.Some? ==> (invalidated <==> exists k | prior.value < k < n :: Invalidates(events[k].act))
    {
      if SameImport(store, events[n].act, origin, cycles) {
        prior, invalidated := Some(n), false;
      } else if prior.Some? && Invalidates(events[n].act) {
        invalidated := true;
      }
    }
    if prior.None? {
      return true;
    }
    ImportIsImport(store, events[prior.value].act, origin, cycles);
    assert events[prior.value] in events;
    assert LatestImport(store, events, origin, cycles, prior.value);
    assert forall i: nat | LatestImport(store, events, origin, cycles, i) :: i == prior.value;
    var act := events[prior.value].act;
    return !invalidated && act.predecessor.None? && act.destination in store
      && store[act.destination].body == destination;
  }

  lemma ImportIsImport(store: Store, act: Act, origin: string, cycles: seq<Id>)
    requires SameImport(store, act, origin, cycles)
    ensures act.OperationalImport? && ExportIn(store, act).Some?
    ensures ExportIn(store, act).value.origin == origin && ExportIn(store, act).value.cycles == cycles
  {
  }

  /** How an installation comes by an import: a fresh one was checked against the
      history, and a continuation repeats the export that stands. */
  ghost predicate CameProperly(store: Store, events: seq<Event>, n: nat)
    requires n < |events|
  {
    var act := events[n].act;
    ExportIn(store, act).Some? ==>
      if act.predecessor.None?
      then && act.destination in store
           && MayImport(store, events[..n], ExportIn(store, act).value.origin, ExportIn(store, act).value.cycles,
                        store[act.destination].body)
      else exists m: nat :: m < n && ImportStands(events[..n], m) && events[m].act.exported == act.exported
  }

  /** The latest of the same imports before a place, when there is one. */
  lemma {:induction false} LatestBefore(store: Store, events: seq<Event>, i: nat, n: nat, origin: string,
                                        cycles: seq<Id>)
      returns (latest: nat)
    requires i < n <= |events| && SameImport(store, events[i].act, origin, cycles)
    ensures i <= latest < n && LatestImport(store, events[..n], origin, cycles, latest)
  {
    hide SameImport;
    latest := i;
    for k := i + 1 to n
      invariant i <= latest < k && SameImport(store, events[latest].act, origin, cycles)
      invariant forall j | latest < j < k :: !SameImport(store, events[j].act, origin, cycles)
    {
      if SameImport(store, events[k].act, origin, cycles) {
        latest := k;
      }
    }
  }

  /** Cycles imported before a finding was reported never come in again, neither afresh
      nor as a continuation: what was invalidated stays invalidated. */
  lemma {:induction false} InvalidatedStaysOut(store: Store, events: seq<Event>, i: nat, j: nat, n: nat,
                                               finding: string)
    requires i < j < n < |events| && Reports(events[j].act, finding)
    requires forall k: nat | k < |events| :: CameProperly(store, events, k)
    requires ExportIn(store, events[i].act).Some? && ExportIn(store, events[n].act).Some?
    ensures var first, again := ExportIn(store, events[i].act).value, ExportIn(store, events[n].act).value;
            first.origin != again.origin || first.cycles != again.cycles
    decreases n
  {
    var first, again := ExportIn(store, events[i].act).value, ExportIn(store, events[n].act).value;
    if first.origin == again.origin && first.cycles == again.cycles {
      assert CameProperly(store, events, n);
      if events[n].act.predecessor.None? {
        var latest := LatestBefore(store, events, i, n, first.origin, first.cycles);
        if latest > j {
          InvalidatedStaysOut(store, events, i, j, latest, finding);
        } else {
          assert events[..n][j] == events[j] && Invalidates(events[..n][j].act);
        }
      } else {
        var m: nat :| m < n && ImportStands(events[..n], m) && events[m].act.exported == events[n].act.exported;
        if m > j {
          InvalidatedStaysOut(store, events, i, j, m, finding);
        } else {
          assert events[..n][j] == events[j] && EndsImport(ScopeOf(events[..n][..j]), events[..n][j].act);
        }
      }
    }
  }

  /** Once cycles were continued, they only come in as continuations. */
  lemma {:induction false} ContinuationStays(store: Store, events: seq<Event>, i: nat, n: nat)
    requires i < n < |events|
    requires forall k: nat | k < |events| :: CameProperly(store, events, k)
    requires ExportIn(store, events[i].act).Some? && ExportIn(store, events[n].act).Some?
    requires events[i].act.predecessor.Some?
    requires ExportIn(store, events[i].act).value.origin == ExportIn(store, events[n].act).value.origin
    requires ExportIn(store, events[i].act).value.cycles == ExportIn(store, events[n].act).value.cycles
    ensures events[n].act.predecessor.Some?
    decreases n
  {
    if events[n].act.predecessor.None? {
      assert CameProperly(store, events, n);
      var first := ExportIn(store, events[i].act).value;
      var latest := LatestBefore(store, events, i, n, first.origin, first.cycles);
      if latest > i {
        ContinuationStays(store, events, i, latest);
      }
      assert events[..n][latest] == events[latest];
    }
  }
}
