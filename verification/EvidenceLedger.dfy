/** The append-only store of the ledger, over one artifact table and one event table. */
module EvidenceLedger {
  import opened Wrappers
  import opened EvidenceEvents
  import opened EvidenceAcceptance

  const MAX_RECORD_BYTES := 1024 * 1024
  const MAX_TABLE_BYTES := 64 * 1024 * 1024
  const MAX_EVENTS := 10_000

  /** Lost: the event was committed, and the ledger can no longer be read. */
  datatype Committed = Accepted | Refused | Lost

  function StoreOf(rules: Rules, rows: seq<Artifact>): Store {
    if rows == [] then map[]
    else StoreOf(rules, rows[..|rows| - 1])[rules.name(rows[|rows| - 1]) := rows[|rows| - 1]]
  }

  function ArtifactBytes(rows: seq<Artifact>): nat {
    if rows == [] then 0 else ArtifactBytes(rows[..|rows| - 1]) + rows[|rows| - 1].size
  }

  function EventBytes(rules: Rules, events: seq<Event>): nat {
    if events == [] then 0 else EventBytes(rules, events[..|events| - 1]) + rules.size(events[|events| - 1])
  }

  /** What the cold reader demands of the two tables. */
  predicate Opens(rules: Rules, rows: seq<Artifact>, events: seq<Event>) {
    && |events| <= MAX_EVENTS && ArtifactBytes(rows) <= MAX_TABLE_BYTES && EventBytes(rules, events) <= MAX_TABLE_BYTES
    && Replay(rules, StoreOf(rules, rows), events).Some?
  }

  predicate PutRefused(rules: Rules, rows: seq<Artifact>, artifact: Artifact) {
    var store := StoreOf(rules, rows);
    || artifact.size == 0 || artifact.size > MAX_RECORD_BYTES
    || (if rules.name(artifact) in store
        then store[rules.name(artifact)] != artifact || ArtifactBytes(rows) > MAX_TABLE_BYTES
        else ArtifactBytes(rows) + artifact.size > MAX_TABLE_BYTES)
  }

  function AfterPut(rules: Rules, rows: seq<Artifact>, artifact: Artifact): seq<Artifact> {
    if rules.name(artifact) in StoreOf(rules, rows) then rows else rows + [artifact]
  }

  /** The table after a list of artifacts; None when one of them is refused. */
  function AfterPuts(rules: Rules, rows: seq<Artifact>, artifacts: seq<Artifact>): Option<seq<Artifact>> {
    if artifacts == [] then Some(rows)
    else
      var before := AfterPuts(rules, rows, artifacts[..|artifacts| - 1]);
      if before.None? || PutRefused(rules, before.value, artifacts[|artifacts| - 1]) then None
      else Some(AfterPut(rules, before.value, artifacts[|artifacts| - 1]))
  }

  lemma PutExtends(rules: Rules, rows: seq<Artifact>, artifact: Artifact)
    requires !PutRefused(rules, rows, artifact)
    ensures Extends(StoreOf(rules, rows), StoreOf(rules, AfterPut(rules, rows, artifact)))
    ensures ArtifactBytes(AfterPut(rules, rows, artifact)) <= MAX_TABLE_BYTES
    ensures rules.name(artifact) in StoreOf(rules, AfterPut(rules, rows, artifact))
    ensures StoreOf(rules, AfterPut(rules, rows, artifact))[rules.name(artifact)] == artifact
  {
    if rules.name(artifact) !in StoreOf(rules, rows) {
      assert (rows + [artifact])[..|rows|] == rows;
    }
  }

  lemma {:induction false} PutsExtend(rules: Rules, rows: seq<Artifact>, artifacts: seq<Artifact>)
    requires AfterPuts(rules, rows, artifacts).Some?
    ensures Extends(StoreOf(rules, rows), StoreOf(rules, AfterPuts(rules, rows, artifacts).value))
    ensures ArtifactBytes(rows) <= MAX_TABLE_BYTES ==>
      ArtifactBytes(AfterPuts(rules, rows, artifacts).value) <= MAX_TABLE_BYTES
    ensures forall artifact | artifact in artifacts ::
      rules.name(artifact) in StoreOf(rules, AfterPuts(rules, rows, artifacts).value)
  {
    if artifacts != [] {
      var n := |artifacts| - 1;
      PutsExtend(rules, rows, artifacts[..n]);
      PutExtends(rules, AfterPuts(rules, rows, artifacts[..n]).value, artifacts[n]);
    }
  }

  lemma EventBytesStep(rules: Rules, events: seq<Event>, event: Event)
    ensures EventBytes(rules, events + [event]) == EventBytes(rules, events) + rules.size(event)
  {
    assert (events + [event])[..|events|] == events;
  }

  /** The event that an act would become. */
  function EventFor(state: State, act: Act): Event {
    Event(state.count + 1, state.head, act)
  }

  /** Why an append is refused before anything is committed. */
  predicate AppendRefused(rules: Rules, store: Store, state: State, act: Act) {
    || state.count >= MAX_EVENTS || rules.size(EventFor(state, act)) > MAX_RECORD_BYTES
    || Apply(rules, store, state, EventFor(state, act)).None?
  }

  /** The first `k` results, taken one by one. */
  ghost predicate TakenSoFar(rules: Rules, store: Store, results: seq<Result>, cases: map<string, Case>,
                             turns: map<string, map<string, Id>>, used: set<string>, k: nat) {
    && k <= |results|
    && (forall i | 0 <= i < k :: ResultHolds(rules, store, results[i], cases, turns))
    && (forall i, j | 0 <= i < j < k :: results[i].caseId != results[j].caseId)
    && (forall i, j | 0 <= i < j < k && results[i].caseId in turns && results[j].caseId in turns ::
          turns[results[i].caseId].Keys !! turns[results[j].caseId].Keys)
    && (forall i | 0 <= i < k && results[i].caseId in turns :: turns[results[i].caseId].Keys !! used)
  }

  function CasesOf(results: seq<Result>): set<string> {
    set result | result in results :: result.caseId
  }

  lemma TakenMore(rules: Rules, store: Store, results: seq<Result>, cases: map<string, Case>,
                  turns: map<string, map<string, Id>>, used: set<string>, k: nat)
    requires TakenSoFar(rules, store, results, cases, turns, used, k) && k < |results|
    requires ResultHolds(rules, store, results[k], cases, turns) && results[k].caseId !in CasesOf(results[..k])
    requires turns[results[k].caseId].Keys !! TurnsOf(results[..k], turns) + used
    ensures TakenSoFar(rules, store, results, cases, turns, used, k + 1)
    ensures TurnsOf(results[..k + 1], turns) == TurnsOf(results[..k], turns) + turns[results[k].caseId].Keys
  {
    hide ResultHolds;
    assert results[k].caseId in turns by { ResultIsCovered(rules, store, results[k], cases, turns); }
    forall i | 0 <= i < k
      ensures results[i].caseId != results[k].caseId
      ensures results[i].caseId in turns ==> turns[results[i].caseId].Keys !! turns[results[k].caseId].Keys
    {
      assert results[..k][i] == results[i] && results[i] in results[..k];
      if results[i].caseId in turns {
        assert turns[results[i].caseId].Keys <= TurnsOf(results[..k], turns);
      }
    }
    TurnsOfMore(results, turns, k);
  }

  lemma ResultIsCovered(rules: Rules, store: Store, result: Result, cases: map<string, Case>,
                        turns: map<string, map<string, Id>>)
    requires ResultHolds(rules, store, result, cases, turns)
    ensures result.caseId in turns
  {
  }

  lemma TurnsOfMore(results: seq<Result>, turns: map<string, map<string, Id>>, k: nat)
    requires k < |results| && results[k].caseId in turns
    ensures TurnsOf(results[..k + 1], turns) == TurnsOf(results[..k], turns) + turns[results[k].caseId].Keys
  {
    var more, less := results[..k + 1], results[..k];
    assert more == less + [results[k]];
    forall turn | turn in TurnsOf(less, turns) + turns[results[k].caseId].Keys ensures turn in TurnsOf(more, turns) {
      if turn in TurnsOf(less, turns) {
        var i :| 0 <= i < |less| && less[i].caseId in turns && turn in turns[less[i].caseId];
        assert more[i] == less[i];
      } else {
        assert more[k] == results[k];
      }
    }
  }

  /** If the whole list holds, so does the next result. */
  lemma NextMustHold(rules: Rules, store: Store, results: seq<Result>, cases: map<string, Case>,
                     turns: map<string, map<string, Id>>, used: set<string>, k: nat)
    requires ResultsHold(rules, store, results, cases, turns, used) && k < |results|
    ensures ResultHolds(rules, store, results[k], cases, turns) && results[k].caseId !in CasesOf(results[..k])
    ensures turns[results[k].caseId].Keys !! TurnsOf(results[..k], turns) + used
  {
    hide ResultHolds;
    ResultIsCovered(rules, store, results[k], cases, turns);
    forall i | 0 <= i < k ensures results[..k][i].caseId != results[k].caseId {
      assert results[..k][i] == results[i];
    }
    forall turn | turn in TurnsOf(results[..k], turns) ensures turn !in turns[results[k].caseId] {
      var i :| 0 <= i < k && results[..k][i].caseId in turns && turn in turns[results[..k][i].caseId];
      assert results[..k][i] == results[i];
    }
  }

  lemma TakenAll(rules: Rules, store: Store, results: seq<Result>, cases: map<string, Case>,
                 turns: map<string, map<string, Id>>, used: set<string>)
    requires TakenSoFar(rules, store, results, cases, turns, used, |results|) && turns.Keys == cases.Keys
    ensures ResultsHold(rules, store, results, cases, turns, used) <==> CasesOf(results) == cases.Keys
  {
    hide ResultHolds;
    assert forall i | 0 <= i < |results| :: ResultHolds(rules, store, results[i], cases, turns);
    forall i | 0 <= i < |results| ensures results[i].caseId in cases {
      ResultIsCovered(rules, store, results[i], cases, turns);
    }
    if CasesOf(results) == cases.Keys {
      forall id | id in cases ensures exists i | 0 <= i < |results| :: results[i].caseId == id {
        assert id in CasesOf(results);
      }
    }
    if ResultsHold(rules, store, results, cases, turns, used) {
      forall id | id in cases ensures id in CasesOf(results) {
        var i :| 0 <= i < |results| && results[i].caseId == id;
        assert results[i] in results;
      }
    }
  }

  lemma KeysMustAgree(rules: Rules, store: Store, results: seq<Result>, cases: map<string, Case>,
                      turns: map<string, map<string, Id>>, used: set<string>)
    ensures turns.Keys != cases.Keys ==> !ResultsHold(rules, store, results, cases, turns, used)
  {
  }

  lemma NothingTaken(rules: Rules, store: Store, results: seq<Result>, cases: map<string, Case>,
                     turns: map<string, map<string, Id>>, used: set<string>)
    ensures TakenSoFar(rules, store, results, cases, turns, used, 0)
    ensures CasesOf(results[..0]) == {} && TurnsOf(results[..0], turns) == {}
  {
  }

  lemma CasesOfMore(results: seq<Result>, k: nat)
    requires k < |results|
    ensures CasesOf(results[..k + 1]) == CasesOf(results[..k]) + {results[k].caseId}
    ensures AllPass(results[..k + 1]) <==> AllPass(results[..k]) && results[k].verdict.Pass?
  {
    assert results[..k + 1] == results[..k] + [results[k]];
  }

  lemma ProfileHasCases(rules: Rules, store: Store, act: Act)
    requires act.ProfileFrozen? && ProfileHolds(rules, store, act)
    ensures act.cases in store && store[act.cases].body.CasesDocument?
  {
  }

  lemma FinishHasDocuments(rules: Rules, store: Store, state: State, act: Act)
    requires act.CycleFinished? && FinishHolds(rules, store, state, act)
    ensures act.results in store && store[act.results].body.ResultsDocument?
    ensures act.turns in store && store[act.turns].body.TurnsDocument?
  {
  }

  lemma {:induction false} PutsPrefix(rules: Rules, rows: seq<Artifact>, artifacts: seq<Artifact>, n: nat)
    requires n <= |artifacts| && AfterPuts(rules, rows, artifacts[..n]).None?
    ensures AfterPuts(rules, rows, artifacts).None?
    decreases |artifacts|
  {
    hide PutRefused, AfterPut;
    if n < |artifacts| {
      assert artifacts[..|artifacts| - 1][..n] == artifacts[..n];
      PutsPrefix(rules, rows, artifacts[..|artifacts| - 1], n);
    } else {
      assert artifacts[..n] == artifacts;
    }
  }

  /** Why an operation is refused: an artifact, the event, or what the state says. */
  predicate OperationRefused(rules: Rules, rows: seq<Artifact>, state: State, artifacts: seq<Artifact>, act: Act) {
    var stored := AfterPuts(rules, rows, artifacts);
    stored.None? || AppendRefused(rules, StoreOf(rules, stored.value), state, act)
  }

  /** When an administrative session can open the ledger. */
  predicate CanOpen(rules: Rules, rows: seq<Artifact>, events: seq<Event>) {
    && Opens(rules, rows, events)
    && var state := Replay(rules, StoreOf(rules, rows), events).value;
       state.pending.Some? ==>
         var event := EventFor(state, CycleInterrupted(state.pending.value));
         && state.count < MAX_EVENTS && rules.size(event) <= MAX_RECORD_BYTES
         && EventBytes(rules, events) + rules.size(event) <= MAX_TABLE_BYTES
  }

  /** What an operation needs: its artifacts fit, the chronology and the record have room
      for one event, and the chronology and the documents admit the act. */
  ghost predicate Granted(rules: Rules, rows: seq<Artifact>, events: seq<Event>, artifacts: seq<Artifact>, act: Act) {
    var stored := AfterPuts(rules, rows, artifacts);
    && stored.Some? && |events| < MAX_EVENTS && rules.size(NextEvent(rules, events, act)) <= MAX_RECORD_BYTES
    && Admitted(rules, StoreOf(rules, stored.value), events, act)
  }

  lemma GrantedExactly(rules: Rules, rows: seq<Artifact>, events: seq<Event>, artifacts: seq<Artifact>, act: Act)
    requires Replay(rules, StoreOf(rules, rows), events).Some?
    ensures var state := Replay(rules, StoreOf(rules, rows), events).value;
            && EventFor(state, act) == NextEvent(rules, events, act)
            && (Granted(rules, rows, events, artifacts, act) <==> !OperationRefused(rules, rows, state, artifacts, act))
  {
    hide Replay, AfterPuts, StoreOf, Admitted, Perform;
    var state := Replay(rules, StoreOf(rules, rows), events).value;
    StateBefore(rules, StoreOf(rules, rows), events);
    var stored := AfterPuts(rules, rows, artifacts);
    if stored.Some? {
      var store := StoreOf(rules, stored.value);
      PutsExtend(rules, rows, artifacts);
      ReplayInLarger(rules, StoreOf(rules, rows), store, events);
      PerformExactly(rules, store, events, act, rules.digest(EventFor(state, act)));
    }
  }

  lemma InterruptionIsTaken(rules: Rules, store: Store, state: State)
    requires state.pending.Some? && state.scope.Some?
    ensures var event := EventFor(state, CycleInterrupted(state.pending.value));
            Apply(rules, store, state, event).Some? && Apply(rules, store, state, event).value.pending.None?
  {
  }

  class Evidence {
    const rules: Rules
    var rows: seq<Artifact>
    var events: seq<Event>
    var state: State

    constructor (rules: Rules, rows: seq<Artifact>, events: seq<Event>)
      ensures this.rules == rules && this.rows == rows && this.events == events && state == EMPTY
    {
      this.rules, this.rows, this.events, this.state := rules, rows, events, EMPTY;
    }

    /** The state is the replay of the committed events. */
    ghost predicate Valid()
      reads this
    {
      Opens(rules, rows, events) && Replay(rules, StoreOf(rules, rows), events) == Some(state)
    }

    /** One result's turns: named, unused, and stored. */
    method CheckTurns(store: Store, references: map<string, Id>, seen: set<string>)
        returns (holds: bool, observed: set<string>)
      ensures holds <==> references.Keys !! seen + state.turns
                         && forall turn | turn in references :: rules.identifier(turn) && references[turn] in store
      ensures holds ==> observed == seen + references.Keys
    {
      observed := seen;
      var todo := references.Keys;
      while todo != {}
        invariant todo <= references.Keys && observed == seen + (references.Keys - todo)
        invariant references.Keys - todo !! seen + state.turns
        invariant forall turn | turn in references.Keys - todo :: rules.identifier(turn) && references[turn] in store
        decreases todo
      {
        var turn :| turn in todo;
        if !rules.identifier(turn) || turn in observed || turn in state.turns || references[turn] !in store {
          return false, observed;
        }
        observed, todo := observed + {turn}, todo - {turn};
      }
      return true, observed;
    }

    /** The closing of a cycle: one result for every frozen case, turns used nowhere
        else, and evidence behind every pass. */
    method ResultsPass(store: Store, act: Act) returns (holds: bool, passed: bool, observed: set<string>)
      requires act.CycleFinished?
      ensures holds <==> FinishHolds(rules, store, state, act)
      ensures holds ==> passed == AllPass(store[act.results].body.results)
      ensures holds ==> observed == TurnsOf(store[act.results].body.results, store[act.turns].body.turns)
    {
      hide ResultHolds, ResultsHold, TurnsOf, CasesOf, TakenSoFar;
      passed, observed := true, {};
      if act.results !in store || !store[act.results].body.ResultsDocument?
         || act.turns !in store || !store[act.turns].body.TurnsDocument? {
        return false, passed, observed;
      }
      var results, turns := store[act.results].body.results, store[act.turns].body.turns;
      ghost var whole := ResultsHold(rules, store, results, state.cases, turns, state.turns);
      if turns.Keys != state.cases.Keys {
        KeysMustAgree(rules, store, results, state.cases, turns, state.turns);
        return false, passed, observed;
      }
      var byCase: set<string> := {};
      NothingTaken(rules, store, results, state.cases, turns, state.turns);
      for k := 0 to |results|
        invariant TakenSoFar(rules, store, results, state.cases, turns, state.turns, k)
        invariant byCase == CasesOf(results[..k]) && observed == TurnsOf(results[..k], turns)
        invariant passed == AllPass(results[..k])
      {
        var result := results[k];
        if whole {
          NextMustHold(rules, store, results, state.cases, turns, state.turns, k);
        }
        ghost var before := observed;
        var taken;
        taken, observed := TakeResult(store, result, turns, byCase, observed);
        if !taken {
          return false, passed, observed;
        }
        TakenMore(rules, store, results, state.cases, turns, state.turns, k);
        CasesOfMore(results, k);
        byCase, passed := byCase + {result.caseId}, passed && result.verdict.Pass?;
      }
      assert results[..|results|] == results;
      TakenAll(rules, store, results, state.cases, turns, state.turns);
      holds := byCase == state.cases.Keys;
    }

    /** One result of a cycle, with the cases and turns seen before it. */
    method TakeResult(store: Store, result: Result, turns: map<string, map<string, Id>>, byCase: set<string>,
                      seen: set<string>)
        returns (taken: bool, observed: set<string>)
      requires turns.Keys == state.cases.Keys
      ensures taken <==> && ResultHolds(rules, store, result, state.cases, turns) && result.caseId !in byCase
                         && turns[result.caseId].Keys !! seen + state.turns
      ensures taken ==> observed == seen + turns[result.caseId].Keys
    {
      hide PassHolds;
      if !rules.identifier(result.caseId) || result.caseId !in state.cases || result.caseId in byCase {
        return false, seen;
      }
      taken, observed := CheckTurns(store, turns[result.caseId], seen);
      if taken && result.verdict.Pass? && !PassHolds(rules, result, state.cases[result.caseId], turns[result.caseId]) {
        taken := false;
      }
    }

    /** Take one event into the state. A refused event may leave the state half
        changed; the caller reads the ledger again. */
    method Advance(store: Store, event: Event) returns (taken: bool)
      modifies this`state
      ensures taken <==> Apply(rules, store, old(state), event).Some?
      ensures taken ==> Some(state) == Apply(rules, store, old(state), event)
    {
      if event.sequence != state.count + 1 || event.previous != state.head {
        return false;
      }
      taken := AdvanceAct(store, event.act, rules.digest(event));
      if taken {
        state := state.(count := event.sequence, head := Some(rules.digest(event)));
      }
    }

    method AdvanceAct(store: Store, act: Act, digest: Id) returns (taken: bool)
      modifies this`state
      ensures taken <==> Perform(rules, store, old(state), act, digest).Some?
      ensures taken ==> Some(state) == Perform(rules, store, old(state), act, digest)
    {
      hide CensusHolds, ProfileHolds, ImportHolds, CertificateHolds, FinishHolds, Selected, TurnsOf, AllPass;
      if (state.scope.None? && !act.Census?) || (state.pending.Some? && !act.CycleFinished? && !act.CycleInterrupted?) {
        return false;
      }
      match act {
        case Census(scope, _, _, findings) =>
          if !CensusHolds(rules, store, act) {
            return false;
          }
          if state.scope != Some(scope) {
            state := state.(profile := None, bindings := None, cases := map[], successes := [], imported := None);
          }
          state := state.(scope := Some(scope),
                          findings := state.findings + map finding | finding in findings :: Some(digest));
          if findings != map[] {
            state := state.(successes := [], imported := None);
          }
        case DefectOpened(finding, evidence) =>
          if !rules.identifier(finding) || StatusOf(state, finding).Some? || evidence !in store {
            return false;
          }
          state := state.(findings := state.findings[finding := Some(digest)]);
          state := state.(successes := [], imported := None);
        case DefectClosed(finding, opening, repair, verification, review) =>
          if !rules.identifier(finding) || StatusOf(state, finding) != Some(opening)
             || !AllIn([repair, verification, review], store) {
            return false;
          }
          state := state.(findings := state.findings[finding := None]);
        case ProfileFrozen(bindings, _, cases) =>
          if !ProfileHolds(rules, store, act) {
            return false;
          }
          assert store[cases].body.CasesDocument? by { ProfileHasCases(rules, store, act); }
          state := state.(profile := Some(digest), cases := Selected(store[cases].body.cases), successes := []);
          state := state.(imported := None, bindings := Some(bindings));
        case OperationalImport(_, _, _) =>
          if !ImportHolds(store, act) {
            return false;
          }
          state := state.(imported := Some(digest));
        case CertificatePrepared(_, _, _) =>
          if !CertificateHolds(store, state, act) {
            return false;
          }
        case CycleStarted(profile) =>
          if state.profile.None? || profile != state.profile {
            return false;
          }
          state := state.(pending := Some(digest), imported := None);
        case CycleFinished(start, _, _) =>
          if state.pending != Some(start) {
            return false;
          }
          var holds, passed, observed := ResultsPass(store, act);
          if !holds {
            return false;
          }
          FinishHasDocuments(rules, store, state, act);
          state := state.(turns := state.turns + observed);
          state := state.(successes := if passed then LastOne(state.successes) + [state.pending.value] else [],
                          pending := None);
        case CycleInterrupted(start) =>
          if state.pending != Some(start) {
            return false;
          }
          state := state.(successes := [], pending := None);
      }
      return true;
    }

    /** Read the two tables cold: budgets first, then every event in order. */
    method Rebuild() returns (readable: bool)
      modifies this`state
      ensures readable <==> Opens(rules, rows, events)
      ensures readable ==> Valid()
    {
      hide Apply;
      if ArtifactBytes(rows) > MAX_TABLE_BYTES || EventBytes(rules, events) > MAX_TABLE_BYTES || |events| > MAX_EVENTS {
        return false;
      }
      var store := StoreOf(rules, rows);
      state := EMPTY;
      for i := 0 to |events|
        invariant Replay(rules, store, events[..i]) == Some(state)
      {
        assert events[..i + 1] == events[..i] + [events[i]];
        ReplayStep(rules, store, events[..i], events[i]);
        var taken := Advance(store, events[i]);
        if !taken {
          if Replay(rules, store, events).Some? {
            ReplayPrefix(rules, store, events, i + 1);
          }
          return false;
        }
      }
      assert events[..|events|] == events;
      return true;
    }

    method Put(artifact: Artifact) returns (stored: bool)
      modifies this`rows
      ensures stored <==> !PutRefused(rules, old(rows), artifact)
      ensures stored ==> rows == AfterPut(rules, old(rows), artifact)
    {
      if artifact.size == 0 || artifact.size > MAX_RECORD_BYTES {
        return false;
      }
      var store := StoreOf(rules, rows);
      if rules.name(artifact) !in store {
        assert (rows + [artifact])[..|rows|] == rows;
        rows := rows + [artifact];
      } else if store[rules.name(artifact)] != artifact {
        return false;
      }
      return ArtifactBytes(rows) <= MAX_TABLE_BYTES;
    }

    method PutAll(artifacts: seq<Artifact>) returns (stored: bool)
      modifies this`rows
      ensures stored <==> AfterPuts(rules, old(rows), artifacts).Some?
      ensures stored ==> Some(rows) == AfterPuts(rules, old(rows), artifacts)
    {
      hide PutRefused, AfterPut;
      for i := 0 to |artifacts|
        invariant AfterPuts(rules, old(rows), artifacts[..i]) == Some(rows)
      {
        assert artifacts[..i + 1][..i] == artifacts[..i] && artifacts[..i + 1][i] == artifacts[i];
        stored := Put(artifacts[i]);
        if !stored {
          PutsPrefix(rules, old(rows), artifacts, i + 1);
          return;
        }
      }
      assert artifacts[..|artifacts|] == artifacts;
      return true;
    }

    /** One administrative operation: store its artifacts, append its act, commit,
        and read the ledger again.

        A refusal leaves both tables and the state as they were. An accepted act is
        in the state exactly as the chronology implies. The reading after a commit
        refuses only one thing: event rows that together exceed the table budget,
        which nothing checked before committing. */
    method Operate(artifacts: seq<Artifact>, act: Act) returns (r: Committed)
      requires Valid()
      modifies this
      ensures r.Refused? <==> !Granted(rules, old(rows), old(events), artifacts, act)
      ensures r.Refused? <==> OperationRefused(rules, old(rows), old(state), artifacts, act)
      ensures r.Refused? ==> Valid() && rows == old(rows) && events == old(events) && state == old(state)
      ensures !r.Refused? ==> EventFor(old(state), act) == NextEvent(rules, old(events), act)
      ensures !r.Refused? ==>
        events == old(events) + [EventFor(old(state), act)] && Some(rows) == AfterPuts(rules, old(rows), artifacts)
      ensures r.Accepted? ==>
        Valid() && Some(state) == Apply(rules, StoreOf(rules, rows), old(state), EventFor(old(state), act))
      ensures r.Lost? ==> !Opens(rules, rows, events)
      ensures r.Lost? <==>
        !r.Refused? && EventBytes(rules, old(events)) + rules.size(EventFor(old(state), act)) > MAX_TABLE_BYTES
    {
      hide Apply, Replay, AfterPuts, EventBytes, ArtifactBytes, StoreOf, Granted, NextEvent;
      var savedRows, savedEvents := rows, events;
      GrantedExactly(rules, rows, events, artifacts, act);
      ReplayCounts(rules, StoreOf(rules, rows), events);
      var stored := PutAll(artifacts);
      if !stored {
        rows, events := savedRows, savedEvents;
        var readable := Rebuild();
        return Refused;
      }
      PutsExtend(rules, savedRows, artifacts);
      var store := StoreOf(rules, rows);
      ReplayInLarger(rules, StoreOf(rules, savedRows), store, events);
      var event := EventFor(state, act);
      var taken := false;
      if state.count < MAX_EVENTS && rules.size(event) <= MAX_RECORD_BYTES {
        taken := Advance(store, event);
      }
      if !taken {
        rows, events := savedRows, savedEvents;
        var readable := Rebuild();
        return Refused;
      }
      ReplayStep(rules, store, savedEvents, event);
      EventBytesStep(rules, savedEvents, event);
      events := events + [event];
      var readable := Rebuild();
      return if readable then Accepted else Lost;
    }

    /** Open the ledger for an administrative session. A cycle left pending is
        closed as interrupted, so a full ledger whose last event starts a cycle can
        never be opened again. */
    method Open() returns (readable: bool)
      modifies this
      ensures readable <==> CanOpen(rules, old(rows), old(events))
      ensures readable ==> Valid() && state.pending.None? && rows == old(rows)
      ensures readable ==> old(events) <= events && |events| <= |old(events)| + 1
    {
      hide Apply, EventBytes, ArtifactBytes, StoreOf, Perform;
      readable := Rebuild();
      if !readable {
        return;
      }
      if state.pending.None? {
        return true;
      }
      var act := CycleInterrupted(state.pending.value);
      var event := EventFor(state, act);
      ReplayCounts(rules, StoreOf(rules, rows), events);
      ScopeIsSet(rules, StoreOf(rules, rows), events);
      InterruptionIsTaken(rules, StoreOf(rules, rows), state);
      if state.count >= MAX_EVENTS || rules.size(event) > MAX_RECORD_BYTES {
        return false;
      }
      ReplayStep(rules, StoreOf(rules, rows), events, event);
      EventBytesStep(rules, events, event);
      var taken := Advance(StoreOf(rules, rows), event);
      events := events + [event];
      readable := Rebuild();
    }
  }
}
