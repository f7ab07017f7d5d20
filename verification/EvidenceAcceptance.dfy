/** Which acts the ledger takes, read off the chronology and the stored documents. */
module EvidenceAcceptance {
  import opened Wrappers
  import opened EvidenceEvents
  import opened EvidenceMeaning

  /** The last event started a cycle, which nothing has closed. */
  predicate CycleOpen(events: seq<Event>) {
    events != [] && events[|events| - 1].act.CycleStarted?
  }

  function HeadOf(rules: Rules, events: seq<Event>): Option<Id> {
    if events == [] then None else Some(rules.digest(events[|events| - 1]))
  }

  /** A document that is a JSON object. */
  predicate JsonObject(body: Document) {
    !(body.Opaque? || body.CasesDocument? || body.ResultsDocument?)
  }

  ghost predicate CensusAdmitted(rules: Rules, store: Store, act: Act)
    requires act.Census?
  {
    && act.sources != [] && (forall i, j | 0 <= i < j < |act.sources| :: act.sources[i] != act.sources[j])
    && (forall source | source in act.sources :: source in store) && act.review in store
    && (forall finding | finding in act.findings :: rules.identifier(finding) && act.findings[finding] in store)
  }

  /** A case with a name and at least one probe, no two of one name. */
  ghost predicate CaseAdmitted(rules: Rules, c: Case) {
    && rules.identifier(c.id) && c.probes != []
    && (forall i, j | 0 <= i < j < |c.probes| :: c.probes[i] != c.probes[j])
    && (forall probe | probe in c.probes :: rules.identifier(probe))
  }

  ghost predicate ProfileAdmitted(rules: Rules, store: Store, act: Act)
    requires act.ProfileFrozen?
  {
    && act.manifest in store && act.cases in store && store[act.cases].body.CasesDocument?
    && var cases := store[act.cases].body.cases;
       && store[act.manifest].body == ManifestDocument(cases) && cases != []
       && (forall i, j | 0 <= i < j < |cases| :: cases[i].id != cases[j].id)
       && (forall c | c in cases :: CaseAdmitted(rules, c))
  }

  ghost predicate ImportAdmitted(store: Store, act: Act)
    requires act.OperationalImport?
  {
    && act.exported in store && store[act.exported].body.ExportDocument?
    && act.destination in store && JsonObject(store[act.destination].body)
    && (act.predecessor.Some? ==> act.predecessor.value in store)
    && var inventory := store[act.exported].body.inventory;
       inventory.Keys != {} && forall id | id in inventory :: id in store && store[id].size == inventory[id]
  }

  function QualifiedAs(body: Document): Option<string> {
    match body
    case RecordDocument(qualification, _, _) => qualification
    case _ => None
  }

  function BoundTo(body: Document): Option<Id> {
    match body
    case RecordDocument(_, head, _) => head
    case _ => None
  }

  /** A certificate over a qualification of the ledger as it stands. */
  ghost predicate CertificateAdmitted(rules: Rules, store: Store, events: seq<Event>, act: Act)
    requires act.CertificatePrepared?
  {
    && act.certificate in store && JsonObject(store[act.certificate].body)
    && act.qualification in store && JsonObject(store[act.qualification].body)
    && QualifiedAs(store[act.certificate].body) == QualifiedAs(store[act.qualification].body)
    && BoundTo(store[act.qualification].body) == HeadOf(rules, events)
    && (forall digest :: act.operationalImport == Some(digest) <==> StandingImport(rules, events, digest))
  }

  /** A pass carries its evidence: a turn at least, and every declared probe passed once. */
  ghost predicate PassAdmitted(rules: Rules, result: Result, declared: Case, turns: map<string, Id>) {
    && turns.Keys != {} && result.reasons == [] && result.probes != []
    && (forall probe | probe in result.probes ::
          probe.passed && rules.identifier(probe.name) && probe.name in declared.probes)
    && (forall i, j | 0 <= i < j < |result.probes| :: result.probes[i].name != result.probes[j].name)
    && (forall name | name in declared.probes :: Probed(result, name))
  }

  ghost predicate Probed(result: Result, name: string) {
    exists probe :: probe in result.probes && probe.name == name
  }

  ghost predicate ResultAdmitted(rules: Rules, store: Store, result: Result, declared: Case,
                                 turns: map<string, map<string, Id>>) {
    && result.caseId == declared.id && declared.id in turns
    && (forall turn | turn in turns[declared.id] :: rules.identifier(turn) && turns[declared.id][turn] in store)
    && (result.verdict.Pass? ==> PassAdmitted(rules, result, declared, turns[declared.id]))
  }

  ghost predicate Declared(rules: Rules, store: Store, result: Result, frozen: seq<Case>,
                           turns: map<string, map<string, Id>>) {
    exists c :: c in frozen && ResultAdmitted(rules, store, result, c, turns)
  }

  ghost predicate HasResult(results: seq<Result>, id: string) {
    exists i :: 0 <= i < |results| && results[i].caseId == id
  }

  /** Exactly one result for each frozen case, on turns that no other case shares. */
  ghost predicate CycleComplete(rules: Rules, store: Store, results: seq<Result>, turns: map<string, map<string, Id>>,
                                frozen: seq<Case>) {
    && (forall id :: id in turns <==> exists i :: 0 <= i < |frozen| && frozen[i].id == id)
    && (forall i, j | 0 <= i < j < |results| :: results[i].caseId != results[j].caseId)
    && (forall c | c in frozen :: HasResult(results, c.id))
    && (forall result | result in results :: Declared(rules, store, result, frozen, turns))
    && (forall a, b | a in turns && b in turns && a != b :: turns[a].Keys !! turns[b].Keys)
  }

  /** A turn that an earlier event consumed. */
  ghost predicate UsedBefore(store: Store, events: seq<Event>, turn: string) {
    exists j :: 0 <= j < |events| && turn in Consumed(store, events[j].act)
  }

  /** The results of the cycle are complete for the profile that was frozen at `p`. */
  ghost predicate ResultsAdmitted(rules: Rules, store: Store, events: seq<Event>, act: Act, p: nat)
    requires act.CycleFinished?
  {
    && InForce(events, p)
    && act.results in store && store[act.results].body.ResultsDocument?
    && act.turns in store && store[act.turns].body.TurnsDocument?
    && var turns := store[act.turns].body.turns;
       && CycleComplete(rules, store, store[act.results].body.results, turns, FrozenIn(store, events[p].act))
       && (forall id, turn | id in turns && turn in turns[id] :: !UsedBefore(store, events, turn))
  }

  /** What the ledger asks of the next act. */
  ghost predicate Admitted(rules: Rules, store: Store, events: seq<Event>, act: Act) {
    match act
    case CycleFinished(start, _, _) =>
      CycleOpen(events) && HeadOf(rules, events) == Some(start)
      && exists p: nat :: ResultsAdmitted(rules, store, events, act, p)
    case CycleInterrupted(start) => CycleOpen(events) && HeadOf(rules, events) == Some(start)
    case Census(_, _, _, _) => !CycleOpen(events) && CensusAdmitted(rules, store, act)
    case DefectOpened(finding, evidence) =>
      && events != [] && !CycleOpen(events) && rules.identifier(finding) && evidence in store
      && forall digest :: !LatestReport(rules, events, finding, digest)
    case DefectClosed(finding, opening, repair, verification, review) =>
      && events != [] && !CycleOpen(events) && rules.identifier(finding)
      && LatestReport(rules, events, finding, opening)
      && repair in store && verification in store && review in store
    case ProfileFrozen(_, _, _) => events != [] && !CycleOpen(events) && ProfileAdmitted(rules, store, act)
    case CycleStarted(profile) =>
      !CycleOpen(events) && exists p: nat :: InForce(events, p) && profile == Some(rules.digest(events[p]))
    case OperationalImport(_, _, _) => events != [] && !CycleOpen(events) && ImportAdmitted(store, act)
    case CertificatePrepared(_, _, _) =>
      events != [] && !CycleOpen(events) && CertificateAdmitted(rules, store, events, act)
  }

  /** The event that the act would become. */
  function NextEvent(rules: Rules, events: seq<Event>, act: Act): Event {
    Event(|events| + 1, HeadOf(rules, events), act)
  }

  /** What the state says before an act: no cycle, and some census. */
  lemma StateBefore(rules: Rules, store: Store, events: seq<Event>)
    requires Replay(rules, store, events).Some?
    ensures var state := Replay(rules, store, events).value;
            && (state.scope.Some? <==> events != []) && (state.pending.Some? <==> CycleOpen(events))
            && (CycleOpen(events) ==> state.pending == HeadOf(rules, events))
            && state.head == HeadOf(rules, events) && state.count == |events|
  {
    hide Replay;
    ScopeIsSet(rules, store, events);
    PendingIsLast(rules, store, events);
    ReplayCounts(rules, store, events);
  }

  lemma CensusExactly(rules: Rules, store: Store, act: Act)
    requires act.Census?
    ensures CensusHolds(rules, store, act) <==> CensusAdmitted(rules, store, act)
  {
  }

  lemma ProfileExactly(rules: Rules, store: Store, act: Act)
    requires act.ProfileFrozen?
    ensures ProfileHolds(rules, store, act) <==> ProfileAdmitted(rules, store, act)
  {
  }

  lemma ImportExactly(store: Store, act: Act)
    requires act.OperationalImport?
    ensures ImportHolds(store, act) <==> ImportAdmitted(store, act)
  {
  }

  lemma CertificateExactly(rules: Rules, store: Store, events: seq<Event>, act: Act)
    requires Replay(rules, store, events).Some? && act.CertificatePrepared?
    ensures CertificateHolds(store, Replay(rules, store, events).value, act) <==>
            CertificateAdmitted(rules, store, events, act)
  {
    hide Replay, StandingImport;
    StateBefore(rules, store, events);
    forall digest
      ensures Replay(rules, store, events).value.imported == Some(digest) <==> StandingImport(rules, events, digest)
    {
      ImportMeans(rules, store, events, digest);
    }
  }

  lemma PassExactly(rules: Rules, result: Result, declared: Case, turns: map<string, Id>)
    ensures PassHolds(rules, result, declared, turns) <==> PassAdmitted(rules, result, declared, turns)
  {
    var names := ProbeNames(result.probes);
    forall name ensures name in names <==> Probed(result, name) {
      if name in names {
        var i :| 0 <= i < |names| && names[i] == name;
        assert result.probes[i] in result.probes;
      }
      if probe :| probe in result.probes && probe.name == name {
        var i :| 0 <= i < |result.probes| && result.probes[i] == probe;
        assert names[i] == name;
      }
    }
    var said, asked := set name | name in names, set name | name in declared.probes;
    assert said == asked <==> (forall name :: name in names <==> name in declared.probes) by {
      assert forall name :: (name in said <==> name in names) && (name in asked <==> name in declared.probes);
    }
    forall probe | probe in result.probes ensures probe.name in names {
      assert Probed(result, probe.name);
    }
  }

  lemma {:induction false} SelectedNames(cases: seq<Case>, id: string)
    ensures id in Selected(cases) <==> exists i :: 0 <= i < |cases| && cases[i].id == id
    ensures id in Selected(cases) ==> Selected(cases)[id] in cases && Selected(cases)[id].id == id
  {
    if cases != [] {
      var n := |cases| - 1;
      SelectedNames(cases[..n], id);
      if i :| 0 <= i < |cases| && cases[i].id == id {
        if i < n {
          assert cases[..n][i].id == id;
        }
      }
    }
  }

  /** The frozen cases under their names. */
  lemma SelectedIsFrozen(rules: Rules, frozen: seq<Case>, c: Case)
    requires CasesHold(rules, frozen) && c in frozen
    ensures c.id in Selected(frozen) && Selected(frozen)[c.id] == c && rules.identifier(c.id)
  {
    hide Selected;
    var i :| 0 <= i < |frozen| && frozen[i] == c;
    SelectedAll(frozen, i);
  }

  lemma ResultExactly(rules: Rules, store: Store, result: Result, frozen: seq<Case>,
                      turns: map<string, map<string, Id>>)
    requires CasesHold(rules, frozen)
    ensures ResultHolds(rules, store, result, Selected(frozen), turns) <==>
            Declared(rules, store, result, frozen, turns)
  {
    hide Selected, CasesHold, PassHolds, PassAdmitted;
    SelectedNames(frozen, result.caseId);
    if result.caseId in Selected(frozen) && result.caseId in turns {
      var c := Selected(frozen)[result.caseId];
      SelectedIsFrozen(rules, frozen, c);
      PassExactly(rules, result, c, turns[result.caseId]);
      assert ResultHolds(rules, store, result, Selected(frozen), turns) <==>
             ResultAdmitted(rules, store, result, c, turns);
    }
    if c :| c in frozen && ResultAdmitted(rules, store, result, c, turns) {
      SelectedIsFrozen(rules, frozen, c);
    }
  }

  ghost predicate NamesAre(frozen: seq<Case>, turns: map<string, map<string, Id>>) {
    forall id :: id in turns <==> exists i :: 0 <= i < |frozen| && frozen[i].id == id
  }

  ghost predicate OneEach(results: seq<Result>) {
    forall i, j | 0 <= i < j < |results| :: results[i].caseId != results[j].caseId
  }

  ghost predicate AllCovered(results: seq<Result>, frozen: seq<Case>) {
    forall c | c in frozen :: HasResult(results, c.id)
  }

  ghost predicate AllDeclared(rules: Rules, store: Store, results: seq<Result>, frozen: seq<Case>,
                              turns: map<string, map<string, Id>>) {
    forall result | result in results :: Declared(rules, store, result, frozen, turns)
  }

  ghost predicate CasesApart(turns: map<string, map<string, Id>>) {
    forall a, b | a in turns && b in turns && a != b :: turns[a].Keys !! turns[b].Keys
  }

  ghost predicate ResultsApart(results: seq<Result>, turns: map<string, map<string, Id>>) {
    forall i, j | 0 <= i < j < |results| && results[i].caseId in turns && results[j].caseId in turns ::
      turns[results[i].caseId].Keys !! turns[results[j].caseId].Keys
  }

  ghost predicate CasesUnused(turns: map<string, map<string, Id>>, used: set<string>) {
    forall id, turn | id in turns && turn in turns[id] :: turn !in used
  }

  ghost predicate ResultsUnused(results: seq<Result>, turns: map<string, map<string, Id>>, used: set<string>) {
    forall i | 0 <= i < |results| && results[i].caseId in turns :: turns[results[i].caseId].Keys !! used
  }

  ghost predicate NamesHave(results: seq<Result>, turns: map<string, map<string, Id>>) {
    forall id :: id in turns <==> HasResult(results, id)
  }

  /** Turns are apart over all cases when they are over all results. */
  lemma ApartExactly(results: seq<Result>, turns: map<string, map<string, Id>>)
    requires NamesHave(results, turns) && OneEach(results)
    ensures ResultsApart(results, turns) <==> CasesApart(turns)
  {
    if ResultsApart(results, turns) {
      forall a, b | a in turns && b in turns && a != b ensures turns[a].Keys !! turns[b].Keys {
        assert HasResult(results, a) && HasResult(results, b);
        var i :| 0 <= i < |results| && results[i].caseId == a;
        var j :| 0 <= j < |results| && results[j].caseId == b;
      }
    }
  }

  /** No turn of the results was used, when no turn of the cases was. */
  lemma UnusedExactly(results: seq<Result>, turns: map<string, map<string, Id>>, used: set<string>)
    requires NamesHave(results, turns)
    ensures ResultsUnused(results, turns, used) <==> CasesUnused(turns, used)
  {
    if ResultsUnused(results, turns, used) {
      forall id, turn | id in turns && turn in turns[id] ensures turn !in used {
        assert HasResult(results, id);
        var i :| 0 <= i < |results| && results[i].caseId == id;
      }
    }
  }

  lemma CoverExactly(results: seq<Result>, frozen: seq<Case>)
    ensures (forall id | id in Selected(frozen) :: exists i | 0 <= i < |results| :: results[i].caseId == id)
            <==> AllCovered(results, frozen)
  {
    hide Selected;
    forall id ensures id in Selected(frozen) <==> exists i :: 0 <= i < |frozen| && frozen[i].id == id {
      SelectedNames(frozen, id);
    }
    if AllCovered(results, frozen) {
      forall id | id in Selected(frozen) ensures exists i | 0 <= i < |results| :: results[i].caseId == id {
        var i :| 0 <= i < |frozen| && frozen[i].id == id;
        assert frozen[i] in frozen && HasResult(results, id);
      }
    }
    if forall id | id in Selected(frozen) :: exists i | 0 <= i < |results| :: results[i].caseId == id {
      forall c | c in frozen ensures HasResult(results, c.id) {
        var k :| 0 <= k < |frozen| && frozen[k] == c;
        assert c.id in Selected(frozen);
      }
    }
  }

  lemma KeysExactly(frozen: seq<Case>, turns: map<string, map<string, Id>>)
    ensures turns.Keys == Selected(frozen).Keys <==> NamesAre(frozen, turns)
  {
    hide Selected;
    forall id ensures id in Selected(frozen) <==> exists i :: 0 <= i < |frozen| && frozen[i].id == id {
      SelectedNames(frozen, id);
    }
    assert turns.Keys == Selected(frozen).Keys <==> forall id :: id in turns <==> id in Selected(frozen);
  }

  /** What the results must show, part by part. */
  lemma ResultsUnfold(rules: Rules, store: Store, results: seq<Result>, frozen: seq<Case>,
                      turns: map<string, map<string, Id>>, used: set<string>)
    requires CasesHold(rules, frozen)
    ensures ResultsHold(rules, store, results, Selected(frozen), turns, used) <==>
            && NamesAre(frozen, turns) && AllDeclared(rules, store, results, frozen, turns) && OneEach(results)
            && ResultsApart(results, turns) && ResultsUnused(results, turns, used) && AllCovered(results, frozen)
  {
    hide Selected, CasesHold, ResultHolds, Declared, NamesAre, AllCovered;
    KeysExactly(frozen, turns);
    CoverExactly(results, frozen);
    forall result ensures ResultHolds(rules, store, result, Selected(frozen), turns) <==>
                          Declared(rules, store, result, frozen, turns) {
      ResultExactly(rules, store, result, frozen, turns);
    }
    assert (forall i | 0 <= i < |results| :: ResultHolds(rules, store, results[i], Selected(frozen), turns)) <==>
           AllDeclared(rules, store, results, frozen, turns);
  }

  lemma CompleteUnfolds(rules: Rules, store: Store, results: seq<Result>, turns: map<string, map<string, Id>>,
                        frozen: seq<Case>)
    ensures CycleComplete(rules, store, results, turns, frozen) <==>
            && NamesAre(frozen, turns) && OneEach(results) && AllCovered(results, frozen)
            && AllDeclared(rules, store, results, frozen, turns) && CasesApart(turns)
  {
    hide Declared, HasResult;
  }

  /** The results hold exactly when the cycle is complete on unused turns. */
  lemma CycleExactly(rules: Rules, store: Store, results: seq<Result>, frozen: seq<Case>,
                     turns: map<string, map<string, Id>>, used: set<string>)
    requires CasesHold(rules, frozen)
    ensures ResultsHold(rules, store, results, Selected(frozen), turns, used) <==>
            CycleComplete(rules, store, results, turns, frozen) && CasesUnused(turns, used)
  {
    hide *;
    ResultsUnfold(rules, store, results, frozen, turns, used);
    CompleteUnfolds(rules, store, results, turns, frozen);
    if NamesAre(frozen, turns) && AllCovered(results, frozen) && AllDeclared(rules, store, results, frozen, turns)
       && OneEach(results) {
      ResultsNameCases(rules, store, results, turns, frozen);
      ApartExactly(results, turns);
      UnusedExactly(results, turns, used);
    }
  }

  lemma ResultsNameCases(rules: Rules, store: Store, results: seq<Result>, turns: map<string, map<string, Id>>,
                         frozen: seq<Case>)
    requires NamesAre(frozen, turns) && AllCovered(results, frozen)
    requires AllDeclared(rules, store, results, frozen, turns)
    ensures NamesHave(results, turns)
  {
    hide PassAdmitted;
    forall id ensures id in turns <==> HasResult(results, id) {
      if id in turns {
        var i :| 0 <= i < |frozen| && frozen[i].id == id;
        assert frozen[i] in frozen;
      }
      if i :| 0 <= i < |results| && results[i].caseId == id {
        assert results[i] in results && Declared(rules, store, results[i], frozen, turns);
      }
    }
  }

  /** The turns that the ledger keeps are those that some event consumed. */
  lemma {:induction false} TurnsAreUsed(rules: Rules, store: Store, events: seq<Event>, turn: string)
    requires Replay(rules, store, events).Some?
    ensures turn in Replay(rules, store, events).value.turns <==> UsedBefore(store, events, turn)
  {
    hide Perform, Consumed;
    if events != [] {
      var n := |events| - 1;
      PerformTurns(rules, store, Replay(rules, store, events[..n]).value, events[n].act, rules.digest(events[n]));
      TurnsAreUsed(rules, store, events[..n], turn);
      if j :| 0 <= j < |events| && turn in Consumed(store, events[j].act) {
        if j < n {
          assert turn in Consumed(store, events[..n][j].act);
        }
      }
      if j :| 0 <= j < n && turn in Consumed(store, events[..n][j].act) {
        assert turn in Consumed(store, events[j].act);
      }
    }
  }

  /** A finished cycle is taken exactly when it is complete for the profile in force, on
      turns that nothing used before. */
  lemma FinishExactly(rules: Rules, store: Store, events: seq<Event>, act: Act, p: nat)
    requires Replay(rules, store, events).Some? && act.CycleFinished? && InForce(events, p)
    ensures FinishHolds(rules, store, Replay(rules, store, events).value, act) <==>
            ResultsAdmitted(rules, store, events, act, p)
  {
    hide Replay, InForce, Selected, ResultsHold, CycleComplete, UsedBefore, CasesHold;
    InForceIsProfile(events, p);
    ProfileMeans(rules, store, events, p);
    FrozenHolds(rules, store, events, p);
    var state := Replay(rules, store, events).value;
    forall turn ensures turn in state.turns <==> UsedBefore(store, events, turn) {
      TurnsAreUsed(rules, store, events, turn);
    }
    if act.results in store && store[act.results].body.ResultsDocument?
       && act.turns in store && store[act.turns].body.TurnsDocument? {
      CycleExactly(rules, store, store[act.results].body.results, FrozenIn(store, events[p].act),
                   store[act.turns].body.turns, state.turns);
    }
  }

  /** A finding is open if and only if the chronology has some latest report of it. */
  lemma StatusExactly(rules: Rules, store: Store, events: seq<Event>, finding: string)
    requires Replay(rules, store, events).Some?
    ensures StatusOf(Replay(rules, store, events).value, finding).None? <==>
            forall digest :: !LatestReport(rules, events, finding, digest)
  {
    hide Replay, LatestReport, StatusOf;
    var status := StatusOf(Replay(rules, store, events).value, finding);
    forall digest ensures status == Some(digest) <==> LatestReport(rules, events, finding, digest) {
      OpenFindingsMean(rules, store, events, finding, digest);
    }
    if status.Some? {
      assert LatestReport(rules, events, finding, status.value);
    }
  }

  lemma StartExactly(rules: Rules, store: Store, events: seq<Event>, profile: Option<Id>)
    requires Replay(rules, store, events).Some?
    ensures var state := Replay(rules, store, events).value;
            state.profile.Some? && profile == state.profile <==>
            exists p: nat :: InForce(events, p) && profile == Some(rules.digest(events[p]))
  {
    hide Replay, InForce;
    var state := Replay(rules, store, events).value;
    if state.profile.Some? {
      var p := SomeInForce(rules, store, events);
      InForceIsProfile(events, p);
    }
    InForceIsInside(events);
    if p: nat :| InForce(events, p) && profile == Some(rules.digest(events[p])) {
      ProfileMeans(rules, store, events, p);
    }
  }

  lemma FinishedExactly(rules: Rules, store: Store, events: seq<Event>, act: Act)
    requires Replay(rules, store, events).Some? && act.CycleFinished? && CycleOpen(events)
    ensures FinishHolds(rules, store, Replay(rules, store, events).value, act) <==>
            exists p: nat :: ResultsAdmitted(rules, store, events, act, p)
  {
    hide Replay, InForce, FinishHolds, ResultsAdmitted;
    StateBefore(rules, store, events);
    PendingProfile(rules, store, events);
    var p := SomeInForce(rules, store, events);
    FinishExactly(rules, store, events, act, p);
    forall q: nat | ResultsAdmitted(rules, store, events, act, q)
      ensures FinishHolds(rules, store, Replay(rules, store, events).value, act)
    {
      AdmittedInForce(rules, store, events, act, q);
      FinishExactly(rules, store, events, act, q);
    }
  }

  lemma AdmittedInForce(rules: Rules, store: Store, events: seq<Event>, act: Act, p: nat)
    requires act.CycleFinished? && ResultsAdmitted(rules, store, events, act, p)
    ensures InForce(events, p)
  {
  }

  /** What each kind of act asks of the state, which the chronology decides. */
  lemma PerformExactly(rules: Rules, store: Store, events: seq<Event>, act: Act, digest: Id)
    requires Replay(rules, store, events).Some?
    ensures Perform(rules, store, Replay(rules, store, events).value, act, digest).Some? <==>
            Admitted(rules, store, events, act)
  {
    hide Replay, LatestReport, StatusOf, InForce, CensusHolds, CensusAdmitted, ProfileHolds, ProfileAdmitted,
      ImportHolds, ImportAdmitted, CertificateHolds, CertificateAdmitted, FinishHolds, ResultsAdmitted, AfterCensus,
      AfterFinish, Selected;
    var state := Replay(rules, store, events).value;
    StateBefore(rules, store, events);
    match act
    case Census(_, _, _, _) => CensusExactly(rules, store, act);
    case DefectOpened(finding, _) => StatusExactly(rules, store, events, finding);
    case DefectClosed(finding, opening, repair, verification, review) =>
      OpenFindingsMean(rules, store, events, finding, opening);
      assert AllIn([repair, verification, review], store) <==>
             repair in store && verification in store && review in store;
    case ProfileFrozen(_, _, _) => ProfileExactly(rules, store, act);
    case CycleStarted(profile) =>
      StartExactly(rules, store, events, profile);
      InForceIsInside(events);
    case CycleFinished(_, _, _) =>
      if CycleOpen(events) {
        FinishedExactly(rules, store, events, act);
      }
    case CycleInterrupted(_) =>
    case OperationalImport(_, _, _) => ImportExactly(store, act);
    case CertificatePrepared(_, _, _) => CertificateExactly(rules, store, events, act);
  }

  /** The next act is taken if and only if the chronology and the documents admit it. */
  lemma AcceptsExactly(rules: Rules, store: Store, events: seq<Event>, act: Act)
    requires Replay(rules, store, events).Some?
    ensures Replay(rules, store, events + [NextEvent(rules, events, act)]).Some? <==>
            Admitted(rules, store, events, act)
  {
    hide Replay, Perform, Admitted;
    var event := NextEvent(rules, events, act);
    ReplayStep(rules, store, events, event);
    StateBefore(rules, store, events);
    PerformExactly(rules, store, events, act, rules.digest(event));
  }
}
