/** The events of the certification evidence ledger and what each of them does. */
module EvidenceEvents {
  import opened Wrappers

  /** A SHA-256 identity. */
  type Id = string

  datatype Case = Case(id: string, probes: seq<string>)

  datatype Verdict = Pass | Fail | Error

  datatype Probe = Probe(name: string, passed: bool)

  datatype Result = Result(caseId: string, verdict: Verdict, probes: seq<Probe>, reasons: seq<string>)

  /** The parsed body of an artifact. A manifest's matrix digest stands for the
      matrix it is a digest of; `rest` are the fields of a record that nothing reads. */
  datatype Document =
    | Opaque
    | ManifestDocument(matrix: seq<Case>)
    | CasesDocument(cases: seq<Case>)
    | ResultsDocument(results: seq<Result>)
    | TurnsDocument(turns: map<string, map<string, Id>>)
    | ExportDocument(inventory: map<Id, nat>, origin: string, cycles: seq<Id>)
    | RecordDocument(qualification: Option<string>, evidenceHead: Option<Id>, rest: string)

  datatype Artifact = Artifact(size: nat, body: Document)

  type Store = map<Id, Artifact>

  datatype Bindings = Bindings(installation: Id, head: Id, source: Id, catalog: Id, harness: Id)

  datatype Act =
    | Census(scope: Id, sources: seq<Id>, review: Id, findings: map<string, Id>)
    | DefectOpened(finding: string, evidence: Id)
    | DefectClosed(finding: string, opening: Id, repair: Id, verification: Id, review: Id)
    | ProfileFrozen(bindings: Bindings, manifest: Id, cases: Id)
    | CycleStarted(profile: Option<Id>)
    | CycleFinished(start: Id, results: Id, turns: Id)
    | CycleInterrupted(start: Id)
    | OperationalImport(exported: Id, destination: Id, predecessor: Option<Id>)
    | CertificatePrepared(certificate: Id, qualification: Id, operationalImport: Option<Id>)

  /** One row of the chain: its place, its link, its act. */
  datatype Event = Event(sequence: nat, previous: Option<Id>, act: Act)

  /** What the ledger takes from outside: digests, sizes, and well-formed names. */
  datatype Rules = Rules(digest: Event -> Id, size: Event -> nat, name: Artifact -> Id, identifier: string -> bool) {
    /** No two different ones of these events have one digest. */
    predicate Apart(events: seq<Event>) {
      forall first, second | first in events && second in events && digest(first) == digest(second) :: first == second
    }
  }

  datatype State = State(
    head: Option<Id>, count: nat, scope: Option<Id>, findings: map<string, Option<Id>>,
    profile: Option<Id>, bindings: Option<Bindings>, cases: map<string, Case>,
    pending: Option<Id>, successes: seq<Id>, turns: set<string>, imported: Option<Id>)

  const EMPTY: State := State(None, 0, None, map[], None, None, map[], None, [], {}, None)

  predicate AllIn(ids: seq<Id>, store: Store) {
    forall id | id in ids :: id in store
  }

  predicate AllDistinct(texts: seq<string>) {
    forall i, j | 0 <= i < j < |texts| :: texts[i] != texts[j]
  }

  predicate CensusHolds(rules: Rules, store: Store, act: Act)
    requires act.Census?
  {
    && act.sources != [] && AllDistinct(act.sources) && AllIn(act.sources, store) && act.review in store
    && forall finding | finding in act.findings :: act.findings[finding] in store && rules.identifier(finding)
  }

  function AfterCensus(state: State, act: Act, digest: Id): State
    requires act.Census?
  {
    var observed :=
      if state.scope == Some(act.scope) then state
      else state.(profile := None, bindings := None, cases := map[], successes := [], imported := None);
    var reported := observed.(scope := Some(act.scope),
                              findings := observed.findings + map finding | finding in act.findings :: Some(digest));
    if act.findings == map[] then reported else reported.(successes := [], imported := None)
  }

  function StatusOf(state: State, finding: string): Option<Id> {
    if finding in state.findings then state.findings[finding] else None
  }

  /** Cases worth freezing: named, probed, without repetition. */
  predicate CasesHold(rules: Rules, cases: seq<Case>) {
    && cases != []
    && (forall i, j | 0 <= i < j < |cases| :: cases[i].id != cases[j].id)
    && (forall c | c in cases :: && rules.identifier(c.id) && c.probes != [] && AllDistinct(c.probes)
                                 && forall probe | probe in c.probes :: rules.identifier(probe))
  }

  predicate ProfileHolds(rules: Rules, store: Store, act: Act)
    requires act.ProfileFrozen?
  {
    && act.manifest in store && store[act.manifest].body.ManifestDocument?
    && act.cases in store && store[act.cases].body.CasesDocument?
    && CasesHold(rules, store[act.cases].body.cases)
    && store[act.manifest].body.matrix == store[act.cases].body.cases
  }

  function Selected(cases: seq<Case>): map<string, Case> {
    if cases == [] then map[] else Selected(cases[..|cases| - 1])[cases[|cases| - 1].id := cases[|cases| - 1]]
  }

  predicate ImportHolds(store: Store, act: Act)
    requires act.OperationalImport?
  {
    && act.exported in store && store[act.exported].body.ExportDocument?
    && act.destination in store && IsRecord(store[act.destination].body)
    && store[act.exported].body.inventory != map[]
    && (forall id | id in store[act.exported].body.inventory ::
          id in store && store[id].size == store[act.exported].body.inventory[id])
    && (act.predecessor.Some? ==> act.predecessor.value in store)
  }

  /** A JSON object, whatever its fields. */
  predicate IsRecord(body: Document) {
    body.ManifestDocument? || body.TurnsDocument? || body.ExportDocument? || body.RecordDocument?
  }

  function QualificationOf(body: Document): Option<string> {
    if body.RecordDocument? then body.qualification else None
  }

  predicate CertificateHolds(store: Store, state: State, act: Act)
    requires act.CertificatePrepared?
  {
    && act.certificate in store && IsRecord(store[act.certificate].body)
    && act.qualification in store && IsRecord(store[act.qualification].body)
    && QualificationOf(store[act.certificate].body) == QualificationOf(store[act.qualification].body)
    && (if store[act.qualification].body.RecordDocument? then store[act.qualification].body.evidenceHead else None) ==
         state.head
    && act.operationalImport == state.imported
  }

  function ProbeNames(probes: seq<Probe>): (names: seq<string>)
    ensures |names| == |probes| && forall i | 0 <= i < |probes| :: names[i] == probes[i].name
  {
    seq(|probes|, i requires 0 <= i < |probes| => probes[i].name)
  }

  /** A pass carries its evidence: turns, and every declared probe passed once. */
  predicate PassHolds(rules: Rules, result: Result, declared: Case, turns: map<string, Id>) {
    && turns != map[] && result.probes != [] && result.reasons == []
    && (forall probe | probe in result.probes :: probe.passed && rules.identifier(probe.name))
    && AllDistinct(ProbeNames(result.probes))
    && (set name | name in ProbeNames(result.probes)) == (set name | name in declared.probes)
  }

  /** One result against the frozen case, with its turns in the store. */
  predicate ResultHolds(rules: Rules, store: Store, result: Result, cases: map<string, Case>,
                        turns: map<string, map<string, Id>>) {
    && rules.identifier(result.caseId) && result.caseId in cases && result.caseId in turns
    && (forall turn | turn in turns[result.caseId] :: rules.identifier(turn) && turns[result.caseId][turn] in store)
    && (result.verdict.Pass? ==> PassHolds(rules, result, cases[result.caseId], turns[result.caseId]))
  }

  /** The turns that a set of results uses. */
  function TurnsOf(results: seq<Result>, turns: map<string, map<string, Id>>): set<string> {
    set i, turn | 0 <= i < |results| && results[i].caseId in turns && turn in turns[results[i].caseId] :: turn
  }

  /** A cycle's results are complete: every frozen case once, no turn used twice,
      none used in any earlier cycle. */
  predicate ResultsHold(rules: Rules, store: Store, results: seq<Result>, cases: map<string, Case>,
                        turns: map<string, map<string, Id>>, used: set<string>) {
    && turns.Keys == cases.Keys
    && (forall i | 0 <= i < |results| :: ResultHolds(rules, store, results[i], cases, turns))
    && (forall i, j | 0 <= i < j < |results| :: results[i].caseId != results[j].caseId)
    && (forall i, j | 0 <= i < j < |results| && results[i].caseId in turns && results[j].caseId in turns ::
          turns[results[i].caseId].Keys !! turns[results[j].caseId].Keys)
    && (forall i | 0 <= i < |results| && results[i].caseId in turns :: turns[results[i].caseId].Keys !! used)
    && (forall id | id in cases :: exists i | 0 <= i < |results| :: results[i].caseId == id)
  }

  predicate AllPass(results: seq<Result>) {
    forall result | result in results :: result.verdict.Pass?
  }

  predicate FinishHolds(rules: Rules, store: Store, state: State, act: Act)
    requires act.CycleFinished?
  {
    && act.results in store && store[act.results].body.ResultsDocument?
    && act.turns in store && store[act.turns].body.TurnsDocument?
    && ResultsHold(rules, store, store[act.results].body.results, state.cases, store[act.turns].body.turns, state.turns)
  }

  /** The two latest cycles: the one before, and this one. */
  function LastOne(ids: seq<Id>): seq<Id> {
    if ids == [] then [] else [ids[|ids| - 1]]
  }

  function AfterFinish(store: Store, state: State, act: Act): State
    requires act.CycleFinished? && state.pending.Some?
    requires act.results in store && store[act.results].body.ResultsDocument?
    requires act.turns in store && store[act.turns].body.TurnsDocument?
  {
    var results, turns := store[act.results].body.results, store[act.turns].body.turns;
    state.(turns := state.turns + TurnsOf(results, turns),
           successes := if AllPass(results) then LastOne(state.successes) + [state.pending.value] else [],
           pending := None)
  }

  /** What one act does to the state; None when the act is refused. */
  function Perform(rules: Rules, store: Store, state: State, act: Act, digest: Id): Option<State> {
    if (state.scope.None? && !act.Census?)
       || (state.pending.Some? && !act.CycleFinished? && !act.CycleInterrupted?) then None
    else
      match act
      case Census(_, _, _, _) =>
        if CensusHolds(rules, store, act) then Some(AfterCensus(state, act, digest)) else None
      case DefectOpened(finding, evidence) =>
        if !rules.identifier(finding) || StatusOf(state, finding).Some? || evidence !in store then None
        else Some(state.(findings := state.findings[finding := Some(digest)], successes := [], imported := None))
      case DefectClosed(finding, opening, repair, verification, review) =>
        if !rules.identifier(finding) || StatusOf(state, finding) != Some(opening)
           || !AllIn([repair, verification, review], store) then None
        else Some(state.(findings := state.findings[finding := None]))
      case ProfileFrozen(bindings, _, cases) =>
        if !ProfileHolds(rules, store, act) then None
        else Some(state.(profile := Some(digest), cases := Selected(store[cases].body.cases), successes := [],
                         imported := None, bindings := Some(bindings)))
      case OperationalImport(_, _, _) =>
        if ImportHolds(store, act) then Some(state.(imported := Some(digest))) else None
      case CertificatePrepared(_, _, _) =>
        if CertificateHolds(store, state, act) then Some(state) else None
      case CycleStarted(profile) =>
        if state.profile.None? || profile != state.profile then None
        else Some(state.(pending := Some(digest), imported := None))
      case CycleFinished(start, _, _) =>
        if state.pending != Some(start) || !FinishHolds(rules, store, state, act) then None
        else Some(AfterFinish(store, state, act))
      case CycleInterrupted(start) =>
        if state.pending != Some(start) then None
        else Some(state.(successes := [], pending := None))
  }

  /** The next state of the chain; None when the event does not belong there. */
  function Apply(rules: Rules, store: Store, state: State, event: Event): Option<State> {
    if event.sequence != state.count + 1 || event.previous != state.head then None
    else
      var performed := Perform(rules, store, state, event.act, rules.digest(event));
      if performed.None? then None
      else Some(performed.value.(count := event.sequence, head := Some(rules.digest(event))))
  }

  /** The state that a chronology leaves. */
  function Replay(rules: Rules, store: Store, events: seq<Event>): Option<State> {
    if events == [] then Some(EMPTY)
    else
      var before := Replay(rules, store, events[..|events| - 1]);
      if before.None? then None else Apply(rules, store, before.value, events[|events| - 1])
  }

  ghost predicate Extends(small: Store, large: Store) {
    forall id | id in small :: id in large && large[id] == small[id]
  }

  lemma PerformInLarger(rules: Rules, small: Store, large: Store, state: State, act: Act, digest: Id)
    requires Extends(small, large) && Perform(rules, small, state, act, digest).Some?
    ensures Perform(rules, large, state, act, digest) == Perform(rules, small, state, act, digest)
  {
    hide Selected, AfterCensus, AllPass, TurnsOf, PassHolds, CasesHold, AllDistinct;
  }

  /** What the store gains later does not change what the chronology meant. */
  lemma {:induction false} ReplayInLarger(rules: Rules, small: Store, large: Store, events: seq<Event>)
    requires Extends(small, large) && Replay(rules, small, events).Some?
    ensures Replay(rules, large, events) == Replay(rules, small, events)
  {
    hide Perform;
    if events != [] {
      var n := |events| - 1;
      ReplayInLarger(rules, small, large, events[..n]);
      PerformInLarger(rules, small, large, Replay(rules, small, events[..n]).value, events[n].act,
                      rules.digest(events[n]));
    }
  }

  /** Beginnings of a replayable chronology replay. */
  lemma {:induction false} ReplayPrefix(rules: Rules, store: Store, events: seq<Event>, n: nat)
    requires Replay(rules, store, events).Some? && n <= |events|
    ensures Replay(rules, store, events[..n]).Some?
    decreases |events|
  {
    hide Perform;
    if n < |events| {
      ReplayPrefix(rules, store, events[..|events| - 1], n);
      assert events[..|events| - 1][..n] == events[..n];
    } else {
      assert events[..n] == events;
    }
  }

  lemma ReplayStep(rules: Rules, store: Store, events: seq<Event>, event: Event)
    requires Replay(rules, store, events).Some?
    ensures Replay(rules, store, events + [event]) == Apply(rules, store, Replay(rules, store, events).value, event)
  {
    assert (events + [event])[..|events|] == events;
  }

  lemma {:induction false} ReplayCounts(rules: Rules, store: Store, events: seq<Event>)
    requires Replay(rules, store, events).Some?
    ensures Replay(rules, store, events).value.count == |events|
    ensures Replay(rules, store, events).value.head ==
      if events == [] then None else Some(rules.digest(events[|events| - 1]))
  {
    hide Perform;
    if events != [] {
      ReplayCounts(rules, store, events[..|events| - 1]);
    }
  }

  /** The first event is a census, and a scope is never unset. */
  lemma {:induction false} ScopeIsSet(rules: Rules, store: Store, events: seq<Event>)
    requires Replay(rules, store, events).Some?
    ensures Replay(rules, store, events).value.scope.None? <==> events == []
  {
    hide CensusHolds, ProfileHolds, ImportHolds, CertificateHolds, FinishHolds, Selected, TurnsOf, AllPass;
    if events != [] {
      ScopeIsSet(rules, store, events[..|events| - 1]);
    }
  }

  /** A head stands for one chronology, unless two of the events collide. */
  lemma {:induction false} OneHeadOneChronology(rules: Rules, first: Store, second: Store, xs: seq<Event>,
                                                ys: seq<Event>)
    requires rules.Apart(xs + ys) && Replay(rules, first, xs).Some? && Replay(rules, second, ys).Some?
    requires Replay(rules, first, xs).value.head == Replay(rules, second, ys).value.head
    ensures xs == ys
    decreases |xs|
  {
    hide Perform;
    ReplayCounts(rules, first, xs);
    ReplayCounts(rules, second, ys);
    if xs != [] && ys != [] {
      var m, n := |xs| - 1, |ys| - 1;
      assert xs[m] in xs + ys && ys[n] in xs + ys;
      assert xs[m] == ys[n];
      assert m == n;
      assert forall event | event in xs[..m] + ys[..n] :: event in xs + ys;
      OneHeadOneChronology(rules, first, second, xs[..m], ys[..n]);
      assert xs == xs[..m] + [xs[m]] && ys == ys[..n] + [ys[n]];
    }
  }
}
