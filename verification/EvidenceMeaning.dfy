/** What the ledger's state says about the whole chronology behind it. */
module EvidenceMeaning {
  import opened Wrappers
  import opened EvidenceEvents

  function ResultsIn(store: Store, act: Act): seq<Result> {
    if act.CycleFinished? && act.results in store && store[act.results].body.ResultsDocument?
    then store[act.results].body.results else []
  }

  function TurnsIn(store: Store, act: Act): map<string, map<string, Id>> {
    if act.CycleFinished? && act.turns in store && store[act.turns].body.TurnsDocument?
    then store[act.turns].body.turns else map[]
  }

  /** The turns that one act consumed. */
  function Consumed(store: Store, act: Act): set<string> {
    TurnsOf(ResultsIn(store, act), TurnsIn(store, act))
  }

  predicate Passing(store: Store, act: Act) {
    act.CycleFinished? && AllPass(ResultsIn(store, act))
  }

  /** The scope that the latest census named. */
  function ScopeOf(events: seq<Event>): Option<Id> {
    if events == [] then None
    else if events[|events| - 1].act.Census? then Some(events[|events| - 1].act.scope)
    else ScopeOf(events[..|events| - 1])
  }

  /** Acts after which no earlier success counts. Closing a defect is not one. */
  predicate ResetAct(store: Store, scope: Option<Id>, act: Act) {
    match act
    case Census(observed, _, _, findings) => findings != map[] || scope != Some(observed)
    case DefectOpened(_, _) => true
    case ProfileFrozen(_, _, _) => true
    case CycleFinished(_, _, _) => !Passing(store, act)
    case CycleInterrupted(_) => true
    case _ => false
  }

  predicate Resets(store: Store, events: seq<Event>, i: nat)
    requires i < |events|
  {
    ResetAct(store, ScopeOf(events[..i]), events[i].act)
  }

  /** The chronology from `k` on is the stretch since the latest reset. */
  ghost predicate SinceReset(store: Store, events: seq<Event>, k: nat) {
    && k <= |events| && (k > 0 ==> Resets(store, events, k - 1))
    && forall i | k <= i < |events| :: !Resets(store, events, i)
  }

  /** The starts of the passing cycles from `k` on, in order. */
  function PassedFrom(store: Store, events: seq<Event>, k: nat): seq<Id> {
    if |events| <= k then []
    else
      var last := events[|events| - 1];
      PassedFrom(store, events[..|events| - 1], k) + if Passing(store, last.act) then [last.act.start] else []
  }

  function LastTwo(ids: seq<Id>): seq<Id> {
    if |ids| <= 2 then ids else ids[|ids| - 2..]
  }

  lemma PerformScope(rules: Rules, store: Store, state: State, act: Act, digest: Id)
    requires Perform(rules, store, state, act, digest).Some?
    ensures Perform(rules, store, state, act, digest).value.scope ==
      if act.Census? then Some(act.scope) else state.scope
  {
    hide CensusHolds, ProfileHolds, ImportHolds, CertificateHolds, FinishHolds, Selected, TurnsOf, AllPass;
  }

  lemma {:induction false} ScopeIsLatest(rules: Rules, store: Store, events: seq<Event>)
    requires Replay(rules, store, events).Some?
    ensures Replay(rules, store, events).value.scope == ScopeOf(events)
  {
    hide Perform;
    if events != [] {
      var n := |events| - 1;
      ScopeIsLatest(rules, store, events[..n]);
      PerformScope(rules, store, Replay(rules, store, events[..n]).value, events[n].act, rules.digest(events[n]));
    }
  }

  lemma ResetInPrefix(store: Store, events: seq<Event>, i: nat)
    requires i < |events| - 1
    ensures Resets(store, events[..|events| - 1], i) == Resets(store, events, i)
  {
    assert events[..|events| - 1][..i] == events[..i];
  }

  lemma SinceResetInPrefix(store: Store, events: seq<Event>, k: nat)
    requires SinceReset(store, events, k) && k < |events|
    ensures SinceReset(store, events[..|events| - 1], k)
  {
    hide Resets;
    if k > 0 {
      ResetInPrefix(store, events, k - 1);
    }
    var prefix := events[..|events| - 1];
    forall i | k <= i < |prefix| ensures !Resets(store, prefix, i) {
      ResetInPrefix(store, events, i);
    }
  }

  /** How the successes change with one act. */
  function SuccessesAfter(store: Store, state: State, act: Act): seq<Id> {
    if ResetAct(store, state.scope, act) then []
    else if Passing(store, act) then LastOne(state.successes) + [act.start]
    else state.successes
  }

  lemma PerformSuccesses(rules: Rules, store: Store, state: State, act: Act, digest: Id)
    requires Perform(rules, store, state, act, digest).Some?
    ensures Perform(rules, store, state, act, digest).value.successes == SuccessesAfter(store, state, act)
  {
    hide CensusHolds, ProfileHolds, ImportHolds, CertificateHolds, Selected, TurnsOf, AllPass, ResultsHold;
  }

  lemma SuccessStep(rules: Rules, store: Store, events: seq<Event>)
    requires events != [] && Replay(rules, store, events).Some?
    ensures Replay(rules, store, events[..|events| - 1]).Some?
    ensures var before := Replay(rules, store, events[..|events| - 1]).value;
            var last := events[|events| - 1];
            Replay(rules, store, events).value.successes ==
              if Resets(store, events, |events| - 1) then []
              else if Passing(store, last.act) then LastOne(before.successes) + [last.act.start]
              else before.successes
  {
    var n := |events| - 1;
    ScopeIsLatest(rules, store, events[..n]);
    hide Perform, ResetAct, Passing, ScopeOf;
    PerformSuccesses(rules, store, Replay(rules, store, events[..n]).value, events[n].act, rules.digest(events[n]));
  }

  lemma LastTwoGrows(ids: seq<Id>, id: Id)
    ensures LastOne(LastTwo(ids)) + [id] == LastTwo(ids + [id])
  {
  }

  /** The successes are the last two, at most, of the cycles that passed since the
      latest reset. */
  lemma {:induction false} SuccessesMean(rules: Rules, store: Store, events: seq<Event>, k: nat)
    requires Replay(rules, store, events).Some? && SinceReset(store, events, k)
    ensures Replay(rules, store, events).value.successes == LastTwo(PassedFrom(store, events, k))
  {
    hide Resets, Replay, AllPass, ResultsIn, LastTwo, LastOne;
    if events == [] {
      NothingYet(rules, store);
    } else {
      var n := |events| - 1;
      SuccessStep(rules, store, events);
      if k < |events| {
        SinceResetInPrefix(store, events, k);
        SuccessesMean(rules, store, events[..n], k);
        if Passing(store, events[n].act) {
          LastTwoGrows(PassedFrom(store, events[..n], k), events[n].act.start);
        } else {
          assert PassedFrom(store, events, k) == PassedFrom(store, events[..n], k);
        }
      } else {
        NothingYet(rules, store);
      }
    }
  }

  lemma NothingYet(rules: Rules, store: Store)
    ensures LastTwo([]) == [] && Replay(rules, store, []) == Some(EMPTY)
  {
  }

  /** There is such a stretch in every chronology. */
  lemma {:induction false} SomeStretch(store: Store, events: seq<Event>) returns (k: nat)
    ensures SinceReset(store, events, k)
  {
    hide Resets;
    if events == [] {
      k := 0;
    } else if Resets(store, events, |events| - 1) {
      k := |events|;
    } else {
      var n := |events| - 1;
      k := SomeStretch(store, events[..n]);
      if k > 0 {
        ResetInPrefix(store, events, k - 1);
      }
      forall i | k <= i < |events| ensures !Resets(store, events, i) {
        if i < n {
          ResetInPrefix(store, events, i);
        }
      }
    }
  }

  predicate Closing(event: Event) {
    event.act.CycleFinished? || event.act.CycleInterrupted?
  }

  function StartOf(event: Event): Id
    requires Closing(event)
  {
    event.act.start
  }

  /** A cycle is pending exactly when the last event started it. */
  lemma PendingIsLast(rules: Rules, store: Store, events: seq<Event>)
    requires Replay(rules, store, events).Some?
    ensures Replay(rules, store, events).value.pending ==
            if events != [] && events[|events| - 1].act.CycleStarted? then Some(rules.digest(events[|events| - 1]))
            else None
  {
    if events != [] {
      PendingStep(rules, store, events);
    }
  }

  lemma PerformPending(rules: Rules, store: Store, state: State, act: Act, digest: Id)
    requires Perform(rules, store, state, act, digest).Some?
    ensures Perform(rules, store, state, act, digest).value.pending == if act.CycleStarted? then Some(digest) else None
  {
    hide CensusHolds, ProfileHolds, ImportHolds, CertificateHolds, FinishHolds, Selected, TurnsOf, AllPass;
  }

  lemma PendingStep(rules: Rules, store: Store, events: seq<Event>)
    requires events != [] && Replay(rules, store, events).Some?
    ensures Replay(rules, store, events).value.pending ==
            if events[|events| - 1].act.CycleStarted? then Some(rules.digest(events[|events| - 1])) else None
  {
    hide Perform;
    var n := |events| - 1;
    PerformPending(rules, store, Replay(rules, store, events[..n]).value, events[n].act, rules.digest(events[n]));
  }

  lemma PerformClosing(rules: Rules, store: Store, state: State, event: Event)
    requires Apply(rules, store, state, event).Some? && Closing(event)
    ensures state.pending == Some(StartOf(event))
  {
    hide FinishHolds, AfterFinish, CensusHolds, ProfileHolds, ImportHolds, CertificateHolds;
  }

  /** A closure stands right after the start it names. */
  lemma ClosureFollowsStart(rules: Rules, store: Store, events: seq<Event>, i: nat)
    requires Replay(rules, store, events).Some? && i < |events| && Closing(events[i])
    ensures i > 0 && events[i - 1].act.CycleStarted? && StartOf(events[i]) == rules.digest(events[i - 1])
  {
    hide Apply;
    ReplayPrefix(rules, store, events, i + 1);
    ReplayPrefix(rules, store, events, i);
    assert events[..i + 1][..i] == events[..i];
    PendingIsLast(rules, store, events[..i]);
    PerformClosing(rules, store, Replay(rules, store, events[..i]).value, events[i]);
  }

  lemma {:induction false} SequenceIsPlace(rules: Rules, store: Store, events: seq<Event>, i: nat)
    requires Replay(rules, store, events).Some? && i < |events|
    ensures events[i].sequence == i + 1
  {
    ReplayPrefix(rules, store, events, i + 1);
    ReplayPrefix(rules, store, events, i);
    assert events[..i + 1][..i] == events[..i];
    ReplayCounts(rules, store, events[..i]);
    hide Perform;
  }

  /** No start is closed twice. */
  lemma StartsCloseOnce(rules: Rules, store: Store, events: seq<Event>, i: nat, j: nat)
    requires rules.Apart(events) && Replay(rules, store, events).Some?
    requires i < |events| && j < |events| && Closing(events[i]) && Closing(events[j])
    requires StartOf(events[i]) == StartOf(events[j])
    ensures i == j
  {
    ClosureFollowsStart(rules, store, events, i);
    ClosureFollowsStart(rules, store, events, j);
    SequenceIsPlace(rules, store, events, i - 1);
    SequenceIsPlace(rules, store, events, j - 1);
    hide Replay;
    assert events[i - 1] == events[j - 1];
  }

  /** Every turn is consumed at most once in the whole chronology. */
  lemma {:induction false} TurnsAccumulate(rules: Rules, store: Store, events: seq<Event>, i: nat)
    requires Replay(rules, store, events).Some? && i < |events|
    ensures Consumed(store, events[i].act) <= Replay(rules, store, events).value.turns
    decreases |events|
  {
    hide Perform, Consumed;
    var n := |events| - 1;
    PerformTurns(rules, store, Replay(rules, store, events[..n]).value, events[n].act, rules.digest(events[n]));
    if i < n {
      TurnsAccumulate(rules, store, events[..n], i);
      assert events[..n][i] == events[i];
    }
  }

  lemma PerformTurns(rules: Rules, store: Store, state: State, act: Act, digest: Id)
    requires Perform(rules, store, state, act, digest).Some?
    ensures Perform(rules, store, state, act, digest).value.turns == state.turns + Consumed(store, act)
    ensures Consumed(store, act) !! state.turns
  {
    if !act.CycleFinished? {
      assert Consumed(store, act) == {};
    }
    hide CensusHolds, ProfileHolds, ImportHolds, CertificateHolds, Selected, AllPass, ResultHolds;
  }

  lemma NoTurnTwice(rules: Rules, store: Store, events: seq<Event>, i: nat, j: nat)
    requires Replay(rules, store, events).Some? && i < j < |events|
    ensures Consumed(store, events[i].act) !! Consumed(store, events[j].act)
  {
    hide Perform, Consumed;
    ReplayPrefix(rules, store, events, j + 1);
    ReplayPrefix(rules, store, events, j);
    assert events[..j + 1][..j] == events[..j] && events[..j][i] == events[i];
    TurnsAccumulate(rules, store, events[..j], i);
    PerformTurns(rules, store, Replay(rules, store, events[..j]).value, events[j].act, rules.digest(events[j]));
  }

  predicate Reports(act: Act, finding: string) {
    (act.DefectOpened? && act.finding == finding) || (act.Census? && finding in act.findings)
  }

  predicate Settles(act: Act, finding: string) {
    act.DefectClosed? && act.finding == finding
  }

  /** The latest word on a finding is the report at `i`. */
  ghost predicate LatestWord(events: seq<Event>, finding: string, i: nat) {
    && i < |events| && Reports(events[i].act, finding)
    && forall j | i < j < |events| :: !Reports(events[j].act, finding) && !Settles(events[j].act, finding)
  }

  /** Some report was never settled, and the latest one has this digest. */
  ghost predicate LatestReport(rules: Rules, events: seq<Event>, finding: string, digest: Id) {
    exists i: nat :: LatestWord(events, finding, i) && rules.digest(events[i]) == digest
  }

  /** No report of a finding stands without a later settlement. */
  ghost predicate NothingReported(rules: Rules, events: seq<Event>) {
    forall finding, report :: !LatestReport(rules, events, finding, report)
  }

  lemma PerformFindings(rules: Rules, store: Store, state: State, act: Act, digest: Id, finding: string)
    requires Perform(rules, store, state, act, digest).Some?
    ensures StatusOf(Perform(rules, store, state, act, digest).value, finding) ==
            if Reports(act, finding) then Some(digest) else if Settles(act, finding) then None
            else StatusOf(state, finding)
    ensures Settles(act, finding) ==> StatusOf(state, finding) == Some(act.opening)
  {
    hide CensusHolds, ProfileHolds, ImportHolds, CertificateHolds, Selected, TurnsOf, AllPass, FinishHolds;
  }

  /** A finding is open exactly when some report of it was never settled, and what
      the ledger remembers is the latest report. */
  lemma {:induction false} OpenFindingsMean(rules: Rules, store: Store, events: seq<Event>, finding: string, digest: Id)
    requires Replay(rules, store, events).Some?
    ensures StatusOf(Replay(rules, store, events).value, finding) == Some(digest) <==>
            LatestReport(rules, events, finding, digest)
  {
    hide Perform, Reports, Settles, StatusOf, LatestReport;
    if events == [] {
      NoReport(rules, finding, digest);
      NothingOpenAtFirst(finding);
    } else {
      var n := |events| - 1;
      OpenFindingsMean(rules, store, events[..n], finding, digest);
      PerformFindings(rules, store, Replay(rules, store, events[..n]).value, events[n].act, rules.digest(events[n]),
                      finding);
      StatusIgnoresCount(Replay(rules, store, events).value, finding);
      ReportStep(rules, events, finding, digest);
    }
  }

  /** Nothing is open exactly when every report was settled. */
  lemma NothingOpenExactly(rules: Rules, store: Store, events: seq<Event>)
    requires Replay(rules, store, events).Some?
    ensures (forall finding :: StatusOf(Replay(rules, store, events).value, finding).None?) <==>
            NothingReported(rules, events)
  {
    hide Replay, LatestReport, StatusOf;
    var state := Replay(rules, store, events).value;
    forall finding, report
      ensures StatusOf(state, finding) == Some(report) <==> LatestReport(rules, events, finding, report)
    {
      OpenFindingsMean(rules, store, events, finding, report);
    }
    forall finding | StatusOf(state, finding).Some? ensures !NothingReported(rules, events) {
      assert LatestReport(rules, events, finding, StatusOf(state, finding).value);
    }
  }

  lemma NothingOpenAtFirst(finding: string)
    ensures StatusOf(EMPTY, finding) == None
  {
  }

  lemma StatusIgnoresCount(state: State, finding: string)
    ensures forall count, head :: StatusOf(state.(count := count, head := head), finding) == StatusOf(state, finding)
  {
  }

  lemma NoReport(rules: Rules, finding: string, digest: Id)
    ensures !LatestReport(rules, [], finding, digest)
  {
  }

  lemma ReportStep(rules: Rules, events: seq<Event>, finding: string, digest: Id)
    requires events != []
    ensures var n := |events| - 1;
            LatestReport(rules, events, finding, digest) ==
              if Reports(events[n].act, finding) then rules.digest(events[n]) == digest
              else if Settles(events[n].act, finding) then false
              else LatestReport(rules, events[..n], finding, digest)
  {
    hide Reports, Settles;
    var n := |events| - 1;
    if Reports(events[n].act, finding) {
      assert LatestWord(events, finding, n);
    } else if !Settles(events[n].act, finding) {
      if i: nat :| LatestWord(events, finding, i) && rules.digest(events[i]) == digest {
        assert LatestWord(events[..n], finding, i);
      }
      if i: nat :| LatestWord(events[..n], finding, i) && rules.digest(events[..n][i]) == digest {
        assert LatestWord(events, finding, i);
      }
    }
  }

  /** A closure settles the latest report, and names it. */
  lemma ClosureNamesLatest(rules: Rules, store: Store, events: seq<Event>, j: nat)
    requires Replay(rules, store, events).Some? && j < |events| && events[j].act.DefectClosed?
    ensures LatestReport(rules, events[..j], events[j].act.finding, events[j].act.opening)
  {
    hide Perform, Reports, StatusOf;
    ReplayPrefix(rules, store, events, j + 1);
    ReplayPrefix(rules, store, events, j);
    assert events[..j + 1][..j] == events[..j];
    PerformFindings(rules, store, Replay(rules, store, events[..j]).value, events[j].act, rules.digest(events[j]),
                    events[j].act.finding);
    OpenFindingsMean(rules, store, events[..j], events[j].act.finding, events[j].act.opening);
  }

  /** A census of another scope than the one before it. */
  predicate ChangesScope(scope: Option<Id>, act: Act) {
    act.Census? && scope != Some(act.scope)
  }

  /** The profile frozen at `i` is still in force. */
  ghost predicate InForce(events: seq<Event>, i: nat) {
    && i < |events| && events[i].act.ProfileFrozen?
    && forall j | i < j < |events| ::
         !events[j].act.ProfileFrozen? && !ChangesScope(ScopeOf(events[..j]), events[j].act)
  }

  lemma PerformBase(rules: Rules, store: Store, state: State, act: Act, digest: Id)
    requires Perform(rules, store, state, act, digest).Some?
    ensures var after := Perform(rules, store, state, act, digest).value;
            if act.ProfileFrozen? then
              && after.profile == Some(digest) && after.bindings == Some(act.bindings)
              && act.cases in store && store[act.cases].body.CasesDocument?
              && after.cases == Selected(store[act.cases].body.cases)
            else if ChangesScope(state.scope, act)
              then after.profile == None && after.bindings == None && after.cases == map[]
            else after.profile == state.profile && after.bindings == state.bindings && after.cases == state.cases
  {
    hide CensusHolds, ImportHolds, CertificateHolds, FinishHolds, CasesHold, Selected, TurnsOf, AllPass;
  }

  lemma InForceStep(events: seq<Event>, i: nat)
    requires events != []
    ensures var n := |events| - 1;
            InForce(events, i) <==>
              if events[n].act.ProfileFrozen? then i == n
              else i < n && InForce(events[..n], i) && !ChangesScope(ScopeOf(events[..n]), events[n].act)
  {
    hide ScopeOf, ChangesScope;
    var n := |events| - 1;
    forall j | 0 <= j < n ensures events[..n][..j] == events[..j] {
    }
  }

  /** The ledger's profile, bindings and cases are those of the profile in force, and
      there are none exactly when no profile is in force. */
  lemma {:induction false} ProfileMeans(rules: Rules, store: Store, events: seq<Event>, i: nat)
    requires Replay(rules, store, events).Some?
    ensures var state := Replay(rules, store, events).value;
            && (InForce(events, i) ==>
                  && state.profile == Some(rules.digest(events[i])) && state.bindings == Some(events[i].act.bindings)
                  && events[i].act.cases in store && store[events[i].act.cases].body.CasesDocument?
                  && state.cases == Selected(store[events[i].act.cases].body.cases))
            && ((forall k: nat :: !InForce(events, k)) ==>
                state.profile == None && state.bindings == None && state.cases == map[])
  {
    hide Perform, ScopeOf, ChangesScope, InForce, Selected;
    if events == [] {
      NothingInForce();
    } else {
      var n := |events| - 1;
      var before := Replay(rules, store, events[..n]).value;
      ScopeIsLatest(rules, store, events[..n]);
      PerformBase(rules, store, before, events[n].act, rules.digest(events[n]));
      InForceStep(events, i);
      InForceStep(events, n);
      InForceIsInside(events[..n]);
      if forall k: nat :: !InForce(events, k) {
        forall k: nat ensures !ChangesScope(ScopeOf(events[..n]), events[n].act) ==> !InForce(events[..n], k) {
          InForceStep(events, k);
        }
      }
      ProfileMeans(rules, store, events[..n], i);
    }
  }

  lemma NothingInForce()
    ensures forall k: nat :: !InForce([], k)
  {
  }

  lemma InForceIsInside(events: seq<Event>)
    ensures forall k: nat | InForce(events, k) :: k < |events|
  {
  }

  /** Acts that end an operational import: new findings, a new scope or profile, or a
      cycle of the installation's own. */
  predicate EndsImport(scope: Option<Id>, act: Act) {
    || ChangesScope(scope, act) || (act.Census? && act.findings != map[])
    || act.DefectOpened? || act.ProfileFrozen? || act.CycleStarted?
  }

  ghost predicate ImportStands(events: seq<Event>, i: nat) {
    && i < |events| && events[i].act.OperationalImport?
    && forall j | i < j < |events| ::
         !events[j].act.OperationalImport? && !EndsImport(ScopeOf(events[..j]), events[j].act)
  }

  lemma PerformImport(rules: Rules, store: Store, state: State, act: Act, digest: Id)
    requires Perform(rules, store, state, act, digest).Some?
    ensures Perform(rules, store, state, act, digest).value.imported ==
            if act.OperationalImport? then Some(digest) else if EndsImport(state.scope, act) then None
            else state.imported
  {
    hide CensusHolds, ProfileHolds, ImportHolds, CertificateHolds, FinishHolds, Selected, TurnsOf, AllPass;
  }

  ghost predicate StandingImport(rules: Rules, events: seq<Event>, digest: Id) {
    exists i: nat :: ImportStands(events, i) && rules.digest(events[i]) == digest
  }

  lemma ImportStandsStep(events: seq<Event>, i: nat)
    requires events != []
    ensures var n := |events| - 1;
            ImportStands(events, i) <==>
              if events[n].act.OperationalImport? then i == n
              else i < n && ImportStands(events[..n], i) && !EndsImport(ScopeOf(events[..n]), events[n].act)
  {
    hide ScopeOf, EndsImport;
    var n := |events| - 1;
    forall j | 0 <= j < n ensures events[..n][..j] == events[..j] {
    }
  }

  lemma StandingStep(rules: Rules, events: seq<Event>, digest: Id)
    requires events != []
    ensures var n := |events| - 1;
            StandingImport(rules, events, digest) ==
              if events[n].act.OperationalImport? then rules.digest(events[n]) == digest
              else if EndsImport(ScopeOf(events[..n]), events[n].act) then false
              else StandingImport(rules, events[..n], digest)
  {
    hide EndsImport, ScopeOf;
    var n := |events| - 1;
    ImportStandsStep(events, n);
    if i: nat :| ImportStands(events, i) && rules.digest(events[i]) == digest {
      ImportStandsStep(events, i);
    }
    if i: nat :| ImportStands(events[..n], i) && rules.digest(events[..n][i]) == digest {
      ImportStandsStep(events, i);
    }
  }

  /** The ledger holds an import exactly while the latest one stands. */
  lemma {:induction false} ImportMeans(rules: Rules, store: Store, events: seq<Event>, digest: Id)
    requires Replay(rules, store, events).Some?
    ensures Replay(rules, store, events).value.imported == Some(digest) <==> StandingImport(rules, events, digest)
  {
    hide Perform, EndsImport, ScopeOf, StandingImport;
    if events == [] {
      NoImportStands(rules, digest);
    } else {
      var n := |events| - 1;
      ImportMeans(rules, store, events[..n], digest);
      ScopeIsLatest(rules, store, events[..n]);
      PerformImport(rules, store, Replay(rules, store, events[..n]).value, events[n].act, rules.digest(events[n]));
      StandingStep(rules, events, digest);
    }
  }

  lemma NoImportStands(rules: Rules, digest: Id)
    ensures !StandingImport(rules, [], digest)
  {
  }

  /** A closure whose results cover the cases and pass them all. */
  ghost predicate Covers(rules: Rules, store: Store, act: Act, cases: map<string, Case>) {
    && Passing(store, act) && ResultsHold(rules, store, ResultsIn(store, act), cases, TurnsIn(store, act), {})
  }

  /** The cycle `start` ran under the profile and passed every one of its cases at `i`. */
  ghost predicate Witness(rules: Rules, store: Store, events: seq<Event>, i: nat, start: Id,
                          profile: Option<Id>, cases: map<string, Case>) {
    && 0 < i < |events| && events[i].act.CycleFinished? && events[i].act.start == start
    && Covers(rules, store, events[i].act, cases)
    && events[i - 1].act == CycleStarted(profile) && rules.digest(events[i - 1]) == start
  }

  lemma PerformProfile(rules: Rules, store: Store, state: State, act: Act, digest: Id)
    requires Perform(rules, store, state, act, digest).Some?
    ensures var after := Perform(rules, store, state, act, digest).value;
            && (!ResetAct(store, state.scope, act) || !(act.Census? || act.ProfileFrozen?) ==>
                  after.profile == state.profile && after.cases == state.cases)
            && (Passing(store, act) ==>
                act.CycleFinished? && state.pending == Some(act.start) && Covers(rules, store, act, state.cases))
            && (act.CycleStarted? ==> act.profile == state.profile && state.profile.Some?)
  {
    hide CensusHolds, ImportHolds, CertificateHolds, Selected, TurnsOf, AllPass, ResultHolds, CasesHold;
  }

  /** The cycle that is pending was started under the current profile. */
  lemma PendingProfile(rules: Rules, store: Store, events: seq<Event>)
    requires Replay(rules, store, events).Some? && Replay(rules, store, events).value.pending.Some?
    ensures events != [] && Replay(rules, store, events).value.profile.Some?
    ensures events[|events| - 1].act == CycleStarted(Replay(rules, store, events).value.profile)
    ensures Replay(rules, store, events).value.pending == Some(rules.digest(events[|events| - 1]))
  {
    hide Perform, ResetAct, Passing, Covers;
    PendingIsLast(rules, store, events);
    var n := |events| - 1;
    PerformProfile(rules, store, Replay(rules, store, events[..n]).value, events[n].act, rules.digest(events[n]));
    CensusIsNoStart(events[n].act);
  }

  lemma CensusIsNoStart(act: Act)
    ensures act.CycleStarted? ==> !act.Census? && !act.ProfileFrozen?
  {
  }

  /** The cycles behind the successes, one or two of them, in order. */
  ghost predicate Witnessed(rules: Rules, store: Store, events: seq<Event>, successes: seq<Id>,
                            profile: Option<Id>, cases: map<string, Case>) {
    && |successes| <= 2 && (successes != [] ==> profile.Some?)
    && (|successes| == 1 ==> exists i: nat :: Witness(rules, store, events, i, successes[0], profile, cases))
    && (|successes| == 2 ==>
          exists i: nat, j: nat | i < j ::
            && Witness(rules, store, events, i, successes[0], profile, cases)
            && Witness(rules, store, events, j, successes[1], profile, cases))
  }

  lemma WitnessLater(rules: Rules, store: Store, events: seq<Event>, i: nat, start: Id,
                     profile: Option<Id>, cases: map<string, Case>)
    requires events != [] && Witness(rules, store, events[..|events| - 1], i, start, profile, cases)
    ensures Witness(rules, store, events, i, start, profile, cases)
  {
    hide Covers;
  }

  lemma WitnessedLater(rules: Rules, store: Store, events: seq<Event>, successes: seq<Id>,
                       profile: Option<Id>, cases: map<string, Case>)
    requires events != [] && Witnessed(rules, store, events[..|events| - 1], successes, profile, cases)
    ensures Witnessed(rules, store, events, successes, profile, cases)
  {
    hide Witness;
    var before := events[..|events| - 1];
    if |successes| == 1 {
      var i: nat :| Witness(rules, store, before, i, successes[0], profile, cases);
      WitnessLater(rules, store, events, i, successes[0], profile, cases);
    } else if |successes| == 2 {
      var i: nat, j: nat :| i < j && Witness(rules, store, before, i, successes[0], profile, cases)
                            && Witness(rules, store, before, j, successes[1], profile, cases);
      WitnessLater(rules, store, events, i, successes[0], profile, cases);
      WitnessLater(rules, store, events, j, successes[1], profile, cases);
    }
  }

  lemma WitnessedMore(rules: Rules, store: Store, events: seq<Event>, successes: seq<Id>, start: Id,
                      profile: Option<Id>, cases: map<string, Case>)
    requires events != [] && Witnessed(rules, store, events[..|events| - 1], successes, profile, cases) && profile.Some?
    requires Witness(rules, store, events, |events| - 1, start, profile, cases)
    ensures Witnessed(rules, store, events, LastOne(successes) + [start], profile, cases)
  {
    var before, n := events[..|events| - 1], |events| - 1;
    var more := LastOne(successes) + [start];
    if successes != [] {
      var last := successes[|successes| - 1];
      var i: nat :| Witness(rules, store, before, i, last, profile, cases);
      WitnessLater(rules, store, events, i, last, profile, cases);
      hide Witness;
      assert more[0] == last && more[1] == start && i < n;
    } else {
      hide Witness;
      assert more == [start] && more[0] == start;
      assert Witness(rules, store, events, n, more[0], profile, cases);
    }
  }

  /** Every success is a whole passing cycle of the current profile. */
  lemma {:induction false} SuccessesAreWitnessed(rules: Rules, store: Store, events: seq<Event>)
    requires Replay(rules, store, events).Some?
    ensures var state := Replay(rules, store, events).value;
            Witnessed(rules, store, events, state.successes, state.profile, state.cases)
  {
    hide Perform, ResetAct, Passing, Covers, Witness;
    if events == [] {
      NothingYet(rules, store);
    } else {
      var n := |events| - 1;
      var before, after := Replay(rules, store, events[..n]).value, Replay(rules, store, events).value;
      SuccessesAreWitnessed(rules, store, events[..n]);
      SuccessStep(rules, store, events);
      ScopeIsLatest(rules, store, events[..n]);
      PerformProfile(rules, store, before, events[n].act, rules.digest(events[n]));
      if Resets(store, events, n) {
        NobodyWitnessed(rules, store, events, after.profile, after.cases);
      } else if Passing(store, events[n].act) {
        PendingProfile(rules, store, events[..n]);
        NewWitness(rules, store, events, after.profile, after.cases);
        WitnessedMore(rules, store, events, before.successes, events[n].act.start, after.profile, after.cases);
      } else {
        WitnessedLater(rules, store, events, after.successes, after.profile, after.cases);
      }
    }
  }

  lemma NobodyWitnessed(rules: Rules, store: Store, events: seq<Event>, profile: Option<Id>, cases: map<string, Case>)
    ensures Witnessed(rules, store, events, [], profile, cases)
  {
  }

  lemma NewWitness(rules: Rules, store: Store, events: seq<Event>, profile: Option<Id>, cases: map<string, Case>)
    requires |events| > 1 && Covers(rules, store, events[|events| - 1].act, cases)
    requires events[|events| - 2].act == CycleStarted(profile)
    requires events[|events| - 1].act.CycleFinished?
    requires events[|events| - 1].act.start == rules.digest(events[|events| - 2])
    ensures Witness(rules, store, events, |events| - 1, events[|events| - 1].act.start, profile, cases)
  {
  }

  /** One case of a cycle, in full: it passed, every declared probe passed and no
      other was reported, and turns stand behind it. */
  ghost predicate CasePassed(store: Store, act: Act, declared: Case) {
    exists i | 0 <= i < |ResultsIn(store, act)| ::
      var result := ResultsIn(store, act)[i];
      && result.caseId == declared.id && result.verdict.Pass? && result.reasons == []
      && (forall probe | probe in result.probes :: probe.passed)
      && (set name | name in ProbeNames(result.probes)) == (set name | name in declared.probes)
      && declared.id in TurnsIn(store, act) && TurnsIn(store, act)[declared.id] != map[]
      && TurnsIn(store, act)[declared.id].Keys <= Consumed(store, act)
  }

  lemma TurnsAreConsumed(results: seq<Result>, turns: map<string, map<string, Id>>, i: nat)
    requires i < |results| && results[i].caseId in turns
    ensures turns[results[i].caseId].Keys <= TurnsOf(results, turns)
  {
  }

  lemma CoveringResult(rules: Rules, store: Store, act: Act, cases: map<string, Case>, id: string) returns (i: nat)
    requires Covers(rules, store, act, cases) && id in cases
    ensures i < |ResultsIn(store, act)| && ResultsIn(store, act)[i].caseId == id
    ensures ResultsIn(store, act)[i].verdict.Pass?
    ensures ResultHolds(rules, store, ResultsIn(store, act)[i], cases, TurnsIn(store, act))
  {
    hide ResultHolds, TurnsOf;
    var results := ResultsIn(store, act);
    i :| 0 <= i < |results| && results[i].caseId == id;
    assert results[i] in results;
  }

  lemma CoversEveryCase(rules: Rules, store: Store, act: Act, cases: map<string, Case>, id: string)
    requires Covers(rules, store, act, cases) && id in cases && cases[id].id == id
    ensures CasePassed(store, act, cases[id])
  {
    hide Covers, AllDistinct, TurnsOf, ResultsIn, TurnsIn;
    var i := CoveringResult(rules, store, act, cases, id);
    TurnsAreConsumed(ResultsIn(store, act), TurnsIn(store, act), i);
  }

  /** The cases that a profile froze. */
  function FrozenIn(store: Store, act: Act): seq<Case> {
    if act.ProfileFrozen? && act.cases in store && store[act.cases].body.CasesDocument?
    then store[act.cases].body.cases else []
  }

  lemma {:induction false} SelectedAll(cases: seq<Case>, i: nat)
    requires i < |cases| && forall j, k | 0 <= j < k < |cases| :: cases[j].id != cases[k].id
    ensures cases[i].id in Selected(cases) && Selected(cases)[cases[i].id] == cases[i]
    decreases |cases|
  {
    var n := |cases| - 1;
    if i < n {
      SelectedAll(cases[..n], i);
    }
  }

  /** A profile freezes at least one case, and no two of one name. */
  lemma FrozenHolds(rules: Rules, store: Store, events: seq<Event>, p: nat)
    requires Replay(rules, store, events).Some? && p < |events| && events[p].act.ProfileFrozen?
    ensures CasesHold(rules, FrozenIn(store, events[p].act))
  {
    hide CasesHold;
    ReplayPrefix(rules, store, events, p + 1);
    assert events[..p + 1][..p] == events[..p];
  }

  /** The profile that the ledger names is one in force. */
  lemma SomeInForce(rules: Rules, store: Store, events: seq<Event>) returns (p: nat)
    requires Replay(rules, store, events).Some? && Replay(rules, store, events).value.profile.Some?
    ensures InForce(events, p) && Replay(rules, store, events).value.profile == Some(rules.digest(events[p]))
    ensures Replay(rules, store, events).value.bindings == Some(events[p].act.bindings)
    ensures Replay(rules, store, events).value.cases == Selected(FrozenIn(store, events[p].act))
  {
    hide Replay, InForce, Selected;
    ProfileMeans(rules, store, events, 0);
    p :| InForce(events, p);
    ProfileMeans(rules, store, events, p);
    InForceIsProfile(events, p);
  }

  lemma InForceIsProfile(events: seq<Event>, p: nat)
    requires InForce(events, p)
    ensures p < |events| && events[p].act.ProfileFrozen?
  {
  }

  /** Two different cycles closed at `i` and `j`, the earlier first, both started under
      the profile that was frozen at `p` and is in force. Each passed every case the
      profile froze, of which there is one at least, on turns of its own that no other
      event of the whole chronology used. */
  ghost predicate WholeCycles(rules: Rules, store: Store, events: seq<Event>, p: nat, i: nat, j: nat) {
    && p < |events| && 0 < i < j < |events| && InForce(events, p) && FrozenIn(store, events[p].act) != []
    && events[i].act.CycleFinished? && events[j].act.CycleFinished? && events[i].act.start != events[j].act.start
    && events[i - 1].act == events[j - 1].act == CycleStarted(Some(rules.digest(events[p])))
    && (forall declared | declared in FrozenIn(store, events[p].act) ::
          CasePassed(store, events[i].act, declared) && CasePassed(store, events[j].act, declared))
    && Consumed(store, events[i].act) != {} && Consumed(store, events[j].act) != {}
    && (forall k | 0 <= k < |events| && k != i :: Consumed(store, events[i].act) !! Consumed(store, events[k].act))
    && (forall k | 0 <= k < |events| && k != j :: Consumed(store, events[j].act) !! Consumed(store, events[k].act))
  }

  lemma PassedConsumes(store: Store, act: Act, declared: Case)
    requires CasePassed(store, act, declared)
    ensures Consumed(store, act) != {}
  {
    hide Consumed;
    var turns := TurnsIn(store, act)[declared.id];
    assert turns.Keys != {};
    var turn :| turn in turns;
    assert turn in turns.Keys;
  }

  lemma CasesArePassed(rules: Rules, store: Store, act: Act, frozen: seq<Case>)
    requires CasesHold(rules, frozen) && Covers(rules, store, act, Selected(frozen))
    ensures frozen != [] && Consumed(store, act) != {}
    ensures forall declared | declared in frozen :: CasePassed(store, act, declared)
  {
    hide Covers, CasePassed, Consumed, Selected;
    forall declared | declared in frozen ensures CasePassed(store, act, declared) {
      var i: nat :| i < |frozen| && frozen[i] == declared;
      SelectedAll(frozen, i);
      CoversEveryCase(rules, store, act, Selected(frozen), declared.id);
    }
    PassedConsumes(store, act, frozen[0]);
  }

  /** Two successes are two such cycles. */
  lemma TwoWholeCycles(rules: Rules, store: Store, events: seq<Event>) returns (p: nat, i: nat, j: nat)
    requires rules.Apart(events) && Replay(rules, store, events).Some?
    requires |Replay(rules, store, events).value.successes| == 2
    ensures WholeCycles(rules, store, events, p, i, j)
    ensures Replay(rules, store, events).value.successes == [events[i].act.start, events[j].act.start]
    ensures Replay(rules, store, events).value.profile == Some(rules.digest(events[p]))
    ensures Replay(rules, store, events).value.bindings == Some(events[p].act.bindings)
  {
    hide Replay, Covers, Consumed, CasePassed, CasesHold, InForce, Selected;
    var state := Replay(rules, store, events).value;
    SuccessesAreWitnessed(rules, store, events);
    i, j :| i < j && Witness(rules, store, events, i, state.successes[0], state.profile, state.cases)
            && Witness(rules, store, events, j, state.successes[1], state.profile, state.cases);
    p := SomeInForce(rules, store, events);
    InForceIsProfile(events, p);
    FrozenHolds(rules, store, events, p);
    CasesArePassed(rules, store, events[i].act, FrozenIn(store, events[p].act));
    CasesArePassed(rules, store, events[j].act, FrozenIn(store, events[p].act));
    if events[i].act.start == events[j].act.start {
      StartsCloseOnce(rules, store, events, i, j);
    }
    forall k, l | 0 <= k < l < |events| ensures Consumed(store, events[k].act) !! Consumed(store, events[l].act) {
      NoTurnTwice(rules, store, events, k, l);
    }
  }
}
