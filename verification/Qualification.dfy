/** Deriving a qualification from an authenticated history and an evidence frontier. */
module Qualification {
  import opened Wrappers
  import opened DurableFiles
  import opened MaterialPlan
  import opened EvidenceEvents
  import opened EvidenceMeaning

  /** One gap that the history still has; texts in UTF-8. */
  datatype Issue = Issue(source: Bytes, identity: Bytes, code: Bytes)

  /** The order of triples. */
  predicate Before(a: Issue, b: Issue) {
    || Below(a.source, b.source)
    || (a.source == b.source && (Below(a.identity, b.identity) || (a.identity == b.identity && Below(a.code, b.code))))
  }

  lemma BeforeIsTotal(a: Issue, b: Issue)
    ensures a == b || Before(a, b) || Before(b, a)
    ensures !(Before(a, b) && Before(b, a))
  {
    BelowIsTotal(a.source, b.source);
    BelowIsTotal(a.identity, b.identity);
    BelowIsTotal(a.code, b.code);
  }

  lemma BeforeIsTransitive(a: Issue, b: Issue, c: Issue)
    requires Before(a, b) && Before(b, c)
    ensures Before(a, c)
  {
    if Below(a.source, b.source) && Below(b.source, c.source) {
      BelowIsTransitive(a.source, b.source, c.source);
    } else if a.source == b.source == c.source {
      if Below(a.identity, b.identity) && Below(b.identity, c.identity) {
        BelowIsTransitive(a.identity, b.identity, c.identity);
      } else if a.identity == b.identity == c.identity {
        BelowIsTransitive(a.code, b.code, c.code);
      }
    }
  }

  predicate Ordered(issues: seq<Issue>) {
    forall i, j | 0 <= i < j < |issues| :: !Before(issues[j], issues[i])
  }

  function Insert(issue: Issue, issues: seq<Issue>): (inserted: seq<Issue>)
    ensures multiset(inserted) == multiset{issue} + multiset(issues)
  {
    if issues == [] || !Before(issues[0], issue) then [issue] + issues
    else
      assert issues == [issues[0]] + issues[1..];
      [issues[0]] + Insert(issue, issues[1..])
  }

  function Sort(issues: seq<Issue>): (sorted: seq<Issue>)
    ensures multiset(sorted) == multiset(issues)
  {
    if issues == [] then []
    else
      assert issues == [issues[0]] + issues[1..];
      Insert(issues[0], Sort(issues[1..]))
  }

  lemma {:induction false} InsertKeepsOrder(issue: Issue, issues: seq<Issue>)
    requires Ordered(issues)
    ensures Ordered(Insert(issue, issues))
  {
    if issues != [] {
      BeforeIsTotal(issues[0], issue);
      if !Before(issues[0], issue) {
        forall j | 0 <= j < |issues| ensures !Before(issues[j], issue) {
          if j > 0 && Before(issues[j], issue) && issue != issues[0] {
            BeforeIsTransitive(issues[j], issue, issues[0]);
          }
        }
      } else {
        InsertKeepsOrder(issue, issues[1..]);
        var rest := Insert(issue, issues[1..]);
        forall j | 0 <= j < |rest| ensures !Before(rest[j], issues[0]) {
          assert rest[j] in multiset(rest);
          if rest[j] != issue {
            assert rest[j] in multiset(issues[1..]);
            var k :| 0 <= k < |issues[1..]| && issues[1..][k] == rest[j];
            assert issues[k + 1] == rest[j];
          }
        }
      }
    }
  }

  lemma {:induction false} SortIsOrdered(issues: seq<Issue>)
    ensures Ordered(Sort(issues))
  {
    if issues != [] {
      SortIsOrdered(issues[1..]);
      InsertKeepsOrder(issues[0], Sort(issues[1..]));
    }
  }

  lemma FirstIsLeast(issues: seq<Issue>, issue: Issue)
    requires Ordered(issues) && issue in multiset(issues)
    ensures issues != [] && !Before(issue, issues[0])
  {
    var i :| 0 <= i < |issues| && issues[i] == issue;
    BeforeIsTotal(issue, issue);
  }

  lemma RestOf(issues: seq<Issue>)
    requires issues != []
    ensures multiset(issues[1..]) == multiset(issues) - multiset{issues[0]}
    ensures Ordered(issues) ==> Ordered(issues[1..])
  {
    assert issues == [issues[0]] + issues[1..];
  }

  lemma {:induction false} OneOrder(first: seq<Issue>, second: seq<Issue>)
    requires Ordered(first) && Ordered(second) && multiset(first) == multiset(second)
    ensures first == second
  {
    hide *;
    assert |first| == |multiset(first)| == |multiset(second)| == |second|;
    if first != [] {
      assert first[0] in multiset(first) && second[0] in multiset(second);
      FirstIsLeast(second, first[0]);
      FirstIsLeast(first, second[0]);
      BeforeIsTotal(first[0], second[0]);
      RestOf(first);
      RestOf(second);
      OneOrder(first[1..], second[1..]);
      assert first == [first[0]] + first[1..] && second == [second[0]] + second[1..];
    }
  }

  /** The name of exactly the gaps a history has. */
  function ScopeId(digest: seq<Issue> -> Id, issues: seq<Issue>): Id {
    digest(Sort(issues))
  }

  /** Two histories share a scope exactly when they have the same gaps, however they
      list them, unless their two sorted lists collide. */
  lemma ScopeNamesTheGaps(digest: seq<Issue> -> Id, first: seq<Issue>, second: seq<Issue>)
    requires digest(Sort(first)) == digest(Sort(second)) ==> Sort(first) == Sort(second)
    ensures ScopeId(digest, first) == ScopeId(digest, second) <==> multiset(first) == multiset(second)
  {
    SortIsOrdered(first);
    SortIsOrdered(second);
    if multiset(first) == multiset(second) {
      OneOrder(Sort(first), Sort(second));
    } else {
      assert multiset(Sort(first)) != multiset(Sort(second));
    }
  }

  const MINIMUM_ADMISSIONS := 5
  const MINIMUM_PRODUCERS := 2
  const REQUIRED_CYCLES := 2

  /** The authenticated history: its head, admissions by receipt, issuers and gaps. */
  datatype Reconciliation = Reconciliation(requiredHead: string, receipts: seq<string>, issuers: seq<string>,
                                           issues: seq<Issue>)

  /** The observed frontier of a ledger. */
  datatype Frontier = Frontier(
    head: Option<Id>, scope: Option<Id>, openFindings: set<string>, profile: Option<Id>, successes: seq<Id>,
    pending: Option<Id>, bindings: Option<Bindings>, imported: Option<Id>)

  function FrontierOf(state: State): Frontier {
    Frontier(state.head, state.scope, (set finding | finding in state.findings && state.findings[finding].Some?),
             state.profile, state.successes, state.pending, state.bindings, state.imported)
  }

  /** Cycles imported from another installation, verified by their owner. */
  datatype Operational = Operational(importId: Id, destinationHead: string, profile: Id, cycles: seq<Id>,
                                     predecessor: Option<Id>)

  datatype Qualified = Qualified(
    requiredHead: string, evidenceHead: Option<Id>, scope: Id, profile: Id, cycles: seq<Id>,
    receipts: set<string>, producers: seq<string>, operational: Option<Operational>)

  datatype Refusal =
    | InputInvalid | CensusAbsent | UndisclosedGap | OpenDefect | CycleOpen | ImportUnverified
    | ProfileAbsent | BindingsAbsent | HeadMismatch | ImportMismatch | CyclesInsufficient
    | AdmissionsInsufficient | ProducersInsufficient | DuplicateAdmission

  datatype Derivation = Derived(value: Qualified) | NotYet(why: Refusal)

  /** The profile and the cycles to count: the ledger's own, or the imported ones. */
  datatype Cycles = Counted(profile: Id, cycles: seq<Id>) | Uncounted(why: Refusal)

  function CyclesToCount(requiredHead: string, frontier: Frontier, operational: Option<Operational>): Cycles {
    match operational
    case None =>
      if frontier.imported.Some? then Uncounted(ImportUnverified)
      else if frontier.profile.None? then Uncounted(ProfileAbsent)
      else if frontier.bindings.None? then Uncounted(BindingsAbsent)
      else if frontier.bindings.value.head != requiredHead then Uncounted(HeadMismatch)
      else Counted(frontier.profile.value, frontier.successes)
    case Some(evidence) =>
      if frontier.imported != Some(evidence.importId) || evidence.destinationHead != requiredHead
         then Uncounted(ImportMismatch)
      else Counted(evidence.profile, evidence.cycles)
  }

  function SetOf(texts: seq<string>): set<string> {
    set text | text in texts
  }

  function Derive(digest: seq<Issue> -> Id, history: Reconciliation, frontier: Frontier,
                  operational: Option<Operational>): Derivation {
    if history.requiredHead == "" then NotYet(InputInvalid)
    else if frontier.scope.None? then NotYet(CensusAbsent)
    else if frontier.scope.value != ScopeId(digest, history.issues) then NotYet(UndisclosedGap)
    else if frontier.openFindings != {} then NotYet(OpenDefect)
    else if frontier.pending.Some? then NotYet(CycleOpen)
    else
      var counted := CyclesToCount(history.requiredHead, frontier, operational);
      if counted.Uncounted? then NotYet(counted.why)
      else if |counted.cycles| != REQUIRED_CYCLES || |SetOf(counted.cycles)| != |counted.cycles|
        then NotYet(CyclesInsufficient)
      else if |history.receipts| < MINIMUM_ADMISSIONS then NotYet(AdmissionsInsufficient)
      else if |history.issuers| < MINIMUM_PRODUCERS then NotYet(ProducersInsufficient)
      else if |SetOf(history.receipts)| != |history.receipts| then NotYet(DuplicateAdmission)
      else Derived(Qualified(history.requiredHead, frontier.head, frontier.scope.value, counted.profile, counted.cycles,
                             SetOf(history.receipts), history.issuers, operational))
  }

  /** As many different texts as places: no text is repeated. */
  lemma {:induction false} CountsDistinct(texts: seq<string>)
    ensures |SetOf(texts)| <= |texts|
    ensures |SetOf(texts)| == |texts| <==> AllDistinct(texts)
  {
    if texts != [] {
      var n := |texts| - 1;
      var before := texts[..n];
      CountsDistinct(before);
      assert SetOf(texts) == SetOf(before) + {texts[n]};
      if texts[n] in before {
        var i :| 0 <= i < n && before[i] == texts[n];
        assert texts[i] == texts[n] && SetOf(texts) == SetOf(before);
      } else {
        assert forall i | 0 <= i < n :: texts[i] == before[i];
      }
    }
  }

  /** The history passes the rest of the threshold: enough admissions, none twice,
      from enough producers, and exactly the gaps that the latest census declared. */
  predicate HistorySuffices(digest: seq<Issue> -> Id, history: Reconciliation, events: seq<Event>) {
    && history.requiredHead != "" && ScopeOf(events) == Some(ScopeId(digest, history.issues))
    && AllDistinct(history.receipts) && |history.receipts| >= MINIMUM_ADMISSIONS
    && |history.issuers| >= MINIMUM_PRODUCERS
  }

  lemma DerivedIsClean(rules: Rules, store: Store, events: seq<Event>, digest: seq<Issue> -> Id,
                       history: Reconciliation,
                       operational: Option<Operational>)
    requires Replay(rules, store, events).Some?
    requires Derive(digest, history, FrontierOf(Replay(rules, store, events).value), operational).Derived?
    ensures HistorySuffices(digest, history, events) && NothingReported(rules, events)
  {
    hide Replay, LatestReport, ScopeOf, AllDistinct, ScopeId;
    var state := Replay(rules, store, events).value;
    ScopeIsLatest(rules, store, events);
    CountsDistinct(history.receipts);
    forall finding, report ensures !LatestReport(rules, events, finding, report) {
      OpenFindingsMean(rules, store, events, finding, report);
      NothingOpen(state, finding);
    }
  }

  /** What a qualification records: the head and the scope of the very chronology, and
      the admissions and producers of the history, every one and no other. */
  ghost predicate RecordsBoth(rules: Rules, events: seq<Event>, history: Reconciliation, qualified: Qualified) {
    && events != [] && qualified.requiredHead == history.requiredHead
    && qualified.evidenceHead == Some(rules.digest(events[|events| - 1])) && Some(qualified.scope) == ScopeOf(events)
    && (forall receipt :: receipt in qualified.receipts <==> receipt in history.receipts)
    && |qualified.receipts| == |history.receipts| >= MINIMUM_ADMISSIONS
    && qualified.producers == history.issuers && |history.issuers| >= MINIMUM_PRODUCERS
  }

  lemma DerivedRecords(rules: Rules, store: Store, events: seq<Event>, digest: seq<Issue> -> Id,
                       history: Reconciliation, operational: Option<Operational>)
    requires Replay(rules, store, events).Some?
    requires Derive(digest, history, FrontierOf(Replay(rules, store, events).value), operational).Derived?
    ensures var qualified := Derive(digest, history, FrontierOf(Replay(rules, store, events).value), operational).value;
            RecordsBoth(rules, events, history, qualified) && qualified.operational == operational
  {
    hide Replay, ScopeId;
    ScopeIsLatest(rules, store, events);
    ReplayCounts(rules, store, events);
    if events == [] {
      NoScope();
    }
  }

  lemma NoScope()
    ensures ScopeOf([]) == None
  {
  }

  lemma NothingOpen(state: State, finding: string)
    requires FrontierOf(state).openFindings == {}
    ensures StatusOf(state, finding).None?
  {
    assert finding in FrontierOf(state).openFindings <==> finding in state.findings && state.findings[finding].Some?;
  }

  /** A qualification derived from the installation's own ledger: two whole cycles of
      the profile in force, bound to the required head; no finding reported since its
      last settlement; the gaps the census declared; five different admissions. */
  lemma LocalQualificationMeans(rules: Rules, store: Store, events: seq<Event>, digest: seq<Issue> -> Id,
                                history: Reconciliation)
      returns (p: nat, i: nat, j: nat)
    requires rules.Apart(events) && Replay(rules, store, events).Some?
    requires Derive(digest, history, FrontierOf(Replay(rules, store, events).value), None).Derived?
    ensures var qualified := Derive(digest, history, FrontierOf(Replay(rules, store, events).value), None).value;
            && WholeCycles(rules, store, events, p, i, j)
            && qualified.cycles == [events[i].act.start, events[j].act.start]
            && qualified.profile == rules.digest(events[p]) && events[p].act.bindings.head == history.requiredHead
            && (forall digest :: !StandingImport(rules, events, digest))
            && HistorySuffices(digest, history, events) && NothingReported(rules, events)
            && RecordsBoth(rules, events, history, qualified) && qualified.operational.None?
  {
    hide Replay, WholeCycles, NothingReported, HistorySuffices, StandingImport, ScopeId, ScopeOf, RecordsBoth;
    DerivedRecords(rules, store, events, digest, history, None);
    p, i, j := TwoWholeCycles(rules, store, events);
    DerivedIsClean(rules, store, events, digest, history, None);
    CyclesArePlaced(rules, store, events, p, i, j);
    forall imported ensures !StandingImport(rules, events, imported) {
      ImportMeans(rules, store, events, imported);
    }
  }

  lemma CyclesArePlaced(rules: Rules, store: Store, events: seq<Event>, p: nat, i: nat, j: nat)
    requires WholeCycles(rules, store, events, p, i, j)
    ensures p < |events| && 0 < i < j < |events| && events[p].act.ProfileFrozen?
    ensures events[i].act.CycleFinished? && events[j].act.CycleFinished? && events[i].act.start != events[j].act.start
  {
    hide CasePassed, Consumed, FrozenIn;
  }

  /** A qualification derived from cycles of another installation: the import stands
      at `m`, its whole export is stored, and since then no finding was reported, no
      scope or profile changed and no cycle of this installation began. */
  lemma ImportedQualificationMeans(rules: Rules, store: Store, events: seq<Event>, digest: seq<Issue> -> Id,
                                   history: Reconciliation, operational: Operational) returns (m: nat)
    requires Replay(rules, store, events).Some?
    requires Derive(digest, history, FrontierOf(Replay(rules, store, events).value), Some(operational)).Derived?
    ensures var qualified :=
      Derive(digest, history, FrontierOf(Replay(rules, store, events).value), Some(operational)).value;
            && ImportStands(events, m) && rules.digest(events[m]) == operational.importId
            && ImportHolds(store, events[m].act)
            && qualified.profile == operational.profile && qualified.cycles == operational.cycles
            && |qualified.cycles| == 2 && qualified.cycles[0] != qualified.cycles[1]
            && operational.destinationHead == history.requiredHead
            && (forall k | m < k < |events| :: !EndsImport(ScopeOf(events[..k]), events[k].act))
            && HistorySuffices(digest, history, events) && NothingReported(rules, events)
            && RecordsBoth(rules, events, history, qualified) && qualified.operational == Some(operational)
  {
    hide Replay, ScopeOf, NothingReported, HistorySuffices, ImportHolds, EndsImport, ScopeId, RecordsBoth;
    DerivedRecords(rules, store, events, digest, history, Some(operational));
    DerivedIsClean(rules, store, events, digest, history, Some(operational));
    ImportMeans(rules, store, events, operational.importId);
    m :| ImportStands(events, m) && rules.digest(events[m]) == operational.importId;
    ImportWasHeld(rules, store, events, m);
    CountsDistinct(operational.cycles);
  }

  lemma ImportWasHeld(rules: Rules, store: Store, events: seq<Event>, m: nat)
    requires Replay(rules, store, events).Some? && m < |events| && events[m].act.OperationalImport?
    ensures ImportHolds(store, events[m].act)
  {
    hide ImportHolds;
    ReplayPrefix(rules, store, events, m + 1);
    assert events[..m + 1][..m] == events[..m];
  }

  /** The threshold in one formula: nothing else stands between the two observations
      and a qualification. */
  lemma DerivedExactly(digest: seq<Issue> -> Id, history: Reconciliation, frontier: Frontier,
                       operational: Option<Operational>)
    ensures Derive(digest, history, frontier, operational).Derived? <==>
      && history.requiredHead != "" && frontier.scope == Some(ScopeId(digest, history.issues))
      && frontier.openFindings == {} && frontier.pending.None?
      && AllDistinct(history.receipts) && |history.receipts| >= MINIMUM_ADMISSIONS
      && |history.issuers| >= MINIMUM_PRODUCERS
      && (if operational.None?
          then frontier.imported.None? && frontier.profile.Some? && frontier.bindings.Some?
               && frontier.bindings.value.head == history.requiredHead
               && |frontier.successes| == 2 && frontier.successes[0] != frontier.successes[1]
          else frontier.imported == Some(operational.value.importId)
               && operational.value.destinationHead == history.requiredHead
               && |operational.value.cycles| == 2 && operational.value.cycles[0] != operational.value.cycles[1])
  {
    hide AllDistinct, ScopeId;
    CountsDistinct(history.receipts);
    var counted := CyclesToCount(history.requiredHead, frontier, operational);
    if counted.Counted? {
      CountsDistinct(counted.cycles);
      TwoDistinct(counted.cycles);
    }
  }

  lemma TwoDistinct(ids: seq<Id>)
    ensures |ids| == 2 ==> (AllDistinct(ids) <==> ids[0] != ids[1])
  {
  }

  /** Two cycles passed under the profile in force since the latest reset, and the
      profile is bound to the head. */
  ghost predicate OwnCyclesSuffice(store: Store, events: seq<Event>, requiredHead: string) {
    exists p: nat, k: nat ::
      && InForce(events, p) && events[p].act.bindings.head == requiredHead
      && SinceReset(store, events, k) && |PassedFrom(store, events, k)| >= 2
  }

  /** The ledger's own part of the threshold, read off the chronology. */
  lemma OwnCyclesExactly(rules: Rules, store: Store, events: seq<Event>, requiredHead: string)
    requires rules.Apart(events) && Replay(rules, store, events).Some?
    ensures var state := Replay(rules, store, events).value;
            (&& state.profile.Some? && state.bindings.Some? && state.bindings.value.head == requiredHead
             && |state.successes| == 2 && state.successes[0] != state.successes[1])
            <==> OwnCyclesSuffice(store, events, requiredHead)
  {
    hide Replay, InForce, SinceReset, WholeCycles, PassedFrom;
    var state := Replay(rules, store, events).value;
    forall k: nat | SinceReset(store, events, k)
      ensures |state.successes| == 2 <==> |PassedFrom(store, events, k)| >= 2
    {
      SuccessesMean(rules, store, events, k);
    }
    if |state.successes| == 2 {
      var p, i, j := TwoWholeCycles(rules, store, events);
      CyclesArePlaced(rules, store, events, p, i, j);
    }
    var k := SomeStretch(store, events);
    if state.profile.Some? {
      var p := SomeInForce(rules, store, events);
      InForceIsProfile(events, p);
      assert InForce(events, p) && SinceReset(store, events, k);
    }
    forall p: nat | InForce(events, p)
      ensures p < |events| && events[p].act.ProfileFrozen?
      ensures state.profile.Some? && state.bindings == Some(events[p].act.bindings)
    {
      InForceIsProfile(events, p);
      ProfileMeans(rules, store, events, p);
    }
  }

  /** A qualification is derived exactly when the chronology and the history meet the
      whole threshold: nothing reported is unsettled, no cycle is under way, and either
      no import stands and two own cycles passed since the latest reset, or the import
      that stands is the one whose two cycles are offered. */
  lemma QualifiesExactly(rules: Rules, store: Store, events: seq<Event>, digest: seq<Issue> -> Id,
                         history: Reconciliation,
                         operational: Option<Operational>)
    requires rules.Apart(events) && Replay(rules, store, events).Some?
    ensures Derive(digest, history, FrontierOf(Replay(rules, store, events).value), operational).Derived? <==>
      && HistorySuffices(digest, history, events) && NothingReported(rules, events)
      && (events == [] || !events[|events| - 1].act.CycleStarted?)
      && (if operational.None?
          then (forall imported :: !StandingImport(rules, events, imported))
               && OwnCyclesSuffice(store, events, history.requiredHead)
          else StandingImport(rules, events, operational.value.importId)
               && operational.value.destinationHead == history.requiredHead
               && |operational.value.cycles| == 2 && operational.value.cycles[0] != operational.value.cycles[1])
  {
    hide Replay, StandingImport, OwnCyclesSuffice, ScopeOf, ScopeId, AllDistinct, LatestReport, Derive, StatusOf;
    var state := Replay(rules, store, events).value;
    DerivedExactly(digest, history, FrontierOf(state), operational);
    ScopeIsLatest(rules, store, events);
    PendingIsLast(rules, store, events);
    OwnCyclesExactly(rules, store, events, history.requiredHead);
    FindingsExactly(rules, store, events);
    forall imported ensures state.imported == Some(imported) <==> StandingImport(rules, events, imported) {
      ImportMeans(rules, store, events, imported);
    }
  }

  lemma FindingsExactly(rules: Rules, store: Store, events: seq<Event>)
    requires Replay(rules, store, events).Some?
    ensures FrontierOf(Replay(rules, store, events).value).openFindings == {} <==> NothingReported(rules, events)
  {
    hide Replay, NothingReported;
    NothingOpenExactly(rules, store, events);
    OpenFindingsAre(Replay(rules, store, events).value);
  }

  lemma OpenFindingsAre(state: State)
    ensures FrontierOf(state).openFindings == {} <==> forall finding :: StatusOf(state, finding).None?
  {
    forall finding ensures finding in FrontierOf(state).openFindings <==> StatusOf(state, finding).Some? {
    }
    if finding :| finding in FrontierOf(state).openFindings {
      assert StatusOf(state, finding).Some?;
    }
  }
}
