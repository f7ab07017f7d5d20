/** Whole maintenance runs: any mix of operations, each stopped anywhere. */
module RetentionRuns {
  import opened Wrappers
  import opened DurableFiles
  import opened RetentionObjects
  import opened ReferenceGroups
  import opened RetentionJournal
  import opened LegalHolds
  import opened RetentionSession

  datatype Operation =
    | Begin(candidates: seq<OwnerObject>, runId: string, at: Instant, keyId: string, digest: Identity -> int)
    | Resume(maxObjects: nat, groupsInTime: nat)
    | Finish(preserve: bool, recovered: bool)
    | ChangeHolds(holds: Holding, expected: Option<Holding>)

  /** One administrative command: what it does, what it can see, when it dies. */
  datatype Command = Command(operation: Operation, owners: set<string>, stop: Option<nat>)

  /** What an observer sees between two commands. */
  datatype View = View(objects: Stores, held: Holding, candidates: seq<OwnerObject>, barrier: bool, rows: seq<Row>)

  /** A group some of whose objects are gone while others are still there. */
  ghost predicate Partial(rows: seq<Row>, stores: Stores, group: nat) {
    exists i, j | 0 <= i < |rows| && 0 <= j < |rows| ::
      && rows[i].intent.group == group && rows[j].intent.group == group
      && rows[i].intent.identity !in stores && rows[j].intent.identity in stores
  }

  /** Where a journal's deletions stand. */
  lemma AbsentIsPrefix(rows: seq<Row>, stores: Stores, done: nat) returns (gone: nat)
    requires Deleting(rows, stores, done)
    ensures gone in {done, done + 1} && gone <= |rows|
    ensures forall i | 0 <= i < |rows| :: rows[i].intent.identity !in stores <==> i < gone
  {
    gone := if done < |rows| && rows[done].intent.identity !in stores then done + 1 else done;
  }

  /** A partial group straddles the end of the absent prefix. */
  lemma PartialIsAtTheEdge(rows: seq<Row>, stores: Stores, gone: nat, group: nat)
    requires Contiguous(Intents(rows)) && gone <= |rows|
    requires forall i | 0 <= i < |rows| :: rows[i].intent.identity !in stores <==> i < gone
    requires Partial(rows, stores, group)
    ensures 0 < gone < |rows| && rows[gone].intent.group == group
  {
    var i, j :| 0 <= i < |rows| && 0 <= j < |rows| && rows[i].intent.group == group && rows[j].intent.group == group
                && rows[i].intent.identity !in stores && rows[j].intent.identity in stores;
    GroupsGrow(Intents(rows), i, gone);
    GroupsGrow(Intents(rows), gone, j);
  }

  /** At most one reference group of an active run is ever partly gone. */
  lemma AtMostOnePartial(rows: seq<Row>, stores: Stores, done: nat, g: nat, h: nat)
    requires Contiguous(Intents(rows)) && Deleting(rows, stores, done)
    requires Partial(rows, stores, g) && Partial(rows, stores, h)
    ensures g == h
  {
    var gone := AbsentIsPrefix(rows, stores, done);
    PartialIsAtTheEdge(rows, stores, gone, g);
    PartialIsAtTheEdge(rows, stores, gone, h);
  }

  lemma ReconciledIsNotPartial(rows: seq<Row>, stores: Stores, gone: nat, group: nat)
    requires Contiguous(Intents(rows)) && Reconciled(rows, stores, gone)
    ensures !Partial(rows, stores, group)
  {
    if Partial(rows, stores, group) {
      PartialIsAtTheEdge(rows, stores, gone, group);
      GroupsGrow(Intents(rows), gone - 1, gone);
      var i :| 0 <= i < |rows| && rows[i].intent.group == group && rows[i].intent.identity !in stores;
      GroupsGrow(Intents(rows), i, gone - 1);
    }
  }

  ghost predicate OnePartialGroup(rows: seq<Row>, stores: Stores) {
    forall g, h | Partial(rows, stores, g) && Partial(rows, stores, h) :: g == h
  }

  lemma ActiveHasOnePartialGroup(journal: Journal, marker: Marker, holds: Option<Holding>, stores: Stores,
                                 candidates: seq<OwnerObject>, keys: set<string>)
    requires ActiveJournal(journal, marker, holds, stores, candidates, keys)
    ensures OnePartialGroup(journal.rows, stores)
  {
    forall g, h | Partial(journal.rows, stores, g) && Partial(journal.rows, stores, h) ensures g == h {
      if done: nat :| Deleting(journal.rows, stores, done) {
        AtMostOnePartial(journal.rows, stores, done, g, h);
      } else {
        var gone: nat :| Reconciled(journal.rows, stores, gone);
        ReconciledIsNotPartial(journal.rows, stores, gone, g);
      }
    }
  }

  /** What no step of any history may do. */
  ghost predicate SafeStep(before: View, after: View) {
    && (forall id | id in after.objects :: id in before.objects && before.objects[id] == after.objects[id])
    && (forall id | id in before.objects && id !in after.objects ::
          before.barrier && id !in before.held && IsCandidate(before.candidates, id))
    && (before.barrier && after.barrier ==> after.candidates == before.candidates && after.held == before.held)
    && (before.barrier && !after.barrier ==> ReferentiallySound(before.candidates, after.objects))
    && (after.barrier ==> OnePartialGroup(after.rows, after.objects))
  }

  ghost function Look(session: Maintenance): View
    reads session, session.disk`files, session.stores`objects
  {
    View(session.stores.objects, session.Held(), session.planned, Final(Active) in session.disk.files,
         session.ActiveRows())
  }

  /** Nothing was deleted while the barrier stayed as it was or went up. */
  lemma QuietIsSafe(before: View, after: View)
    requires after.objects == before.objects && (before.barrier ==> after.barrier)
    requires before.barrier ==> after.candidates == before.candidates && after.held == before.held
    requires after.barrier ==> OnePartialGroup(after.rows, after.objects)
    ensures SafeStep(before, after)
  {
  }

  lemma DeletionIsSafe(before: View, after: View)
    requires OnlyCandidatesGone(before.objects, after.objects, before.candidates, before.held)
    requires before.barrier && after.barrier && after.candidates == before.candidates && after.held == before.held
    requires OnePartialGroup(after.rows, after.objects)
    ensures SafeStep(before, after)
  {
  }

  lemma LoweringIsSafe(before: View, after: View)
    requires after.objects == before.objects && before.barrier && !after.barrier
    requires ReferentiallySound(before.candidates, after.objects)
    ensures SafeStep(before, after)
  {
  }

  lemma BarrierHasOnePartialGroup(session: Maintenance)
    requires session.Valid()
    ensures Look(session).barrier ==> OnePartialGroup(Look(session).rows, Look(session).objects)
  {
    if Look(session).barrier {
      var marker := session.ActiveMarker().value;
      ActiveHasOnePartialGroup(session.journals[marker.runId], marker, HoldsInForce(session.texts, session.disk.files),
                               session.stores.objects, session.planned, session.keys);
    }
  }

  /** What a command answers, and what its answer says about the state it leaves. */
  ghost predicate Obeys(before: View, command: Command, r: Outcome, after: View) {
    && (command.stop.None? ==> !r.Stopped?)
    && match command.operation
       case Begin(candidates, _, _, _, _) =>
         && (before.barrier ==> r.Refused?)
         && (r.Done? ==> after.barrier && after.candidates == candidates && OpenCount(after.rows) == |after.rows|)
       case Resume(maxObjects, groupsInTime) =>
         && (r.Refused? <==> maxObjects == 0 || !before.barrier || !OwnersKnown(before.rows, command.owners))
         && (r.Done? ==> OpenCount(after.rows) <= OpenCount(before.rows) <= OpenCount(after.rows) + maxObjects)
         && (r.Done? && OpenCount(before.rows) <= maxObjects && |after.rows| <= groupsInTime ==>
               OpenCount(after.rows) == 0)
       case Finish(preserve, recovered) =>
         && (r.Done? ==> before.barrier && !after.barrier)
         && (recovered ==>
               (!r.Refused? <==> && before.barrier && OwnersKnown(before.rows, command.owners)
                                 && (preserve || !Unfinished(before.rows, before.objects))
                                 && AllOrNone(before.rows, before.objects)))
       case ChangeHolds(holds, _) =>
         && (before.barrier ==> r.Refused?) && (r.Done? ==> after.held == holds)
         && (r.Refused? ==> after.held == before.held)
  }

  method ExecuteBegin(session: Maintenance, candidates: seq<OwnerObject>, runId: string, at: Instant, keyId: string,
                      digest: Identity -> int, owners: set<string>) returns (r: Outcome)
    requires session.Valid()
    modifies session`journals, session`planned, session.disk`files, session.disk`stop
    ensures session.Valid() && SafeStep(old(Look(session)), Look(session))
    ensures Obeys(old(Look(session)),
                  Command(Begin(candidates, runId, at, keyId, digest), owners, old(session.disk.stop)), r,
                  Look(session))
    ensures old(session.Ready(candidates, runId, at, keyId, owners)) ==> !r.Refused?
  {
    hide SafeStep, OnePartialGroup, Eligible, ReferentiallySound, Deleting, Planned, ActiveJournal, OpenCount;
    r := session.Begin(candidates, runId, at, keyId, owners, digest);
    if r.Done? {
      FrontierCount(session.ActiveRows(), session.stores.objects, 0);
    }
    BarrierHasOnePartialGroup(session);
    QuietIsSafe(old(Look(session)), Look(session));
  }

  method ExecuteResume(session: Maintenance, maxObjects: nat, groupsInTime: nat, owners: set<string>)
      returns (r: Outcome)
    requires session.Valid()
    modifies session`journals, session.disk`stop, session.stores`objects
    ensures session.Valid() && SafeStep(old(Look(session)), Look(session))
    ensures Obeys(old(Look(session)), Command(Resume(maxObjects, groupsInTime), owners, old(session.disk.stop)), r,
                  Look(session))
  {
    hide SafeStep, OnePartialGroup, ReferentiallySound, Deleting, Planned, ActiveJournal, OnlyCandidatesGone,
      OpenCount, AtBoundary, OwnersKnown, Exhausted;
    var report;
    r, report := session.Resume(owners, maxObjects, groupsInTime);
    BarrierHasOnePartialGroup(session);
    if Look(session).barrier {
      DeletionIsSafe(old(Look(session)), Look(session));
    } else {
      QuietIsSafe(old(Look(session)), Look(session));
    }
  }

  method ExecuteFinish(session: Maintenance, preserve: bool, recovered: bool, owners: set<string>) returns (r: Outcome)
    requires session.Valid()
    modifies session`journals, session.disk`files, session.disk`stop
    ensures session.Valid() && SafeStep(old(Look(session)), Look(session))
    ensures Obeys(old(Look(session)), Command(Finish(preserve, recovered), owners, old(session.disk.stop)), r,
                  Look(session))
  {
    hide SafeStep, OnePartialGroup, ReferentiallySound, Deleting, Planned, ActiveJournal, AllOrNone, Unfinished,
      OwnersKnown, GoneCount;
    var removed, kept;
    r, removed, kept := session.Finish(owners, preserve, recovered);
    BarrierHasOnePartialGroup(session);
    if r.Done? {
      LoweringIsSafe(old(Look(session)), Look(session));
    } else {
      QuietIsSafe(old(Look(session)), Look(session));
    }
  }

  method ExecuteChange(session: Maintenance, register: HoldRegister, holds: Holding, expected: Option<Holding>,
                       owners: set<string>)
      returns (r: Outcome)
    requires session.Valid() && register.disk == session.disk && register.texts == session.texts
    modifies session.disk`files, session.disk`stop
    ensures session.Valid() && SafeStep(old(Look(session)), Look(session))
    ensures Obeys(old(Look(session)), Command(ChangeHolds(holds, expected), owners, old(session.disk.stop)), r,
                  Look(session))
    ensures r.Refused? <==> UpdateRefused(session.texts, old(session.disk.files), holds, expected)
  {
    hide SafeStep, OnePartialGroup, ReferentiallySound, Deleting, Planned, ActiveJournal, Changing;
    r := register.Update(holds, expected);
    BarrierHasOnePartialGroup(session);
    QuietIsSafe(old(Look(session)), Look(session));
  }

  /** One command, wherever it dies. */
  method Execute(session: Maintenance, register: HoldRegister, command: Command) returns (r: Outcome)
    requires session.Valid() && register.disk == session.disk && register.texts == session.texts
    modifies session`journals, session`planned, session.disk`files, session.disk`stop, session.stores`objects
    ensures session.Valid() && SafeStep(old(Look(session)), Look(session))
    ensures Obeys(old(Look(session)), command, r, Look(session))
    ensures command.operation.Begin? && old(session.Ready(command.operation.candidates, command.operation.runId,
                                                          command.operation.at, command.operation.keyId,
                                                          command.owners))
            ==> !r.Refused?
    ensures command.operation.ChangeHolds? ==>
      (r.Refused? <==> UpdateRefused(session.texts, old(session.disk.files), command.operation.holds,
                                     command.operation.expected))
  {
    hide SafeStep, Obeys, UpdateRefused;
    session.disk.stop := command.stop;
    match command.operation {
      case Begin(candidates, runId, at, keyId, digest) =>
        r := ExecuteBegin(session, candidates, runId, at, keyId, digest, command.owners);
      case Resume(maxObjects, groupsInTime) =>
        r := ExecuteResume(session, maxObjects, groupsInTime, command.owners);
      case Finish(preserve, recovered) =>
        r := ExecuteFinish(session, preserve, recovered, command.owners);
      case ChangeHolds(holds, expected) =>
        r := ExecuteChange(session, register, holds, expected, command.owners);
    }
  }

  /** Any history of commands, each dying anywhere: every step is safe, and every answer
      is true of the state it leaves. */
  method Administer(session: Maintenance, register: HoldRegister, commands: seq<Command>)
      returns (outcomes: seq<Outcome>, ghost views: seq<View>)
    requires session.Valid() && register.disk == session.disk && register.texts == session.texts
    modifies session`journals, session`planned, session.disk`files, session.disk`stop, session.stores`objects
    ensures session.Valid() && |views| == |commands| + 1 && views[0] == old(Look(session))
    ensures views[|commands|] == Look(session)
    ensures forall i | 0 <= i < |commands| :: SafeStep(views[i], views[i + 1])
    ensures |outcomes| == |commands|
    ensures forall i | 0 <= i < |commands| :: Obeys(views[i], commands[i], outcomes[i], views[i + 1])
  {
    hide SafeStep, Obeys;
    views, outcomes := [Look(session)], [];
    for i := 0 to |commands|
      invariant session.Valid() && |views| == i + 1 && views[0] == old(Look(session)) && views[i] == Look(session)
      invariant |outcomes| == i && forall k | 0 <= k < i :: SafeStep(views[k], views[k + 1])
      invariant forall k | 0 <= k < i :: Obeys(views[k], commands[k], outcomes[k], views[k + 1])
    {
      var r := Execute(session, register, commands[i]);
      views, outcomes := views + [Look(session)], outcomes + [r];
    }
  }

  /** An object held through a whole history outlives it. */
  lemma {:induction false} HeldSurvives(views: seq<View>, id: Identity)
    requires |views| > 0 && forall i | 0 <= i < |views| - 1 :: SafeStep(views[i], views[i + 1])
    requires id in views[0].objects && forall i | 0 <= i < |views| - 1 :: id in views[i].held
    ensures id in views[|views| - 1].objects && views[|views| - 1].objects[id] == views[0].objects[id]
  {
    if |views| > 1 {
      var n := |views| - 1;
      HeldSurvives(views[..n], id);
      assert SafeStep(views[n - 1], views[n - 1 + 1]);
    }
  }

  /** All rows marked: every candidate is gone, so nothing is left to decide. */
  lemma AllGone(candidates: seq<OwnerObject>, rows: seq<Row>, stores: Stores, done: nat)
    requires Deleting(rows, stores, done) && OpenCount(rows) == 0 && Planned(candidates, Intents(rows))
    ensures forall id :: IsCandidate(candidates, id) ==> id !in stores
    ensures AllOrNone(rows, stores) && !Unfinished(rows, stores)
  {
    FrontierCount(rows, stores, done);
    forall id | IsCandidate(candidates, id) ensures id !in stores {
      var i :| 0 <= i < |Intents(rows)| && Intents(rows)[i].identity == id;
      assert rows[i].intent.identity !in stores;
    }
  }

  lemma {:induction false} AtMostAllOpen(rows: seq<Row>)
    ensures OpenCount(rows) <= |rows|
  {
    if rows != [] {
      AtMostAllOpen(rows[..|rows| - 1]);
    }
  }

  ghost predicate OwnersObserved(candidates: seq<OwnerObject>, owners: set<string>) {
    forall obj | obj in candidates :: obj.identity.owner in owners
  }

  lemma ObservedOwners(candidates: seq<OwnerObject>, stores: Stores, owners: set<string>)
    requires AllObserved(candidates, stores, owners)
    ensures OwnersObserved(candidates, owners)
  {
    forall obj | obj in candidates ensures obj.identity.owner in owners {
      assert Observed(obj, stores, owners);
    }
  }

  lemma PlannedOwners(candidates: seq<OwnerObject>, rows: seq<Row>, owners: set<string>)
    requires Planned(candidates, Intents(rows)) && OwnersObserved(candidates, owners)
    ensures OwnersKnown(rows, owners)
  {
    forall row | row in rows ensures row.intent.identity.owner in owners {
      var i :| 0 <= i < |rows| && rows[i] == row;
      assert IsCandidate(candidates, Intents(rows)[i].identity);
      var k :| 0 <= k < |candidates| && candidates[k].identity == row.intent.identity;
      assert candidates[k] in candidates;
    }
  }

  /** The candidates went, and only they. */
  lemma ExactlyCandidatesGone(before: Stores, after: Stores, candidates: seq<OwnerObject>, holds: Holding)
    requires OnlyCandidatesGone(before, after, candidates, holds)
    requires forall id :: IsCandidate(candidates, id) ==> id !in after
    ensures forall id :: id in after <==> id in before && !IsCandidate(candidates, id)
    ensures forall id | id in after :: after[id] == before[id]
  {
  }

  lemma GoneFurther(first: Stores, second: Stores, third: Stores, candidates: seq<OwnerObject>, holds: Holding)
    requires OnlyCandidatesGone(first, second, candidates, holds)
    requires OnlyCandidatesGone(second, third, candidates, holds)
    ensures OnlyCandidatesGone(first, third, candidates, holds)
  {
  }

  /** A run under way: the barrier is up and nothing has been preserved. */
  ghost predicate UnderWay(session: Maintenance, candidates: seq<OwnerObject>)
    reads session, session.disk`files, session.stores`objects
  {
    && session.Valid() && Final(Active) in session.disk.files && session.planned == candidates
    && session.StillDeleting() && Planned(candidates, Intents(session.ActiveRows()))
  }

  /** Resume after every death; the budgets and the times of death are anything. */
  method ResumeThroughStops(session: Maintenance, candidates: seq<OwnerObject>, owners: set<string>,
                            budgets: seq<(nat, nat, nat)>)
    requires UnderWay(session, candidates)
    modifies session`journals, session.disk`stop, session.stores`objects
    ensures UnderWay(session, candidates)
    ensures OnlyCandidatesGone(old(session.stores.objects), session.stores.objects, candidates, session.Held())
  {
    hide OnlyCandidatesGone, Planned, Deleting, ActiveJournal, OwnersKnown, OpenCount, AtBoundary, Intents;
    NothingGone(session.stores.objects, candidates, session.Held());
    for i := 0 to |budgets|
      invariant UnderWay(session, candidates)
      invariant OnlyCandidatesGone(old(session.stores.objects), session.stores.objects, candidates, session.Held())
    {
      session.disk.stop := Some(budgets[i].2);
      ghost var before := session.stores.objects;
      var r, report := session.Resume(owners, budgets[i].0, budgets[i].1);
      GoneFurther(old(session.stores.objects), before, session.stores.objects, candidates, session.Held());
    }
  }

  /** No group, nor what is left of one, has more rows than the budget. */
  ghost predicate Covers(rows: seq<Row>, maxObjects: nat) {
    forall k | 0 <= k < |rows| :: RestOfGroup(rows, k) <= maxObjects
  }

  lemma CoversStill(before: seq<Row>, after: seq<Row>, maxObjects: nat)
    requires Intents(before) == Intents(after) && Covers(before, maxObjects)
    ensures Covers(after, maxObjects)
  {
    assert |before| == |Intents(before)| == |after|;
    forall k | 0 <= k < |after| ensures RestOfGroup(after, k) <= maxObjects {
      SameRest(before, after, k);
    }
  }

  lemma CoveredSomething(rows: seq<Row>, maxObjects: nat)
    requires Covers(rows, maxObjects) && rows != []
    ensures maxObjects > 0
  {
    assert RestOfGroup(rows, 0) <= maxObjects;
  }

  /** A session whose budget covers the largest group does not stop where it began. */
  lemma SessionMoves(rows: seq<Row>, completed: nat, remaining: nat, maxObjects: nat, groupsInTime: nat)
    requires Covers(rows, maxObjects) && groupsInTime > 0 && completed + remaining <= |rows|
    requires var done := |rows| - remaining;
             Exhausted(rows, done - completed, done, maxObjects - completed, groupsInTime)
    ensures remaining > 0 ==> completed > 0
  {
  }

  /** The budget that just covers the largest group. */
  method LargestGroup(rows: seq<Row>) returns (largest: nat)
    ensures Covers(rows, largest)
    ensures rows != [] ==> exists k | 0 <= k < |rows| :: RestOfGroup(rows, k) == largest
  {
    largest := 0;
    ghost var at := 0;
    for i := 0 to |rows|
      invariant forall k | 0 <= k < i :: RestOfGroup(rows, k) <= largest
      invariant if i == 0 then largest == 0 else at < i && RestOfGroup(rows, at) == largest
    {
      if RestOfGroup(rows, i) > largest {
        largest, at := RestOfGroup(rows, i), i;
      }
    }
  }

  /** Sessions one after another, each with a budget that covers the largest group and
      time for one group, drain the run. */
  method DrainRun(session: Maintenance, candidates: seq<OwnerObject>, owners: set<string>, maxObjects: nat,
                  groupsInTime: nat)
    requires UnderWay(session, candidates) && OwnersObserved(candidates, owners) && session.disk.stop.None?
    requires Covers(session.ActiveRows(), maxObjects) && groupsInTime > 0
    modifies session`journals, session.disk`stop, session.stores`objects
    ensures UnderWay(session, candidates) && session.disk.stop.None? && OpenCount(session.ActiveRows()) == 0
    ensures OnlyCandidatesGone(old(session.stores.objects), session.stores.objects, candidates, session.Held())
  {
    hide OnlyCandidatesGone, Planned, Deleting, ActiveJournal, OwnersKnown, OpenCount, AtBoundary, Intents,
      OwnersObserved, Covers, Exhausted;
    NothingGone(session.stores.objects, candidates, session.Held());
    var remaining := CountOpen(session.ActiveRows());
    while remaining > 0
      invariant UnderWay(session, candidates) && session.disk.stop.None?
      invariant Covers(session.ActiveRows(), maxObjects) && remaining == OpenCount(session.ActiveRows())
      invariant OnlyCandidatesGone(old(session.stores.objects), session.stores.objects, candidates, session.Held())
      decreases remaining
    {
      ghost var before, rows := session.stores.objects, session.ActiveRows();
      AtMostAllOpen(rows);
      CoveredSomething(rows, maxObjects);
      PlannedOwners(candidates, rows, owners);
      var r, report := session.Resume(owners, maxObjects, groupsInTime);
      CoversStill(rows, session.ActiveRows(), maxObjects);
      SessionMoves(session.ActiveRows(), report.completed, report.remaining, maxObjects, groupsInTime);
      GoneFurther(old(session.stores.objects), before, session.stores.objects, candidates, session.Held());
      remaining := report.remaining;
    }
  }

  /** The last sessions live: they drain the run, and then it is finished. */
  method CompleteRun(session: Maintenance, candidates: seq<OwnerObject>, owners: set<string>) returns (r: Outcome)
    requires UnderWay(session, candidates) && OwnersObserved(candidates, owners)
    modifies session`journals, session.disk`files, session.disk`stop, session.stores`objects
    ensures session.Valid() && r.Done? && Final(Active) !in session.disk.files
    ensures session.Held() == old(session.Held())
    ensures OnlyCandidatesGone(old(session.stores.objects), session.stores.objects, candidates, session.Held())
    ensures forall id :: IsCandidate(candidates, id) ==> id !in session.stores.objects
  {
    hide OnlyCandidatesGone, Planned, Deleting, ActiveJournal, OwnersKnown, OpenCount, AtBoundary, Intents,
      IsCandidate, AllOrNone, Unfinished, ReferentiallySound, OwnersObserved, GoneCount, Covers;
    session.disk.stop := None;
    var largest := LargestGroup(session.ActiveRows());
    DrainRun(session, candidates, owners, largest, 1);
    PlannedOwners(candidates, session.ActiveRows(), owners);
    ghost var done :| Deleting(session.ActiveRows(), session.stores.objects, done);
    AllGone(candidates, session.ActiveRows(), session.stores.objects, done);
    var removed, kept;
    r, removed, kept := session.Finish(owners, false, true);
  }

  /** The run died between creating its journal and committing its intents. */
  predicate Stranded(session: Maintenance, runId: string)
    reads session, session.disk`files
  {
    Final(Active) !in session.disk.files && runId in session.journals && session.journals[runId].Created?
  }

  lemma ReadyIsRetryable(session: Maintenance, candidates: seq<OwnerObject>, runId: string, at: Instant, keyId: string,
                         owners: set<string>, digest: Identity -> int)
    requires session.Ready(candidates, runId, at, keyId, owners)
    ensures session.Retryable(candidates, runId, at, keyId, owners, digest)
  {
    hide Eligible, AllObserved, PlanOf;
  }

  lemma BegunIsUnderWay(session: Maintenance, candidates: seq<OwnerObject>, runId: string)
    requires session.Valid() && Final(Active) in session.disk.files && session.Begun(candidates, runId)
    ensures UnderWay(session, candidates)
  {
    hide Planned, Deleting, ActiveJournal, Intents;
  }

  /** Deaths that strand a run: the first process that lives for a step lives for one
      only, and leaves the bare journal. */
  predicate Strands(stops: seq<nat>) {
    exists k | 0 <= k < |stops| :: stops[k] == 1 && NoStep(stops, k)
  }

  /** The first processes die before their first step. */
  predicate NoStep(stops: seq<nat>, n: nat)
    requires n <= |stops|
  {
    forall i | 0 <= i < n :: stops[i] == 0
  }

  /** The intents are committed, so no death can strand the run any more. */
  ghost predicate PastStranding(session: Maintenance, candidates: seq<OwnerObject>, runId: string, at: Instant,
                                keyId: string,
                                owners: set<string>, digest: Identity -> int)
    reads session, session.disk`files, session.stores`objects
  {
    || UnderWay(session, candidates)
    || (session.Retryable(candidates, runId, at, keyId, owners, digest) && runId in session.journals)
  }

  lemma PastIsNotStranded(session: Maintenance, candidates: seq<OwnerObject>, runId: string, at: Instant, keyId: string,
                          owners: set<string>, digest: Identity -> int)
    requires PastStranding(session, candidates, runId, at, keyId, owners, digest)
    ensures !Stranded(session, runId)
  {
    hide Planned, Deleting, ActiveJournal, Intents, Eligible, AllObserved, PlanOf, WriteRefused;
  }

  /** Ask for the run to begin, dying anywhere, and ask again: the barrier goes up,
      unless a death fell between the journal and its intents. */
  method BeginThroughStops(session: Maintenance, candidates: seq<OwnerObject>, runId: string, at: Instant,
                           keyId: string,
                           owners: set<string>, digest: Identity -> int, stops: seq<nat>)
    requires session.Valid() && session.Ready(candidates, runId, at, keyId, owners)
    requires stops == [] || Told(candidates, digest)
    modifies session`journals, session`planned, session.disk`files, session.disk`stop
    ensures session.Valid() && session.Held() == old(session.Held())
    ensures Strands(stops) ==> Stranded(session, runId)
    ensures !Strands(stops) ==> UnderWay(session, candidates)
  {
    hide Planned, Deleting, ActiveJournal, Intents, Eligible, AllObserved, Told, Unused, PlanOf, WriteRefused,
      UnderWay, Strands, NoStep;
    ReadyIsRetryable(session, candidates, runId, at, keyId, owners, digest);
    StrandsNone(stops);
    for i := 0 to |stops|
      invariant session.Valid() && session.Held() == old(session.Held())
      invariant NoStep(stops, i) ==> session.Ready(candidates, runId, at, keyId, owners) && !Strands(stops[..i])
      invariant Strands(stops[..i]) ==> Stranded(session, runId)
      invariant !Strands(stops[..i]) && !NoStep(stops, i) ==>
        PastStranding(session, candidates, runId, at, keyId, owners, digest)
    {
      StrandsMore(stops, i);
      AskAgain(session, candidates, runId, at, keyId, owners, digest, Some(stops[i]));
    }
    assert stops[..|stops|] == stops;
    if PastStranding(session, candidates, runId, at, keyId, owners, digest) {
      PastIsNotStranded(session, candidates, runId, at, keyId, owners, digest);
    }
    AskAgain(session, candidates, runId, at, keyId, owners, digest, None);
  }

  lemma StrandsNone(stops: seq<nat>)
    ensures NoStep(stops, 0) && !Strands(stops[..0])
  {
  }

  lemma NoStepBefore(stops: seq<nat>, n: nat, k: nat)
    requires k <= n <= |stops|
    ensures NoStep(stops[..n], k) <==> NoStep(stops, k)
  {
    assert forall i | 0 <= i < k :: stops[..n][i] == stops[i];
  }

  lemma StrandsMore(stops: seq<nat>, n: nat)
    requires n < |stops|
    ensures Strands(stops[..n + 1]) <==> Strands(stops[..n]) || (NoStep(stops, n) && stops[n] == 1)
    ensures NoStep(stops, n + 1) <==> NoStep(stops, n) && stops[n] == 0
  {
    assert NoStep(stops, n + 1) <==> NoStep(stops, n) && stops[n] == 0;
    hide NoStep;
    if k :| 0 <= k < n && stops[..n][k] == 1 && NoStep(stops[..n], k) {
      NoStepBefore(stops, n, k);
      NoStepBefore(stops, n + 1, k);
      assert stops[..n + 1][k] == 1;
    }
    if NoStep(stops, n) && stops[n] == 1 {
      NoStepBefore(stops, n + 1, n);
      assert stops[..n + 1][n] == 1;
    }
    var longer := stops[..n + 1];
    if k :| 0 <= k < |longer| && longer[k] == 1 && NoStep(longer, k) {
      NoStepBefore(stops, n + 1, k);
      if k < n {
        NoStepBefore(stops, n, k);
        assert stops[..n][k] == 1;
      }
    }
  }

  method AskAgain(session: Maintenance, candidates: seq<OwnerObject>, runId: string, at: Instant, keyId: string,
                  owners: set<string>, digest: Identity -> int, stop: Option<nat>)
    requires session.Valid()
    requires Told(candidates, digest) || (stop.None? && session.Ready(candidates, runId, at, keyId, owners))
    requires || Stranded(session, runId) || session.Ready(candidates, runId, at, keyId, owners)
             || PastStranding(session, candidates, runId, at, keyId, owners, digest)
    modifies session`journals, session`planned, session.disk`files, session.disk`stop
    ensures session.Valid() && session.Held() == old(session.Held())
    ensures old(Stranded(session, runId)) ==> Stranded(session, runId)
    ensures old(session.Ready(candidates, runId, at, keyId, owners)) && stop == Some(0) ==>
      session.Ready(candidates, runId, at, keyId, owners)
    ensures old(session.Ready(candidates, runId, at, keyId, owners)) && stop == Some(1) ==> Stranded(session, runId)
    ensures old(session.Ready(candidates, runId, at, keyId, owners)) && stop !in {Some(0), Some(1)} ==>
      PastStranding(session, candidates, runId, at, keyId, owners, digest)
    ensures old(PastStranding(session, candidates, runId, at, keyId, owners, digest)) ==>
      PastStranding(session, candidates, runId, at, keyId, owners, digest)
    ensures stop.None? && !old(Stranded(session, runId)) ==> UnderWay(session, candidates)
  {
    hide Planned, Deleting, ActiveJournal, Intents, Eligible, AllObserved, Told, Unused, PlanOf, WriteRefused;
    ghost var raised := Final(Active) in session.disk.files;
    if session.Ready(candidates, runId, at, keyId, owners) {
      ReadyIsRetryable(session, candidates, runId, at, keyId, owners, digest);
    }
    if PastStranding(session, candidates, runId, at, keyId, owners, digest) {
      PastIsNotStranded(session, candidates, runId, at, keyId, owners, digest);
    }
    session.disk.stop := stop;
    var r := session.Begin(candidates, runId, at, keyId, owners, digest);
    if !raised && Final(Active) in session.disk.files {
      BegunIsUnderWay(session, candidates, runId);
    }
  }

  /** A run asked for through any number of deaths, begun, and resumed through any
      number of deaths finishes: every candidate is gone, nothing else is, and the
      barrier is down. It does not begin if and only if a death stranded it; then
      nothing was touched. */
  method MaintainAcrossStops(session: Maintenance, candidates: seq<OwnerObject>, runId: string, at: Instant,
                             keyId: string,
                             owners: set<string>, digest: Identity -> int, stops: seq<nat>,
                             budgets: seq<(nat, nat, nat)>)
      returns (r: Outcome)
    requires session.Valid() && session.Ready(candidates, runId, at, keyId, owners)
    requires stops == [] || Told(candidates, digest)
    modifies session`journals, session`planned, session.disk`files, session.disk`stop, session.stores`objects
    ensures session.Valid() && session.Held() == old(session.Held()) && Final(Active) !in session.disk.files
    ensures if Strands(stops) then r.Refused? && Stranded(session, runId) else r.Done?
    ensures r.Refused? ==> session.stores.objects == old(session.stores.objects)
    ensures r.Done? ==>
      && (forall id :: id in session.stores.objects <==>
          id in old(session.stores.objects) && !IsCandidate(candidates, id))
      && (forall id | id in session.stores.objects :: session.stores.objects[id] == old(session.stores.objects)[id])
  {
    hide OnlyCandidatesGone, Planned, Deleting, ActiveJournal, Intents, IsCandidate, AllObserved, Eligible,
      OwnersObserved, Told;
    ObservedOwners(candidates, session.stores.objects, owners);
    BeginThroughStops(session, candidates, runId, at, keyId, owners, digest, stops);
    if Final(Active) !in session.disk.files {
      return Refused;
    }
    ResumeThroughStops(session, candidates, owners, budgets);
    ghost var before := session.stores.objects;
    r := CompleteRun(session, candidates, owners);
    GoneFurther(old(session.stores.objects), before, session.stores.objects, candidates, session.Held());
    ExactlyCandidatesGone(old(session.stores.objects), session.stores.objects, candidates, session.Held());
  }
}
