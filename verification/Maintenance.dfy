/** One administrative maintenance session over the journal, the barrier, the
    hold register and the stores. */
module RetentionSession {
  import opened Wrappers
  import opened DurableFiles
  import opened RetentionObjects
  import opened ReferenceGroups
  import opened RetentionJournal
  import opened LegalHolds

  datatype Report = Report(completed: nat, remaining: nat)

  ghost predicate Unheld(intents: seq<Intent>, holds: Holding) {
    forall i | 0 <= i < |intents| :: intents[i].identity !in holds
  }

  ghost predicate Signed(intents: seq<Intent>, runId: string, at: Instant, keys: set<string>) {
    forall i | 0 <= i < |intents| :: ReceiptVerifies(intents[i], runId, at, keys)
  }

  /** Progress of an active run: deleting in order, or reconciled. */
  ghost predicate UnderBarrier(rows: seq<Row>, complete: bool, stores: Stores) {
    || (!complete && exists done: nat :: Deleting(rows, stores, done))
    || (exists done: nat :: Reconciled(rows, stores, done))
  }

  /** The journal behind an active barrier. */
  ghost predicate ActiveJournal(journal: Journal, marker: Marker, holds: Option<Holding>, stores: Stores,
                                candidates: seq<OwnerObject>, keys: set<string>) {
    && journal.Committed? && journal.runId == marker.runId && journal.startedAt == marker.startedAt
    && holds == Some(journal.holds) && marker.plan == Plan(journal.holds, Intents(journal.rows))
    && Planned(candidates, Intents(journal.rows)) && Unheld(Intents(journal.rows), journal.holds)
    && Signed(Intents(journal.rows), marker.runId, marker.startedAt, keys)
    && UnderBarrier(journal.rows, journal.complete, stores)
  }

  lemma ActiveVerifies(journal: Journal, marker: Marker, holds: Option<Holding>, stores: Stores,
                       candidates: seq<OwnerObject>, keys: set<string>)
    requires ActiveJournal(journal, marker, holds, stores, candidates, keys)
    ensures JournalVerifies(journal, marker, holds, keys)
    ensures forall row | row in journal.rows :: StoreAgrees(row, stores)
  {
    forall row | row in journal.rows
      ensures ReceiptVerifies(row.intent, marker.runId, marker.startedAt, keys) && StoreAgrees(row, stores)
    {
      var i :| 0 <= i < |journal.rows| && journal.rows[i] == row;
      assert ReceiptVerifies(Intents(journal.rows)[i], marker.runId, marker.startedAt, keys);
    }
  }

  function Mark(rows: seq<Row>, k: nat, status: Status): seq<Row>
    requires k < |rows|
  {
    rows[k := rows[k].(status := status)]
  }

  /** The first unmarked object goes, then its row is marked. */
  lemma Advance(rows: seq<Row>, stores: Stores, k: nat)
    requires Deleting(rows, stores, k) && k < |rows| && Once(Intents(rows))
    ensures Deleting(rows, stores - {rows[k].intent.identity}, k)
    ensures Deleting(Mark(rows, k, Removed), stores - {rows[k].intent.identity}, k + 1)
    ensures Intents(Mark(rows, k, Removed)) == Intents(rows)
  {
    assert forall i | 0 <= i < |rows| :: Intents(rows)[i].identity == rows[i].intent.identity;
  }

  /** What every candidate must be before a run may intend to delete it. */
  predicate Eligible(candidates: seq<OwnerObject>, holds: Holding, at: Instant) {
    && (forall obj | obj in candidates :: obj.identity !in holds)
    && (forall i, j | 0 <= i < j < |candidates| :: candidates[i].identity != candidates[j].identity)
    && (forall obj | obj in candidates :: && obj.state == Closed && obj.roots == {}
                                          && obj.eligibleAfter.Some? && obj.eligibleAfter.value <= at)
  }

  /** The candidates are refused exactly when one is open, rooted, held or not due,
      or when two are the same object. */
  lemma RefusedExactly(candidates: seq<OwnerObject>, holds: Holding, at: Instant)
    ensures !Eligible(candidates, holds, at) <==>
      || (exists k | 0 <= k < |candidates| ::
            || candidates[k].state != Closed || candidates[k].roots != {} || candidates[k].identity in holds
            || candidates[k].eligibleAfter.None? || at < candidates[k].eligibleAfter.value)
      || (exists i, j | 0 <= i < j < |candidates| :: candidates[i].identity == candidates[j].identity)
  {
    if forall k | 0 <= k < |candidates| ::
        && candidates[k].state == Closed && candidates[k].roots == {} && candidates[k].identity !in holds
        && candidates[k].eligibleAfter.Some? && candidates[k].eligibleAfter.value <= at {
      assert forall obj | obj in candidates :: obj.identity !in holds;
    }
  }

  predicate Observed(obj: OwnerObject, stores: Stores, owners: set<string>) {
    obj.identity.owner in owners && obj.identity in stores && stores[obj.identity] == obj.version
  }

  ghost predicate AllObserved(objects: seq<OwnerObject>, stores: Stores, owners: set<string>) {
    forall obj | obj in objects :: Observed(obj, stores, owners)
  }

  ghost predicate Untouched(intents: seq<Intent>, stores: Stores) {
    forall i | 0 <= i < |intents| :: intents[i].identity in stores && stores[intents[i].identity] == intents[i].version
  }

  /** A manifest fit to be committed: the grouped candidates, all there, none held. */
  ghost predicate Inventoried(candidates: seq<OwnerObject>, plan: Plan, runId: string, at: Instant,
                              keys: set<string>, stores: Stores) {
    && Planned(candidates, plan.intents) && Unheld(plan.intents, plan.holds)
    && Signed(plan.intents, runId, at, keys) && Untouched(plan.intents, stores)
  }

  lemma InventoriedIsSigned(candidates: seq<OwnerObject>, plan: Plan, runId: string, at: Instant,
                            keys: set<string>, stores: Stores)
    requires Inventoried(candidates, plan, runId, at, keys, stores)
    ensures Signed(plan.intents, runId, at, keys) && Contiguous(plan.intents)
  {
  }

  lemma PlannedIsUnheld(candidates: seq<OwnerObject>, intents: seq<Intent>, holds: Holding)
    requires Planned(candidates, intents) && forall obj | obj in candidates :: obj.identity !in holds
    ensures Unheld(intents, holds)
  {
    forall i | 0 <= i < |intents| ensures intents[i].identity !in holds {
      assert IsCandidate(candidates, intents[i].identity);
      var k :| 0 <= k < |candidates| && candidates[k].identity == intents[i].identity;
      assert candidates[k] in candidates;
    }
  }

  lemma {:induction false} ObjectsAreCandidates(candidates: seq<OwnerObject>, id: Identity)
    requires id in ObjectsOf(candidates)
    ensures ObjectsOf(candidates)[id] in candidates
  {
    var n := |candidates| - 1;
    if candidates[n].identity != id {
      ObjectsAreCandidates(candidates[..n], id);
    }
  }

  lemma GroupsObserved(candidates: seq<OwnerObject>, groups: seq<seq<OwnerObject>>, stores: Stores, owners: set<string>)
    requires Components(candidates, groups) && AllObserved(candidates, stores, owners)
    ensures forall g | 0 <= g < |groups| :: AllObserved(groups[g], stores, owners)
  {
    forall g, obj | 0 <= g < |groups| && obj in groups[g] ensures Observed(obj, stores, owners) {
      assert IsComponent(candidates, groups[g]);
      ObjectsAreCandidates(candidates, obj.identity);
    }
  }

  /** The plan of a run, whichever session computes it. */
  ghost function PlanOf(candidates: seq<OwnerObject>, digest: Identity -> int, holds: Holding,
                        runId: string, at: Instant, keyId: string): Plan {
    Plan(holds, ManifestOf(GroupsOf(candidates, digest), runId, at, keyId))
  }

  function Opened(intents: seq<Intent>): (rows: seq<Row>)
    ensures |rows| == |intents| && forall i | 0 <= i < |rows| :: rows[i] == Row(intents[i], Intended)
  {
    seq(|intents|, i requires 0 <= i < |intents| => Row(intents[i], Intended))
  }

  /** A journal that holds exactly the planned intents, none acted on yet. */
  ghost predicate Unused(journal: Journal, marker: Marker) {
    journal == Committed(marker.runId, marker.startedAt, false, marker.plan.holds, Opened(marker.plan.intents))
  }

  lemma CreatedIsNotUnused(marker: Marker)
    ensures !Unused(Created, marker)
  {
  }

  lemma OpenVerifies(marker: Marker, keys: set<string>)
    requires Signed(marker.plan.intents, marker.runId, marker.startedAt, keys) && Contiguous(marker.plan.intents)
    ensures JournalVerifies(Committed(marker.runId, marker.startedAt, false, marker.plan.holds,
                                      Opened(marker.plan.intents)),
                            marker, Some(marker.plan.holds), keys)
  {
    var rows := Opened(marker.plan.intents);
    assert Intents(rows) == marker.plan.intents;
    forall row | row in rows ensures ReceiptVerifies(row.intent, marker.runId, marker.startedAt, keys) {
      var i :| 0 <= i < |rows| && rows[i] == row;
      assert ReceiptVerifies(marker.plan.intents[i], marker.runId, marker.startedAt, keys);
    }
  }

  /** A verified journal with every intent still open is unused. */
  lemma VerifiedIsUnused(journal: Journal, marker: Marker, keys: set<string>)
    requires JournalVerifies(journal, marker, Some(marker.plan.holds), keys) && !journal.complete
    requires forall row | row in journal.rows :: row.status == Intended
    ensures Unused(journal, marker)
  {
    var rows := journal.rows;
    assert Intents(rows) == marker.plan.intents;
    forall i | 0 <= i < |rows| ensures rows[i] == Opened(marker.plan.intents)[i] {
      assert rows[i] in rows && Intents(rows)[i] == rows[i].intent;
    }
    assert rows == Opened(marker.plan.intents);
  }

  /** Deletion may start from an unused journal of an inventoried plan. */
  lemma UnusedIsActive(journal: Journal, marker: Marker, stores: Stores, candidates: seq<OwnerObject>,
                       keys: set<string>)
    requires Unused(journal, marker)
    requires Inventoried(candidates, marker.plan, marker.runId, marker.startedAt, keys, stores)
    ensures ActiveJournal(journal, marker, Some(marker.plan.holds), stores, candidates, keys)
    ensures Deleting(journal.rows, stores, 0)
  {
    var rows := journal.rows;
    assert Intents(rows) == marker.plan.intents;
    forall i | 0 <= i < |rows|
      ensures rows[i].intent.identity in stores && stores[rows[i].intent.identity] == rows[i].intent.version
    {
      assert rows[i].intent == marker.plan.intents[i];
    }
    assert Deleting(rows, stores, 0);
  }

  /** The rows before `done` have their outcome, the others are still open. */
  ghost predicate Frontier(rows: seq<Row>, stores: Stores, done: nat) {
    Deleting(rows, stores, done) || (done == |rows| && exists gone: nat :: Reconciled(rows, stores, gone))
  }

  function OpenCount(rows: seq<Row>): nat {
    if rows == [] then 0
    else OpenCount(rows[..|rows| - 1]) + if rows[|rows| - 1].status == Intended then 1 else 0
  }

  lemma {:induction false} CountFrontier(rows: seq<Row>, done: nat)
    requires done <= |rows| && forall i | 0 <= i < |rows| :: rows[i].status == Intended <==> done <= i
    ensures OpenCount(rows) == |rows| - done
  {
    if rows != [] {
      var n := |rows| - 1;
      CountFrontier(rows[..n], if done <= n then done else n);
    }
  }

  lemma FrontierCount(rows: seq<Row>, stores: Stores, done: nat)
    requires Frontier(rows, stores, done)
    ensures done <= |rows| && OpenCount(rows) == |rows| - done && OpenFrom(rows, 0, done)
  {
    CountFrontier(rows, done);
  }

  lemma ActiveFrontier(journal: Journal, marker: Marker, holds: Option<Holding>, stores: Stores,
                       candidates: seq<OwnerObject>, keys: set<string>) returns (done: nat)
    requires ActiveJournal(journal, marker, holds, stores, candidates, keys)
    ensures Frontier(journal.rows, stores, done) && (journal.complete ==> done == |journal.rows|)
    ensures Once(Intents(journal.rows)) && Planned(candidates, Intents(journal.rows))
    ensures Unheld(Intents(journal.rows), journal.holds)
    ensures holds == Some(journal.holds) && journal.Committed?
    ensures (exists d: nat :: Deleting(journal.rows, stores, d)) ==> Deleting(journal.rows, stores, done)
    ensures done <= |journal.rows| && OpenCount(journal.rows) == |journal.rows| - done
  {
    if !journal.complete && exists d: nat :: Deleting(journal.rows, stores, d) {
      done :| Deleting(journal.rows, stores, done);
    } else {
      done := |journal.rows|;
      if d: nat :| Deleting(journal.rows, stores, d) {
        FrontierCount(journal.rows, stores, d);
        FrontierCount(journal.rows, stores, done);
      }
    }
    FrontierCount(journal.rows, stores, done);
  }

  /** Progress that keeps the intents keeps the journal good. */
  lemma StillActive(before: Journal, after: Journal, marker: Marker, holds: Option<Holding>, was: Stores,
                    stores: Stores,
                    candidates: seq<OwnerObject>, keys: set<string>, done: nat)
    requires ActiveJournal(before, marker, holds, was, candidates, keys)
    requires after.Committed? && after == before.(rows := after.rows) && Intents(after.rows) == Intents(before.rows)
    requires Frontier(after.rows, stores, done) && (before.complete ==> after == before && was == stores)
    ensures ActiveJournal(after, marker, holds, stores, candidates, keys)
  {
  }

  /** Nothing appeared or changed, and what went was one of the intents. */
  ghost predicate OnlyIntentsGone(before: Stores, after: Stores, intents: seq<Intent>) {
    && (forall id | id in after :: id in before && before[id] == after[id])
    && (forall id | id in before && id !in after :: exists i | 0 <= i < |intents| :: intents[i].identity == id)
  }

  /** Nothing appeared or changed, and what went was a candidate that no hold protects. */
  ghost predicate OnlyCandidatesGone(before: Stores, after: Stores, candidates: seq<OwnerObject>, holds: Holding) {
    && (forall id | id in after :: id in before && before[id] == after[id])
    && (forall id | id in before && id !in after :: IsCandidate(candidates, id) && id !in holds)
  }

  lemma NothingGone(stores: Stores, candidates: seq<OwnerObject>, holds: Holding)
    ensures OnlyCandidatesGone(stores, stores, candidates, holds)
  {
  }

  lemma PlannedGone(before: Stores, after: Stores, intents: seq<Intent>, candidates: seq<OwnerObject>, holds: Holding)
    requires OnlyIntentsGone(before, after, intents) && Planned(candidates, intents) && Unheld(intents, holds)
    ensures OnlyCandidatesGone(before, after, candidates, holds)
  {
  }

  ghost predicate OwnersKnown(rows: seq<Row>, owners: set<string>) {
    forall row | row in rows :: row.intent.identity.owner in owners
  }

  lemma OwnersKept(before: seq<Row>, after: seq<Row>, owners: set<string>)
    requires Intents(before) == Intents(after) && OwnersKnown(before, owners)
    ensures |before| == |after| && OwnersKnown(after, owners)
  {
    forall row | row in after ensures row.intent.identity.owner in owners {
      var i :| 0 <= i < |after| && after[i] == row;
      assert Intents(before)[i] == Intents(after)[i] && before[i] in before;
    }
  }

  /** Deletion stands between two groups. */
  predicate AtBoundary(rows: seq<Row>, done: int) {
    0 < done < |rows| ==> rows[done - 1].intent.group != rows[done].intent.group
  }

  lemma BoundaryAtStart(rows: seq<Row>)
    ensures AtBoundary(rows, 0)
  {
  }

  /** How many rows follow on in the group of the k-th, itself counted. */
  function RestOfGroup(rows: seq<Row>, k: nat): (rest: nat)
    requires k < |rows|
    ensures 0 < rest <= |rows| - k
    decreases |rows| - k
  {
    if k + 1 < |rows| && rows[k + 1].intent.group == rows[k].intent.group then 1 + RestOfGroup(rows, k + 1) else 1
  }

  lemma {:induction false} RestIsUpTo(rows: seq<Row>, k: nat, end: nat)
    requires k < end <= |rows| && AtBoundary(rows, end)
    requires forall i | k <= i < end :: rows[i].intent.group == rows[k].intent.group
    ensures RestOfGroup(rows, k) == end - k
    decreases end - k
  {
    if k + 1 < end {
      RestIsUpTo(rows, k + 1, end);
    }
  }

  /** How many groups the rows from `start` up to `end` begin, the first always. */
  function GroupsIn(rows: seq<Row>, start: nat, end: nat): nat
    requires end <= |rows|
  {
    if end <= start then 0
    else
      GroupsIn(rows, start, end - 1)
        + if end - 1 == start || rows[end - 2].intent.group != rows[end - 1].intent.group then 1 else 0
  }

  lemma {:induction false} OneMoreGroup(rows: seq<Row>, start: nat, k: nat, end: nat)
    requires start <= k < end <= |rows| && (k == start || AtBoundary(rows, k))
    requires forall i | k <= i < end :: rows[i].intent.group == rows[k].intent.group
    ensures GroupsIn(rows, start, end) == GroupsIn(rows, start, k) + 1
    decreases end
  {
    if k + 1 < end {
      OneMoreGroup(rows, start, k, end - 1);
    }
  }

  /** Only the intents say where the groups are. */
  lemma {:induction false} SameRest(before: seq<Row>, after: seq<Row>, k: nat)
    requires Intents(before) == Intents(after) && k < |before| == |after|
    ensures RestOfGroup(before, k) == RestOfGroup(after, k)
    decreases |before| - k
  {
    assert forall i | 0 <= i < |before| :: before[i].intent == Intents(before)[i] == after[i].intent;
    if k + 1 < |before| {
      SameRest(before, after, k + 1);
    }
  }

  lemma {:induction false} SameGroups(before: seq<Row>, after: seq<Row>, start: nat, end: nat)
    requires Intents(before) == Intents(after) && end <= |before| == |after|
    ensures GroupsIn(before, start, end) == GroupsIn(after, start, end)
    decreases end
  {
    assert forall i | 0 <= i < |before| :: before[i].intent == Intents(before)[i] == after[i].intent;
    if start < end {
      SameGroups(before, after, start, end - 1);
    }
  }

  /** Why a sweep from `start` may stop at `done`: at the end, for want of time, or
      before a group too big for what is left of the budget. */
  ghost predicate Exhausted(rows: seq<Row>, start: nat, done: nat, room: int, groupsInTime: nat) {
    && done <= |rows| && GroupsIn(rows, start, done) <= groupsInTime
    && (done < |rows| ==> GroupsIn(rows, start, done) == groupsInTime || RestOfGroup(rows, done) > room)
  }

  lemma NoGroupsYet(rows: seq<Row>, start: nat)
    requires start <= |rows|
    ensures GroupsIn(rows, start, start) == 0
  {
  }

  lemma StopsForWant(rows: seq<Row>, start: nat, done: nat, room: int, groupsInTime: nat)
    requires done < |rows| && GroupsIn(rows, start, done) <= groupsInTime
    requires room < RestOfGroup(rows, done) || GroupsIn(rows, start, done) >= groupsInTime
    ensures Exhausted(rows, start, done, room, groupsInTime)
  {
  }

  lemma StopsAtEnd(rows: seq<Row>, start: nat, room: int, groupsInTime: nat)
    requires GroupsIn(rows, start, |rows|) <= groupsInTime
    ensures Exhausted(rows, start, |rows|, room, groupsInTime)
  {
  }

  lemma ExhaustedStill(before: seq<Row>, after: seq<Row>, start: nat, done: nat, room: int, groupsInTime: nat)
    requires Intents(before) == Intents(after) && Exhausted(before, start, done, room, groupsInTime)
    ensures Exhausted(after, start, done, room, groupsInTime)
  {
    assert |before| == |Intents(before)| == |after|;
    SameGroups(before, after, start, done);
    if done < |before| {
      SameRest(before, after, done);
    }
  }

  lemma {:induction false} GroupsAreRows(rows: seq<Row>, start: nat, end: nat)
    requires start <= end <= |rows|
    ensures GroupsIn(rows, start, end) <= end - start
    decreases end
  {
    if start < end {
      GroupsAreRows(rows, start, end - 1);
    }
  }

  /** With budget and time for everything, everything goes. */
  lemma ExhaustedFar(rows: seq<Row>, start: nat, done: nat, room: int, groupsInTime: nat)
    requires start <= done && Exhausted(rows, start, done, room, groupsInTime)
    ensures |rows| - done <= room && |rows| <= groupsInTime ==> done == |rows|
  {
    GroupsAreRows(rows, start, done);
  }

  method GroupEnd(rows: seq<Row>, start: nat) returns (end: nat)
    requires start < |rows|
    ensures start < end <= |rows| && AtBoundary(rows, end)
    ensures forall i | start <= i < end :: rows[i].intent.group == rows[start].intent.group
  {
    end := start + 1;
    while end < |rows| && rows[end].intent.group == rows[start].intent.group
      invariant start < end <= |rows|
      invariant forall i | start <= i < end :: rows[i].intent.group == rows[start].intent.group
    {
      end := end + 1;
    }
  }

  /** From `start` on, the rows still open are those from `done` on. */
  ghost predicate OpenFrom(rows: seq<Row>, start: nat, done: nat) {
    forall i | start <= i < |rows| :: rows[i].status == Intended <==> done <= i
  }

  lemma OpenFromLater(rows: seq<Row>, start: nat, done: nat)
    requires OpenFrom(rows, start, done)
    ensures forall p: nat, now: nat | start <= p && (now == done || done <= now <= p) :: OpenFrom(rows, p, now)
  {
  }

  method StillOpen(rows: seq<Row>, start: nat, end: nat, ghost done: nat) returns (pending: seq<nat>)
    requires start <= end <= |rows| && start <= done && OpenFrom(rows, start, done)
    ensures |pending| == if done < end then end - done else 0
    ensures forall k | 0 <= k < |pending| :: pending[k] == done + k
  {
    pending := [];
    for i := start to end
      invariant |pending| == if done < i then i - done else 0
      invariant forall k | 0 <= k < |pending| :: pending[k] == done + k
    {
      if rows[i].status == Intended {
        pending := pending + [i];
      }
    }
  }

  method CountOpen(rows: seq<Row>) returns (open: nat)
    ensures open == OpenCount(rows)
  {
    open := 0;
    for i := 0 to |rows|
      invariant open == OpenCount(rows[..i])
    {
      assert rows[..i + 1][..i] == rows[..i];
      if rows[i].status == Intended {
        open := open + 1;
      }
    }
    assert rows[..|rows|] == rows;
  }

  /** One run's journal moved on, over the same intents, with the stores. */
  ghost predicate Swept(before: map<string, Journal>, after: map<string, Journal>, runId: string,
                        was: Stores, stores: Stores, start: nat, done: nat) {
    && runId in before && before[runId].Committed? && runId in after && after[runId].Committed?
    && after == before[runId := before[runId].(rows := after[runId].rows)]
    && Intents(after[runId].rows) == Intents(before[runId].rows)
    && start <= done && Frontier(after[runId].rows, stores, done)
    && (Deleting(before[runId].rows, was, start) ==> Deleting(after[runId].rows, stores, done))
    && (start == |before[runId].rows| ==> after == before && stores == was)
    && OnlyIntentsGone(was, stores, Intents(before[runId].rows))
  }

  lemma SweptMore(first: map<string, Journal>, second: map<string, Journal>, third: map<string, Journal>, runId: string,
                  was: Stores, mid: Stores, stores: Stores, start: nat, done: nat, more: nat)
    requires Swept(first, second, runId, was, mid, start, done) && Swept(second, third, runId, mid, stores, done, more)
    ensures Swept(first, third, runId, was, stores, start, more)
  {
  }

  lemma SweptNone(journals: map<string, Journal>, runId: string, stores: Stores, done: nat)
    requires runId in journals && journals[runId].Committed? && Frontier(journals[runId].rows, stores, done)
    ensures Swept(journals, journals, runId, stores, stores, done, done)
  {
  }

  /** What the next group needs. */
  lemma SweptOwners(before: map<string, Journal>, after: map<string, Journal>, runId: string,
                    was: Stores, stores: Stores, start: nat, done: nat, owners: set<string>)
    requires Swept(before, after, runId, was, stores, start, done) && Once(Intents(before[runId].rows))
    requires OwnersKnown(before[runId].rows, owners)
    ensures runId in after && after[runId].Committed? && Intents(after[runId].rows) == Intents(before[runId].rows)
    ensures |after[runId].rows| == |before[runId].rows| && Once(Intents(after[runId].rows))
    ensures OwnersKnown(after[runId].rows, owners)
    ensures done < |after[runId].rows| ==> Deleting(after[runId].rows, stores, done)
  {
    OwnersKept(before[runId].rows, after[runId].rows, owners);
  }

  lemma SweptIsActive(before: map<string, Journal>, after: map<string, Journal>, runId: string, marker: Marker,
                      holds: Option<Holding>, was: Stores, stores: Stores, candidates: seq<OwnerObject>,
                      keys: set<string>, start: nat, done: nat)
    requires Swept(before, after, runId, was, stores, start, done)
    requires ActiveJournal(before[runId], marker, holds, was, candidates, keys)
    requires before[runId].complete ==> start == |before[runId].rows|
    ensures after.Keys == before.Keys && ActiveJournal(after[runId], marker, holds, stores, candidates, keys)
    ensures Intents(after[runId].rows) == Intents(before[runId].rows)
    ensures OnlyCandidatesGone(was, stores, candidates, before[runId].holds) && holds == Some(before[runId].holds)
    ensures AtBoundary(before[runId].rows, done) ==> AtBoundary(after[runId].rows, done)
    ensures Deleting(before[runId].rows, was, start) ==> Deleting(after[runId].rows, stores, done)
    ensures done <= |after[runId].rows| == |before[runId].rows|
    ensures OpenCount(after[runId].rows) == |after[runId].rows| - done
  {
    assert forall i | 0 <= i < |after[runId].rows| :: after[runId].rows[i].intent == Intents(before[runId].rows)[i];
    StillActive(before[runId], after[runId], marker, holds, was, stores, candidates, keys, done);
    PlannedGone(was, stores, Intents(before[runId].rows), candidates, before[runId].holds);
    FrontierCount(after[runId].rows, stores, done);
  }

  /** Each row takes the outcome its store shows. */
  function Resolve(rows: seq<Row>, stores: Stores): (resolved: seq<Row>)
    ensures |resolved| == |rows| && Intents(resolved) == Intents(rows)
  {
    var resolved := seq(|rows|, i requires 0 <= i < |rows| =>
      if rows[i].status != Intended then rows[i]
      else rows[i].(status := if rows[i].intent.identity in stores then Kept else Removed));
    assert forall i | 0 <= i < |rows| :: Intents(resolved)[i] == Intents(rows)[i];
    resolved
  }

  /** No recovery group is partly there and partly gone. */
  ghost predicate AllOrNone(rows: seq<Row>, stores: Stores) {
    forall i, j | 0 <= i < |rows| && 0 <= j < |rows| && rows[i].intent.group == rows[j].intent.group ::
      rows[i].intent.identity in stores <==> rows[j].intent.identity in stores
  }

  /** An open row whose object is still there. */
  predicate Unfinished(rows: seq<Row>, stores: Stores) {
    exists row | row in rows :: row.status == Intended && row.intent.identity in stores
  }

  /** Outcomes read from the stores reconcile the run. */
  lemma ResolvedIsReconciled(rows: seq<Row>, stores: Stores, done: nat) returns (gone: nat)
    requires Frontier(rows, stores, done) && AllOrNone(rows, stores)
    ensures Reconciled(Resolve(rows, stores), stores, gone)
  {
    if Deleting(rows, stores, done) {
      gone := if done < |rows| && rows[done].intent.identity !in stores then done + 1 else done;
      var resolved := Resolve(rows, stores);
      assert forall i | 0 <= i < gone :: resolved[i].status == Removed && resolved[i].intent == rows[i].intent;
      assert forall i | gone <= i < |rows| :: resolved[i].status == Kept && resolved[i].intent == rows[i].intent;
      if 0 < gone < |rows| {
        assert rows[gone - 1].intent.identity !in stores && rows[gone].intent.identity in stores;
      }
    } else {
      gone :| Reconciled(rows, stores, gone);
      assert Resolve(rows, stores) == rows;
    }
  }

  /** How many planned objects are gone. */
  function GoneCount(rows: seq<Row>, stores: Stores): nat {
    if rows == [] then 0
    else GoneCount(rows[..|rows| - 1], stores) + if rows[|rows| - 1].intent.identity in stores then 0 else 1
  }

  lemma {:induction false} CountGone(rows: seq<Row>, stores: Stores, gone: nat)
    requires gone <= |rows| && forall i | 0 <= i < |rows| :: rows[i].intent.identity !in stores <==> i < gone
    ensures GoneCount(rows, stores) == gone
  {
    if rows != [] {
      var n := |rows| - 1;
      CountGone(rows[..n], stores, if gone <= n then gone else n);
    }
  }

  /** The removed rows of a reconciled run are the objects that are gone. */
  lemma ResolvedCount(rows: seq<Row>, stores: Stores, gone: nat)
    requires Reconciled(Resolve(rows, stores), stores, gone)
    ensures gone == GoneCount(rows, stores)
  {
    var resolved := Resolve(rows, stores);
    forall i | 0 <= i < |rows| ensures rows[i].intent.identity !in stores <==> i < gone {
      assert Intents(resolved)[i] == Intents(rows)[i] && resolved[i].intent == rows[i].intent;
    }
    CountGone(rows, stores, gone);
  }

  method CountOutcomes(rows: seq<Row>, ghost stores: Stores, ghost gone: nat) returns (removed: nat, kept: nat)
    requires Reconciled(rows, stores, gone)
    ensures removed == gone && kept == |rows| - gone
  {
    removed, kept := 0, 0;
    for i := 0 to |rows|
      invariant removed == if i < gone then i else gone
      invariant removed + kept == i
    {
      if rows[i].status == Removed {
        removed := removed + 1;
      } else if rows[i].status == Kept {
        kept := kept + 1;
      }
    }
  }

  /** The reconciled journal is a good one, marked complete or not. */
  lemma ResolvedIsActive(journal: Journal, marker: Marker, holds: Option<Holding>, stores: Stores,
                         candidates: seq<OwnerObject>, keys: set<string>) returns (gone: nat)
    requires ActiveJournal(journal, marker, holds, stores, candidates, keys) && AllOrNone(journal.rows, stores)
    ensures journal.Committed? && Reconciled(Resolve(journal.rows, stores), stores, gone)
    ensures ActiveJournal(journal.(rows := Resolve(journal.rows, stores)), marker, holds, stores, candidates, keys)
    ensures ActiveJournal(journal.(rows := Resolve(journal.rows, stores), complete := true),
                          marker, holds, stores, candidates, keys)
    ensures ReferentiallySound(candidates, stores)
  {
    var done := ActiveFrontier(journal, marker, holds, stores, candidates, keys);
    gone := ResolvedIsReconciled(journal.rows, stores, done);
    ReconciledIsSound(candidates, Resolve(journal.rows, stores), stores, gone);
  }

  /** The recovery groups with an object that is there, or with one that is gone. */
  ghost function GroupsShowing(rows: seq<Row>, stores: Stores, there: bool): set<nat> {
    set i | 0 <= i < |rows| && (rows[i].intent.identity in stores) == there :: rows[i].intent.group
  }

  lemma GroupsShowingNone(rows: seq<Row>, stores: Stores)
    ensures forall there :: GroupsShowing(rows[..0], stores, there) == {}
  {
  }

  lemma GroupsShowingMore(rows: seq<Row>, n: nat, stores: Stores, there: bool)
    requires n < |rows|
    ensures GroupsShowing(rows[..n + 1], stores, there) ==
            GroupsShowing(rows[..n], stores, there)
            + if (rows[n].intent.identity in stores) == there then {rows[n].intent.group} else {}
  {
    assert forall i | 0 <= i < n :: rows[..n + 1][i] == rows[..n][i];
    assert rows[..n + 1][n] == rows[n];
  }

  lemma GroupsDecide(rows: seq<Row>, stores: Stores)
    ensures AllOrNone(rows, stores) <==> GroupsShowing(rows, stores, true) !! GroupsShowing(rows, stores, false)
  {
    if i, j :| 0 <= i < |rows| && 0 <= j < |rows| && rows[i].intent.group == rows[j].intent.group
               && rows[i].intent.identity in stores && rows[j].intent.identity !in stores {
      assert rows[i].intent.group in GroupsShowing(rows, stores, true) * GroupsShowing(rows, stores, false);
    }
  }

  lemma ResolveOneMore(rows: seq<Row>, stores: Stores, i: nat)
    requires i < |rows|
    ensures Resolve(rows, stores)[..i + 1] == Resolve(rows, stores)[..i] + [Resolve(rows, stores)[i]]
    ensures Resolve(rows, stores)[i] ==
      if rows[i].status != Intended then rows[i]
      else rows[i].(status := if rows[i].intent.identity in stores then Kept else Removed)
  {
  }

  /** What a dying writer left, the writer takes up again. */
  lemma CutShortIsWritten(before: Files<File>, after: Files<File>, name: File, payload: Bytes)
    requires WriteLeft(before, after, name, payload) && !WriteRefused(before, name, payload)
    ensures !WriteRefused(after, name, payload)
  {
    if Temp(name) in after && after[Temp(name)] <= payload && |after[Temp(name)]| >= |payload| {
      assert after[Temp(name)] == payload;
    }
  }

  class Maintenance {
    const texts: Texts
    const disk: Disk<File>
    const stores: Owners
    // Verification keys of every receipt ever issued.
    const keys: set<string>
    var journals: map<string, Journal>
    // The candidates of the run behind the barrier.
    ghost var planned: seq<OwnerObject>

    constructor (texts: Texts, disk: Disk<File>, stores: Owners, keys: set<string>)
      ensures this.texts == texts && this.disk == disk && this.stores == stores && this.keys == keys
      ensures journals == map[]
    {
      this.texts, this.disk, this.stores, this.keys := texts, disk, stores, keys;
      journals, planned := map[], [];
    }

    function ActiveMarker(): Option<Marker>
      reads this, disk`files
    {
      if Final(Active) in disk.files then texts.readMarker(disk.files[Final(Active)]) else None
    }

    /** Behind a barrier there is a whole journal whose effects are a prefix. */
    ghost predicate Valid()
      reads this, disk`files, stores`objects
    {
      && texts.Canonical()
      && (Final(Active) in disk.files ==>
            && ActiveMarker().Some? && ActiveMarker().value.runId in journals
            && ActiveJournal(journals[ActiveMarker().value.runId], ActiveMarker().value,
                             HoldsInForce(texts, disk.files), stores.objects, planned, keys))
    }

    ghost function Held(): set<Identity>
      reads this, disk`files
    {
      if Register(texts, disk.files).Some? then Register(texts, disk.files).value else {}
    }

    /** Nothing stands in the way of a new run. */
    ghost predicate Ready(candidates: seq<OwnerObject>, runId: string, at: Instant, keyId: string, owners: set<string>)
      reads this, disk`files, stores`objects
    {
      && !Present(disk.files, Active) && runId !in journals && keyId in keys
      && HoldsInForce(texts, disk.files).Some? && Eligible(candidates, HoldsInForce(texts, disk.files).value, at)
      && AllObserved(candidates, stores.objects, owners)
    }

    /** A run not begun yet, or one whose beginning died after its intents were committed. */
    ghost predicate Retryable(candidates: seq<OwnerObject>, runId: string, at: Instant, keyId: string,
                              owners: set<string>,
                              digest: Identity -> int)
      reads this, disk`files, stores`objects
    {
      && Final(Active) !in disk.files && keyId in keys
      && HoldsInForce(texts, disk.files).Some? && Eligible(candidates, HoldsInForce(texts, disk.files).value, at)
      && AllObserved(candidates, stores.objects, owners)
      && var marker :=
           Marker(runId, at, PlanOf(candidates, digest, HoldsInForce(texts, disk.files).value, runId, at, keyId));
         && (runId in journals ==> Unused(journals[runId], marker))
         && !WriteRefused(disk.files, Active, texts.marker(marker))
    }

    /** The barrier is up over the candidates, and nothing is gone yet. */
    ghost predicate Begun(candidates: seq<OwnerObject>, runId: string)
      reads this, disk`files, stores`objects
    {
      && planned == candidates && ActiveMarker().Some? && ActiveMarker().value.runId == runId
      && Deleting(ActiveRows(), stores.objects, 0) && Planned(candidates, Intents(ActiveRows()))
    }

    /** Read one row's store again; None refuses. */
    method CheckRow(row: Row, owners: set<string>) returns (agrees: bool)
      ensures agrees <==> row.intent.identity.owner in owners && StoreAgrees(row, stores.objects)
    {
      if row.intent.identity.owner !in owners {
        return false;
      }
      var current := stores.Version(row.intent.identity);
      if current.Some? && current.value != row.intent.version {
        return false;
      }
      agrees := (row.status == Removed ==> current.None?) && (row.status == Kept ==> current.Some?);
    }

    /** One physical effect: check, delete, observe, mark. */
    method DeleteRow(runId: string, k: nat, owners: set<string>) returns (r: Outcome)
      requires runId in journals && journals[runId].Committed? && k < |journals[runId].rows|
      requires Deleting(journals[runId].rows, stores.objects, k) && Once(Intents(journals[runId].rows))
      modifies this`journals, disk`stop, stores`objects
      ensures old(disk.stop).None? ==> disk.stop.None? && !r.Stopped?
      ensures r.Refused? <==> old(journals[runId].rows[k].intent.identity.owner) !in owners
      ensures r.Done? ==>
        journals == old(journals)[runId := old(journals[runId]).(rows := Mark(old(journals[runId].rows), k, Removed))]
      ensures !r.Done? ==> journals == old(journals) && Deleting(journals[runId].rows, stores.objects, k)
      ensures r.Done? ==> Deleting(journals[runId].rows, stores.objects, k + 1)
      ensures stores.objects == old(stores.objects)
              || stores.objects == old(stores.objects) - {old(journals[runId].rows[k].intent.identity)}
    {
      var row := journals[runId].rows[k];
      Advance(journals[runId].rows, stores.objects, k);
      var agrees := CheckRow(row, owners);
      if !agrees {
        return Refused;
      }
      r := stores.Delete(row.intent.identity, row.intent.version, disk);
      if !r.Done? {
        return;
      }
      var observed := stores.Version(row.intent.identity);
      assert observed.None?;
      var alive := disk.Tick();
      if !alive {
        return Stopped;
      }
      journals := journals[runId := journals[runId].(rows := Mark(journals[runId].rows, k, Removed))];
    }

    /** The open rows of one recovery group, in order. */
    method DeleteGroup(runId: string, pending: seq<nat>, ghost done: nat, owners: set<string>)
        returns (r: Outcome, ghost completed: nat)
      requires runId in journals && journals[runId].Committed? && Once(Intents(journals[runId].rows))
      requires Deleting(journals[runId].rows, stores.objects, done) && 0 < |pending| <= |journals[runId].rows| - done
      requires forall i | 0 <= i < |pending| :: pending[i] == done + i
      requires OwnersKnown(journals[runId].rows, owners)
      modifies this`journals, disk`stop, stores`objects
      ensures old(disk.stop).None? ==> disk.stop.None? && !r.Stopped?
      ensures !r.Refused? && completed <= |pending| && (r.Done? ==> completed == |pending|)
      ensures Swept(old(journals), journals, runId, old(stores.objects), stores.objects, done, done + completed)
    {
      hide Deleting, Once, Intents;
      completed := 0;
      for i := 0 to |pending|
        invariant completed == i && runId in journals && journals[runId].Committed?
        invariant old(disk.stop).None? ==> disk.stop.None?
        invariant journals == old(journals)[runId := old(journals[runId]).(rows := journals[runId].rows)]
        invariant Intents(journals[runId].rows) == Intents(old(journals[runId].rows))
        invariant |journals[runId].rows| == |old(journals[runId].rows)|
        invariant Deleting(journals[runId].rows, stores.objects, done + completed)
        invariant OnlyIntentsGone(old(stores.objects), stores.objects, Intents(old(journals[runId].rows)))
      {
        assert Intents(journals[runId].rows)[done + i] == Intents(old(journals[runId].rows))[done + i];
        assert old(journals[runId].rows)[done + i] in old(journals[runId].rows);
        ghost var rows := journals[runId].rows;
        r := DeleteRow(runId, pending[i], owners);
        if !r.Done? {
          return;
        }
        assert Intents(Mark(rows, done + i, Removed)) == Intents(rows);
        completed := completed + 1;
      }
      return Done, completed;
    }

    /** The next group of a sweep that began at `origin`, if it fits the room left. */
    method SweepGroup(runId: string, rows: seq<Row>, p: nat, room: nat, inTime: bool, owners: set<string>,
                      ghost origin: map<string, Journal>, ghost was: Stores, ghost start: nat, ghost done: nat)
        returns (r: Outcome, fits: bool, end: nat, deleted: nat, ghost now: nat)
      requires Swept(origin, journals, runId, was, stores.objects, start, done)
      requires Once(Intents(rows)) && OwnersKnown(rows, owners) && origin[runId].rows == rows
      requires p < |rows| && p <= done
      requires OpenFrom(rows, p, done) && start <= done <= |rows| && (done == start || AtBoundary(rows, done))
      modifies this`journals, disk`stop, stores`objects
      ensures old(disk.stop).None? ==> disk.stop.None? && !r.Stopped?
      ensures !r.Refused? && p < end <= |rows| && AtBoundary(rows, end)
      ensures Swept(origin, journals, runId, was, stores.objects, start, now)
      ensures r.Done? ==> now == done + deleted && (fits ==> deleted <= room && now == if done < end then end else done)
      ensures r.Done? && fits ==> OpenFrom(rows, end, now) && now <= |rows|
      ensures r.Done? && fits && deleted > 0 ==> done < |rows| && deleted == RestOfGroup(rows, done) && now == end
      ensures r.Done? && fits && deleted > 0 ==> inTime
      ensures r.Done? && fits ==>
        now <= |rows| && GroupsIn(rows, start, now) == GroupsIn(rows, start, done) + if deleted > 0 then 1 else 0
      ensures r.Done? && !fits ==> deleted == 0 && done < |rows| && (room < RestOfGroup(rows, done) || !inTime)
    {
      hide *;
      SweptOwners(origin, journals, runId, was, stores.objects, start, done, owners);
      OpenFromLater(rows, p, done);
      end := GroupEnd(rows, p);
      deleted, now := 0, done;
      var pending := StillOpen(rows, p, end, done);
      if |pending| == 0 {
        return Done, true, end, 0, done;
      }
      RestIsUpTo(rows, done, end);
      OneMoreGroup(rows, start, done, end);
      if |pending| > room || !inTime {
        return Done, false, end, 0, done;
      }
      ghost var count;
      r, count := DeleteGroup(runId, pending, done, owners);
      SweptMore(origin, old(journals), journals, runId, was, old(stores.objects), stores.objects, start, done,
                done + count);
      fits, deleted, now := true, |pending|, done + count;
    }

    /** Whole groups in order while the budget and the time last. */
    method Sweep(runId: string, owners: set<string>, maxObjects: nat, groupsInTime: nat, ghost start: nat)
        returns (r: Outcome, completed: nat, ghost done: nat)
      requires runId in journals && journals[runId].Committed? && Once(Intents(journals[runId].rows))
      requires Frontier(journals[runId].rows, stores.objects, start)
      requires OwnersKnown(journals[runId].rows, owners)
      modifies this`journals, disk`stop, stores`objects
      ensures old(disk.stop).None? ==> disk.stop.None? && !r.Stopped?
      ensures !r.Refused?
      ensures Swept(old(journals), journals, runId, old(stores.objects), stores.objects, start, done)
      ensures r.Done? ==> done == start + completed && completed <= maxObjects
      ensures r.Done? && completed > 0 ==> AtBoundary(old(journals[runId].rows), start + completed)
      ensures r.Done? ==> Exhausted(old(journals[runId].rows), start, done, maxObjects - completed, groupsInTime)
    {
      hide *;
      var rows := journals[runId].rows;
      FrontierCount(rows, stores.objects, start);
      SweptNone(journals, runId, stores.objects, start);
      BoundaryAtStart(rows);
      completed, done := 0, start;
      NoGroupsYet(rows, start);
      var p, begun := 0, 0;
      while p < |rows|
        invariant p <= done <= |rows| && done == start + completed && completed <= maxObjects
        invariant completed > 0 ==> p == done
        invariant OpenFrom(rows, p, done)
        invariant AtBoundary(rows, p) && begun == GroupsIn(rows, start, done) && begun <= groupsInTime
        invariant old(disk.stop).None? ==> disk.stop.None?
        invariant Swept(old(journals), journals, runId, old(stores.objects), stores.objects, start, done)
        decreases |rows| - p
      {
        var fits, end, deleted;
        r, fits, end, deleted, done := SweepGroup(runId, rows, p, maxObjects - completed, begun < groupsInTime, owners,
                                                  old(journals), old(stores.objects), start, done);
        if r.Stopped? {
          return;
        }
        if !fits {
          StopsForWant(rows, start, done, maxObjects - completed, groupsInTime);
          return;
        }
        completed, begun := completed + deleted, begun + if deleted > 0 then 1 else 0;
        p := end;
      }
      StopsAtEnd(rows, start, maxObjects - completed, groupsInTime);
      r := Done;
    }

    /** The rows of the run behind the barrier. */
    function ActiveRows(): seq<Row>
      reads this, disk`files
    {
      if ActiveMarker().Some? && ActiveMarker().value.runId in journals
         && journals[ActiveMarker().value.runId].Committed?
      then journals[ActiveMarker().value.runId].rows else []
    }

    /** No row of the run has been preserved. */
    ghost predicate StillDeleting()
      reads this, disk`files, stores`objects
    {
      exists done: nat :: Deleting(ActiveRows(), stores.objects, done)
    }

    /** Why a run may not be finished yet. */
    ghost predicate Unfinishable(owners: set<string>, preserve: bool)
      reads this, disk`files, stores`objects
    {
      || Final(Active) !in disk.files || !OwnersKnown(ActiveRows(), owners)
      || (Unfinished(ActiveRows(), stores.objects) && !preserve) || !AllOrNone(ActiveRows(), stores.objects)
    }

    /** There is a barrier, its journal verifies, and every row agrees with a known store. */
    ghost predicate Recoverable(owners: set<string>)
      reads this, disk`files, stores`objects
    {
      && ActiveMarker().Some? && ActiveMarker().value.runId in journals
      && JournalVerifies(journals[ActiveMarker().value.runId], ActiveMarker().value, HoldsInForce(texts, disk.files),
                         keys)
      && forall row | row in ActiveRows() ::
           row.intent.identity.owner in owners && StoreAgrees(row, stores.objects)
    }

    /** Read the barrier, verify the journal and every row's store before anything
        new happens; None refuses, whatever the files, the journal and the stores say.
        What the runs themselves leave is only ever refused for an unknown store. */
    method Recover(owners: set<string>) returns (runId: Option<string>)
      ensures runId.Some? <==> Recoverable(owners)
      ensures Valid() ==> (runId.Some? <==> Final(Active) in disk.files && OwnersKnown(ActiveRows(), owners))
      ensures runId.Some? ==> ActiveMarker().Some? && runId.value == ActiveMarker().value.runId
                              && runId.value in journals && journals[runId.value].Committed?
    {
      if Final(Active) !in disk.files {
        return None;
      }
      var marker := ActiveMarker();
      if marker.None? || marker.value.runId !in journals {
        return None;
      }
      var journal := journals[marker.value.runId];
      if Valid() {
        ActiveVerifies(journal, marker.value, HoldsInForce(texts, disk.files), stores.objects, planned, keys);
      }
      hide ActiveJournal;
      if !JournalVerifies(journal, marker.value, HoldsInForce(texts, disk.files), keys) {
        return None;
      }
      hide JournalVerifies, StoreAgrees;
      for i := 0 to |journal.rows|
        invariant forall k | 0 <= k < i ::
          journal.rows[k].intent.identity.owner in owners && StoreAgrees(journal.rows[k], stores.objects)
      {
        assert journal.rows[i] in journal.rows;
        var agrees := CheckRow(journal.rows[i], owners);
        if !agrees {
          return None;
        }
      }
      return Some(marker.value.runId);
    }

    /** Delete more of the active run, group by group, within the budget.

        However it ends, the barrier stays and only unheld candidates went. A run
        that returns has accounted for every row it found open, and stopped between
        two groups unless it did nothing: at the end, for want of time, or before a
        group too big for what was left of the budget. */
    method Resume(owners: set<string>, maxObjects: nat, groupsInTime: nat) returns (r: Outcome, report: Report)
      requires Valid()
      modifies this`journals, disk`stop, stores`objects
      ensures old(disk.stop).None? ==> disk.stop.None? && !r.Stopped?
      ensures Valid() && Intents(ActiveRows()) == Intents(old(ActiveRows()))
      ensures old(StillDeleting()) ==> StillDeleting()
      ensures r.Refused? <==> maxObjects == 0 || Final(Active) !in disk.files || !OwnersKnown(old(ActiveRows()), owners)
      ensures r.Refused? ==> journals == old(journals) && stores.objects == old(stores.objects)
      ensures OnlyCandidatesGone(old(stores.objects), stores.objects, planned, Held())
      ensures r.Done? ==> report.completed <= maxObjects && report.remaining == OpenCount(ActiveRows())
      ensures r.Done? ==> report.completed + report.remaining == old(OpenCount(ActiveRows()))
      ensures r.Done? && report.completed > 0 ==> AtBoundary(ActiveRows(), |ActiveRows()| - report.remaining)
      ensures r.Done? ==> report.completed + report.remaining <= |ActiveRows()|
      ensures r.Done? ==>
        var done := |ActiveRows()| - report.remaining;
        Exhausted(ActiveRows(), done - report.completed, done, maxObjects - report.completed, groupsInTime)
      ensures r.Done? && old(OpenCount(ActiveRows())) <= maxObjects && |ActiveRows()| <= groupsInTime ==>
        report.remaining == 0
    {
      hide UnderBarrier, Signed, ReceiptVerifies, JournalVerifies, Reconciled, ActiveJournal, Swept, Frontier, Deleting,
        OnlyCandidatesGone, AtBoundary, Once, Planned, Unheld, Contiguous, Intents, OpenCount, OwnersKnown, Exhausted,
        Recoverable;
      report := Report(0, 0);
      NothingGone(stores.objects, planned, Held());
      if maxObjects == 0 {
        return Refused, report;
      }
      var run := Recover(owners);
      if run.None? {
        return Refused, report;
      }
      var runId := run.value;
      ghost var before, marker, was := journals[runId], ActiveMarker().value, stores.objects;
      ghost var start := ActiveFrontier(before, marker, HoldsInForce(texts, disk.files), stores.objects, planned, keys);
      assert ActiveRows() == before.rows && Held() == before.holds;
      var completed;
      ghost var done;
      r, completed, done := Sweep(runId, owners, maxObjects, groupsInTime, start);
      SweptIsActive(old(journals), journals, runId, marker, HoldsInForce(texts, disk.files), was, stores.objects,
                    planned, keys, start, done);
      assert ActiveMarker().value == marker && ActiveRows() == journals[runId].rows && Held() == before.holds;
      if r.Stopped? {
        return;
      }
      var remaining := CountOpen(journals[runId].rows);
      report := Report(completed, remaining);
      ExhaustedStill(before.rows, journals[runId].rows, start, done, maxObjects - completed, groupsInTime);
      ExhaustedFar(journals[runId].rows, start, done, maxObjects - completed, groupsInTime);
    }

    /** The manifest of the grouped candidates; None refuses an object whose store
        is unknown or no longer at the inventoried version. */
    method BuildManifest(groups: seq<seq<OwnerObject>>, runId: string, at: Instant, keyId: string, owners: set<string>)
        returns (manifest: Option<seq<Intent>>)
      ensures keyId in keys && (forall g | 0 <= g < |groups| :: AllObserved(groups[g], stores.objects, owners))
              ==> manifest.Some?
      ensures manifest.Some? ==> forall g | 0 <= g < |groups| :: AllObserved(groups[g], stores.objects, owners)
      ensures manifest.Some? ==> manifest.value == ManifestOf(groups, runId, at, keyId)
      ensures manifest.Some? ==> Untouched(manifest.value, stores.objects) && Signed(manifest.value, runId, at, keys)
    {
      var intents: seq<Intent> := [];
      for g := 0 to |groups|
        invariant intents == ManifestOf(groups[..g], runId, at, keyId)
        invariant Untouched(intents, stores.objects) && Signed(intents, runId, at, keys)
        invariant forall h | 0 <= h < g :: AllObserved(groups[h], stores.objects, owners)
      {
        ghost var before := intents;
        for k := 0 to |groups[g]|
          invariant intents == before + GroupIntents(groups[g][..k], g, runId, at, keyId)
          invariant Untouched(intents, stores.objects) && Signed(intents, runId, at, keys)
          invariant forall j | 0 <= j < k :: Observed(groups[g][j], stores.objects, owners)
        {
          var obj := groups[g][k];
          assert AllObserved(groups[g], stores.objects, owners) ==> Observed(obj, stores.objects, owners);
          if obj.identity.owner !in owners {
            return None;
          }
          var current := stores.Version(obj.identity);
          var intent := IntentOf(obj, g, runId, at, keyId);
          if current != Some(obj.version) || !ReceiptVerifies(intent, runId, at, keys) {
            return None;
          }
          assert GroupIntents(groups[g][..k + 1], g, runId, at, keyId) ==
            GroupIntents(groups[g][..k], g, runId, at, keyId) + [intent];
          intents := intents + [intent];
        }
        assert groups[g][..|groups[g]|] == groups[g];
        assert groups[..g + 1][..g] == groups[..g];
      }
      assert groups[..|groups|] == groups;
      return Some(intents);
    }

    /** Check, group and sign the candidates. */
    method TakeInventory(candidates: seq<OwnerObject>, runId: string, at: Instant, keyId: string,
                         owners: set<string>, holds: Holding, digest: Identity -> int) returns (plan: Option<Plan>)
      ensures plan.Some? ==> plan.value.holds == holds && Eligible(candidates, holds, at)
                             && Inventoried(candidates, plan.value, runId, at, keys, stores.objects)
      ensures Eligible(candidates, holds, at) && keyId in keys && AllObserved(candidates, stores.objects, owners)
              ==> plan.Some?
      ensures plan.Some? && Told(candidates, digest) ==>
        plan.value == PlanOf(candidates, digest, holds, runId, at, keyId)
    {
      hide Told, Components, Planned, Untouched, Signed, Unheld, AllObserved;
      if !Eligible(candidates, holds, at) {
        return None;
      }
      var groups := IndependentGroups(candidates, digest);
      var manifest := BuildManifest(groups, runId, at, keyId, owners);
      if manifest.None? {
        if AllObserved(candidates, stores.objects, owners) {
          GroupsObserved(candidates, groups, stores.objects, owners);
        }
        return None;
      }
      ManifestIsPlanned(candidates, groups, runId, at, keyId);
      PlannedIsUnheld(candidates, manifest.value, holds);
      return Some(Plan(holds, manifest.value));
    }

    /** Create the run's journal, or take one an earlier attempt committed. A process
        with exactly one step left strands a run that has none: its file stays bare. */
    method OpenJournal(marker: Marker) returns (r: Outcome)
      requires Signed(marker.plan.intents, marker.runId, marker.startedAt, keys) && Contiguous(marker.plan.intents)
      modifies this`journals, disk`stop
      ensures old(disk.stop).None? ==> disk.stop.None? && !r.Stopped?
      ensures forall id | id != marker.runId :: id in journals <==> id in old(journals)
      ensures forall id | id != marker.runId && id in journals :: journals[id] == old(journals)[id]
      ensures r.Refused? <==> marker.runId in old(journals) && !Unused(old(journals)[marker.runId], marker)
      ensures r.Refused? ==> journals == old(journals)
      ensures r.Done? ==> marker.runId in journals && Unused(journals[marker.runId], marker)
      ensures r.Stopped? ==> || journals == old(journals)
                             || (marker.runId in journals && journals[marker.runId].Created?)
                             || (marker.runId in journals && Unused(journals[marker.runId], marker))
      ensures marker.runId in old(journals) ==> journals == old(journals)
      ensures marker.runId !in old(journals) ==>
        && (old(disk.stop) == Some(0) ==> r.Stopped? && journals == old(journals))
        && (old(disk.stop) == Some(1) ==> r.Stopped? && journals == old(journals)[marker.runId := Created])
        && (old(disk.stop) !in {Some(0), Some(1)} ==>
            marker.runId in journals && Unused(journals[marker.runId], marker))
    {
      OpenVerifies(marker, keys);
      hide JournalVerifies;
      if marker.runId !in journals {
        var alive := disk.Tick();
        if !alive {
          return Stopped;
        }
        journals := journals[marker.runId := Created];
        alive := disk.Tick();
        if !alive {
          return Stopped;
        }
        journals := journals[marker.runId :=
          Committed(marker.runId, marker.startedAt, false, marker.plan.holds, Opened(marker.plan.intents))];
        alive := disk.Tick();
        if !alive {
          return Stopped;
        }
      }
      var journal := journals[marker.runId];
      if !JournalVerifies(journal, marker, Some(marker.plan.holds), keys) || journal.Created? || journal.complete
         || exists row | row in journal.rows :: row.status != Intended {
        return Refused;
      }
      VerifiedIsUnused(journal, marker, keys);
      return Done;
    }

    /** Commit the intents, then raise the barrier. Nothing physical happens here.

        A run that died after committing its intents may be begun again, and one that
        died before it created its journal. A run that died in between never begins
        under the same name: its bare file is refused. */
    method Begin(candidates: seq<OwnerObject>, runId: string, at: Instant, keyId: string,
                 owners: set<string>, digest: Identity -> int) returns (r: Outcome)
      requires Valid()
      modifies this`journals, this`planned, disk`files, disk`stop
      ensures old(disk.stop).None? ==> disk.stop.None? && !r.Stopped?
      ensures Valid() && Register(texts, disk.files) == Register(texts, old(disk.files))
      ensures Final(Active) in old(disk.files) ==>
        r.Refused? && disk.files == old(disk.files) && planned == old(planned) && journals == old(journals)
      ensures Final(HoldsNext) in old(disk.files) || Temp(HoldsNext) in old(disk.files) ==>
        r.Refused? && disk.files == old(disk.files) && journals == old(journals)
      ensures r.Refused? && Final(Active) !in old(disk.files) ==> Final(Active) !in disk.files
      ensures r.Done? ==> Final(Active) in disk.files
      ensures Final(Active) !in old(disk.files) && Final(Active) in disk.files ==>
        HoldsInForce(texts, old(disk.files)).Some? && Eligible(candidates, Held(), at) && Begun(candidates, runId)
      ensures old(Ready(candidates, runId, at, keyId, owners)) ==> !r.Refused?
      ensures Told(candidates, digest) && old(Retryable(candidates, runId, at, keyId, owners, digest)) ==>
        && !r.Refused?
        && (r.Stopped? ==> || Final(Active) in disk.files || Retryable(candidates, runId, at, keyId, owners, digest)
                           || (runId in journals && journals[runId].Created?))
      ensures Final(Active) !in old(disk.files) && runId in old(journals) && old(journals)[runId].Created? ==>
        r.Refused? && journals == old(journals)
      ensures runId in old(journals) ==> journals == old(journals)
      ensures old(Ready(candidates, runId, at, keyId, owners)) ==>
        && (old(disk.stop) == Some(0) ==> disk.files == old(disk.files) && journals == old(journals))
        && (old(disk.stop) == Some(1) ==>
            disk.files == old(disk.files) && runId in journals && journals[runId].Created?)
        && (old(disk.stop) !in {Some(0), Some(1)} ==> runId in journals && !journals[runId].Created?)
    {
      hide Eligible, Inventoried, AllObserved, ActiveJournal, Deleting, Unused, Signed, Told, PlanOf;
      if Final(Active) in disk.files {
        return Refused;
      }
      var holds := HoldsInForce(texts, disk.files);
      if holds.None? {
        return Refused;
      }
      var plan := TakeInventory(candidates, runId, at, keyId, owners, holds.value, digest);
      if plan.None? {
        return Refused;
      }
      var marker := Marker(runId, at, plan.value);
      InventoriedIsSigned(candidates, marker.plan, runId, at, keys, stores.objects);
      CreatedIsNotUnused(marker);
      r := OpenJournal(marker);
      if !r.Done? {
        return;
      }
      planned := candidates;
      UnusedIsActive(journals[runId], marker, stores.objects, candidates, keys);
      r := disk.WriteExclusive(Active, texts.marker(marker));
      assert Final(Holds).name != Active && Final(HoldsNext).name != Active && Temp(HoldsNext).name != Active;
      if r.Done? {
        var alive := disk.Tick();
        r := if alive then Done else Stopped;
      } else if r.Stopped? {
        CutShortIsWritten(old(disk.files), disk.files, Active, texts.marker(marker));
      }
    }

    /** The outcome of every row, or None when work is pending that may not be
        preserved, or a reference group is partly gone. */
    method ReadOutcomes(rows: seq<Row>, preserve: bool) returns (resolved: Option<seq<Row>>)
      ensures resolved.Some? <==> (preserve || !Unfinished(rows, stores.objects)) && AllOrNone(rows, stores.objects)
      ensures resolved.Some? ==> resolved.value == Resolve(rows, stores.objects)
    {
      hide AllOrNone, GroupsShowing, Resolve, Intents;
      var outcomes: seq<Row> := [];
      var present, absent := {}, {};
      GroupsShowingNone(rows, stores.objects);
      for i := 0 to |rows|
        invariant present == GroupsShowing(rows[..i], stores.objects, true)
        invariant absent == GroupsShowing(rows[..i], stores.objects, false)
        invariant outcomes == Resolve(rows, stores.objects)[..i]
        invariant preserve || !Unfinished(rows[..i], stores.objects)
      {
        var row := rows[i];
        var current := stores.Version(row.intent.identity);
        if current.Some? {
          present := present + {row.intent.group};
        } else {
          absent := absent + {row.intent.group};
        }
        GroupsShowingMore(rows, i, stores.objects, true);
        GroupsShowingMore(rows, i, stores.objects, false);
        ResolveOneMore(rows, stores.objects, i);
        assert rows[..i + 1] == rows[..i] + [row];
        if row.status == Intended {
          if current.Some? && !preserve {
            assert row in rows;
            return None;
          }
          row := row.(status := if current.Some? then Kept else Removed);
        }
        outcomes := outcomes + [row];
      }
      assert rows[..|rows|] == rows && outcomes == Resolve(rows, stores.objects);
      GroupsDecide(rows, stores.objects);
      return if present !! absent then Some(outcomes) else None;
    }

    /** Recover the run and commit the outcome of every row. */
    method Settle(owners: set<string>, preserve: bool) returns (r: Outcome, runId: string, ghost gone: nat)
      requires Valid()
      modifies this`journals, disk`stop
      ensures old(disk.stop).None? ==> disk.stop.None? && !r.Stopped?
      ensures Valid()
      ensures r.Refused? <==> old(Unfinishable(owners, preserve))
      ensures r.Done? ==> ActiveMarker().Some? && runId == ActiveMarker().value.runId
      ensures r.Done? ==> ReferentiallySound(planned, stores.objects)
      ensures r.Done? ==> runId in old(journals) && runId in journals && old(journals)[runId].Committed?
      ensures r.Done? ==>
        var before := old(journals)[runId];
        && journals[runId] == before.(rows := Resolve(before.rows, stores.objects))
        && Reconciled(Resolve(before.rows, stores.objects), stores.objects, gone)
        && ActiveJournal(before.(rows := Resolve(before.rows, stores.objects), complete := true), ActiveMarker().value,
                         HoldsInForce(texts, disk.files), stores.objects, planned, keys)
    {
      hide ActiveJournal, Resolve, AllOrNone, ReferentiallySound, Reconciled, OwnersKnown, Unfinished, HoldsInForce,
        Recoverable;
      runId, gone := "", 0;
      var run := Recover(owners);
      if run.None? {
        return Refused, runId, gone;
      }
      runId := run.value;
      var resolved := ReadOutcomes(journals[runId].rows, preserve);
      if resolved.None? {
        return Refused, runId, gone;
      }
      gone := ResolvedIsActive(journals[runId], ActiveMarker().value, HoldsInForce(texts, disk.files), stores.objects,
                               planned, keys);
      var alive := disk.Tick();
      if !alive {
        return Stopped, runId, gone;
      }
      journals := journals[runId := journals[runId].(rows := resolved.value)];
      return Done, runId, gone;
    }

    /** Reconcile every row with its store, then lower the barrier.

        It is refused exactly while an owner is missing, while work is pending
        that may not be preserved, while a reference group is partly gone, or when
        the recovery check fails. Once the barrier is down no candidate that is
        still there references, or is referenced by, one that is gone. */
    method Finish(owners: set<string>, preserve: bool, recovered: bool) returns (r: Outcome, removed: nat, kept: nat)
      requires Valid()
      modifies this`journals, disk`files, disk`stop
      ensures old(disk.stop).None? ==> disk.stop.None? && !r.Stopped?
      ensures Valid() && Register(texts, disk.files) == Register(texts, old(disk.files))
      ensures r.Refused? && recovered ==> old(Unfinishable(owners, preserve))
      ensures old(Unfinishable(owners, preserve)) ==> r.Refused?
      ensures r.Done? ==> recovered && disk.files == old(disk.files) - {Final(Active)}
      ensures !r.Done? ==> disk.files == old(disk.files)
      ensures r.Done? ==> ReferentiallySound(planned, stores.objects) && removed + kept == |old(ActiveRows())|
      ensures r.Done? ==> removed == GoneCount(old(ActiveRows()), stores.objects)
    {
      hide ActiveJournal, Resolve, ReferentiallySound, Reconciled, JournalVerifies, GoneCount, Unfinishable,
        HoldsInForce;
      removed, kept := 0, 0;
      var runId;
      ghost var gone;
      ghost var rows := ActiveRows();
      r, runId, gone := Settle(owners, preserve);
      if !r.Done? {
        return;
      }
      if !recovered {
        return Refused, 0, 0;
      }
      ActiveVerifies(journals[runId], ActiveMarker().value, HoldsInForce(texts, disk.files), stores.objects, planned,
                     keys);
      if !JournalVerifies(journals[runId], ActiveMarker().value, HoldsInForce(texts, disk.files), keys) {
        r := Refused;
        return;
      }
      var alive := disk.Tick();
      if !alive {
        return Stopped, 0, 0;
      }
      journals := journals[runId := journals[runId].(complete := true)];
      alive := disk.Unlink(Final(Active));
      if !alive {
        return Stopped, 0, 0;
      }
      removed, kept := CountOutcomes(journals[runId].rows, stores.objects, gone);
      ResolvedCount(rows, stores.objects, gone);
      return Done, removed, kept;
    }
  }
}
