/** The maintenance journal: intents first, a barrier last, effects one by one
    across independent stores, and a reconciliation before the barrier goes. */
module RetentionJournal {
  import opened Wrappers
  import opened DurableFiles
  import opened RetentionObjects
  import opened ReferenceGroups

  datatype Status = Intended | Removed | Kept

  /** What a deletion receipt signs, and the key that signs it. */
  datatype Receipt = Receipt(identity: Identity, version: string, runId: string, at: Instant, keyId: string)

  datatype Intent = Intent(identity: Identity, version: string, receipt: Receipt, group: nat)

  datatype Row = Row(intent: Intent, status: Status)

  /** A digest stands for what it is a digest of. */
  datatype Plan = Plan(holds: set<Identity>, intents: seq<Intent>)

  /** The startup barrier. */
  datatype Marker = Marker(runId: string, startedAt: Instant, plan: Plan)

  /** A run's journal: a bare file, or all its intents committed at once. */
  datatype Journal =
    | Created
    | Committed(runId: string, startedAt: Instant, complete: bool, holds: set<Identity>, rows: seq<Row>)

  function Intents(rows: seq<Row>): (intents: seq<Intent>)
    ensures |intents| == |rows| && forall i | 0 <= i < |rows| :: intents[i] == rows[i].intent
  {
    seq(|rows|, i requires 0 <= i < |rows| => rows[i].intent)
  }

  predicate ReceiptVerifies(intent: Intent, runId: string, at: Instant, keys: set<string>) {
    && intent.receipt == Receipt(intent.identity, intent.version, runId, at, intent.receipt.keyId)
    && intent.receipt.keyId in keys
  }

  /** Group ids start at zero and never jump. */
  predicate Contiguous(intents: seq<Intent>) {
    && (|intents| > 0 ==> intents[0].group == 0)
    && (forall i | 0 <= i < |intents| - 1 :: intents[i + 1].group in {intents[i].group, intents[i].group + 1})
  }

  /** What every reader of an active journal demands of it. */
  predicate JournalVerifies(journal: Journal, active: Marker, holds: Option<set<Identity>>, keys: set<string>) {
    && journal.Committed?
    && journal.runId == active.runId && journal.startedAt == active.startedAt
    && holds == Some(journal.holds)
    && Contiguous(Intents(journal.rows))
    && (journal.complete ==> forall row | row in journal.rows :: row.status != Intended)
    && (forall row | row in journal.rows :: ReceiptVerifies(row.intent, active.runId, active.startedAt, keys))
    && active.plan == Plan(journal.holds, Intents(journal.rows))
  }

  type Stores = map<Identity, string>

  /** What one row may find in its store. */
  predicate StoreAgrees(row: Row, stores: Stores) {
    && (row.intent.identity in stores ==> stores[row.intent.identity] == row.intent.version)
    && (row.status == Removed ==> row.intent.identity !in stores)
    && (row.status == Kept ==> row.intent.identity in stores)
  }

  ghost predicate Once(intents: seq<Intent>) {
    forall i, j | 0 <= i < j < |intents| :: intents[i].identity != intents[j].identity
  }

  /** The first `done` rows are marked and gone; the next may be gone unmarked. */
  ghost predicate Deleting(rows: seq<Row>, stores: Stores, done: nat) {
    && done <= |rows|
    && (forall i | 0 <= i < done :: rows[i].status == Removed && rows[i].intent.identity !in stores)
    && (forall i | done <= i < |rows| :: rows[i].status == Intended)
    && (forall i | done <= i < |rows| && rows[i].intent.identity in stores ::
          stores[rows[i].intent.identity] == rows[i].intent.version)
    && (forall i | done < i < |rows| :: rows[i].intent.identity in stores)
  }

  /** Every row has its outcome, and no group has two. */
  ghost predicate Reconciled(rows: seq<Row>, stores: Stores, done: nat) {
    && done <= |rows|
    && (forall i | 0 <= i < done :: rows[i].status == Removed && rows[i].intent.identity !in stores)
    && (forall i | done <= i < |rows| :: rows[i].status == Kept
          && rows[i].intent.identity in stores && stores[rows[i].intent.identity] == rows[i].intent.version)
    && (0 < done < |rows| ==> rows[done - 1].intent.group != rows[done].intent.group)
  }

  /** The intents of a run are its candidates, grouped by component. */
  ghost predicate Planned(candidates: seq<OwnerObject>, intents: seq<Intent>) {
    && Once(intents) && Contiguous(intents)
    && (forall id :: IsCandidate(candidates, id) <==> exists i | 0 <= i < |intents| :: intents[i].identity == id)
    && (forall i, j | 0 <= i < |intents| && 0 <= j < |intents| ::
          Adjacent(candidates, intents[i].identity, intents[j].identity) ==> intents[i].group == intents[j].group)
  }

  /** No reference joins a candidate that is gone to one that is still there. */
  ghost predicate ReferentiallySound(candidates: seq<OwnerObject>, stores: Stores) {
    forall a, b | Adjacent(candidates, a, b) :: a in stores <==> b in stores
  }

  /** Journals that verify behind one barrier are the same manifest under the same holds,
      each row with a receipt of its very object for this run, and differ at most in how
      far they got. */
  lemma OneManifest(first: Journal, second: Journal, active: Marker, held: Option<set<Identity>>,
                    heldLater: Option<set<Identity>>, keys: set<string>)
    requires JournalVerifies(first, active, held, keys) && JournalVerifies(second, active, heldLater, keys)
    ensures first.runId == second.runId == active.runId && first.startedAt == second.startedAt == active.startedAt
    ensures held == heldLater == Some(active.plan.holds) && first.holds == second.holds == active.plan.holds
    ensures |first.rows| == |second.rows|
    ensures forall i | 0 <= i < |first.rows| :: first.rows[i].intent == second.rows[i].intent
    ensures forall i | 0 <= i < |first.rows| ::
      var receipt := first.rows[i].intent.receipt;
      && receipt.identity == first.rows[i].intent.identity && receipt.version == first.rows[i].intent.version
      && receipt.runId == active.runId && receipt.at == active.startedAt && receipt.keyId in keys
    ensures forall i | 0 <= i < |first.rows| && first.complete :: first.rows[i].status in {Removed, Kept}
  {
    forall i | 0 <= i < |first.rows| ensures first.rows[i].intent == second.rows[i].intent {
      assert first.rows[i].intent == Intents(first.rows)[i] && second.rows[i].intent == Intents(second.rows)[i];
    }
    forall i | 0 <= i < |first.rows|
      ensures ReceiptVerifies(first.rows[i].intent, active.runId, active.startedAt, keys)
    {
      assert first.rows[i] in first.rows;
    }
  }

  lemma {:induction false} GroupsGrow(intents: seq<Intent>, i: nat, j: nat)
    requires Contiguous(intents) && i <= j < |intents|
    ensures intents[i].group <= intents[j].group
    decreases j
  {
    if i < j {
      GroupsGrow(intents, i, j - 1);
      assert intents[j - 1 + 1].group in {intents[j - 1].group, intents[j - 1].group + 1};
    }
  }

  lemma BoundarySeparates(rows: seq<Row>, stores: Stores, done: nat, i: nat, j: nat)
    requires Contiguous(Intents(rows)) && Reconciled(rows, stores, done) && i < done <= j < |rows|
    ensures rows[i].intent.group != rows[j].intent.group
  {
    GroupsGrow(Intents(rows), i, done - 1);
    GroupsGrow(Intents(rows), done - 1, done);
    GroupsGrow(Intents(rows), done, j);
  }

  lemma PlannedTogether(candidates: seq<OwnerObject>, intents: seq<Intent>, a: Identity, b: Identity)
      returns (i: nat, j: nat)
    requires Planned(candidates, intents) && Adjacent(candidates, a, b)
    ensures i < |intents| && j < |intents| && intents[i].identity == a && intents[j].identity == b
    ensures intents[i].group == intents[j].group && Contiguous(intents)
  {
    hide IsCandidate, References;
    i :| 0 <= i < |intents| && intents[i].identity == a;
    j :| 0 <= j < |intents| && intents[j].identity == b;
  }

  /** A run reconciled at a group boundary leaves no dangling reference. */
  lemma ReconciledIsSound(candidates: seq<OwnerObject>, rows: seq<Row>, stores: Stores, done: nat)
    requires Planned(candidates, Intents(rows)) && Reconciled(rows, stores, done)
    ensures ReferentiallySound(candidates, stores)
  {
    hide Planned, Adjacent, Contiguous;
    forall a, b | Adjacent(candidates, a, b) ensures a in stores <==> b in stores {
      var i, j := PlannedTogether(candidates, Intents(rows), a, b);
      if i < done <= j {
        BoundarySeparates(rows, stores, done, i, j);
      } else if j < done <= i {
        BoundarySeparates(rows, stores, done, j, i);
      }
    }
  }

  function IntentOf(obj: OwnerObject, group: nat, runId: string, at: Instant, keyId: string): Intent {
    Intent(obj.identity, obj.version, Receipt(obj.identity, obj.version, runId, at, keyId), group)
  }

  function GroupIntents(objects: seq<OwnerObject>, group: nat, runId: string, at: Instant,
                        keyId: string): (intents: seq<Intent>)
    ensures |intents| == |objects|
    ensures forall i | 0 <= i < |objects| :: intents[i] == IntentOf(objects[i], group, runId, at, keyId)
  {
    seq(|objects|, i requires 0 <= i < |objects| => IntentOf(objects[i], group, runId, at, keyId))
  }

  /** The groups in order, each object under the number of its group. */
  function ManifestOf(groups: seq<seq<OwnerObject>>, runId: string, at: Instant, keyId: string): seq<Intent> {
    if groups == [] then []
    else
      var n := |groups| - 1;
      ManifestOf(groups[..n], runId, at, keyId) + GroupIntents(groups[n], n, runId, at, keyId)
  }

  /** Each intent stands for an object of the group it names. */
  ghost predicate Places(groups: seq<seq<OwnerObject>>, intents: seq<Intent>) {
    && (forall i | 0 <= i < |intents| ::
          intents[i].group < |groups| && intents[i].identity in SetOf(Ids(groups[intents[i].group])))
    && (forall g, id | 0 <= g < |groups| && id in SetOf(Ids(groups[g])) ::
          exists i | 0 <= i < |intents| :: intents[i].identity == id)
  }

  ghost predicate Separate(groups: seq<seq<OwnerObject>>) {
    && (forall g | 0 <= g < |groups| :: |groups[g]| > 0 && Distinct(Ids(groups[g])))
    && (forall g, h | 0 <= g < h < |groups| :: SetOf(Ids(groups[g])) !! SetOf(Ids(groups[h])))
  }

  ghost predicate IntentsOf(objects: seq<OwnerObject>, group: nat, intents: seq<Intent>) {
    && |intents| == |objects|
    && forall i | 0 <= i < |objects| :: intents[i].identity == Ids(objects)[i] && intents[i].group == group
  }

  lemma PlacesGrow(groups: seq<seq<OwnerObject>>, first: seq<Intent>, last: seq<Intent>)
    requires |groups| > 0 && Places(groups[..|groups| - 1], first)
    requires IntentsOf(groups[|groups| - 1], |groups| - 1, last)
    ensures Places(groups, first + last)
  {
    var n, intents := |groups| - 1, first + last;
    forall i | 0 <= i < |intents|
      ensures intents[i].group < |groups| && intents[i].identity in SetOf(Ids(groups[intents[i].group]))
    {
      if i < |first| {
        assert groups[..n][first[i].group] == groups[first[i].group];
      } else {
        assert Ids(groups[n])[i - |first|] in SetOf(Ids(groups[n]));
      }
    }
    forall g, id | 0 <= g < |groups| && id in SetOf(Ids(groups[g]))
      ensures exists i | 0 <= i < |intents| :: intents[i].identity == id
    {
      if g < n {
        assert id in SetOf(Ids(groups[..n][g]));
        var i :| 0 <= i < |first| && first[i].identity == id;
        assert intents[i].identity == id;
      } else {
        var k :| 0 <= k < |groups[n]| && Ids(groups[n])[k] == id;
        assert intents[|first| + k].identity == id;
      }
    }
  }

  lemma OnceGrows(groups: seq<seq<OwnerObject>>, first: seq<Intent>, last: seq<Intent>)
    requires |groups| > 0 && Separate(groups) && Places(groups[..|groups| - 1], first) && Once(first)
    requires IntentsOf(groups[|groups| - 1], |groups| - 1, last)
    ensures Once(first + last)
  {
    var n, intents := |groups| - 1, first + last;
    forall i, j | 0 <= i < |first| <= j < |intents| ensures intents[i].identity != intents[j].identity {
      assert first[i].identity in SetOf(Ids(groups[..n][first[i].group]));
      assert Ids(groups[n])[j - |first|] in SetOf(Ids(groups[n]));
    }
  }

  lemma ContiguousGrows(first: seq<Intent>, last: seq<Intent>, n: nat)
    requires Contiguous(first) && |last| > 0 && forall i | 0 <= i < |last| :: last[i].group == n
    requires if n == 0 then first == [] else |first| > 0 && first[|first| - 1].group == n - 1
    ensures Contiguous(first + last) && (first + last)[|first + last| - 1].group == n
  {
  }

  /** Every object of the groups under its group, once, in contiguous groups. */
  ghost predicate WellPlaced(groups: seq<seq<OwnerObject>>, intents: seq<Intent>) {
    && Places(groups, intents) && Once(intents) && Contiguous(intents)
    && (if groups == [] then intents == [] else |intents| > 0 && intents[|intents| - 1].group == |groups| - 1)
  }

  lemma WellPlacedGrows(groups: seq<seq<OwnerObject>>, first: seq<Intent>, last: seq<Intent>)
    requires |groups| > 0 && Separate(groups) && WellPlaced(groups[..|groups| - 1], first)
    requires IntentsOf(groups[|groups| - 1], |groups| - 1, last)
    ensures WellPlaced(groups, first + last)
  {
    assert |groups[|groups| - 1]| > 0;
    PlacesGrow(groups, first, last);
    OnceGrows(groups, first, last);
    hide Places, Once, Separate;
    ContiguousGrows(first, last, |groups| - 1);
  }

  lemma SeparatePrefix(groups: seq<seq<OwnerObject>>)
    requires |groups| > 0 && Separate(groups)
    ensures Separate(groups[..|groups| - 1])
  {
  }

  lemma {:induction false} ManifestPlaces(groups: seq<seq<OwnerObject>>, runId: string, at: Instant, keyId: string)
    requires Separate(groups)
    ensures WellPlaced(groups, ManifestOf(groups, runId, at, keyId))
  {
    if groups != [] {
      hide Separate, WellPlaced;
      var n := |groups| - 1;
      SeparatePrefix(groups);
      ManifestPlaces(groups[..n], runId, at, keyId);
      var first, last := ManifestOf(groups[..n], runId, at, keyId), GroupIntents(groups[n], n, runId, at, keyId);
      assert IntentsOf(groups[n], n, last);
      WellPlacedGrows(groups, first, last);
    }
  }

  lemma PlacedIsCovered(groups: seq<seq<OwnerObject>>, intents: seq<Intent>, id: Identity)
    requires Places(groups, intents)
    ensures id in Covered(groups) <==> exists i | 0 <= i < |intents| :: intents[i].identity == id
  {
    InCovered(groups, id);
    if i :| 0 <= i < |intents| && intents[i].identity == id {
      assert id in SetOf(Ids(groups[intents[i].group]));
    }
  }

  lemma ComponentsSeparate(candidates: seq<OwnerObject>, groups: seq<seq<OwnerObject>>)
    requires Components(candidates, groups)
    ensures Separate(groups)
  {
    assert forall g | 0 <= g < |groups| :: IsComponent(candidates, groups[g]);
  }

  lemma PlacedIsPlanned(candidates: seq<OwnerObject>, groups: seq<seq<OwnerObject>>, intents: seq<Intent>)
    requires Components(candidates, groups) && WellPlaced(groups, intents)
    ensures Planned(candidates, intents)
  {
    hide IsComponent, Ids, SetOf, Adjacent, IsCandidate, Contiguous, Once, Places, Covered;
    forall id ensures IsCandidate(candidates, id) <==> exists i | 0 <= i < |intents| :: intents[i].identity == id {
      PlacedIsCovered(groups, intents, id);
    }
    forall i, j | 0 <= i < |intents| && 0 <= j < |intents|
                  && Adjacent(candidates, intents[i].identity, intents[j].identity)
      ensures intents[i].group == intents[j].group
    {
      SameGroup(candidates, groups, intents, i, j);
    }
  }

  /** The manifest of the components is a plan of the candidates. */
  lemma ManifestIsPlanned(candidates: seq<OwnerObject>, groups: seq<seq<OwnerObject>>, runId: string, at: Instant,
                          keyId: string)
    requires Components(candidates, groups)
    ensures Planned(candidates, ManifestOf(groups, runId, at, keyId))
  {
    hide *;
    ComponentsSeparate(candidates, groups);
    ManifestPlaces(groups, runId, at, keyId);
    PlacedIsPlanned(candidates, groups, ManifestOf(groups, runId, at, keyId));
  }

  lemma SameGroup(candidates: seq<OwnerObject>, groups: seq<seq<OwnerObject>>, intents: seq<Intent>, i: nat, j: nat)
    requires Components(candidates, groups) && Places(groups, intents) && i < |intents| && j < |intents|
    requires Adjacent(candidates, intents[i].identity, intents[j].identity)
    ensures intents[i].group == intents[j].group
  {
    var g, h := intents[i].group, intents[j].group;
    NoEdgeCrossesGroups(candidates, groups, g, intents[i].identity, intents[j].identity);
    assert intents[j].identity in SetOf(Ids(groups[g])) && intents[j].identity in SetOf(Ids(groups[h]));
  }
}
