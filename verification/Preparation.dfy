/** Converging one transition transaction on a verified staged authority set. */
module Preparation {
  import opened Wrappers
  import opened DurableFiles
  import opened CanonicalDocuments
  import opened PlanCodec
  import opened CheckpointCodec
  import opened CheckpointChain
  import MaterialPlan
  import Staging

  /** What a review of the expanded set finds, once it is on disk. */
  datatype Review = Review(digests: map<Key, Option<Bytes>>, setId: Bytes)

  /** One transaction: its name, the digest of its header, the identity that the
      platform gives each object it stores, and the review of a staged set. */
  datatype Transaction = Transaction(
    canon: Canon, id: Bytes, header: Bytes, platform: nat -> Platform, review: Staging.Tree -> Option<Review>)

  predicate Matches(t: Transaction, plan: Plan) {
    plan.transaction == t.id && plan.header == t.header
  }

  function EmptyDigests(): map<Key, Option<Bytes>> {
    map key | key in DIGEST_KEYS :: None
  }

  /** The first checkpoint of every preparation. */
  function Zero(t: Transaction): Checkpoint {
    Checkpoint(t.id, 0, None, Opened, [], EmptyDigests(), None)
  }

  /** One record for each entry, with the identity of the object that stands for it. */
  function RecordsOf(t: Transaction, entries: seq<MaterialPlan.Entry>, numbers: seq<nat>): seq<PayloadRecord>
    requires |numbers| == |entries|
  {
    seq(|entries|, i requires 0 <= i < |entries| =>
      var content := entries[i].content;
      PayloadRecord(entries[i].path, entries[i].confidential,
                    if content.File? then Some((|content.payload|, t.canon.sha(content.payload))) else None,
                    t.platform(numbers[i])))
  }

  /** The verified checkpoint of a plan that was expanded into these objects. */
  function Candidate(t: Transaction, plan: Plan, numbers: seq<nat>, tree: Staging.Tree): Option<Checkpoint>
    requires |numbers| == |plan.entries|
  {
    var found := t.review(tree);
    if found.None? then None
    else Build(Checkpoint(t.id, 1, Some(DigestOfCheckpoint(t.canon, Zero(t))), Verified,
                          RecordsOf(t, plan.entries, numbers), found.value.digests, Some(found.value.setId)))
  }

  /** The plan stands on disk, and every object has its number. */
  ghost predicate Expanded(plan: Plan, staged: Staging.Staged) {
    && Staging.Exactly(plan.entries, staged.tree)
    && forall entry | entry in plan.entries :: Staging.At(entry.path) in staged.births
  }

  /** The verified checkpoint of what is on disk. */
  ghost function Measured(t: Transaction, plan: Plan, staged: Staging.Staged): Option<Checkpoint> {
    if !Expanded(plan, staged) then None
    else Candidate(t, plan, Staging.Numbers(plan.entries, staged.births), staged.tree)
  }

  /** Whatever identities the platform gives, the expanded plan has its checkpoint. */
  ghost predicate Measurable(t: Transaction, plan: Plan) {
    forall staged | Expanded(plan, staged) ::
      Measured(t, plan, staged).Some? && Fits(t.canon, Measured(t, plan, staged).value)
  }

  /** A plan that can go all the way. */
  ghost predicate Usable(t: Transaction, plan: Plan) {
    PlanAdmitted(plan) && Matches(t, plan) && EncodePlan(t.canon, plan).Some? && Measurable(t, plan)
  }

  /** The plan that a final plan file holds. */
  function PlanIn(t: Transaction, file: Option<Bytes>): Option<Plan> {
    if file.None? then None
    else
      var plan := DecodePlan(t.canon, file.value);
      if plan.Some? && Matches(t, plan.value) then plan else None
  }

  /** A plan file cut short holds a beginning of some plan that was offered. */
  ghost predicate TornPlan(t: Transaction, offers: set<Plan>, pending: Bytes) {
    exists offer :: offer in offers && PlanAdmitted(offer) && EncodePlan(t.canon, offer).Some?
                    && pending <= EncodePlan(t.canon, offer).value
  }

  /** A plan found whole under either name is one that was offered. */
  lemma TornPlanIsOffer(t: Transaction, offers: set<Plan>, pending: Bytes)
    requires t.canon.Faithful() && TornPlan(t, offers, pending)
    ensures DecodePlan(t.canon, pending).Some? ==> DecodePlan(t.canon, pending).value in offers
  {
    hide DecodePlan, EncodePlan;
    var offer :| offer in offers && PlanAdmitted(offer) && EncodePlan(t.canon, offer).Some?
      && pending <= EncodePlan(t.canon, offer).value;
    var raw := EncodePlan(t.canon, offer).value;
    if pending == raw {
      if DecodePlan(t.canon, pending).Some? {
        var decoded := DecodePlan(t.canon, pending).value;
        PlanTextIsExact(t.canon, pending, decoded);
        assert EncodePlan(t.canon, decoded) == Some(raw);
        OneTextOnePlan(t.canon, decoded, offer);
      }
    } else {
      assert pending == raw[..|pending|];
      TornPlanIsNoPlan(t.canon, offer, |pending|);
    }
  }

  lemma OneTextOnePlan(canon: Canon, first: Plan, second: Plan)
    requires canon.Faithful() && PlanAdmitted(first) && PlanAdmitted(second)
    requires EncodePlan(canon, first).Some? && EncodePlan(canon, first) == EncodePlan(canon, second)
    ensures first == second
  {
    hide EncodePlan, DecodePlan, PlanAdmitted;
    PlanTextIsExact(canon, EncodePlan(canon, first).value, first);
    PlanTextIsExact(canon, EncodePlan(canon, first).value, second);
  }

  /** The plan file of an unfinished preparation: one of the offers, or none yet. */
  ghost predicate FileUnderway(t: Transaction, offers: set<Plan>, final: Option<Bytes>, pending: Option<Bytes>) {
    if final.None? then pending.Some? ==> TornPlan(t, offers, pending.value)
    else PlanIn(t, final).Some? && PlanIn(t, final).value in offers && pending.None?
  }

  ghost predicate AllUsable(t: Transaction, offers: set<Plan>) {
    forall offer | offer in offers :: Usable(t, offer)
  }

  /** A new pending plan file is a beginning of the offer. */
  lemma OfferIsTorn(t: Transaction, offers: set<Plan>, offer: Plan, pending: Bytes)
    requires offer in offers && Usable(t, offer) && pending <= EncodePlan(t.canon, offer).value
    ensures TornPlan(t, offers, pending)
  {
  }

  class PlanFile {
    const t: Transaction
    var final: Option<Bytes>
    var pending: Option<Bytes>
    // How many more steps this process lives; None when it is not going to die.
    var stop: Option<nat>

    constructor (t: Transaction, final: Option<Bytes>, pending: Option<Bytes>, stop: Option<nat>)
      ensures this.t == t && this.final == final && this.pending == pending && this.stop == stop
    {
      this.t, this.final, this.pending, this.stop := t, final, pending, stop;
    }

    /** Recover the one plan of the transaction, or create it from the offer.

        `staged` says whether the authority set already exists. The offer stands for
        the key-generating factory: it is taken only when `asked`. */
    method Ensure(staged: bool, offer: Plan, ghost offers: set<Plan>)
        returns (r: Outcome, plan: Option<Plan>, asked: bool)
      requires t.canon.Faithful()
      modifies this`final, this`pending, this`stop
      ensures old(stop).None? ==> stop.None? && !r.Stopped?
      ensures old(final).Some? ==> final == old(final) && pending == old(pending) && !asked
      ensures old(final).Some? ==> (r.Done? <==> old(pending).None? && PlanIn(t, final).Some?) && !r.Stopped?
      ensures r.Done? ==> final.Some? && plan == PlanIn(t, final) && plan.Some? && pending.None?
      ensures r.Done? ==> plan.value.transaction == t.id && plan.value.header == t.header
      ensures asked ==>
        old(final).None? && !staged && (old(pending).Some? ==> DecodePlan(t.canon, old(pending).value).None?)
      ensures r.Done? && old(final).None? ==> if asked then plan == Some(offer) else final == old(pending)
      ensures !r.Done? ==> final == old(final)
      ensures !r.Done? && !asked ==> pending == old(pending)
      ensures !r.Done? && asked ==> pending.Some? ==>
        EncodePlan(t.canon, offer).Some?
          && (pending == old(pending) || pending.value <= EncodePlan(t.canon, offer).value)
      ensures old(final).None? && staged ==> r.Refused?
      ensures (offer in offers && AllUsable(t, offers) && FileUnderway(t, offers, old(final), old(pending))
               && (staged ==> old(final).Some?))
              ==> !r.Refused? && FileUnderway(t, offers, final, pending)
    {
      hide DecodePlan, EncodePlan, Measurable, PlanAdmitted;
      asked, plan := false, None;
      ghost var good := offer in offers && AllUsable(t, offers) && FileUnderway(t, offers, final, pending);
      if good {
        assert Usable(t, offer);
        if pending.Some? {
          TornPlanIsOffer(t, offers, pending.value);
        }
      }
      hide TornPlan, AllUsable;
      if final.Some? {
        plan := PlanIn(t, final);
        return if pending.Some? || plan.None? then Refused else Done, plan, false;
      }
      if staged {
        return Refused, None, false;
      }
      var alive;
      if pending.Some? {
        var whole := DecodePlan(t.canon, pending.value);
        if whole.Some? {
          if !Matches(t, whole.value) {
            return Refused, None, false;
          }
          alive, stop := Spend(stop);
          if !alive {
            return Stopped, None, false;
          }
          final, pending := pending, None;
          return Done, whole, false;
        }
        alive, stop := Spend(stop);
        if !alive {
          return Stopped, None, false;
        }
        pending := None;
      }
      asked := true;
      var raw := EncodePlan(t.canon, offer);
      if !PlanAdmitted(offer) || !Matches(t, offer) || raw.None? {
        return Refused, None, true;
      }
      r := Publish(raw.value);
      if good && r.Stopped? && pending.Some? {
        OfferIsTorn(t, offers, offer, pending.value);
      }
      if r.Done? {
        PlanTextIsExact(t.canon, raw.value, offer);
        plan := PlanIn(t, final);
      }
    }

    /** Write the pending file whole, then give it its final name. */
    method Publish(raw: Bytes) returns (r: Outcome)
      requires pending.None? && final.None?
      modifies this`final, this`pending, this`stop
      ensures old(stop).None? ==> stop.None? && !r.Stopped?
      ensures !r.Refused?
      ensures r.Done? ==> final == Some(raw) && pending.None?
      ensures r.Stopped? ==> final.None? && (pending.None? || pending.value <= raw)
    {
      var alive;
      alive, stop := Spend(stop);
      if !alive {
        return Stopped;
      }
      pending := Some([]);
      var written := 0;
      while written < |raw|
        invariant written <= |raw|
        invariant old(stop).None? ==> stop.None?
        invariant final.None? && pending == Some(raw[..written])
      {
        alive, stop := Spend(stop);
        if !alive {
          assert raw[..written] <= raw;
          return Stopped;
        }
        var more :| 0 < more <= |raw| - written;
        pending := Some(raw[..written + more]);
        written := written + more;
      }
      assert raw[..written] == raw;
      alive, stop := Spend(stop);
      if !alive {
        return Stopped;
      }
      final, pending := pending, None;
      return Done;
    }
  }

  lemma ZeroIsFirst(t: Transaction)
    requires IsHex(t.id, 32)
    ensures CheckpointAdmitted(Zero(t)) && Follows(t.canon, t.id, [], Zero(t))
  {
  }

  lemma CandidateIsSecond(t: Transaction, plan: Plan, numbers: seq<nat>, tree: Staging.Tree)
    requires |numbers| == |plan.entries| && Candidate(t, plan, numbers, tree).Some?
    ensures SecondStep(t, Candidate(t, plan, numbers, tree).value)
  {
    hide Order, DigestOfCheckpoint, FieldsAdmitted, RecordsOf;
  }

  /** A verified step right behind the opening one. */
  ghost predicate SecondStep(t: Transaction, step: Checkpoint) {
    && Follows(t.canon, t.id, [Zero(t)], step) && step != Zero(t) && step.state == Verified
    && step.previous == Some(DigestOfCheckpoint(t.canon, Zero(t))) && step.sequence == 1
  }

  lemma MeasuredIsSecond(t: Transaction, plan: Plan, staged: Staging.Staged)
    requires Measured(t, plan, staged).Some?
    ensures SecondStep(t, Measured(t, plan, staged).value)
  {
    hide SecondStep, Candidate, Staging.Exactly;
    CandidateIsSecond(t, plan, Staging.Numbers(plan.entries, staged.births), staged.tree);
  }

  /** The record of one object: its entry's path and secrecy, size and digest of its
      payload if it is a file, and the identity of the very object. */
  ghost predicate RecordFits(t: Transaction, record: PayloadRecord, entry: MaterialPlan.Entry,
                             births: map<Staging.Place, nat>) {
    && record.path == entry.path && record.confidential == entry.confidential
    && record.stored == (match entry.content
                         case Folder => None
                         case File(payload) => Some((|payload|, t.canon.sha(payload))))
    && Staging.At(entry.path) in births && record.platform == t.platform(births[Staging.At(entry.path)])
  }

  ghost predicate Recorded(t: Transaction, records: seq<PayloadRecord>, entry: MaterialPlan.Entry,
                           births: map<Staging.Place, nat>) {
    exists record :: record in records && RecordFits(t, record, entry, births)
  }

  ghost predicate Meant(t: Transaction, record: PayloadRecord, entries: seq<MaterialPlan.Entry>,
                        births: map<Staging.Place, nat>) {
    exists entry :: entry in entries && RecordFits(t, record, entry, births)
  }

  /** What a verified checkpoint says of the objects that stand for a plan: one record
      for each entry, in byte order and no other, and what the review of the tree found. */
  ghost predicate Describes(t: Transaction, step: Checkpoint, plan: Plan, staged: Staging.Staged) {
    && step.transaction == t.id && step.state == Verified && step.sequence == 1
    && |step.inventory| == |plan.entries| && InOrder(step.inventory)
    && (forall entry | entry in plan.entries :: Recorded(t, step.inventory, entry, staged.births))
    && (forall record | record in step.inventory :: Meant(t, record, plan.entries, staged.births))
    && t.review(staged.tree).Some? && step.digests == t.review(staged.tree).value.digests
    && step.setId == Some(t.review(staged.tree).value.setId)
  }

  lemma RecordsAreMeant(t: Transaction, entries: seq<MaterialPlan.Entry>, births: map<Staging.Place, nat>,
                        ordered: seq<PayloadRecord>)
    requires forall entry | entry in entries :: Staging.At(entry.path) in births
    requires multiset(ordered) == multiset(RecordsOf(t, entries, Staging.Numbers(entries, births)))
    ensures |ordered| == |entries|
    ensures forall entry | entry in entries :: Recorded(t, ordered, entry, births)
    ensures forall record | record in ordered :: Meant(t, record, entries, births)
  {
    var records := RecordsOf(t, entries, Staging.Numbers(entries, births));
    assert |ordered| == |multiset(ordered)| == |multiset(records)| == |records|;
    forall i | 0 <= i < |entries| ensures RecordFits(t, records[i], entries[i], births) {
      assert entries[i] in entries;
    }
    forall entry | entry in entries ensures Recorded(t, ordered, entry, births) {
      var i :| 0 <= i < |entries| && entries[i] == entry;
      assert records[i] in multiset(ordered) && records[i] in ordered;
    }
    forall record | record in ordered ensures Meant(t, record, entries, births) {
      assert record in multiset(records);
      var i :| 0 <= i < |records| && records[i] == record;
      assert entries[i] in entries;
    }
  }

  lemma MeasuredDescribes(t: Transaction, plan: Plan, staged: Staging.Staged)
    requires Measured(t, plan, staged).Some?
    ensures Describes(t, Measured(t, plan, staged).value, plan, staged)
  {
    hide RecordsOf, Recorded, Meant, FieldsAdmitted, InOrder, Staging.Exactly, DigestOfCheckpoint, Order;
    var records := RecordsOf(t, plan.entries, Staging.Numbers(plan.entries, staged.births));
    OrderIsInOrder(records);
    RecordsAreMeant(t, plan.entries, staged.births, Order(records));
  }

  /** The opening step says that nothing happened yet. */
  lemma ZeroIsOpening(t: Transaction)
    ensures Zero(t).state == Opened && Zero(t).sequence == 0 && Zero(t).previous.None?
    ensures Zero(t).transaction == t.id && Zero(t).inventory == [] && Zero(t).setId.None?
    ensures forall key | key in Zero(t).digests :: Zero(t).digests[key].None?
  {
  }

  /** The opening step is the first and only the first of its chain. */
  lemma ZeroIsAlone(t: Transaction, folder: CheckpointFolder, chain: seq<Checkpoint>)
    requires ChainIs(t.canon, t.id, folder, chain) && chain != []
    ensures chain[|chain| - 1] == Zero(t) ==> chain == [Zero(t)]
  {
    hide DecodeCheckpoint, EmptyDigests;
    FollowsAt(t.canon, t.id, folder, chain, |chain| - 1);
  }

  /** The opening step, or a step that no digest tells from it. */
  predicate StandsForZero(t: Transaction, first: Checkpoint) {
    first == Zero(t) || t.canon.Collide(HashedText(t.canon, first), HashedText(t.canon, Zero(t)))
  }

  /** The journal of a finished preparation, as far as its digests can tell. */
  ghost predicate EndsVerified(t: Transaction, folder: CheckpointFolder, step: Checkpoint) {
    exists first :: StandsForZero(t, first) && ChainIs(t.canon, t.id, folder, [first, step])
  }

  /** A chain of two that ends in the candidate began with the opening step, unless
      another text has the digest of the opening step. */
  lemma VerifiedIsFinished(t: Transaction, folder: CheckpointFolder, chain: seq<Checkpoint>, step: Checkpoint)
    requires t.canon.Faithful() && IsHex(t.id, 32) && SecondStep(t, step)
    requires ChainIs(t.canon, t.id, folder, chain) && |chain| == 2 && chain[1] == step
    ensures StandsForZero(t, chain[0]) && chain == [chain[0], step]
  {
    hide DecodeCheckpoint, DigestOfCheckpoint, HashedText, Zero, CheckpointAdmitted, Order, Repeats, FieldsAdmitted;
    ZeroIsFirst(t);
    FollowsAt(t.canon, t.id, folder, chain, 0);
    FollowsAt(t.canon, t.id, folder, chain, 1);
    CheckpointTextIsExact(t.canon, folder[Numbered(0)], chain[0]);
    OneDigestOneCheckpoint(t.canon, chain[0], Zero(t));
  }

  lemma FinishedEndsVerified(t: Transaction, folder: CheckpointFolder, step: Checkpoint)
    requires ChainIs(t.canon, t.id, folder, [Zero(t), step])
    ensures EndsVerified(t, folder, step)
  {
    hide ChainIs, Zero;
    assert StandsForZero(t, Zero(t));
  }

  lemma PlanInIsAdmitted(t: Transaction, file: Option<Bytes>)
    ensures PlanIn(t, file).Some? ==> MaterialPlan.Admitted(PlanIn(t, file).value.entries)
  {
    hide MaterialPlan.Admitted;
  }

  /** The plan file and the staged tree of an unfinished preparation. */
  ghost predicate PlanUnderway(t: Transaction, offers: set<Plan>, final: Option<Bytes>, pending: Option<Bytes>,
                               tree: Staging.Tree) {
    && FileUnderway(t, offers, final, pending)
    && (if final.None? then tree == map[] else Staging.Convergent(PlanIn(t, final).value.entries, tree))
  }

  /** The verified step of the plan that has its final name, once it stands on disk. */
  ghost function StepOf(t: Transaction, final: Option<Bytes>, staged: Staging.Staged): Option<Checkpoint> {
    if PlanIn(t, final).None? then None else Measured(t, PlanIn(t, final).value, staged)
  }

  /** The journal of an unfinished preparation. */
  ghost predicate ChainUnderway(t: Transaction, step: Option<Checkpoint>, folder: CheckpointFolder,
                                chain: seq<Checkpoint>) {
    && ChainIs(t.canon, t.id, folder, chain)
    && (|| (chain == [] && OnlyTorn(t.canon, folder, chain, Zero(t)))
        || (chain == [Zero(t)] && Unfinished(1) !in folder)
        || (&& step.Some?
            && (|| (chain == [Zero(t)] && OnlyTorn(t.canon, folder, chain, step.value))
                || (chain == [Zero(t), step.value] && Unfinished(2) !in folder))))
  }

  /** A step that can stand behind the opening one. */
  ghost predicate GoodStep(t: Transaction, step: Option<Checkpoint>) {
    step.Some? ==> SecondStep(t, step.value) && Fits(t.canon, step.value)
  }

  /** Recovery leaves the empty chain, the opening step, or the finished chain. */
  lemma RecoveredUnderway(t: Transaction, step: Option<Checkpoint>, folder: CheckpointFolder, chain: seq<Checkpoint>)
    requires t.canon.Faithful() && IsHex(t.id, 32) && |EncodeCheckpoint(t.canon, Zero(t))| <= MAXIMUM_DOCUMENT_BYTES
    requires ChainUnderway(t, step, folder, chain) && GoodStep(t, step)
    ensures var recovered := RecoveredChain(t.canon, t.id, folder, chain);
            recovered == [] || recovered == [Zero(t)] || (step.Some? && recovered == [Zero(t), step.value])
  {
    hide ChainIs, Follows, CheckpointAdmitted, EncodeCheckpoint, Zero, DecodeCheckpoint, Promotable, Fits,
      DigestOfCheckpoint;
    if Unfinished(|chain|) in folder {
      var pending := folder[Unfinished(|chain|)];
      if chain == [] {
        ZeroIsFirst(t);
        ZeroFits(t);
        TornOrWhole(t.canon, t.id, chain, pending, Zero(t));
      } else {
        TornOrWhole(t.canon, t.id, chain, pending, step.value);
        assert [Zero(t)] + [step.value] == [Zero(t), step.value];
      }
    }
  }

  lemma ZeroFits(t: Transaction)
    requires CheckpointAdmitted(Zero(t)) && |EncodeCheckpoint(t.canon, Zero(t))| <= MAXIMUM_DOCUMENT_BYTES
    ensures Fits(t.canon, Zero(t))
  {
  }

  ghost predicate Settled(t: Transaction, step: Option<Checkpoint>, folder: CheckpointFolder, chain: seq<Checkpoint>) {
    && ChainIs(t.canon, t.id, folder, chain) && Unfinished(|chain|) !in folder
    && (chain == [Zero(t)] || (step.Some? && chain == [Zero(t), step.value]))
  }

  lemma UnderwayIsChain(t: Transaction, step: Option<Checkpoint>, folder: CheckpointFolder, chain: seq<Checkpoint>)
    requires ChainUnderway(t, step, folder, chain)
    ensures ChainIs(t.canon, t.id, folder, chain)
  {
  }

  lemma SettledIsUnderway(t: Transaction, step: Option<Checkpoint>, folder: CheckpointFolder, chain: seq<Checkpoint>)
    requires Settled(t, step, folder, chain)
    ensures ChainUnderway(t, step, folder, chain)
  {
    hide ChainIs, Zero, OnlyTorn;
  }

  /** What opening the journal leaves. */
  lemma OpenedIsUnderway(t: Transaction, step: Option<Checkpoint>, before: CheckpointFolder, was: seq<Checkpoint>,
                         after: CheckpointFolder, chain: seq<Checkpoint>, r: Outcome)
    requires t.canon.Faithful() && IsHex(t.id, 32) && |EncodeCheckpoint(t.canon, Zero(t))| <= MAXIMUM_DOCUMENT_BYTES
    requires ChainUnderway(t, step, before, was) && GoodStep(t, step)
    requires var recovered := RecoveredChain(t.canon, t.id, before, was);
      && (r.Refused? ==> recovered != [] && recovered != [Zero(t)] && recovered[|recovered| - 1].state != Verified)
      && (r.Done? ==> chain == if recovered == [] then [Zero(t)] else recovered)
      && (r.Stopped? ==>
          after == before || (ChainIs(t.canon, t.id, after, []) && OnlyTorn(t.canon, after, [], Zero(t))))
    requires r.Done? ==> ChainIs(t.canon, t.id, after, chain) && Unfinished(|chain|) !in after
    ensures !r.Refused? && (r.Done? ==> Settled(t, step, after, chain))
    ensures r.Stopped? ==> exists now :: ChainUnderway(t, step, after, now)
  {
    hide ChainIs, Zero, OnlyTorn, RecoveredChain, EncodeCheckpoint, Fits, DecodeCheckpoint, DigestOfCheckpoint, Follows;
    RecoveredUnderway(t, step, before, was);
    if r.Stopped? {
      if after == before {
        assert ChainUnderway(t, step, after, was);
      } else {
        assert ChainUnderway(t, step, after, []);
      }
    }
  }

  lemma UnderwayPlanIsOffer(t: Transaction, offers: set<Plan>, final: Option<Bytes>, pending: Option<Bytes>,
                            staged: Staging.Staged)
    requires FileUnderway(t, offers, final, pending) && AllUsable(t, offers)
    ensures final.Some? ==>
      PlanIn(t, final).Some? && PlanIn(t, final).value in offers && Usable(t, PlanIn(t, final).value)
    ensures GoodStep(t, StepOf(t, final, staged))
    ensures final.Some? && Expanded(PlanIn(t, final).value, staged) ==> StepOf(t, final, staged).Some?
  {
    hide DecodePlan, Candidate, Fits, PlanAdmitted, EncodePlan, SecondStep, Expanded;
    if StepOf(t, final, staged).Some? {
      MeasuredIsSecond(t, PlanIn(t, final).value, staged);
    }
  }

  /** A settled journal is at the opening step, or the plan stands on disk already;
      then nothing that was measured changes any more. */
  lemma StaysSettled(t: Transaction, before: Option<Bytes>, after: Option<Bytes>, was: Staging.Staged,
                     now: Staging.Staged,
                     folder: CheckpointFolder, chain: seq<Checkpoint>)
    requires Settled(t, StepOf(t, before, was), folder, chain) && (before.Some? ==> after == before)
    requires StepOf(t, before, was).Some? ==> now == was
    ensures Settled(t, StepOf(t, after, now), folder, chain)
  {
    hide ChainIs, Measured, DecodePlan, Zero;
  }

  lemma EmptyConverges()
    ensures forall entries :: Staging.Convergent(entries, map[])
  {
  }

  lemma ConcludedIsUnderway(t: Transaction, step: Option<Checkpoint>, folder: CheckpointFolder, chain: seq<Checkpoint>,
                            r: Outcome)
    requires step.Some? && !r.Refused?
    requires r.Done? ==> ChainIs(t.canon, t.id, folder, [Zero(t), step.value]) && Unfinished(2) !in folder
    requires r.Stopped? ==> chain == [Zero(t)] && ChainIs(t.canon, t.id, folder, chain)
                            && OnlyTorn(t.canon, folder, chain, step.value)
    ensures exists now :: ChainUnderway(t, step, folder, now)
  {
    hide ChainIs, Zero, OnlyTorn;
    if r.Done? {
      assert ChainUnderway(t, step, folder, [Zero(t), step.value]);
    } else {
      assert ChainUnderway(t, step, folder, chain);
    }
  }

  lemma FreshIsUnderway(t: Transaction, offers: set<Plan>)
    ensures PlanUnderway(t, offers, None, None, map[]) && ChainUnderway(t, None, map[], [])
    ensures Staging.Rooted(map[]) && Staging.Numbered(Staging.Staged(map[], map[]))
    ensures StepOf(t, None, Staging.Staged(map[], map[])) == None
  {
  }

  /** The numbers noted while the plan was expanded are those of the staged objects. */
  lemma NotedIsExpanded(plan: Plan, staged: Staging.Staged, numbers: seq<nat>)
    requires Staging.Exactly(plan.entries, staged.tree)
    requires Staging.NumbersAre(plan.entries, |plan.entries|, staged.births, numbers)
    ensures Expanded(plan, staged) && numbers == Staging.Numbers(plan.entries, staged.births)
  {
    hide Staging.Exactly;
  }

  lemma StepDescribes(t: Transaction, final: Option<Bytes>, staged: Staging.Staged)
    ensures StepOf(t, final, staged).Some? ==>
      Describes(t, StepOf(t, final, staged).value, PlanIn(t, final).value, staged)
  {
    hide Describes, Measured, DecodePlan;
    if StepOf(t, final, staged).Some? {
      MeasuredDescribes(t, PlanIn(t, final).value, staged);
    }
  }

  lemma NoPlanNoStep(t: Transaction, final: Option<Bytes>, staged: Staging.Staged)
    ensures StepOf(t, final, staged).Some? ==> final.Some?
  {
  }

  lemma StepStands(t: Transaction, final: Option<Bytes>, staged: Staging.Staged)
    requires PlanIn(t, final).Some?
    ensures StepOf(t, final, staged).Some? ==> Staging.Exactly(PlanIn(t, final).value.entries, staged.tree)
  {
    hide Staging.Exactly, DecodePlan, Candidate;
  }

  /** The step is the candidate built from the numbers that were noted. */
  lemma NotedIsStep(t: Transaction, final: Option<Bytes>, staged: Staging.Staged, numbers: seq<nat>)
    requires PlanIn(t, final).Some? && Staging.Exactly(PlanIn(t, final).value.entries, staged.tree)
    requires var entries := PlanIn(t, final).value.entries;
             Staging.NumbersAre(entries, |entries|, staged.births, numbers)
    ensures Expanded(PlanIn(t, final).value, staged) && |numbers| == |PlanIn(t, final).value.entries|
    ensures StepOf(t, final, staged) == Candidate(t, PlanIn(t, final).value, numbers, staged.tree)
  {
    hide Staging.Exactly, DecodePlan, Candidate, Expanded;
    NotedIsExpanded(PlanIn(t, final).value, staged, numbers);
  }

  lemma SettledContinues(t: Transaction, step: Option<Checkpoint>, folder: CheckpointFolder, chain: seq<Checkpoint>)
    requires Settled(t, step, folder, chain) && step.Some? && GoodStep(t, step)
    ensures chain in {[Zero(t)], [Zero(t), step.value]} && Fits(t.canon, step.value)
  {
    hide ChainIs, Zero, Fits, SecondStep;
  }

  class Preparer {
    const t: Transaction
    const journal: ChainFolder
    const file: PlanFile
    const work: Staging.Workspace

    constructor (t: Transaction, journal: ChainFolder, file: PlanFile, work: Staging.Workspace)
      ensures this.t == t && this.journal == journal && this.file == file && this.work == work
    {
      this.t, this.journal, this.file, this.work := t, journal, file, work;
    }

    /** The three parts belong to one transaction. */
    ghost predicate Together()
      reads this
    {
      && journal.canon == t.canon && journal.id == t.id && file.t == t
      && t.canon.Faithful() && IsHex(t.id, 32) && |EncodeCheckpoint(t.canon, Zero(t))| <= MAXIMUM_DOCUMENT_BYTES
    }

    /** Recover the journal and take its first step. */
    method OpenJournal(ghost was: seq<Checkpoint>) returns (r: Outcome, chain: seq<Checkpoint>)
      requires Together()
      modifies journal
      ensures old(journal.stop).None? ==> !r.Stopped? && journal.stop.None?
      ensures r.Done? ==> ChainIs(t.canon, t.id, journal.folder, chain) && Unfinished(|chain|) !in journal.folder
      ensures r.Done? ==> chain != [] && (chain == [Zero(t)] || chain[|chain| - 1].state == Verified)
      ensures ChainIs(t.canon, t.id, old(journal.folder), was) ==>
        var recovered := RecoveredChain(t.canon, t.id, old(journal.folder), was);
        && (r.Refused? ==> recovered != [] && recovered != [Zero(t)] && recovered[|recovered| - 1].state != Verified)
        && (r.Done? ==> chain == if recovered == [] then [Zero(t)] else recovered)
        && (r.Stopped? ==> journal.folder == old(journal.folder)
                           || (ChainIs(t.canon, t.id, journal.folder, [])
                               && OnlyTorn(t.canon, journal.folder, [], Zero(t))))
    {
      hide ChainIs, Follows, CheckpointAdmitted, EncodeCheckpoint, Zero, RecoveredChain, RecoveredFolder;
      r, chain := journal.Recover();
      if !r.Done? {
        return;
      }
      ghost var before :| ChainIs(t.canon, t.id, old(journal.folder), before)
                          && chain == RecoveredChain(t.canon, t.id, old(journal.folder), before);
      if ChainIs(t.canon, t.id, old(journal.folder), was) {
        OneChain(t.canon, t.id, old(journal.folder), before, was);
      }
      if chain == [] {
        ZeroIsFirst(t);
        r := journal.Append([], Zero(t));
        chain := [Zero(t)];
        assert [] + [Zero(t)] == [Zero(t)];
        return;
      }
      var last := chain[|chain| - 1];
      if last != Zero(t) && last.state != Verified {
        return Refused, chain;
      }
      ZeroIsAlone(t, journal.folder, chain);
    }

    /** Make the verified step durable, or find it there. */
    method Conclude(chain: seq<Checkpoint>, plan: Plan, numbers: seq<nat>) returns (r: Outcome)
      requires Together() && ChainIs(t.canon, t.id, journal.folder, chain) && Unfinished(|chain|) !in journal.folder
      requires chain != [] && (chain == [Zero(t)] || chain[|chain| - 1].state == Verified)
      requires |numbers| == |plan.entries|
      modifies journal
      ensures old(journal.stop).None? ==> !r.Stopped? && journal.stop.None?
      ensures r.Refused? ==> journal.folder == old(journal.folder)
      ensures var candidate := Candidate(t, plan, numbers, work.tree);
        && (!r.Refused? ==> candidate.Some?)
        && (r.Done? ==> EndsVerified(t, journal.folder, candidate.value) && Unfinished(2) !in journal.folder)
        && (r.Done? && chain in {[Zero(t)], [Zero(t), candidate.value]} ==>
              ChainIs(t.canon, t.id, journal.folder, [Zero(t), candidate.value]))
        && (r.Stopped? ==> chain == [Zero(t)] && ChainIs(t.canon, t.id, journal.folder, chain)
                           && OnlyTorn(t.canon, journal.folder, chain, candidate.value))
        && (candidate.Some? && Fits(t.canon, candidate.value) && chain in {[Zero(t)], [Zero(t), candidate.value]} ==>
              !r.Refused?)
    {
      hide ChainIs, Follows, CheckpointAdmitted, EncodeCheckpoint, Zero, Candidate, StandsForZero, DigestOfCheckpoint;
      var candidate := Candidate(t, plan, numbers, work.tree);
      if candidate.None? {
        return Refused;
      }
      CandidateIsSecond(t, plan, numbers, work.tree);
      ZeroIsOpening(t);
      var last := chain[|chain| - 1];
      if last.state == Verified {
        if last != candidate.value || |chain| != 2 {
          return Refused;
        }
        VerifiedIsFinished(t, journal.folder, chain, candidate.value);
        return Done;
      }
      if !CheckpointAdmitted(candidate.value) || |EncodeCheckpoint(t.canon, candidate.value)| > MAXIMUM_DOCUMENT_BYTES {
        return Refused;
      }
      r := journal.Append(chain, candidate.value);
      assert chain + [candidate.value] == [Zero(t), candidate.value];
      if r.Done? {
        FinishedEndsVerified(t, journal.folder, candidate.value);
      }
    }

    /** The verified step of what is on disk now. */
    ghost function Step(): Option<Checkpoint>
      reads this, file`final, work`tree, work`births
    {
      StepOf(t, file.final, Staging.Staged(work.tree, work.births))
    }

    /** The journal, the plan and the tree of an unfinished preparation. */
    ghost predicate Underway(offers: set<Plan>, chain: seq<Checkpoint>)
      reads this, journal`folder, file`final, file`pending, work`tree, work`births
    {
      && PlanUnderway(t, offers, file.final, file.pending, work.tree)
      && ChainUnderway(t, Step(), journal.folder, chain)
    }

    /** A tree of numbered objects. */
    ghost predicate Standing()
      reads this, work`tree, work`births
    {
      Staging.Rooted(work.tree) && Staging.Numbered(Staging.Staged(work.tree, work.births))
    }

    /** Run the preparation to its end from whatever an earlier one left.

        When it ends well the chain is exactly the opening step and the verified
        step of the one plan, and the staged tree is that plan. From a preparation
        that dies anywhere it is never refused, and a plan that has its final name
        never changes. What the verified step says of the objects is measured anew
        in every run; it is the same because no object is ever replaced. */
    method Prepare(offer: Plan, ghost offers: set<Plan>, ghost was: seq<Checkpoint>) returns (r: Outcome)
      requires Together() && Standing()
      modifies journal, file, work
      ensures old(journal.stop).None? && old(file.stop).None? && old(work.stop).None? ==> !r.Stopped?
      ensures Standing() && Staging.SameObjects(old(work.births), work.births)
      ensures r.Done? ==>
        && PlanIn(t, file.final).Some? && Staging.Exactly(PlanIn(t, file.final).value.entries, work.tree)
        && Step().Some? && EndsVerified(t, journal.folder, Step().value)
        && Describes(t, Step().value, PlanIn(t, file.final).value, Staging.Staged(work.tree, work.births))
      ensures old(file.final).Some? ==> file.final == old(file.final)
      ensures old(Step()).Some? ==> Step() == old(Step())
      ensures offer in offers && AllUsable(t, offers) && old(Underway(offers, was)) ==>
        && !r.Refused? && (exists chain :: Underway(offers, chain))
        && (r.Done? ==> ChainIs(t.canon, t.id, journal.folder, [Zero(t), Step().value]))
    {
      hide ChainIs, Follows, CheckpointAdmitted, EncodeCheckpoint, Zero, DecodePlan, Fits, Usable, SecondStep,
        Staging.Rooted, Staging.Exactly, Staging.Convergent, Staging.FinalsKept, Staging.SameObjects, Staging.Numbered,
        Staging.NumbersAre, ChainUnderway, Settled, RecoveredChain, StepOf, Candidate, GoodStep, Expanded, Describes,
        FileUnderway, AllUsable, OnlyTorn, MaterialPlan.Admitted, IsHex, EndsVerified;
      ghost var good := offer in offers && AllUsable(t, offers) && Underway(offers, was);
      ghost var found := Staging.Staged(work.tree, work.births);
      NoPlanNoStep(t, file.final, found);
      Staging.SameAsBefore(work.births);
      if good {
        UnderwayIsChain(t, Step(), journal.folder, was);
      }
      var chain;
      r, chain := OpenJournal(was);
      if good {
        UnderwayPlanIsOffer(t, offers, file.final, file.pending, found);
        OpenedIsUnderway(t, Step(), old(journal.folder), was, journal.folder, chain, r);
      }
      if !r.Done? {
        if good {
          ghost var now :| ChainUnderway(t, Step(), journal.folder, now);
          assert Underway(offers, now);
        }
        return;
      }
      var plan, asked;
      r, plan, asked := file.Ensure(Staging.At(MaterialPlan.TOP) in work.tree, offer, offers);
      if good {
        StaysSettled(t, old(file.final), file.final, found, found, journal.folder, chain);
        SettledIsUnderway(t, Step(), journal.folder, chain);
        EmptyConverges();
        assert Underway(offers, chain);
      }
      if !r.Done? {
        return;
      }
      PlanInIsAdmitted(t, file.final);
      StepStands(t, file.final, found);
      var numbers;
      r, numbers := work.Materialise(plan.value.entries);
      ghost var staged := Staging.Staged(work.tree, work.births);
      if good {
        StaysSettled(t, file.final, file.final, found, staged, journal.folder, chain);
        SettledIsUnderway(t, Step(), journal.folder, chain);
        assert Underway(offers, chain);
      }
      if !r.Done? {
        return;
      }
      NotedIsStep(t, file.final, staged, numbers);
      if good {
        UnderwayPlanIsOffer(t, offers, file.final, file.pending, staged);
        SettledContinues(t, Step(), journal.folder, chain);
      }
      r := Conclude(chain, plan.value, numbers);
      StepDescribes(t, file.final, staged);
      if good {
        ConcludedIsUnderway(t, Step(), journal.folder, chain, r);
        ghost var now :| ChainUnderway(t, Step(), journal.folder, now);
        assert Underway(offers, now);
      }
    }

    /** One preparation, dying any number of times, each run with another offer: the
        plan that first got its final name is the plan of every later run, and the
        chain that results is the opening step and the verified step of the objects
        that stand for that plan. */
    method PrepareAcrossStops(runs: seq<(Plan, nat, nat, nat)>, last: Plan)
        returns (r: Outcome, ghost plans: seq<Option<Plan>>)
      requires Together() && file.final.None? && file.pending.None? && journal.folder == map[]
      requires work.tree == map[] && work.births == map[]
      requires Usable(t, last) && forall run | run in runs :: Usable(t, run.0)
      modifies journal, file, work
      ensures r.Done? && PlanIn(t, file.final).Some?
      ensures var plan := PlanIn(t, file.final).value;
              && (plan == last || exists run | run in runs :: run.0 == plan)
              && Staging.Exactly(plan.entries, work.tree)
              && Step().Some? && ChainIs(t.canon, t.id, journal.folder, [Zero(t), Step().value])
              && Describes(t, Step().value, plan, Staging.Staged(work.tree, work.births))
      ensures |plans| == |runs| && forall i | 0 <= i < |runs| && plans[i].Some? :: plans[i] == PlanIn(t, file.final)
    {
      hide ChainIs, CheckpointAdmitted, EncodeCheckpoint, Zero, StepOf, DecodePlan, Fits, Usable, ChainUnderway,
        Staging.Rooted, Staging.Exactly, Staging.Convergent, Staging.Numbered, Staging.SameObjects,
        MaterialPlan.Admitted,
        IsHex, TornPlan, EndsVerified, Describes;
      ghost var offers := {last} + set run | run in runs :: run.0;
      FreshIsUnderway(t, offers);
      plans := [];
      ghost var chain := [];
      for i := 0 to |runs|
        invariant Together() && Standing() && Underway(offers, chain)
        invariant |plans| == i && forall k | 0 <= k < i && plans[k].Some? :: plans[k] == PlanIn(t, file.final)
      {
        journal.stop, file.stop, work.stop := Some(runs[i].1), Some(runs[i].2), Some(runs[i].3);
        r := Prepare(runs[i].0, offers, chain);
        chain :| Underway(offers, chain);
        plans := plans + [PlanIn(t, file.final)];
      }
      journal.stop, file.stop, work.stop := None, None, None;
      r := Prepare(last, offers, chain);
    }
  }
}
