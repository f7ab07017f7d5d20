/** The assumptions of a preparation can be met: one transaction whose plan is a
    single directory, with the canonical texts of `CodecInstances`. */
module PreparationInstance {
  import opened Wrappers
  import opened DurableFiles
  import opened MaterialPlan
  import opened CanonicalDocuments
  import opened PlanCodec
  import opened CheckpointCodec
  import opened CheckpointChain
  import opened Preparation
  import opened CodecInstances
  import Staging

  ghost predicate Short(fields: Fields, limit: nat) {
    forall key | key in fields :: |Encoded(fields[key])| <= limit
  }

  lemma {:induction false} FieldsAreBounded(document: Json, n: nat, limit: nat)
    requires document.Document? && n <= |KEYS| && Short(document.fields, limit)
    ensures |EncodedFields(document, n)| <= (|KEYS| - n) * (1 + limit)
    decreases |KEYS| - n
  {
    hide Encoded, EncodedFields;
    FieldsUnfold(document, n);
    if n < |KEYS| {
      FieldsAreBounded(document, n + 1, limit);
      assert (|KEYS| - n) * (1 + limit) == (|KEYS| - (n + 1)) * (1 + limit) + (1 + limit);
    }
  }

  lemma DocumentIsShort(fields: Fields, limit: nat)
    requires Short(fields, limit)
    ensures |Encoded(Document(fields))| <= 1 + |KEYS| * (1 + limit)
  {
    FieldsAreBounded(Document(fields), 0, limit);
  }

  lemma TextIsShort(text: Bytes)
    requires |text| <= 99
    ensures |Encoded(Text(text))| <= 2 * |text| + 2 <= 200
  {
  }

  lemma NumberIsShort(number: int)
    requires 0 <= number <= 2
    ensures |Encoded(Number(number))| <= 20
  {
    assert Unary(2) == [1] + Unary(1) && Unary(1) == [1] + Unary(0);
  }

  lemma NoneIsShort()
    ensures |Encoded(Null)| <= 200 && |Encoded(List([]))| <= 200
  {
  }

  lemma OptionalIsShort(value: Option<Bytes>)
    requires value.Some? ==> IsHex(value.value, 64)
    ensures |Encoded(Optional(value))| <= 200
  {
    hide Encoded;
    NoneIsShort();
    if value.Some? {
      TextIsShort(value.value);
    }
  }

  lemma DigestsAreShort(fields: Fields, checkpoint: Checkpoint)
    requires FieldsAdmitted(checkpoint) && HasFields(fields, checkpoint)
    ensures forall key | key in DIGEST_KEYS :: |Encoded(fields[key])| <= 200
  {
    hide Encoded, Optional, IsHex;
    forall key | key in DIGEST_KEYS ensures |Encoded(fields[key])| <= 200 {
      OptionalIsShort(checkpoint.digests[key]);
    }
  }

  /** What the platform says of an object is short. */
  ghost predicate ShortPlatform(platform: Platform) {
    platform.Posix? && 0 <= platform.device <= 2 && 0 <= platform.inode <= 2
  }

  lemma PlatformIsShort(platform: Platform)
    requires ShortPlatform(platform)
    ensures |Encoded(PlatformDocument(platform))| <= 673
  {
    hide Encoded;
    NumberIsShort(platform.device);
    NumberIsShort(platform.inode);
    TextIsShort(POSIX);
    DocumentIsShort(PlatformDocument(platform).fields, 20);
  }

  lemma RecordIsShort(record: PayloadRecord)
    requires |record.path| <= 99 && record.stored.None? && ShortPlatform(record.platform)
    ensures |Encoded(RecordDocument(record))| <= 21_569
  {
    hide Encoded, PlatformDocument;
    NoneIsShort();
    TextIsShort(record.path);
    RecordWordsAreShort();
    PlatformIsShort(record.platform);
    DocumentIsShort(RecordDocument(record).fields, 673);
  }

  lemma RecordWordsAreShort()
    ensures |Encoded(Text(DIRECTORY))| <= 200
    ensures |Encoded(Text(CONFIDENTIAL))| <= 200 && |Encoded(Text(INTEGRITY_ONLY))| <= 200
  {
    hide Encoded;
    TextIsShort(DIRECTORY);
    TextIsShort(CONFIDENTIAL);
    TextIsShort(INTEGRITY_ONLY);
  }

  /** At most one directory, and a short name for it. */
  ghost predicate OneDirectory(records: seq<PayloadRecord>) {
    |records| <= 1 && forall record | record in records ::
      |record.path| <= 99 && record.stored.None? && ShortPlatform(record.platform)
  }

  lemma InventoryIsShort(records: seq<PayloadRecord>)
    requires OneDirectory(records)
    ensures |Encoded(List(RecordsDocument(records)))| <= 21_572
  {
    hide Encoded, RecordDocument;
    if records == [] {
      NoneIsShort();
      assert RecordsDocument(records) == [];
    } else {
      assert records[0] in records;
      RecordIsShort(records[0]);
      OneItemIsShort(RecordDocument(records[0]));
      assert RecordsDocument(records) == [RecordDocument(records[0])];
    }
  }

  lemma BodyIsShort(fields: Fields, checkpoint: Checkpoint)
    requires FieldsAdmitted(checkpoint) && OneDirectory(checkpoint.inventory) && checkpoint.sequence <= 1
    requires HasFields(fields, checkpoint)
    ensures forall key | key in BODY_KEYS :: |Encoded(fields[key])| <= 21_572
  {
    hide Encoded, Optional, Spelled, OneDirectory, RecordsDocument;
    OptionalIsShort(checkpoint.previous);
    OptionalIsShort(checkpoint.setId);
    NumberIsShort(checkpoint.sequence);
    NumberIsShort(1);
    NoneIsShort();
    TextIsShort(checkpoint.transaction);
    StateIsShort(checkpoint.state);
    InventoryIsShort(checkpoint.inventory);
  }

  /** A checkpoint of one directory is far below the bound. */
  lemma FieldsAreShort(fields: Fields, checkpoint: Checkpoint)
    requires FieldsAdmitted(checkpoint) && OneDirectory(checkpoint.inventory) && checkpoint.sequence <= 1
    requires HasFields(fields, checkpoint) && fields.Keys == BODY_KEYS + DIGEST_KEYS + {CheckpointDigest}
    requires fields[CheckpointDigest].Text? && IsHex(fields[CheckpointDigest].utf8, 64)
    ensures Short(fields, 21_572)
  {
    hide Encoded, HasFields, FieldsAdmitted, OneDirectory;
    BodyIsShort(fields, checkpoint);
    DigestsAreShort(fields, checkpoint);
    TextIsShort(fields[CheckpointDigest].utf8);
  }

  lemma StateIsShort(state: ProvisioningState)
    ensures |Encoded(Text(Spelled(state)))| <= 200
  {
    hide Encoded;
    TextIsShort(Spelled(state));
  }

  lemma SmallCheckpointFits(checkpoint: Checkpoint)
    requires CheckpointAdmitted(checkpoint) && OneDirectory(checkpoint.inventory) && checkpoint.sequence <= 1
    ensures Fits(Tagged(), checkpoint)
  {
    hide Encoded, Body, HashedText, HasFields, InOrder, IsHex, Short, OneDirectory;
    var fields := FieldsOf(Tagged(), checkpoint);
    DocumentFields(Tagged(), checkpoint);
    TaggedIsFaithful();
    DigestIsHex(Tagged(), checkpoint);
    FieldsAreShort(fields, checkpoint);
    DocumentIsShort(fields, 21_572);
  }

  /** The plan of one directory. */
  function OneFolder(): Plan {
    Plan(seq(32, _ => 48), seq(64, _ => 48), [Entry(TOP, false, Folder)])
  }

  lemma TopIsCanonical()
    ensures CanonicalPath(TOP) && WithinTop(TOP)
  {
    hide Utf8;
    WordIsUtf8("authority-set");
    assert forall i | 0 <= i < |TOP| :: TOP[i] != SLASH && TOP[i] != BACKSLASH;
    assert NameStart(TOP) == 0;
    assert Parts(TOP) == [TOP];
  }

  lemma OneFolderIsAdmitted()
    ensures PlanAdmitted(OneFolder())
  {
    hide CanonicalPath, Ascii;
    TopIsCanonical();
    var entries := OneFolder().entries;
    BelowIsTotal(TOP, TOP);
    assert forall i | 0 <= i < |TOP| :: TOP[i] != SLASH by {
      NoSlash();
    }
  }

  lemma NoSlash()
    ensures forall i | 0 <= i < |TOP| :: TOP[i] != SLASH
  {
  }

  lemma EntryIsShort(entry: Entry)
    requires entry == Entry(TOP, false, Folder)
    ensures |Encoded(EntryDocument(Tagged(), entry))| <= 1 + |KEYS| * 201
  {
    hide Encoded;
    NoneIsShort();
    TextIsShort(TOP);
    TextIsShort(DIRECTORY);
    TextIsShort(INTEGRITY_ONLY);
    DocumentIsShort(EntryDocument(Tagged(), entry).fields, 200);
  }

  lemma OneItemIsShort(item: Json)
    ensures |Encoded(List([item]))| == |Encoded(item)| + 3
  {
    var list := List([item]);
    assert EncodedItems(list, 1) == [0];
    assert EncodedItems(list, 0) == [1] + Encoded(item) + EncodedItems(list, 1);
  }

  lemma OneFolderFits()
    ensures EncodePlan(Tagged(), OneFolder()).Some?
  {
    hide Encoded, EntryDocument, PlanDigestOf, Ascii;
    var plan := OneFolder();
    TaggedIsFaithful();
    NumberIsShort(2);
    PlanTextsAreShort();
    EntryIsShort(plan.entries[0]);
    OneItemIsShort(EntryDocument(Tagged(), plan.entries[0]));
    assert EntriesDocument(Tagged(), plan.entries) == [EntryDocument(Tagged(), plan.entries[0])];
    assert |PlanDigestOf(Tagged(), plan)| == 64 by {
      DigestLength(plan);
    }
    TextIsShort(PlanDigestOf(Tagged(), plan));
    DocumentIsShort(PlanFields(Tagged(), plan), 7000);
  }

  lemma DigestLength(plan: Plan)
    ensures |PlanDigestOf(Tagged(), plan)| == 64
  {
    hide PlanBody;
  }

  lemma PlanTextsAreShort()
    ensures |Encoded(Text(PROTOCOL))| <= 200
    ensures |Encoded(Text(OneFolder().transaction))| <= 200 && |Encoded(Text(OneFolder().header))| <= 200
  {
    hide Encoded;
    TextIsShort(PROTOCOL);
    TextIsShort(OneFolder().transaction);
    TextIsShort(OneFolder().header);
  }

  /** A transaction whose platform gives its objects three identities in turn, and
      whose review finds nothing to digest. */
  ghost function Plain(): Transaction {
    Transaction(Tagged(), seq(32, _ => 48), seq(64, _ => 48), number => Posix(0, number % 3),
                tree => Some(Review(EmptyDigests(), seq(64, _ => 48))))
  }

  lemma OneFolderIsMeasured(numbers: seq<nat>, tree: Staging.Tree)
    requires |numbers| == |OneFolder().entries|
    ensures var candidate := Candidate(Plain(), OneFolder(), numbers, tree);
            candidate.Some? && Fits(Tagged(), candidate.value)
  {
    hide EncodeCheckpoint, HashedText, CanonicalPath;
    var records := RecordsOf(Plain(), OneFolder().entries, numbers);
    assert records == [PayloadRecord(TOP, false, None, Posix(0, numbers[0] % 3))];
    assert Order(records) == records by {
      OrderOfOrdered(records);
    }
    TopIsCanonical();
    TaggedIsFaithful();
    DigestIsHex(Tagged(), Zero(Plain()));
    assert |TOP| <= 99;
    SmallCheckpointFits(Candidate(Plain(), OneFolder(), numbers, tree).value);
  }

  lemma OneFolderIsMeasurable()
    ensures Measurable(Plain(), OneFolder())
  {
    hide Candidate, Fits, Staging.Exactly;
    forall staged | Expanded(OneFolder(), staged)
      ensures Measured(Plain(), OneFolder(), staged).Some?
      ensures Fits(Plain().canon, Measured(Plain(), OneFolder(), staged).value)
    {
      OneFolderIsMeasured(Staging.Numbers(OneFolder().entries, staged.births), staged.tree);
    }
  }

  /** All that a preparation asks of its transaction and of the plan it is offered. */
  lemma PreparationCanStart()
    ensures Plain().canon.Faithful() && IsHex(Plain().id, 32)
    ensures |EncodeCheckpoint(Plain().canon, Zero(Plain()))| <= MAXIMUM_DOCUMENT_BYTES
    ensures Usable(Plain(), OneFolder())
  {
    hide EncodeCheckpoint, EncodePlan, PlanAdmitted, HashedText, Measurable;
    TaggedIsFaithful();
    ZeroIsFirst(Plain());
    SmallCheckpointFits(Zero(Plain()));
    OneFolderIsAdmitted();
    OneFolderFits();
    OneFolderIsMeasurable();
  }
}
