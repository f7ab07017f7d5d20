/** Checkpoints and their inventories: one order, one encoding. */
module CheckpointCodec {
  import opened Wrappers
  import opened DurableFiles
  import opened MaterialPlan
  import opened CanonicalDocuments

  /** The closed sequence of provisioning states, by rank. */
  datatype ProvisioningState =
    | Opened | AuthorStaged | InputsStaged | AuthoritiesStaged | ContextStaged
    | Verified | AuthorInstalled | SetInstalled | MarkerInstalled

  function Rank(state: ProvisioningState): nat {
    match state
    case Opened => 0
    case AuthorStaged => 1
    case InputsStaged => 2
    case AuthoritiesStaged => 3
    case ContextStaged => 4
    case Verified => 5
    case AuthorInstalled => 6
    case SetInstalled => 7
    case MarkerInstalled => 8
  }

  /** The word of a state in a document. */
  function Spelled(state: ProvisioningState): Bytes {
    match state
    case Opened => Ascii("created")
    case AuthorStaged => Ascii("author_staged")
    case InputsStaged => Ascii("inputs_staged")
    case AuthoritiesStaged => Ascii("authorities_staged")
    case ContextStaged => Ascii("context_staged")
    case Verified => Ascii("verified")
    case AuthorInstalled => Ascii("author_installed")
    case SetInstalled => Ascii("set_installed")
    case MarkerInstalled => Ascii("marker_installed")
  }

  function StateOf(word: Bytes): Option<ProvisioningState> {
    if word == Spelled(Opened) then Some(Opened)
    else if word == Spelled(AuthorStaged) then Some(AuthorStaged)
    else if word == Spelled(InputsStaged) then Some(InputsStaged)
    else if word == Spelled(AuthoritiesStaged) then Some(AuthoritiesStaged)
    else if word == Spelled(ContextStaged) then Some(ContextStaged)
    else if word == Spelled(Verified) then Some(Verified)
    else if word == Spelled(AuthorInstalled) then Some(AuthorInstalled)
    else if word == Spelled(SetInstalled) then Some(SetInstalled)
    else if word == Spelled(MarkerInstalled) then Some(MarkerInstalled)
    else None
  }

  const POSIX: Bytes := Ascii("posix")
  const WINDOWS: Bytes := Ascii("windows")

  /** The identity of an object on the platform that stored it. */
  datatype Platform = Posix(device: int, inode: int) | Windows(volume: Bytes, file: Bytes)

  predicate PlatformAdmitted(platform: Platform) {
    match platform
    case Posix(device, inode) => device >= 0 && inode >= 0
    case Windows(volume, file) => IsHex(volume, 16) && IsHex(file, 32)
  }

  function PlatformDocument(platform: Platform): Json {
    Document(match platform
      case Posix(device, inode) => map[PlatformName := Text(POSIX), Device := Number(device), Inode := Number(inode)]
      case Windows(volume, file) => map[PlatformName := Text(WINDOWS), VolumeSerial := Text(volume),
                                        FileId := Text(file)])
  }

  function PlatformFrom(value: Json): Option<Platform> {
    if !value.Document? then None
    else
      var fields := value.fields;
      var platform :=
        if fields.Keys == {PlatformName, Device, Inode} && fields[PlatformName] == Text(POSIX)
           && fields[Device].Number?
           && fields[Inode].Number? then Some(Posix(fields[Device].value, fields[Inode].value))
        else if fields.Keys == {PlatformName, VolumeSerial, FileId} && fields[PlatformName] == Text(WINDOWS)
           && fields[VolumeSerial].Text?
           && fields[FileId].Text? then Some(Windows(fields[VolumeSerial].utf8, fields[FileId].utf8))
        else None;
      if platform.Some? && PlatformAdmitted(platform.value) then platform else None
  }

  /** One object destined to a final location. A file has its size and digest. */
  datatype PayloadRecord = PayloadRecord(
    path: Path, confidential: bool, stored: Option<(int, Bytes)>, platform: Platform)

  predicate RecordAdmitted(record: PayloadRecord) {
    && CanonicalPath(record.path) && PlatformAdmitted(record.platform)
    && (record.stored.Some? ==> record.stored.value.0 >= 0 && IsHex(record.stored.value.1, 64))
  }

  function RecordDocument(record: PayloadRecord): Json {
    Document(map[
      RelativePath := Text(record.path),
      ObjectType := Text(if record.stored.Some? then FILE else DIRECTORY),
      Confidentiality := Text(if record.confidential then CONFIDENTIAL else INTEGRITY_ONLY),
      Size := if record.stored.Some? then Number(record.stored.value.0) else Null,
      Sha256 := if record.stored.Some? then Text(record.stored.value.1) else Null,
      PlatformIdentity := PlatformDocument(record.platform)])
  }

  const RECORD_KEYS: set<Key> := {RelativePath, ObjectType, Confidentiality, Size, Sha256, PlatformIdentity}

  function RecordFrom(value: Json): Option<PayloadRecord> {
    if !value.Document? || value.fields.Keys != RECORD_KEYS then None
    else
      var fields := value.fields;
      var platform := PlatformFrom(fields[PlatformIdentity]);
      var isFile := fields[ObjectType] == Text(FILE);
      var isConfidential := fields[Confidentiality] == Text(CONFIDENTIAL);
      if platform.None? || !fields[RelativePath].Text?
         || (!isFile && fields[ObjectType] != Text(DIRECTORY))
         || (!isConfidential && fields[Confidentiality] != Text(INTEGRITY_ONLY))
         || (isFile && !(fields[Size].Number? && fields[Sha256].Text?))
         || (!isFile && !(fields[Size].Null? && fields[Sha256].Null?)) then None
      else
        var record := PayloadRecord(fields[RelativePath].utf8, isConfidential,
                                    if isFile then Some((fields[Size].value, fields[Sha256].utf8)) else None,
                                    platform.value);
        if RecordAdmitted(record) then Some(record) else None
  }

  lemma RecordRoundTrip(record: PayloadRecord)
    requires RecordAdmitted(record)
    ensures RecordFrom(RecordDocument(record)) == Some(record)
  {
    hide CanonicalPath, IsHex;
  }

  /** By UTF-8 path, as inventories are kept. */
  predicate InOrder(records: seq<PayloadRecord>) {
    forall i, j | 0 <= i < j < |records| :: Below(records[i].path, records[j].path)
  }

  function Insert(record: PayloadRecord, records: seq<PayloadRecord>): (inserted: seq<PayloadRecord>)
    ensures multiset(inserted) == multiset{record} + multiset(records)
  {
    if records == [] || Below(record.path, records[0].path) then [record] + records
    else
      assert records == [records[0]] + records[1..];
      [records[0]] + Insert(record, records[1..])
  }

  /** The records sorted by path. */
  function Order(records: seq<PayloadRecord>): (ordered: seq<PayloadRecord>)
    ensures multiset(ordered) == multiset(records)
  {
    if records == [] then []
    else
      assert records == [records[0]] + records[1..];
      Insert(records[0], Order(records[1..]))
  }

  predicate Repeats(records: seq<PayloadRecord>) {
    exists i, j | 0 <= i < j < |records| :: records[i].path == records[j].path
  }

  lemma {:induction false} InsertKeepsOrder(record: PayloadRecord, records: seq<PayloadRecord>)
    requires InOrder(records) && forall other | other in records :: other.path != record.path
    ensures InOrder(Insert(record, records))
  {
    if records != [] {
      assert records[0] in records;
      BelowIsTotal(record.path, records[0].path);
      if Below(record.path, records[0].path) {
        forall j | 0 <= j < |records| ensures Below(record.path, records[j].path) {
          if j > 0 {
            BelowIsTransitive(record.path, records[0].path, records[j].path);
          }
        }
      } else {
        InsertKeepsOrder(record, records[1..]);
        var rest := Insert(record, records[1..]);
        forall j | 0 <= j < |rest| ensures Below(records[0].path, rest[j].path) {
          assert rest[j] in multiset(rest);
          if rest[j] != record {
            assert rest[j] in multiset(records[1..]);
            var k :| 0 <= k < |records[1..]| && records[1..][k] == rest[j];
            assert records[k + 1] == rest[j];
          }
        }
      }
    }
  }

  lemma {:induction false} OrderIsInOrder(records: seq<PayloadRecord>)
    requires !Repeats(records)
    ensures InOrder(Order(records))
  {
    if records != [] {
      OrderIsInOrder(records[1..]);
      var rest := Order(records[1..]);
      forall other | other in rest ensures other.path != records[0].path {
        assert other in multiset(rest) && other in multiset(records[1..]);
        var k :| 0 <= k < |records[1..]| && records[1..][k] == other;
        assert records[k + 1] == other;
      }
      InsertKeepsOrder(records[0], rest);
    }
  }

  lemma LeastComesFirst(records: seq<PayloadRecord>, record: PayloadRecord)
    requires InOrder(records) && record in multiset(records)
    ensures records != [] && (record == records[0] || Below(records[0].path, record.path))
  {
    var i :| 0 <= i < |records| && records[i] == record;
  }

  lemma TailOf(records: seq<PayloadRecord>)
    requires records != []
    ensures multiset(records[1..]) == multiset(records) - multiset{records[0]}
    ensures InOrder(records) ==> InOrder(records[1..])
  {
    assert records == [records[0]] + records[1..];
  }

  /** There is one way to put a set of records in order. */
  lemma {:induction false} OneOrder(first: seq<PayloadRecord>, second: seq<PayloadRecord>)
    requires InOrder(first) && InOrder(second) && multiset(first) == multiset(second)
    ensures first == second
  {
    hide *;
    assert |first| == |multiset(first)| == |multiset(second)| == |second|;
    if first != [] {
      assert first[0] in multiset(first) && second[0] in multiset(second);
      LeastComesFirst(second, first[0]);
      LeastComesFirst(first, second[0]);
      BelowIsTotal(first[0].path, second[0].path);
      TailOf(first);
      TailOf(second);
      OneOrder(first[1..], second[1..]);
      assert first == [first[0]] + first[1..] && second == [second[0]] + second[1..];
    }
  }

  lemma InOrderDoesNotRepeat(records: seq<PayloadRecord>)
    requires InOrder(records)
    ensures !Repeats(records)
  {
    forall i, j | 0 <= i < j < |records| ensures records[i].path != records[j].path {
      BelowIsTotal(records[i].path, records[i].path);
    }
  }

  lemma OrderOfOrdered(records: seq<PayloadRecord>)
    requires InOrder(records)
    ensures Order(records) == records
  {
    InOrderDoesNotRepeat(records);
    OrderIsInOrder(records);
    OneOrder(Order(records), records);
  }

  /** One durable step of a transaction. Build it with `Build`. */
  datatype Checkpoint = Checkpoint(
    transaction: Bytes, sequence: int, previous: Option<Bytes>, state: ProvisioningState,
    inventory: seq<PayloadRecord>, digests: map<Key, Option<Bytes>>, setId: Option<Bytes>)

  const MAXIMUM_SEQUENCE := 8191

  const DIGEST_KEYS: set<Key> :=
    {AuthorSource, ApprovalInput, SemanticInput, ProducerCatalog, ContextSource, AuthorStore, SetJson, ContextMaterial}

  const BODY_KEYS: set<Key> := {SchemaVersion, TransactionId, Sequence, PreviousDigest, State, SetId, Inventory}

  /** What the constructor admits of everything but the inventory. */
  predicate FieldsAdmitted(checkpoint: Checkpoint) {
    && IsHex(checkpoint.transaction, 32) && 0 <= checkpoint.sequence <= MAXIMUM_SEQUENCE
    && (checkpoint.sequence == 0 <==> checkpoint.previous.None?)
    && (checkpoint.previous.Some? ==> IsHex(checkpoint.previous.value, 64))
    && (checkpoint.setId.Some? ==> IsHex(checkpoint.setId.value, 64))
    && checkpoint.digests.Keys == DIGEST_KEYS
    && (forall key | key in checkpoint.digests && checkpoint.digests[key].Some? ::
        IsHex(checkpoint.digests[key].value, 64))
  }

  /** The constructor: it sorts the inventory and refuses a repeated path. */
  function Build(fields: Checkpoint): Option<Checkpoint> {
    if !FieldsAdmitted(fields) || Repeats(fields.inventory) then None
    else Some(fields.(inventory := Order(fields.inventory)))
  }

  /** A checkpoint that some constructor call returned. */
  predicate CheckpointAdmitted(checkpoint: Checkpoint) {
    && FieldsAdmitted(checkpoint) && InOrder(checkpoint.inventory)
    && forall record | record in checkpoint.inventory :: RecordAdmitted(record)
  }

  function Optional(value: Option<Bytes>): Json {
    if value.Some? then Text(value.value) else Null
  }

  function RecordsDocument(records: seq<PayloadRecord>): seq<Json> {
    seq(|records|, i requires 0 <= i < |records| => RecordDocument(records[i]))
  }

  function RecordsFrom(items: seq<Json>): Option<seq<PayloadRecord>> {
    if items == [] then Some([])
    else
      var first, rest := RecordFrom(items[0]), RecordsFrom(items[1..]);
      if first.None? || rest.None? then None else Some([first.value] + rest.value)
  }

  lemma {:induction false} RecordsRoundTrip(records: seq<PayloadRecord>)
    requires forall record | record in records :: RecordAdmitted(record)
    ensures RecordsFrom(RecordsDocument(records)) == Some(records)
  {
    hide RecordAdmitted, RecordDocument, RecordFrom;
    if records != [] {
      assert records[0] in records;
      RecordRoundTrip(records[0]);
      RecordsRoundTrip(records[1..]);
      assert RecordsDocument(records)[1..] == RecordsDocument(records[1..]);
      assert [records[0]] + records[1..] == records;
    }
  }

  function BaseFields(checkpoint: Checkpoint): Fields {
    map[SchemaVersion := Number(1), TransactionId := Text(checkpoint.transaction),
        Sequence := Number(checkpoint.sequence),
        PreviousDigest := Optional(checkpoint.previous), State := Text(Spelled(checkpoint.state)),
        SetId := Optional(checkpoint.setId), Inventory := List(RecordsDocument(checkpoint.inventory))]
  }

  function DigestFields(digests: map<Key, Option<Bytes>>): Fields {
    map key | key in digests :: Optional(digests[key])
  }

  function Body(checkpoint: Checkpoint): Fields {
    BaseFields(checkpoint) + DigestFields(checkpoint.digests)
  }

  const CHECKPOINT_DOMAIN: Bytes := Ascii("metnos.executor-birth.provisioning-checkpoint/v1") + [0]

  /** What the digest of a checkpoint is taken of. */
  function HashedText(canon: Canon, checkpoint: Checkpoint): Bytes {
    CHECKPOINT_DOMAIN + canon.write(Body(checkpoint))
  }

  function DigestOfCheckpoint(canon: Canon, checkpoint: Checkpoint): Bytes {
    canon.sha(HashedText(canon, checkpoint))
  }

  function EncodeCheckpoint(canon: Canon, checkpoint: Checkpoint): Bytes {
    canon.write(Body(checkpoint)[CheckpointDigest := Text(DigestOfCheckpoint(canon, checkpoint))])
  }

  predicate OptionalText(value: Json) { value.Null? || value.Text? }

  function TextOf(value: Json): Option<Bytes> {
    if value.Text? then Some(value.utf8) else None
  }

  /** The fields of a document as the constructor's arguments. */
  function FieldsFrom(fields: Fields): Option<Checkpoint>
    requires fields.Keys == BODY_KEYS + DIGEST_KEYS + {CheckpointDigest}
  {
    if fields[SchemaVersion] != Number(1) || !fields[TransactionId].Text? || !fields[Sequence].Number?
       || !OptionalText(fields[PreviousDigest]) || !OptionalText(fields[SetId]) || !fields[Inventory].List?
       || !(fields[State].Text? && StateOf(fields[State].utf8).Some?)
       || exists key | key in DIGEST_KEYS :: !OptionalText(fields[key]) then None
    else
      var records := RecordsFrom(fields[Inventory].items);
      if records.None? then None
      else Some(Checkpoint(fields[TransactionId].utf8, fields[Sequence].value, TextOf(fields[PreviousDigest]),
                           StateOf(fields[State].utf8).value, records.value,
                           map key | key in DIGEST_KEYS :: TextOf(fields[key]), TextOf(fields[SetId])))
  }

  function DecodeCheckpoint(canon: Canon, raw: Bytes): Option<Checkpoint> {
    var read := canon.Read(raw);
    if read.None? || read.value.Keys != BODY_KEYS + DIGEST_KEYS + {CheckpointDigest} then None
    else
      var fields := FieldsFrom(read.value);
      if fields.None? then None
      else
        var checkpoint := Build(fields.value);
        if checkpoint.None? || !(read.value[CheckpointDigest].Text? && IsHex(read.value[CheckpointDigest].utf8, 64))
           || EncodeCheckpoint(canon, checkpoint.value) != raw then None
        else checkpoint
  }

  lemma {:induction false} TwiceIsRepeated(records: seq<PayloadRecord>, record: PayloadRecord)
    requires multiset(records)[record] >= 2
    ensures Repeats(records)
  {
    assert records == [records[0]] + records[1..];
    if record == records[0] {
      assert record in multiset(records[1..]);
      var k :| 0 <= k < |records[1..]| && records[1..][k] == record;
      assert records[k + 1].path == records[0].path;
    } else {
      TwiceIsRepeated(records[1..], record);
      var i, j :| 0 <= i < j < |records[1..]| && records[1..][i].path == records[1..][j].path;
      assert records[i + 1].path == records[j + 1].path;
    }
  }

  /** Two records of one path stay two whatever the order. */
  lemma RepeatsIsAboutContents(first: seq<PayloadRecord>, second: seq<PayloadRecord>)
    requires multiset(first) == multiset(second)
    ensures Repeats(first) ==> Repeats(second)
  {
    if i, j :| 0 <= i < j < |first| && first[i].path == first[j].path {
      assert first == first[..j] + first[j..] && first[i] in first[..j] && first[j] in first[j..];
      if first[i] == first[j] {
        TwiceIsRepeated(second, first[i]);
      } else {
        assert first[i] in multiset(second) && first[j] in multiset(second);
        var k :| 0 <= k < |second| && second[k] == first[i];
        var l :| 0 <= l < |second| && second[l] == first[j];
        assert k < l || l < k;
      }
    }
  }

  lemma {:induction false} RecordsAreAdmitted(items: seq<Json>)
    ensures RecordsFrom(items).Some? ==> forall record | record in RecordsFrom(items).value :: RecordAdmitted(record)
  {
    hide RecordAdmitted, PlatformFrom;
    if items != [] {
      RecordsAreAdmitted(items[1..]);
    }
  }

  function FieldsOf(canon: Canon, checkpoint: Checkpoint): Fields {
    Body(checkpoint)[CheckpointDigest := Text(DigestOfCheckpoint(canon, checkpoint))]
  }

  lemma StatesRoundTrip(state: ProvisioningState)
    ensures StateOf(Spelled(state)) == Some(state)
  {
    assert Ascii("author_staged")[0] != Ascii("inputs_staged")[0];
    assert Ascii("inputs_staged")[0] != Ascii("set_installed")[0];
    assert Ascii("author_staged")[0] != Ascii("set_installed")[0];
    assert Ascii("author_installed")[0] != Ascii("marker_installed")[0];
  }

  ghost predicate HasFields(fields: Fields, checkpoint: Checkpoint) {
    && BODY_KEYS + DIGEST_KEYS <= fields.Keys && checkpoint.digests.Keys == DIGEST_KEYS
    && fields[Inventory] == List(RecordsDocument(checkpoint.inventory))
    && fields[SchemaVersion] == Number(1) && fields[TransactionId] == Text(checkpoint.transaction)
    && fields[Sequence] == Number(checkpoint.sequence) && fields[PreviousDigest] == Optional(checkpoint.previous)
    && fields[State] == Text(Spelled(checkpoint.state)) && fields[SetId] == Optional(checkpoint.setId)
    && forall key | key in DIGEST_KEYS :: fields[key] == Optional(checkpoint.digests[key])
  }

  lemma BaseKeys(checkpoint: Checkpoint)
    ensures BaseFields(checkpoint).Keys == BODY_KEYS && DIGEST_KEYS !! BODY_KEYS
  {
    hide RecordsDocument, Optional, Spelled;
  }

  lemma BodyFields(checkpoint: Checkpoint)
    requires checkpoint.digests.Keys == DIGEST_KEYS
    ensures Body(checkpoint).Keys == BODY_KEYS + DIGEST_KEYS && HasFields(Body(checkpoint), checkpoint)
  {
    hide RecordsDocument, Optional, Spelled;
    BaseKeys(checkpoint);
    var base, body := BaseFields(checkpoint), Body(checkpoint);
    assert DigestFields(checkpoint.digests).Keys == DIGEST_KEYS;
    assert forall key | key in BODY_KEYS :: key !in DIGEST_KEYS && body[key] == base[key];
    assert {Inventory, SchemaVersion, TransactionId, Sequence, PreviousDigest, State, SetId} == BODY_KEYS;
  }

  lemma DocumentFields(canon: Canon, checkpoint: Checkpoint)
    requires checkpoint.digests.Keys == DIGEST_KEYS
    ensures FieldsOf(canon, checkpoint).Keys == BODY_KEYS + DIGEST_KEYS + {CheckpointDigest}
    ensures HasFields(FieldsOf(canon, checkpoint), checkpoint)
    ensures FieldsOf(canon, checkpoint)[CheckpointDigest] == Text(DigestOfCheckpoint(canon, checkpoint))
  {
    hide RecordsDocument, DigestOfCheckpoint, Body, Spelled, Optional;
    BodyFields(checkpoint);
  }

  lemma HadFields(fields: Fields, checkpoint: Checkpoint)
    requires fields.Keys == BODY_KEYS + DIGEST_KEYS + {CheckpointDigest} && HasFields(fields, checkpoint)
    requires RecordsFrom(RecordsDocument(checkpoint.inventory)) == Some(checkpoint.inventory)
    ensures FieldsFrom(fields) == Some(checkpoint)
  {
    hide RecordsDocument, RecordsFrom;
    StatesRoundTrip(checkpoint.state);
    forall key | key in DIGEST_KEYS ensures TextOf(fields[key]) == checkpoint.digests[key] {
      assert fields[key] == Optional(checkpoint.digests[key]);
    }
    assert checkpoint.digests == map key | key in DIGEST_KEYS :: TextOf(fields[key]);
  }

  lemma FieldsRoundTrip(canon: Canon, checkpoint: Checkpoint)
    requires checkpoint.digests.Keys == DIGEST_KEYS
    requires forall record | record in checkpoint.inventory :: RecordAdmitted(record)
    ensures FieldsOf(canon, checkpoint).Keys == BODY_KEYS + DIGEST_KEYS + {CheckpointDigest}
    ensures FieldsFrom(FieldsOf(canon, checkpoint)) == Some(checkpoint)
  {
    hide *;
    DocumentFields(canon, checkpoint);
    RecordsRoundTrip(checkpoint.inventory);
    HadFields(FieldsOf(canon, checkpoint), checkpoint);
  }

  lemma BuildIsAdmitted(fields: Checkpoint)
    requires Build(fields).Some? && forall record | record in fields.inventory :: RecordAdmitted(record)
    ensures CheckpointAdmitted(Build(fields).value)
  {
    OrderIsInOrder(fields.inventory);
    forall record | record in Order(fields.inventory) ensures RecordAdmitted(record) {
      assert record in multiset(Order(fields.inventory));
      assert record in multiset(fields.inventory);
    }
  }

  lemma BuildOfAdmitted(checkpoint: Checkpoint)
    requires CheckpointAdmitted(checkpoint)
    ensures Build(checkpoint) == Some(checkpoint)
  {
    InOrderDoesNotRepeat(checkpoint.inventory);
    OrderOfOrdered(checkpoint.inventory);
  }

  lemma FieldsAreAdmitted(fields: Fields)
    requires fields.Keys == BODY_KEYS + DIGEST_KEYS + {CheckpointDigest} && FieldsFrom(fields).Some?
    ensures forall record | record in FieldsFrom(fields).value.inventory :: RecordAdmitted(record)
  {
    hide RecordAdmitted;
    RecordsAreAdmitted(fields[Inventory].items);
  }

  lemma SpelledIsText(state: ProvisioningState)
    ensures Storable(Text(Spelled(state)))
  {
    hide Utf8, Ascii;
    match state
    case Opened => WordIsUtf8("created");
    case AuthorStaged => WordIsUtf8("author_staged");
    case InputsStaged => WordIsUtf8("inputs_staged");
    case AuthoritiesStaged => WordIsUtf8("authorities_staged");
    case ContextStaged => WordIsUtf8("context_staged");
    case Verified => WordIsUtf8("verified");
    case AuthorInstalled => WordIsUtf8("author_installed");
    case SetInstalled => WordIsUtf8("set_installed");
    case MarkerInstalled => WordIsUtf8("marker_installed");
  }

  lemma PlatformIsStorable(platform: Platform)
    requires PlatformAdmitted(platform)
    ensures Storable(PlatformDocument(platform))
  {
    hide Utf8;
    WordIsUtf8("posix");
    WordIsUtf8("windows");
    if platform.Windows? {
      HexIsText(platform.volume);
      HexIsText(platform.file);
    }
  }

  lemma RecordIsStorable(record: PayloadRecord)
    requires RecordAdmitted(record)
    ensures Storable(RecordDocument(record))
  {
    hide Utf8, PlatformDocument, Parts;
    WordsAreText();
    PlatformIsStorable(record.platform);
    if record.stored.Some? {
      HexIsText(record.stored.value.1);
    }
  }

  lemma OptionalIsStorable(value: Option<Bytes>)
    requires value.Some? ==> IsHex(value.value, 64)
    ensures Storable(Optional(value))
  {
    if value.Some? {
      HexIsText(value.value);
    }
  }

  /** What is written of an admitted checkpoint can be written. */
  lemma FieldsAreStorable(fields: Fields, checkpoint: Checkpoint)
    requires CheckpointAdmitted(checkpoint) && HasFields(fields, checkpoint)
    requires forall key | key in fields && key !in BODY_KEYS + DIGEST_KEYS :: Storable(fields[key])
    ensures Storable(Document(fields))
  {
    hide Utf8, RecordDocument, RecordAdmitted, Spelled, Optional;
    SpelledIsText(checkpoint.state);
    HexIsText(checkpoint.transaction);
    OptionalIsStorable(checkpoint.previous);
    OptionalIsStorable(checkpoint.setId);
    var items := RecordsDocument(checkpoint.inventory);
    forall i | 0 <= i < |items| ensures Storable(items[i]) {
      assert checkpoint.inventory[i] in checkpoint.inventory;
      RecordIsStorable(checkpoint.inventory[i]);
    }
    assert Storable(List(items));
    forall key | key in DIGEST_KEYS ensures Storable(fields[key]) {
      OptionalIsStorable(checkpoint.digests[key]);
    }
    assert BODY_KEYS == {SchemaVersion, TransactionId, Sequence, PreviousDigest, State, SetId, Inventory};
  }

  lemma DocumentIsStorable(canon: Canon, checkpoint: Checkpoint)
    requires canon.Faithful() && CheckpointAdmitted(checkpoint)
    ensures Storable(Document(Body(checkpoint))) && Storable(Document(FieldsOf(canon, checkpoint)))
  {
    hide Storable, Body, DigestOfCheckpoint, HasFields, RecordAdmitted, InOrder;
    BodyFields(checkpoint);
    FieldsAreStorable(Body(checkpoint), checkpoint);
    DocumentFields(canon, checkpoint);
    DigestIsHex(canon, checkpoint);
    HexIsText(DigestOfCheckpoint(canon, checkpoint));
    FieldsAreStorable(FieldsOf(canon, checkpoint), checkpoint);
  }

  /** A text decodes to a checkpoint exactly when it is that checkpoint's text. */
  lemma CheckpointTextIsExact(canon: Canon, raw: Bytes, checkpoint: Checkpoint)
    requires canon.Faithful()
    ensures DecodeCheckpoint(canon, raw) == Some(checkpoint) <==>
            CheckpointAdmitted(checkpoint) && EncodeCheckpoint(canon, checkpoint) == raw
              && |raw| <= MAXIMUM_DOCUMENT_BYTES
  {
    hide Build, FieldsFrom, CheckpointAdmitted, Body, DigestOfCheckpoint;
    if DecodeCheckpoint(canon, raw) == Some(checkpoint) {
      var fields := canon.Read(raw).value;
      FieldsAreAdmitted(fields);
      BuildIsAdmitted(FieldsFrom(fields).value);
    }
    if CheckpointAdmitted(checkpoint) && EncodeCheckpoint(canon, checkpoint) == raw && |raw| <= MAXIMUM_DOCUMENT_BYTES {
      CheckpointDecodes(canon, raw, checkpoint);
    }
  }

  /** Whatever a text decodes to has a place within bounds, a predecessor exactly when it
      is not the first, and one record a path, whose size and digest come together. */
  lemma DecodedIsWhole(canon: Canon, raw: Bytes)
    requires canon.Faithful() && DecodeCheckpoint(canon, raw).Some?
    ensures var checkpoint := DecodeCheckpoint(canon, raw).value;
      && 0 <= checkpoint.sequence <= MAXIMUM_SEQUENCE && |raw| <= MAXIMUM_DOCUMENT_BYTES
      && (checkpoint.previous.None? <==> checkpoint.sequence == 0)
      && (forall i, j | 0 <= i < j < |checkpoint.inventory| ::
            checkpoint.inventory[i].path != checkpoint.inventory[j].path)
      && (forall record | record in checkpoint.inventory ::
            && record.path != [] && BACKSLASH !in record.path
            && (record.stored.Some? ==> record.stored.value.0 >= 0 && |record.stored.value.1| == 64))
  {
    hide Build, FieldsFrom, Body, DigestOfCheckpoint, InOrder, Utf8, Parts;
    var checkpoint := DecodeCheckpoint(canon, raw).value;
    CheckpointTextIsExact(canon, raw, checkpoint);
    InOrderDoesNotRepeat(checkpoint.inventory);
    forall record | record in checkpoint.inventory ensures CanonicalPath(record.path) {
      assert RecordAdmitted(record);
    }
  }

  lemma CheckpointDecodes(canon: Canon, raw: Bytes, checkpoint: Checkpoint)
    requires canon.Faithful() && CheckpointAdmitted(checkpoint)
    requires EncodeCheckpoint(canon, checkpoint) == raw && |raw| <= MAXIMUM_DOCUMENT_BYTES
    ensures DecodeCheckpoint(canon, raw) == Some(checkpoint)
  {
    hide Storable, Build, FieldsFrom, Body, DigestOfCheckpoint, InOrder, RecordAdmitted, HasFields, IsHex;
    FieldsRoundTrip(canon, checkpoint);
    DocumentFields(canon, checkpoint);
    DocumentIsStorable(canon, checkpoint);
    BuildOfAdmitted(checkpoint);
    assert canon.parse(canon.write(FieldsOf(canon, checkpoint))) == Some(FieldsOf(canon, checkpoint));
    assert IsHex(DigestOfCheckpoint(canon, checkpoint), 64) by { DigestIsHex(canon, checkpoint); }
  }

  lemma DigestIsHex(canon: Canon, checkpoint: Checkpoint)
    requires canon.Faithful()
    ensures IsHex(DigestOfCheckpoint(canon, checkpoint), 64)
  {
  }

  lemma OrderIgnoresSupply(first: seq<PayloadRecord>, second: seq<PayloadRecord>)
    requires multiset(first) == multiset(second)
    ensures Repeats(first) <==> Repeats(second)
    ensures !Repeats(first) ==> Order(first) == Order(second)
  {
    hide Order, Repeats, InOrder;
    RepeatsIsAboutContents(first, second);
    RepeatsIsAboutContents(second, first);
    if !Repeats(first) {
      OrderIsInOrder(first);
      OrderIsInOrder(second);
      OneOrder(Order(first), Order(second));
    }
  }

  /** The order in which an inventory was supplied does not reach the text. */
  lemma SuppliedOrderDoesNotMatter(canon: Canon, fields: Checkpoint, supplied: seq<PayloadRecord>)
    requires multiset(supplied) == multiset(fields.inventory)
    ensures Build(fields) == Build(fields.(inventory := supplied))
    ensures Build(fields).Some? ==>
      EncodeCheckpoint(canon, Build(fields).value) ==
        EncodeCheckpoint(canon, Build(fields.(inventory := supplied)).value)
  {
    hide Order, Repeats, InOrder, EncodeCheckpoint, IsHex;
    OrderIgnoresSupply(fields.inventory, supplied);
  }

  /** A text that reads as a document whose inventory is out of order is no checkpoint. */
  lemma ShuffledIsRefused(canon: Canon, raw: Bytes, fields: Fields, records: seq<PayloadRecord>)
    requires canon.Faithful() && canon.parse(raw) == Some(fields)
    requires Inventory in fields && fields[Inventory] == List(RecordsDocument(records))
    requires (forall record | record in records :: RecordAdmitted(record)) && !InOrder(records)
    ensures DecodeCheckpoint(canon, raw).None?
  {
    hide Storable, DecodeCheckpoint, RecordAdmitted, Body, DigestOfCheckpoint, RecordDocument;
    var decoded := DecodeCheckpoint(canon, raw);
    if decoded.Some? {
      CheckpointTextIsExact(canon, raw, decoded.value);
      DocumentIsStorable(canon, decoded.value);
      assert raw == canon.write(FieldsOf(canon, decoded.value));
      DocumentFields(canon, decoded.value);
      RecordsRoundTrip(records);
      RecordsRoundTrip(decoded.value.inventory);
    }
  }

  /** A checkpoint cut short is no checkpoint. */
  lemma TornCheckpointIsNone(canon: Canon, checkpoint: Checkpoint, n: nat)
    requires canon.Faithful() && CheckpointAdmitted(checkpoint) && n < |EncodeCheckpoint(canon, checkpoint)|
    ensures DecodeCheckpoint(canon, EncodeCheckpoint(canon, checkpoint)[..n]).None?
  {
    hide Storable, CheckpointAdmitted, Body, DigestOfCheckpoint;
    DocumentIsStorable(canon, checkpoint);
    assert canon.parse(canon.write(FieldsOf(canon, checkpoint))[..n]).None?;
  }

  /** Two checkpoints with one digest are one, or their texts are a collision. */
  lemma OneDigestOneCheckpoint(canon: Canon, first: Checkpoint, second: Checkpoint)
    requires canon.Faithful() && CheckpointAdmitted(first) && CheckpointAdmitted(second)
    requires DigestOfCheckpoint(canon, first) == DigestOfCheckpoint(canon, second)
    ensures first == second || canon.Collide(HashedText(canon, first), HashedText(canon, second))
  {
    hide Body, RecordAdmitted, InOrder, FieldsFrom, HashedText;
    if HashedText(canon, first) == HashedText(canon, second) {
      SameBody(canon, first, second);
      FieldsRoundTrip(canon, first);
      FieldsRoundTrip(canon, second);
    }
  }

  lemma SameBody(canon: Canon, first: Checkpoint, second: Checkpoint)
    requires canon.Faithful() && CheckpointAdmitted(first) && CheckpointAdmitted(second)
    requires HashedText(canon, first) == HashedText(canon, second)
    ensures Body(first) == Body(second)
  {
    hide Body, CheckpointAdmitted, Storable;
    var a, b := canon.write(Body(first)), canon.write(Body(second));
    assert a == (CHECKPOINT_DOMAIN + a)[|CHECKPOINT_DOMAIN|..] == (CHECKPOINT_DOMAIN + b)[|CHECKPOINT_DOMAIN|..] == b;
    DocumentIsStorable(canon, first);
    DocumentIsStorable(canon, second);
    assert canon.parse(a) == Some(Body(first)) && canon.parse(b) == Some(Body(second));
  }
}
