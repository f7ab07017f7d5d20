/** Canonical documents: a closed vocabulary, one encoding for each value. */
module CanonicalDocuments {
  import opened Wrappers
  import opened DurableFiles
  import opened MaterialPlan

  /** Names of document fields. */
  datatype Key =
    | SchemaVersion | Protocol | TransactionId | HeaderDigest | Objects | PlanDigest
    | RelativePath | ObjectType | Confidentiality | Size | Sha256 | PayloadHex | PlatformIdentity
    | PlatformName | Device | Inode | VolumeSerial | FileId
    | Sequence | PreviousDigest | State | SetId | Inventory | CheckpointDigest
    | AuthorSource | ApprovalInput | SemanticInput | ProducerCatalog | ContextSource
    | AuthorStore | SetJson | ContextMaterial

  /** Words that documents use as values. */
  const PROTOCOL: Bytes := Ascii("birth-authority-provisioning-v2")
  const FILE: Bytes := Ascii("file")
  const DIRECTORY: Bytes := Ascii("directory")
  const CONFIDENTIAL: Bytes := Ascii("confidential")
  const INTEGRITY_ONLY: Bytes := Ascii("integrity_only")

  /** A JSON value: a `Text` is given by its UTF-8 bytes. */
  datatype Json =
    | Null
    | Flag(flag: bool)
    | Number(value: int)
    | Text(utf8: Bytes)
    | List(items: seq<Json>)
    | Document(fields: map<Key, Json>)

  type Fields = map<Key, Json>

  /** Every string of the value is UTF-8, so that there is a text of it. */
  predicate Storable(value: Json) {
    match value
    case Text(utf8) => Utf8(utf8)
    case List(items) => forall i | 0 <= i < |items| :: Storable(items[i])
    case Document(fields) => forall key | key in fields :: Storable(fields[key])
    case _ => true
  }

  const MAXIMUM_DOCUMENT_BYTES := 1024 * 1024

  /** The canonical text and the digest function. */
  datatype Canon = Canon(write: Fields -> Bytes, parse: Bytes -> Option<Fields>, sha: Bytes -> Bytes) {
    /** A document is read back from its text, a text cut short is none, and a digest
        is 64 hexadecimal digits. Texts with one digest may exist: see `Collide`. */
    ghost predicate Faithful() {
      && (forall v | Storable(Document(v)) :: parse(write(v)) == Some(v))
      && (forall v, n: nat | Storable(Document(v)) && n < |write(v)| :: parse(write(v)[..n]).None?)
      && (forall raw :: IsHex(sha(raw), 64))
    }

    /** Two different texts with one digest. */
    predicate Collide(first: Bytes, second: Bytes) {
      first != second && sha(first) == sha(second)
    }

    /** Read one document and refuse every encoding but the canonical one. */
    function Read(raw: Bytes): Option<Fields> {
      if |raw| > MAXIMUM_DOCUMENT_BYTES || parse(raw).None? || write(parse(raw).value) != raw then None
      else parse(raw)
    }
  }

  predicate HexDigit(b: Byte) { 48 <= b <= 57 || 97 <= b <= 102 }

  predicate IsHex(text: Bytes, length: nat) {
    |text| == length && forall b | b in text :: HexDigit(b)
  }

  lemma HexIsText(text: Bytes)
    requires forall b | b in text :: HexDigit(b)
    ensures Storable(Text(text))
  {
    AsciiIsUtf8(text);
  }

  lemma WordsAreText()
    ensures Storable(Text(PROTOCOL)) && Storable(Text(FILE)) && Storable(Text(DIRECTORY))
    ensures Storable(Text(CONFIDENTIAL)) && Storable(Text(INTEGRITY_ONLY))
  {
    hide Utf8, Ascii;
    WordIsUtf8("birth-authority-provisioning-v2");
    WordIsUtf8("file");
    WordIsUtf8("directory");
    WordIsUtf8("confidential");
    WordIsUtf8("integrity_only");
  }

  function DigitOf(nibble: int): Byte
    requires 0 <= nibble < 16
  {
    (if nibble < 10 then 48 + nibble else 87 + nibble) as Byte
  }

  function NibbleOf(digit: Byte): (nibble: int)
    requires HexDigit(digit)
    ensures 0 <= nibble < 16 && DigitOf(nibble) == digit
  {
    if digit <= 57 then digit as int - 48 else digit as int - 87
  }

  /** Two lower-case digits for each byte. */
  function Hex(bytes: Bytes): (text: Bytes)
    ensures |text| == 2 * |bytes| && forall b | b in text :: HexDigit(b)
  {
    if bytes == [] then []
    else [DigitOf(bytes[0] as int / 16), DigitOf(bytes[0] as int % 16)] + Hex(bytes[1..])
  }

  function FromHex(text: Bytes): Bytes
    requires |text| % 2 == 0 && forall b | b in text :: HexDigit(b)
  {
    if text == [] then []
    else [(16 * NibbleOf(text[0]) + NibbleOf(text[1])) as Byte] + FromHex(text[2..])
  }

  lemma {:induction false} HexRoundTrip(bytes: Bytes)
    ensures FromHex(Hex(bytes)) == bytes
  {
    if bytes != [] {
      HexRoundTrip(bytes[1..]);
      var high, low := bytes[0] as int / 16, bytes[0] as int % 16;
      assert Hex(bytes)[2..] == Hex(bytes[1..]);
      assert NibbleOf(DigitOf(high)) == high && NibbleOf(DigitOf(low)) == low;
      assert Hex(bytes)[0] == DigitOf(high) && Hex(bytes)[1] == DigitOf(low);
    }
  }
}

/** The codec of the material plan. */
module PlanCodec {
  import opened Wrappers
  import opened DurableFiles
  import opened MaterialPlan
  import opened CanonicalDocuments

  datatype Plan = Plan(transaction: Bytes, header: Bytes, entries: seq<Entry>)

  predicate PlanAdmitted(plan: Plan) {
    IsHex(plan.transaction, 32) && IsHex(plan.header, 64) && Admitted(plan.entries)
  }

  const PLAN_DOMAIN: Bytes := Ascii("metnos.executor-birth.provisioning-material-plan/v2") + [0]

  function ConfidentialityWord(confidential: bool): Json {
    Text(if confidential then CONFIDENTIAL else INTEGRITY_ONLY)
  }

  function EntryDocument(canon: Canon, entry: Entry): Json {
    Document(match entry.content
      case Folder =>
        map[RelativePath := Text(entry.path), ObjectType := Text(DIRECTORY),
            Confidentiality := ConfidentialityWord(entry.confidential), Size := Null, Sha256 := Null, PayloadHex :=
              Null]
      case File(payload) =>
        map[RelativePath := Text(entry.path), ObjectType := Text(FILE),
            Confidentiality := ConfidentialityWord(entry.confidential), Size := Number(|payload|),
            Sha256 := Text(canon.sha(payload)), PayloadHex := Text(Hex(payload))])
  }

  const ENTRY_KEYS: set<Key> := {RelativePath, ObjectType, Confidentiality, Size, Sha256, PayloadHex}

  function PayloadFrom(canon: Canon, fields: Fields): Option<Object>
    requires fields.Keys == ENTRY_KEYS
  {
    if fields[ObjectType] == Text(DIRECTORY) then
      if fields[Size] == Null && fields[Sha256] == Null && fields[PayloadHex] == Null then Some(Folder) else None
    else if fields[ObjectType] == Text(FILE) then
      match fields[PayloadHex]
      case Text(hex) =>
        if |hex| % 2 != 0 || exists b | b in hex :: !HexDigit(b) then None
        else
          var payload := FromHex(hex);
          if fields[Size] == Number(|payload|) && fields[Sha256] == Text(canon.sha(payload)) then Some(File(payload))
          else None
      case _ => None
    else None
  }

  function EntryFrom(canon: Canon, value: Json): Option<Entry> {
    if !value.Document? || value.fields.Keys != ENTRY_KEYS then None
    else
      var fields := value.fields;
      var content := PayloadFrom(canon, fields);
      if content.None? || !fields[RelativePath].Text? then None
      else if !CanonicalPath(fields[RelativePath].utf8) || !WithinTop(fields[RelativePath].utf8) then None
      else if fields[Confidentiality] == ConfidentialityWord(true)
        then Some(Entry(fields[RelativePath].utf8, true, content.value))
      else if fields[Confidentiality] == ConfidentialityWord(false)
        then Some(Entry(fields[RelativePath].utf8, false, content.value))
      else None
  }

  lemma EntryRoundTrip(canon: Canon, entry: Entry)
    requires CanonicalPath(entry.path) && WithinTop(entry.path)
    ensures EntryFrom(canon, EntryDocument(canon, entry)) == Some(entry)
  {
    hide CanonicalPath, WithinTop;
    if entry.content.File? {
      HexRoundTrip(entry.content.payload);
    }
  }

  function EntriesDocument(canon: Canon, entries: seq<Entry>): seq<Json> {
    seq(|entries|, i requires 0 <= i < |entries| => EntryDocument(canon, entries[i]))
  }

  function EntriesFrom(canon: Canon, items: seq<Json>): Option<seq<Entry>> {
    if items == [] then Some([])
    else
      var first, rest := EntryFrom(canon, items[0]), EntriesFrom(canon, items[1..]);
      if first.None? || rest.None? then None else Some([first.value] + rest.value)
  }

  lemma {:induction false} EntriesRoundTrip(canon: Canon, entries: seq<Entry>)
    requires forall entry | entry in entries :: CanonicalPath(entry.path) && WithinTop(entry.path)
    ensures EntriesFrom(canon, EntriesDocument(canon, entries)) == Some(entries)
  {
    hide CanonicalPath, WithinTop, EntryDocument, EntryFrom;
    if entries != [] {
      assert entries[0] in entries;
      EntryRoundTrip(canon, entries[0]);
      EntriesRoundTrip(canon, entries[1..]);
      assert EntriesDocument(canon, entries)[1..] == EntriesDocument(canon, entries[1..]);
      assert [entries[0]] + entries[1..] == entries;
    }
  }

  function PlanBody(canon: Canon, plan: Plan): Fields {
    map[SchemaVersion := Number(2), Protocol := Text(PROTOCOL), TransactionId := Text(plan.transaction),
        HeaderDigest := Text(plan.header), Objects := List(EntriesDocument(canon, plan.entries))]
  }

  function PlanDigestOf(canon: Canon, plan: Plan): Bytes {
    canon.sha(PLAN_DOMAIN + canon.write(PlanBody(canon, plan)))
  }

  function PlanFields(canon: Canon, plan: Plan): Fields {
    PlanBody(canon, plan)[PlanDigest := Text(PlanDigestOf(canon, plan))]
  }

  /** The text of a plan, if it fits the bound of the journal. */
  function EncodePlan(canon: Canon, plan: Plan): Option<Bytes> {
    var raw := canon.write(PlanFields(canon, plan));
    if |raw| > MAXIMUM_DOCUMENT_BYTES then None else Some(raw)
  }

  const PLAN_KEYS: set<Key> := {SchemaVersion, Protocol, TransactionId, HeaderDigest, Objects, PlanDigest}

  function DecodePlan(canon: Canon, raw: Bytes): Option<Plan> {
    var read := canon.Read(raw);
    if read.None? || read.value.Keys != PLAN_KEYS then None
    else
      var fields := read.value;
      if fields[SchemaVersion] != Number(2) || fields[Protocol] != Text(PROTOCOL) || !fields[Objects].List?
         || !fields[TransactionId].Text? || !fields[HeaderDigest].Text? then None
      else
        var entries := EntriesFrom(canon, fields[Objects].items);
        if entries.None? then None
        else
          var plan := Plan(fields[TransactionId].utf8, fields[HeaderDigest].utf8, entries.value);
          if !PlanAdmitted(plan) || fields[PlanDigest] != Text(PlanDigestOf(canon, plan))
             || EncodePlan(canon, plan) != Some(raw) then None
          else Some(plan)
  }

  /** A text decodes to a plan exactly when it is that plan's text. */
  lemma PlanTextIsExact(canon: Canon, raw: Bytes, plan: Plan)
    requires canon.Faithful()
    ensures DecodePlan(canon, raw) == Some(plan) <==> PlanAdmitted(plan) && EncodePlan(canon, plan) == Some(raw)
  {
    hide PlanAdmitted;
    if PlanAdmitted(plan) && EncodePlan(canon, plan) == Some(raw) {
      PlanDecodes(canon, raw, plan);
    }
  }

  lemma EntryIsStorable(canon: Canon, entry: Entry)
    requires canon.Faithful() && CanonicalPath(entry.path)
    ensures Storable(EntryDocument(canon, entry))
  {
    hide Utf8, Parts;
    WordsAreText();
    if entry.content.File? {
      HexIsText(canon.sha(entry.content.payload));
      HexIsText(Hex(entry.content.payload));
    }
  }

  /** An admitted plan has a document that can be written. */
  lemma PlanIsStorable(canon: Canon, plan: Plan)
    requires canon.Faithful() && PlanAdmitted(plan)
    ensures Storable(Document(PlanFields(canon, plan)))
  {
    hide Utf8, EntryDocument, CanonicalPath;
    WordsAreText();
    HexIsText(plan.transaction);
    HexIsText(plan.header);
    HexIsText(PlanDigestOf(canon, plan));
    var items := EntriesDocument(canon, plan.entries);
    forall i | 0 <= i < |items| ensures Storable(items[i]) {
      assert plan.entries[i] in plan.entries;
      EntryIsStorable(canon, plan.entries[i]);
    }
    assert Storable(List(items));
  }

  lemma PlanDecodes(canon: Canon, raw: Bytes, plan: Plan)
    requires canon.Faithful() && PlanAdmitted(plan) && EncodePlan(canon, plan) == Some(raw)
    ensures DecodePlan(canon, raw) == Some(plan)
  {
    hide Storable, EntriesDocument, EntriesFrom, CanonicalPath, WithinTop, ParentsListed;
    EntriesRoundTrip(canon, plan.entries);
    PlanIsStorable(canon, plan);
    var fields := PlanFields(canon, plan);
    assert canon.parse(raw) == Some(fields);
    assert fields.Keys == PLAN_KEYS;
  }

  /** A plan's text cut short is no plan. */
  lemma TornPlanIsNoPlan(canon: Canon, plan: Plan, n: nat)
    requires canon.Faithful() && PlanAdmitted(plan) && EncodePlan(canon, plan).Some?
    requires n < |EncodePlan(canon, plan).value|
    ensures DecodePlan(canon, EncodePlan(canon, plan).value[..n]).None?
  {
    hide Storable, PlanAdmitted, PlanBody;
    PlanIsStorable(canon, plan);
    var fields := PlanFields(canon, plan);
    assert canon.parse(canon.write(fields)[..n]).None?;
  }
}
