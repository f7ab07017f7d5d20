/** The assumptions about canonical texts can be met: a text that says at every
    point what comes next, and a digest that tells nothing apart. */
module CodecInstances {
  import opened Wrappers
  import opened DurableFiles
  import opened CanonicalDocuments

  /** Every field name, in the order of the text. */
  const KEYS: seq<Key> :=
    [SchemaVersion, Protocol, TransactionId, HeaderDigest, Objects, PlanDigest,
     RelativePath, ObjectType, Confidentiality, Size, Sha256, PayloadHex, PlatformIdentity,
     PlatformName, Device, Inode, VolumeSerial, FileId,
     Sequence, PreviousDigest, State, SetId, Inventory, CheckpointDigest,
     AuthorSource, ApprovalInput, SemanticInput, ProducerCatalog, ContextSource,
     AuthorStore, SetJson, ContextMaterial]

  function Position(key: Key): (n: nat)
    ensures n < |KEYS| && KEYS[n] == key
  {
    match key
    case SchemaVersion => 0 case Protocol => 1 case TransactionId => 2 case HeaderDigest => 3 case Objects => 4
    case PlanDigest => 5 case RelativePath => 6 case ObjectType => 7 case Confidentiality => 8 case Size => 9
    case Sha256 => 10 case PayloadHex => 11 case PlatformIdentity => 12 case PlatformName => 13 case Device => 14
    case Inode => 15 case VolumeSerial => 16 case FileId => 17 case Sequence => 18 case PreviousDigest => 19
    case State => 20 case SetId => 21 case Inventory => 22 case CheckpointDigest => 23 case AuthorSource => 24
    case ApprovalInput => 25 case SemanticInput => 26 case ProducerCatalog => 27 case ContextSource => 28
    case AuthorStore => 29 case SetJson => 30 case ContextMaterial => 31
  }

  function Unary(n: nat): Bytes {
    if n == 0 then [0] else [1] + Unary(n - 1)
  }

  function Quoted(bytes: Bytes): (text: Bytes)
    ensures |text| == 2 * |bytes| + 1
  {
    if bytes == [] then [0] else [1, bytes[0]] + Quoted(bytes[1..])
  }

  /** A tag, then the parts, each announced before it comes. */
  function Encoded(value: Json): Bytes
    decreases value, 1, 0
  {
    match value
    case Null => [0]
    case Flag(flag) => [1, if flag then 1 else 0]
    case Number(number) => if number < 0 then [2] + Unary(-number) else [3] + Unary(number)
    case Text(utf8) => [4] + Quoted(utf8)
    case List(items) => [5] + EncodedItems(value, 0)
    case Document(_) => [6] + EncodedFields(value, 0)
  }

  function EncodedItems(list: Json, n: nat): Bytes
    requires list.List? && n <= |list.items|
    decreases list, 0, |list.items| - n
  {
    if n == |list.items| then [0] else [1] + Encoded(list.items[n]) + EncodedItems(list, n + 1)
  }

  function EncodedFields(document: Json, n: nat): Bytes
    requires document.Document? && n <= |KEYS|
    decreases document, 0, |KEYS| - n
  {
    if n == |KEYS| then []
    else
      var first := if KEYS[n] in document.fields then [1] + Encoded(document.fields[KEYS[n]]) else [0];
      first + EncodedFields(document, n + 1)
  }

  lemma {:induction false} UnaryEnds(m: nat, n: nat, x: Bytes, y: Bytes)
    requires Unary(m) + x == Unary(n) + y
    ensures m == n && x == y
  {
    Heads(Unary(m), x, Unary(n), y);
    if m > 0 && n > 0 {
      assert (Unary(m) + x)[1..] == Unary(m - 1) + x && (Unary(n) + y)[1..] == Unary(n - 1) + y;
      UnaryEnds(m - 1, n - 1, x, y);
    } else {
      assert (Unary(m) + x)[1..] == x && (Unary(n) + y)[1..] == y;
    }
  }

  lemma Heads(a: Bytes, x: Bytes, b: Bytes, y: Bytes)
    requires a != [] && b != [] && a + x == b + y
    ensures a[0] == b[0] && a[1..] + x == b[1..] + y
  {
    assert a[0] == (a + x)[0] == (b + y)[0] == b[0];
    assert a[1..] + x == (a + x)[1..] == (b + y)[1..] == b[1..] + y;
  }

  lemma {:induction false} QuotedEnds(a: Bytes, b: Bytes, x: Bytes, y: Bytes)
    requires Quoted(a) + x == Quoted(b) + y
    ensures a == b && x == y
  {
    Heads(Quoted(a), x, Quoted(b), y);
    if a == [] || b == [] {
      assert Quoted([])[1..] + x == x && Quoted([])[1..] + y == y;
    } else {
      Heads(Quoted(a)[1..], x, Quoted(b)[1..], y);
      assert Quoted(a)[1..][1..] == Quoted(a[1..]) && Quoted(b)[1..][1..] == Quoted(b[1..]);
      QuotedEnds(a[1..], b[1..], x, y);
      assert a == [a[0]] + a[1..] && b == [b[0]] + b[1..];
    }
  }

  lemma Associates(a: Bytes, b: Bytes, c: Bytes)
    ensures a + b + c == a + (b + c)
  {
  }

  /** The text of one value ends where it says: no other value's text goes on from it. */
  lemma {:induction false} OneReading(a: Json, b: Json, x: Bytes, y: Bytes)
    requires Encoded(a) + x == Encoded(b) + y
    ensures a == b && x == y
    decreases a, 1, 0
  {
    Heads(Encoded(a), x, Encoded(b), y);
    match a
    case Null =>
      assert Encoded(a)[1..] + x == x && Encoded(b)[1..] + y == y;
    case Flag(flag) =>
      Heads(Encoded(a)[1..], x, Encoded(b)[1..], y);
      assert Encoded(a)[1..][1..] + x == x && Encoded(b)[1..][1..] + y == y;
    case Number(number) =>
      var m, n := if number < 0 then -number else number, if b.value < 0 then -b.value else b.value;
      assert Encoded(a)[1..] == Unary(m) && Encoded(b)[1..] == Unary(n);
      UnaryEnds(m, n, x, y);
    case Text(utf8) =>
      assert Encoded(a)[1..] == Quoted(utf8) && Encoded(b)[1..] == Quoted(b.utf8);
      QuotedEnds(utf8, b.utf8, x, y);
    case List(items) =>
      assert Encoded(a)[1..] == EncodedItems(a, 0) && Encoded(b)[1..] == EncodedItems(b, 0);
      ItemsEnd(a, b, 0, x, y);
      assert items == items[0..] == b.items[0..] == b.items;
    case Document(fields) =>
      assert Encoded(a)[1..] == EncodedFields(a, 0) && Encoded(b)[1..] == EncodedFields(b, 0);
      FieldsEnd(a, b, 0, x, y);
      SameFields(fields, b.fields);
  }

  lemma {:induction false} ItemsEnd(a: Json, b: Json, n: nat, x: Bytes, y: Bytes)
    requires a.List? && b.List? && n <= |a.items| && n <= |b.items|
    requires EncodedItems(a, n) + x == EncodedItems(b, n) + y
    ensures a.items[n..] == b.items[n..] && x == y
    decreases a, 0, |a.items| - n
  {
    Heads(EncodedItems(a, n), x, EncodedItems(b, n), y);
    if n < |a.items| && n < |b.items| {
      var first, second := Encoded(a.items[n]), Encoded(b.items[n]);
      assert EncodedItems(a, n)[1..] == first + EncodedItems(a, n + 1);
      assert EncodedItems(b, n)[1..] == second + EncodedItems(b, n + 1);
      Associates(first, EncodedItems(a, n + 1), x);
      Associates(second, EncodedItems(b, n + 1), y);
      OneReading(a.items[n], b.items[n], EncodedItems(a, n + 1) + x, EncodedItems(b, n + 1) + y);
      ItemsEnd(a, b, n + 1, x, y);
      assert a.items[n..] == [a.items[n]] + a.items[n + 1..] && b.items[n..] == [b.items[n]] + b.items[n + 1..];
    } else {
      assert EncodedItems(a, n)[1..] + x == x && EncodedItems(b, n)[1..] + y == y;
    }
  }

  ghost predicate AgreeFrom(a: Fields, b: Fields, n: nat) {
    forall m | n <= m < |KEYS| ::
      (KEYS[m] in a <==> KEYS[m] in b) && (KEYS[m] in a && KEYS[m] in b ==> a[KEYS[m]] == b[KEYS[m]])
  }

  lemma FieldsUnfold(document: Json, n: nat)
    requires document.Document? && n <= |KEYS|
    ensures n == |KEYS| ==> EncodedFields(document, n) == []
    ensures n < |KEYS| ==>
      EncodedFields(document, n) ==
        (if KEYS[n] in document.fields then [1] + Encoded(document.fields[KEYS[n]]) else [0])
                                    + EncodedFields(document, n + 1)
    ensures EncodedFields(document, |KEYS|) == []
  {
    hide Encoded;
  }

  lemma AgreeFurther(a: Fields, b: Fields, n: nat)
    requires n < |KEYS| && AgreeFrom(a, b, n + 1)
    requires (KEYS[n] in a <==> KEYS[n] in b) && (KEYS[n] in a && KEYS[n] in b ==> a[KEYS[n]] == b[KEYS[n]])
    ensures AgreeFrom(a, b, n)
  {
    forall m | n <= m < |KEYS|
      ensures (KEYS[m] in a <==> KEYS[m] in b) && (KEYS[m] in a && KEYS[m] in b ==> a[KEYS[m]] == b[KEYS[m]])
    {
      assert m == n || n + 1 <= m;
    }
  }

  lemma {:induction false} FieldsEnd(a: Json, b: Json, n: nat, x: Bytes, y: Bytes)
    requires a.Document? && b.Document? && n <= |KEYS|
    requires EncodedFields(a, n) + x == EncodedFields(b, n) + y
    ensures AgreeFrom(a.fields, b.fields, n) && x == y
    decreases a, 0, |KEYS| - n
  {
    hide Encoded, EncodedFields;
    FieldsUnfold(a, n);
    FieldsUnfold(b, n);
    if n == |KEYS| {
      assert [] + x == x && [] + y == y;
    } else {
      var key := KEYS[n];
      var restA, restB := EncodedFields(a, n + 1), EncodedFields(b, n + 1);
      Heads(EncodedFields(a, n), x, EncodedFields(b, n), y);
      if key in a.fields {
        var first, second := Encoded(a.fields[key]), Encoded(b.fields[key]);
        assert ([1] + first + restA)[1..] == first + restA && ([1] + second + restB)[1..] == second + restB;
        Associates(first, restA, x);
        Associates(second, restB, y);
        OneReading(a.fields[key], b.fields[key], restA + x, restB + y);
      } else {
        assert ([0] + restA)[1..] == restA && ([0] + restB)[1..] == restB;
      }
      FieldsEnd(a, b, n + 1, x, y);
      AgreeFurther(a.fields, b.fields, n);
    }
  }

  lemma SameFields(a: Fields, b: Fields)
    requires AgreeFrom(a, b, 0)
    ensures a == b
  {
    forall key: Key ensures (key in a <==> key in b) && (key in a && key in b ==> a[key] == b[key]) {
      assert KEYS[Position(key)] == key;
    }
  }

  ghost function Decoded(raw: Bytes): Option<Fields> {
    if exists fields :: Encoded(Document(fields)) == raw
    then var fields :| Encoded(Document(fields)) == raw; Some(fields)
    else None
  }

  /** One canonical form: the texts above, with one digest for all of them. */
  ghost function Tagged(): Canon {
    Canon((fields: Fields) => Encoded(Document(fields)), raw => Decoded(raw), raw => seq(64, _ => 48))
  }

  lemma TaggedIsFaithful()
    ensures Tagged().Faithful()
  {
    hide Encoded, Storable;
    var canon := Tagged();
    forall fields: Fields ensures canon.parse(canon.write(fields)) == Some(fields) {
      var read := Decoded(Encoded(Document(fields))).value;
      assert Encoded(Document(read)) == Encoded(Document(fields));
      OneReading(Document(read), Document(fields), [], []);
    }
    forall fields: Fields, n: nat | n < |canon.write(fields)| ensures canon.parse(canon.write(fields)[..n]).None? {
      var raw := Encoded(Document(fields));
      if Decoded(raw[..n]).Some? {
        var read := Decoded(raw[..n]).value;
        assert Encoded(Document(read)) + raw[n..] == raw + [];
        OneReading(Document(read), Document(fields), raw[n..], []);
      }
    }
  }
}
