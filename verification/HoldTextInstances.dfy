/** The assumptions about the documents of retention can be met: the texts of
    `CodecInstances`, read by undoing them. */
module HoldTextInstances {
  import opened Wrappers
  import opened DurableFiles
  import opened RetentionObjects
  import opened RetentionJournal
  import opened LegalHolds
  import opened CanonicalDocuments
  import opened CodecInstances

  /** A string as the list of its code points. */
  function Spell(text: string): Json {
    List(seq(|text|, i requires 0 <= i < |text| => Number(text[i] as int)))
  }

  lemma SpellTells(a: string, b: string)
    requires Spell(a) == Spell(b)
    ensures a == b
  {
    assert |a| == |Spell(a).items| == |Spell(b).items| == |b|;
    forall i | 0 <= i < |a| ensures a[i] == b[i] {
      assert Spell(a).items[i] == Spell(b).items[i];
    }
  }

  function IdentityOf(id: Identity): Json {
    List([Spell(id.owner), Spell(id.store), Spell(id.nodeType), Spell(id.localId),
          if id.contract.Some? then Spell(id.contract.value) else Null])
  }

  lemma IdentityTells(a: Identity, b: Identity)
    requires IdentityOf(a) == IdentityOf(b)
    ensures a == b
  {
    hide Spell;
    var items := IdentityOf(b).items;
    assert items == IdentityOf(a).items;
    assert items[0] == Spell(a.owner) && items[1] == Spell(a.store) && items[2] == Spell(a.nodeType);
    assert items[3] == Spell(a.localId) && items[4] == if a.contract.Some? then Spell(a.contract.value) else Null;
    SpellTells(a.owner, b.owner);
    SpellTells(a.store, b.store);
    SpellTells(a.nodeType, b.nodeType);
    SpellTells(a.localId, b.localId);
    if a.contract.Some? && b.contract.Some? {
      SpellTells(a.contract.value, b.contract.value);
    }
    SpellIsNotNull(a.contract, b.contract);
  }

  lemma SpellIsNotNull(a: Option<string>, b: Option<string>)
    ensures a.Some? ==> Spell(a.value) != Null
    ensures b.Some? ==> Spell(b.value) != Null
  {
  }

  function ReceiptOf(receipt: Receipt): Json {
    List([IdentityOf(receipt.identity), Spell(receipt.version), Spell(receipt.runId), Number(receipt.at),
          Spell(receipt.keyId)])
  }

  function IntentOf(intent: Intent): Json {
    List([IdentityOf(intent.identity), Spell(intent.version), ReceiptOf(intent.receipt), Number(intent.group)])
  }

  lemma ReceiptTells(a: Receipt, b: Receipt)
    requires ReceiptOf(a) == ReceiptOf(b)
    ensures a == b
  {
    hide Spell, IdentityOf;
    var items := ReceiptOf(b).items;
    assert items[0] == IdentityOf(a.identity) && items[1] == Spell(a.version) && items[2] == Spell(a.runId);
    assert items[3] == Number(a.at) && items[4] == Spell(a.keyId);
    IdentityTells(a.identity, b.identity);
    SpellTells(a.version, b.version);
    SpellTells(a.runId, b.runId);
    SpellTells(a.keyId, b.keyId);
  }

  lemma IntentTells(a: Intent, b: Intent)
    requires IntentOf(a) == IntentOf(b)
    ensures a == b
  {
    hide Spell, IdentityOf, ReceiptOf;
    var items := IntentOf(b).items;
    assert items[0] == IdentityOf(a.identity) && items[1] == Spell(a.version);
    assert items[2] == ReceiptOf(a.receipt) && items[3] == Number(a.group);
    IdentityTells(a.identity, b.identity);
    SpellTells(a.version, b.version);
    ReceiptTells(a.receipt, b.receipt);
  }

  /** The members of a set, in some order of its own. */
  ghost function Members(held: Holding): (members: seq<Identity>)
    ensures forall id :: id in members <==> id in held
  {
    if held == {} then []
    else
      var id :| id in held;
      [id] + Members(held - {id})
  }

  ghost function HoldingOf(held: Holding): Json {
    var members := Members(held);
    List(seq(|members|, i requires 0 <= i < |members| => IdentityOf(members[i])))
  }

  lemma HoldingTells(a: Holding, b: Holding)
    requires HoldingOf(a) == HoldingOf(b)
    ensures a == b
  {
    hide IdentityOf;
    var first, second := Members(a), Members(b);
    assert |first| == |HoldingOf(a).items| == |HoldingOf(b).items| == |second|;
    forall i | 0 <= i < |first| ensures first[i] == second[i] {
      assert HoldingOf(a).items[i] == HoldingOf(b).items[i];
      IdentityTells(first[i], second[i]);
    }
    assert first == second;
    assert forall id :: id in a <==> id in b;
  }

  function IntentsOf(intents: seq<Intent>): Json {
    List(seq(|intents|, i requires 0 <= i < |intents| => IntentOf(intents[i])))
  }

  lemma IntentsTell(a: seq<Intent>, b: seq<Intent>)
    requires IntentsOf(a) == IntentsOf(b)
    ensures a == b
  {
    hide IntentOf;
    assert |a| == |IntentsOf(a).items| == |IntentsOf(b).items| == |b|;
    forall i | 0 <= i < |a| ensures a[i] == b[i] {
      assert IntentsOf(a).items[i] == IntentsOf(b).items[i];
      IntentTells(a[i], b[i]);
    }
  }

  ghost function MarkerOf(marker: Marker): Json {
    List([Spell(marker.runId), Number(marker.startedAt), HoldingOf(marker.plan.holds), IntentsOf(marker.plan.intents)])
  }

  lemma MarkerTells(a: Marker, b: Marker)
    requires MarkerOf(a) == MarkerOf(b)
    ensures a == b
  {
    hide Spell, HoldingOf, IntentsOf;
    var items := MarkerOf(b).items;
    assert items[0] == Spell(a.runId) && items[1] == Number(a.startedAt);
    assert items[2] == HoldingOf(a.plan.holds) && items[3] == IntentsOf(a.plan.intents);
    SpellTells(a.runId, b.runId);
    HoldingTells(a.plan.holds, b.plan.holds);
    IntentsTell(a.plan.intents, b.plan.intents);
  }

  /** A text is read as the value whose text it is, if there is one. */
  ghost function Undone<T(!new)>(text: T -> Bytes, raw: Bytes): (value: Option<T>)
    ensures value.Some? ==> text(value.value) == raw
    ensures (exists v :: text(v) == raw) ==> value.Some?
  {
    if v :| text(v) == raw then Some(v) else None
  }

  ghost function Written(): Texts {
    var marker := (m: Marker) => Encoded(MarkerOf(m));
    var holds := (h: Holding) => Encoded(HoldingOf(h));
    Texts(marker, raw => Undone(marker, raw), holds, raw => Undone(holds, raw))
  }

  lemma WrittenIsCanonical()
    ensures Written().Canonical()
  {
    hide Encoded, MarkerOf, HoldingOf;
    var texts := Written();
    forall m ensures texts.readMarker(texts.marker(m)) == Some(m) {
      var read := texts.readMarker(texts.marker(m));
      OneReading(MarkerOf(read.value), MarkerOf(m), [], []);
      MarkerTells(read.value, m);
    }
    forall h ensures texts.readHolds(texts.holds(h)) == Some(h) {
      var read := texts.readHolds(texts.holds(h));
      OneReading(HoldingOf(read.value), HoldingOf(h), [], []);
      HoldingTells(read.value, h);
    }
  }
}
