/** A ledger at each of its limits: the assumptions of `EvidenceLimits` can be met. */
module EvidenceInstances {
  import opened Wrappers
  import opened EvidenceEvents
  import opened EvidenceLedger
  import opened EvidenceExport
  import opened EvidenceLimits
  import KeyInstances

  /** The n-th text of the length of a digest. */
  function Label(n: nat): (text: Id)
    ensures |text| == DIGEST_LENGTH
  {
    seq(DIGEST_LENGTH, i requires 0 <= i < DIGEST_LENGTH => KeyInstances.Numeral(n, DIGEST_LENGTH)[i] as char)
  }

  lemma LabelsDiffer(m: nat, n: nat)
    requires m < n <= 14_000
    ensures Label(m) != Label(n)
  {
    hide KeyInstances.Numeral, KeyInstances.Power;
    KeyInstances.PowerIsLarge(DIGEST_LENGTH);
    KeyInstances.NumeralsDiffer(m, n, DIGEST_LENGTH);
    var first, second := KeyInstances.Numeral(m, DIGEST_LENGTH), KeyInstances.Numeral(n, DIGEST_LENGTH);
    var i: nat :| i < DIGEST_LENGTH && first[i] != second[i];
    assert Label(m)[i] != Label(n)[i];
  }

  function NameOf(artifact: Artifact): Id {
    match artifact.body
    case RecordDocument(_, _, rest) => if |rest| == DIGEST_LENGTH then rest else Label(0)
    case ManifestDocument(_) => Label(1)
    case _ => Label(2)
  }

  /** Records are named by their text, and events weigh what their sources weigh. */
  function Plain(): Rules {
    Rules(event => Label(0),
          (event: Event) => if event.act.Census? then 74 * |event.act.sources| + 512 else 512,
          artifact => NameOf(artifact), text => text != "")
  }

  lemma PlainIsWeighed()
    ensures Weighed(Plain())
  {
    hide Label;
    forall artifact ensures |Plain().name(artifact)| == DIGEST_LENGTH {
    }
    forall event ensures |Plain().digest(event)| == DIGEST_LENGTH {
    }
  }

  function RecordOf(n: nat, size: nat): Artifact {
    Artifact(size, RecordDocument(None, None, Label(n)))
  }

  /** So many different records of one size. */
  function Records(count: nat, size: nat): (rows: seq<Artifact>)
    ensures |rows| == count && forall i | 0 <= i < count :: rows[i] == RecordOf(i, size)
  {
    if count == 0 then [] else Records(count - 1, size) + [RecordOf(count - 1, size)]
  }

  lemma RecordIsNamed(n: nat, size: nat)
    ensures Plain().name(RecordOf(n, size)) == Label(n) && RecordOf(n, size).size == size
  {
    hide Label;
  }

  lemma RecordsAreStored(count: nat, size: nat)
    requires count <= 14_000 && 0 < size <= MAX_RECORD_BYTES
    ensures Stored(Plain(), Records(count, size))
  {
    hide Label, Records, Plain, RecordOf;
    var rows := Records(count, size);
    forall i: nat | i < count ensures Plain().name(rows[i]) == Label(i) && rows[i].size == size {
      RecordIsNamed(i, size);
    }
    forall i: nat, j: nat | i < j < count ensures Plain().name(rows[i]) != Plain().name(rows[j]) {
      LabelsDiffer(i, j);
    }
  }

  lemma {:induction false} RecordsWeigh(count: nat, size: nat)
    ensures ArtifactBytes(Records(count, size)) == count * size
  {
    hide Label;
    if count == 0 {
      assert Records(0, size) == [];
    } else {
      RecordsWeigh(count - 1, size);
      var before := Records(count - 1, size);
      assert Records(count, size) == before + [RecordOf(count - 1, size)];
      assert Records(count, size)[..count - 1] == before;
    }
  }

  /** 14 000 records of 80 bytes: the commit of the 65th census of all of them loses
      the ledger. */
  lemma SomeCommitLosesLedger()
    ensures var rules, rows := Plain(), Records(14_000, 80);
            && Stored(rules, rows)
            && var act := WholeCensus(rules, rows, Label(0));
               var events := Repeated(rules, act, 64);
               && Opens(rules, rows, events)
               && var state := Replay(rules, StoreOf(rules, rows), events).value;
                  && !OperationRefused(rules, rows, state, rows, act)
                  && !Opens(rules, rows, events + [EventFor(state, act)])
  {
    hide Label, Records, RecordOf, StoreOf, ArtifactBytes, Stored, Plain, Opens, OperationRefused, Weighed, Repeated;
    PlainIsWeighed();
    RecordsAreStored(14_000, 80);
    RecordsWeigh(14_000, 80);
    CommitCanLoseLedger(Plain(), Records(14_000, 80), Label(0));
  }

  /** 64 records of 1 MiB fill the artifact budget: their ledger opens, and its export
      does not. */
  lemma SomeExportDoesNotFit()
    ensures var rules, rows := Plain(), Records(64, MAX_RECORD_BYTES);
            var blob: Event -> Artifact := event => RecordOf(64, 1);
            var events := Repeated(rules, WholeCensus(rules, rows, Label(0)), 1);
            Opens(rules, rows, events) && !Opens(rules, ExportRows(rules, blob, rows, events), events)
  {
    hide Label, Records, RecordOf, StoreOf, ArtifactBytes, Stored, ExportRows;
    var rules, rows := Plain(), Records(64, MAX_RECORD_BYTES);
    RecordsAreStored(64, MAX_RECORD_BYTES);
    RecordsWeigh(64, MAX_RECORD_BYTES);
    var blob: Event -> Artifact := event => RecordOf(64, 1);
    assert rules.name(RecordOf(64, 1)) !in StoreOf(rules, rows) by {
      NotAmongRecords(64, MAX_RECORD_BYTES);
    }
    RecordIsNamed(64, 1);
    var events := Repeated(rules, WholeCensus(rules, rows, Label(0)), 1);
    forall event | event in events ensures rules.size(event) <= MAX_RECORD_BYTES {
    }
    ExportMayNotFit(rules, blob, rows, Label(0));
  }

  lemma NotAmongRecords(count: nat, size: nat)
    requires count <= 14_000
    ensures Plain().name(RecordOf(count, 1)) !in StoreOf(Plain(), Records(count, size))
  {
    hide Label, Records, RecordOf, StoreOf, Plain;
    InStore(Plain(), Records(count, size), Label(count));
    RecordIsNamed(count, 1);
    forall i: nat | i < count ensures Plain().name(Records(count, size)[i]) != Label(count) {
      RecordIsNamed(i, size);
      LabelsDiffer(i, count);
    }
  }

  /** One case with one probe. */
  const CASES: seq<Case> := [Case("case", ["probe"])]

  /** A census of one record, and a profile of one case. */
  const SOURCES: seq<Artifact> :=
    [RecordOf(0, 80), Artifact(80, ManifestDocument(CASES)), Artifact(80, CasesDocument(CASES))]

  const UNEVENTFUL: Act := Census(Label(0), [Label(0)], Label(0), map[])

  const FREEZING: Act := ProfileFrozen(Bindings(Label(0), Label(0), Label(0), Label(0), Label(0)), Label(1), Label(2))

  /** Three records: a ledger of 10 000 events over them that cannot be opened. */
  lemma SomeLedgerIsFull()
    ensures var events := FullRun(Plain(), UNEVENTFUL, FREEZING);
            Opens(Plain(), SOURCES, events) && !CanOpen(Plain(), SOURCES, events)
  {
    hide Label, FullRun, StoreOf, Opens, CanOpen, CensusHolds, ProfileHolds, ArtifactBytes;
    SourcesSuffice();
    var events := FullRun(Plain(), UNEVENTFUL, FREEZING);
    forall event | event in events ensures Plain().size(event) <= 4096 {
      FullRunActs(event);
    }
    FullLedgerCannotOpen(Plain(), SOURCES, UNEVENTFUL, FREEZING);
  }

  lemma FullRunActs(event: Event)
    requires event in FullRun(Plain(), UNEVENTFUL, FREEZING)
    ensures Plain().size(event) <= 4096
  {
    hide Label, Repeated;
  }

  lemma SourcesSuffice()
    ensures CensusHolds(Plain(), StoreOf(Plain(), SOURCES), UNEVENTFUL)
    ensures ProfileHolds(Plain(), StoreOf(Plain(), SOURCES), FREEZING)
    ensures ArtifactBytes(SOURCES) <= MAX_TABLE_BYTES
  {
    hide Label;
    LabelsDiffer(0, 1);
    LabelsDiffer(0, 2);
    LabelsDiffer(1, 2);
    assert SOURCES[..2][..1] == [SOURCES[0]] && SOURCES[..2][1] == SOURCES[1] && SOURCES[..1][..0] == [];
    var store := StoreOf(Plain(), SOURCES);
    assert StoreOf(Plain(), SOURCES[..1]) == map[Label(0) := SOURCES[0]];
    assert StoreOf(Plain(), SOURCES[..2]) == map[Label(0) := SOURCES[0], Label(1) := SOURCES[1]];
    assert store == map[Label(0) := SOURCES[0], Label(1) := SOURCES[1], Label(2) := SOURCES[2]];
    assert ArtifactBytes(SOURCES[..1]) == 80 && ArtifactBytes(SOURCES[..2]) == 160;
  }
}
