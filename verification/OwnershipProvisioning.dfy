/** Provisioning of the deployment keys: one pending directory filled kind by
    kind between checkpoints, then published by a single rename. */
module OwnershipProvisioning {
  import opened Wrappers
  import opened DurableFiles
  import opened PrivateKeys

  datatype Name =
    | PendingFolder
    | FinalFolder
    | Checkpoint(index: nat)
    | Private(kind: nat)
    | Registry(kind: nat)
    | Foreign(text: string)

  type Tree = Files<Name>

  /** The canonical encodings, and the public half of a private key. */
  datatype Encoding = Encoding(public: Bytes -> Bytes, registry: (nat, Bytes) -> Bytes, checkpoint: nat -> Bytes)

  function Min(a: int, b: int): int { if a < b then a else b }

  /** How many kinds the checkpoint `c` records as complete. */
  function CompletedKinds(kinds: nat, c: int): int { if c < 0 then 0 else Min(c, kinds) }

  /** A published registry speaks for the private key beside it. */
  predicate Bound(enc: Encoding, files: Tree, k: nat) {
    && Final(Private(k)) in files && |files[Final(Private(k))]| == KEY_BYTES
    && Final(Registry(k)) in files
    && files[Final(Registry(k))] == enc.registry(k, enc.public(files[Final(Private(k))]))
  }

  predicate CheckpointWritten(enc: Encoding, files: Tree, i: nat) {
    Final(Checkpoint(i)) in files && files[Final(Checkpoint(i))] == enc.checkpoint(i)
  }

  /** The files of the one step that may be under way at checkpoint `c`. */
  predicate InFlight(kinds: nat, files: Tree, c: nat, slot: Slot<Name>) {
    if c < kinds then
      if Final(Private(c)) !in files then slot == Temp(Private(c))
      else if Final(Registry(c)) !in files then slot == Final(Private(c)) || slot == Temp(Registry(c))
      else slot == Final(Private(c)) || slot == Final(Registry(c)) || slot == Temp(Checkpoint(c + 1))
    else
      c == kinds && slot == Temp(Checkpoint(kinds + 1))
  }

  predicate AllowedSlot(kinds: nat, files: Tree, c: int, slot: Slot<Name>) {
    || (slot.Final? && slot.name.Checkpoint? && slot.name.index <= c)
    || (slot.Final? && slot.name.Private? && slot.name.kind < CompletedKinds(kinds, c))
    || (slot.Final? && slot.name.Registry? && slot.name.kind < CompletedKinds(kinds, c))
    || (if c < 0 then slot == Temp(Checkpoint(0)) else InFlight(kinds, files, c, slot))
  }

  /** What the inventory check accepts, with `c` the last contiguous checkpoint. */
  predicate Classified(kinds: nat, enc: Encoding, files: Tree, c: int) {
    && -1 <= c <= kinds + 1
    && (forall i: nat | i <= c :: CheckpointWritten(enc, files, i))
    && (forall slot | slot in files :: AllowedSlot(kinds, files, c, slot))
  }

  /** What the pair check accepts: bound pairs, no public key twice. */
  predicate PairsValid(enc: Encoding, files: Tree, completed: nat) {
    && (forall k: nat | k < completed :: Bound(enc, files, k))
    && (forall j: nat, k: nat | j < k < completed && Bound(enc, files, j) && Bound(enc, files, k) ::
          enc.public(files[Final(Private(j))]) != enc.public(files[Final(Private(k))]))
  }

  /** Content of the file being written at checkpoint `c`. */
  ghost predicate InFlightContent(kinds: nat, enc: Encoding, files: Tree, c: int) {
    && (c < 0 && Temp(Checkpoint(0)) in files ==> files[Temp(Checkpoint(0))] <= enc.checkpoint(0))
    && (0 <= c <= kinds && Temp(Checkpoint(c + 1)) in files ==>
          files[Temp(Checkpoint(c + 1))] <= enc.checkpoint(c + 1))
    && (0 <= c < kinds ==>
          && (Temp(Private(c)) in files ==> |files[Temp(Private(c))]| <= KEY_BYTES)
          && (Final(Private(c)) in files ==> |files[Final(Private(c))]| == KEY_BYTES)
          && (Final(Registry(c)) in files ==> Bound(enc, files, c))
          && (Temp(Registry(c)) in files && Final(Private(c)) in files ==>
                files[Temp(Registry(c))] <= enc.registry(c, enc.public(files[Final(Private(c))]))))
  }

  /** Every staged key was drawn for its kind alone. */
  ghost predicate KeysDrawn(enc: Encoding, supply: Supply, drawn: nat, files: Tree) {
    && (forall k: nat | Staged(files, Private(k)).Some? ::
          exists i: nat :: i < drawn && i < supply.size && Staged(files, Private(k)).value == supply.draw(i))
    && (forall j: nat, k: nat | j < k && Staged(files, Private(j)).Some? && Staged(files, Private(k)).Some? ::
          enc.public(Staged(files, Private(j)).value) != enc.public(Staged(files, Private(k)).value))
  }

  /** A transaction directory that a stopped process can leave, at checkpoint `c`. */
  ghost predicate Interrupted(kinds: nat, enc: Encoding, files: Tree, c: int) {
    && Classified(kinds, enc, files, c)
    && (forall k: nat | k < CompletedKinds(kinds, c) :: Bound(enc, files, k))
    && InFlightContent(kinds, enc, files, c)
  }

  /** An accepted inventory holds exactly the written checkpoints up to the last one. */
  lemma CheckpointInPrefix(kinds: nat, enc: Encoding, files: Tree, c: int, i: nat)
    ensures Classified(kinds, enc, files, c) ==>
      && (i <= c ==> CheckpointWritten(enc, files, i))
      && (Final(Checkpoint(i)) in files <==> i <= c)
  {
    if Classified(kinds, enc, files, c) && Final(Checkpoint(i)) in files {
      assert AllowedSlot(kinds, files, c, Final(Checkpoint(i)));
    }
  }

  lemma LastCheckpoint(kinds: nat, enc: Encoding, files: Tree, c: int, next: nat)
    requires next <= kinds + 2
    requires forall i: nat | i < next :: CheckpointWritten(enc, files, i)
    requires next < kinds + 2 ==> Final(Checkpoint(next)) !in files
    ensures Classified(kinds, enc, files, c) ==> c == next - 1
  {
    CheckpointInPrefix(kinds, enc, files, c, next);
    if 0 < next {
      assert CheckpointWritten(enc, files, next - 1);
      CheckpointInPrefix(kinds, enc, files, c, next - 1);
    }
  }

  /** No staged key is ever replaced by another. */
  ghost predicate KeysKept(before: Tree, after: Tree) {
    forall k: nat | Staged(before, Private(k)).Some? ::
      Staged(after, Private(k)) == Staged(before, Private(k))
  }

  /** The file the transaction writes next is the only one whose writer may stop. */
  predicate NextFile(kinds: nat, files: Tree, c: int, name: Name) {
    && -1 <= c <= kinds && Final(name) !in files
    && if c == -1 || c == kinds then name == Checkpoint(c + 1)
       else if Final(Private(c)) !in files then name == Private(c)
       else if Final(Registry(c)) !in files then name == Registry(c)
       else name == Checkpoint(c + 1)
  }

  /** The bytes that file must hold; a private key has only its size fixed. */
  ghost predicate NextPayload(enc: Encoding, files: Tree, name: Name, payload: Bytes) {
    match name
    case Checkpoint(i) => payload == enc.checkpoint(i)
    case Private(k) => |payload| == KEY_BYTES
    case Registry(k) => Final(Private(k)) in files && payload == enc.registry(k, enc.public(files[Final(Private(k))]))
    case _ => false
  }

  lemma WriterStops(kinds: nat, enc: Encoding, before: Tree, after: Tree, c: int, name: Name, payload: Bytes)
    requires Interrupted(kinds, enc, before, c) && NextFile(kinds, before, c, name)
    requires NextPayload(enc, before, name, payload) && CutShort(before, after, name, payload)
    ensures Interrupted(kinds, enc, after, c)
  {
    forall i: nat | i <= c ensures CheckpointWritten(enc, after, i) {
      assert CheckpointWritten(enc, before, i);
    }
    forall k: nat | k < CompletedKinds(kinds, c) ensures Bound(enc, after, k) {
      assert Bound(enc, before, k);
    }
    forall slot | slot in after ensures AllowedSlot(kinds, after, c, slot) {
      if slot.name != name {
        assert AllowedSlot(kinds, before, c, slot);
      }
    }
  }

  lemma DoneIsClassified(kinds: nat, enc: Encoding, before: Tree, after: Tree, c: int, name: Name, payload: Bytes)
    requires Classified(kinds, enc, before, c) && NextFile(kinds, before, c, name)
    requires name.Checkpoint? ==> payload == enc.checkpoint(name.index)
    requires after == (before - {Temp(name)})[Final(name) := payload]
    ensures Classified(kinds, enc, after, if name.Checkpoint? then c + 1 else c)
  {
    var d := if name.Checkpoint? then c + 1 else c;
    forall i: nat | i <= d ensures CheckpointWritten(enc, after, i) {
      assert i <= c ==> CheckpointWritten(enc, before, i);
    }
    forall slot | slot in after ensures AllowedSlot(kinds, after, d, slot) {
      if slot.name != name {
        assert AllowedSlot(kinds, before, c, slot);
      }
    }
  }

  lemma WriterDone(kinds: nat, enc: Encoding, before: Tree, after: Tree, c: int, name: Name, payload: Bytes)
    requires Interrupted(kinds, enc, before, c) && NextFile(kinds, before, c, name)
    requires NextPayload(enc, before, name, payload)
    requires after == (before - {Temp(name)})[Final(name) := payload]
    ensures Interrupted(kinds, enc, after, if name.Checkpoint? then c + 1 else c)
  {
    var d := if name.Checkpoint? then c + 1 else c;
    DoneIsClassified(kinds, enc, before, after, c, name, payload);
    forall k: nat | k < CompletedKinds(kinds, d) ensures Bound(enc, after, k) {
      assert k < CompletedKinds(kinds, c) ==> Bound(enc, before, k);
    }
  }

  lemma WriterNotRefused(kinds: nat, enc: Encoding, files: Tree, c: int, name: Name, payload: Bytes)
    requires Interrupted(kinds, enc, files, c) && NextFile(kinds, files, c, name)
    requires NextPayload(enc, files, name, payload)
    ensures name.Private? ==> !PrivateRefused(files, name)
    ensures !name.Private? ==> !WriteRefused(files, name, payload)
  {
    if Temp(name) in files && files[Temp(name)] <= payload && |files[Temp(name)]| == |payload| {
      assert files[Temp(name)] == payload;
    }
  }

  /** A key joins the drawn ones without touching theirs. */
  lemma KeyStaged(enc: Encoding, supply: Supply, drawn: nat, before: Tree, drawn': nat, after: Tree, kind: nat)
    requires KeysDrawn(enc, supply, drawn, before) && drawn <= drawn'
    requires Apart(supply, enc.public)
    requires forall k: nat :: k != kind ==> Staged(after, Private(k)) == Staged(before, Private(k))
    requires || Staged(after, Private(kind)).None?
             || Staged(after, Private(kind)) == Staged(before, Private(kind))
             || (drawn < drawn' && drawn < supply.size && Staged(after, Private(kind)) == Some(supply.draw(drawn)))
    ensures KeysDrawn(enc, supply, drawn', after)
  {
    forall k: nat | Staged(after, Private(k)).Some?
      ensures exists i: nat :: i < drawn' && i < supply.size && Staged(after, Private(k)).value == supply.draw(i)
    {
      if Staged(after, Private(k)) == Staged(before, Private(k)) {
        var i: nat :| i < drawn && i < supply.size && Staged(before, Private(k)).value == supply.draw(i);
        assert i < drawn' && Staged(after, Private(k)).value == supply.draw(i);
      } else {
        assert drawn < drawn' && drawn < supply.size && Staged(after, Private(k)).value == supply.draw(drawn);
      }
    }
    forall j: nat | j != kind && Staged(after, Private(j)).Some? && Staged(after, Private(kind)).Some?
      ensures enc.public(Staged(after, Private(j)).value) != enc.public(Staged(after, Private(kind)).value)
    {
      var i: nat :| i < drawn && i < supply.size && Staged(before, Private(j)).value == supply.draw(i);
    }
  }

  /** Writing any other file leaves every key where it was. */
  lemma KeysUntouched(enc: Encoding, supply: Supply, drawn: nat, before: Tree, after: Tree, name: Name)
    requires SameElsewhere(before, after, name) && !name.Private?
    ensures KeysKept(before, after)
    ensures KeysDrawn(enc, supply, drawn, before) ==> KeysDrawn(enc, supply, drawn, after)
  {
    forall k: nat ensures Staged(after, Private(k)) == Staged(before, Private(k)) {
      assert Final(Private(k)).name != name && Temp(Private(k)).name != name;
    }
  }

  /** A stopped key writer left nothing usable, the old key, or the whole new one. */
  lemma KeyLeft(before: Tree, after: Tree, k: nat, key: Bytes)
    requires WriteLeft(before, after, Private(k), key) && |key| == KEY_BYTES
    ensures Staged(after, Private(k)).Some? && after != before ==> Staged(after, Private(k)) == Some(key)
    ensures forall j: nat :: j != k ==> Staged(after, Private(j)) == Staged(before, Private(j))
  {
    if Temp(Private(k)) in after && after[Temp(Private(k))] <= key && |after[Temp(Private(k))]| == |key| {
      assert after[Temp(Private(k))] == key;
    }
    forall j: nat | j != k ensures Staged(after, Private(j)) == Staged(before, Private(j)) {
      assert Final(Private(j)).name != Private(k) && Temp(Private(j)).name != Private(k);
    }
  }

  lemma RegistryHasKey(kinds: nat, enc: Encoding, files: Tree, k: nat)
    requires k < kinds
    ensures Classified(kinds, enc, files, k) && Final(Registry(k)) in files ==> Final(Private(k)) in files
  {
    if Classified(kinds, enc, files, k) && Final(Registry(k)) in files {
      assert AllowedSlot(kinds, files, k, Final(Registry(k)));
    }
  }

  /** What the cold reader demands of a whole authority directory. */
  predicate Complete(kinds: nat, enc: Encoding, forbidden: set<Bytes>, files: Tree) {
    && Classified(kinds, enc, files, kinds + 1)
    && PairsValid(enc, files, kinds)
    && (forall k: nat | k < kinds && Bound(enc, files, k) ::
          enc.public(files[Final(Private(k))]) !in forbidden)
  }

  /** A directory is complete exactly when every kind has a whole key bound by its
      registry, no two the same and none forbidden, and nothing else is there. */
  lemma CompleteExactly(kinds: nat, enc: Encoding, forbidden: set<Bytes>, files: Tree)
    ensures Complete(kinds, enc, forbidden, files) <==>
      && (forall k: nat | k < kinds ::
            && Final(Private(k)) in files && |files[Final(Private(k))]| == KEY_BYTES && Final(Registry(k)) in files
            && files[Final(Registry(k))] == enc.registry(k, enc.public(files[Final(Private(k))]))
            && enc.public(files[Final(Private(k))]) !in forbidden)
      && (forall j: nat, k: nat | j < k < kinds && Final(Private(j)) in files && Final(Private(k)) in files ::
            enc.public(files[Final(Private(j))]) != enc.public(files[Final(Private(k))]))
      && (forall i: nat | i <= kinds + 1 ::
            Final(Checkpoint(i)) in files && files[Final(Checkpoint(i))] == enc.checkpoint(i))
      && (forall slot | slot in files :: slot.Final?
            && match slot.name
               case Private(k) => k < kinds
               case Registry(k) => k < kinds
               case Checkpoint(i) => i <= kinds + 1
               case _ => false)
  {
    if Complete(kinds, enc, forbidden, files) {
      forall k: nat | k < kinds
        ensures Bound(enc, files, k) && enc.public(files[Final(Private(k))]) !in forbidden
      {
      }
      forall i: nat | i <= kinds + 1
        ensures Final(Checkpoint(i)) in files && files[Final(Checkpoint(i))] == enc.checkpoint(i)
      {
        assert CheckpointWritten(enc, files, i);
      }
      forall slot | slot in files ensures AllowedSlot(kinds, files, kinds + 1, slot) {
      }
    }
  }

  lemma ClassifiedOnce(kinds: nat, enc: Encoding, files: Tree, c: int, d: int)
    requires Classified(kinds, enc, files, c) && Classified(kinds, enc, files, d)
    ensures c == d
  {
    if 0 <= c { CheckpointInPrefix(kinds, enc, files, c, c); CheckpointInPrefix(kinds, enc, files, d, c); }
    if 0 <= d { CheckpointInPrefix(kinds, enc, files, c, d); CheckpointInPrefix(kinds, enc, files, d, d); }
  }

  /** Keys drawn apart make every recorded pair pass the reuse check. */
  lemma PairsRecorded(enc: Encoding, supply: Supply, drawn: nat, files: Tree, completed: nat)
    requires KeysDrawn(enc, supply, drawn, files)
    requires forall k: nat | k < completed :: Bound(enc, files, k)
    ensures PairsValid(enc, files, completed)
  {
    forall j: nat, k: nat | j < k < completed && Bound(enc, files, j) && Bound(enc, files, k)
      ensures enc.public(files[Final(Private(j))]) != enc.public(files[Final(Private(k))])
    {
      assert Staged(files, Private(j)).Some? && Staged(files, Private(k)).Some?;
    }
  }

  lemma VerifiedIsComplete(kinds: nat, enc: Encoding, forbidden: set<Bytes>, supply: Supply, drawn: nat, files: Tree)
    requires Fresh(supply, enc.public, forbidden)
    requires Interrupted(kinds, enc, files, kinds + 1) && KeysDrawn(enc, supply, drawn, files)
    ensures Complete(kinds, enc, forbidden, files)
  {
    PairsRecorded(enc, supply, drawn, files, kinds);
    forall k: nat | k < kinds && Bound(enc, files, k)
      ensures enc.public(files[Final(Private(k))]) !in forbidden
    {
      assert Staged(files, Private(k)).Some?;
    }
  }

  /** With its pair bound, a kind lacks only its checkpoint. */
  lemma CheckpointIsNext(kinds: nat, enc: Encoding, files: Tree, k: nat)
    requires k < kinds && Interrupted(kinds, enc, files, k) && Bound(enc, files, k)
    ensures NextFile(kinds, files, k, Checkpoint(k + 1))
    ensures NextPayload(enc, files, Checkpoint(k + 1), enc.checkpoint(k + 1))
    ensures forall j: nat | j < k + 1 :: Bound(enc, files, j)
  {
    CheckpointInPrefix(kinds, enc, files, k, k + 1);
  }

  lemma KeptThrough(before: Tree, middle: Tree, after: Tree)
    requires KeysKept(before, middle) && KeysKept(middle, after)
    ensures KeysKept(before, after)
  {
  }

  lemma OneRunMore(kinds: nat, runs: nat, bound: nat)
    requires runs <= bound
    ensures kinds * runs + kinds == kinds * (runs + 1) <= kinds * (bound + 1)
  {
  }

  class Provisioner {
    const kinds: nat
    const enc: Encoding
    const forbidden: set<Bytes>
    const disk: Disk<Name>
    const source: KeySource

    constructor (kinds: nat, enc: Encoding, forbidden: set<Bytes>, disk: Disk<Name>, source: KeySource)
      ensures this.kinds == kinds && this.enc == enc && this.forbidden == forbidden
      ensures this.disk == disk && this.source == source
    {
      this.kinds, this.enc, this.forbidden, this.disk, this.source := kinds, enc, forbidden, disk, source;
    }

    ghost predicate Sound()
      reads this
    {
      Fresh(source.supply, enc.public, forbidden)
    }

    ghost predicate Pending(c: int)
      reads this, disk`files, disk`folders, source`drawn
    {
      && disk.folders == {PendingFolder}
      && Interrupted(kinds, enc, disk.files, c)
      && KeysDrawn(enc, source.supply, source.drawn, disk.files)
    }

    /** Every state of the root directory between two runs. */
    ghost predicate Valid()
      reads this, disk`files, disk`folders, source`drawn
    {
      || (disk.folders == {} && disk.files == map[])
      || (exists c :: Pending(c))
      || Published()
    }

    ghost predicate Published()
      reads this, disk`files, disk`folders, source`drawn
    {
      && disk.folders == {FinalFolder}
      && Interrupted(kinds, enc, disk.files, kinds + 1)
      && KeysDrawn(enc, source.supply, source.drawn, disk.files)
    }

    /** What the inventory check and the pair check accept together. */
    ghost predicate Accepted()
      reads this, disk`files
    {
      exists c :: Classified(kinds, enc, disk.files, c) && PairsValid(enc, disk.files, CompletedKinds(kinds, c))
    }

    /** The last contiguous checkpoint; None refuses an unknown object. */
    method CheckpointPrefix() returns (checkpoint: Option<int>)
      ensures checkpoint.Some? ==> Classified(kinds, enc, disk.files, checkpoint.value)
      ensures checkpoint.None? ==> forall c :: !Classified(kinds, enc, disk.files, c)
    {
      var next := 0;
      while next < kinds + 2 && Final(Checkpoint(next)) in disk.files
        invariant next <= kinds + 2
        invariant forall i: nat | i < next :: CheckpointWritten(enc, disk.files, i)
      {
        if disk.files[Final(Checkpoint(next))] != enc.checkpoint(next) {
          forall c {
            CheckpointInPrefix(kinds, enc, disk.files, c, next);
          }
          return None;
        }
        next := next + 1;
      }
      var present := next - 1;
      if exists slot | slot in disk.files :: !AllowedSlot(kinds, disk.files, present, slot) {
        forall c {
          LastCheckpoint(kinds, enc, disk.files, c, next);
        }
        return None;
      }
      return Some(present);
    }

    method ValidateCompletedPairs(completed: nat) returns (valid: bool)
      ensures valid <==> PairsValid(enc, disk.files, completed)
    {
      var observed: set<Bytes> := {};
      var k := 0;
      while k < completed
        invariant k <= completed
        invariant PairsValid(enc, disk.files, k)
        invariant observed ==
          set j: nat | j < k && Bound(enc, disk.files, j) :: enc.public(disk.files[Final(Private(j))])
      {
        if !Bound(enc, disk.files, k) {
          return false;
        }
        var public := enc.public(disk.files[Final(Private(k))]);
        if public in observed {
          return false;
        }
        observed := observed + {public};
        k := k + 1;
      }
      return true;
    }

    /** Write one checkpoint or registry; `c` is where the transaction stands. */
    method Write(ghost c: int, name: Name, payload: Bytes) returns (r: Outcome)
      requires Sound() && !name.Private?
      modifies disk`files, disk`stop
      ensures old(disk.stop).None? ==> disk.stop.None? && !r.Stopped?
      ensures r.Refused? ==> disk.files == old(disk.files)
      ensures old(Pending(c) && NextFile(kinds, disk.files, c, name) && NextPayload(enc, disk.files, name, payload)) ==>
        && !r.Refused? && KeysKept(old(disk.files), disk.files)
        && Pending(if name.Checkpoint? && r.Done? then c + 1 else c)
      ensures r.Done? ==> disk.files == (old(disk.files) - {Temp(name)})[Final(name) := payload]
    {
      ghost var before := disk.files;
      ghost var expected := Pending(c) && NextFile(kinds, before, c, name) && NextPayload(enc, before, name, payload);
      if expected {
        WriterNotRefused(kinds, enc, before, c, name, payload);
      }
      r := disk.WriteExclusive(name, payload);
      if expected {
        KeysUntouched(enc, source.supply, source.drawn, before, disk.files, name);
        if r.Stopped? {
          WriterStops(kinds, enc, before, disk.files, c, name, payload);
        } else {
          WriterDone(kinds, enc, before, disk.files, c, name, payload);
        }
      }
    }

    /** Create the key of one kind, or take the one already staged. */
    method StageKey(k: nat) returns (r: Outcome, private: Bytes)
      requires Sound() && k < kinds
      modifies disk`files, disk`stop, source`drawn
      ensures old(disk.stop).None? ==> disk.stop.None? && !r.Stopped?
      ensures r.Refused? ==> disk.files == old(disk.files)
      ensures old(source.drawn) <= source.drawn <= old(source.drawn) + 1
      ensures old(Pending(k) && source.Room(1)) ==> !r.Refused? && Pending(k) && KeysKept(old(disk.files), disk.files)
      ensures r.Done? ==> Final(Private(k)) in disk.files && disk.files[Final(Private(k))] == private
    {
      ghost var before, drawn := disk.files, source.drawn;
      ghost var expected := Pending(k) && source.Room(1) && Final(Private(k)) !in before;
      ghost var key := KeyFor(before, Private(k), source.supply.draw(drawn));
      if expected {
        WriterNotRefused(kinds, enc, before, k, Private(k), key);
      }
      r, private := LoadOrCreatePrivate(disk, source, Private(k));
      if expected {
        if r.Stopped? {
          WriterStops(kinds, enc, before, disk.files, k, Private(k), key);
          KeyLeft(before, disk.files, k, key);
        } else {
          WriterDone(kinds, enc, before, disk.files, k, Private(k), key);
        }
        KeyStaged(enc, source.supply, drawn, before, source.drawn, disk.files, k);
      }
    }

    /** Create the key and the registry of one kind, each at most once. */
    method LoadOrCreatePair(k: nat) returns (r: Outcome)
      requires Sound() && k < kinds
      modifies disk`files, disk`stop, source`drawn
      ensures old(disk.stop).None? ==> disk.stop.None? && !r.Stopped?
      ensures old(source.drawn) <= source.drawn <= old(source.drawn) + 1
      ensures old(Pending(k) && source.Room(1)) ==> !r.Refused? && Pending(k) && KeysKept(old(disk.files), disk.files)
      ensures r.Done? && old(Pending(k) && source.Room(1)) ==> Bound(enc, disk.files, k)
      ensures Final(Registry(k)) in old(disk.files) && Final(Private(k)) !in old(disk.files) ==>
        r.Refused? && disk.files == old(disk.files) && source.drawn == old(source.drawn)
    {
      RegistryHasKey(kinds, enc, disk.files, k);
      if Final(Registry(k)) in disk.files && Final(Private(k)) !in disk.files {
        return Refused;
      }
      var private;
      r, private := StageKey(k);
      if !r.Done? {
        return;
      }
      var expected := enc.registry(k, enc.public(private));
      if Final(Registry(k)) in disk.files {
        return if disk.files[Final(Registry(k))] == expected then Done else Refused;
      }
      r := Write(k, Registry(k), expected);
    }

    /** One kind: its pair, the check of all pairs so far, its checkpoint. */
    method FillKind(k: nat) returns (r: Outcome)
      requires Sound() && k < kinds
      modifies disk`files, disk`stop, source`drawn
      ensures old(disk.stop).None? ==> disk.stop.None? && !r.Stopped?
      ensures old(source.drawn) <= source.drawn <= old(source.drawn) + 1
      ensures old(Pending(k) && source.Room(1)) ==>
        && !r.Refused? && KeysKept(old(disk.files), disk.files)
        && Pending(if r.Done? then k + 1 else k)
    {
      hide Interrupted, KeysKept, KeysDrawn, Bound, NextFile, NextPayload, Fresh, PairsValid;
      ghost var ok, before := Pending(k) && source.Room(1), disk.files;
      r := LoadOrCreatePair(k);
      ghost var paired := disk.files;
      if !r.Done? {
        return;
      }
      if ok {
        CheckpointIsNext(kinds, enc, disk.files, k);
        PairsRecorded(enc, source.supply, source.drawn, disk.files, k + 1);
      }
      var valid := ValidateCompletedPairs(k + 1);
      if !valid {
        return Refused;
      }
      r := Write(k, Checkpoint(k + 1), enc.checkpoint(k + 1));
      if ok {
        KeptThrough(before, paired, disk.files);
      }
    }

    /** Pairs and checkpoints, kind after kind, from the last recorded one. */
    method FillKinds(completed: nat, ghost checkpoint: int) returns (r: Outcome, ghost reached: int)
      requires Sound() && completed <= kinds
      requires completed < kinds ==> checkpoint == completed
      modifies disk`files, disk`stop, source`drawn
      ensures old(disk.stop).None? ==> disk.stop.None? && !r.Stopped?
      ensures old(source.drawn) <= source.drawn <= old(source.drawn) + (kinds - completed)
      ensures old(Pending(checkpoint) && source.Room(kinds - completed)) ==>
        && !r.Refused? && Pending(reached) && KeysKept(old(disk.files), disk.files)
        && (r.Done? ==> reached == if completed < kinds then kinds else checkpoint)
    {
      ghost var ok, before := Pending(checkpoint) && source.Room(kinds - completed), disk.files;
      reached, r := checkpoint, Done;
      for index := completed to kinds
        invariant old(disk.stop).None? ==> disk.stop.None?
        invariant r.Done? && reached == if index == completed then checkpoint else index
        invariant old(source.drawn) <= source.drawn <= old(source.drawn) + (index - completed)
        invariant ok ==> Pending(reached) && KeysKept(before, disk.files)
      {
        r := FillKind(index);
        if !r.Done? {
          return;
        }
        reached := index + 1;
      }
    }

    /** Verify every pair, record it, and publish the directory. */
    method PublishVerified(ghost checkpoint: int) returns (r: Outcome)
      requires Sound()
      modifies disk`files, disk`folders, disk`stop
      ensures old(disk.stop).None? ==> disk.stop.None? && !r.Stopped?
      ensures old(Pending(checkpoint)) && kinds <= checkpoint ==>
        && !r.Refused? && KeysKept(old(disk.files), disk.files) && Valid()
        && (r.Done? ==> Published())
      ensures r.Done? ==> Complete(kinds, enc, forbidden, disk.files)
    {
      ghost var ok := Pending(checkpoint) && kinds <= checkpoint;
      if ok {
        PairsRecorded(enc, source.supply, source.drawn, disk.files, kinds);
        CheckpointInPrefix(kinds, enc, disk.files, checkpoint, kinds + 1);
      }
      var valid := ValidateCompletedPairs(kinds);
      if !valid {
        return Refused;
      }
      if Final(Checkpoint(kinds + 1)) !in disk.files {
        r := Write(kinds, Checkpoint(kinds + 1), enc.checkpoint(kinds + 1));
        if !r.Done? {
          return;
        }
      }
      if ok {
        VerifiedIsComplete(kinds, enc, forbidden, source.supply, source.drawn, disk.files);
      }
      if !Complete(kinds, enc, forbidden, disk.files) {
        return Refused;
      }
      var alive := disk.RenameFolder(PendingFolder, FinalFolder);
      assert {PendingFolder} - {PendingFolder} + {FinalFolder} == {FinalFolder};
      return if alive then Done else Stopped;
    }

    /** The pending directory, from its last recorded step on. */
    method Continue(ghost c: int) returns (r: Outcome)
      requires Sound()
      modifies disk`files, disk`folders, disk`stop, source`drawn
      ensures old(disk.stop).None? ==> disk.stop.None? && !r.Stopped?
      ensures old(source.drawn) <= source.drawn <= old(source.drawn) + kinds
      ensures old(Pending(c) && source.Room(kinds)) ==>
        && Valid() && !r.Refused? && KeysKept(old(disk.files), disk.files)
        && (r.Done? ==> Published())
      ensures r.Done? ==> Complete(kinds, enc, forbidden, disk.files)
      ensures !old(Accepted()) ==> r.Refused? && disk.files == old(disk.files)
    {
      ghost var ok := Pending(c) && source.Room(kinds);
      var prefix := CheckpointPrefix();
      if prefix.None? {
        return Refused;
      }
      var checkpoint := prefix.value;
      if ok {
        ClassifiedOnce(kinds, enc, disk.files, c, checkpoint);
      }
      if checkpoint < 0 {
        r := Write(-1, Checkpoint(0), enc.checkpoint(0));
        if !r.Done? {
          return;
        }
        checkpoint := 0;
      }
      var completed := Min(checkpoint, kinds);
      if ok {
        PairsRecorded(enc, source.supply, source.drawn, disk.files, completed);
      }
      var valid := ValidateCompletedPairs(completed);
      if !valid {
        return Refused;
      }
      ghost var reached;
      r, reached := FillKinds(completed, checkpoint);
      if !r.Done? {
        return;
      }
      r := PublishVerified(reached);
    }

    /** Advance the one transaction as far as this process lives.

        From every directory an interrupted run leaves, the run is never refused,
        keeps every staged key and, if it survives, publishes. An inventory or a
        pair the checks do not accept is refused untouched, and so is a published
        directory that is damaged or has another beside it. */
    method Provision() returns (r: Outcome)
      requires Sound()
      modifies disk`files, disk`folders, disk`stop, source`drawn
      ensures old(disk.stop).None? ==> disk.stop.None? && !r.Stopped?
      ensures old(source.drawn) <= source.drawn <= old(source.drawn) + kinds
      ensures old(Valid() && source.Room(kinds)) ==> Valid() && !r.Refused? && KeysKept(old(disk.files), disk.files)
      ensures old(Valid() && source.Room(kinds)) && r.Done? ==> Published()
      ensures r.Done? ==> Complete(kinds, enc, forbidden, disk.files)
      ensures old(disk.folders) == {PendingFolder} && !old(Accepted()) ==> r.Refused? && disk.files == old(disk.files)
      ensures FinalFolder in old(disk.folders) ==>
        && disk.files == old(disk.files) && disk.folders == old(disk.folders) && source.drawn == old(source.drawn)
        && r == if PendingFolder !in old(disk.folders) && Complete(kinds, enc, forbidden, old(disk.files)) then Done
                else Refused
    {
      ghost var ok, c := Valid() && source.Room(kinds), -1;
      if FinalFolder in disk.folders {
        if PendingFolder in disk.folders {
          return Refused;
        }
        if ok {
          VerifiedIsComplete(kinds, enc, forbidden, source.supply, source.drawn, disk.files);
        }
        return if Complete(kinds, enc, forbidden, disk.files) then Done else Refused;
      }
      if PendingFolder in disk.folders {
        if ok {
          c :| Pending(c);
        }
      } else {
        var alive := disk.MakeFolder(PendingFolder);
        if !alive {
          return Stopped;
        }
      }
      assert ok ==> disk.folders == {PendingFolder} && Pending(c);
      r := Continue(c);
    }

    /** Any number of runs, each dying wherever its own limit says, then one that
        lives: it publishes, and each kind's key is the one first wholly staged. The
        random source must not repeat itself: each run draws one key a kind at most. */
    method ProvisionAcrossStops(stops: seq<nat>) returns (ghost history: seq<Tree>)
      requires Sound() && Valid() && source.Room(kinds * (|stops| + 1))
      modifies disk`files, disk`folders, disk`stop, source`drawn
      ensures Published() && Complete(kinds, enc, forbidden, disk.files)
      ensures |history| == |stops| + 1 && history[0] == old(disk.files)
      ensures forall i | 0 <= i < |history| :: KeysKept(history[i], disk.files)
    {
      history := [disk.files];
      for i := 0 to |stops|
        invariant Valid() && source.drawn <= old(source.drawn) + kinds * i
        invariant |history| == i + 1 && history[0] == old(disk.files)
        invariant forall j | 0 <= j <= i :: KeysKept(history[j], disk.files)
      {
        OneRunMore(kinds, i, |stops|);
        disk.stop := Some(stops[i]);
        var r := Provision();
        history := history + [disk.files];
      }
      OneRunMore(kinds, |stops|, |stops|);
      disk.stop := None;
      var r := Provision();
    }
  }
}
