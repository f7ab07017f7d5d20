/** The checks of a run accept the directories that stopped runs leave, and no
    others. */
module OwnershipReachability {
  import opened DurableFiles
  import opened PrivateKeys
  import opened OwnershipProvisioning

  /** No key is staged for two kinds. */
  ghost predicate KeysApart(enc: Encoding, files: Tree) {
    forall j: nat, k: nat | j < k && Staged(files, Private(j)).Some? && Staged(files, Private(k)).Some? ::
      enc.public(Staged(files, Private(j)).value) != enc.public(Staged(files, Private(k)).value)
  }

  /** Some staged keys, and no others. */
  ghost predicate FewerKeys(fewer: Tree, files: Tree) {
    forall k: nat | Staged(fewer, Private(k)).Some? :: Staged(files, Private(k)) == Staged(fewer, Private(k))
  }

  lemma FewerKeysApart(enc: Encoding, fewer: Tree, files: Tree)
    requires KeysApart(enc, files) && FewerKeys(fewer, files)
    ensures KeysApart(enc, fewer)
  {
    hide Staged;
  }

  /** One step of a run on the file that comes next: create its temporary, write
      more of it, publish it when whole, or discard it when torn. No key comes twice. */
  ghost predicate Move(kinds: nat, enc: Encoding, before: Tree, after: Tree, c: int, name: Name, payload: Bytes) {
    && Classified(kinds, enc, before, c) && NextFile(kinds, before, c, name)
    && NextPayload(enc, before, name, payload) && KeysApart(enc, after)
    && (|| (Temp(name) !in before && after == before[Temp(name) := []])
        || (&& Temp(name) in before && Temp(name) in after && before[Temp(name)] < after[Temp(name)] <= payload
            && after == before[Temp(name) := after[Temp(name)]])
        || (Temp(name) in before && before[Temp(name)] == payload && after == Publish(before, name, payload))
        || (Temp(name) in before && |before[Temp(name)]| < |payload| && after == before - {Temp(name)}))
  }

  function Publish(before: Tree, name: Name, payload: Bytes): Tree {
    (before - {Temp(name)})[Final(name) := payload]
  }

  ghost predicate Moves(kinds: nat, enc: Encoding, before: Tree, after: Tree) {
    exists c, name, payload :: Move(kinds, enc, before, after, c, name, payload)
  }

  /** A run of steps from the empty transaction directory. */
  ghost predicate Run(kinds: nat, enc: Encoding, trace: seq<Tree>) {
    && |trace| > 0 && trace[0] == map[]
    && forall i :: 0 <= i < |trace| - 1 ==> Moves(kinds, enc, trace[i], trace[i + 1])
  }

  ghost predicate Reachable(kinds: nat, enc: Encoding, files: Tree) {
    exists trace :: Run(kinds, enc, trace) && trace[|trace| - 1] == files
  }

  lemma MoveKeepsShape(kinds: nat, enc: Encoding, before: Tree, after: Tree, d: int) returns (e: int)
    requires Interrupted(kinds, enc, before, d) && Moves(kinds, enc, before, after)
    ensures Interrupted(kinds, enc, after, e)
  {
    var c, name, payload :| Move(kinds, enc, before, after, c, name, payload);
    ClassifiedOnce(kinds, enc, before, c, d);
    if after == Publish(before, name, payload) {
      WriterDone(kinds, enc, before, after, c, name, payload);
      e := if name.Checkpoint? then c + 1 else c;
    } else {
      WriterStops(kinds, enc, before, after, c, name, payload);
      e := c;
    }
  }

  lemma {:induction false} RunHasShape(kinds: nat, enc: Encoding, trace: seq<Tree>) returns (c: int)
    requires Run(kinds, enc, trace)
    ensures Interrupted(kinds, enc, trace[|trace| - 1], c) && KeysApart(enc, trace[|trace| - 1])
  {
    var last := |trace| - 1;
    if last == 0 {
      c := -1;
    } else {
      var d := RunHasShape(kinds, enc, trace[..last]);
      assert Moves(kinds, enc, trace[last - 1], trace[last - 1 + 1]);
      c := MoveKeepsShape(kinds, enc, trace[last - 1], trace[last], d);
    }
  }

  lemma Step(kinds: nat, enc: Encoding, before: Tree, after: Tree)
    requires Reachable(kinds, enc, before) && Moves(kinds, enc, before, after)
    ensures Reachable(kinds, enc, after)
  {
    var trace :| Run(kinds, enc, trace) && trace[|trace| - 1] == before;
    var longer := trace + [after];
    forall i | 0 <= i < |longer| - 1 ensures Moves(kinds, enc, longer[i], longer[i + 1]) {
      if i < |trace| - 1 {
        assert Moves(kinds, enc, trace[i], trace[i + 1]);
      }
    }
    assert Run(kinds, enc, longer);
  }

  /** The file under way at checkpoint `c`, up to the last checkpoint. */
  function NextName(kinds: nat, files: Tree, c: int): Name
    requires -1 <= c <= kinds
  {
    if c == -1 || c == kinds then Checkpoint(c + 1)
    else if Final(Private(c)) !in files then Private(c)
    else if Final(Registry(c)) !in files then Registry(c)
    else Checkpoint(c + 1)
  }

  /** Some payload that the temporary of the next file begins. */
  function Payload(enc: Encoding, files: Tree, name: Name): Bytes {
    match name
    case Checkpoint(i) => enc.checkpoint(i)
    case Registry(k) =>
      enc.registry(k, enc.public(if Final(Private(k)) in files then files[Final(Private(k))] else []))
    case _ =>
      var begun := if Temp(name) in files && |files[Temp(name)]| <= KEY_BYTES then files[Temp(name)] else [];
      begun + seq(KEY_BYTES - |begun|, _ => 0)
  }

  /** The file published last at checkpoint `c`. */
  function LastName(kinds: nat, files: Tree, c: nat): Name {
    if c < kinds && Final(Registry(c)) in files then Registry(c)
    else if c < kinds && Final(Private(c)) in files then Private(c)
    else Checkpoint(c)
  }

  function Under(kinds: nat, files: Tree, c: int): bool
    requires -1 <= c <= kinds + 1
  {
    c <= kinds && Temp(NextName(kinds, files, c)) in files
  }

  lemma NextIsNext(kinds: nat, enc: Encoding, files: Tree, c: int)
    requires Interrupted(kinds, enc, files, c) && c <= kinds
    ensures NextFile(kinds, files, c, NextName(kinds, files, c))
  {
    CheckpointInPrefix(kinds, enc, files, c, c + 1);
  }

  /** The steps back in a run stage no further key. */
  lemma StepBackKeys(files: Tree, name: Name, content: Bytes)
    ensures Temp(name) in files && content == [] ==> FewerKeys(files[Temp(name) := content], files)
    ensures FewerKeys(files - {Temp(name)}, files)
    ensures Final(name) in files && files[Final(name)] == content && |content| == KEY_BYTES ==>
      FewerKeys((files - {Final(name)})[Temp(name) := content], files)
    ensures !name.Private? ==> FewerKeys((files - {Final(name)})[Temp(name) := content], files)
  {
  }

  lemma BackIsClassified(kinds: nat, enc: Encoding, files: Tree, before: Tree, c: nat, last: Name)
    requires Classified(kinds, enc, files, c) && !Under(kinds, files, c)
    requires last == LastName(kinds, files, c) && Final(last) in files
    requires forall k: nat | k < CompletedKinds(kinds, c) :: Bound(enc, files, k)
    requires before == (files - {Final(last)})[Temp(last) := files[Final(last)]]
    ensures Classified(kinds, enc, before, if last.Checkpoint? then c - 1 else c)
  {
    var d := if last.Checkpoint? then c - 1 else c;
    assert 0 <= d < kinds && d < c ==> Bound(enc, files, d);
    forall i: nat | i <= d ensures CheckpointWritten(enc, before, i) {
      assert CheckpointWritten(enc, files, i);
    }
    forall slot | slot in before ensures AllowedSlot(kinds, before, d, slot) {
      if slot != Temp(last) {
        assert AllowedSlot(kinds, files, c, slot);
      }
    }
  }

  /** A directory with nothing under way came from publishing its last file. */
  lemma Unpublish(kinds: nat, enc: Encoding, files: Tree, c: nat) returns (before: Tree)
    requires Interrupted(kinds, enc, files, c) && !Under(kinds, files, c) && KeysApart(enc, files)
    ensures KeysApart(enc, before)
    ensures
      var last := LastName(kinds, files, c);
      var d := if last.Checkpoint? then c - 1 else c;
      && Final(last) in files
      && Interrupted(kinds, enc, before, d)
      && Move(kinds, enc, before, files, d, last, files[Final(last)])
  {
    hide KeysApart, FewerKeys, Staged;
    var last := LastName(kinds, files, c);
    var d := if last.Checkpoint? then c - 1 else c;
    CheckpointInPrefix(kinds, enc, files, c, c);
    var payload := files[Final(last)];
    before := (files - {Final(last)})[Temp(last) := payload];
    BackIsClassified(kinds, enc, files, before, c, last);
    forall k: nat | k < CompletedKinds(kinds, c) ensures Bound(enc, before, k) {
      assert Bound(enc, files, k);
    }
    assert 0 <= d < kinds && d < c ==> Bound(enc, before, d);
    assert files == Publish(before, last, payload);
    StepBackKeys(files, last, payload);
    FewerKeysApart(enc, before, files);
  }

  /** Every interrupted directory is where some run stops. */
  lemma {:induction false} ShapeIsReached(kinds: nat, enc: Encoding, files: Tree, c: int)
    requires Interrupted(kinds, enc, files, c) && KeysApart(enc, files)
    ensures Reachable(kinds, enc, files)
    decreases c + 1,
      if c >= 0 && c < kinds && Final(Registry(c)) in files then 2
      else if c >= 0 && c < kinds && Final(Private(c)) in files then 1 else 0,
      if Under(kinds, files, c) then 1 + |files[Temp(NextName(kinds, files, c))]| else 0
  {
    hide KeysApart, FewerKeys;
    if Under(kinds, files, c) {
      var name := NextName(kinds, files, c);
      NextIsNext(kinds, enc, files, c);
      var payload := Payload(enc, files, name);
      var before := if files[Temp(name)] == [] then files - {Temp(name)} else files[Temp(name) := []];
      WriterStops(kinds, enc, files, before, c, name, payload);
      StepBackKeys(files, name, []);
      FewerKeysApart(enc, before, files);
      assert files == before[Temp(name) := files[Temp(name)]];
      assert Move(kinds, enc, before, files, c, name, payload);
      ShapeIsReached(kinds, enc, before, c);
      Step(kinds, enc, before, files);
    } else if c < 0 {
      assert forall slot :: slot in files ==> AllowedSlot(kinds, files, c, slot);
      assert files == map[];
      assert Run(kinds, enc, [files]);
    } else {
      var before := Unpublish(kinds, enc, files, c);
      var last := LastName(kinds, files, c);
      ShapeIsReached(kinds, enc, before, if last.Checkpoint? then c - 1 else c);
      Step(kinds, enc, before, files);
    }
  }

  /** What the inventory check, the pair check and the writer of the file under way
      accept together, with `c` the last contiguous checkpoint. */
  ghost predicate Acceptable(kinds: nat, enc: Encoding, files: Tree, c: int) {
    && Classified(kinds, enc, files, c) && PairsValid(enc, files, CompletedKinds(kinds, c)) && KeysApart(enc, files)
    && (0 <= c < kinds && Final(Private(c)) in files ==>
          |files[Final(Private(c))]| == KEY_BYTES && (Final(Registry(c)) in files ==> Bound(enc, files, c)))
    && (c <= kinds ==>
          var name := NextName(kinds, files, c);
          if name.Private? then !PrivateRefused(files, name) else !WriteRefused(files, name, Payload(enc, files, name)))
  }

  /** A temporary that its writer discards, whatever it holds. */
  predicate Torn(enc: Encoding, files: Tree, slot: Slot<Name>)
    requires slot in files
  {
    slot.Temp? && !slot.name.Private? && |files[slot]| < |Payload(enc, files, slot.name)|
  }

  /** The same directory, but for the contents of a torn temporary. */
  predicate SameButTorn(enc: Encoding, files: Tree, reached: Tree) {
    && files.Keys == reached.Keys
    && forall slot | slot in files ::
         files[slot] == reached[slot] || (Torn(enc, files, slot) && Torn(enc, reached, slot))
  }

  function Emptied(enc: Encoding, files: Tree): Tree {
    map slot | slot in files :: if Torn(enc, files, slot) then [] else files[slot]
  }

  lemma SameKeys(enc: Encoding, files: Tree, reached: Tree)
    requires SameButTorn(enc, files, reached)
    ensures FewerKeys(reached, files) && FewerKeys(files, reached)
  {
    hide Payload;
  }

  /** Which inventory it is, and which pairs are bound, depends on the published files. */
  lemma FinalsDecide(kinds: nat, enc: Encoding, from: Tree, to: Tree, c: int)
    requires from.Keys == to.Keys && forall slot | slot in from && slot.Final? :: from[slot] == to[slot]
    ensures Classified(kinds, enc, from, c) ==> Classified(kinds, enc, to, c)
    ensures forall k: nat :: Bound(enc, from, k) <==> Bound(enc, to, k)
  {
    if Classified(kinds, enc, from, c) {
      forall i: nat | i <= c ensures CheckpointWritten(enc, to, i) {
        assert CheckpointWritten(enc, from, i);
      }
      forall slot | slot in to ensures AllowedSlot(kinds, to, c, slot) {
        assert AllowedSlot(kinds, from, c, slot);
      }
    }
  }

  lemma SameDecides(kinds: nat, enc: Encoding, files: Tree, reached: Tree, c: int)
    requires SameButTorn(enc, files, reached)
    ensures Classified(kinds, enc, files, c) <==> Classified(kinds, enc, reached, c)
    ensures forall k: nat :: Bound(enc, files, k) <==> Bound(enc, reached, k)
  {
    hide Classified, Bound, Payload;
    FinalsDecide(kinds, enc, files, reached, c);
    FinalsDecide(kinds, enc, reached, files, c);
  }

  lemma EmptiedIsSame(enc: Encoding, files: Tree)
    ensures SameButTorn(enc, files, Emptied(enc, files))
  {
  }

  lemma OnlyNextIsUnfinished(kinds: nat, enc: Encoding, files: Tree, c: int)
    requires Classified(kinds, enc, files, c)
    ensures -1 <= c <= kinds + 1
    ensures forall slot | slot in files && slot.Temp? :: c <= kinds && slot.name == NextName(kinds, files, c)
  {
    forall slot | slot in files && slot.Temp? ensures c <= kinds && slot.name == NextName(kinds, files, c) {
      assert AllowedSlot(kinds, files, c, slot);
    }
  }

  lemma EmptiedContent(kinds: nat, enc: Encoding, files: Tree, c: int)
    requires Acceptable(kinds, enc, files, c)
    ensures InFlightContent(kinds, enc, Emptied(enc, files), c)
  {
    hide Classified, PairsValid, KeysApart;
    OnlyNextIsUnfinished(kinds, enc, files, c);
    EmptiedIsSame(enc, files);
    SameDecides(kinds, enc, files, Emptied(enc, files), c);
    if 0 <= c < kinds {
      RegistryHasKey(kinds, enc, files, c);
    }
  }

  lemma EmptiedIsInterrupted(kinds: nat, enc: Encoding, files: Tree, c: int)
    requires Acceptable(kinds, enc, files, c)
    ensures Interrupted(kinds, enc, Emptied(enc, files), c)
    ensures KeysApart(enc, Emptied(enc, files)) && SameButTorn(enc, files, Emptied(enc, files))
  {
    hide KeysApart, FewerKeys, Staged, Classified, InFlightContent, Bound, Emptied, SameButTorn;
    var reached := Emptied(enc, files);
    EmptiedContent(kinds, enc, files, c);
    EmptiedIsSame(enc, files);
    SameDecides(kinds, enc, files, reached, c);
    SameKeys(enc, files, reached);
    FewerKeysApart(enc, reached, files);
  }

  /** A directory is accepted at checkpoint `c` exactly when some stopped run leaves it,
      but for what a torn temporary holds. */
  lemma AcceptsExactlyReached(kinds: nat, enc: Encoding, files: Tree, c: int)
    ensures Acceptable(kinds, enc, files, c) <==>
            exists reached :: Reachable(kinds, enc, reached) && Interrupted(kinds, enc, reached, c)
                              && SameButTorn(enc, files, reached)
  {
    if Acceptable(kinds, enc, files, c) {
      EmptiedIsInterrupted(kinds, enc, files, c);
      ShapeIsReached(kinds, enc, Emptied(enc, files), c);
    }
    if reached :| && Reachable(kinds, enc, reached)
                  && Interrupted(kinds, enc, reached, c)
                  && SameButTorn(enc, files, reached) {
      ReachableIsInterrupted(kinds, enc, reached);
      SameIsAcceptable(kinds, enc, files, reached, c);
    }
  }

  lemma SameIsAcceptable(kinds: nat, enc: Encoding, files: Tree, reached: Tree, c: int)
    requires Interrupted(kinds, enc, reached, c) && KeysApart(enc, reached) && SameButTorn(enc, files, reached)
    ensures Acceptable(kinds, enc, files, c)
  {
    hide KeysApart, FewerKeys, PairsValid, Classified;
    SameDecides(kinds, enc, files, reached, c);
    OnlyNextIsUnfinished(kinds, enc, reached, c);
    if c <= kinds {
      NextIsNext(kinds, enc, reached, c);
    }
    SameKeys(enc, files, reached);
    FewerKeysApart(enc, files, reached);
    ApartIsValid(enc, files, CompletedKinds(kinds, c));
  }

  lemma ApartIsValid(enc: Encoding, files: Tree, completed: nat)
    requires KeysApart(enc, files) && forall k: nat | k < completed :: Bound(enc, files, k)
    ensures PairsValid(enc, files, completed)
  {
    forall j: nat, k: nat | j < k < completed && Bound(enc, files, j) && Bound(enc, files, k)
      ensures enc.public(files[Final(Private(j))]) != enc.public(files[Final(Private(k))])
    {
      assert Staged(files, Private(j)).Some? && Staged(files, Private(k)).Some?;
    }
  }

  /** What a stopped run leaves, and nothing else, is the interrupted shape without a
      key staged twice. */
  lemma ReachableIsInterrupted(kinds: nat, enc: Encoding, files: Tree)
    ensures Reachable(kinds, enc, files) <==> KeysApart(enc, files) && exists c :: Interrupted(kinds, enc, files, c)
  {
    if Reachable(kinds, enc, files) {
      var trace :| Run(kinds, enc, trace) && trace[|trace| - 1] == files;
      var c := RunHasShape(kinds, enc, trace);
    }
    if c :| KeysApart(enc, files) && Interrupted(kinds, enc, files, c) {
      ShapeIsReached(kinds, enc, files, c);
    }
  }
}
