/** Replacement of the retention key: a transaction that passes, on purpose,
    through the pair private=new, public=old. */
module KeyRotation {
  import opened Wrappers
  import opened DurableFiles
  import opened PrivateKeys

  datatype Name =
    | InstalledPrivate
    | InstalledRegistry
    | Previous
    | NextPrivate
    | NextRegistry
    | ReplacePrivate
    | ReplaceRegistry
    | Archived(id: Bytes)
    | RotationFolder
    | HistoryFolder
    | StagedHistoryFolder
    | Foreign(text: string)

  type Tree = Files<Name>

  /** A decoded registry. A key id names one public key, so it is that key here. */
  datatype Authority = Authority(public: Bytes, active: bool)

  datatype Codec = Codec(public: Bytes -> Bytes, encode: Authority -> Bytes, decode: Bytes -> Option<Authority>) {
    function Active(private: Bytes): Bytes { encode(Authority(public(private), true)) }

    /** One canonical registry text for one authority, bounded and of one size.
        A registry speaks of public halves of 32 bytes and of nothing else. */
    ghost predicate Canonical() {
      && (forall key | |key| == KEY_BYTES :: |public(key)| == KEY_BYTES)
      && (forall a: Authority | |a.public| == KEY_BYTES :: decode(encode(a)) == Some(a))
      && (forall raw | decode(raw).Some? :: |decode(raw).value.public| == KEY_BYTES && encode(decode(raw).value) == raw)
      && (forall p, q | |p| == |q| == KEY_BYTES ::
            |encode(Authority(p, true))| == |encode(Authority(q, true))| <= MAX_REGISTRY_BYTES)
    }
  }

  const MAX_REGISTRY_BYTES := 4096
  const HISTORY_LIMIT := 1024

  predicate Has(files: Tree, name: Name) { Final(name) in files || Temp(name) in files }

  predicate RotationSlot(slot: Slot<Name>) {
    match slot.name
    case InstalledPrivate => slot.Final?
    case InstalledRegistry => slot.Final?
    case Previous => true
    case NextPrivate => true
    case NextRegistry => true
    case ReplacePrivate => true
    case ReplaceRegistry => true
    case Archived(_) => true
    case _ => false
  }

  predicate InTransaction(name: Name) {
    name in {Previous, NextPrivate, NextRegistry, ReplacePrivate, ReplaceRegistry}
  }

  function ArchivedIds(files: Tree): set<Bytes> {
    set slot | slot in files && slot.Final? && slot.name.Archived? :: slot.name.id
  }

  /** The archive loads: whole entries, each under its own key id, not too many. */
  predicate ArchiveReadable(codec: Codec, files: Tree) {
    && (forall slot | slot in files && slot.name.Archived? ::
          slot.Final? && |files[slot]| <= MAX_REGISTRY_BYTES
          && codec.decode(files[slot]).Some? && codec.decode(files[slot]).value.public == slot.name.id)
    && |ArchivedIds(files)| <= HISTORY_LIMIT
  }

  /** One file of the transaction: nothing, a beginning, or all of its payload. */
  ghost predicate Written(files: Tree, name: Name, payload: Bytes) {
    && (Final(name) in files ==> files[Final(name)] == payload && Temp(name) !in files)
    && (Temp(name) in files ==> files[Temp(name)] <= payload)
  }

  ghost predicate StagedIs(files: Tree, key: Bytes) {
    && (Final(NextPrivate) in files ==> files[Final(NextPrivate)] == key && Temp(NextPrivate) !in files)
    && (Temp(NextPrivate) in files ==>
          |files[Temp(NextPrivate)]| <= KEY_BYTES
          && (|files[Temp(NextPrivate)]| == KEY_BYTES ==> files[Temp(NextPrivate)] == key))
  }

  ghost predicate Contents(codec: Codec, files: Tree, oldKey: Bytes, newKey: Bytes) {
    && Written(files, Previous, codec.Active(oldKey))
    && StagedIs(files, newKey)
    && Written(files, NextRegistry, codec.Active(newKey))
    && Written(files, ReplacePrivate, newKey)
    && Written(files, ReplaceRegistry, codec.Active(newKey))
    && Written(files, Archived(codec.public(oldKey)), codec.Active(oldKey))
    && Written(files, Archived(codec.public(newKey)), codec.Active(newKey))
  }

  /** Entries of earlier rotations, all whole. */
  ghost predicate EarlierHistory(codec: Codec, files: Tree, folders: set<Name>, mine: set<Bytes>) {
    && (forall slot | slot in files && slot.name.Archived? :: HistoryFolder in folders)
    && (forall slot | slot in files && slot.name.Archived? && slot.name.id !in mine ::
          slot.Final? && |files[slot]| <= MAX_REGISTRY_BYTES
          && codec.decode(files[slot]).Some? && codec.decode(files[slot]).value.public == slot.name.id)
  }

  /** The order of the effects, read off which files exist. */
  ghost predicate Ordered(codec: Codec, files: Tree, folders: set<Name>, oldKey: Bytes, newKey: Bytes) {
    var o, n := Archived(codec.public(oldKey)), Archived(codec.public(newKey));
    && Final(InstalledPrivate) in files && Final(InstalledRegistry) in files
    && (if files[Final(InstalledRegistry)] == codec.Active(oldKey) then
          && files[Final(InstalledPrivate)] in {oldKey, newKey}
          && (Has(files, NextPrivate) ==> Final(Previous) in files)
          && (Has(files, NextRegistry) ==> Final(NextPrivate) in files)
          && (StagedHistoryFolder in folders ==> Final(NextRegistry) in files && HistoryFolder !in folders)
          && (Temp(o) in files ==> Final(NextRegistry) in files)
          && (Has(files, n) ==> Final(NextRegistry) in files && Final(o) in files)
          && (Has(files, ReplacePrivate) ==> files[Final(InstalledPrivate)] == oldKey && Final(n) in files)
          && (files[Final(InstalledPrivate)] == newKey ==> Final(n) in files)
          && (Has(files, ReplaceRegistry) ==> files[Final(InstalledPrivate)] == newKey)
        else
          && files[Final(InstalledRegistry)] == codec.Active(newKey)
          && files[Final(InstalledPrivate)] == newKey
          && Final(o) in files && Final(n) in files
          && (forall slot | slot in files :: slot.Final? && slot.name !in {ReplacePrivate, ReplaceRegistry})
          && StagedHistoryFolder !in folders
          && (Final(NextPrivate) in files ==> Final(NextRegistry) in files)
          && (Final(NextRegistry) in files ==> Final(Previous) in files))
  }

  /** Every state a stopped rotation from `oldKey` to `newKey` can leave. */
  ghost predicate Rotating(codec: Codec, forbidden: set<Bytes>, files: Tree, folders: set<Name>,
                           oldKey: Bytes, newKey: Bytes) {
    var o, n := codec.public(oldKey), codec.public(newKey);
    && RotationFolder in folders && folders <= {RotationFolder, HistoryFolder, StagedHistoryFolder}
    && |oldKey| == KEY_BYTES && |newKey| == KEY_BYTES && o != n
    && o !in forbidden && n !in forbidden && ArchivedIds(files) !! forbidden
    && (forall slot | slot in files :: RotationSlot(slot))
    && Contents(codec, files, oldKey, newKey)
    && Ordered(codec, files, folders, oldKey, newKey)
    && EarlierHistory(codec, files, folders, {o, n})
  }

  /** A matching active pair, with its history, and no rotation under way. */
  ghost predicate Idle(codec: Codec, forbidden: set<Bytes>, files: Tree, folders: set<Name>, key: Bytes) {
    && folders <= {HistoryFolder}
    && |key| == KEY_BYTES && codec.public(key) !in forbidden && ArchivedIds(files) !! forbidden
    && (forall slot | slot in files :: slot.Final?
          && (slot.name.InstalledPrivate? || slot.name.InstalledRegistry? || slot.name.Archived?))
    && Final(InstalledPrivate) in files && files[Final(InstalledPrivate)] == key
    && Final(InstalledRegistry) in files && files[Final(InstalledRegistry)] == codec.Active(key)
    && Written(files, Archived(codec.public(key)), codec.Active(key))
    && EarlierHistory(codec, files, folders, {codec.public(key)})
    && |ArchivedIds(files)| <= HISTORY_LIMIT
  }

  /** The archive once it holds both keys of the rotation. */
  function MineAndEarlier(codec: Codec, files: Tree, oldKey: Bytes, newKey: Bytes): set<Bytes> {
    ArchivedIds(files) + {codec.public(oldKey), codec.public(newKey)}
  }

  /** Keys not drawn yet differ from every key on disk. */
  ghost predicate Undrawn(codec: Codec, supply: Supply, drawn: nat, files: Tree, key: Bytes) {
    forall i: nat | drawn <= i < supply.size ::
      codec.public(supply.draw(i)) !in ArchivedIds(files) && codec.public(supply.draw(i)) != codec.public(key)
  }

  /** What a rotation writes under each name. */
  ghost function PayloadOf(codec: Codec, name: Name, oldKey: Bytes, newKey: Bytes): Bytes {
    match name
    case Previous => codec.Active(oldKey)
    case NextPrivate => newKey
    case NextRegistry => codec.Active(newKey)
    case ReplacePrivate => newKey
    case ReplaceRegistry => codec.Active(newKey)
    case Archived(id) => if id == codec.public(oldKey) then codec.Active(oldKey) else codec.Active(newKey)
    case _ => []
  }

  /** The files a rotation may write next, once everything before them is there. */
  ghost predicate MayWrite(codec: Codec, files: Tree, folders: set<Name>, name: Name, oldKey: Bytes, newKey: Bytes)
    requires Final(InstalledPrivate) in files && Final(InstalledRegistry) in files
  {
    var o, n := Archived(codec.public(oldKey)), Archived(codec.public(newKey));
    && Final(name) !in files && files[Final(InstalledRegistry)] == codec.Active(oldKey)
    && match name
       case Previous => true
       case NextPrivate => Final(Previous) in files
       case NextRegistry => Final(NextPrivate) in files
       case Archived(_) => HistoryFolder in folders && Final(NextRegistry) in files
                           && (name == o || (name == n && Final(o) in files))
       case ReplacePrivate => files[Final(InstalledPrivate)] == oldKey && Final(n) in files
       case ReplaceRegistry => files[Final(InstalledPrivate)] == newKey && Final(n) in files
       case _ => false
  }

  lemma WriterStops(codec: Codec, forbidden: set<Bytes>, before: Tree, after: Tree, folders: set<Name>,
                    name: Name, oldKey: Bytes, newKey: Bytes)
    requires Rotating(codec, forbidden, before, folders, oldKey, newKey)
    requires MayWrite(codec, before, folders, name, oldKey, newKey)
    requires CutShort(before, after, name, PayloadOf(codec, name, oldKey, newKey))
    ensures Rotating(codec, forbidden, after, folders, oldKey, newKey)
    ensures ArchivedIds(after) == ArchivedIds(before)
  {
    if name == NextPrivate && Temp(name) in after && |after[Temp(name)]| == KEY_BYTES && after[Temp(name)] <= newKey {
      assert after[Temp(name)] == newKey;
    }
  }

  function Published(before: Tree, name: Name, payload: Bytes): Tree {
    (before - {Temp(name)})[Final(name) := payload]
  }

  lemma PublishedContents(codec: Codec, before: Tree, name: Name, oldKey: Bytes, newKey: Bytes)
    requires Contents(codec, before, oldKey, newKey) && RotationSlot(Temp(name))
    ensures Contents(codec, Published(before, name, PayloadOf(codec, name, oldKey, newKey)), oldKey, newKey)
  {
  }

  lemma PublishedOrdered(codec: Codec, before: Tree, folders: set<Name>, name: Name, payload: Bytes, oldKey: Bytes,
                         newKey: Bytes)
    requires Ordered(codec, before, folders, oldKey, newKey)
    requires MayWrite(codec, before, folders, name, oldKey, newKey)
    ensures Ordered(codec, Published(before, name, payload), folders, oldKey, newKey)
  {
  }

  lemma WriterDone(codec: Codec, forbidden: set<Bytes>, before: Tree, folders: set<Name>,
                   name: Name, oldKey: Bytes, newKey: Bytes)
    requires Rotating(codec, forbidden, before, folders, oldKey, newKey)
    requires MayWrite(codec, before, folders, name, oldKey, newKey)
    ensures
      var after := Published(before, name, PayloadOf(codec, name, oldKey, newKey));
      && Rotating(codec, forbidden, after, folders, oldKey, newKey)
      && ArchivedIds(after) == ArchivedIds(before) + if name.Archived? then {name.id} else {}
  {
    var payload := PayloadOf(codec, name, oldKey, newKey);
    var after := Published(before, name, payload);
    PublishedContents(codec, before, name, oldKey, newKey);
    PublishedOrdered(codec, before, folders, name, payload, oldKey, newKey);
    assert ArchivedIds(after) == ArchivedIds(before) + if name.Archived? then {name.id} else {} by {
      forall id | id in ArchivedIds(before) ensures id in ArchivedIds(after) {
        assert Final(Archived(id)) in after;
      }
      if name.Archived? {
        assert Final(Archived(name.id)) in after;
      }
    }
  }

  lemma WriterNotRefused(codec: Codec, forbidden: set<Bytes>, files: Tree, folders: set<Name>,
                         name: Name, oldKey: Bytes, newKey: Bytes)
    requires Rotating(codec, forbidden, files, folders, oldKey, newKey)
    requires MayWrite(codec, files, folders, name, oldKey, newKey)
    ensures name != NextPrivate ==> !WriteRefused(files, name, PayloadOf(codec, name, oldKey, newKey))
    ensures name == NextPrivate ==> !PrivateRefused(files, name)
  {
    var payload := PayloadOf(codec, name, oldKey, newKey);
    if Temp(name) in files && files[Temp(name)] <= payload && |files[Temp(name)]| >= |payload| {
      assert files[Temp(name)] == payload;
    }
  }

  predicate IdleSlot(slot: Slot<Name>) {
    slot.Final? && (slot.name.InstalledPrivate? || slot.name.InstalledRegistry? || slot.name.Archived?)
  }

  /** The whole-directory check outside a rotation; it cannot repair anything. */
  function VerifyPair(codec: Codec, forbidden: set<Bytes>, files: Tree, folders: set<Name>): Option<Authority> {
    if !(folders <= {HistoryFolder}) || exists slot | slot in files :: !IdleSlot(slot) then None
    else if Final(InstalledPrivate) !in files || |files[Final(InstalledPrivate)]| != KEY_BYTES then None
    else if Final(InstalledRegistry) !in files || |files[Final(InstalledRegistry)]| > MAX_REGISTRY_BYTES then None
    else
      var current := codec.decode(files[Final(InstalledRegistry)]);
      if current.None? || codec.public(files[Final(InstalledPrivate)]) != current.value.public then None
      else if current.value.public in forbidden then None
      else if HistoryFolder in folders && !(ArchiveReadable(codec, files) && ArchivedIds(files) !! forbidden) then None
      else current
  }

  /** The check passes exactly over a whole unforbidden pair whose registry is that of
      its key, with nothing else but a readable history of unforbidden keys. */
  lemma VerifiedExactly(codec: Codec, forbidden: set<Bytes>, files: Tree, folders: set<Name>)
    ensures VerifyPair(codec, forbidden, files, folders).Some? <==>
      && Final(InstalledPrivate) in files && Final(InstalledRegistry) in files
      && |files[Final(InstalledPrivate)]| == KEY_BYTES && |files[Final(InstalledRegistry)]| <= MAX_REGISTRY_BYTES
      && (var public, current := codec.public(files[Final(InstalledPrivate)]),
                                 codec.decode(files[Final(InstalledRegistry)]);
          && current.Some? && current.value.public == public && public !in forbidden)
      && (forall name | name in folders :: name == HistoryFolder)
      && (forall slot | slot in files ::
            slot == Final(InstalledPrivate) || slot == Final(InstalledRegistry)
            || (slot.name.Archived? && slot == Final(Archived(slot.name.id))))
      && (HistoryFolder in folders ==>
            && |ArchivedIds(files)| <= HISTORY_LIMIT
            && forall id | Final(Archived(id)) in files ::
                 && id !in forbidden && |files[Final(Archived(id))]| <= MAX_REGISTRY_BYTES
                 && codec.decode(files[Final(Archived(id))]).Some?
                 && codec.decode(files[Final(Archived(id))]).value.public == id)
  {
    forall id ensures id in ArchivedIds(files) <==> Final(Archived(id)) in files {
      if id in ArchivedIds(files) {
        assert exists slot | slot in files && slot.Final? && slot.name.Archived? :: slot.name.id == id;
      }
      if Final(Archived(id)) in files {
        assert Final(Archived(id)).name.id == id;
      }
    }
  }

  lemma IdleVerifies(codec: Codec, forbidden: set<Bytes>, files: Tree, folders: set<Name>, key: Bytes)
    requires codec.Canonical() && Idle(codec, forbidden, files, folders, key)
    ensures VerifyPair(codec, forbidden, files, folders) == Some(Authority(codec.public(key), true))
  {
  }

  /** Until a successor is staged, no effect of the rotation has happened. */
  lemma Unstaged(codec: Codec, files: Tree, folders: set<Name>, oldKey: Bytes, newKey: Bytes)
    requires Ordered(codec, files, folders, oldKey, newKey) && Contents(codec, files, oldKey, newKey)
    requires files[Final(InstalledRegistry)] == codec.Active(oldKey) && Staged(files, NextPrivate).None?
    ensures !Has(files, NextRegistry) && !Has(files, Archived(codec.public(newKey)))
    ensures !Has(files, ReplacePrivate) && !Has(files, ReplaceRegistry)
    ensures files[Final(InstalledPrivate)] == oldKey
    ensures Temp(Archived(codec.public(oldKey))) !in files && StagedHistoryFolder !in folders
  {
  }

  lemma OneMoreId(ids: set<Bytes>, o: Bytes, n: Bytes)
    requires n !in ids && n != o
    ensures |ids + {o, n}| == |ids + {o}| + 1
  {
    assert ids + {o, n} == ids + {o} + {n};
  }

  /** A key that neither the installed pair nor the history knows. */
  predicate Unlike(codec: Codec, forbidden: set<Bytes>, files: Tree, key: Bytes, other: Bytes) {
    && |key| == KEY_BYTES && codec.public(key) !in forbidden + ArchivedIds(files)
    && codec.public(key) != codec.public(other)
  }

  /** Without a staged successor nothing on disk depends on which key comes next. */
  lemma Rechoose(codec: Codec, forbidden: set<Bytes>, files: Tree, folders: set<Name>, oldKey: Bytes, newKey: Bytes,
                 other: Bytes)
    requires Rotating(codec, forbidden, files, folders, oldKey, newKey)
    requires files[Final(InstalledRegistry)] == codec.Active(oldKey) && Staged(files, NextPrivate).None?
    requires Unlike(codec, forbidden, files, other, oldKey)
    ensures Rotating(codec, forbidden, files, folders, oldKey, other)
    ensures |MineAndEarlier(codec, files, oldKey, other)| == |MineAndEarlier(codec, files, oldKey, newKey)|
  {
    var o, n, m := codec.public(oldKey), codec.public(newKey), codec.public(other);
    Unstaged(codec, files, folders, oldKey, newKey);
    assert Final(Archived(m)) !in files && Temp(Archived(m)) !in files;
    assert Contents(codec, files, oldKey, other);
    assert Ordered(codec, files, folders, oldKey, other);
    assert n !in ArchivedIds(files) by {
      assert Final(Archived(n)) !in files;
    }
    OneMoreId(ArchivedIds(files), o, n);
    OneMoreId(ArchivedIds(files), o, m);
  }

  /** A successor is on disk whole, or already installed: it is the one. */
  ghost predicate Chosen(codec: Codec, files: Tree, oldKey: Bytes) {
    || Staged(files, NextPrivate).Some?
    || (Final(InstalledRegistry) in files && files[Final(InstalledRegistry)] != codec.Active(oldKey))
  }

  lemma IdleBegins(codec: Codec, forbidden: set<Bytes>, files: Tree, folders: set<Name>, oldKey: Bytes, newKey: Bytes)
    requires Idle(codec, forbidden, files, folders, oldKey)
    requires Unlike(codec, forbidden, files, newKey, oldKey)
    ensures Rotating(codec, forbidden, files, folders + {RotationFolder}, oldKey, newKey)
  {
    assert Final(Archived(codec.public(newKey))) !in files;
  }

  /** A rotation under way, with every key still to be drawn unlike its two. */
  ghost predicate UnderWay(codec: Codec, forbidden: set<Bytes>, supply: Supply, drawn: nat,
                           files: Tree, folders: set<Name>, oldKey: Bytes, newKey: Bytes) {
    && Rotating(codec, forbidden, files, folders, oldKey, newKey)
    && Undrawn(codec, supply, drawn, files, oldKey)
    && (Chosen(codec, files, oldKey) ==>
          forall i: nat | drawn <= i < supply.size :: codec.public(supply.draw(i)) != codec.public(newKey))
  }

  lemma WriterKeepsUndrawn(codec: Codec, supply: Supply, drawn: nat, before: Tree, after: Tree,
                           folders: set<Name>, name: Name, oldKey: Bytes, newKey: Bytes)
    requires Undrawn(codec, supply, drawn, before, oldKey)
    requires Chosen(codec, before, oldKey) ==>
               forall i: nat | drawn <= i < supply.size :: codec.public(supply.draw(i)) != codec.public(newKey)
    requires Final(InstalledPrivate) in before && Final(InstalledRegistry) in before
    requires Ordered(codec, before, folders, oldKey, newKey)
    requires MayWrite(codec, before, folders, name, oldKey, newKey) && name != NextPrivate
    requires SameElsewhere(before, after, name)
    requires ArchivedIds(before) <= ArchivedIds(after) <= ArchivedIds(before) + if name.Archived? then {name.id} else {}
    ensures Undrawn(codec, supply, drawn, after, oldKey)
    ensures Chosen(codec, after, oldKey) <==> Chosen(codec, before, oldKey)
    ensures MineAndEarlier(codec, after, oldKey, newKey) == MineAndEarlier(codec, before, oldKey, newKey)
  {
    assert Final(NextPrivate).name != name && Temp(NextPrivate).name != name;
    assert Final(InstalledRegistry).name != name;
    if name.Archived? {
      assert Chosen(codec, before, oldKey);
    }
  }

  /** The writer of any file but the private key, whether it finished or not. */
  lemma WriteKeepsUnderWay(codec: Codec, forbidden: set<Bytes>, supply: Supply, drawn: nat,
                           before: Tree, after: Tree, folders: set<Name>, name: Name, oldKey: Bytes, newKey: Bytes)
    requires UnderWay(codec, forbidden, supply, drawn, before, folders, oldKey, newKey)
    requires MayWrite(codec, before, folders, name, oldKey, newKey) && name != NextPrivate
    requires || CutShort(before, after, name, PayloadOf(codec, name, oldKey, newKey))
             || after == Published(before, name, PayloadOf(codec, name, oldKey, newKey))
    ensures UnderWay(codec, forbidden, supply, drawn, after, folders, oldKey, newKey)
    ensures MineAndEarlier(codec, after, oldKey, newKey) == MineAndEarlier(codec, before, oldKey, newKey)
    ensures Chosen(codec, after, oldKey) <==> Chosen(codec, before, oldKey)
  {
    if after == Published(before, name, PayloadOf(codec, name, oldKey, newKey)) {
      WriterDone(codec, forbidden, before, folders, name, oldKey, newKey);
    } else {
      WriterStops(codec, forbidden, before, after, folders, name, oldKey, newKey);
    }
    WriterKeepsUndrawn(codec, supply, drawn, before, after, folders, name, oldKey, newKey);
  }

  /** The registry of a key is read back, and fits. */
  lemma ActiveReads(codec: Codec, key: Bytes)
    requires codec.Canonical() && |key| == KEY_BYTES
    ensures codec.decode(codec.Active(key)) == Some(Authority(codec.public(key), true))
    ensures |codec.Active(key)| <= MAX_REGISTRY_BYTES
  {
  }

  /** Registries of different keys differ. */
  lemma ActiveApart(codec: Codec, p: Bytes, q: Bytes)
    requires codec.Canonical() && |p| == |q| == KEY_BYTES && codec.public(p) != codec.public(q)
    ensures codec.decode(codec.Active(p)) == Some(Authority(codec.public(p), true))
    ensures codec.decode(codec.Active(q)) == Some(Authority(codec.public(q), true))
    ensures codec.Active(p) != codec.Active(q)
  {
    assert codec.decode(codec.Active(p)) != codec.decode(codec.Active(q));
  }

  /** With nothing left in the transaction but its folder, the new pair is complete. */
  lemma CleanedIsIdle(codec: Codec, forbidden: set<Bytes>, files: Tree, folders: set<Name>, oldKey: Bytes,
                      newKey: Bytes)
    requires codec.Canonical() && Rotating(codec, forbidden, files, folders, oldKey, newKey)
    requires files[Final(InstalledRegistry)] != codec.Active(oldKey) && Final(Previous) !in files
    ensures forall slot | slot in files :: !InTransaction(slot.name)
    ensures StagedHistoryFolder !in folders && HistoryFolder in folders
    ensures |ArchivedIds(files)| <= HISTORY_LIMIT ==>
      Idle(codec, forbidden, files, folders - {RotationFolder}, newKey)
    ensures ArchivedIds(files) == MineAndEarlier(codec, files, oldKey, newKey)
    ensures Final(Archived(codec.public(oldKey))) in files && Final(Archived(codec.public(newKey))) in files
  {
    var o, n := codec.public(oldKey), codec.public(newKey);
    assert Final(Archived(o)) in files && Final(Archived(n)) in files;
    forall slot | slot in files && slot.name.Archived? && slot.name.id !in {n}
      ensures |files[slot]| <= MAX_REGISTRY_BYTES && codec.decode(files[slot]).Some?
              && codec.decode(files[slot]).value.public == slot.name.id
    {
      if slot.name.id == o {
        assert files[slot] == codec.Active(oldKey);
      }
    }
  }

  /** Staging takes the key already on disk, or any key that nothing knows yet. */
  lemma StagingKeepsRotating(codec: Codec, forbidden: set<Bytes>, before: Tree, after: Tree, folders: set<Name>,
                             oldKey: Bytes, newKey: Bytes, key: Bytes)
    requires Rotating(codec, forbidden, before, folders, oldKey, newKey)
    requires before[Final(InstalledRegistry)] == codec.Active(oldKey)
    requires Final(Previous) in before && Final(NextPrivate) !in before
    requires if Staged(before, NextPrivate).Some? then key == Staged(before, NextPrivate).value
             else Unlike(codec, forbidden, before, key, oldKey)
    requires WriteLeft(before, after, NextPrivate, key) || after == Published(before, NextPrivate, key)
    ensures Rotating(codec, forbidden, after, folders, oldKey, key)
    ensures ArchivedIds(after) == ArchivedIds(before)
    ensures |MineAndEarlier(codec, after, oldKey, key)| == |MineAndEarlier(codec, before, oldKey, newKey)|
    ensures Final(InstalledRegistry) in after && after[Final(InstalledRegistry)] == codec.Active(oldKey)
    ensures Staged(before, NextPrivate).Some? ==> key == newKey && Staged(after, NextPrivate).Some?
    ensures Staged(before, NextPrivate).None? && Staged(after, NextPrivate).Some? ==> after != before
  {
    if Staged(before, NextPrivate).None? {
      Rechoose(codec, forbidden, before, folders, oldKey, newKey, key);
    }
    assert Rotating(codec, forbidden, before, folders, oldKey, key);
    if after == Published(before, NextPrivate, key) {
      WriterDone(codec, forbidden, before, folders, NextPrivate, oldKey, key);
    } else {
      WriterStops(codec, forbidden, before, after, folders, NextPrivate, oldKey, key);
    }
    assert Final(InstalledRegistry).name != NextPrivate;
  }

  /** The same for a key drawn from the source, which never gives it again. */
  lemma StagingKeepsUnderWay(codec: Codec, forbidden: set<Bytes>, supply: Supply, drawn: nat, drawn': nat,
                             before: Tree, after: Tree, folders: set<Name>, oldKey: Bytes, newKey: Bytes)
    requires Fresh(supply, codec.public, forbidden)
    requires UnderWay(codec, forbidden, supply, drawn, before, folders, oldKey, newKey)
    requires Final(InstalledRegistry) in before && before[Final(InstalledRegistry)] == codec.Active(oldKey)
    requires Final(Previous) in before && Final(NextPrivate) !in before
    requires Staged(before, NextPrivate).Some? || drawn < supply.size
    requires drawn <= drawn' && (Chosen(codec, after, oldKey) && !Chosen(codec, before, oldKey) ==> drawn < drawn')
    requires var key := KeyFor(before, NextPrivate, supply.draw(drawn));
      WriteLeft(before, after, NextPrivate, key) || after == Published(before, NextPrivate, key)
    ensures var key := KeyFor(before, NextPrivate, supply.draw(drawn));
      && UnderWay(codec, forbidden, supply, drawn', after, folders, oldKey, key)
      && (Chosen(codec, before, oldKey) ==> key == newKey && Chosen(codec, after, oldKey))
      && |MineAndEarlier(codec, after, oldKey, key)| == |MineAndEarlier(codec, before, oldKey, newKey)|
  {
    hide Rotating, MineAndEarlier, ArchivedIds, WriteLeft, Published, Staged;
    var key := KeyFor(before, NextPrivate, supply.draw(drawn));
    StagingKeepsRotating(codec, forbidden, before, after, folders, oldKey, newKey, key);
  }

  /** Both keys of the rotation are in the history, whole. */
  predicate BothArchived(codec: Codec, files: Tree, oldKey: Bytes, newKey: Bytes) {
    Final(Archived(codec.public(oldKey))) in files && Final(Archived(codec.public(newKey))) in files
  }

  lemma ArchivedIsReadable(codec: Codec, forbidden: set<Bytes>, files: Tree, folders: set<Name>, oldKey: Bytes,
                           newKey: Bytes)
    requires codec.Canonical() && Rotating(codec, forbidden, files, folders, oldKey, newKey)
    requires BothArchived(codec, files, oldKey, newKey)
    ensures ArchivedIds(files) == MineAndEarlier(codec, files, oldKey, newKey)
    ensures ArchivedIds(files) * forbidden == {}
    ensures ArchiveReadable(codec, files) <==> |MineAndEarlier(codec, files, oldKey, newKey)| <= HISTORY_LIMIT
  {
    hide Codec.Canonical, Ordered;
    ActiveReads(codec, oldKey);
    ActiveReads(codec, newKey);
    assert Final(Archived(codec.public(oldKey))) in files && Final(Archived(codec.public(newKey))) in files;
    assert ArchivedIds(files) == MineAndEarlier(codec, files, oldKey, newKey);
  }

  /** Moving a staged replacement over the installed file. */
  function Replaced(files: Tree, from: Name, to: Name): Tree
    requires Final(from) in files
  {
    (files - {Final(from)})[Final(to) := files[Final(from)]]
  }

  lemma PrivateReplaced(codec: Codec, forbidden: set<Bytes>, supply: Supply, drawn: nat,
                        files: Tree, folders: set<Name>, oldKey: Bytes, newKey: Bytes)
    requires UnderWay(codec, forbidden, supply, drawn, files, folders, oldKey, newKey)
    requires files[Final(InstalledRegistry)] == codec.Active(oldKey) && Final(ReplacePrivate) in files
    ensures
      var after := Replaced(files, ReplacePrivate, InstalledPrivate);
      && UnderWay(codec, forbidden, supply, drawn, after, folders, oldKey, newKey)
      && after[Final(InstalledPrivate)] == newKey
      && (Chosen(codec, files, oldKey) ==> Chosen(codec, after, oldKey))
      && MineAndEarlier(codec, after, oldKey, newKey) == MineAndEarlier(codec, files, oldKey, newKey)
  {
    var after := Replaced(files, ReplacePrivate, InstalledPrivate);
    assert ArchivedIds(after) == ArchivedIds(files) by {
      assert forall id :: Final(Archived(id)) in after <==> Final(Archived(id)) in files;
    }
    assert Staged(after, NextPrivate) == Staged(files, NextPrivate);
  }

  lemma RegistryReplaced(codec: Codec, forbidden: set<Bytes>, supply: Supply, drawn: nat,
                         files: Tree, folders: set<Name>, oldKey: Bytes, newKey: Bytes)
    requires codec.Canonical()
    requires UnderWay(codec, forbidden, supply, drawn, files, folders, oldKey, newKey)
    requires files[Final(InstalledRegistry)] == codec.Active(oldKey) && Final(ReplaceRegistry) in files
    ensures
      var after := Replaced(files, ReplaceRegistry, InstalledRegistry);
      && UnderWay(codec, forbidden, supply, drawn, after, folders, oldKey, newKey)
      && after[Final(InstalledRegistry)] == codec.Active(newKey)
      && Chosen(codec, after, oldKey)
      && MineAndEarlier(codec, after, oldKey, newKey) == MineAndEarlier(codec, files, oldKey, newKey)
  {
    hide Codec.Canonical;
    var after := Replaced(files, ReplaceRegistry, InstalledRegistry);
    ActiveApart(codec, oldKey, newKey);
    assert ArchivedIds(after) == ArchivedIds(files) by {
      assert forall id :: Final(Archived(id)) in after <==> Final(Archived(id)) in files;
    }
    assert Staged(after, NextPrivate) == Staged(files, NextPrivate);
  }

  /** Both installed files are the same in both directories. */
  predicate SameInstalled(before: Tree, after: Tree) {
    forall slot: Slot<Name> | slot in {Final(InstalledPrivate), Final(InstalledRegistry)} ::
      (slot in before <==> slot in after) && (slot in before && slot in after ==> before[slot] == after[slot])
  }

  lemma StillInstalled(before: Tree, middle: Tree, after: Tree, name: Name)
    requires SameInstalled(before, middle) && SameElsewhere(middle, after, name)
    requires name !in {InstalledPrivate, InstalledRegistry}
    ensures SameInstalled(before, after)
  {
    assert Final(InstalledPrivate).name != name && Final(InstalledRegistry).name != name;
  }

  ghost predicate OldPair(codec: Codec, files: Tree, oldKey: Bytes) {
    && Final(InstalledPrivate) in files && files[Final(InstalledPrivate)] == oldKey
    && Final(InstalledRegistry) in files && files[Final(InstalledRegistry)] == codec.Active(oldKey)
  }

  /** The installed pair a stop may leave, and when: never the old private key
      beside the new public one, nothing replaced before both keys are archived. */
  ghost predicate SafeStop(codec: Codec, files: Tree, oldKey: Bytes, newKey: Bytes) {
    || OldPair(codec, files, oldKey)
    || (&& Final(InstalledPrivate) in files && files[Final(InstalledPrivate)] == newKey
        && Final(InstalledRegistry) in files
        && files[Final(InstalledRegistry)] in {codec.Active(oldKey), codec.Active(newKey)}
        && BothArchived(codec, files, oldKey, newKey))
  }

  lemma OpenDoesNotVerify(codec: Codec, forbidden: set<Bytes>, files: Tree, folders: set<Name>)
    ensures RotationFolder in folders ==> VerifyPair(codec, forbidden, files, folders).None?
  {
  }

  lemma StillOldPair(codec: Codec, before: Tree, after: Tree, oldKey: Bytes)
    requires OldPair(codec, before, oldKey) && SameInstalled(before, after)
    ensures OldPair(codec, after, oldKey)
  {
  }

  /** How many rotations the history still has room for. */
  function RoomFor(ids: set<Bytes>, current: Bytes): nat {
    var held := |ids + {current}|;
    if held < HISTORY_LIMIT then HISTORY_LIMIT - held else 0
  }

  lemma RoomIsBounded(ids: set<Bytes>, current: Bytes)
    ensures RoomFor(ids, current) < HISTORY_LIMIT
    ensures |ids + {current}| < HISTORY_LIMIT ==> RoomFor(ids, current) == HISTORY_LIMIT - |ids + {current}|
    ensures |ids + {current}| >= HISTORY_LIMIT ==> RoomFor(ids, current) == 0
  {
    assert current in ids + {current};
  }

  lemma StopIsSafe(codec: Codec, files: Tree, folders: set<Name>, oldKey: Bytes, newKey: Bytes)
    requires Ordered(codec, files, folders, oldKey, newKey) && Contents(codec, files, oldKey, newKey)
    ensures SafeStop(codec, files, oldKey, newKey)
    ensures !Chosen(codec, files, oldKey) ==> OldPair(codec, files, oldKey)
  {
    if !Chosen(codec, files, oldKey) {
      Unstaged(codec, files, folders, oldKey, newKey);
    }
  }

  lemma SafeWhicheverKey(codec: Codec, files: Tree, oldKey: Bytes, candidate: Bytes, newKey: Bytes)
    requires SafeStop(codec, files, oldKey, candidate)
    requires candidate == newKey || OldPair(codec, files, oldKey)
    ensures SafeStop(codec, files, oldKey, newKey)
  {
  }

  /** The installed files are a pair that a rotation passes through. */
  predicate PassesThrough(codec: Codec, files: Tree, previous: Bytes, private: Bytes) {
    && Final(InstalledPrivate) in files && Final(InstalledRegistry) in files && codec.decode(previous).Some?
    && |files[Final(InstalledPrivate)]| == KEY_BYTES
    && var current, held := files[Final(InstalledRegistry)], codec.public(files[Final(InstalledPrivate)]);
       && current in {previous, codec.Active(private)}
       && held in {codec.decode(previous).value.public, codec.public(private)}
       && (current == codec.Active(private) ==> held == codec.public(private))
  }

  /** Both destination files hold the new pair. */
  predicate NewPair(codec: Codec, files: Tree, private: Bytes) {
    && Final(InstalledPrivate) in files && files[Final(InstalledPrivate)] == private
    && Final(InstalledRegistry) in files && files[Final(InstalledRegistry)] == codec.Active(private)
  }

  lemma NewPairStays(codec: Codec, before: Tree, after: Tree, private: Bytes)
    requires NewPair(codec, before, private) && SameInstalled(before, after)
    ensures NewPair(codec, after, private)
  {
    assert Final(InstalledPrivate) in {Final(InstalledPrivate), Final(InstalledRegistry)};
    assert Final(InstalledRegistry) in {Final(InstalledPrivate), Final(InstalledRegistry)};
  }

  lemma RotationPassesThrough(codec: Codec, forbidden: set<Bytes>, files: Tree, folders: set<Name>,
                              oldKey: Bytes, newKey: Bytes)
    requires codec.Canonical() && Rotating(codec, forbidden, files, folders, oldKey, newKey)
    ensures PassesThrough(codec, files, codec.Active(oldKey), newKey)
    ensures files[Final(InstalledRegistry)] != codec.Active(oldKey) ==> NewPair(codec, files, newKey)
  {
    hide Codec.Canonical, Contents, EarlierHistory;
    ActiveApart(codec, oldKey, newKey);
  }

  lemma SameFiles(files: Tree)
    ensures SameElsewhere(files, files, Previous)
  {
  }

  predicate CleansNext(files: Tree, name: Name) {
    match name
    case NextPrivate => true
    case NextRegistry => Final(NextPrivate) !in files
    case Previous => Final(NextPrivate) !in files && Final(NextRegistry) !in files
    case _ => false
  }

  lemma CleaningKeepsUnderWay(codec: Codec, forbidden: set<Bytes>, supply: Supply, drawn: nat,
                              files: Tree, folders: set<Name>, name: Name, oldKey: Bytes, newKey: Bytes)
    requires UnderWay(codec, forbidden, supply, drawn, files, folders, oldKey, newKey)
    requires files[Final(InstalledRegistry)] != codec.Active(oldKey) && CleansNext(files, name)
    ensures UnderWay(codec, forbidden, supply, drawn, files - {Final(name)}, folders, oldKey, newKey)
    ensures MineAndEarlier(codec, files - {Final(name)}, oldKey, newKey) == MineAndEarlier(codec, files, oldKey, newKey)
  {
    var after := files - {Final(name)};
    assert forall id :: Final(Archived(id)) in after <==> Final(Archived(id)) in files;
    assert forall id :: id in ArchivedIds(files) ==> Final(Archived(id)) in after;
  }

  lemma UndrawnLater(codec: Codec, supply: Supply, drawn: nat, later: nat, files: Tree, key: Bytes)
    requires Undrawn(codec, supply, drawn, files, key) && drawn <= later
    ensures Undrawn(codec, supply, later, files, key)
  {
  }

  predicate Known(codec: Codec, files: Tree, oldKey: Bytes) {
    || Final(NextRegistry) in files
    || (Final(InstalledRegistry) in files && files[Final(InstalledRegistry)] != codec.Active(oldKey))
  }

  /** What the archived pair of keys says about the installed files. */
  lemma ReplaceFacts(codec: Codec, forbidden: set<Bytes>, files: Tree, folders: set<Name>, oldKey: Bytes, newKey: Bytes)
    requires codec.Canonical() && Rotating(codec, forbidden, files, folders, oldKey, newKey)
    requires BothArchived(codec, files, oldKey, newKey)
    ensures Final(InstalledPrivate) in files && files[Final(InstalledPrivate)] in {oldKey, newKey}
    ensures Final(InstalledRegistry) in files
            && files[Final(InstalledRegistry)] in {codec.Active(oldKey), codec.Active(newKey)}
    ensures |oldKey| == |newKey| && |codec.Active(oldKey)| == |codec.Active(newKey)|
    ensures files[Final(InstalledPrivate)] != newKey ==>
      && files[Final(InstalledRegistry)] == codec.Active(oldKey)
      && Written(files, ReplacePrivate, newKey)
      && (Final(ReplacePrivate) !in files ==> MayWrite(codec, files, folders, ReplacePrivate, oldKey, newKey))
    ensures files[Final(InstalledPrivate)] == newKey && files[Final(InstalledRegistry)] != codec.Active(newKey) ==>
      && Written(files, ReplaceRegistry, codec.Active(newKey))
      && (Final(ReplaceRegistry) !in files ==> MayWrite(codec, files, folders, ReplaceRegistry, oldKey, newKey))
    ensures codec.Active(oldKey) != codec.Active(newKey)
  {
    ActiveApart(codec, oldKey, newKey);
  }

  lemma CleanedRests(codec: Codec, forbidden: set<Bytes>, supply: Supply, drawn: nat,
                     files: Tree, folders: set<Name>, oldKey: Bytes, newKey: Bytes)
    requires codec.Canonical() && UnderWay(codec, forbidden, supply, drawn, files, folders, oldKey, newKey)
    requires files[Final(InstalledRegistry)] != codec.Active(oldKey) && Final(Previous) !in files
    requires |MineAndEarlier(codec, files, oldKey, newKey)| <= HISTORY_LIMIT
    ensures Idle(codec, forbidden, files, folders - {RotationFolder}, newKey)
    ensures Undrawn(codec, supply, drawn, files, newKey)
    ensures BothArchived(codec, files, oldKey, newKey) && codec.public(oldKey) != codec.public(newKey)
  {
    CleanedIsIdle(codec, forbidden, files, folders, oldKey, newKey);
  }

  /** Nothing but the folder of the transaction is there. */
  predicate OnlyFolder(files: Tree, folders: set<Name>) {
    StagedHistoryFolder !in folders && forall slot | slot in files :: !InTransaction(slot.name)
  }

  /** The archive names the key, so it was rotated away before. */
  predicate InHistory(codec: Codec, files: Tree, id: Bytes) {
    ArchiveReadable(codec, files) && id in ArchivedIds(files)
  }

  /** The id of the installed registry, if it reads. */
  function InstalledId(codec: Codec, files: Tree): Option<Bytes> {
    if Final(InstalledRegistry) !in files || codec.decode(files[Final(InstalledRegistry)]).None? then None
    else Some(codec.decode(files[Final(InstalledRegistry)]).value.public)
  }

  lemma NewPairHasId(codec: Codec, forbidden: set<Bytes>, files: Tree, folders: set<Name>, private: Bytes)
    requires VerifyPair(codec, forbidden, files, folders).Some? && NewPair(codec, files, private)
    ensures InstalledId(codec, files) == Some(codec.public(private))
  {
  }

  /** What a rotation under way shows before its record is read. */
  lemma RotationReads(codec: Codec, forbidden: set<Bytes>, files: Tree, folders: set<Name>, oldKey: Bytes,
                      newKey: Bytes)
    requires codec.Canonical() && Rotating(codec, forbidden, files, folders, oldKey, newKey)
    ensures RotationFolder in folders && forall slot | slot in files :: RotationSlot(slot)
    ensures Final(InstalledPrivate) in files && Final(InstalledRegistry) in files
    ensures |files[Final(InstalledRegistry)]| <= MAX_REGISTRY_BYTES
    ensures var key := if files[Final(InstalledRegistry)] == codec.Active(oldKey) then oldKey else newKey;
            codec.decode(files[Final(InstalledRegistry)]) == Some(Authority(codec.public(key), true))
    ensures codec.public(oldKey) != codec.public(newKey)
    ensures Final(Previous) in files ==>
      && files[Final(Previous)] == codec.Active(oldKey)
      && codec.decode(files[Final(Previous)]) == Some(Authority(codec.public(oldKey), true))
  {
    hide Codec.Canonical;
    ActiveReads(codec, oldKey);
    ActiveReads(codec, newKey);
  }

  /** Without its folder an empty transaction is a resting pair, the old or the new. */
  lemma EmptiedIsIdle(codec: Codec, forbidden: set<Bytes>, files: Tree, folders: set<Name>, oldKey: Bytes,
                      newKey: Bytes) returns (key: Bytes)
    requires codec.Canonical() && Rotating(codec, forbidden, files, folders, oldKey, newKey)
    requires OnlyFolder(files, folders) && ArchiveReadable(codec, files)
    ensures Idle(codec, forbidden, files, folders - {RotationFolder}, key)
    ensures codec.decode(files[Final(InstalledRegistry)]) == Some(Authority(codec.public(key), true))
  {
    hide Codec.Canonical;
    ActiveReads(codec, oldKey);
    ActiveReads(codec, newKey);
    if files[Final(InstalledRegistry)] == codec.Active(oldKey) {
      key := oldKey;
      assert Final(NextPrivate).name == NextPrivate && Temp(NextPrivate).name == NextPrivate;
      assert Staged(files, NextPrivate).None?;
      Unstaged(codec, files, folders, oldKey, newKey);
    } else {
      key := newKey;
      assert Final(Previous).name == Previous;
      CleanedIsIdle(codec, forbidden, files, folders, oldKey, newKey);
    }
  }

  class Rotator {
    const codec: Codec
    const forbidden: set<Bytes>
    const disk: Disk<Name>
    const source: KeySource

    constructor (codec: Codec, forbidden: set<Bytes>, disk: Disk<Name>, source: KeySource)
      ensures this.codec == codec && this.forbidden == forbidden && this.disk == disk && this.source == source
    {
      this.codec, this.forbidden, this.disk, this.source := codec, forbidden, disk, source;
    }

    ghost predicate Sound()
      reads this
    {
      codec.Canonical() && Fresh(source.supply, codec.public, forbidden)
    }

    /** No rotation: `key` is the installed pair. */
    ghost predicate Resting(key: Bytes)
      reads this, disk`files, disk`folders, source`drawn
    {
      && Idle(codec, forbidden, disk.files, disk.folders, key)
      && Undrawn(codec, source.supply, source.drawn, disk.files, key)
    }

    /** A rotation from `oldKey` to `newKey` is under way. */
    ghost predicate Under(oldKey: Bytes, newKey: Bytes)
      reads this, disk`files, disk`folders, source`drawn
    {
      UnderWay(codec, forbidden, source.supply, source.drawn, disk.files, disk.folders, oldKey, newKey)
    }

    /** The new pair is installed and both public keys are in the history. */
    ghost predicate Rotated(oldKey: Bytes, newKey: Bytes)
      reads this, disk`files, disk`folders, source`drawn
    {
      Resting(newKey) && BothArchived(codec, disk.files, oldKey, newKey) && codec.public(oldKey) != codec.public(newKey)
    }

    ghost function Mine(oldKey: Bytes, newKey: Bytes): set<Bytes>
      reads this, disk`files
    {
      MineAndEarlier(codec, disk.files, oldKey, newKey)
    }

    ghost predicate MayWriteNow(name: Name, oldKey: Bytes, newKey: Bytes)
      reads this, disk`files, disk`folders, source`drawn
    {
      Under(oldKey, newKey) && MayWrite(codec, disk.files, disk.folders, name, oldKey, newKey)
    }

    /** Write one file of the rotation other than the private key. */
    method Write(name: Name, payload: Bytes, ghost oldKey: Bytes, ghost newKey: Bytes) returns (r: Outcome)
      requires Sound() && name != NextPrivate
      modifies disk`files, disk`stop
      ensures old(disk.stop).None? ==> disk.stop.None? && !r.Stopped?
      ensures r.Refused? ==> disk.files == old(disk.files)
      ensures SameElsewhere(old(disk.files), disk.files, name)
      ensures r.Done? ==> disk.files == Published(old(disk.files), name, payload)
      ensures old(MayWriteNow(name, oldKey, newKey)) && payload == PayloadOf(codec, name, oldKey, newKey) ==>
        && !r.Refused? && Under(oldKey, newKey) && Mine(oldKey, newKey) == old(Mine(oldKey, newKey))
        && (old(Chosen(codec, disk.files, oldKey)) ==> Chosen(codec, disk.files, oldKey))
    {
      hide Rotating, Undrawn, Chosen, MayWrite, MineAndEarlier, PayloadOf, Codec.Canonical, Fresh;
      ghost var before := disk.files;
      ghost var ok := MayWriteNow(name, oldKey, newKey) && payload == PayloadOf(codec, name, oldKey, newKey);
      if ok {
        WriterNotRefused(codec, forbidden, before, disk.folders, name, oldKey, newKey);
      }
      r := disk.WriteExclusive(name, payload);
      if ok {
        WriteKeepsUnderWay(codec, forbidden, source.supply, source.drawn, before, disk.files, disk.folders, name,
                           oldKey, newKey);
      }
    }

    /** A successor is chosen, or the source can still give one. */
    ghost predicate Supplied(oldKey: Bytes)
      reads this, disk`files, source`drawn
    {
      Chosen(codec, disk.files, oldKey) || source.Room(1)
    }

    /** Before any effect (`newKey` being the next key drawn) or part of the way. */
    ghost predicate Resumable(oldKey: Bytes, newKey: Bytes)
      reads this, disk`files, disk`folders, source`drawn
    {
      (Resting(oldKey) && newKey == source.supply.draw(source.drawn)) || Under(oldKey, newKey)
    }

    /** The transaction records no previous key, and another key than `expected` is installed. */
    predicate OtherId(expected: Bytes)
      reads this, disk`files
    {
      Final(Previous) !in disk.files && InstalledId(codec, disk.files) != Some(expected)
    }

    /** Nothing is under way but the folder, and the key was rotated away before. */
    predicate RotatedAway(expected: Bytes)
      reads this, disk`files, disk`folders
    {
      OnlyFolder(disk.files, disk.folders) && InHistory(codec, disk.files, expected)
    }

    /** The directory verifies, with another key than the one named. */
    ghost predicate VerifiedOther(id: Bytes)
      reads this, disk`files, disk`folders
    {
      VerifyPair(codec, forbidden, disk.files, disk.folders).Some? && InstalledId(codec, disk.files) != Some(id)
    }

    /** Open the transaction over a verified active pair, unless it is open. */
    method Mark(expected: Bytes, ghost oldKey: Bytes, ghost newKey: Bytes) returns (r: Outcome)
      requires Sound()
      modifies disk`folders, disk`stop
      ensures old(disk.stop).None? ==> disk.stop.None? && !r.Stopped?
      ensures old(Resumable(oldKey, newKey) && Supplied(oldKey)) && expected == codec.public(oldKey) ==>
        !r.Refused? && if r.Done? then Under(oldKey, newKey) else Resumable(oldKey, newKey)
      ensures old(Resting(oldKey)) && expected != codec.public(oldKey) ==>
        r.Refused? && disk.folders == old(disk.folders)
      ensures RotationFolder in old(disk.folders) ==> r.Done? && disk.folders == old(disk.folders)
      ensures RotationFolder !in old(disk.folders) ==>
        && (r.Refused? <==> VerifyPair(codec, forbidden, disk.files, old(disk.folders)) !=
                            Some(Authority(expected, true)))
        && (r.Refused? ==> disk.folders == old(disk.folders))
        && (r.Done? ==> disk.folders == old(disk.folders) + {RotationFolder})
    {
      hide Codec.Canonical, VerifyPair, Contents, Ordered, EarlierHistory;
      if RotationFolder in disk.folders {
        return Done;
      }
      ghost var ok := Resumable(oldKey, newKey) && Supplied(oldKey) && expected == codec.public(oldKey);
      if Resting(oldKey) {
        IdleVerifies(codec, forbidden, disk.files, disk.folders, oldKey);
      }
      var pair := VerifyPair(codec, forbidden, disk.files, disk.folders);
      if pair.None? || pair.value != Authority(expected, true) {
        return Refused;
      }
      if ok {
        IdleBegins(codec, forbidden, disk.files, disk.folders, oldKey, newKey);
      }
      var alive := disk.MakeFolder(RotationFolder);
      return if alive then Done else Stopped;
    }

    /** Only the folder is left of a rotation whose effects are all in place. */
    method FinishCleaned(expected: Bytes, ghost oldKey: Bytes, ghost newKey: Bytes) returns (r: Outcome)
      requires Sound() && Final(InstalledRegistry) in disk.files
      modifies disk`folders, disk`stop
      ensures old(disk.stop).None? ==> disk.stop.None? && !r.Stopped?
      ensures old(Under(oldKey, newKey)) && expected == codec.public(oldKey) && Final(Previous) !in disk.files
              && disk.files[Final(InstalledRegistry)] != codec.Active(oldKey) ==>
        && (r.Refused? ==> |Mine(oldKey, newKey)| > HISTORY_LIMIT)
        && (r.Done? ==> Rotated(oldKey, newKey) && |Mine(oldKey, newKey)| <= HISTORY_LIMIT)
        && (r.Refused? ==> Under(oldKey, newKey))
        && (r.Stopped? ==> Rotated(oldKey, newKey) || Under(oldKey, newKey))
      ensures old(Under(oldKey, newKey)) && OnlyFolder(disk.files, old(disk.folders)) ==>
        && (r.Refused? <==> !InHistory(codec, disk.files, expected))
        && (r.Refused? ==> disk.folders == old(disk.folders))
        && (r.Done? ==> disk.folders == old(disk.folders) - {RotationFolder})
      ensures r.Done? ==> VerifyPair(codec, forbidden, disk.files, disk.folders).Some?
    {
      hide Codec.Canonical, VerifyPair, Rotating, EarlierHistory, Contents, Ordered, ArchiveReadable;
      ghost var ok := Under(oldKey, newKey) && expected == codec.public(oldKey) && Final(Previous) !in disk.files
                      && disk.files[Final(InstalledRegistry)] != codec.Active(oldKey);
      if ok {
        CleanedIsIdle(codec, forbidden, disk.files, disk.folders, oldKey, newKey);
        ArchivedIsReadable(codec, forbidden, disk.files, disk.folders, oldKey, newKey);
      }
      if Under(oldKey, newKey) && OnlyFolder(disk.files, disk.folders) && ArchiveReadable(codec, disk.files) {
        ghost var key := EmptiedIsIdle(codec, forbidden, disk.files, disk.folders, oldKey, newKey);
        IdleVerifies(codec, forbidden, disk.files, disk.folders - {RotationFolder}, key);
      }
      if !ArchiveReadable(codec, disk.files) || expected !in ArchivedIds(disk.files) {
        return Refused;
      }
      var current := codec.decode(disk.files[Final(InstalledRegistry)]);
      if Final(InstalledPrivate) !in disk.files || |disk.files[Final(InstalledPrivate)]| != KEY_BYTES
         || current.None? || codec.public(disk.files[Final(InstalledPrivate)]) != current.value.public {
        return Refused;
      }
      var alive := disk.RemoveFolder(RotationFolder);
      if !alive {
        return Stopped;
      }
      alive := disk.Tick();
      if !alive {
        return Stopped;
      }
      return if VerifyPair(codec, forbidden, disk.files, disk.folders).Some? then Done else Refused;
    }

    /** Read the installed registry and put the previous one on record. */
    method Recognise(expected: Bytes, ghost oldKey: Bytes, ghost newKey: Bytes) returns (r: Outcome, finished: bool)
      requires Sound()
      modifies disk`files, disk`folders, disk`stop
      ensures old(disk.stop).None? ==> disk.stop.None? && !r.Stopped?
      ensures SameElsewhere(old(disk.files), disk.files, Previous)
      ensures r.Done? && !finished ==> Final(Previous) in disk.files
      ensures old(Under(oldKey, newKey)) && expected == codec.public(oldKey) ==>
        && Mine(oldKey, newKey) == old(Mine(oldKey, newKey))
        && (old(Chosen(codec, disk.files, oldKey)) ==> Chosen(codec, disk.files, oldKey))
        && (r.Done? && finished ==> Rotated(oldKey, newKey) && |Mine(oldKey, newKey)| <= HISTORY_LIMIT)
        && (r.Stopped? ==> Rotated(oldKey, newKey) || Under(oldKey, newKey))
        && (r.Refused? || (r.Done? && !finished) ==> Under(oldKey, newKey))
        && (r.Done? && !finished ==> disk.files[Final(Previous)] == codec.Active(oldKey)
                                     && codec.decode(disk.files[Final(Previous)]).Some?)
        && (r.Refused? ==> |Mine(oldKey, newKey)| > HISTORY_LIMIT)
      ensures Final(Previous) in old(disk.files) ==>
        !r.Stopped? && !finished && disk.files == old(disk.files) && disk.folders == old(disk.folders)
      ensures old(Under(oldKey, newKey) && OtherId(expected)) ==>
        && disk.files == old(disk.files) && (r.Refused? <==> !old(RotatedAway(expected)))
        && (r.Refused? ==> disk.folders == old(disk.folders))
        && (r.Done? ==> finished && disk.folders == old(disk.folders) - {RotationFolder})
      ensures r.Done? && finished ==> VerifiedOther(expected)
      ensures (exists slot | slot in old(disk.files) :: !RotationSlot(slot)) ==>
        r.Refused? && disk.files == old(disk.files) && disk.folders == old(disk.folders)
    {
      hide Codec.Canonical, Undrawn, Chosen, MineAndEarlier, Fresh, EarlierHistory, StagedIs, Rotated, ArchivedIds,
        VerifyPair, Rotating, Contents, Ordered, ArchiveReadable;
      ghost var ok := Under(oldKey, newKey) && expected == codec.public(oldKey);
      finished := false;
      if Under(oldKey, newKey) {
        RotationReads(codec, forbidden, disk.files, disk.folders, oldKey, newKey);
      }
      if exists slot | slot in disk.files :: !RotationSlot(slot) {
        return Refused, finished;
      }
      if Final(InstalledRegistry) !in disk.files || |disk.files[Final(InstalledRegistry)]| > MAX_REGISTRY_BYTES {
        return Refused, finished;
      }
      var raw := disk.files[Final(InstalledRegistry)];
      var current := codec.decode(raw);
      if current.None? {
        return Refused, finished;
      }
      if Final(Previous) in disk.files {
        return Done, finished;
      }
      if ok && raw != codec.Active(oldKey) {
        CleanedIsIdle(codec, forbidden, disk.files, disk.folders, oldKey, newKey);
      }
      if OnlyFolder(disk.files, disk.folders) && current.value.public != expected {
        r := FinishCleaned(expected, oldKey, newKey);
        return r, r.Done?;
      }
      if current.value != Authority(expected, true) {
        return Refused, finished;
      }
      r := Write(Previous, raw, oldKey, newKey);
    }

    /** The successor's private key: installed already, staged, or drawn now. */
    method LoadSuccessor(expected: Bytes, ghost oldKey: Bytes, ghost newKey: Bytes)
        returns (r: Outcome, private: Bytes, ghost chosen: Bytes)
      requires Sound() && Final(InstalledRegistry) in disk.files && Final(InstalledPrivate) in disk.files
      requires codec.decode(disk.files[Final(InstalledRegistry)]).Some?
      modifies disk`files, disk`stop, source`drawn
      ensures r.Done? ==> Final(InstalledRegistry) in disk.files && Final(InstalledPrivate) in disk.files
      ensures r.Done? ==> disk.files[Final(InstalledRegistry)] == old(disk.files[Final(InstalledRegistry)])
      ensures SameElsewhere(old(disk.files), disk.files, NextPrivate)
      ensures old(disk.stop).None? ==> disk.stop.None? && !r.Stopped?
      ensures old(source.drawn) <= source.drawn <= old(source.drawn) + 1
      ensures (old(Under(oldKey, newKey) && Supplied(oldKey) && Final(Previous) in disk.files)
               && expected == codec.public(oldKey)) ==>
        && !r.Refused? && Under(oldKey, chosen)
        && (old(Chosen(codec, disk.files, oldKey)) ==> chosen == newKey && Chosen(codec, disk.files, oldKey))
        && |Mine(oldKey, chosen)| == old(|Mine(oldKey, newKey)|)
        && disk.files[Final(InstalledRegistry)] == old(disk.files[Final(InstalledRegistry)])
        && (r.Done? ==> private == chosen && (Final(NextPrivate) in disk.files
                          || disk.files[Final(InstalledRegistry)] != codec.Active(oldKey)))
    {
      hide Codec.Canonical, Undrawn, Apart, MineAndEarlier, EarlierHistory, Written;
      chosen, private := newKey, [];
      ghost var before, drawn := disk.files, source.drawn;
      ghost var ok :=
        Under(oldKey, newKey) && Supplied(oldKey) && Final(Previous) in disk.files && expected == codec.public(oldKey);
      var current := codec.decode(disk.files[Final(InstalledRegistry)]);
      if ok {
        ActiveApart(codec, oldKey, newKey);
      }
      if Final(NextPrivate) !in disk.files && current.value.public != expected {
        private := disk.files[Final(InstalledPrivate)];
        return if |private| == KEY_BYTES then Done else Refused, private, chosen;
      }
      if Final(NextPrivate) !in disk.files && Final(NextRegistry) in disk.files {
        return Refused, private, chosen;
      }
      r, private := LoadOrCreatePrivate(disk, source, NextPrivate);
      if ok && Final(NextPrivate) !in before {
        chosen := KeyFor(before, NextPrivate, source.supply.draw(drawn));
        StagingKeepsUnderWay(codec, forbidden, source.supply, drawn, source.drawn, before, disk.files, disk.folders,
                             oldKey, newKey);
      }
    }

    /** The successor's registry: staged already, staged now, or installed. */
    method StageRegistry(expected: Bytes, private: Bytes, ghost oldKey: Bytes) returns (r: Outcome)
      requires Sound() && Final(InstalledRegistry) in disk.files
      requires codec.decode(disk.files[Final(InstalledRegistry)]).Some?
      modifies disk`files, disk`stop
      ensures old(disk.stop).None? ==> disk.stop.None? && !r.Stopped?
      ensures SameElsewhere(old(disk.files), disk.files, NextRegistry)
      ensures old(Under(oldKey, private)) && expected == codec.public(oldKey)
              && old(Final(NextPrivate) in disk.files
                     || disk.files[Final(InstalledRegistry)] != codec.Active(oldKey)) ==>
        && !r.Refused? && Under(oldKey, private) && Mine(oldKey, private) == old(Mine(oldKey, private))
        && (old(Chosen(codec, disk.files, oldKey)) ==> Chosen(codec, disk.files, oldKey))
        && (r.Done? ==>
            Final(NextRegistry) in disk.files || disk.files[Final(InstalledRegistry)] != codec.Active(oldKey))
      ensures r.Done? ==> codec.public(private) != expected && codec.public(private) !in forbidden
    {
      hide Undrawn, Chosen, MineAndEarlier, Fresh;
      r := Done;
      var raw := codec.Active(private);
      var current := codec.decode(disk.files[Final(InstalledRegistry)]);
      if codec.public(private) == expected || codec.public(private) in forbidden {
        return Refused;
      }
      if Final(NextRegistry) in disk.files {
        r := if disk.files[Final(NextRegistry)] == raw then Done else Refused;
      } else if current.value.public == expected {
        r := Write(NextRegistry, raw, oldKey, private);
      }
    }

    /** Stage the successor's registry beside its key. */
    method StageSuccessor(expected: Bytes, ghost oldKey: Bytes, ghost newKey: Bytes)
        returns (r: Outcome, private: Bytes, ghost chosen: Bytes)
      requires Sound()
      modifies disk`files, disk`stop, source`drawn
      ensures SameInstalled(old(disk.files), disk.files)
      ensures old(disk.stop).None? ==> disk.stop.None? && !r.Stopped?
      ensures r.Done? ==> Final(InstalledRegistry) in disk.files && Final(InstalledPrivate) in disk.files
      ensures old(source.drawn) <= source.drawn <= old(source.drawn) + 1
      ensures (old(Under(oldKey, newKey) && Supplied(oldKey) && Final(Previous) in disk.files)
               && expected == codec.public(oldKey)) ==>
        && !r.Refused? && Under(oldKey, chosen)
        && (old(Chosen(codec, disk.files, oldKey)) ==> chosen == newKey && Chosen(codec, disk.files, oldKey))
        && |Mine(oldKey, chosen)| == old(|Mine(oldKey, newKey)|)
        && (r.Done? ==> private == chosen && (Final(NextRegistry) in disk.files
                          || disk.files[Final(InstalledRegistry)] != codec.Active(oldKey)))
      ensures (Final(Previous) in old(disk.files)
               && codec.decode(old(disk.files)[Final(Previous)]) != Some(Authority(expected, true))) ==>
        r.Refused? && disk.files == old(disk.files) && source.drawn == old(source.drawn)
      ensures r.Done? ==> codec.public(private) != expected && codec.public(private) !in forbidden
    {
      hide Undrawn, Chosen, MineAndEarlier, Fresh;
      chosen, private := newKey, [];
      if Final(Previous) !in disk.files || |disk.files[Final(Previous)]| > MAX_REGISTRY_BYTES
         || Final(InstalledRegistry) !in disk.files || Final(InstalledPrivate) !in disk.files {
        return Refused, private, chosen;
      }
      var previous := codec.decode(disk.files[Final(Previous)]);
      var current := codec.decode(disk.files[Final(InstalledRegistry)]);
      if current.None? || previous != Some(Authority(expected, true)) || expected in forbidden {
        return Refused, private, chosen;
      }
      r, private, chosen := LoadSuccessor(expected, oldKey, newKey);
      StillInstalled(old(disk.files), old(disk.files), disk.files, NextPrivate);
      ghost var loaded := disk.files;
      if !r.Done? {
        return;
      }
      r := StageRegistry(expected, private, oldKey);
      StillInstalled(old(disk.files), loaded, disk.files, NextRegistry);
    }

    /** The history directory, staged and published when there is none. */
    method OpenHistory(ghost oldKey: Bytes, ghost newKey: Bytes) returns (r: Outcome)
      requires Sound()
      modifies disk`folders, disk`stop
      ensures old(disk.stop).None? ==> disk.stop.None? && !r.Stopped?
      ensures r.Done? ==> HistoryFolder in disk.folders
      ensures old(Under(oldKey, newKey) && SuccessorKnown(oldKey)) ==> !r.Refused? && Under(oldKey, newKey)
    {
      var alive;
      if HistoryFolder in disk.folders {
        return if StagedHistoryFolder in disk.folders then Refused else Done;
      }
      if StagedHistoryFolder !in disk.folders {
        alive := disk.MakeFolder(StagedHistoryFolder);
        if !alive {
          return Stopped;
        }
      }
      alive := disk.RenameFolder(StagedHistoryFolder, HistoryFolder);
      return if alive then Done else Stopped;
    }

    /** The successor's registry is staged, or the successor is installed. */
    ghost predicate SuccessorKnown(oldKey: Bytes)
      reads this, disk`files
    {
      Known(codec, disk.files, oldKey)
    }

    /** Save one registry in the history. */
    method ArchivePublic(id: Bytes, raw: Bytes, ghost oldKey: Bytes, ghost newKey: Bytes) returns (r: Outcome)
      requires Sound()
      modifies disk`files, disk`folders, disk`stop
      ensures old(disk.stop).None? ==> disk.stop.None? && !r.Stopped?
      ensures SameElsewhere(old(disk.files), disk.files, Archived(id))
      ensures r.Done? ==> Final(Archived(id)) in disk.files
      ensures old(Under(oldKey, newKey) && SuccessorKnown(oldKey) && Saves(id, raw, oldKey, newKey)) ==>
        && !r.Refused? && Under(oldKey, newKey) && Mine(oldKey, newKey) == old(Mine(oldKey, newKey))
        && (old(Chosen(codec, disk.files, oldKey)) ==> Chosen(codec, disk.files, oldKey))
    {
      hide Undrawn, Chosen, Fresh, Codec.Canonical, ArchiveReadable, RotationSlot;
      ghost var ok := Under(oldKey, newKey) && SuccessorKnown(oldKey) && Saves(id, raw, oldKey, newKey);
      r := OpenHistory(oldKey, newKey);
      if !r.Done? {
        return;
      }
      if Final(Archived(id)) !in disk.files {
        r := Write(Archived(id), raw, oldKey, newKey);
        if !r.Done? {
          return;
        }
      }
      return if disk.files[Final(Archived(id))] == raw then Done else Refused;
    }

    ghost predicate Saves(id: Bytes, raw: Bytes, oldKey: Bytes, newKey: Bytes)
      reads this, disk`files
    {
      || (id == codec.public(oldKey) && raw == codec.Active(oldKey))
      || (id == codec.public(newKey) && raw == codec.Active(newKey)
          && Final(Archived(codec.public(oldKey))) in disk.files)
    }

    /** Both keys in the history, and the history readable and clean. */
    method ArchiveBoth(previous: Bytes, private: Bytes, ghost oldKey: Bytes) returns (r: Outcome)
      requires Sound() && codec.decode(previous).Some?
      modifies disk`files, disk`folders, disk`stop
      ensures SameInstalled(old(disk.files), disk.files)
      ensures old(disk.stop).None? ==> disk.stop.None? && !r.Stopped?
      ensures old(Under(oldKey, private) && SuccessorKnown(oldKey)) && previous == codec.Active(oldKey) ==>
        && Under(oldKey, private) && SuccessorKnown(oldKey)
        && Mine(oldKey, private) == old(Mine(oldKey, private))
        && (r.Refused? ==> |Mine(oldKey, private)| > HISTORY_LIMIT)
        && (old(Chosen(codec, disk.files, oldKey)) ==> Chosen(codec, disk.files, oldKey))
        && (r.Done? ==> BothArchived(codec, disk.files, oldKey, private) && |Mine(oldKey, private)| <= HISTORY_LIMIT)
    {
      ghost var ok := Under(oldKey, private) && SuccessorKnown(oldKey) && previous == codec.Active(oldKey);
      ghost var before := disk.files;
      assert ok ==> Final(InstalledRegistry) in before && Final(InstalledPrivate) in before;
      assert ok ==> codec.decode(previous) == Some(Authority(codec.public(oldKey), true));
      hide Rotating, Undrawn, Chosen, MineAndEarlier, Fresh, Codec.Canonical, Idle;
      r := ArchivePublic(codec.decode(previous).value.public, previous, oldKey, private);
      StillInstalled(before, before, disk.files, Archived(codec.decode(previous).value.public));
      ghost var saved := disk.files;
      if !r.Done? {
        return;
      }
      r := ArchivePublic(codec.public(private), codec.Active(private), oldKey, private);
      StillInstalled(before, saved, disk.files, Archived(codec.public(private)));
      if !r.Done? {
        return;
      }
      if ok {
        ArchivedIsReadable(codec, forbidden, disk.files, disk.folders, oldKey, private);
      }
      if !ArchiveReadable(codec, disk.files) || ArchivedIds(disk.files) * forbidden != {} {
        return Refused;
      }
    }

    /** Both keys are archived and the successor is known: the installed files may change. */
    ghost predicate Replaceable(oldKey: Bytes, newKey: Bytes)
      reads this, disk`files, disk`folders, source`drawn
    {
      Under(oldKey, newKey) && SuccessorKnown(oldKey) && BothArchived(codec, disk.files, oldKey, newKey)
    }

    method ReplacePrivateFile(private: Bytes, ghost oldKey: Bytes) returns (r: Outcome)
      requires Sound()
      modifies disk`files, disk`stop
      ensures old(disk.stop).None? ==> disk.stop.None? && !r.Stopped?
      ensures r.Done? ==> Final(InstalledPrivate) in disk.files && disk.files[Final(InstalledPrivate)] == private
      ensures old(Replaceable(oldKey, private)) ==>
        && !r.Refused? && Replaceable(oldKey, private) && Mine(oldKey, private) == old(Mine(oldKey, private))
        && (old(Chosen(codec, disk.files, oldKey)) ==> Chosen(codec, disk.files, oldKey))
    {
      hide Rotating, Undrawn, Chosen, MineAndEarlier, Fresh, Codec.Canonical, MayWrite;
      ghost var ok := Replaceable(oldKey, private);
      if ok {
        ReplaceFacts(codec, forbidden, disk.files, disk.folders, oldKey, private);
      }
      if Final(InstalledPrivate) !in disk.files || |disk.files[Final(InstalledPrivate)]| > |private| {
        return Refused;
      }
      if disk.files[Final(InstalledPrivate)] == private {
        return Done;
      }
      if Final(ReplacePrivate) !in disk.files {
        r := Write(ReplacePrivate, private, oldKey, private);
        if !r.Done? {
          return;
        }
      }
      if disk.files[Final(ReplacePrivate)] != private {
        return Refused;
      }
      if ok {
        PrivateReplaced(codec, forbidden, source.supply, source.drawn, disk.files, disk.folders, oldKey, private);
      }
      var alive := disk.Rename(Final(ReplacePrivate), Final(InstalledPrivate));
      return if alive then Done else Stopped;
    }

    method ReplaceRegistryFile(private: Bytes, ghost oldKey: Bytes) returns (r: Outcome)
      requires Sound()
      modifies disk`files, disk`stop
      ensures old(disk.stop).None? ==> disk.stop.None? && !r.Stopped?
      ensures r.Done? ==> Final(InstalledRegistry) in disk.files
                          && disk.files[Final(InstalledRegistry)] == codec.Active(private)
      ensures old(Replaceable(oldKey, private)) && Final(InstalledPrivate) in old(disk.files)
              && old(disk.files[Final(InstalledPrivate)]) == private ==>
        && !r.Refused? && Replaceable(oldKey, private) && Mine(oldKey, private) == old(Mine(oldKey, private))
        && (old(Chosen(codec, disk.files, oldKey)) ==> Chosen(codec, disk.files, oldKey))
      ensures old(Replaceable(oldKey, private)) && r.Done? ==> codec.Active(private) != codec.Active(oldKey)
    {
      hide Rotating, Undrawn, Chosen, MineAndEarlier, Fresh, Codec.Canonical, MayWrite;
      ghost var ok := Replaceable(oldKey, private) && Final(InstalledPrivate) in disk.files
                      && disk.files[Final(InstalledPrivate)] == private;
      var payload := codec.Active(private);
      if Replaceable(oldKey, private) {
        ReplaceFacts(codec, forbidden, disk.files, disk.folders, oldKey, private);
      }
      if Final(InstalledRegistry) !in disk.files || |disk.files[Final(InstalledRegistry)]| > |payload| {
        return Refused;
      }
      if disk.files[Final(InstalledRegistry)] == payload {
        return Done;
      }
      if Final(ReplaceRegistry) !in disk.files {
        r := Write(ReplaceRegistry, payload, oldKey, private);
        if !r.Done? {
          return;
        }
      }
      if disk.files[Final(ReplaceRegistry)] != payload {
        return Refused;
      }
      if ok {
        RegistryReplaced(codec, forbidden, source.supply, source.drawn, disk.files, disk.folders, oldKey, private);
      }
      var alive := disk.Rename(Final(ReplaceRegistry), Final(InstalledRegistry));
      return if alive then Done else Stopped;
    }

    /** Remove the staged copies, the private one first, then the transaction. */
    method CleanUp(ghost oldKey: Bytes, ghost newKey: Bytes) returns (r: Outcome)
      requires Sound()
      modifies disk`files, disk`folders, disk`stop
      ensures old(disk.stop).None? ==> disk.stop.None? && !r.Stopped?
      ensures SameInstalled(old(disk.files), disk.files)
      ensures r.Done? ==> VerifyPair(codec, forbidden, disk.files, disk.folders).Some?
      ensures old(Installed(oldKey, newKey)) ==>
        && !r.Refused? && Mine(oldKey, newKey) == old(Mine(oldKey, newKey))
        && (r.Done? ==> Rotated(oldKey, newKey))
        && (r.Stopped? ==> Chosen(codec, disk.files, oldKey) && (Rotated(oldKey, newKey) || Under(oldKey, newKey)))
    {
      hide Rotating, Undrawn, MineAndEarlier, Fresh, Codec.Canonical, Idle;
      ghost var ok := Installed(oldKey, newKey);
      var names := [NextPrivate, NextRegistry, Previous];
      var alive;
      for i := 0 to 3
        invariant old(disk.stop).None? ==> disk.stop.None?
        invariant 0 < i ==> Final(NextPrivate) !in disk.files
        invariant 1 < i ==> Final(NextRegistry) !in disk.files
        invariant 2 < i ==> Final(Previous) !in disk.files
        invariant SameInstalled(old(disk.files), disk.files)
        invariant ok ==> Installed(oldKey, newKey) && Mine(oldKey, newKey) == old(Mine(oldKey, newKey))
      {
        if Final(names[i]) in disk.files {
          if ok {
            CleaningKeepsUnderWay(codec, forbidden, source.supply, source.drawn, disk.files, disk.folders, names[i],
                                  oldKey, newKey);
          }
          alive := disk.Unlink(Final(names[i]));
          if !alive {
            return Stopped;
          }
        }
      }
      if ok {
        CleanedRests(codec, forbidden, source.supply, source.drawn, disk.files, disk.folders, oldKey, newKey);
        IdleVerifies(codec, forbidden, disk.files, disk.folders - {RotationFolder}, newKey);
      }
      alive := disk.RemoveFolder(RotationFolder);
      if !alive {
        return Stopped;
      }
      alive := disk.Tick();
      if !alive {
        return Stopped;
      }
      return if VerifyPair(codec, forbidden, disk.files, disk.folders).Some? then Done else Refused;
    }

    ghost predicate Installed(oldKey: Bytes, newKey: Bytes)
      reads this, disk`files, disk`folders, source`drawn
    {
      && Under(oldKey, newKey) && |Mine(oldKey, newKey)| <= HISTORY_LIMIT
      && Final(InstalledRegistry) in disk.files && disk.files[Final(InstalledRegistry)] != codec.Active(oldKey)
    }

    /** Archive both keys, replace the installed pair and clean up. */
    method InstallSuccessor(previous: Bytes, private: Bytes, ghost oldKey: Bytes) returns (r: Outcome)
      requires Sound() && codec.decode(previous).Some?
      modifies disk`files, disk`folders, disk`stop
      ensures old(disk.stop).None? ==> disk.stop.None? && !r.Stopped?
      ensures old(Under(oldKey, private) && SuccessorKnown(oldKey)) && previous == codec.Active(oldKey) ==>
        && Mine(oldKey, private) == old(Mine(oldKey, private))
        && (old(Chosen(codec, disk.files, oldKey)) ==> r.Done? || Chosen(codec, disk.files, oldKey))
        && (r.Done? ==> Rotated(oldKey, private) && |Mine(oldKey, private)| <= HISTORY_LIMIT)
        && (r.Stopped? ==> Rotated(oldKey, private) || Under(oldKey, private))
        && (r.Refused? ==> Under(oldKey, private) && |Mine(oldKey, private)| > HISTORY_LIMIT)
        && (r.Refused? ==> SameInstalled(old(disk.files), disk.files))
      ensures r.Done? ==> VerifyPair(codec, forbidden, disk.files, disk.folders).Some?
                          && NewPair(codec, disk.files, private)
    {
      hide Rotating, Undrawn, Chosen, MineAndEarlier, Fresh, Codec.Canonical, Idle, BothArchived, PassesThrough,
        NewPair;
      ghost var ok := Under(oldKey, private) && SuccessorKnown(oldKey) && previous == codec.Active(oldKey);
      if ok {
        RotationPassesThrough(codec, forbidden, disk.files, disk.folders, oldKey, private);
      }
      if !PassesThrough(codec, disk.files, previous, private) {
        return Refused;
      }
      r := ArchiveBoth(previous, private, oldKey);
      if !r.Done? {
        return;
      }
      r := ReplacePrivateFile(private, oldKey);
      if !r.Done? {
        return;
      }
      r := ReplaceRegistryFile(private, oldKey);
      if !r.Done? {
        return;
      }
      if ok {
        RotationPassesThrough(codec, forbidden, disk.files, disk.folders, oldKey, private);
      }
      if !NewPair(codec, disk.files, private) {
        return Refused;
      }
      ghost var replaced := disk.files;
      r := CleanUp(oldKey, private);
      NewPairStays(codec, replaced, disk.files, private);
    }

    /** Open the transaction, or find it open, and put the previous registry on record. */
    method Open(expected: Bytes, ghost oldKey: Bytes, ghost newKey: Bytes) returns (r: Outcome, finished: bool)
      requires Sound()
      modifies disk`files, disk`folders, disk`stop
      ensures old(disk.stop).None? ==> disk.stop.None? && !r.Stopped?
      ensures SameElsewhere(old(disk.files), disk.files, Previous)
      ensures r.Done? && !finished ==> Final(Previous) in disk.files
      ensures old(Resumable(oldKey, newKey) && Supplied(oldKey)) && expected == codec.public(oldKey) ==>
        && Mine(oldKey, newKey) == old(Mine(oldKey, newKey))
        && (old(Chosen(codec, disk.files, oldKey)) ==> Chosen(codec, disk.files, oldKey))
        && (r.Done? && finished ==> Rotated(oldKey, newKey) && |Mine(oldKey, newKey)| <= HISTORY_LIMIT)
        && (r.Stopped? ==> Rotated(oldKey, newKey) || Resumable(oldKey, newKey))
        && (r.Refused? || (r.Done? && !finished) ==> Under(oldKey, newKey))
        && (r.Done? && !finished ==> disk.files[Final(Previous)] == codec.Active(oldKey)
                                     && codec.decode(disk.files[Final(Previous)]).Some?)
        && (r.Refused? ==> |Mine(oldKey, newKey)| > HISTORY_LIMIT)
      ensures old(Resting(oldKey)) && expected != codec.public(oldKey) ==>
        r.Refused? && disk.files == old(disk.files) && disk.folders == old(disk.folders)
      ensures old(Under(oldKey, newKey) && Final(Previous) in disk.files) ==>
        && !r.Stopped? && !finished && disk.files == old(disk.files) && disk.folders == old(disk.folders)
        && codec.decode(disk.files[Final(Previous)]) == Some(Authority(codec.public(oldKey), true))
      ensures old(Under(oldKey, newKey) && OtherId(expected)) ==>
        && disk.files == old(disk.files) && (r.Refused? <==> !old(RotatedAway(expected)))
        && (r.Refused? ==> disk.folders == old(disk.folders))
        && (r.Done? ==> finished && disk.folders == old(disk.folders) - {RotationFolder})
      ensures r.Done? && finished ==> VerifiedOther(expected)
      ensures RotationFolder in old(disk.folders) && (exists slot | slot in old(disk.files) :: !RotationSlot(slot)) ==>
        r.Refused? && disk.files == old(disk.files) && disk.folders == old(disk.folders)
    {
      hide Rotating, Undrawn, Chosen, MineAndEarlier, Fresh, Codec.Canonical, Idle, BothArchived, VerifyPair,
        OnlyFolder, InHistory, InstalledId, SameElsewhere;
      SameFiles(disk.files);
      finished := false;
      if Under(oldKey, newKey) {
        RotationReads(codec, forbidden, disk.files, disk.folders, oldKey, newKey);
      }
      r := Mark(expected, oldKey, newKey);
      if r.Done? {
        r, finished := Recognise(expected, oldKey, newKey);
      }
    }

    /** Replace the key named by `expected`, or resume doing so.

        Both public keys are archived before either installed file changes, a
        staged successor is never exchanged, and the rotation completes exactly
        when the history has room for both keys. */
    method Rotate(expected: Bytes, ghost oldKey: Bytes, ghost newKey: Bytes) returns (r: Outcome, ghost chosen: Bytes)
      requires Sound()
      modifies disk`files, disk`folders, disk`stop, source`drawn
      ensures old(disk.stop).None? ==> disk.stop.None? && !r.Stopped?
      ensures old(source.drawn) <= source.drawn <= old(source.drawn) + 1
      ensures old(Resumable(oldKey, newKey) && Supplied(oldKey)) && expected == codec.public(oldKey) ==>
        && (r.Done? ==> Rotated(oldKey, chosen))
        && (r.Stopped? ==> Rotated(oldKey, chosen) || Resumable(oldKey, chosen))
        && (r.Refused? ==> Resumable(oldKey, chosen))
        && (old(Chosen(codec, disk.files, oldKey)) ==>
            chosen == newKey && (r.Done? || Chosen(codec, disk.files, oldKey)))
        && |Mine(oldKey, chosen)| == old(|Mine(oldKey, newKey)|)
        && (r.Done? ==> |Mine(oldKey, chosen)| <= HISTORY_LIMIT)
        && (r.Refused? ==> |Mine(oldKey, chosen)| > HISTORY_LIMIT)
        && (r.Refused? ==> RotationFolder in disk.folders && SameInstalled(old(disk.files), disk.files))
      ensures old(Resting(oldKey)) && expected != codec.public(oldKey) ==>
        r.Refused? && disk.files == old(disk.files) && disk.folders == old(disk.folders)
      ensures old(Under(oldKey, newKey) && Final(Previous) in disk.files) && expected != codec.public(oldKey) ==>
        && r.Refused? && disk.files == old(disk.files) && disk.folders == old(disk.folders)
        && source.drawn == old(source.drawn)
      ensures old(Under(oldKey, newKey) && OtherId(expected)) ==>
        && disk.files == old(disk.files) && (r.Refused? <==> !old(RotatedAway(expected)))
        && (r.Refused? ==> disk.folders == old(disk.folders))
        && (r.Done? ==> disk.folders == old(disk.folders) - {RotationFolder})
      ensures r.Done? ==> VerifiedOther(expected)
      ensures RotationFolder in old(disk.folders) && (exists slot | slot in old(disk.files) :: !RotationSlot(slot)) ==>
        r.Refused? && disk.files == old(disk.files) && disk.folders == old(disk.folders)
    {
      hide Rotating, Undrawn, Chosen, MineAndEarlier, Fresh, Codec.Canonical, Idle, BothArchived, VerifyPair,
        OnlyFolder, InHistory, InstalledId, SameElsewhere;
      chosen := newKey;
      ghost var ok := Resumable(oldKey, newKey) && Supplied(oldKey) && expected == codec.public(oldKey);
      var finished;
      r, finished := Open(expected, oldKey, newKey);
      if ok && (r.Refused? || (r.Done? && !finished)) {
        UnderIsOpen(oldKey, newKey);
      }
      StillInstalled(old(disk.files), old(disk.files), disk.files, Previous);
      if !r.Done? || finished {
        return;
      }
      var previous := disk.files[Final(Previous)];
      var private;
      r, private, chosen := StageSuccessor(expected, oldKey, newKey);
      if !r.Done? {
        return;
      }
      if codec.decode(previous).None? {
        return Refused, chosen;
      }
      r := InstallSuccessor(previous, private, oldKey);
      if r.Done? {
        NewPairHasId(codec, forbidden, disk.files, disk.folders, private);
      }
      if ok && r.Refused? {
        UnderIsOpen(oldKey, chosen);
      }
    }

    /** One run of a rotation that is resting, under way, or complete. */
    method RunAgain(expected: Bytes, ghost oldKey: Bytes, ghost newKey: Bytes) returns (ghost chosen: Bytes)
      requires Sound() && expected == codec.public(oldKey) && source.drawn < source.supply.size
      requires |oldKey| == KEY_BYTES
      requires Rotated(oldKey, newKey) || (Resumable(oldKey, newKey) && |Mine(oldKey, newKey)| <= HISTORY_LIMIT)
      modifies disk`files, disk`folders, disk`stop, source`drawn
      ensures source.drawn <= old(source.drawn) + 1
      ensures Rotated(oldKey, chosen) || (Resumable(oldKey, chosen) && |Mine(oldKey, chosen)| <= HISTORY_LIMIT)
      ensures old(disk.stop).None? || old(Rotated(oldKey, newKey)) ==> Rotated(oldKey, chosen)
      ensures old(Chosen(codec, disk.files, oldKey)) ==> chosen == newKey && Chosen(codec, disk.files, oldKey)
    {
      hide Idle, Rotating, Undrawn, Chosen, MineAndEarlier, BothArchived, Fresh, Codec.Canonical;
      ghost var complete, drawn := Rotated(oldKey, newKey), source.drawn;
      StillSupplied(oldKey);
      ghost var base := if complete then newKey else oldKey;
      var r;
      r, chosen := Rotate(expected, base, newKey);
      if complete {
        chosen := newKey;
        UndrawnLater(codec, source.supply, drawn, source.drawn, disk.files, newKey);
      }
      if Rotated(oldKey, chosen) {
        RotatedIsChosen(oldKey, chosen);
      }
    }

    /** Any number of runs, each dying wherever its own limit says, then one that
        lives. Every stop leaves the old pair, the new private key beside the old
        public one, or the new pair; the last run leaves the new pair and both
        public keys in the history. */
    method RotateAcrossStops(stops: seq<nat>, expected: Bytes, ghost oldKey: Bytes)
        returns (ghost history: seq<Tree>, ghost newKey: Bytes)
      requires Sound() && Resting(oldKey) && expected == codec.public(oldKey)
      requires |ArchivedIds(disk.files) + {expected}| < HISTORY_LIMIT
      requires source.drawn + |stops| < source.supply.size
      modifies disk`files, disk`folders, disk`stop, source`drawn
      ensures Rotated(oldKey, newKey)
      ensures |history| == |stops| && forall i | 0 <= i < |history| :: SafeStop(codec, history[i], oldKey, newKey)
    {
      hide *;
      newKey := source.supply.draw(source.drawn);
      RestingBegins(oldKey);
      history := [];
      for i := 0 to |stops|
        invariant source.drawn <= old(source.drawn) + i
        invariant Rotated(oldKey, newKey) || (Resumable(oldKey, newKey) && |Mine(oldKey, newKey)| <= HISTORY_LIMIT)
        invariant |history| == i && forall j | 0 <= j < |history| :: SafeStop(codec, history[j], oldKey, newKey)
        invariant Chosen(codec, disk.files, oldKey) || forall j | 0 <= j < |history| ::
          OldPair(codec, history[j], oldKey)
      {
        disk.stop := Some(stops[i]);
        ghost var candidate := newKey;
        newKey := RunAgain(expected, oldKey, newKey);
        ghost var earlier := history;
        forall j | 0 <= j < |earlier| ensures SafeStop(codec, earlier[j], oldKey, newKey) {
          SafeWhicheverKey(codec, earlier[j], oldKey, candidate, newKey);
        }
        StoppedIsSafe(oldKey, newKey);
        history := history + [disk.files];
      }
      disk.stop := None;
      ghost var candidate := newKey;
      newKey := RunAgain(expected, oldKey, newKey);
      forall j | 0 <= j < |history| ensures SafeStop(codec, history[j], oldKey, newKey) {
        SafeWhicheverKey(codec, history[j], oldKey, candidate, newKey);
      }
    }

    /** Rotations one after another that nothing interrupts, then `requests` more.

        As many succeed as the history has room for. Every later request is refused:
        the rotation stays open over the pair then installed, which no longer
        verifies, although the pair verified when the rotation was opened. */
    method RotateUntilRefused(first: Bytes, requests: nat) returns (last: Bytes, completed: nat, refused: seq<Outcome>)
      requires Sound() && disk.stop.None? && Resting(first)
      requires source.drawn + HISTORY_LIMIT + requests <= source.supply.size
      modifies disk`files, disk`folders, disk`stop, source`drawn
      ensures completed == RoomFor(old(ArchivedIds(disk.files)), codec.public(first))
      ensures |refused| == requests && forall i | 0 <= i < requests :: refused[i].Refused?
      ensures OldPair(codec, disk.files, last)
      ensures 0 < requests ==>
        RotationFolder in disk.folders && VerifyPair(codec, forbidden, disk.files, disk.folders).None?
    {
      hide *;
      last, completed, refused := first, 0, [];
      ghost var room := RoomFor(ArchivedIds(disk.files), codec.public(last));
      var r;
      ghost var next;
      RoomIsBounded(ArchivedIds(disk.files), codec.public(last));
      while |ArchivedIds(disk.files) + {codec.public(last)}| < HISTORY_LIMIT
        invariant Resting(last) && disk.stop.None?
        invariant completed + RoomFor(ArchivedIds(disk.files), codec.public(last)) == room
        invariant source.drawn <= old(source.drawn) + completed
        decreases HISTORY_LIMIT - |ArchivedIds(disk.files) + {codec.public(last)}|
      {
        RestingBegins(last);
        StillSupplied(last);
        RoomIsBounded(ArchivedIds(disk.files), codec.public(last));
        r, next := Rotate(codec.public(last), last, source.supply.draw(source.drawn));
        RotatedRests(last, next);
        RoomIsBounded(ArchivedIds(disk.files), codec.public(next));
        last, completed := disk.files[Final(InstalledPrivate)], completed + 1;
      }
      RoomIsBounded(ArchivedIds(disk.files), codec.public(last));
      next := source.supply.draw(source.drawn);
      RestingBegins(last);
      RestingPair(last);
      for i := 0 to requests
        invariant Resumable(last, next) && OldPair(codec, disk.files, last) && disk.stop.None?
        invariant |Mine(last, next)| > HISTORY_LIMIT
        invariant source.drawn <= old(source.drawn) + completed + i
        invariant |refused| == i && forall j | 0 <= j < i :: refused[j].Refused?
        invariant 0 < i ==> RotationFolder in disk.folders
      {
        ghost var before := disk.files;
        StillSupplied(last);
        r, next := Rotate(codec.public(last), last, next);
        StillOldPair(codec, before, disk.files, last);
        refused := refused + [r];
      }
      OpenDoesNotVerify(codec, forbidden, disk.files, disk.folders);
    }

    lemma StillSupplied(oldKey: Bytes)
      requires source.drawn < source.supply.size
      ensures Supplied(oldKey)
    {
    }

    lemma RestingBegins(oldKey: Bytes)
      requires Sound() && source.drawn < source.supply.size && Resting(oldKey)
      ensures Resumable(oldKey, source.supply.draw(source.drawn)) && |oldKey| == KEY_BYTES
      ensures |Mine(oldKey, source.supply.draw(source.drawn))| == |ArchivedIds(disk.files) + {codec.public(oldKey)}| + 1
    {
      OneMoreId(ArchivedIds(disk.files), codec.public(oldKey), codec.public(source.supply.draw(source.drawn)));
    }

    lemma RotatedRests(oldKey: Bytes, newKey: Bytes)
      requires Rotated(oldKey, newKey)
      ensures Resting(newKey) && ArchivedIds(disk.files) + {codec.public(newKey)} == Mine(oldKey, newKey)
      ensures Final(InstalledPrivate) in disk.files && disk.files[Final(InstalledPrivate)] == newKey
    {
      assert Final(Archived(codec.public(oldKey))) in disk.files;
    }

    /** A complete rotation whose folder is still there is also one just opened: asked for
        under the id that is now installed, it is a rotation from the new key. */
    lemma CleanedBeginsAgain(oldKey: Bytes, newKey: Bytes)
      requires Sound() && Under(oldKey, newKey) && Final(Previous) !in disk.files
      requires |Mine(oldKey, newKey)| <= HISTORY_LIMIT && source.drawn < source.supply.size
      requires disk.files[Final(InstalledRegistry)] != codec.Active(oldKey)
      ensures Under(newKey, source.supply.draw(source.drawn))
    {
      hide Codec.Canonical, Rotating, EarlierHistory;
      var next := source.supply.draw(source.drawn);
      CleanedIsIdle(codec, forbidden, disk.files, disk.folders, oldKey, newKey);
      UnderIsOpen(oldKey, newKey);
      assert disk.folders == disk.folders - {RotationFolder} + {RotationFolder};
      IdleBegins(codec, forbidden, disk.files, disk.folders - {RotationFolder}, newKey, next);
      assert codec.public(newKey) in ArchivedIds(disk.files);
      assert Final(NextPrivate) !in disk.files && Temp(NextPrivate) !in disk.files by {
        assert Final(NextPrivate).name == NextPrivate && Temp(NextPrivate).name == NextPrivate;
      }
    }

    lemma UnderIsOpen(oldKey: Bytes, newKey: Bytes)
      requires Under(oldKey, newKey)
      ensures RotationFolder in disk.folders
    {
    }

    lemma RestingPair(oldKey: Bytes)
      requires Resting(oldKey)
      ensures OldPair(codec, disk.files, oldKey)
    {
    }

    lemma RotatedIsChosen(oldKey: Bytes, newKey: Bytes)
      requires Sound() && Rotated(oldKey, newKey) && |oldKey| == KEY_BYTES
      ensures Chosen(codec, disk.files, oldKey)
    {
      ActiveApart(codec, oldKey, newKey);
    }

    lemma StoppedIsSafe(oldKey: Bytes, newKey: Bytes)
      requires Sound() && (Rotated(oldKey, newKey) || Resumable(oldKey, newKey)) && |oldKey| == KEY_BYTES
      ensures SafeStop(codec, disk.files, oldKey, newKey)
      ensures !Chosen(codec, disk.files, oldKey) ==> OldPair(codec, disk.files, oldKey)
    {
      if Rotated(oldKey, newKey) {
        RotatedIsChosen(oldKey, newKey);
      } else if Under(oldKey, newKey) {
        StopIsSafe(codec, disk.files, disk.folders, oldKey, newKey);
      }
    }
  }
}
