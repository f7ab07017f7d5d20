/** Creating the first retention key pair, restartably, ready for rotations. */
module RetentionProvisioning {
  import opened Wrappers
  import opened DurableFiles
  import opened PrivateKeys
  import opened KeyRotation

  /** Which of the directory's two names is taken. */
  datatype Place = Nowhere | AsPending | AsFinal | AsBoth

  /** A file of an unfinished pair. */
  predicate PairSlot(slot: Slot<Name>) {
    slot.name in {InstalledPrivate, InstalledRegistry}
  }

  /** What the inventory check refuses before anything is written. */
  predicate InventoryRefused(files: Tree) {
    || (exists slot | slot in files :: !PairSlot(slot))
    || (Final(InstalledPrivate) in files && Temp(InstalledPrivate) in files)
    || (Final(InstalledRegistry) in files && Temp(InstalledRegistry) in files)
    || (Has(files, InstalledRegistry) && Final(InstalledPrivate) !in files)
  }

  /** The registry file names the public half of the key. */
  predicate Binds(codec: Codec, text: Bytes, key: Bytes) {
    |text| <= MAX_REGISTRY_BYTES && codec.decode(text).Some? && codec.decode(text).value.public == codec.public(key)
  }

  /** The pending directories that a run can carry to the end. */
  predicate Completable(codec: Codec, forbidden: set<Bytes>, files: Tree) {
    && !InventoryRefused(files) && !PrivateRefused(files, InstalledPrivate)
    && (Staged(files, InstalledPrivate).Some? ==> codec.public(Staged(files, InstalledPrivate).value) !in forbidden)
    && (Final(InstalledPrivate) in files ==>
          var key := files[Final(InstalledPrivate)];
          if Final(InstalledRegistry) in files then Binds(codec, files[Final(InstalledRegistry)], key)
          else !WriteRefused(files, InstalledRegistry, codec.Active(key)))
  }

  /** A registry that a run wrote is the canonical active one. */
  predicate RegistryIsActive(codec: Codec, files: Tree) {
    Final(InstalledPrivate) in files && Final(InstalledRegistry) in files ==>
      files[Final(InstalledRegistry)] == codec.Active(files[Final(InstalledPrivate)])
  }

  /** Both files and nothing else. */
  ghost predicate Pair(codec: Codec, files: Tree, key: Bytes) {
    files == map[Final(InstalledPrivate) := key, Final(InstalledRegistry) := codec.Active(key)]
  }

  /** A provisioned pair is one that a rotation can start from. */
  lemma PairIsIdle(codec: Codec, forbidden: set<Bytes>, files: Tree, key: Bytes)
    requires codec.Canonical() && Pair(codec, files, key) && |key| == KEY_BYTES && codec.public(key) !in forbidden
    ensures Idle(codec, forbidden, files, {}, key)
  {
    assert ArchivedIds(files) == {};
  }

  /** The private key is staged: one more file, or the same files. */
  lemma PrivateIsThere(codec: Codec, forbidden: set<Bytes>, before: Tree, after: Tree, key: Bytes)
    requires Completable(codec, forbidden, before) && |key| == KEY_BYTES && codec.public(key) !in forbidden
    requires Staged(before, InstalledPrivate).Some? ==> key == Staged(before, InstalledPrivate).value
    requires after == if Final(InstalledPrivate) in before then before
                      else (before - {Temp(InstalledPrivate)})[Final(InstalledPrivate) := key]
    ensures Completable(codec, forbidden, after) && Final(InstalledPrivate) in after
    ensures after[Final(InstalledPrivate)] == key
    ensures RegistryIsActive(codec, before) ==> RegistryIsActive(codec, after)
  {
  }

  /** A death while the private key is being staged. */
  lemma PrivateLeft(codec: Codec, forbidden: set<Bytes>, before: Tree, after: Tree, key: Bytes)
    requires Completable(codec, forbidden, before) && |key| == KEY_BYTES && codec.public(key) !in forbidden
    requires Staged(before, InstalledPrivate).Some? ==> after == before
    requires WriteLeft(before, after, InstalledPrivate, key)
    ensures Completable(codec, forbidden, after) && (RegistryIsActive(codec, before) ==> RegistryIsActive(codec, after))
    ensures Staged(after, InstalledPrivate).Some? && Staged(before, InstalledPrivate).None? ==>
      Staged(after, InstalledPrivate).value == key
  {
    if after != before && Temp(InstalledPrivate) in after && |after[Temp(InstalledPrivate)]| == KEY_BYTES {
      assert after[Temp(InstalledPrivate)] == key;
    }
  }

  /** A death while the registry is being written. */
  lemma RegistryLeft(codec: Codec, forbidden: set<Bytes>, before: Tree, after: Tree, key: Bytes)
    requires Completable(codec, forbidden, before) && Final(InstalledPrivate) in before
    requires before[Final(InstalledPrivate)] == key
    requires Final(InstalledRegistry) !in before && WriteLeft(before, after, InstalledRegistry, codec.Active(key))
    ensures Completable(codec, forbidden, after) && RegistryIsActive(codec, after)
  {
    if Temp(InstalledRegistry) in after && |after[Temp(InstalledRegistry)]| >= |codec.Active(key)| {
      assert after[Temp(InstalledRegistry)] == codec.Active(key);
    }
  }

  lemma EmptyIsCompletable(codec: Codec, forbidden: set<Bytes>)
    ensures Completable(codec, forbidden, map[]) && RegistryIsActive(codec, map[])
    ensures Staged<Name>(map[], InstalledPrivate).None?
  {
  }

  lemma FinishedPair(codec: Codec, forbidden: set<Bytes>, files: Tree)
    requires codec.Canonical() && files.Keys == {Final(InstalledPrivate), Final(InstalledRegistry)}
    requires |files[Final(InstalledPrivate)]| == KEY_BYTES && codec.public(files[Final(InstalledPrivate)]) !in forbidden
    ensures RegistryIsActive(codec, files) ==> Idle(codec, forbidden, files, {}, files[Final(InstalledPrivate)])
  {
    if RegistryIsActive(codec, files) {
      assert Pair(codec, files, files[Final(InstalledPrivate)]);
      PairIsIdle(codec, forbidden, files, files[Final(InstalledPrivate)]);
    }
  }

  /** The whole-directory check of two files is the check that they fit. */
  lemma PairVerifies(codec: Codec, forbidden: set<Bytes>, files: Tree)
    requires files.Keys == {Final(InstalledPrivate), Final(InstalledRegistry)}
    requires |files[Final(InstalledPrivate)]| == KEY_BYTES && codec.public(files[Final(InstalledPrivate)]) !in forbidden
    ensures VerifyPair(codec, forbidden, files, {}).Some?
       <==> Binds(codec, files[Final(InstalledRegistry)], files[Final(InstalledPrivate)])
  {
  }

  class Installer {
    const codec: Codec
    const forbidden: set<Bytes>
    const disk: Disk<Name>
    const source: KeySource
    var place: Place

    constructor (codec: Codec, forbidden: set<Bytes>, disk: Disk<Name>, source: KeySource, place: Place)
      ensures this.codec == codec && this.forbidden == forbidden && this.disk == disk
      ensures this.source == source && this.place == place
    {
      this.codec, this.forbidden, this.disk, this.source, this.place := codec, forbidden, disk, source, place;
    }

    ghost predicate Sound()
      reads this
    {
      codec.Canonical() && Fresh(source.supply, codec.public, forbidden)
    }

    /** A directory that a run can finish: none yet, or a completable pending one. */
    ghost predicate Startable()
      reads this, disk`files, disk`folders
    {
      && disk.folders == {}
      && ((place.Nowhere? && disk.files == map[]) || (place.AsPending? && Completable(codec, forbidden, disk.files)))
    }

    /** A key is staged, or the source can still give one. */
    ghost predicate Supplied()
      reads this, disk`files, source`drawn
    {
      Staged(disk.files, InstalledPrivate).Some? || source.Room(1)
    }

    /** The published pair, as a rotation wants to find it. */
    ghost predicate Installed()
      reads this, disk`files, disk`folders
    {
      && Final(InstalledPrivate) in disk.files
      && Idle(codec, forbidden, disk.files, disk.folders, disk.files[Final(InstalledPrivate)])
    }

    /** The pending directory: its key, its registry, and the check of both. */
    method CompletePending() returns (r: Outcome)
      requires Sound()
      modifies disk`files, disk`stop, source`drawn
      ensures old(disk.stop).None? ==> disk.stop.None? && !r.Stopped?
      ensures r.Done? ==> VerifyPair(codec, forbidden, disk.files, disk.folders).Some?
      ensures r.Done? ==> disk.folders == {} && Completable(codec, forbidden, old(disk.files))
      ensures old(source.drawn) <= source.drawn <= old(source.drawn) + 1
      ensures r.Refused? ==> disk.folders != {} || !Completable(codec, forbidden, old(disk.files)) || !old(Supplied())
      ensures disk.folders == {} && Completable(codec, forbidden, old(disk.files)) && old(Supplied()) ==>
        && Completable(codec, forbidden, disk.files)
        && (old(Staged(disk.files, InstalledPrivate)).Some? ==>
              Staged(disk.files, InstalledPrivate) == old(Staged(disk.files, InstalledPrivate)))
        && (old(RegistryIsActive(codec, disk.files)) ==> RegistryIsActive(codec, disk.files))
      ensures r.Done? ==> Final(InstalledPrivate) in disk.files && Final(InstalledRegistry) in disk.files
                          && disk.files.Keys == {Final(InstalledPrivate), Final(InstalledRegistry)}
                          && |disk.files[Final(InstalledPrivate)]| == KEY_BYTES
                          && codec.public(disk.files[Final(InstalledPrivate)]) !in forbidden
    {
      hide Codec.Canonical, Apart, VerifyPair;
      if disk.folders != {} || InventoryRefused(disk.files) {
        return Refused;
      }
      ghost var before, drawn := disk.files, source.drawn;
      ghost var good := Completable(codec, forbidden, before) && Supplied();
      var private;
      r, private := LoadOrCreatePrivate(disk, source, InstalledPrivate);
      ghost var key := KeyFor(before, InstalledPrivate, source.supply.draw(drawn));
      if good && r.Stopped? {
        PrivateLeft(codec, forbidden, before, disk.files, key);
      }
      if !r.Done? {
        return;
      }
      if codec.public(private) in forbidden {
        return Refused;
      }
      if good {
        PrivateIsThere(codec, forbidden, before, disk.files, private);
        ActiveReads(codec, private);
      }
      if Final(InstalledRegistry) !in disk.files {
        ghost var staged := disk.files;
        r := disk.WriteExclusive(InstalledRegistry, codec.Active(private));
        if good && r.Stopped? {
          RegistryLeft(codec, forbidden, staged, disk.files, private);
        }
        if !r.Done? {
          return;
        }
      }
      if disk.files.Keys == {Final(InstalledPrivate), Final(InstalledRegistry)} {
        PairVerifies(codec, forbidden, disk.files);
      }
      return if VerifyPair(codec, forbidden, disk.files, disk.folders).Some? then Done else Refused;
    }

    /** Stage the pair, verify it, and publish the directory by one rename.

        A pending directory is carried to the end exactly when it is completable,
        and a death leaves one that is. A key staged whole is the key for good. */
    method Provision() returns (r: Outcome)
      requires Sound()
      modifies this`place, disk`files, disk`stop, source`drawn
      ensures old(disk.stop).None? ==> disk.stop.None? && !r.Stopped?
      ensures old(place).AsBoth? ==> r.Refused?
      ensures old(place).AsFinal? ==> place == old(place) && disk.files == old(disk.files)
                                      && (r.Done? <==> VerifyPair(codec, forbidden, disk.files, disk.folders).Some?)
      ensures old(source.drawn) <= source.drawn <= old(source.drawn) + 1
      ensures old(place).AsPending? && r.Done? ==> old(Startable())
      ensures old(Startable() && Supplied()) ==> !r.Refused?
      ensures old(Startable() && Supplied()) && r.Stopped? ==>
        Startable() || (place.AsFinal? && VerifyPair(codec, forbidden, disk.files, disk.folders).Some?)
      ensures old(Startable() && Supplied()) && r.Done? ==>
        place.AsFinal? && VerifyPair(codec, forbidden, disk.files, disk.folders).Some?
      ensures old(Startable() && Supplied()) && old(Staged(disk.files, InstalledPrivate)).Some? ==>
        Staged(disk.files, InstalledPrivate) == old(Staged(disk.files, InstalledPrivate))
      ensures old(Startable() && Supplied()) && old(RegistryIsActive(codec, disk.files)) ==>
        && RegistryIsActive(codec, disk.files)
        && (place.AsFinal? ==> Installed())
    {
      hide Codec.Canonical, Fresh, Idle, VerifyPair, RegistryIsActive, Staged;
      if place.AsFinal? || place.AsBoth? {
        return if place.AsBoth? || VerifyPair(codec, forbidden, disk.files, disk.folders).None? then Refused else Done;
      }
      EmptyIsCompletable(codec, forbidden);
      var alive;
      if place.Nowhere? {
        alive := disk.Tick();
        if !alive {
          return Stopped;
        }
        place := AsPending;
      }
      r := CompletePending();
      if !r.Done? {
        return;
      }
      FinishedPair(codec, forbidden, disk.files);
      alive := disk.Tick();
      if !alive {
        return Stopped;
      }
      place := AsFinal;
      alive := disk.Tick();
      return if alive then Done else Stopped;
    }

    /** From nothing, through any number of deaths, to a pair that can be rotated. The
        key that was first whole on disk is the key of the pair. */
    method ProvisionAcrossStops(stops: seq<nat>) returns (r: Outcome, ghost keys: seq<Option<Bytes>>)
      requires Sound() && place.Nowhere? && disk.folders == {} && disk.files == map[]
      requires source.drawn + |stops| < source.supply.size
      modifies this`place, disk`files, disk`stop, source`drawn
      ensures r.Done? && place.AsFinal? && Installed()
      ensures |keys| == |stops|
      ensures forall i | 0 <= i < |keys| && keys[i].Some? :: keys[i] == Some(disk.files[Final(InstalledPrivate)])
    {
      hide Codec.Canonical, Fresh, Idle, VerifyPair, RegistryIsActive, Completable;
      EmptyIsCompletable(codec, forbidden);
      keys := [];
      for i := 0 to |stops|
        invariant (Startable() && RegistryIsActive(codec, disk.files)) || (place.AsFinal? && Installed())
        invariant |keys| == i && source.drawn <= old(source.drawn) + i
        invariant forall k | 0 <= k < i && keys[k].Some? :: keys[k] == Staged(disk.files, InstalledPrivate)
      {
        disk.stop := Some(stops[i]);
        if place.AsFinal? {
          InstalledVerifies();
        }
        r := Provision();
        keys := keys + [Staged(disk.files, InstalledPrivate)];
      }
      disk.stop := None;
      if place.AsFinal? {
        InstalledVerifies();
      }
      r := Provision();
    }

    lemma InstalledVerifies()
      requires Sound() && Installed()
      ensures VerifyPair(codec, forbidden, disk.files, disk.folders).Some?
    {
      IdleVerifies(codec, forbidden, disk.files, disk.folders, disk.files[Final(InstalledPrivate)]);
    }
  }
}
