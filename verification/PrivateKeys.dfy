/** Private keys: drawn once, staged once, never drawn again. */
module PrivateKeys {
  import opened Wrappers
  import opened DurableFiles

  const KEY_BYTES := 32

  /** What the random source gives, one key after another. Only the first `size`
      keys are promised to differ: there are finitely many keys of 32 bytes. */
  datatype Supply = Supply(draw: nat -> Bytes, size: nat)

  class KeySource {
    const supply: Supply
    var drawn: nat

    constructor (supply: Supply)
      ensures this.supply == supply && drawn == 0
    {
      this.supply, drawn := supply, 0;
    }

    method Generate() returns (private: Bytes)
      modifies this`drawn
      ensures private == supply.draw(old(drawn)) && drawn == old(drawn) + 1
    {
      private := supply.draw(drawn);
      drawn := drawn + 1;
    }

    /** At least `n` more keys that differ from each other and from those before. */
    predicate Room(n: nat)
      reads this`drawn
    {
      drawn + n <= supply.size
    }
  }

  /** Public halves identify their private halves, and none is forbidden. */
  ghost predicate Fresh(supply: Supply, public: Bytes -> Bytes, forbidden: set<Bytes>) {
    && (forall i: nat :: |supply.draw(i)| == KEY_BYTES)
    && (forall i: nat | i < supply.size :: public(supply.draw(i)) !in forbidden)
    && Apart(supply, public)
  }

  ghost predicate Apart(supply: Supply, public: Bytes -> Bytes) {
    forall i: nat, j: nat | i < j < supply.size :: public(supply.draw(i)) != public(supply.draw(j))
  }

  /** The key a file holds once all its bytes are on disk, under either name. */
  function Staged<N(==)>(files: Files<N>, name: N): Option<Bytes> {
    if Final(name) in files then Some(files[Final(name)])
    else if Temp(name) in files && |files[Temp(name)]| == KEY_BYTES then Some(files[Temp(name)])
    else None
  }

  /** The key a call works with: the staged one, or else the next one drawn. */
  function KeyFor<N(==)>(files: Files<N>, name: N, next: Bytes): Bytes {
    if Staged(files, name).Some? then Staged(files, name).value else next
  }

  predicate PrivateRefused<N(==)>(files: Files<N>, name: N) {
    if Final(name) in files then |files[Final(name)]| != KEY_BYTES
    else Temp(name) in files && |files[Temp(name)]| > KEY_BYTES
  }

  /** A staged key is taken as it is; only without one is a key drawn. */
  method LoadOrCreatePrivate<N(==,!new)>(disk: Disk<N>, source: KeySource, name: N)
      returns (r: Outcome, private: Bytes)
    requires forall i: nat :: |source.supply.draw(i)| == KEY_BYTES
    modifies disk`stop, disk`files, source`drawn
    ensures old(disk.stop).None? ==> disk.stop.None? && !r.Stopped?
    ensures r.Refused? <==> PrivateRefused(old(disk.files), name)
    ensures r.Refused? ==> disk.files == old(disk.files)
    ensures Staged(old(disk.files), name).Some? || r.Refused? ==> source.drawn == old(source.drawn)
    ensures old(source.drawn) <= source.drawn <= old(source.drawn) + 1
    ensures r.Done? ==> private == KeyFor(old(disk.files), name, source.supply.draw(old(source.drawn)))
    ensures r.Done? && Staged(old(disk.files), name).None? ==> source.drawn == old(source.drawn) + 1
    ensures r.Done? ==>
      disk.files == if Final(name) in old(disk.files) then old(disk.files)
                    else (old(disk.files) - {Temp(name)})[Final(name) := private]
    ensures r.Stopped? ==>
      WriteLeft(old(disk.files), disk.files, name,
                KeyFor(old(disk.files), name, source.supply.draw(old(source.drawn))))
    ensures r.Stopped? && source.drawn == old(source.drawn) ==>
      disk.files == old(disk.files) || Temp(name) !in disk.files
    ensures r.Stopped? && Staged(old(disk.files), name).Some? ==> disk.files == old(disk.files)
  {
    private := [];
    if Final(name) in disk.files {
      private := disk.files[Final(name)];
      return if |private| == KEY_BYTES then Done else Refused, private;
    }
    var recovered := false;
    if Temp(name) in disk.files {
      if |disk.files[Temp(name)]| > KEY_BYTES {
        return Refused, private;
      }
      if |disk.files[Temp(name)]| == KEY_BYTES {
        private, recovered := disk.files[Temp(name)], true;
      } else {
        var alive := disk.Unlink(Temp(name));
        if !alive {
          return Stopped, private;
        }
      }
    }
    if !recovered {
      private := source.Generate();
    }
    r := disk.WriteExclusive(name, private);
  }
}
