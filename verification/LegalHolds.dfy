/** The register of legal holds, replaced by compare-and-swap, and the physical
    stores that maintenance deletes from. */
module LegalHolds {
  import opened Wrappers
  import opened DurableFiles
  import opened RetentionObjects
  import opened RetentionJournal

  datatype File = Active | Holds | HoldsNext

  type Holding = set<Identity>

  /** The canonical texts of the two documents kept beside the journals. */
  datatype Texts = Texts(
    marker: Marker -> Bytes, readMarker: Bytes -> Option<Marker>,
    holds: Holding -> Bytes, readHolds: Bytes -> Option<Holding>)
  {
    ghost predicate Canonical() {
      && (forall m :: readMarker(marker(m)) == Some(m))
      && (forall raw :: readMarker(raw).Some? ==> marker(readMarker(raw).value) == raw)
      && (forall h :: readHolds(holds(h)) == Some(h))
      && (forall raw :: readHolds(raw).Some? ==> holds(readHolds(raw).value) == raw)
    }
  }

  const MAX_REGISTER_BYTES := 1024 * 1024

  predicate Present(files: Files<File>, name: File) { Final(name) in files || Temp(name) in files }

  /** The register on disk, whether or not a change is pending. */
  function Register(texts: Texts, files: Files<File>): Option<Holding> {
    if Final(Holds) in files && |files[Final(Holds)]| <= MAX_REGISTER_BYTES then texts.readHolds(files[Final(Holds)])
    else None
  }

  /** What readers accept: never a missing or partly changed register. */
  function HoldsInForce(texts: Texts, files: Files<File>): Option<Holding> {
    if Present(files, HoldsNext) then None else Register(texts, files)
  }

  /** When the compare-and-swap is refused before it touches anything. */
  predicate UpdateRefused(texts: Texts, files: Files<File>, holds: Holding, expected: Option<Holding>) {
    || |texts.holds(holds)| > MAX_REGISTER_BYTES
    || Present(files, Active)
    || (Final(Holds) in files && Register(texts, files).None?)
    || (&& !(Register(texts, files) == Some(holds) && !Present(files, HoldsNext))
        && (|| Register(texts, files) != expected
            || (if Final(HoldsNext) in files
                then files[Final(HoldsNext)] != texts.holds(holds) || Temp(HoldsNext) in files
                else WriteRefused(files, HoldsNext, texts.holds(holds)))))
  }

  /** The state a change from `before` to `holds` leaves, finished or not. */
  ghost predicate Changing(texts: Texts, files: Files<File>, before: Option<Holding>, holds: Holding) {
    && !Present(files, Active)
    && (Final(Holds) in files ==> Register(texts, files).Some?)
    && (|| (Register(texts, files) == Some(holds) && !Present(files, HoldsNext))
        || (&& Register(texts, files) == before
            && (Final(HoldsNext) in files ==>
                files[Final(HoldsNext)] == texts.holds(holds) && Temp(HoldsNext) !in files)
            && (Temp(HoldsNext) in files ==> files[Temp(HoldsNext)] <= texts.holds(holds))))
  }

  /** Asking again for a change that was interrupted is never refused. */
  lemma RetryIsAccepted(texts: Texts, files: Files<File>, holds: Holding, expected: Option<Holding>)
    requires |texts.holds(holds)| <= MAX_REGISTER_BYTES && Changing(texts, files, expected, holds)
    ensures !UpdateRefused(texts, files, holds, expected)
  {
    var payload := texts.holds(holds);
    if Temp(HoldsNext) in files && files[Temp(HoldsNext)] <= payload && |files[Temp(HoldsNext)]| >= |payload| {
      assert files[Temp(HoldsNext)] == payload;
    }
  }

  /** All the physical stores: which objects are there, at which version. */
  class Owners {
    var objects: Stores

    constructor (objects: Stores)
      ensures this.objects == objects
    {
      this.objects := objects;
    }

    method Version(id: Identity) returns (version: Option<string>)
      ensures version == if id in objects then Some(objects[id]) else None
    {
      version := if id in objects then Some(objects[id]) else None;
    }

    /** Recheck the version and delete durably; an absent object stays absent. */
    method Delete(id: Identity, expected: string, disk: Disk<File>) returns (r: Outcome)
      modifies this`objects, disk`stop
      ensures old(disk.stop).None? ==> disk.stop.None? && !r.Stopped?
      ensures r.Refused? <==> id in old(objects) && old(objects)[id] != expected
      ensures r.Refused? ==> objects == old(objects)
      ensures r.Done? ==> objects == old(objects) - {id}
      ensures r.Stopped? ==> objects == old(objects) || objects == old(objects) - {id}
    {
      if id in objects && objects[id] != expected {
        return Refused;
      }
      var alive := disk.Tick();
      if !alive {
        return Stopped;
      }
      objects := objects - {id};
      alive := disk.Tick();
      return if alive then Done else Stopped;
    }
  }

  class HoldRegister {
    const texts: Texts
    const disk: Disk<File>

    constructor (texts: Texts, disk: Disk<File>)
      ensures this.texts == texts && this.disk == disk
    {
      this.texts, this.disk := texts, disk;
    }

    /** Initialise or replace the register, expecting the one named.

        The register on disk is the old set or the new one at every stop, also when
        the process dies right after the replacement; the barrier and the journals are
        not touched, and a change left half done is completed by asking for it again.
        A register that is neither the one expected nor the one asked for is refused. */
    method Update(holds: Holding, expected: Option<Holding>) returns (r: Outcome)
      requires texts.Canonical()
      modifies disk`files, disk`stop
      ensures old(disk.stop).None? ==> disk.stop.None? && !r.Stopped?
      ensures r.Refused? <==> UpdateRefused(texts, old(disk.files), holds, expected)
      ensures Register(texts, old(disk.files)) !in {expected, Some(holds)} ==> r.Refused?
      ensures Present(old(disk.files), HoldsNext) && Register(texts, old(disk.files)) != expected ==> r.Refused?
      ensures Present(old(disk.files), Active) || |texts.holds(holds)| > MAX_REGISTER_BYTES ==> r.Refused?
      ensures (&& !Present(old(disk.files), Active) && !Present(old(disk.files), HoldsNext)
               && |texts.holds(holds)| <= MAX_REGISTER_BYTES && Register(texts, old(disk.files)) == expected
               && (Final(Holds) in old(disk.files) ==> expected.Some?)) ==> !r.Refused?
      ensures r.Refused? ==> disk.files == old(disk.files)
      ensures r.Done? ==> HoldsInForce(texts, disk.files) == Some(holds) && Changing(texts, disk.files, expected, holds)
      ensures r.Stopped? ==> Register(texts, disk.files) in {Register(texts, old(disk.files)), Some(holds)}
      ensures r.Stopped? && old(Changing(texts, disk.files, expected, holds)) ==>
        Changing(texts, disk.files, expected, holds)
      ensures Present(disk.files, Active) == old(Present(disk.files, Active))
    {
      var payload := texts.holds(holds);
      if |payload| > MAX_REGISTER_BYTES || Present(disk.files, Active) {
        return Refused;
      }
      var current := Register(texts, disk.files);
      if Final(Holds) in disk.files && current.None? {
        return Refused;
      }
      if current == Some(holds) && !Present(disk.files, HoldsNext) {
        return Done;
      }
      if current != expected {
        return Refused;
      }
      if Final(HoldsNext) !in disk.files {
        r := disk.WriteExclusive(HoldsNext, payload);
        assert Final(Holds).name != HoldsNext && Final(Active).name != HoldsNext && Temp(Active).name != HoldsNext;
        if !r.Done? {
          return;
        }
      } else if disk.files[Final(HoldsNext)] != payload || Temp(HoldsNext) in disk.files {
        return Refused;
      }
      var alive := disk.Rename(Final(HoldsNext), Final(Holds));
      if !alive {
        return Stopped;
      }
      alive := disk.Tick();
      return if alive then Done else Stopped;
    }

    /** The same change asked for again after every stop. Each stop leaves the old
        set or the new one on disk, and the run that lives completes the change. */
    method UpdateAcrossStops(holds: Holding, expected: Option<Holding>, stops: seq<nat>)
        returns (ghost history: seq<Files<File>>)
      requires texts.Canonical() && |texts.holds(holds)| <= MAX_REGISTER_BYTES
      requires !Present(disk.files, Active) && !Present(disk.files, HoldsNext)
      requires Register(texts, disk.files) == expected && (Final(Holds) in disk.files <==> expected.Some?)
      modifies disk`files, disk`stop
      ensures HoldsInForce(texts, disk.files) == Some(holds)
      ensures forall i | 0 <= i < |history| :: Register(texts, history[i]) in {expected, Some(holds)}
    {
      history := [];
      var r;
      for i := 0 to |stops|
        invariant Changing(texts, disk.files, expected, holds)
        invariant forall j | 0 <= j < |history| :: Register(texts, history[j]) in {expected, Some(holds)}
      {
        disk.stop := Some(stops[i]);
        RetryIsAccepted(texts, disk.files, holds, expected);
        r := Update(holds, expected);
        history := history + [disk.files];
      }
      disk.stop := None;
      RetryIsAccepted(texts, disk.files, holds, expected);
      r := Update(holds, expected);
    }
  }
}
