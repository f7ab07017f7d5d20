/** The private writer that every administrative transaction shares, over one
    directory of files that survives the death of the process.

    A file name is born as a temporary, grows write by write, and takes its final
    name by an atomic rename. A process may die between any two of those steps. */
module DurableFiles {
  import opened Wrappers

  newtype Byte = x: int | 0 <= x < 256

  type Bytes = seq<Byte>

  /** The two names one file can carry: its own, and `.name.tmp`. */
  datatype Slot<+N> = Final(name: N) | Temp(name: N)

  type Files<!N(==)> = map<Slot<N>, Bytes>

  /** Refused: the code raised and left the directory to an administrator.
      Stopped: the process died on the way. */
  datatype Outcome = Done | Refused | Stopped

  /** Every file other than the named one is the same in both directories. */
  ghost predicate SameElsewhere<N(!new)>(before: Files<N>, after: Files<N>, name: N) {
    forall slot: Slot<N> :: slot.name != name ==>
      (slot in before <==> slot in after) && (slot in before ==> before[slot] == after[slot])
  }

  /** The code refuses to write when the final name is taken, or when a temporary
      holds something other than a shorter, hence interrupted, copy. */
  predicate WriteRefused<N(==)>(files: Files<N>, name: N, payload: Bytes) {
    || Final(name) in files
    || (Temp(name) in files && files[Temp(name)] != payload && |files[Temp(name)]| >= |payload|)
  }

  /** One file cut short: the final name is not there, and a temporary that
      changed holds a beginning of the payload. */
  ghost predicate CutShort<N(!new)>(before: Files<N>, after: Files<N>, name: N, payload: Bytes) {
    && SameElsewhere(before, after, name)
    && Final(name) !in after
    && (after == before || Temp(name) !in after || after[Temp(name)] <= payload)
  }

  /** Everything a dying writer can leave; a temporary already whole is untouched. */
  ghost predicate WriteLeft<N(!new)>(before: Files<N>, after: Files<N>, name: N, payload: Bytes) {
    && CutShort(before, after, name, payload)
    && (Temp(name) in before && before[Temp(name)] == payload ==> after == before)
  }

  /** One more step of a process that has so many left, if it lives to take it. */
  method Spend(stop: Option<nat>) returns (alive: bool, left: Option<nat>)
    ensures alive <==> stop != Some(0)
    ensures left == if alive && stop.Some? then Some(stop.value - 1) else stop
  {
    alive := stop != Some(0);
    left := if alive && stop.Some? then Some(stop.value - 1) else stop;
  }

  class Disk<N(==,!new)> {
    var files: Files<N>
    var folders: set<N>
    // How many more steps this process lives; None when it is not going to die.
    var stop: Option<nat>

    constructor (files: Files<N>, folders: set<N>, stop: Option<nat>)
      ensures this.files == files && this.folders == folders && this.stop == stop
    {
      this.files, this.folders, this.stop := files, folders, stop;
    }

    method Tick() returns (alive: bool)
      modifies this`stop
      ensures alive <==> old(stop) != Some(0)
      ensures stop == if alive && old(stop).Some? then Some(old(stop).value - 1) else old(stop)
    {
      alive, stop := Spend(stop);
    }

    method Put(slot: Slot<N>, content: Bytes) returns (alive: bool)
      modifies this`stop, this`files
      ensures old(stop).None? ==> alive && stop.None?
      ensures files == if alive then old(files)[slot := content] else old(files)
    {
      alive := Tick();
      if alive {
        files := files[slot := content];
      }
    }

    method Unlink(slot: Slot<N>) returns (alive: bool)
      modifies this`stop, this`files
      ensures old(stop).None? ==> alive && stop.None?
      ensures files == if alive then old(files) - {slot} else old(files)
    {
      alive := Tick();
      if alive {
        files := files - {slot};
      }
    }

    method Rename(from: Slot<N>, to: Slot<N>) returns (alive: bool)
      requires from in files
      modifies this`stop, this`files
      ensures old(stop).None? ==> alive && stop.None?
      ensures files == if alive then (old(files) - {from})[to := old(files)[from]] else old(files)
    {
      alive := Tick();
      if alive {
        files := (files - {from})[to := files[from]];
      }
    }

    method MakeFolder(name: N) returns (alive: bool)
      modifies this`stop, this`folders
      ensures old(stop).None? ==> alive && stop.None?
      ensures folders == if alive then old(folders) + {name} else old(folders)
    {
      alive := Tick();
      if alive {
        folders := folders + {name};
      }
    }

    method RemoveFolder(name: N) returns (alive: bool)
      modifies this`stop, this`folders
      ensures old(stop).None? ==> alive && stop.None?
      ensures folders == if alive then old(folders) - {name} else old(folders)
    {
      alive := Tick();
      if alive {
        folders := folders - {name};
      }
    }

    method RenameFolder(from: N, to: N) returns (alive: bool)
      modifies this`stop, this`folders
      ensures old(stop).None? ==> alive && stop.None?
      ensures folders == if alive then old(folders) - {from} + {to} else old(folders)
    {
      alive := Tick();
      if alive {
        folders := folders - {from} + {to};
      }
    }

    /** One `write` call: it stores some of the remaining bytes, at least one. */
    method WriteSome(name: N, payload: Bytes, offset: nat) returns (alive: bool, written: nat)
      requires offset < |payload|
      requires Temp(name) in files && files[Temp(name)] == payload[..offset]
      modifies this`stop, this`files
      ensures old(stop).None? ==> alive && stop.None?
      ensures alive ==> 0 < written <= |payload| - offset
      ensures files == if alive then old(files)[Temp(name) := payload[..offset + written]] else old(files)
    {
      written :| 0 < written <= |payload| - offset;
      alive := Put(Temp(name), payload[..offset + written]);
    }

    /** Write one new file under its final name, recovering the temporary that an
        interrupted earlier call left. */
    method WriteExclusive(name: N, payload: Bytes) returns (r: Outcome)
      modifies this`stop, this`files
      ensures old(stop).None? ==> stop.None? && !r.Stopped?
      ensures r.Refused? <==> WriteRefused(old(files), name, payload)
      ensures r.Refused? ==> files == old(files)
      ensures r.Done? ==> files == (old(files) - {Temp(name)})[Final(name) := payload]
      ensures r.Stopped? ==> WriteLeft(old(files), files, name, payload)
    {
      if Final(name) in files {
        return Refused;
      }
      var alive;
      if Temp(name) in files {
        if files[Temp(name)] == payload {
          alive := Rename(Temp(name), Final(name));
          return if alive then Done else Stopped;
        }
        if |files[Temp(name)]| >= |payload| {
          return Refused;
        }
        alive := Unlink(Temp(name));
        if !alive {
          return Stopped;
        }
      }
      alive := Put(Temp(name), []);
      if !alive {
        return Stopped;
      }
      var offset, written := 0, 0;
      while offset < |payload|
        invariant offset <= |payload|
        invariant old(stop).None? ==> stop.None?
        invariant files == old(files)[Temp(name) := payload[..offset]]
      {
        alive, written := WriteSome(name, payload, offset);
        if !alive {
          return Stopped;
        }
        offset := offset + written;
      }
      assert payload[..offset] == payload;
      alive := Rename(Temp(name), Final(name));
      return if alive then Done else Stopped;
    }
  }
}
