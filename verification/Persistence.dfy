/**
 Crash-safe replacement of a file. Any system call may fail and the machine may stop between any two, so
 every state of the disk on the way is kept in a history and judged by what a crash would leave of it.
 */
module Persistence {
  import opened Basics
  import opened FileSystem

  /**
   Which calls succeed, in the order they are made. A raising `write` or `flush` has left a prefix of the
   data in the file; a successful `write` may still hold data back until `flush`.
   */
  datatype Faults = Faults(
    makeDirectory: bool, isSymlink: Result<bool>, makeTemporary: bool, infix: Text, openHandle: bool,
    writeRaises: bool, written: nat, flushRaises: bool, flushed: nat, sync: bool, closeHandle: bool, replace: bool,
    openDirectory: bool, syncDirectory: bool, closeDirectory: bool, closeDescriptor: bool, unlink: bool)
  {
    /** `mkstemp` makes a file, given that the name it picks is free. */
    predicate Creates(free: bool) {
      makeDirectory && isSymlink == Ok(false) && makeTemporary && free
    }

    /** `os.replace` is reached and succeeds. */
    predicate Replaces(free: bool) {
      Creates(free) && openHandle && !writeRaises && !flushRaises && sync && closeHandle && replace
    }

    predicate Settles(free: bool, posix: bool) {
      Replaces(free) && posix && openDirectory && syncDirectory
    }

    predicate Returns(free: bool, posix: bool) {
      Replaces(free) && (posix ==> openDirectory && syncDirectory && closeDirectory)
    }

    /** The only OSErrors that no handler turns into a PersistenceError. */
    predicate EscapesHandler(free: bool) {
      makeDirectory && (isSymlink.Err? || (Creates(free) && !openHandle && !closeDescriptor))
    }

    predicate RemovesTemporary() {
      unlink && (openHandle || closeDescriptor)
    }
  }

  /** The name `mkstemp` tries for a destination. */
  function TemporaryName(destination: Name, infix: Text): (t: Name)
    ensures |t| > |destination|
  {
    [46] + destination + [46] + infix + Lit(".tmp")
  }

  // ---------- the stages of a replacement ----------

  /** A temporary file is being written; no other name can tell. */
  ghost predicate Preparing(before: Disk, d: Disk, temporary: Name, file: nat) {
    && WellFormed(d) && file in d.files
    && temporary in d.entries && d.entries[temporary] == file
    && d.entries.Keys == before.entries.Keys + {temporary}
    && forall n | n != temporary :: SameUnder(n, before, d) && Private(d, n, file)
  }

  /** A name reads as before, and a crash leaves nothing under it that it could not have left before. */
  ghost predicate NoWorse(name: Name, before: Disk, d: Disk) {
    Read(d, name) == Read(before, name) && forall c :: Survives(d, name, c) ==> Survives(before, name, c)
  }

  ghost predicate Elsewhere(before: Disk, d: Disk, destination: Name, temporary: Name) {
    forall n | n != destination && n != temporary :: NoWorse(n, before, d)
  }

  /** The new contents are read; a crash leaves the old or the new ones. */
  ghost predicate Replaced(before: Disk, d: Disk, destination: Name, data: Bytes) {
    && Read(d, destination) == Some(data)
    && forall c :: Survives(d, destination, c) <==> Survives(before, destination, c) || c == Some(data)
  }

  /** The new contents are read, and a crash leaves nothing else. */
  ghost predicate Settled(d: Disk, destination: Name, data: Bytes) {
    && Read(d, destination) == Some(data)
    && forall c :: Survives(d, destination, c) <==> c == Some(data)
  }

  /** Crash safety of one state: the complete old or the complete new contents, and no other name disturbed. */
  ghost predicate OldOrNew(before: Disk, d: Disk, destination: Name, temporary: Name, data: Bytes) {
    && (Read(d, destination) == Read(before, destination) || Read(d, destination) == Some(data))
    && (forall c :: Survives(d, destination, c) ==> Survives(before, destination, c) || c == Some(data))
    && Elsewhere(before, d, destination, temporary)
  }

  lemma PreparingStarts(before: Disk, temporary: Name)
    requires WellFormed(before) && temporary !in before.entries
    ensures Preparing(before, Create(before, temporary), temporary, before.next)
  {
    var d := Create(before, temporary);
    forall n | n != temporary
      ensures SameUnder(n, before, d) && Private(d, n, before.next)
    {
      CreateKeeps(before, temporary, n);
    }
    assert WellFormed(d) by {
      assert temporary + [0] != temporary;
      CreateKeeps(before, temporary, temporary + [0]);
    }
  }

  lemma PreparingWrites(before: Disk, d: Disk, temporary: Name, file: nat, data: Bytes)
    requires Preparing(before, d, temporary, file)
    ensures Preparing(before, Write(d, file, data), temporary, file)
  {
    forall n | n != temporary
      ensures SameUnder(n, before, Write(d, file, data)) && Private(Write(d, file, data), n, file)
    {
      WriteKeeps(d, file, data, n);
    }
  }

  lemma PreparingSyncs(before: Disk, d: Disk, temporary: Name, file: nat)
    requires Preparing(before, d, temporary, file)
    ensures Preparing(before, SyncFile(d, file), temporary, file)
  {
    forall n | n != temporary
      ensures SameUnder(n, before, SyncFile(d, file)) && Private(SyncFile(d, file), n, file)
    {
      SyncFileKeeps(d, file, n);
    }
  }

  lemma PreparingIsSafe(before: Disk, d: Disk, destination: Name, temporary: Name, file: nat, data: Bytes)
    requires Preparing(before, d, temporary, file) && destination != temporary
    ensures OldOrNew(before, d, destination, temporary, data)
  {
    assert SameUnder(destination, before, d);
    forall n | n != destination && n != temporary
      ensures NoWorse(n, before, d)
    {
      assert SameUnder(n, before, d);
    }
  }

  lemma PreparingUnlinks(before: Disk, d: Disk, destination: Name, temporary: Name, file: nat, data: Bytes)
    requires Preparing(before, d, temporary, file) && destination != temporary && temporary !in before.entries
    ensures var e := Unlink(d, temporary);
            && WellFormed(e) && e.entries.Keys == before.entries.Keys
            && SameUnder(destination, before, e)
            && OldOrNew(before, e, destination, temporary, data)
  {
    var e := Unlink(d, temporary);
    forall n | n != temporary
      ensures SameUnder(n, before, e) && NoWorse(n, before, e)
    {
      assert SameUnder(n, before, d);
      UnlinkKeeps(d, temporary, n);
    }
    UnlinkKeeps(d, temporary, destination);
    assert e.entries.Keys == before.entries.Keys;
  }

  lemma PreparingRenames(before: Disk, d: Disk, destination: Name, temporary: Name, file: nat)
    requires Preparing(before, d, temporary, file) && destination != temporary && temporary !in before.entries
    requires d.files[file].synced
    ensures var e := Rename(d, temporary, destination);
            var data := d.files[file].data;
            && WellFormed(e) && e.entries.Keys == before.entries.Keys + {destination}
            && destination in e.entries && e.entries[destination] == file && e.files == d.files
            && Replaced(before, e, destination, data)
            && OldOrNew(before, e, destination, temporary, data)
  {
    var e := Rename(d, temporary, destination);
    RenameReplaces(d, temporary, destination);
    assert SameUnder(destination, before, d);
    forall n | n != destination && n != temporary
      ensures NoWorse(n, before, e)
    {
      assert SameUnder(n, before, d);
      PendingAppended(d, e, n);
    }
  }

  /** The directory sync ends the choice. */
  lemma ReplacedSettles(before: Disk, d: Disk, destination: Name, temporary: Name, file: nat)
    requires WellFormed(d) && destination in d.entries && d.entries[destination] == file && d.files[file].synced
    requires OldOrNew(before, d, destination, temporary, d.files[file].data)
    ensures var e := SyncEntries(d);
            && WellFormed(e)
            && Settled(e, destination, d.files[file].data)
            && OldOrNew(before, e, destination, temporary, d.files[file].data)
  {
    SyncEntriesSettles(d, destination);
    var e := SyncEntries(d);
    forall n | n != destination && n != temporary
      ensures NoWorse(n, before, e)
    {
      assert NoWorse(n, before, d);
      assert forall c :: Survives(e, n, c) ==> Survives(d, n, c);
    }
  }

  // ---------- the procedure ----------

  /** Every state entered since the history had this length was crash-safe. */
  ghost predicate AllSafe(history: seq<Disk>, start: nat, before: Disk, destination: Name, temporary: Name, data: Bytes) {
    forall k | start <= k < |history| :: OldOrNew(before, history[k], destination, temporary, data)
  }

  /** `_sync_directory`; no descriptor stays open, whichever call fails. */
  method SyncDirectory(v: Volume, f: Faults) returns (r: Result<()>)
    requires v.Valid()
    modifies v
    ensures v.Valid() && v.descriptors == old(v.descriptors)
    ensures r == if !v.posix || (f.openDirectory && f.syncDirectory && f.closeDirectory) then Ok(()) else Err(OsError)
    ensures if v.posix && f.openDirectory && f.syncDirectory
            then v.disk == SyncEntries(old(v.disk)) && v.history == old(v.history) + [v.disk]
            else v.disk == old(v.disk) && v.history == old(v.history)
  {
    if !v.posix {
      return Ok(());
    }
    var directory := v.OpenDirectory(f.openDirectory);
    if directory.Err? {
      return Err(OsError);
    }
    r := v.SyncDirectoryEntries(f.syncDirectory);
    var closed := v.Close(directory.value, f.closeDirectory); // finally
    if closed.Err? {
      r := closed;
    }
    assert v.descriptors == old(v.descriptors);
  }

  /** `with os.fdopen(descriptor, "wb") as handle`: write, flush and sync, and close in any case. */
  method WriteThrough(v: Volume, handle: nat, data: Bytes, f: Faults,
                      ghost before: Disk, ghost destination: Name, ghost temporary: Name, ghost file: nat)
    returns (r: Result<()>)
    requires v.Valid() && handle in v.descriptors && v.descriptors[handle] == Some(file)
    requires Preparing(before, v.disk, temporary, file) && destination != temporary
    modifies v
    ensures v.Valid() && v.descriptors == old(v.descriptors) - {handle}
    ensures r == if !f.writeRaises && !f.flushRaises && f.sync && f.closeHandle then Ok(()) else Err(OsError)
    ensures Preparing(before, v.disk, temporary, file)
    ensures r.Ok? ==> v.disk.files[file] == File(data, true)
    ensures old(v.history) <= v.history
    ensures AllSafe(v.history, |old(v.history)|, before, destination, temporary, data)
  {
    var reached := if f.writeRaises then data[..Min(f.written, |data|)]
                   else if f.flushRaises then data[..Min(f.flushed, |data|)] else data;
    PreparingWrites(before, v.disk, temporary, file, reached);
    v.Put(handle, reached);
    PreparingIsSafe(before, v.disk, destination, temporary, file, data);
    if f.writeRaises || f.flushRaises {
      r := Err(OsError);
    } else {
      PreparingSyncs(before, v.disk, temporary, file);
      r := v.Sync(handle, f.sync);
      PreparingIsSafe(before, v.disk, destination, temporary, file, data);
    }
    var closed := v.Close(handle, f.closeHandle); // leaving the with block
    if closed.Err? {
      r := closed;
    }
  }

  function Min(a: nat, b: nat): nat {
    if a < b then a else b
  }

  /** The rest of the try block: replace the destination, forget the temporary path, sync the directory. */
  method Install(v: Volume, destination: Name, temporary: Name, data: Bytes, f: Faults, ghost before: Disk, ghost file: nat)
    returns (r: Result<()>, temporaryPath: Option<Name>)
    requires v.Valid() && Preparing(before, v.disk, temporary, file) && v.disk.files[file] == File(data, true)
    requires destination != temporary && temporary !in before.entries
    modifies v
    ensures v.Valid() && v.descriptors == old(v.descriptors)
    ensures r.Ok? <==> f.replace && (v.posix ==> f.openDirectory && f.syncDirectory && f.closeDirectory)
    ensures temporaryPath == if f.replace then None else Some(temporary)
    ensures !f.replace ==> Preparing(before, v.disk, temporary, file)
    ensures f.replace ==> v.disk.entries.Keys == before.entries.Keys + {destination}
    ensures f.replace && !(v.posix && f.openDirectory && f.syncDirectory) ==> Replaced(before, v.disk, destination, data)
    ensures f.replace && v.posix && f.openDirectory && f.syncDirectory ==> Settled(v.disk, destination, data)
    ensures old(v.history) <= v.history
    ensures AllSafe(v.history, |old(v.history)|, before, destination, temporary, data)
  {
    temporaryPath := Some(temporary);
    PreparingRenames(before, v.disk, destination, temporary, file);
    r := v.Replace(temporary, destination, f.replace);
    if r.Err? {
      return;
    }
    temporaryPath := None;
    ReplacedSettles(before, v.disk, destination, temporary, file);
    r := SyncDirectory(v, f);
  }

  /** The try block, with the two locals that its cleanup depends on. */
  method Attempt(v: Volume, destination: Name, data: Bytes, f: Faults)
    returns (r: Result<()>, descriptor: int, temporaryPath: Option<Name>)
    requires v.Valid() && f.makeDirectory && f.isSymlink == Ok(false)
    modifies v
    ensures v.Valid()
    ensures var free := TemporaryName(destination, f.infix) !in old(v.disk.entries);
            && (r.Ok? <==> f.Returns(free, v.posix))
            && (descriptor >= 0 <==> f.Creates(free) && !f.openHandle)
            && temporaryPath == (if f.Creates(free) && !f.Replaces(free) then Some(TemporaryName(destination, f.infix)) else None)
            && (!f.Creates(free) ==> v.disk == old(v.disk))
            && (temporaryPath.Some? ==> Preparing(old(v.disk), v.disk, temporaryPath.value, old(v.disk.next)))
            && (f.Replaces(free) ==> v.disk.entries.Keys == old(v.disk.entries).Keys + {destination})
            && (f.Replaces(free) && !f.Settles(free, v.posix) ==> Replaced(old(v.disk), v.disk, destination, data))
            && (f.Settles(free, v.posix) ==> Settled(v.disk, destination, data))
    ensures if descriptor >= 0
            then descriptor in v.descriptors && v.descriptors - {descriptor} == old(v.descriptors)
            else v.descriptors == old(v.descriptors)
    ensures old(v.history) <= v.history
    ensures AllSafe(v.history, |old(v.history)|, old(v.disk), destination, TemporaryName(destination, f.infix), data)
  {
    hide OldOrNew, Replaced, Settled, SameUnder, Private;
    ghost var before, file := v.disk, v.disk.next;
    var temporary := TemporaryName(destination, f.infix);
    descriptor, temporaryPath := -1, None;

    var made := v.MakeTemporary(temporary, f.makeTemporary);
    if made.Err? {
      return Err(OsError), descriptor, temporaryPath;
    }
    descriptor, temporaryPath := made.value, Some(temporary);
    PreparingStarts(before, temporary);
    PreparingIsSafe(before, v.disk, destination, temporary, file, data);
    assert v.descriptors - {made.value} == old(v.descriptors);

    if !f.openHandle {
      return Err(OsError), descriptor, temporaryPath;
    }
    descriptor := -1;
    r := WriteThrough(v, made.value, data, f, before, destination, temporary, file);
    if r.Err? {
      return;
    }

    r, temporaryPath := Install(v, destination, temporary, data, f, before, file);
  }

  /**
   `atomic_write_bytes`. Every state on the way is crash-safe. A normal return, an error before
   `os.replace` and an error after it each leave the disk in a different, exactly stated, condition.
   */
  method AtomicWriteBytes(v: Volume, destination: Name, data: Bytes, f: Faults) returns (r: Result<()>)
    requires v.Valid()
    modifies v
    ensures v.Valid() && v.descriptors == old(v.descriptors)
    ensures var free := TemporaryName(destination, f.infix) !in old(v.disk.entries);
            && (r.Ok? <==> f.Returns(free, v.posix))
            && (r.Err? ==> r.error == if f.EscapesHandler(free) then OsError else PersistenceError)
            && (!f.Replaces(free) ==> SameUnder(destination, old(v.disk), v.disk))
            && (f.Replaces(free) && !f.Settles(free, v.posix) ==> Replaced(old(v.disk), v.disk, destination, data))
            && (f.Settles(free, v.posix) ==> Settled(v.disk, destination, data))
            && v.disk.entries.Keys == old(v.disk.entries).Keys
               + (if f.Replaces(free) then {destination}
                  else if f.Creates(free) && !f.RemovesTemporary() then {TemporaryName(destination, f.infix)} else {})
    ensures old(v.history) <= v.history
    ensures AllSafe(v.history, |old(v.history)|, old(v.disk), destination, TemporaryName(destination, f.infix), data)
  {
    hide OldOrNew, Replaced, Settled, Private, Leaves;
    if !f.makeDirectory {
      return Err(PersistenceError);
    }
    if f.isSymlink.Err? {
      return Err(OsError);
    }
    if f.isSymlink.value {
      return Err(PersistenceError);
    }
    ghost var before := v.disk;
    var descriptor, temporaryPath;
    r, descriptor, temporaryPath := Attempt(v, destination, data, f);
    if r.Err? {
      r := Err(PersistenceError);
    }

    // finally
    if descriptor >= 0 {
      var closed := v.Close(descriptor, f.closeDescriptor);
      if closed.Err? {
        PreparingIsSafe(before, v.disk, destination, temporaryPath.value, before.next, data);
        return closed;
      }
    }
    if temporaryPath.Some? {
      PreparingUnlinks(before, v.disk, destination, temporaryPath.value, before.next, data);
      v.Remove(temporaryPath.value, f.unlink);
    }
  }
}
