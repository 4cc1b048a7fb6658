/**
 One directory of a file system that may crash at any moment. What a program reads is the cached state;
 what a crash leaves behind is weaker: an unsynced file keeps arbitrary bytes, and a name may come back as
 any entry it has had since the directory was last synced, independently of every other name.
 */
module FileSystem {
  import opened Basics

  type Name = Text

  datatype File = File(data: Bytes, synced: bool)

  /** `pending` holds the earlier directories since the last directory sync; `next` is the next file number. */
  datatype Disk = Disk(entries: map<Name, nat>, pending: seq<map<Name, nat>>, files: map<nat, File>, next: nat)

  ghost predicate Numbered(dir: map<Name, nat>, files: map<nat, File>) {
    forall n | n in dir :: dir[n] in files
  }

  ghost predicate WellFormed(d: Disk) {
    && Numbered(d.entries, d.files)
    && (forall i | 0 <= i < |d.pending| :: Numbered(d.pending[i], d.files))
    && (forall f | f in d.files :: f < d.next)
  }

  /** What reading a name returns. */
  function Read(d: Disk, name: Name): Option<Bytes> {
    if name in d.entries && d.entries[name] in d.files then Some(d.files[d.entries[name]].data) else None
  }

  /** A crash that keeps this directory may leave these contents under the name. */
  predicate Leaves(files: map<nat, File>, dir: map<Name, nat>, name: Name, c: Option<Bytes>) {
    if name !in dir then c == None
    else dir[name] in files && c.Some? && (files[dir[name]].synced ==> c.value == files[dir[name]].data)
  }

  /** A crash at this moment may leave these contents under the name. */
  ghost predicate Survives(d: Disk, name: Name, c: Option<Bytes>) {
    Leaves(d.files, d.entries, name, c) || exists i | 0 <= i < |d.pending| :: Leaves(d.files, d.pending[i], name, c)
  }

  /** A file that no present or pending entry of the name refers to. */
  ghost predicate Private(d: Disk, name: Name, file: nat) {
    && (name in d.entries ==> d.entries[name] != file)
    && forall i | 0 <= i < |d.pending| :: name in d.pending[i] ==> d.pending[i][name] != file
  }

  // ---------- the calls that change a disk ----------

  function Create(d: Disk, name: Name): Disk {
    Disk(d.entries[name := d.next], d.pending + [d.entries], d.files[d.next := File([], false)], d.next + 1)
  }

  function Write(d: Disk, file: nat, data: Bytes): Disk {
    d.(files := d.files[file := File(data, false)])
  }

  function SyncFile(d: Disk, file: nat): Disk
    requires file in d.files
  {
    d.(files := d.files[file := d.files[file].(synced := true)])
  }

  function Rename(d: Disk, from: Name, to: Name): Disk
    requires from in d.entries
  {
    d.(entries := (d.entries - {from})[to := d.entries[from]], pending := d.pending + [d.entries])
  }

  function Unlink(d: Disk, name: Name): Disk {
    d.(entries := d.entries - {name}, pending := d.pending + [d.entries])
  }

  function SyncEntries(d: Disk): Disk {
    d.(pending := [])
  }

  // ---------- what each call does to a name ----------

  /** Both disks show, and would leave behind, the same contents under the name. */
  ghost predicate SameUnder(name: Name, d: Disk, e: Disk) {
    Read(d, name) == Read(e, name) && forall c :: Survives(d, name, c) <==> Survives(e, name, c)
  }

  /** Appending the current directory to the pending ones, with the name's entry unchanged. */
  lemma PendingAppended(d: Disk, e: Disk, name: Name)
    requires e.pending == d.pending + [d.entries] && e.files == d.files
    requires name in e.entries <==> name in d.entries
    requires name in e.entries ==> e.entries[name] == d.entries[name]
    ensures SameUnder(name, d, e)
  {
    forall c
      ensures Survives(d, name, c) <==> Survives(e, name, c)
    {
      forall i | 0 <= i < |d.pending|
        ensures e.pending[i] == d.pending[i]
      {
      }
      assert e.pending[|d.pending|] == d.entries;
      if Survives(e, name, c) && !Leaves(e.files, e.entries, name, c) {
        var i :| 0 <= i < |e.pending| && Leaves(e.files, e.pending[i], name, c);
        assert i < |d.pending| ==> Leaves(d.files, d.pending[i], name, c);
      }
      if Survives(d, name, c) && !Leaves(d.files, d.entries, name, c) {
        var i :| 0 <= i < |d.pending| && Leaves(d.files, d.pending[i], name, c);
        assert Leaves(e.files, e.pending[i], name, c);
      }
    }
  }

  /** Changing a file that the name never refers to. */
  lemma PrivateFileChanged(d: Disk, e: Disk, name: Name, file: nat)
    requires e.entries == d.entries && e.pending == d.pending && Private(d, name, file)
    requires forall f | f != file :: (f in e.files <==> f in d.files) && (f in d.files ==> e.files[f] == d.files[f])
    ensures SameUnder(name, d, e)
  {
    forall c
      ensures Survives(d, name, c) <==> Survives(e, name, c)
    {
      assert Leaves(d.files, d.entries, name, c) <==> Leaves(e.files, e.entries, name, c);
      forall i | 0 <= i < |d.pending|
        ensures Leaves(d.files, d.pending[i], name, c) <==> Leaves(e.files, e.pending[i], name, c)
      {
      }
    }
  }

  lemma CreateKeeps(d: Disk, temporary: Name, name: Name)
    requires WellFormed(d) && name != temporary
    ensures var e := Create(d, temporary); WellFormed(e) && SameUnder(name, d, e) && Private(e, name, d.next)
  {
    var filed := d.(files := d.files[d.next := File([], false)]);
    PrivateFileChanged(d, filed, name, d.next);
    var e := Create(d, temporary);
    PendingAppended(filed, e, name);
    assert SameUnder(name, d, e);
  }

  lemma WriteKeeps(d: Disk, file: nat, data: Bytes, name: Name)
    requires WellFormed(d) && file in d.files && Private(d, name, file)
    ensures var e := Write(d, file, data); WellFormed(e) && SameUnder(name, d, e) && Private(e, name, file)
  {
    PrivateFileChanged(d, Write(d, file, data), name, file);
  }

  lemma SyncFileKeeps(d: Disk, file: nat, name: Name)
    requires WellFormed(d) && file in d.files && Private(d, name, file)
    ensures var e := SyncFile(d, file); WellFormed(e) && SameUnder(name, d, e) && Private(e, name, file)
  {
    PrivateFileChanged(d, SyncFile(d, file), name, file);
  }

  lemma UnlinkKeeps(d: Disk, temporary: Name, name: Name)
    requires WellFormed(d) && name != temporary
    ensures var e := Unlink(d, temporary); WellFormed(e) && SameUnder(name, d, e) && Read(e, temporary) == None
  {
    PendingAppended(d, Unlink(d, temporary), name);
  }

  /** A rename is atomic: the name comes back as before, or as the whole renamed file if that was synced. */
  lemma RenameReplaces(d: Disk, from: Name, to: Name)
    requires WellFormed(d) && from in d.entries && d.files[d.entries[from]].synced
    ensures var e := Rename(d, from, to);
            var data := d.files[d.entries[from]].data;
            && WellFormed(e)
            && Read(e, to) == Some(data)
            && forall c :: Survives(e, to, c) <==> Survives(d, to, c) || c == Some(data)
  {
    var e := Rename(d, from, to);
    var data := d.files[d.entries[from]].data;
    forall c
      ensures Survives(e, to, c) <==> Survives(d, to, c) || c == Some(data)
    {
      assert Leaves(e.files, e.entries, to, c) <==> c == Some(data);
      assert e.pending[|d.pending|] == d.entries;
      forall i | 0 <= i < |d.pending|
        ensures e.pending[i] == d.pending[i]
      {
      }
      if Survives(e, to, c) && c != Some(data) {
        var i :| 0 <= i < |e.pending| && Leaves(e.files, e.pending[i], to, c);
        assert i < |d.pending| ==> Leaves(d.files, d.pending[i], to, c);
      }
      if Survives(d, to, c) && !Leaves(d.files, d.entries, to, c) {
        var i :| 0 <= i < |d.pending| && Leaves(d.files, d.pending[i], to, c);
        assert Leaves(e.files, e.pending[i], to, c);
      }
    }
  }

  /** Why the file is synced first: renaming an unsynced file would let a crash put any bytes under the name. */
  lemma UnsyncedRenameLosesContents(d: Disk, from: Name, to: Name, c: Bytes)
    requires WellFormed(d) && from in d.entries && !d.files[d.entries[from]].synced
    ensures Survives(Rename(d, from, to), to, Some(c))
  {
    var e := Rename(d, from, to);
    assert Leaves(e.files, e.entries, to, Some(c));
  }

  /** After a directory sync, a synced file under a name is all that a crash can leave there. */
  lemma SyncEntriesSettles(d: Disk, name: Name)
    requires WellFormed(d) && name in d.entries && d.files[d.entries[name]].synced
    ensures var e := SyncEntries(d);
            WellFormed(e) && Read(e, name) == Read(d, name) && forall c :: Survives(e, name, c) <==> c == Read(d, name)
  {
    var e := SyncEntries(d);
    forall c
      ensures Survives(e, name, c) <==> c == Read(d, name)
    {
      assert Leaves(e.files, e.entries, name, c) <==> c == Read(d, name);
    }
  }

  // ---------- crash and recovery ----------

  /**
   The disk that a crash leaves and the next start finds: one of the surviving contents under every name,
   all of it settled.
   */
  ghost predicate Recovered(d: Disk, e: Disk) {
    && WellFormed(e)
    && e.pending == []
    && (forall f | f in e.files :: e.files[f].synced)
    && forall n :: Survives(d, n, Read(e, n))
  }

  /** What is read without a crash could also have survived one. */
  lemma ReadSurvives(d: Disk, name: Name)
    requires WellFormed(d)
    ensures Survives(d, name, Read(d, name))
  {
    assert Leaves(d.files, d.entries, name, Read(d, name));
  }

  /** A recovered disk can lose nothing more: a second crash leaves under a name what is read there. */
  lemma RecoveredIsSettled(d: Disk, e: Disk, name: Name, c: Option<Bytes>)
    requires Recovered(d, e)
    ensures Survives(e, name, c) <==> c == Read(e, name)
  {
    assert Leaves(e.files, e.entries, name, c) <==> c == Read(e, name);
  }

  /** Recovery invents nothing: what can survive it could survive the first crash. */
  lemma RecoveryInventsNothing(d: Disk, e: Disk, name: Name, c: Option<Bytes>)
    requires Recovered(d, e) && Survives(e, name, c)
    ensures Survives(d, name, c)
  {
    RecoveredIsSettled(d, e, name, c);
    assert Survives(d, name, Read(e, name));
  }

  function Synced(files: map<nat, File>): (r: map<nat, File>)
    ensures r.Keys == files.Keys && forall f | f in r :: r[f] == File(files[f].data, true)
  {
    map f | f in files :: File(files[f].data, true)
  }

  /** A start that finds these contents under the name, and everything else as it was last read. */
  function Restart(d: Disk, name: Name, c: Option<Bytes>): Disk {
    if c.None? then Disk(d.entries - {name}, [], Synced(d.files), d.next)
    else Disk(d.entries[name := d.next], [], Synced(d.files)[d.next := File(c.value, true)], d.next + 1)
  }

  /** Whatever may survive a crash may be what the next start finds. */
  lemma AnySurvivorMayBeFound(d: Disk, name: Name, c: Option<Bytes>)
    requires WellFormed(d) && Survives(d, name, c)
    ensures Recovered(d, Restart(d, name, c)) && Read(Restart(d, name, c), name) == c
  {
    var e := Restart(d, name, c);
    forall n
      ensures Survives(d, n, Read(e, n))
    {
      if n != name {
        ReadSurvives(d, n);
        assert Read(e, n) == Read(d, n);
      }
    }
  }

  // ---------- the system calls ----------

  /** A mounted directory with its open descriptors. A descriptor of the directory itself has no file. */
  class Volume {
    const posix: bool
    var disk: Disk
    var descriptors: map<nat, Option<nat>>
    var nextDescriptor: nat
    ghost var history: seq<Disk> // every state the disk has been in

    ghost predicate Valid()
      reads this
    {
      && WellFormed(disk)
      && (forall x | x in descriptors :: x < nextDescriptor)
      && history != [] && history[|history| - 1] == disk
    }

    constructor (posix: bool, disk: Disk)
      requires WellFormed(disk)
      ensures Valid() && this.posix == posix && this.disk == disk && descriptors == map[] && history == [disk]
    {
      this.posix := posix;
      this.disk := disk;
      descriptors := map[];
      nextDescriptor := 0;
      history := [disk];
    }

    /** `tempfile.mkstemp`, which creates a file only under a free name. */
    method MakeTemporary(name: Name, works: bool) returns (r: Result<nat>)
      requires Valid()
      modifies this
      ensures Valid()
      ensures r.Ok? <==> works && name !in old(disk.entries)
      ensures r.Ok? ==> && disk == Create(old(disk), name) && history == old(history) + [disk]
                        && r.value !in old(descriptors) && descriptors == old(descriptors)[r.value := Some(old(disk.next))]
      ensures r.Err? ==> r == Err(OsError) && unchanged(this)
    {
      if !works || name in disk.entries {
        return Err(OsError);
      }
      descriptors := descriptors[nextDescriptor := Some(disk.next)];
      r := Ok(nextDescriptor);
      nextDescriptor := nextDescriptor + 1;
      disk := Create(disk, name);
      history := history + [disk];
    }

    /** Bytes of an open file reach the cache; a crash may keep any part of them. */
    method Put(descriptor: nat, data: Bytes)
      requires Valid() && descriptor in descriptors && descriptors[descriptor].Some?
      requires descriptors[descriptor].value in disk.files
      modifies this`disk, this`history
      ensures Valid()
      ensures disk == Write(old(disk), descriptors[descriptor].value, data) && history == old(history) + [disk]
    {
      disk := Write(disk, descriptors[descriptor].value, data);
      history := history + [disk];
    }

    /** `os.fsync` of a file; a failure leaves it unsynced. */
    method Sync(descriptor: nat, works: bool) returns (r: Result<()>)
      requires Valid() && descriptor in descriptors && descriptors[descriptor].Some?
      requires descriptors[descriptor].value in disk.files
      modifies this`disk, this`history
      ensures Valid()
      ensures r == if works then Ok(()) else Err(OsError)
      ensures if works then disk == SyncFile(old(disk), descriptors[descriptor].value) && history == old(history) + [disk]
              else disk == old(disk) && history == old(history)
    {
      if !works {
        return Err(OsError);
      }
      disk := SyncFile(disk, descriptors[descriptor].value);
      history := history + [disk];
      r := Ok(());
    }

    /** `os.close` frees the descriptor even when it reports an error. */
    method Close(descriptor: nat, works: bool) returns (r: Result<()>)
      requires Valid() && descriptor in descriptors
      modifies this`descriptors
      ensures Valid() && descriptors == old(descriptors) - {descriptor}
      ensures r == if works then Ok(()) else Err(OsError)
    {
      descriptors := descriptors - {descriptor};
      r := if works then Ok(()) else Err(OsError);
    }

    /** `os.replace` */
    method Replace(from: Name, to: Name, works: bool) returns (r: Result<()>)
      requires Valid() && from in disk.entries
      modifies this`disk, this`history
      ensures Valid()
      ensures r == if works then Ok(()) else Err(OsError)
      ensures if works then disk == Rename(old(disk), from, to) && history == old(history) + [disk]
              else disk == old(disk) && history == old(history)
    {
      if !works {
        return Err(OsError);
      }
      disk := Rename(disk, from, to);
      history := history + [disk];
      r := Ok(());
    }

    /** `Path.unlink`, whose errors the caller ignores */
    method Remove(name: Name, works: bool)
      requires Valid()
      modifies this`disk, this`history
      ensures Valid()
      ensures if works then disk == Unlink(old(disk), name) && history == old(history) + [disk]
              else disk == old(disk) && history == old(history)
    {
      if works {
        disk := Unlink(disk, name);
        history := history + [disk];
      }
    }

    /** `os.open` of the directory */
    method OpenDirectory(works: bool) returns (r: Result<nat>)
      requires Valid()
      modifies this`descriptors, this`nextDescriptor
      ensures Valid()
      ensures r.Ok? <==> works
      ensures r.Ok? ==> r.value !in old(descriptors) && descriptors == old(descriptors)[r.value := None]
      ensures r.Err? ==> r == Err(OsError) && descriptors == old(descriptors)
    {
      if !works {
        return Err(OsError);
      }
      descriptors := descriptors[nextDescriptor := None];
      r := Ok(nextDescriptor);
      nextDescriptor := nextDescriptor + 1;
    }

    /** `os.fsync` of the directory */
    method SyncDirectoryEntries(works: bool) returns (r: Result<()>)
      requires Valid()
      modifies this`disk, this`history
      ensures Valid()
      ensures r == if works then Ok(()) else Err(OsError)
      ensures if works then disk == SyncEntries(old(disk)) && history == old(history) + [disk]
              else disk == old(disk) && history == old(history)
    {
      if !works {
        return Err(OsError);
      }
      disk := SyncEntries(disk);
      history := history + [disk];
      r := Ok(());
    }
  }
}
