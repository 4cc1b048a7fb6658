/** The encrypted store: a JSON object sealed into one file that is replaced atomically. */
module Store {
  import opened Basics
  import opened FileSystem
  import opened Json
  import opened JsonBytes
  import opened JsonImage
  import opened JsonOrder
  import opened JsonRoundTrip
  import opened Library
  import opened Persistence
  import opened Utf8

  const STORE_MAGIC: Bytes := Ascii("CypherSyntax/store")
  const STORE_VERSION: Byte := 1
  const STORE_SALT_BYTES: nat := 16
  const STORE_NONCE_BYTES: nat := 12
  const STORE_TAG_BYTES: nat := 16
  const MAX_STORE_PLAINTEXT_BYTES: nat := 1_048_576
  const STORE_HEADER: Bytes := STORE_MAGIC + [STORE_VERSION]
  const STORE_FIXED_BYTES: nat := |STORE_HEADER| + STORE_SALT_BYTES + STORE_NONCE_BYTES
  const MAX_STORE_FILE_BYTES: nat := STORE_FIXED_BYTES + MAX_STORE_PLAINTEXT_BYTES + STORE_TAG_BYTES
  const MIN_PASSPHRASE_BYTES: nat := 16
  const MAX_PASSPHRASE_BYTES: nat := 1024

  predicate ValidPassphrase(passphrase: Bytes) {
    MIN_PASSPHRASE_BYTES <= |passphrase| <= MAX_PASSPHRASE_BYTES
  }

  /** A dictionary whose outermost keys are text. */
  predicate TextKeyed(v: Value) {
    v.Dict? && forall k | k in v.entries :: k.StrKey?
  }

  /** `_encode_object`; only the outermost keys are required to be strings. */
  function EncodeObject(v: Value): Result<Bytes> {
    var dictionary := v.Dict?;
    :- Need(dictionary, TypeError);
    :- Need(forall k | k in v.entries :: k.StrKey?, TypeError);
    var encoded := DumpBytes(v, false);
    :- Need(encoded.Some? && |encoded.value| <= MAX_STORE_PLAINTEXT_BYTES, StoreError);
    Ok(encoded.value)
  }

  /** The blob that `save` writes. */
  function Seal(lib: Calls, passphrase: Bytes, salt: Bytes, nonce: Bytes, v: Value): Result<Bytes> {
    var plaintext :- EncodeObject(v);
    var key := lib.scrypt(passphrase, salt);
    Ok(STORE_HEADER + salt + nonce + lib.seal(AesGcmSiv, key, nonce, plaintext, STORE_HEADER))
  }

  /** What `load` makes of a decrypted plaintext. */
  function DecodePlaintext(plaintext: Bytes): Result<Value> {
    var bounded := |plaintext| <= MAX_STORE_PLAINTEXT_BYTES;
    :- Need(bounded, StoreError);
    var raw := LoadBytes(plaintext);
    :- Need(raw.Some? && raw.value.Dict?, StoreError);
    var encoded :- EncodeObject(raw.value);
    :- Need(encoded == plaintext, StoreError);
    Ok(raw.value)
  }

  /** What `load` makes of the bytes it read. */
  function Open(lib: Calls, passphrase: Bytes, blob: Bytes): Result<Value> {
    var complete := |blob| >= STORE_FIXED_BYTES + STORE_TAG_BYTES;
    :- Need(complete, StoreError);
    :- Need(|blob| <= MAX_STORE_FILE_BYTES, StoreError);
    :- Need(STORE_MAGIC <= blob, StoreError);
    :- Need(blob[|STORE_MAGIC|] == STORE_VERSION, StoreError);
    var saltStart := |STORE_HEADER|;
    var nonceStart := saltStart + STORE_SALT_BYTES;
    var ciphertextStart := nonceStart + STORE_NONCE_BYTES;
    var nonce := blob[nonceStart..ciphertextStart];
    var key := lib.scrypt(passphrase, blob[saltStart..nonceStart]);
    var plaintext := lib.open(AesGcmSiv, key, nonce, blob[ciphertextStart..], STORE_HEADER);
    :- Need(plaintext.Some?, StoreError);
    DecodePlaintext(plaintext.value)
  }

  /** What `load` returns when the file holds these contents, or is missing. */
  function LoadFrom(lib: Calls, passphrase: Bytes, contents: Option<Bytes>): Result<Value> {
    if contents.None? then Err(StoreError) else Open(lib, passphrase, contents.value)
  }

  // ---------- the round trip ----------

  /** What `load` returns for a saved object. */
  ghost function Reloaded(obj: Value): Result<Value> {
    if TextOrdered(obj) then Ok(Reread(obj)) else Err(StoreError)
  }

  lemma OpenReachesThePlaintext(lib: Calls, passphrase: Bytes, salt: Bytes, nonce: Bytes, v: Value)
    requires Lawful(lib) && |salt| == STORE_SALT_BYTES && |nonce| == STORE_NONCE_BYTES
    requires EncodeObject(v).Ok?
    ensures Seal(lib, passphrase, salt, nonce, v).Ok?
    ensures Open(lib, passphrase, Seal(lib, passphrase, salt, nonce, v).value) == DecodePlaintext(EncodeObject(v).value)
  {
    var plaintext := EncodeObject(v).value;
    var ciphertext := lib.seal(AesGcmSiv, lib.scrypt(passphrase, salt), nonce, plaintext, STORE_HEADER);
    var blob := Seal(lib, passphrase, salt, nonce, v).value;
    assert blob[..|STORE_MAGIC|] == STORE_MAGIC;
    var start := |STORE_HEADER|;
    assert blob[start..start + STORE_SALT_BYTES] == salt;
    assert blob[start + STORE_SALT_BYTES..start + STORE_SALT_BYTES + STORE_NONCE_BYTES] == nonce;
    assert blob[start + STORE_SALT_BYTES + STORE_NONCE_BYTES..] == ciphertext;
  }

  /** Whatever `load` returns is JSON-normal, and its encoding is exactly what was decrypted. */
  lemma DecodedIsNormal(plaintext: Bytes)
    requires DecodePlaintext(plaintext).Ok?
    ensures Normal(DecodePlaintext(plaintext).value) && EncodeObject(DecodePlaintext(plaintext).value) == Ok(plaintext)
  {
    ReprintableIsNormal(plaintext);
  }

  /** What `load` makes of a plaintext that `save` encoded: the object reread, unless it no longer encodes the same. */
  lemma DecodeAfterEncode(v: Value)
    requires EncodeObject(v).Ok?
    ensures DecodePlaintext(EncodeObject(v).value) == Reloaded(v)
  {
    hide Reread, TextOrdered, Dumps;
    var plaintext := EncodeObject(v).value;
    var w := Reread(v);
    EncodedExactlyWhenEncodable(v);
    LoadBytesRereads(v, false);
    RereadsToDict(v);
    RereadIsNormal(v);
    NormalIsReread(w);
    DumpsScalar(v, false);
    DumpsScalar(w, false);
    PrintsAgainExactlyWhenTextOrdered(v, false);
    if DumpBytes(w, false) == Some(plaintext) {
      EncodeInjective(Dumps(w, false).value, Dumps(v, false).value);
    }
  }

  /**
   `load` after `save`, for every object that `save` accepts: it returns the object with its keys as text and
   its tuples as lists if every dictionary in it sorts its keys as their texts, and otherwise it raises.
   */
  lemma LoadAfterSave(lib: Calls, passphrase: Bytes, salt: Bytes, nonce: Bytes, v: Value)
    requires Lawful(lib) && |salt| == STORE_SALT_BYTES && |nonce| == STORE_NONCE_BYTES
    requires Seal(lib, passphrase, salt, nonce, v).Ok?
    ensures Open(lib, passphrase, Seal(lib, passphrase, salt, nonce, v).value)
            == if TextOrdered(v) then Ok(Reread(v)) else Err(StoreError)
  {
    OpenReachesThePlaintext(lib, passphrase, salt, nonce, v);
    DecodeAfterEncode(v);
  }

  /** `load` after `save` returns the saved object exactly when that object is JSON-normal. */
  lemma LoadReturnsExactlyNormalObjects(lib: Calls, passphrase: Bytes, salt: Bytes, nonce: Bytes, v: Value)
    requires Lawful(lib) && |salt| == STORE_SALT_BYTES && |nonce| == STORE_NONCE_BYTES
    requires Seal(lib, passphrase, salt, nonce, v).Ok?
    ensures Open(lib, passphrase, Seal(lib, passphrase, salt, nonce, v).value) == Ok(v) <==> Normal(v)
  {
    hide Open, Encodable, Reread, TextOrdered, Dumps;
    LoadAfterSave(lib, passphrase, salt, nonce, v);
    EncodedExactlyWhenEncodable(v);
    RereadIsNormal(v);
    if Normal(v) {
      NormalIsReread(v);
      NormalIsTextOrdered(v);
    }
  }

  /** `load` accepts only what some `save` of the loaded object under this passphrase sealed, up to the cipher. */
  lemma LoadedWasEncodedCanonically(lib: Calls, passphrase: Bytes, blob: Bytes)
    requires Open(lib, passphrase, blob).Ok?
    ensures var v := Open(lib, passphrase, blob).value;
            && Normal(v) && v.Dict? && EncodeObject(v).Ok?
            && STORE_HEADER <= blob
            && var ciphertextStart := STORE_FIXED_BYTES;
               lib.open(AesGcmSiv, lib.scrypt(passphrase, blob[|STORE_HEADER|..|STORE_HEADER| + STORE_SALT_BYTES]),
                        blob[|STORE_HEADER| + STORE_SALT_BYTES..ciphertextStart], blob[ciphertextStart..], STORE_HEADER)
               == Some(EncodeObject(v).value)
  {
    var plaintext := lib.open(AesGcmSiv, lib.scrypt(passphrase, blob[|STORE_HEADER|..|STORE_HEADER| + STORE_SALT_BYTES]),
                              blob[|STORE_HEADER| + STORE_SALT_BYTES..STORE_FIXED_BYTES], blob[STORE_FIXED_BYTES..], STORE_HEADER);
    assert STORE_HEADER <= blob;
    DecodedIsNormal(plaintext.value);
  }

  // ---------- saving and loading through crashes ----------

  /** A blob that loads as a save of this object does. */
  ghost predicate Carries(lib: Calls, passphrase: Bytes, blob: Bytes, obj: Value) {
    Open(lib, passphrase, blob) == Reloaded(obj)
  }

  /** A crash leaves contents that were possible before, or a file that loads as a save of this object. */
  ghost predicate Recovers(lib: Calls, passphrase: Bytes, before: Disk, d: Disk, path: Name, obj: Value) {
    forall c :: Survives(d, path, c) ==> Survives(before, path, c) || LoadFrom(lib, passphrase, c) == Reloaded(obj)
  }

  /** Every crash of this disk leaves a file that loads as a save of this object. */
  ghost predicate Holds(lib: Calls, passphrase: Bytes, d: Disk, path: Name, obj: Value) {
    forall c :: Survives(d, path, c) ==> LoadFrom(lib, passphrase, c) == Reloaded(obj)
  }

  /**
   What can happen to the file: a `save`, with the blob it made and whether it returned normally after syncing
   the directory; or a crash, after which the next step starts from a recovered disk.
   */
  datatype Step = Saving(obj: Value, blob: Bytes, settled: bool) | Crash

  /** The disk where a `save` stopped, be it by returning, by raising or because the machine did. */
  ghost predicate SaveEffect(path: Name, before: Disk, after: Disk, s: Step)
    requires s.Saving?
  {
    if s.settled then Settled(after, path, s.blob)
    else forall c :: Survives(after, path, c) ==> Survives(before, path, c) || c == Some(s.blob)
  }

  ghost predicate StepEffect(lib: Calls, passphrase: Bytes, path: Name, before: Disk, after: Disk, s: Step) {
    match s
    case Saving(obj, blob, _) => Carries(lib, passphrase, blob, obj) && SaveEffect(path, before, after, s)
    case Crash => Recovered(before, after)
  }

  /** Saves and crashes in any order; step k leads from disk k to disk k + 1. */
  ghost predicate History(lib: Calls, passphrase: Bytes, path: Name, disks: seq<Disk>, steps: seq<Step>) {
    && |disks| == |steps| + 1
    && forall k | 0 <= k < |steps| :: StepEffect(lib, passphrase, path, disks[k], disks[k + 1], steps[k])
  }

  /** Whatever state a crash catches `save` in, the history goes on as if that `save` had not returned. */
  lemma SafeStatesRecover(lib: Calls, passphrase: Bytes, history: seq<Disk>, start: nat, before: Disk,
                          path: Name, temporary: Name, blob: Bytes, obj: Value)
    requires Carries(lib, passphrase, blob, obj) && AllSafe(history, start, before, path, temporary, blob)
    ensures forall k | start <= k < |history| ::
              && Recovers(lib, passphrase, before, history[k], path, obj)
              && SaveEffect(path, before, history[k], Saving(obj, blob, false))
  {
    forall k | start <= k < |history|
      ensures Recovers(lib, passphrase, before, history[k], path, obj)
      ensures SaveEffect(path, before, history[k], Saving(obj, blob, false))
    {
      assert OldOrNew(before, history[k], path, temporary, blob);
    }
  }

  /** Some `save` from step k on saved what these contents load as. */
  ghost predicate LoadsAsOneOf(lib: Calls, passphrase: Bytes, c: Option<Bytes>, steps: seq<Step>, k: nat) {
    exists j | k <= j < |steps| :: steps[j].Saving? && LoadFrom(lib, passphrase, c) == Reloaded(steps[j].obj)
  }

  lemma HistoryFront(lib: Calls, passphrase: Bytes, path: Name, disks: seq<Disk>, steps: seq<Step>)
    requires History(lib, passphrase, path, disks, steps) && steps != []
    ensures History(lib, passphrase, path, disks[..|steps|], steps[..|steps| - 1])
  {
    hide StepEffect;
    forall k | 0 <= k < |steps| - 1
      ensures StepEffect(lib, passphrase, path, disks[..|steps|][k], disks[..|steps|][k + 1], steps[..|steps| - 1][k])
    {
      assert StepEffect(lib, passphrase, path, disks[k], disks[k + 1], steps[k]);
    }
  }

  /** What survives a step was saved by it, or survived before it. */
  lemma SurvivesStep(lib: Calls, passphrase: Bytes, path: Name, before: Disk, after: Disk, s: Step, c: Option<Bytes>)
    requires StepEffect(lib, passphrase, path, before, after, s) && Survives(after, path, c)
    ensures || (s.Saving? && LoadFrom(lib, passphrase, c) == Reloaded(s.obj))
            || (!(s.Saving? && s.settled) && Survives(before, path, c))
  {
    hide Open;
    if s.Crash? {
      RecoveryInventsNothing(before, after, path, c);
    }
  }

  /**
   Durability: once a `save` has synced the directory and returned, then through any saves and crashes that
   follow, however they end, the file loads as that `save` or as a later one.
   */
  lemma {:induction false} ReturnedSaveIsDurable(lib: Calls, passphrase: Bytes, path: Name, disks: seq<Disk>,
                                                 steps: seq<Step>, k: nat, c: Option<Bytes>)
    requires History(lib, passphrase, path, disks, steps)
    requires k < |steps| && steps[k].Saving? && steps[k].settled && Survives(disks[|steps|], path, c)
    ensures LoadsAsOneOf(lib, passphrase, c, steps, k)
  {
    hide StepEffect, Survives, LoadFrom, Reloaded;
    var n := |steps| - 1;
    SurvivesStep(lib, passphrase, path, disks[n], disks[n + 1], steps[n], c);
    if !(steps[n].Saving? && LoadFrom(lib, passphrase, c) == Reloaded(steps[n].obj)) {
      var front := steps[..n];
      HistoryFront(lib, passphrase, path, disks, steps);
      assert front[k] == steps[k] && disks[..n + 1][n] == disks[n];
      ReturnedSaveIsDurable(lib, passphrase, path, disks[..n + 1], front, k, c);
      var j :| k <= j < n && front[j].Saving? && LoadFrom(lib, passphrase, c) == Reloaded(front[j].obj);
      assert steps[j] == front[j];
    }
  }

  /** In particular that is what `load` returns at the end of the history. */
  lemma LoadAfterHistory(lib: Calls, passphrase: Bytes, path: Name, disks: seq<Disk>, steps: seq<Step>, k: nat)
    requires History(lib, passphrase, path, disks, steps) && WellFormed(disks[|steps|])
    requires k < |steps| && steps[k].Saving? && steps[k].settled
    ensures LoadsAsOneOf(lib, passphrase, Read(disks[|steps|], path), steps, k)
  {
    ReadSurvives(disks[|steps|], path);
    ReturnedSaveIsDurable(lib, passphrase, path, disks, steps, k, Read(disks[|steps|], path));
  }

  class EncryptedStore {
    const path: Name
    const passphrase: Bytes

    constructor (path: Name, passphrase: Bytes)
      requires ValidPassphrase(passphrase)
      ensures this.path == path && this.passphrase == passphrase
    {
      this.path := path;
      this.passphrase := passphrase;
    }

    /**
     `save`, with the outcome of every system call and the random salt and nonce as parameters. At every
     moment a crash leaves the old file or one that loads as `obj` does; after a normal return `load` gives
     that, and with a directory sync it does so after every later crash.
     */
    method Save(lib: Calls, v: Volume, obj: Value, salt: Bytes, nonce: Bytes, f: Faults) returns (r: Result<()>)
      requires Lawful(lib) && v.Valid()
      requires |salt| == STORE_SALT_BYTES && |nonce| == STORE_NONCE_BYTES
      modifies v
      ensures v.Valid() && v.descriptors == old(v.descriptors) && old(v.history) <= v.history
      ensures var blob := Seal(lib, passphrase, salt, nonce, obj);
              var free := TemporaryName(path, f.infix) !in old(v.disk.entries);
              if blob.Err? then r == Err(blob.error) && v.disk == old(v.disk) && v.history == old(v.history)
              else
                && (r.Ok? <==> f.Returns(free, v.posix))
                && (r.Err? ==> r.error == if f.EscapesHandler(free) then OsError else StoreError)
                && (!f.Replaces(free) ==> SameUnder(path, old(v.disk), v.disk))
                && (f.Replaces(free) ==> Read(v.disk, path) == Some(blob.value))
      ensures !TextKeyed(obj) ==> r == Err(TypeError) && v.disk == old(v.disk) && v.history == old(v.history)
      ensures r == Err(TypeError) ==> !TextKeyed(obj)
      ensures Seal(lib, passphrase, salt, nonce, obj).Ok? ==>
                var blob := Seal(lib, passphrase, salt, nonce, obj).value;
                && StepEffect(lib, passphrase, path, old(v.disk), v.disk, Saving(obj, blob, r.Ok? && v.posix))
                && (r.Ok? ==> LoadFrom(lib, passphrase, Read(v.disk, path)) == Reloaded(obj))
                && (r.Ok? && v.posix ==> Holds(lib, passphrase, v.disk, path, obj))
                && forall k | |old(v.history)| <= k < |v.history| ::
                     && Recovers(lib, passphrase, old(v.disk), v.history[k], path, obj)
                     && StepEffect(lib, passphrase, path, old(v.disk), v.history[k], Saving(obj, blob, false))
    {
      var plaintext := EncodeObject(obj);
      if plaintext.Err? {
        return Err(plaintext.error);
      }
      var key := lib.scrypt(passphrase, salt);
      var ciphertext := lib.seal(AesGcmSiv, key, nonce, plaintext.value, STORE_HEADER);
      var blob := STORE_HEADER + salt + nonce + ciphertext;
      ghost var before := v.disk;
      ghost var start := |v.history|;
      r := AtomicWriteBytes(v, path, blob, f);
      if r == Err(PersistenceError) {
        r := Err(StoreError);
      }
      LoadAfterSave(lib, passphrase, salt, nonce, obj);
      SafeStatesRecover(lib, passphrase, v.history, start, before, path, TemporaryName(path, f.infix), blob, obj);
    }

    /** `load`; `readable` says whether reading the file raises an OSError other than a missing file. */
    method Load(lib: Calls, v: Volume, readable: bool) returns (r: Result<Value>)
      ensures r == if readable then LoadFrom(lib, passphrase, Read(v.disk, path)) else Err(StoreError)
      ensures r.Ok? ==> r.value.Dict? && Normal(r.value)
    {
      var blob := Read(v.disk, path);
      if !readable || blob.None? {
        return Err(StoreError);
      }
      r := Open(lib, passphrase, blob.value);
      if r.Ok? {
        LoadedWasEncodedCanonically(lib, passphrase, blob.value);
      }
    }
  }

  /** `EncryptedStore(path, passphrase)` */
  method MakeStore(path: Name, passphrase: Bytes) returns (r: Result<EncryptedStore>)
    ensures r.Ok? <==> 16 <= |passphrase| <= 1024
    ensures r.Ok? ==> r.value.path == path && r.value.passphrase == passphrase
    ensures r.Err? ==> r == Err(ValueError)
  {
    if !ValidPassphrase(passphrase) {
      return Err(ValueError);
    }
    var store := new EncryptedStore(path, passphrase);
    r := Ok(store);
  }
}
