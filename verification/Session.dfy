/** An established session: encryption, decryption and the class that carries its state. */
module Session {
  import opened Basics
  import opened Kdf
  import opened Library
  import opened Protocol
  import opened Replay
  import opened Wire

  /** The fields of a SessionState, with the window as a value. */
  datatype SessionValue = SessionValue(
    localName: Text, remoteName: Text, suite: Suite, rootKey: Bytes,
    localEphemeral: Bytes, remoteEphemeral: Bytes, sendSequence: int, window: Window)

  const DEFAULT_WINDOW: nat := 1024

  /** X25519 public keys are 32 bytes. */
  predicate Keyed(s: SessionValue) {
    |s.localEphemeral| == 32 && |s.remoteEphemeral| == 32
  }

  /** The names of a session that a handshake established. */
  predicate Named(lib: Calls, s: SessionValue) {
    ValidName(lib, s.localName) && ValidName(lib, s.remoteName) && s.localName != s.remoteName
  }

  function Sending(s: SessionValue): Direction {
    Direction(s.localEphemeral, s.remoteEphemeral)
  }

  function Receiving(s: SessionValue): Direction {
    Direction(s.remoteEphemeral, s.localEphemeral)
  }

  // ---------- encryption ----------

  /** The envelope of the next message, before it has a ciphertext. */
  function NextEnvelope(s: SessionValue): Envelope {
    Envelope(PROTOCOL_VERSION, s.suite.Name(), s.localName, s.remoteName, s.sendSequence, [])
  }

  /** What the AEAD is given. */
  datatype SealInput = SealInput(suite: Suite, key: Bytes, nonce: Bytes, plaintext: Bytes, associated: Bytes)

  /** Everything `encrypt` does before it calls the AEAD. */
  function PrepareSeal(lib: Calls, s: SessionValue, plaintext: Bytes): Result<SealInput>
    requires Lawful(lib) && Keyed(s)
  {
    var legal := |plaintext| <= MAX_PLAINTEXT_BYTES;
    :- Need(legal, ValueError);
    :- Need(s.sendSequence <= MAX_MESSAGE_SEQUENCE, OverflowError);
    :- Need(ValidSequence(s.sendSequence), ValueError);
    var mk := DeriveMessageKey(lib, s.rootKey, s.sendSequence, s.suite, Sending(s));
    var associated :- AssociatedData(lib, NextEnvelope(s));
    Ok(SealInput(s.suite, mk.key, mk.nonce, plaintext, associated))
  }

  function Seal(lib: Calls, x: SealInput): Bytes {
    lib.seal(x.suite, x.key, x.nonce, x.plaintext, x.associated)
  }

  /** `encrypt`, as a function of the fields. */
  function Encrypted(lib: Calls, s: SessionValue, plaintext: Bytes): Result<Bytes>
    requires Lawful(lib) && Keyed(s)
  {
    var x :- PrepareSeal(lib, s, plaintext);
    ToBytes(lib, NextEnvelope(s).(ciphertext := Seal(lib, x)))
  }

  /** The fields afterwards: the sequence advances only on a normal return. */
  function AfterEncrypt(lib: Calls, s: SessionValue, plaintext: Bytes): SessionValue
    requires Lawful(lib) && Keyed(s)
  {
    if Encrypted(lib, s, plaintext).Ok? then s.(sendSequence := s.sendSequence + 1) else s
  }

  /** Exactly when `encrypt` returns a packet. */
  predicate CanEncrypt(lib: Calls, s: SessionValue, plaintext: Bytes) {
    |plaintext| <= MAX_PLAINTEXT_BYTES && ValidSequence(s.sendSequence) && Named(lib, s)
  }

  lemma SuiteNamesAreValid(suite: Suite)
    ensures ValidSuiteName(suite.Name())
  {
  }

  /**
   `encrypt` succeeds exactly for a legal plaintext, an unspent sequence and valid names, whatever the other
   fields hold. In particular nothing can fail once the AEAD has been called.
   */
  lemma EncryptSucceedsExactly(lib: Calls, s: SessionValue, plaintext: Bytes)
    requires Lawful(lib) && Keyed(s)
    ensures PrepareSeal(lib, s, plaintext).Ok? <==> CanEncrypt(lib, s, plaintext)
    ensures PrepareSeal(lib, s, plaintext).Ok? ==> Encrypted(lib, s, plaintext).Ok?
  {
    SuiteNamesAreValid(s.suite);
    var e := NextEnvelope(s);
    if ValidMetadata(lib, e) {
      AssociatedDataInjective(lib, e, e);
    }
    var x := PrepareSeal(lib, s, plaintext);
    if x.Ok? {
      FromBytesInvertsToBytes(lib, e.(ciphertext := Seal(lib, x.value)));
    }
  }

  // ---------- decryption ----------

  /** Parsing and the four field checks of `decrypt`. */
  function ReadEnvelope(lib: Calls, s: SessionValue, blob: Bytes): Result<Envelope> {
    var e :- FromBytes(lib, blob);
    :- Need(e.version == PROTOCOL_VERSION, ValueError);
    :- Need(e.suite == s.suite.Name(), ValueError);
    :- Need(e.recipient == s.localName, ValueError);
    :- Need(e.sender == s.remoteName, ValueError);
    Ok(e)
  }

  /** The closure that `decrypt` hands to the window. */
  function Authenticate(lib: Calls, s: SessionValue, e: Envelope): Result<Bytes>
    requires Lawful(lib) && Keyed(s) && ValidEnvelope(lib, e)
  {
    var mk := DeriveMessageKey(lib, s.rootKey, e.sequence, s.suite, Receiving(s));
    var associated :- AssociatedData(lib, e);
    match lib.open(s.suite, mk.key, mk.nonce, e.ciphertext, associated)
    case Some(plaintext) => Ok(plaintext)
    case None => Err(InvalidTag)
  }

  lemma ReadEnvelopeIsValid(lib: Calls, s: SessionValue, blob: Bytes)
    ensures ReadEnvelope(lib, s, blob).Ok? ==>
              var e := ReadEnvelope(lib, s, blob).value;
              ValidEnvelope(lib, e) && ToBytes(lib, e) == Ok(blob) && e.sender == s.remoteName && e.recipient == s.localName
  {
    FromBytesAcceptsExactlyTheImage(lib, blob);
  }

  /** `decrypt`, as a function of the fields. */
  function Decrypted(lib: Calls, s: SessionValue, blob: Bytes): Result<Bytes>
    requires Lawful(lib) && Keyed(s)
  {
    ReadEnvelopeIsValid(lib, s, blob);
    var e :- ReadEnvelope(lib, s, blob);
    match Check(s.window, e.sequence)
    case Fail(error) => Err(error)
    case Pass => Authenticate(lib, s, e)
  }

  /** The fields afterwards: only a normal return records the sequence. */
  function AfterDecrypt(lib: Calls, s: SessionValue, blob: Bytes): SessionValue
    requires Lawful(lib) && Keyed(s)
  {
    if Decrypted(lib, s, blob).Ok? then
      s.(window := Record(s.window, ReadEnvelope(lib, s, blob).value.sequence))
    else s
  }

  /** The delivery that the window sees, if the blob gets that far. It does not depend on the window. */
  function AttemptOf(lib: Calls, s: SessionValue, blob: Bytes): Option<Attempt>
    requires Lawful(lib) && Keyed(s)
  {
    ReadEnvelopeIsValid(lib, s, blob);
    match ReadEnvelope(lib, s, blob)
    case Err(_) => None
    case Ok(e) => Some(Attempt(e.sequence, Authenticate(lib, s, e).Ok?))
  }

  /** Decryption is the window's decision on the attempt. */
  lemma DecryptIsWindowStep(lib: Calls, s: SessionValue, blob: Bytes)
    requires Lawful(lib) && Keyed(s)
    ensures var a := AttemptOf(lib, s, blob);
            && (Decrypted(lib, s, blob).Ok? <==> a.Some? && Accepts(s.window, a.value))
            && AfterDecrypt(lib, s, blob) == s.(window := if a.Some? then Step(s.window, a.value) else s.window)
  {
  }

  // ---------- rejected traffic ----------

  function AfterAll(lib: Calls, s: SessionValue, blobs: seq<Bytes>): (r: SessionValue)
    requires Lawful(lib) && Keyed(s)
    ensures r == s.(window := r.window)
  {
    if blobs == [] then s
    else AfterDecrypt(lib, AfterAll(lib, s, blobs[..|blobs| - 1]), blobs[|blobs| - 1])
  }

  datatype Receipt = Receipt(blob: Bytes, plaintext: Bytes)

  /** The accepted deliveries of a run with what they returned, in order. */
  function Receipts(lib: Calls, s: SessionValue, blobs: seq<Bytes>): seq<Receipt>
    requires Lawful(lib) && Keyed(s)
  {
    if blobs == [] then []
    else
      var last := blobs[|blobs| - 1];
      var r := Decrypted(lib, AfterAll(lib, s, blobs[..|blobs| - 1]), last);
      Receipts(lib, s, blobs[..|blobs| - 1]) + if r.Ok? then [Receipt(last, r.value)] else []
  }

  function Blobs(deliveries: seq<Receipt>): (r: seq<Bytes>)
    ensures |r| == |deliveries|
    ensures forall i | 0 <= i < |r| :: r[i] == deliveries[i].blob
  {
    if deliveries == [] then [] else Blobs(deliveries[..|deliveries| - 1]) + [deliveries[|deliveries| - 1].blob]
  }

  /** Deleting every rejected blob leaves the final fields and every accepted result as they were. */
  lemma {:induction false} RejectedTrafficDoesNotInterfere(lib: Calls, s: SessionValue, blobs: seq<Bytes>)
    requires Lawful(lib) && Keyed(s)
    ensures var kept := Blobs(Receipts(lib, s, blobs));
            && AfterAll(lib, s, kept) == AfterAll(lib, s, blobs)
            && Receipts(lib, s, kept) == Receipts(lib, s, blobs)
  {
    if blobs != [] {
      var front := blobs[..|blobs| - 1];
      var last := blobs[|blobs| - 1];
      RejectedTrafficDoesNotInterfere(lib, s, front);
      var before := Receipts(lib, s, front);
      var r := Decrypted(lib, AfterAll(lib, s, front), last);
      if r.Ok? {
        var all := before + [Receipt(last, r.value)];
        assert all[..|all| - 1] == before;
        assert Blobs(all)[..|all| - 1] == Blobs(before);
      } else {
        assert before + [] == before;
      }
    }
  }

  // ---------- the class ----------

  /** One AEAD call: the sequence it was made for and its input. */
  datatype Sealing = Sealing(sequence: int, input: SealInput)

  class SessionState {
    var localName: Text
    var remoteName: Text
    var suite: Suite
    var rootKey: Bytes
    var localEphemeral: Bytes
    var remoteEphemeral: Bytes
    var sendSequence: int
    const replayWindow: ReplayWindow
    ghost var sealed: seq<Sealing> // every AEAD encryption this object ever made

    function Value(): SessionValue
      reads this, replayWindow
    {
      SessionValue(localName, remoteName, suite, rootKey, localEphemeral, remoteEphemeral, sendSequence,
                   replayWindow.State())
    }

    /** The n-th AEAD call was made for sequence n with the key and nonce of that sequence. */
    ghost predicate Valid(lib: Calls)
      reads this, replayWindow
    {
      && LawfulHashes(lib)
      && replayWindow.Valid()
      && Keyed(Value())
      && sendSequence == |sealed|
      && |sealed| <= MAX_MESSAGE_SEQUENCE + 1
      && forall n | 0 <= n < |sealed| ::
           var mk := DeriveMessageKey(lib, rootKey, n, suite, Sending(Value()));
           sealed[n].sequence == n && sealed[n].input.key == mk.key && sealed[n].input.nonce == mk.nonce
    }

    constructor (lib: Calls, localName: Text, remoteName: Text, suite: Suite, rootKey: Bytes,
                 localEphemeral: Bytes, remoteEphemeral: Bytes)
      requires LawfulHashes(lib) && |localEphemeral| == 32 && |remoteEphemeral| == 32
      ensures Valid(lib) && fresh(replayWindow) && sealed == [] && replayWindow.accepted == []
      ensures Value() == SessionValue(localName, remoteName, suite, rootKey, localEphemeral, remoteEphemeral, 0,
                                      Fresh(DEFAULT_WINDOW))
    {
      this.localName, this.remoteName, this.suite := localName, remoteName, suite;
      this.rootKey, this.localEphemeral, this.remoteEphemeral := rootKey, localEphemeral, remoteEphemeral;
      sendSequence := 0;
      replayWindow := new ReplayWindow(DEFAULT_WINDOW);
      sealed := [];
    }

    /**
     A failing call has made no AEAD encryption; a succeeding one has made exactly one and has advanced the
     sequence past it. With `Valid`, no key and nonce of this direction is ever used for two plaintexts.
     */
    method Encrypt(lib: Calls, plaintext: Bytes) returns (r: Result<Bytes>)
      requires Lawful(lib) && Valid(lib)
      modifies this
      ensures Valid(lib)
      ensures r == Encrypted(lib, old(Value()), plaintext)
      ensures r.Ok? <==> CanEncrypt(lib, old(Value()), plaintext)
      ensures Value() == AfterEncrypt(lib, old(Value()), plaintext)
      ensures r.Err? ==> sealed == old(sealed)
      ensures r.Ok? ==> sealed == old(sealed) + [Sealing(old(sendSequence), PrepareSeal(lib, old(Value()), plaintext).value)]
    {
      ghost var before := Value();
      EncryptSucceedsExactly(lib, before, plaintext);
      if |plaintext| > MAX_PLAINTEXT_BYTES {
        return Err(ValueError);
      }
      if sendSequence > MAX_MESSAGE_SEQUENCE {
        return Err(OverflowError);
      }
      var sequence := sendSequence;
      var envelope := Envelope(PROTOCOL_VERSION, suite.Name(), localName, remoteName, sequence, []);
      var mk := DeriveMessageKey(lib, rootKey, sequence, suite, Direction(localEphemeral, remoteEphemeral));
      var associated := AssociatedData(lib, envelope);
      if associated.Err? {
        return Err(associated.error);
      }
      var input := SealInput(suite, mk.key, mk.nonce, plaintext, associated.value);
      var ciphertext := Seal(lib, input);
      sealed := sealed + [Sealing(sequence, input)];
      envelope := envelope.(ciphertext := ciphertext);
      r := ToBytes(lib, envelope); // succeeds, as EncryptSucceedsExactly has shown
      sendSequence := sendSequence + 1;
    }

    /** State changes only through the window, and only on a normal return. */
    method Decrypt(lib: Calls, blob: Bytes) returns (r: Result<Bytes>)
      requires Lawful(lib) && Valid(lib)
      modifies replayWindow
      ensures Valid(lib)
      ensures r == Decrypted(lib, old(Value()), blob)
      ensures Value() == AfterDecrypt(lib, old(Value()), blob)
      ensures replayWindow.accepted ==
              if r.Ok? then old(replayWindow.accepted) + [ReadEnvelope(lib, old(Value()), blob).value.sequence]
              else old(replayWindow.accepted)
    {
      hide FromBytes, ToBytes, AssociatedData, DeriveMessageKey, Authenticate, ReadEnvelope, ValidEnvelope;
      var value := Value();
      ReadEnvelopeIsValid(lib, value, blob);
      var envelope := ReadEnvelope(lib, value, blob);
      if envelope.Err? {
        return Err(envelope.error);
      }
      var e := envelope.value;
      r := replayWindow.AuthenticateAndRecord(e.sequence, () => Authenticate(lib, value, e));
    }
  }
}
