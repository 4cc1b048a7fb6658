/**
 The exact bytes of the key schedule: which label, which fields in which order and which width each derivation
 hands to the library, read back from its input, and how the output is cut.
 */
module KeySchedule {
  import opened Basics
  import opened Kdf
  import opened Library
  import opened Payloads
  import opened Utf8

  // ---------- big-endian numbers, digit by digit ----------

  /** The digit of weight 256 to the k. */
  function Digit(value: nat, k: nat): Byte {
    if k == 0 then value % 256 else Digit(value / 256, k - 1)
  }

  /** The most significant digit comes first. */
  lemma {:induction false} BigEndianDigit(value: nat, width: nat, i: nat)
    requires i < width
    ensures BigEndian(value, width)[i] == Digit(value, width - 1 - i)
  {
    if i < width - 1 {
      BigEndianDigit(value / 256, width - 1, i);
    }
  }

  /** The length prefix of a field shorter than 256 bytes. */
  lemma ShortPrefix(n: nat)
    requires n < 256
    ensures BigEndian(n, 4) == [0, 0, 0, n]
  {
    assert BigEndian(n, 1) == [n] && BigEndian(0, 3) == [0, 0, 0] by {
      assert BigEndian(0, 1) == [0] && BigEndian(0, 2) == [0, 0];
    }
  }

  // ---------- message keys ----------

  /** The suite's name with its length in front. */
  function SuiteField(suite: Suite): Bytes {
    match suite
    case AesGcmSiv => [0, 0, 0, 11] + Ascii("AES_GCM_SIV")
    case ChaCha20Poly1305 => [0, 0, 0, 17] + Ascii("CHACHA20_POLY1305")
  }

  /** The eight bytes of a sequence number. */
  function SequenceBytes(sequence: nat): (b: Bytes)
    ensures |b| == 8
  {
    seq(8, i requires 0 <= i < 8 => Digit(sequence, 7 - i))
  }

  lemma SuiteNameBytes(suite: Suite)
    ensures |Encode(suite.Name())| < 256 && EncodeField(Encode(suite.Name())) == SuiteField(suite)
  {
    hide EncodeField;
    SuiteNameIs(suite);
    AsciiBytes(suite.Name());
    match suite
    case AesGcmSiv => ShortField(Ascii("AES_GCM_SIV"));
    case ChaCha20Poly1305 => ShortField(Ascii("CHACHA20_POLY1305"));
  }

  lemma SuiteNameIs(suite: Suite)
    ensures AsciiText(suite.Name())
    ensures suite.Name() == match suite case AesGcmSiv => Ascii("AES_GCM_SIV") case ChaCha20Poly1305 => Ascii("CHACHA20_POLY1305")
  {
  }

  /** A field shorter than 256 bytes. */
  lemma ShortField(value: Bytes)
    requires |value| < 256
    ensures EncodeField(value) == [0, 0, 0, |value|] + value
  {
    ShortPrefix(|value|);
  }

  lemma {:induction false} AsciiBytes(t: Text)
    requires AsciiText(t)
    ensures Encode(t) == t
  {
    if t != [] {
      AsciiBytes(t[1..]);
    }
  }

  lemma SequenceIsBigEndian(sequence: nat)
    ensures BigEndian(sequence, 8) == SequenceBytes(sequence)
  {
    forall i | 0 <= i < 8
      ensures BigEndian(sequence, 8)[i] == SequenceBytes(sequence)[i]
    {
      BigEndianDigit(sequence, 8, i);
    }
  }

  /** The information string of the traffic secret: suite, sender and recipient behind their lengths. */
  function TrafficBytes(suite: Suite, sender: Bytes, recipient: Bytes): Bytes {
    Ascii("CypherSyntax/traffic-secret/v1") + SuiteField(suite) + ([0, 0, 0, 32] + sender) + ([0, 0, 0, 32] + recipient)
  }

  lemma TrafficBytesAre(root: Bytes, suite: Suite, d: Direction)
    requires |d.sender| == 32 && |d.recipient| == 32
    ensures TrafficQuery(root, suite, d) == HkdfQuery(root, 32, None, TrafficBytes(suite, d.sender, d.recipient))
  {
    hide EncodeField, SuiteField, Ascii, Encode;
    SuiteNameBytes(suite);
    ShortField(d.sender);
    ShortField(d.recipient);
    var fields := TrafficFields(suite, d);
    assert fields[1..] == [d.sender, d.recipient] && fields[1..][1..] == [d.recipient];
    assert JoinFields([d.recipient]) == EncodeField(d.recipient);
    assert JoinFields([d.sender, d.recipient]) == EncodeField(d.sender) + EncodeField(d.recipient);
  }

  /**
   A message key is the first 32 of the 44 bytes that HKDF expands from the traffic secret and the sequence's
   eight bytes, and its nonce the other 12; the traffic secret is the 32 bytes expanded from the root.
   */
  lemma MessageKeyIs(lib: Calls, root: Bytes, sequence: nat, suite: Suite, sender: Bytes, recipient: Bytes)
    requires LawfulHashes(lib) && |sender| == 32 && |recipient| == 32
    ensures var mk := DeriveMessageKey(lib, root, sequence, suite, Direction(sender, recipient));
            var secret := lib.hkdf(HkdfQuery(root, 32, None, TrafficBytes(suite, sender, recipient)));
            && |mk.key| == 32 && |mk.nonce| == 12
            && mk.key + mk.nonce
               == lib.hkdf(HkdfQuery(secret, 44, None, Ascii("CypherSyntax/message-key/v1") + SequenceBytes(sequence)))
  {
    hide TrafficBytes, SequenceBytes, Ascii, TrafficQuery;
    TrafficBytesAre(root, suite, Direction(sender, recipient));
    SequenceIsBigEndian(sequence);
    var secret := lib.hkdf(TrafficQuery(root, suite, Direction(sender, recipient)));
    var material := lib.hkdf(MessageQuery(secret, sequence));
    assert material == material[..32] + material[32..44];
  }

  // ---------- roots and confirmations ----------

  /** The root comes from the shared secret with the supplemental one behind it, salted with the transcript's hash. */
  lemma RootIs(lib: Calls, shared: Bytes, transcriptHash: Bytes, supplemental: Bytes)
    requires LawfulHashes(lib) && |shared| == 32
    ensures var q := RootQuery(shared, transcriptHash, supplemental);
            && SessionRoot(lib, shared, transcriptHash, supplemental) == lib.hkdf(q)
            && |lib.hkdf(q)| == 32 && q.secret[..32] == shared && q.secret[32..] == supplemental
            && q.salt == Some(transcriptHash) && q.info == Ascii("CypherSyntax/session-root/v1")
  {
  }

  lemma RoleNames()
    ensures InitiatorRole.Name() == Ascii("initiator") && ResponderRole.Name() == Ascii("responder")
  {
  }

  function ConfirmationBytes(role: string, transcriptHash: Bytes): Bytes {
    Ascii("CypherSyntax/key-confirmation/v1|") + Ascii(role) + Ascii("|") + transcriptHash
  }

  /** Each role confirms the root over its own name and the transcript's hash. */
  lemma ConfirmationIs(lib: Calls, root: Bytes, transcriptHash: Bytes)
    ensures KeyConfirmation(lib, root, transcriptHash, InitiatorRole)
            == lib.hmac(root, ConfirmationBytes("initiator", transcriptHash))
    ensures KeyConfirmation(lib, root, transcriptHash, ResponderRole)
            == lib.hmac(root, ConfirmationBytes("responder", transcriptHash))
  {
    RoleNames();
  }
}
