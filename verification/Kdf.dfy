/** The key schedule: every derivation is a concatenation handed to one library call. */
module Kdf {
  import opened Basics
  import opened Library
  import opened Payloads
  import opened Protocol
  import opened Utf8

  datatype Role = InitiatorRole | ResponderRole {
    function Name(): Bytes {
      match this
      case InitiatorRole => Ascii("initiator")
      case ResponderRole => Ascii("responder")
    }
  }

  const ROOT_INFO := Ascii("CypherSyntax/session-root/v1")
  const CONFIRMATION_PREFIX := Ascii("CypherSyntax/key-confirmation/v1|")
  const TRAFFIC_INFO := Ascii("CypherSyntax/traffic-secret/v1")
  const MESSAGE_INFO := Ascii("CypherSyntax/message-key/v1")

  function RootQuery(shared: Bytes, transcriptHash: Bytes, supplemental: Bytes): HkdfQuery {
    HkdfQuery(shared + supplemental, 32, Some(transcriptHash), ROOT_INFO)
  }

  /** `derive_session_root` */
  function SessionRoot(lib: Calls, shared: Bytes, transcriptHash: Bytes, supplemental: Bytes): Bytes {
    lib.hkdf(RootQuery(shared, transcriptHash, supplemental))
  }

  function ConfirmationInput(transcriptHash: Bytes, role: Role): Bytes {
    CONFIRMATION_PREFIX + role.Name() + Ascii("|") + transcriptHash
  }

  /** `derive_key_confirmation` */
  function KeyConfirmation(lib: Calls, root: Bytes, transcriptHash: Bytes, role: Role): Bytes {
    lib.hmac(root, ConfirmationInput(transcriptHash, role))
  }

  /** Who sends to whom, as the key schedule sees it. */
  datatype Direction = Direction(sender: Bytes, recipient: Bytes)

  function TrafficFields(suite: Suite, d: Direction): seq<Bytes> {
    [Encode(suite.Name()), d.sender, d.recipient]
  }

  /** The first HKDF call for a message; the public keys of a session are 32 bytes. */
  function TrafficQuery(root: Bytes, suite: Suite, d: Direction): HkdfQuery
    requires |d.sender| == 32 && |d.recipient| == 32
  {
    SuiteNameShort(suite);
    HkdfQuery(root, 32, None, TRAFFIC_INFO + JoinFields(TrafficFields(suite, d)))
  }

  function MessageQuery(secret: Bytes, sequence: nat): HkdfQuery {
    HkdfQuery(secret, 44, None, MESSAGE_INFO + BigEndian(sequence, 8))
  }

  datatype MessageKey = MessageKey(key: Bytes, nonce: Bytes)

  /** `derive_message_key`, once `validate_message_sequence` has passed. */
  function DeriveMessageKey(lib: Calls, root: Bytes, sequence: nat, suite: Suite, d: Direction): MessageKey
    requires LawfulHashes(lib)
    requires |d.sender| == 32 && |d.recipient| == 32
  {
    var secret := lib.hkdf(TrafficQuery(root, suite, d));
    var material := lib.hkdf(MessageQuery(secret, sequence));
    MessageKey(material[..32], material[32..44])
  }

  lemma SuiteNameShort(suite: Suite)
    ensures ScalarText(suite.Name()) && |Encode(suite.Name())| < 0x1_0000_0000
  {
    assert AsciiText(suite.Name());
    EncodeAscii(suite.Name());
  }

  lemma SuiteNamesDiffer(s: Suite, t: Suite)
    requires s.Name() == t.Name()
    ensures s == t
  {
  }

  /** The two roles never confirm with the same bytes, even on one transcript. */
  lemma RolesAreSeparated(h: Bytes, g: Bytes)
    ensures ConfirmationInput(h, InitiatorRole) != ConfirmationInput(g, ResponderRole)
  {
    var n := |CONFIRMATION_PREFIX|;
    assert InitiatorRole.Name()[0] == 'i' as int && ResponderRole.Name()[0] == 'r' as int;
    assert ConfirmationInput(h, InitiatorRole)[n] == 'i' as int;
    assert ConfirmationInput(g, ResponderRole)[n] == 'r' as int;
  }

  /** One traffic query comes from one root, suite and direction. */
  lemma TrafficQueryInjective(r: Bytes, s: Suite, d: Direction, q: Bytes, t: Suite, e: Direction)
    requires |d.sender| == |d.recipient| == |e.sender| == |e.recipient| == 32
    requires TrafficQuery(r, s, d) == TrafficQuery(q, t, e)
    ensures r == q && s == t && d == e
  {
    SuiteNameShort(s);
    SuiteNameShort(t);
    var a, b := TrafficFields(s, d), TrafficFields(t, e);
    AfterTag(TRAFFIC_INFO, JoinFields(a), JoinFields(b));
    JoinFieldsInjective(a, b);
    assert a[0] == b[0] && a[1] == b[1] && a[2] == b[2];
    EncodeInjective(s.Name(), t.Name());
    SuiteNamesDiffer(s, t);
  }

  /** One message query comes from one secret and sequence. */
  lemma MessageQueryInjective(secret: Bytes, i: nat, other: Bytes, j: nat)
    requires i <= MAX_MESSAGE_SEQUENCE && j <= MAX_MESSAGE_SEQUENCE
    requires MessageQuery(secret, i) == MessageQuery(other, j)
    ensures secret == other && i == j
  {
    AfterTag(MESSAGE_INFO, BigEndian(i, 8), BigEndian(j, 8));
    EightBytes();
    BigEndianRoundTrip(i, 8);
    BigEndianRoundTrip(j, 8);
  }

  /** No two different queries of the set give one output. */
  ghost predicate NoHkdfCollision(lib: Calls, queries: set<HkdfQuery>) {
    forall a, b | a in queries && b in queries :: lib.hkdf(a) == lib.hkdf(b) ==> a == b
  }

  /** The two HKDF calls behind one message key. */
  function MessageQueries(lib: Calls, root: Bytes, sequence: nat, suite: Suite, d: Direction): set<HkdfQuery>
    requires |d.sender| == 32 && |d.recipient| == 32
  {
    {TrafficQuery(root, suite, d), MessageQuery(lib.hkdf(TrafficQuery(root, suite, d)), sequence)}
  }

  /** Barring HKDF collisions, one key and nonce come from one root, suite, direction and sequence. */
  lemma MessageKeysAreSeparated(lib: Calls, queries: set<HkdfQuery>,
                                r: Bytes, i: nat, s: Suite, d: Direction,
                                q: Bytes, j: nat, t: Suite, e: Direction)
    requires LawfulHashes(lib) && NoHkdfCollision(lib, queries)
    requires i <= MAX_MESSAGE_SEQUENCE && j <= MAX_MESSAGE_SEQUENCE
    requires |d.sender| == |d.recipient| == |e.sender| == |e.recipient| == 32
    requires MessageQueries(lib, r, i, s, d) <= queries && MessageQueries(lib, q, j, t, e) <= queries
    requires DeriveMessageKey(lib, r, i, s, d) == DeriveMessageKey(lib, q, j, t, e)
    ensures r == q && i == j && s == t && d == e
  {
    var a, b := lib.hkdf(TrafficQuery(r, s, d)), lib.hkdf(TrafficQuery(q, t, e));
    var x, y := lib.hkdf(MessageQuery(a, i)), lib.hkdf(MessageQuery(b, j));
    assert x == x[..32] + x[32..44] && y == y[..32] + y[32..44];
    assert MessageQuery(a, i) in queries && MessageQuery(b, j) in queries;
    MessageQueryInjective(a, i, b, j);
    assert TrafficQuery(r, s, d) in queries && TrafficQuery(q, t, e) in queries;
    TrafficQueryInjective(r, s, d, q, t, e);
  }
}
