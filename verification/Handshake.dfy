/** The three handshake messages and their canonical codecs. */
module Handshake {
  import opened Basics
  import opened Digits
  import opened Json
  import opened JsonBytes
  import opened Library
  import opened Protocol

  const MAX_HANDSHAKE_MESSAGE_BYTES: int := 4096

  /** HandshakeOffer */
  datatype Offer = Offer(
    version: int, suite: Text, initiator: Text, responder: Text,
    initiatorEphemeral: Bytes, initiatorSigning: Bytes, signature: Bytes)

  /** HandshakeResponse */
  datatype Response = Response(
    version: int, suite: Text, initiator: Text, responder: Text,
    initiatorEphemeral: Bytes, initiatorSigning: Bytes,
    responderEphemeral: Bytes, responderSigning: Bytes,
    responderConfirmation: Bytes, signature: Bytes)

  /** HandshakeConfirmation */
  datatype Confirmation = Confirmation(
    version: int, suite: Text, initiator: Text, responder: Text,
    initiatorEphemeral: Bytes, responderEphemeral: Bytes,
    initiatorConfirmation: Bytes, signature: Bytes)

  // ---------- the checks of __post_init__ ----------

  /** `AeadSuite(name)`; None where it raises ValueError. */
  function SuiteOf(name: Text): Option<Suite> {
    if name == AesGcmSiv.Name() then Some(AesGcmSiv)
    else if name == ChaCha20Poly1305.Name() then Some(ChaCha20Poly1305)
    else None
  }

  predicate ValidTerms(lib: Calls, version: int, suite: Text, initiator: Text, responder: Text) {
    && version == PROTOCOL_VERSION
    && SuiteOf(suite).Some?
    && ValidName(lib, initiator)
    && ValidName(lib, responder)
    && initiator != responder
  }

  /** `_validate_offer_fields` */
  predicate ValidOfferFields(lib: Calls, o: Offer) {
    && ValidTerms(lib, o.version, o.suite, o.initiator, o.responder)
    && |o.initiatorEphemeral| == 32
    && |o.initiatorSigning| == 32
  }

  predicate ValidOffer(lib: Calls, o: Offer) {
    ValidOfferFields(lib, o) && |o.signature| == 64
  }

  predicate ValidResponse(lib: Calls, r: Response) {
    && ValidTerms(lib, r.version, r.suite, r.initiator, r.responder)
    && |r.initiatorEphemeral| == 32
    && |r.initiatorSigning| == 32
    && |r.responderEphemeral| == 32
    && r.responderEphemeral != r.initiatorEphemeral
    && |r.responderSigning| == 32
    && |r.responderConfirmation| == 32
    && |r.signature| == 64
  }

  predicate ValidConfirmation(lib: Calls, c: Confirmation) {
    && ValidTerms(lib, c.version, c.suite, c.initiator, c.responder)
    && |c.initiatorEphemeral| == 32
    && |c.responderEphemeral| == 32
    && c.responderEphemeral != c.initiatorEphemeral
    && |c.initiatorConfirmation| == 32
    && |c.signature| == 64
  }

  /** HandshakeResponse.validate_for_offer raises ValueError unless this holds. */
  predicate ResponseFitsOffer(r: Response, o: Offer) {
    && r.version == o.version
    && r.suite == o.suite
    && r.initiator == o.initiator
    && r.responder == o.responder
    && r.initiatorEphemeral == o.initiatorEphemeral
    && r.initiatorSigning == o.initiatorSigning
  }

  /** HandshakeConfirmation.validate_for_response raises ValueError unless this holds. */
  predicate ConfirmationFitsResponse(c: Confirmation, r: Response) {
    && c.version == r.version
    && c.suite == r.suite
    && c.initiator == r.initiator
    && c.responder == r.responder
    && c.initiatorEphemeral == r.initiatorEphemeral
    && c.responderEphemeral == r.responderEphemeral
  }

  /** HandshakeResponse.from_offer, before the checks of the constructor. */
  function FromOffer(o: Offer, ephemeral: Bytes, signing: Bytes, confirmation: Bytes, signature: Bytes): Response {
    Response(o.version, o.suite, o.initiator, o.responder, o.initiatorEphemeral, o.initiatorSigning,
             ephemeral, signing, confirmation, signature)
  }

  // ---------- dictionaries ----------

  const KIND := StrKey(Lit("kind"))
  const VERSION := StrKey(Lit("v"))
  const SUITE := StrKey(Lit("suite"))
  const INITIATOR := StrKey(Lit("initiator"))
  const RESPONDER := StrKey(Lit("responder"))
  const SIGNATURE := StrKey(Lit("signature"))
  const INITIATOR_EPHEMERAL := StrKey(Lit("initiator_ephemeral_public_key"))
  const INITIATOR_SIGNING := StrKey(Lit("initiator_signing_public_key"))
  const RESPONDER_EPHEMERAL := StrKey(Lit("responder_ephemeral_public_key"))
  const RESPONDER_SIGNING := StrKey(Lit("responder_signing_public_key"))
  const RESPONDER_CONFIRMATION := StrKey(Lit("responder_key_confirmation"))
  const INITIATOR_CONFIRMATION := StrKey(Lit("initiator_key_confirmation"))

  const OFFER_KIND := Lit("offer")
  const RESPONSE_KIND := Lit("response")
  const CONFIRMATION_KIND := Lit("confirmation")

  const COMMON_FIELDS: set<Key> := {KIND, VERSION, SUITE, INITIATOR, RESPONDER, SIGNATURE}
  const OFFER_FIELDS: set<Key> := COMMON_FIELDS + {INITIATOR_EPHEMERAL, INITIATOR_SIGNING}
  const RESPONSE_FIELDS: set<Key> := OFFER_FIELDS + {RESPONDER_EPHEMERAL, RESPONDER_SIGNING, RESPONDER_CONFIRMATION}
  const CONFIRMATION_FIELDS: set<Key> :=
    COMMON_FIELDS + {INITIATOR_EPHEMERAL, RESPONDER_EPHEMERAL, INITIATOR_CONFIRMATION}

  function CommonEntries(kind: Text, version: int, suite: Text, initiator: Text, responder: Text, signature: Bytes)
    : map<Key, Value>
  {
    map[KIND := Str(kind), VERSION := Int(version), SUITE := Str(suite), INITIATOR := Str(initiator),
        RESPONDER := Str(responder), SIGNATURE := Str(Hex(signature))]
  }

  function OfferEntries(o: Offer): map<Key, Value> {
    CommonEntries(OFFER_KIND, o.version, o.suite, o.initiator, o.responder, o.signature)
    + map[INITIATOR_EPHEMERAL := Str(Hex(o.initiatorEphemeral)), INITIATOR_SIGNING := Str(Hex(o.initiatorSigning))]
  }

  function ResponseEntries(r: Response): map<Key, Value> {
    CommonEntries(RESPONSE_KIND, r.version, r.suite, r.initiator, r.responder, r.signature)
    + map[INITIATOR_EPHEMERAL := Str(Hex(r.initiatorEphemeral)), INITIATOR_SIGNING := Str(Hex(r.initiatorSigning)),
          RESPONDER_EPHEMERAL := Str(Hex(r.responderEphemeral)), RESPONDER_SIGNING := Str(Hex(r.responderSigning)),
          RESPONDER_CONFIRMATION := Str(Hex(r.responderConfirmation))]
  }

  function ConfirmationEntries(c: Confirmation): map<Key, Value> {
    CommonEntries(CONFIRMATION_KIND, c.version, c.suite, c.initiator, c.responder, c.signature)
    + map[INITIATOR_EPHEMERAL := Str(Hex(c.initiatorEphemeral)), RESPONDER_EPHEMERAL := Str(Hex(c.responderEphemeral)),
          INITIATOR_CONFIRMATION := Str(Hex(c.initiatorConfirmation))]
  }

  // ---------- codecs ----------

  /** `_encode_message` */
  function EncodeMessage(payload: map<Key, Value>): Result<Bytes> {
    var encoded := DumpBytes(Dict(payload), false);
    :- Need(encoded.Some?, ValueError);
    :- Need(|encoded.value| <= MAX_HANDSHAKE_MESSAGE_BYTES, HandshakeError);
    Ok(encoded.value)
  }

  /** `_parse_message` */
  function ParseMessage(data: Bytes, kind: Text, fields: set<Key>): (r: Result<map<Key, Value>>)
    ensures r.Ok? ==> r.value.Keys == fields
  {
    var bounded := data != [] && |data| <= MAX_HANDSHAKE_MESSAGE_BYTES;
    :- Need(bounded, HandshakeError);
    var raw := LoadBytes(data);
    :- Need(raw.Some? && raw.value.Dict?, HandshakeError);
    var entries := raw.value.entries;
    :- Need(KIND in entries ==> entries[KIND] == Str(kind), HandshakeError);
    :- Need(entries.Keys == fields, HandshakeError);
    Ok(entries)
  }

  /** `_decode_hex` */
  function DecodeHex(v: Value, length: nat): (r: Result<Bytes>)
    ensures r.Ok? ==> |r.value| == length
  {
    var canonical := v.Str? && |v.text| == 2 * length && HexText(v.text);
    :- Need(canonical, HandshakeError);
    Ok(FromHex(v.text))
  }

  /** The values that every kind shares, with the types its constructor checks. */
  predicate TypedTerms(m: map<Key, Value>) {
    && COMMON_FIELDS <= m.Keys
    && m[VERSION].Int? && m[SUITE].Str? && m[INITIATOR].Str? && m[RESPONDER].Str?
  }

  function OfferFromEntries(lib: Calls, m: map<Key, Value>): Result<Offer>
    requires m.Keys == OFFER_FIELDS
  {
    var ephemeral :- DecodeHex(m[INITIATOR_EPHEMERAL], 32);
    var signing :- DecodeHex(m[INITIATOR_SIGNING], 32);
    var signature :- DecodeHex(m[SIGNATURE], 64);
    :- Need(TypedTerms(m), HandshakeError);
    var o := Offer(m[VERSION].number, m[SUITE].text, m[INITIATOR].text, m[RESPONDER].text,
                   ephemeral, signing, signature);
    :- Need(ValidOffer(lib, o), HandshakeError);
    Ok(o)
  }

  function ResponseFromEntries(lib: Calls, m: map<Key, Value>): Result<Response>
    requires m.Keys == RESPONSE_FIELDS
  {
    var initiatorEphemeral :- DecodeHex(m[INITIATOR_EPHEMERAL], 32);
    var initiatorSigning :- DecodeHex(m[INITIATOR_SIGNING], 32);
    var responderEphemeral :- DecodeHex(m[RESPONDER_EPHEMERAL], 32);
    var responderSigning :- DecodeHex(m[RESPONDER_SIGNING], 32);
    var confirmation :- DecodeHex(m[RESPONDER_CONFIRMATION], 32);
    var signature :- DecodeHex(m[SIGNATURE], 64);
    :- Need(TypedTerms(m), HandshakeError);
    var r := Response(m[VERSION].number, m[SUITE].text, m[INITIATOR].text, m[RESPONDER].text,
                      initiatorEphemeral, initiatorSigning, responderEphemeral, responderSigning,
                      confirmation, signature);
    :- Need(ValidResponse(lib, r), HandshakeError);
    Ok(r)
  }

  function ConfirmationFromEntries(lib: Calls, m: map<Key, Value>): Result<Confirmation>
    requires m.Keys == CONFIRMATION_FIELDS
  {
    var initiatorEphemeral :- DecodeHex(m[INITIATOR_EPHEMERAL], 32);
    var responderEphemeral :- DecodeHex(m[RESPONDER_EPHEMERAL], 32);
    var confirmation :- DecodeHex(m[INITIATOR_CONFIRMATION], 32);
    var signature :- DecodeHex(m[SIGNATURE], 64);
    :- Need(TypedTerms(m), HandshakeError);
    var c := Confirmation(m[VERSION].number, m[SUITE].text, m[INITIATOR].text, m[RESPONDER].text,
                          initiatorEphemeral, responderEphemeral, confirmation, signature);
    :- Need(ValidConfirmation(lib, c), HandshakeError);
    Ok(c)
  }

  function OfferToBytes(o: Offer): Result<Bytes> {
    EncodeMessage(OfferEntries(o))
  }

  function OfferFromBytes(lib: Calls, data: Bytes): Result<Offer> {
    var m :- ParseMessage(data, OFFER_KIND, OFFER_FIELDS);
    var o :- OfferFromEntries(lib, m);
    :- Need(OfferToBytes(o) == Ok(data), HandshakeError);
    Ok(o)
  }

  function ResponseToBytes(r: Response): Result<Bytes> {
    EncodeMessage(ResponseEntries(r))
  }

  function ResponseFromBytes(lib: Calls, data: Bytes): Result<Response> {
    var m :- ParseMessage(data, RESPONSE_KIND, RESPONSE_FIELDS);
    var r :- ResponseFromEntries(lib, m);
    :- Need(ResponseToBytes(r) == Ok(data), HandshakeError);
    Ok(r)
  }

  function ConfirmationToBytes(c: Confirmation): Result<Bytes> {
    EncodeMessage(ConfirmationEntries(c))
  }

  function ConfirmationFromBytes(lib: Calls, data: Bytes): Result<Confirmation> {
    var m :- ParseMessage(data, CONFIRMATION_KIND, CONFIRMATION_FIELDS);
    var c :- ConfirmationFromEntries(lib, m);
    :- Need(ConfirmationToBytes(c) == Ok(data), HandshakeError);
    Ok(c)
  }
}
