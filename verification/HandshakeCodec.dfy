/** The handshake codecs are mutually inverse, disjoint between kinds, and never too long. */
module HandshakeCodec {
  import opened Basics
  import opened Digits
  import opened Handshake
  import opened Json
  import opened JsonBytes
  import opened Library
  import opened Protocol
  import opened Utf8

  // ---------- field names ----------

  const ALL_FIELDS: set<Key> := RESPONSE_FIELDS + CONFIRMATION_FIELDS

  lemma FieldNamesDiffer()
    ensures |KIND.text| == 4 && |VERSION.text| == 1 && |SUITE.text| == 5
    ensures |INITIATOR.text| == |RESPONDER.text| == |SIGNATURE.text| == 9
    ensures INITIATOR.text[0] == 'i' as int && RESPONDER.text[0] == 'r' as int && SIGNATURE.text[0] == 's' as int
    ensures |INITIATOR_EPHEMERAL.text| == |RESPONDER_EPHEMERAL.text| == 30
    ensures INITIATOR_EPHEMERAL.text[0] == 'i' as int && RESPONDER_EPHEMERAL.text[0] == 'r' as int
    ensures |INITIATOR_SIGNING.text| == |RESPONDER_SIGNING.text| == 28
    ensures INITIATOR_SIGNING.text[0] == 'i' as int && RESPONDER_SIGNING.text[0] == 'r' as int
    ensures |INITIATOR_CONFIRMATION.text| == |RESPONDER_CONFIRMATION.text| == 26
    ensures INITIATOR_CONFIRMATION.text[0] == 'i' as int && RESPONDER_CONFIRMATION.text[0] == 'r' as int
  {
  }

  /** Every character of the key lies between underscore and z. */
  predicate NameKey(k: Key) {
    k.StrKey? && forall i | 0 <= i < |k.text| :: 95 <= k.text[i] <= 122
  }

  predicate PlainKey(k: Key) {
    k.StrKey? && PlainText(k.text) && ScalarText(k.text)
  }

  lemma CommonNames()
    ensures NameKey(KIND) && NameKey(VERSION) && NameKey(SUITE)
    ensures NameKey(INITIATOR) && NameKey(RESPONDER) && NameKey(SIGNATURE)
  {
  }

  lemma LiteralName(s: string)
    requires forall i | 0 <= i < |s| :: '_' <= s[i] <= 'z'
    ensures NameKey(StrKey(Lit(s)))
  {
  }

  lemma InitiatorNames()
    ensures NameKey(INITIATOR_EPHEMERAL) && NameKey(INITIATOR_SIGNING) && NameKey(INITIATOR_CONFIRMATION)
  {
    hide NameKey, Lit;
    LiteralName("initiator_ephemeral_public_key");
    LiteralName("initiator_signing_public_key");
    LiteralName("initiator_key_confirmation");
  }

  lemma ResponderNames()
    ensures NameKey(RESPONDER_EPHEMERAL) && NameKey(RESPONDER_SIGNING) && NameKey(RESPONDER_CONFIRMATION)
  {
    hide NameKey, Lit;
    LiteralName("responder_ephemeral_public_key");
    LiteralName("responder_signing_public_key");
    LiteralName("responder_key_confirmation");
  }

  lemma FieldNamesPlain()
    ensures forall k | k in ALL_FIELDS :: PlainKey(k)
  {
    CommonNames();
    InitiatorNames();
    ResponderNames();
    assert forall k | k in ALL_FIELDS :: NameKey(k);
  }

  lemma KindsPlain()
    ensures PlainText(OFFER_KIND) && PlainText(RESPONSE_KIND) && PlainText(CONFIRMATION_KIND)
    ensures |OFFER_KIND| == 5 && |RESPONSE_KIND| == 8 && |CONFIRMATION_KIND| == 12
  {
  }

  lemma SuitesPlain(name: Text)
    requires SuiteOf(name).Some?
    ensures PlainText(name) && ScalarText(name) && |name| <= 17
  {
  }

  // ---------- lookups in the printed dictionaries ----------

  predicate HoldsTerms(m: map<Key, Value>, kind: Text, version: int, suite: Text, initiator: Text, responder: Text,
                       signature: Bytes)
  {
    && COMMON_FIELDS <= m.Keys
    && m[KIND] == Str(kind) && m[VERSION] == Int(version) && m[SUITE] == Str(suite)
    && m[INITIATOR] == Str(initiator) && m[RESPONDER] == Str(responder) && m[SIGNATURE] == Str(Hex(signature))
  }

  predicate HoldsHex(m: map<Key, Value>, k: Key, b: Bytes) {
    k in m && m[k] == Str(Hex(b))
  }

  lemma CommonEntriesHold(kind: Text, version: int, suite: Text, initiator: Text, responder: Text, signature: Bytes)
    ensures var m := CommonEntries(kind, version, suite, initiator, responder, signature);
            HoldsTerms(m, kind, version, suite, initiator, responder, signature) && m.Keys == COMMON_FIELDS
  {
    FieldNamesDiffer();
  }

  lemma OfferEntriesHold(o: Offer)
    ensures var m := OfferEntries(o);
            && m.Keys == OFFER_FIELDS
            && HoldsTerms(m, OFFER_KIND, o.version, o.suite, o.initiator, o.responder, o.signature)
            && HoldsHex(m, INITIATOR_EPHEMERAL, o.initiatorEphemeral)
            && HoldsHex(m, INITIATOR_SIGNING, o.initiatorSigning)
  {
    FieldNamesDiffer();
    hide Lit, Hex;
    CommonEntriesHold(OFFER_KIND, o.version, o.suite, o.initiator, o.responder, o.signature);
  }

  lemma ResponseEntriesHold(r: Response)
    ensures var m := ResponseEntries(r);
            && m.Keys == RESPONSE_FIELDS
            && HoldsTerms(m, RESPONSE_KIND, r.version, r.suite, r.initiator, r.responder, r.signature)
            && HoldsHex(m, INITIATOR_EPHEMERAL, r.initiatorEphemeral)
            && HoldsHex(m, INITIATOR_SIGNING, r.initiatorSigning)
            && HoldsHex(m, RESPONDER_EPHEMERAL, r.responderEphemeral)
            && HoldsHex(m, RESPONDER_SIGNING, r.responderSigning)
            && HoldsHex(m, RESPONDER_CONFIRMATION, r.responderConfirmation)
  {
    FieldNamesDiffer();
    hide Lit, Hex;
    CommonEntriesHold(RESPONSE_KIND, r.version, r.suite, r.initiator, r.responder, r.signature);
  }

  lemma ConfirmationEntriesHold(c: Confirmation)
    ensures var m := ConfirmationEntries(c);
            && m.Keys == CONFIRMATION_FIELDS
            && HoldsTerms(m, CONFIRMATION_KIND, c.version, c.suite, c.initiator, c.responder, c.signature)
            && HoldsHex(m, INITIATOR_EPHEMERAL, c.initiatorEphemeral)
            && HoldsHex(m, RESPONDER_EPHEMERAL, c.responderEphemeral)
            && HoldsHex(m, INITIATOR_CONFIRMATION, c.initiatorConfirmation)
  {
    FieldNamesDiffer();
    hide Lit, Hex;
    CommonEntriesHold(CONFIRMATION_KIND, c.version, c.suite, c.initiator, c.responder, c.signature);
  }

  // ---------- printing ----------

  predicate PlainValue(v: Value, size: nat) {
    v.Str? && PlainText(v.text) && ScalarText(v.text) && |v.text| <= size
  }

  predicate NameValue(v: Value) {
    v.Str? && ScalarText(v.text) && |Encode(v.text)| <= MAX_PARTICIPANT_NAME_BYTES
  }

  /** What is common to the dictionaries of valid messages. */
  predicate MessageShape(m: map<Key, Value>) {
    && COMMON_FIELDS <= m.Keys <= ALL_FIELDS
    && PlainValue(m[KIND], 12)
    && m[VERSION] == Int(PROTOCOL_VERSION)
    && PlainValue(m[SUITE], 17)
    && NameValue(m[INITIATOR])
    && NameValue(m[RESPONDER])
    && PlainValue(m[SIGNATURE], 128)
    && forall k | k in m && k !in COMMON_FIELDS :: PlainValue(m[k], 64)
  }

  lemma TermsShape(lib: Calls, m: map<Key, Value>, kind: Text, version: int, suite: Text, initiator: Text,
                   responder: Text, signature: Bytes)
    requires HoldsTerms(m, kind, version, suite, initiator, responder, signature)
    requires ValidTerms(lib, version, suite, initiator, responder) && |signature| == 64
    requires PlainText(kind) && |kind| <= 12
    ensures PlainValue(m[KIND], 12) && m[VERSION] == Int(PROTOCOL_VERSION) && PlainValue(m[SUITE], 17)
    ensures NameValue(m[INITIATOR]) && NameValue(m[RESPONDER]) && PlainValue(m[SIGNATURE], 128)
  {
    SuitesPlain(suite);
    HexPlain(signature);
  }

  lemma HexValue32(m: map<Key, Value>, k: Key, b: Bytes)
    requires HoldsHex(m, k, b) && |b| == 32
    ensures PlainValue(m[k], 64)
  {
    HexPlain(b);
  }

  lemma OfferShape(lib: Calls, o: Offer)
    requires ValidOffer(lib, o)
    ensures MessageShape(OfferEntries(o))
  {
    hide Lit, Hex, OfferEntries;
    var m := OfferEntries(o);
    OfferEntriesHold(o);
    KindsPlain();
    TermsShape(lib, m, OFFER_KIND, o.version, o.suite, o.initiator, o.responder, o.signature);
    HexValue32(m, INITIATOR_EPHEMERAL, o.initiatorEphemeral);
    HexValue32(m, INITIATOR_SIGNING, o.initiatorSigning);
  }

  lemma ResponseShape(lib: Calls, r: Response)
    requires ValidResponse(lib, r)
    ensures MessageShape(ResponseEntries(r))
  {
    hide Lit, Hex, ResponseEntries;
    var m := ResponseEntries(r);
    ResponseEntriesHold(r);
    KindsPlain();
    TermsShape(lib, m, RESPONSE_KIND, r.version, r.suite, r.initiator, r.responder, r.signature);
    HexValue32(m, INITIATOR_EPHEMERAL, r.initiatorEphemeral);
    HexValue32(m, INITIATOR_SIGNING, r.initiatorSigning);
    HexValue32(m, RESPONDER_EPHEMERAL, r.responderEphemeral);
    HexValue32(m, RESPONDER_SIGNING, r.responderSigning);
    HexValue32(m, RESPONDER_CONFIRMATION, r.responderConfirmation);
  }

  lemma ConfirmationShape(lib: Calls, c: Confirmation)
    requires ValidConfirmation(lib, c)
    ensures MessageShape(ConfirmationEntries(c))
  {
    hide Lit, Hex, ConfirmationEntries;
    var m := ConfirmationEntries(c);
    ConfirmationEntriesHold(c);
    KindsPlain();
    TermsShape(lib, m, CONFIRMATION_KIND, c.version, c.suite, c.initiator, c.responder, c.signature);
    HexValue32(m, INITIATOR_EPHEMERAL, c.initiatorEphemeral);
    HexValue32(m, RESPONDER_EPHEMERAL, c.responderEphemeral);
    HexValue32(m, INITIATOR_CONFIRMATION, c.initiatorConfirmation);
  }

  lemma ShapeNormal(m: map<Key, Value>)
    requires MessageShape(m)
    ensures Normal(Dict(m))
  {
    FieldNamesPlain();
    forall k | k in m
      ensures k.StrKey? && ScalarText(k.text) && Normal(m[k])
    {
      assert PlainKey(k);
    }
  }

  lemma KeyLength(k: Key)
    requires k in ALL_FIELDS
    ensures k.StrKey? && |k.text| <= 30
  {
    FieldNamesDiffer();
  }

  lemma SmallMembers(m: map<Key, Value>, k: Key)
    requires MessageShape(m) && k in m && k !in {INITIATOR, RESPONDER, SIGNATURE}
    ensures MemberSize(Dict(m), k, false) <= 100
  {
    FieldNamesPlain();
    KeyLength(k);
    FieldNamesDiffer();
    if k == VERSION {
      assert Pow10(1) == 10;
      NumberMemberSize(Dict(m), k, 1, 1, false);
    } else {
      PlainMemberSize(Dict(m), k, m[k].text, false);
    }
  }

  lemma FieldCounts()
    ensures |OFFER_FIELDS| <= 11 && |RESPONSE_FIELDS| <= 11 && |CONFIRMATION_FIELDS| <= 11
  {
    assert |COMMON_FIELDS| <= 6;
    assert |{INITIATOR_EPHEMERAL, INITIATOR_SIGNING}| <= 2;
    assert |OFFER_FIELDS| <= |COMMON_FIELDS| + |{INITIATOR_EPHEMERAL, INITIATOR_SIGNING}|;
    var more: set<Key> := {RESPONDER_EPHEMERAL, RESPONDER_SIGNING, RESPONDER_CONFIRMATION};
    assert |more| <= 3;
    assert |RESPONSE_FIELDS| <= |OFFER_FIELDS| + |more|;
    var extra: set<Key> := {INITIATOR_EPHEMERAL, RESPONDER_EPHEMERAL, INITIATOR_CONFIRMATION};
    assert |extra| <= 3;
    assert |CONFIRMATION_FIELDS| <= |COMMON_FIELDS| + |extra|;
  }

  lemma CountThree(v: Value, keys: set<Key>) returns (others: set<Key>)
    requires v.Dict? && {INITIATOR, RESPONDER, SIGNATURE} <= keys
    ensures others == keys - {INITIATOR, RESPONDER, SIGNATURE} && |others| == |keys| - 3
    ensures MembersSize(v, keys, false)
            == MemberSize(v, INITIATOR, false) + MemberSize(v, RESPONDER, false) + MemberSize(v, SIGNATURE, false)
               + MembersSize(v, others, false)
  {
    FieldNamesDiffer();
    var a := keys - {INITIATOR};
    var b := a - {RESPONDER};
    others := b - {SIGNATURE};
    CountMember(v, keys, INITIATOR, false);
    CountMember(v, a, RESPONDER, false);
    CountMember(v, b, SIGNATURE, false);
  }

  lemma LargeMembers(m: map<Key, Value>)
    requires MessageShape(m)
    ensures MemberSize(Dict(m), INITIATOR, false) <= 1545 && MemberSize(Dict(m), RESPONDER, false) <= 1545
    ensures MemberSize(Dict(m), SIGNATURE, false) <= 143
  {
    FieldNamesPlain();
    FieldNamesDiffer();
    TextMemberSize(Dict(m), INITIATOR, m[INITIATOR].text, false);
    TextMemberSize(Dict(m), RESPONDER, m[RESPONDER].text, false);
    PlainMemberSize(Dict(m), SIGNATURE, m[SIGNATURE].text, false);
  }

  /** Two names of 255 bytes, each escaped six-fold, still leave room for every fixed field. */
  lemma ShapeFits(m: map<Key, Value>)
    requires MessageShape(m) && |m.Keys| <= 11
    ensures Dumps(Dict(m), false).Some?
    ensures |Encode(Dumps(Dict(m), false).value)| <= MAX_HANDSHAKE_MESSAGE_BYTES
  {
    var v := Dict(m);
    ShapeNormal(m);
    NormalScalar(v, false);
    var others := CountThree(v, m.Keys);
    LargeMembers(m);
    forall k | k in others
      ensures MemberSize(v, k, false) <= 100
    {
      SmallMembers(m, k);
    }
    UniformSize(v, others, false, 100);
    ObjectSize(v, false);
  }

  lemma MessageBytes(m: map<Key, Value>) returns (data: Bytes)
    requires MessageShape(m) && |m.Keys| <= 11
    ensures DumpBytes(Dict(m), false) == Some(data) && LoadBytes(data) == Some(Dict(m))
    ensures data != [] && |data| <= MAX_HANDSHAKE_MESSAGE_BYTES
  {
    ShapeFits(m);
    ShapeNormal(m);
    LoadBytesInvertsDumpBytes(Dict(m), false);
    data := DumpBytes(Dict(m), false).value;
    NothingLoadsFromNothing();
  }

  /** Encoding a well-shaped dictionary never fails, and parsing returns the dictionary. */
  lemma ParseInvertsEncode(m: map<Key, Value>, kind: Text, fields: set<Key>)
    requires MessageShape(m) && m.Keys == fields && |fields| <= 11 && m[KIND] == Str(kind)
    ensures EncodeMessage(m).Ok?
    ensures ParseMessage(EncodeMessage(m).value, kind, fields) == Ok(m)
  {
    var data := MessageBytes(m);
  }

  lemma HexDecodes(m: map<Key, Value>, k: Key, b: Bytes, length: nat)
    requires HoldsHex(m, k, b) && |b| == length
    ensures DecodeHex(m[k], length) == Ok(b)
  {
    FromHexInvertsHex(b);
  }

  // ---------- the offer ----------

  lemma OfferFromEntriesInverts(lib: Calls, o: Offer)
    requires ValidOffer(lib, o)
    ensures OfferEntries(o).Keys == OFFER_FIELDS && OfferFromEntries(lib, OfferEntries(o)) == Ok(o)
  {
    hide Lit, Hex, FromHex, OfferEntries;
    var m := OfferEntries(o);
    OfferEntriesHold(o);
    HexDecodes(m, INITIATOR_EPHEMERAL, o.initiatorEphemeral, 32);
    HexDecodes(m, INITIATOR_SIGNING, o.initiatorSigning, 32);
    HexDecodes(m, SIGNATURE, o.signature, 64);
  }

  /** Every valid offer encodes within the size limit and decodes to itself. */
  lemma OfferRoundTrip(lib: Calls, o: Offer)
    requires ValidOffer(lib, o)
    ensures OfferToBytes(o).Ok?
    ensures OfferFromBytes(lib, OfferToBytes(o).value) == Ok(o)
  {
    OfferFromEntriesInverts(lib, o);
    OfferShape(lib, o);
    OfferEntriesHold(o);
    FieldCounts();
    ParseInvertsEncode(OfferEntries(o), OFFER_KIND, OFFER_FIELDS);
  }

  lemma OfferImage(lib: Calls, data: Bytes)
    ensures OfferFromBytes(lib, data).Ok? <==> exists o :: ValidOffer(lib, o) && OfferToBytes(o) == Ok(data)
    ensures OfferFromBytes(lib, data).Ok? ==>
              ValidOffer(lib, OfferFromBytes(lib, data).value) && OfferToBytes(OfferFromBytes(lib, data).value) == Ok(data)
  {
    if o :| ValidOffer(lib, o) && OfferToBytes(o) == Ok(data) {
      OfferRoundTrip(lib, o);
    }
  }

  // ---------- the response ----------

  lemma ResponseFromEntriesInverts(lib: Calls, r: Response)
    requires ValidResponse(lib, r)
    ensures ResponseEntries(r).Keys == RESPONSE_FIELDS && ResponseFromEntries(lib, ResponseEntries(r)) == Ok(r)
  {
    hide Lit, Hex, FromHex, ResponseEntries;
    var m := ResponseEntries(r);
    ResponseEntriesHold(r);
    HexDecodes(m, INITIATOR_EPHEMERAL, r.initiatorEphemeral, 32);
    HexDecodes(m, INITIATOR_SIGNING, r.initiatorSigning, 32);
    HexDecodes(m, RESPONDER_EPHEMERAL, r.responderEphemeral, 32);
    HexDecodes(m, RESPONDER_SIGNING, r.responderSigning, 32);
    HexDecodes(m, RESPONDER_CONFIRMATION, r.responderConfirmation, 32);
    HexDecodes(m, SIGNATURE, r.signature, 64);
  }

  /** Every valid response encodes within the size limit and decodes to itself. */
  lemma ResponseRoundTrip(lib: Calls, r: Response)
    requires ValidResponse(lib, r)
    ensures ResponseToBytes(r).Ok?
    ensures ResponseFromBytes(lib, ResponseToBytes(r).value) == Ok(r)
  {
    ResponseFromEntriesInverts(lib, r);
    ResponseShape(lib, r);
    ResponseEntriesHold(r);
    FieldCounts();
    ParseInvertsEncode(ResponseEntries(r), RESPONSE_KIND, RESPONSE_FIELDS);
  }

  lemma ResponseImage(lib: Calls, data: Bytes)
    ensures ResponseFromBytes(lib, data).Ok? <==> exists r :: ValidResponse(lib, r) && ResponseToBytes(r) == Ok(data)
    ensures ResponseFromBytes(lib, data).Ok? ==>
              && ValidResponse(lib, ResponseFromBytes(lib, data).value)
              && ResponseToBytes(ResponseFromBytes(lib, data).value) == Ok(data)
  {
    hide ResponseEntries, EncodeMessage, Lit;
    if r :| ValidResponse(lib, r) && ResponseToBytes(r) == Ok(data) {
      ResponseRoundTrip(lib, r);
    }
  }

  // ---------- the confirmation ----------

  lemma ConfirmationFromEntriesInverts(lib: Calls, c: Confirmation)
    requires ValidConfirmation(lib, c)
    ensures ConfirmationEntries(c).Keys == CONFIRMATION_FIELDS
    ensures ConfirmationFromEntries(lib, ConfirmationEntries(c)) == Ok(c)
  {
    hide Lit, Hex, FromHex, ConfirmationEntries;
    var m := ConfirmationEntries(c);
    ConfirmationEntriesHold(c);
    HexDecodes(m, INITIATOR_EPHEMERAL, c.initiatorEphemeral, 32);
    HexDecodes(m, RESPONDER_EPHEMERAL, c.responderEphemeral, 32);
    HexDecodes(m, INITIATOR_CONFIRMATION, c.initiatorConfirmation, 32);
    HexDecodes(m, SIGNATURE, c.signature, 64);
  }

  /** Every valid confirmation encodes within the size limit and decodes to itself. */
  lemma ConfirmationRoundTrip(lib: Calls, c: Confirmation)
    requires ValidConfirmation(lib, c)
    ensures ConfirmationToBytes(c).Ok?
    ensures ConfirmationFromBytes(lib, ConfirmationToBytes(c).value) == Ok(c)
  {
    ConfirmationFromEntriesInverts(lib, c);
    ConfirmationShape(lib, c);
    ConfirmationEntriesHold(c);
    FieldCounts();
    ParseInvertsEncode(ConfirmationEntries(c), CONFIRMATION_KIND, CONFIRMATION_FIELDS);
  }

  lemma ConfirmationImage(lib: Calls, data: Bytes)
    ensures ConfirmationFromBytes(lib, data).Ok? <==>
            exists c :: ValidConfirmation(lib, c) && ConfirmationToBytes(c) == Ok(data)
    ensures ConfirmationFromBytes(lib, data).Ok? ==>
              && ValidConfirmation(lib, ConfirmationFromBytes(lib, data).value)
              && ConfirmationToBytes(ConfirmationFromBytes(lib, data).value) == Ok(data)
  {
    hide ConfirmationEntries, EncodeMessage, Lit;
    if c :| ValidConfirmation(lib, c) && ConfirmationToBytes(c) == Ok(data) {
      ConfirmationRoundTrip(lib, c);
    }
  }

  /** No byte string is a message of two kinds, and none is two messages of one kind. */
  lemma KindsAreDisjoint(lib: Calls, data: Bytes)
    ensures !(OfferFromBytes(lib, data).Ok? && ResponseFromBytes(lib, data).Ok?)
    ensures !(OfferFromBytes(lib, data).Ok? && ConfirmationFromBytes(lib, data).Ok?)
    ensures !(ResponseFromBytes(lib, data).Ok? && ConfirmationFromBytes(lib, data).Ok?)
  {
    KindsPlain();
    ParsedKind(data, OFFER_KIND, OFFER_FIELDS);
    ParsedKind(data, RESPONSE_KIND, RESPONSE_FIELDS);
    ParsedKind(data, CONFIRMATION_KIND, CONFIRMATION_FIELDS);
  }

  lemma ParsedKind(data: Bytes, kind: Text, fields: set<Key>)
    requires KIND in fields
    ensures ParseMessage(data, kind, fields).Ok? ==>
              && LoadBytes(data).Some? && LoadBytes(data).value.Dict? && KIND in LoadBytes(data).value.entries
              && LoadBytes(data).value.entries[KIND] == Str(kind)
  {
  }
}
