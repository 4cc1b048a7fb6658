/** The exact text of the three handshake messages. */
module HandshakeText {
  import opened Basics
  import opened Digits
  import opened Handshake
  import opened HandshakeCodec
  import opened Json
  import opened JsonBytes
  import opened JsonOrder
  import opened JsonText
  import opened Library
  import opened Protocol
  import opened Utf8
  import opened WireText

  function Raw(t: Text): Text {
    QuotedText(t, false)
  }

  function HexMember(name: string, value: Bytes): Text {
    Member(name, Raw(Hex(value)))
  }

  function OfferMembers(o: Offer): seq<Text> {
    [Member("initiator", Raw(o.initiator)),
     HexMember("initiator_ephemeral_public_key", o.initiatorEphemeral),
     HexMember("initiator_signing_public_key", o.initiatorSigning),
     Member("kind", Raw(Lit("offer"))),
     Member("responder", Raw(o.responder)),
     HexMember("signature", o.signature),
     Member("suite", Raw(o.suite)),
     Member("v", PrintInt(o.version))]
  }

  function OfferText(o: Offer): Text {
    Object(OfferMembers(o))
  }

  function ResponseMembers(r: Response): seq<Text> {
    [Member("initiator", Raw(r.initiator)),
     HexMember("initiator_ephemeral_public_key", r.initiatorEphemeral),
     HexMember("initiator_signing_public_key", r.initiatorSigning),
     Member("kind", Raw(Lit("response"))),
     Member("responder", Raw(r.responder)),
     HexMember("responder_ephemeral_public_key", r.responderEphemeral),
     HexMember("responder_key_confirmation", r.responderConfirmation),
     HexMember("responder_signing_public_key", r.responderSigning),
     HexMember("signature", r.signature),
     Member("suite", Raw(r.suite)),
     Member("v", PrintInt(r.version))]
  }

  function ResponseText(r: Response): Text {
    Object(ResponseMembers(r))
  }

  function ConfirmationMembers(c: Confirmation): seq<Text> {
    [Member("initiator", Raw(c.initiator)),
     HexMember("initiator_ephemeral_public_key", c.initiatorEphemeral),
     HexMember("initiator_key_confirmation", c.initiatorConfirmation),
     Member("kind", Raw(Lit("confirmation"))),
     Member("responder", Raw(c.responder)),
     HexMember("responder_ephemeral_public_key", c.responderEphemeral),
     HexMember("signature", c.signature),
     Member("suite", Raw(c.suite)),
     Member("v", PrintInt(c.version))]
  }

  function ConfirmationText(c: Confirmation): Text {
    Object(ConfirmationMembers(c))
  }

  // ---------- the order of the names ----------

  lemma NamesAre()
    ensures KIND == StrKey(Lit("kind")) && VERSION == StrKey(Lit("v")) && SUITE == StrKey(Lit("suite"))
    ensures INITIATOR == StrKey(Lit("initiator")) && RESPONDER == StrKey(Lit("responder")) && SIGNATURE == StrKey(Lit("signature"))
    ensures INITIATOR_EPHEMERAL == StrKey(Lit("initiator_ephemeral_public_key"))
    ensures INITIATOR_SIGNING == StrKey(Lit("initiator_signing_public_key"))
    ensures INITIATOR_CONFIRMATION == StrKey(Lit("initiator_key_confirmation"))
    ensures RESPONDER_EPHEMERAL == StrKey(Lit("responder_ephemeral_public_key"))
    ensures RESPONDER_SIGNING == StrKey(Lit("responder_signing_public_key"))
    ensures RESPONDER_CONFIRMATION == StrKey(Lit("responder_key_confirmation"))
  {
  }

  lemma {:induction false} PrefixComesFirst(a: Text, b: Text)
    requires a <= b
    ensures TextLe(a, b)
  {
    if a != [] {
      assert a[1..] <= b[1..];
      PrefixComesFirst(a[1..], b[1..]);
    }
  }

  lemma LiteralsAscend(a: string, b: string, n: nat)
    requires n < |a| && n < |b| && a[..n] == b[..n] && a[n] < b[n]
    ensures KeyLe(StrKey(Lit(a)), StrKey(Lit(b)))
  {
    forall i | 0 <= i < n
      ensures Lit(a)[i] == Lit(b)[i]
    {
      assert a[i] == a[..n][i] == b[..n][i] == b[i];
    }
    FirstDifference(Lit(a), Lit(b), n);
  }

  lemma LiteralPrefix(a: string, b: string)
    requires a <= b
    ensures KeyLe(StrKey(Lit(a)), StrKey(Lit(b)))
  {
    PrefixComesFirst(Lit(a), Lit(b));
  }

  lemma InitiatorNamesAscend()
    ensures KeyLe(INITIATOR, INITIATOR_EPHEMERAL)
    ensures KeyLe(INITIATOR_EPHEMERAL, INITIATOR_CONFIRMATION) && KeyLe(INITIATOR_EPHEMERAL, INITIATOR_SIGNING)
    ensures KeyLe(INITIATOR_SIGNING, KIND) && KeyLe(INITIATOR_CONFIRMATION, KIND)
  {
    hide Lit, KeyLe;
    LiteralPrefix("initiator", "initiator_ephemeral_public_key");
    LiteralsAscend("initiator_ephemeral_public_key", "initiator_key_confirmation", 10);
    LiteralsAscend("initiator_ephemeral_public_key", "initiator_signing_public_key", 10);
    LiteralsAscend("initiator_signing_public_key", "kind", 0);
    LiteralsAscend("initiator_key_confirmation", "kind", 0);
  }

  lemma ResponderNamesAscend()
    ensures KeyLe(KIND, RESPONDER) && KeyLe(RESPONDER, RESPONDER_EPHEMERAL)
    ensures KeyLe(RESPONDER_EPHEMERAL, RESPONDER_CONFIRMATION) && KeyLe(RESPONDER_CONFIRMATION, RESPONDER_SIGNING)
  {
    hide Lit, KeyLe;
    LiteralsAscend("kind", "responder", 0);
    LiteralPrefix("responder", "responder_ephemeral_public_key");
    LiteralsAscend("responder_ephemeral_public_key", "responder_key_confirmation", 10);
    LiteralsAscend("responder_key_confirmation", "responder_signing_public_key", 10);
  }

  lemma LastNamesAscend()
    ensures KeyLe(RESPONDER, SIGNATURE) && KeyLe(RESPONDER_EPHEMERAL, SIGNATURE) && KeyLe(RESPONDER_SIGNING, SIGNATURE)
    ensures KeyLe(SIGNATURE, SUITE) && KeyLe(SUITE, VERSION)
  {
    hide Lit, KeyLe;
    LiteralsAscend("responder", "signature", 0);
    LiteralsAscend("responder_ephemeral_public_key", "signature", 0);
    LiteralsAscend("responder_signing_public_key", "signature", 0);
    LiteralsAscend("signature", "suite", 1);
    LiteralsAscend("suite", "v", 0);
  }

  const OFFER_ORDER: seq<Key> :=
    [INITIATOR, INITIATOR_EPHEMERAL, INITIATOR_SIGNING, KIND, RESPONDER, SIGNATURE, SUITE, VERSION]
  const RESPONSE_ORDER: seq<Key> :=
    [INITIATOR, INITIATOR_EPHEMERAL, INITIATOR_SIGNING, KIND, RESPONDER, RESPONDER_EPHEMERAL, RESPONDER_CONFIRMATION,
     RESPONDER_SIGNING, SIGNATURE, SUITE, VERSION]
  const CONFIRMATION_ORDER: seq<Key> :=
    [INITIATOR, INITIATOR_EPHEMERAL, INITIATOR_CONFIRMATION, KIND, RESPONDER, RESPONDER_EPHEMERAL, SIGNATURE, SUITE, VERSION]

  lemma NeighboursDiffer()
    ensures INITIATOR != INITIATOR_EPHEMERAL && INITIATOR_EPHEMERAL != INITIATOR_SIGNING && INITIATOR_SIGNING != KIND
    ensures INITIATOR_EPHEMERAL != INITIATOR_CONFIRMATION && INITIATOR_CONFIRMATION != KIND
    ensures KIND != RESPONDER && RESPONDER != RESPONDER_EPHEMERAL && RESPONDER_EPHEMERAL != RESPONDER_CONFIRMATION
    ensures RESPONDER_CONFIRMATION != RESPONDER_SIGNING && RESPONDER_SIGNING != SIGNATURE
    ensures RESPONDER_EPHEMERAL != SIGNATURE && RESPONDER != SIGNATURE && SIGNATURE != SUITE && SUITE != VERSION
  {
    FieldNamesDiffer();
  }

  lemma OrdersAscend()
    ensures Ascends(OFFER_ORDER) && Ascends(RESPONSE_ORDER) && Ascends(CONFIRMATION_ORDER)
  {
    hide KeyLe, Lit;
    NeighboursDiffer();
    InitiatorNamesAscend();
    ResponderNamesAscend();
    LastNamesAscend();
  }

  lemma OrdersSorted()
    ensures Sorted(OFFER_FIELDS, OFFER_ORDER) && Sorted(RESPONSE_FIELDS, RESPONSE_ORDER)
    ensures Sorted(CONFIRMATION_FIELDS, CONFIRMATION_ORDER)
  {
    hide KeyLe, Lit, Ascends, Sorted;
    OrdersAscend();
    AscendingIsSorted(OFFER_ORDER, OFFER_FIELDS);
    AscendingIsSorted(RESPONSE_ORDER, RESPONSE_FIELDS);
    AscendingIsSorted(CONFIRMATION_ORDER, CONFIRMATION_FIELDS);
  }

  // ---------- the members ----------

  /** An entry that holds a text, and its member. */
  lemma TextShows(m: map<Key, Value>, name: string, t: Text)
    requires StrKey(Lit(name)) in m && m[StrKey(Lit(name))] == Str(t) && PlainText(Lit(name))
    ensures Shows(Dict(m), StrKey(Lit(name)), Member(name, Raw(t)), false)
  {
    ShowsText(Dict(m), name, t, false);
  }

  lemma HexShows(m: map<Key, Value>, name: string, b: Bytes)
    requires HoldsHex(m, StrKey(Lit(name)), b) && PlainText(Lit(name))
    ensures Shows(Dict(m), StrKey(Lit(name)), HexMember(name, b), false)
  {
    ShowsText(Dict(m), name, Hex(b), false);
  }

  lemma NamesPlain()
    ensures PlainText(Lit("kind")) && PlainText(Lit("v")) && PlainText(Lit("suite"))
    ensures PlainText(Lit("initiator")) && PlainText(Lit("responder")) && PlainText(Lit("signature"))
    ensures PlainText(Lit("initiator_ephemeral_public_key")) && PlainText(Lit("initiator_signing_public_key"))
    ensures PlainText(Lit("initiator_key_confirmation")) && PlainText(Lit("responder_ephemeral_public_key"))
    ensures PlainText(Lit("responder_signing_public_key")) && PlainText(Lit("responder_key_confirmation"))
  {
    hide Lit, PlainText;
    NamesAre();
    FieldNamesPlain();
  }

  lemma TermsShow(m: map<Key, Value>, kind: string, version: int, suite: Text, initiator: Text, responder: Text, signature: Bytes)
    requires HoldsTerms(m, Lit(kind), version, suite, initiator, responder, signature)
    ensures Shows(Dict(m), INITIATOR, Member("initiator", Raw(initiator)), false)
    ensures Shows(Dict(m), RESPONDER, Member("responder", Raw(responder)), false)
    ensures Shows(Dict(m), KIND, Member("kind", Raw(Lit(kind))), false)
    ensures Shows(Dict(m), SIGNATURE, HexMember("signature", signature), false)
    ensures Shows(Dict(m), SUITE, Member("suite", Raw(suite)), false)
    ensures Shows(Dict(m), VERSION, Member("v", PrintInt(version)), false)
  {
    hide Lit, PlainText, Shows, Raw, HexMember, Member, Hex;
    NamesAre();
    NamesPlain();
    TextShows(m, "initiator", initiator);
    TextShows(m, "responder", responder);
    TextShows(m, "kind", Lit(kind));
    HexShows(m, "signature", signature);
    TextShows(m, "suite", suite);
    ShowsNumber(Dict(m), "v", version, false);
  }

  lemma KeysAreText()
    ensures forall k | k in OFFER_FIELDS || k in RESPONSE_FIELDS || k in CONFIRMATION_FIELDS :: k.StrKey?
  {
    hide Lit, PlainText;
    FieldNamesPlain();
  }

  lemma OfferPrints(o: Offer)
    ensures Dumps(Dict(OfferEntries(o)), false) == Some(OfferText(o))
  {
    hide Lit, PlainText, Shows, Raw, HexMember, Member, Hex, OfferEntries, Sorted, Object, OFFER_FIELDS;
    var m := OfferEntries(o);
    NamesAre();
    NamesPlain();
    OrdersSorted();
    KeysAreText();
    OfferEntriesHold(o);
    TermsShow(m, "offer", o.version, o.suite, o.initiator, o.responder, o.signature);
    HexShows(m, "initiator_ephemeral_public_key", o.initiatorEphemeral);
    HexShows(m, "initiator_signing_public_key", o.initiatorSigning);
    ShowsObject(Dict(m), OFFER_ORDER, OfferMembers(o), false);
  }

  lemma ResponsePrints(r: Response)
    ensures Dumps(Dict(ResponseEntries(r)), false) == Some(ResponseText(r))
  {
    hide Lit, PlainText, Shows, Raw, HexMember, Member, Hex, ResponseEntries, Sorted, Object, RESPONSE_FIELDS;
    var m := ResponseEntries(r);
    NamesAre();
    NamesPlain();
    OrdersSorted();
    KeysAreText();
    ResponseEntriesHold(r);
    TermsShow(m, "response", r.version, r.suite, r.initiator, r.responder, r.signature);
    HexShows(m, "initiator_ephemeral_public_key", r.initiatorEphemeral);
    HexShows(m, "initiator_signing_public_key", r.initiatorSigning);
    HexShows(m, "responder_ephemeral_public_key", r.responderEphemeral);
    HexShows(m, "responder_signing_public_key", r.responderSigning);
    HexShows(m, "responder_key_confirmation", r.responderConfirmation);
    ShowsObject(Dict(m), RESPONSE_ORDER, ResponseMembers(r), false);
  }

  lemma ConfirmationPrints(c: Confirmation)
    ensures Dumps(Dict(ConfirmationEntries(c)), false) == Some(ConfirmationText(c))
  {
    hide Lit, PlainText, Shows, Raw, HexMember, Member, Hex, ConfirmationEntries, Sorted, Object, CONFIRMATION_FIELDS;
    var m := ConfirmationEntries(c);
    NamesAre();
    NamesPlain();
    OrdersSorted();
    KeysAreText();
    ConfirmationEntriesHold(c);
    TermsShow(m, "confirmation", c.version, c.suite, c.initiator, c.responder, c.signature);
    HexShows(m, "initiator_ephemeral_public_key", c.initiatorEphemeral);
    HexShows(m, "responder_ephemeral_public_key", c.responderEphemeral);
    HexShows(m, "initiator_key_confirmation", c.initiatorConfirmation);
    ShowsObject(Dict(m), CONFIRMATION_ORDER, ConfirmationMembers(c), false);
  }

  // ---------- the theorems ----------

  /** What the three messages have in common: version 1, a known suite, two different legal names. */
  predicate TermsRule(lib: Calls, version: int, suite: Text, initiator: Text, responder: Text) {
    && version == 1 && (suite == Lit("AES_GCM_SIV") || suite == Lit("CHACHA20_POLY1305"))
    && NameRule(lib, initiator) && NameRule(lib, responder) && initiator != responder
  }

  lemma TermsRuleIs(lib: Calls, version: int, suite: Text, initiator: Text, responder: Text)
    ensures ValidTerms(lib, version, suite, initiator, responder) <==> TermsRule(lib, version, suite, initiator, responder)
  {
    hide Lit, ValidName, NameRule;
    NameRuleIs(lib, initiator);
    NameRuleIs(lib, responder);
  }

  lemma EncodedIs(m: map<Key, Value>, t: Text)
    requires Dumps(Dict(m), false) == Some(t)
    ensures EncodeMessage(m).Ok? ==> EncodeMessage(m).value == Encode(t)
  {
  }

  /** An offer's bytes are its text in UTF-8, and `from_bytes` returns it exactly on them. */
  lemma OfferBytesExactly(lib: Calls, data: Bytes, o: Offer)
    ensures ValidOffer(lib, o) ==> OfferToBytes(o) == Ok(Encode(OfferText(o)))
    ensures OfferFromBytes(lib, data).Err? ==> OfferFromBytes(lib, data).error == HandshakeError
    ensures OfferFromBytes(lib, data) == Ok(o) <==>
            && TermsRule(lib, o.version, o.suite, o.initiator, o.responder)
            && |o.initiatorEphemeral| == 32 && |o.initiatorSigning| == 32 && |o.signature| == 64
            && data == Encode(OfferText(o))
  {
    hide OfferText, OfferEntries, EncodeMessage, ParseMessage, OfferFromEntries, TermsRule, ValidTerms;
    OfferErrors(lib, data);
    OfferImage(lib, data);
    TermsRuleIs(lib, o.version, o.suite, o.initiator, o.responder);
    OfferPrints(o);
    EncodedIs(OfferEntries(o), OfferText(o));
    if ValidOffer(lib, o) {
      OfferRoundTrip(lib, o);
    }
  }

  lemma OfferErrors(lib: Calls, data: Bytes)
    ensures OfferFromBytes(lib, data).Err? ==> OfferFromBytes(lib, data).error == HandshakeError
  {
    hide OfferToBytes;
  }

  /** The same for responses. */
  lemma ResponseBytesExactly(lib: Calls, data: Bytes, r: Response)
    ensures ValidResponse(lib, r) ==> ResponseToBytes(r) == Ok(Encode(ResponseText(r)))
    ensures ResponseFromBytes(lib, data).Err? ==> ResponseFromBytes(lib, data).error == HandshakeError
    ensures ResponseFromBytes(lib, data) == Ok(r) <==>
            && TermsRule(lib, r.version, r.suite, r.initiator, r.responder)
            && |r.initiatorEphemeral| == |r.initiatorSigning| == |r.responderEphemeral| == |r.responderSigning| == 32
            && |r.responderConfirmation| == 32 && |r.signature| == 64 && r.initiatorEphemeral != r.responderEphemeral
            && data == Encode(ResponseText(r))
  {
    hide ResponseText, ResponseEntries, EncodeMessage, ParseMessage, ResponseFromEntries, TermsRule, ValidTerms;
    ResponseErrors(lib, data);
    ResponseImage(lib, data);
    TermsRuleIs(lib, r.version, r.suite, r.initiator, r.responder);
    ResponsePrints(r);
    EncodedIs(ResponseEntries(r), ResponseText(r));
    if ValidResponse(lib, r) {
      ResponseRoundTrip(lib, r);
    }
  }

  lemma ResponseErrors(lib: Calls, data: Bytes)
    ensures ResponseFromBytes(lib, data).Err? ==> ResponseFromBytes(lib, data).error == HandshakeError
  {
    hide ResponseToBytes;
  }

  /** The same for confirmations. */
  lemma ConfirmationBytesExactly(lib: Calls, data: Bytes, c: Confirmation)
    ensures ValidConfirmation(lib, c) ==> ConfirmationToBytes(c) == Ok(Encode(ConfirmationText(c)))
    ensures ConfirmationFromBytes(lib, data).Err? ==> ConfirmationFromBytes(lib, data).error == HandshakeError
    ensures ConfirmationFromBytes(lib, data) == Ok(c) <==>
            && TermsRule(lib, c.version, c.suite, c.initiator, c.responder)
            && |c.initiatorEphemeral| == |c.responderEphemeral| == |c.initiatorConfirmation| == 32 && |c.signature| == 64
            && c.initiatorEphemeral != c.responderEphemeral
            && data == Encode(ConfirmationText(c))
  {
    hide ConfirmationText, ConfirmationEntries, EncodeMessage, ParseMessage, ConfirmationFromEntries, TermsRule, ValidTerms;
    ConfirmationErrors(lib, data);
    ConfirmationImage(lib, data);
    TermsRuleIs(lib, c.version, c.suite, c.initiator, c.responder);
    ConfirmationPrints(c);
    EncodedIs(ConfirmationEntries(c), ConfirmationText(c));
    if ValidConfirmation(lib, c) {
      ConfirmationRoundTrip(lib, c);
    }
  }

  lemma ConfirmationErrors(lib: Calls, data: Bytes)
    ensures ConfirmationFromBytes(lib, data).Err? ==> ConfirmationFromBytes(lib, data).error == HandshakeError
  {
    hide ConfirmationToBytes;
  }

  /** What every message starts with. */
  const OPENING: Text := ['{' as int] + Member("initiator", ['"' as int])

  /**
   A name without quotes, backslashes and control characters stands in the bytes of every message unescaped,
   whatever its alphabet.
   */
  lemma NamesAreRaw(o: Offer, r: Response, c: Confirmation)
    requires o.initiator == r.initiator == c.initiator && Unescaped(o.initiator)
    ensures Encode(OPENING) + Encode(o.initiator) <= Encode(OfferText(o))
    ensures Encode(OPENING) + Encode(o.initiator) <= Encode(ResponseText(r))
    ensures Encode(OPENING) + Encode(o.initiator) <= Encode(ConfirmationText(c))
  {
    hide Lit, HexMember, Encode, Escape;
    RawIsUnescaped(o.initiator);
    StartsWithName(OfferMembers(o), o.initiator);
    StartsWithName(ResponseMembers(r), o.initiator);
    StartsWithName(ConfirmationMembers(c), o.initiator);
  }

  lemma StartsWithName(members: seq<Text>, name: Text)
    requires |members| > 1 && members[0] == Member("initiator", Raw(name)) && Escape(name, false) == name
    ensures Encode(OPENING) + Encode(name) <= Encode(Object(members))
  {
    hide Encode, Lit;
    var rest := ['"' as int] + ([',' as int] + Commas(members[1..]) + ['}' as int]);
    assert Object(members) == OPENING + name + rest;
    EncodeConcat(OPENING + name, rest);
    EncodeConcat(OPENING, name);
  }
}
