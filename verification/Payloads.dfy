/** The byte strings that handshake messages are signed over, and what equal bytes imply. */
module Payloads {
  import opened Basics
  import opened Digits
  import opened Handshake
  import opened Library
  import opened Utf8

  const OFFER_TAG := Ascii("CypherSyntax/handshake-offer/v1")
  const TRANSCRIPT_TAG := Ascii("CypherSyntax/handshake-transcript/v1")
  const RESPONSE_TAG := Ascii("CypherSyntax/handshake-response-signature/v1")
  const CONFIRMATION_TAG := Ascii("CypherSyntax/handshake-confirmation-signature/v1")

  /** `_encode_field`; `to_bytes` raises OverflowError on a longer value. */
  function EncodeField(value: Bytes): (b: Bytes)
    requires |value| < 0x1_0000_0000
  {
    BigEndian(|value|, 4) + value
  }

  ghost predicate Short(fields: seq<Bytes>) {
    forall i | 0 <= i < |fields| :: |fields[i]| < 0x1_0000_0000
  }

  /** Length-prefixed fields one after the other. */
  function JoinFields(fields: seq<Bytes>): Bytes
    requires forall i | 0 <= i < |fields| :: |fields[i]| < 0x1_0000_0000
  {
    if fields == [] then [] else EncodeField(fields[0]) + JoinFields(fields[1..])
  }

  lemma EncodeFieldUnambiguous(a: Bytes, b: Bytes, restA: Bytes, restB: Bytes)
    requires |a| < 0x1_0000_0000 && |b| < 0x1_0000_0000
    requires EncodeField(a) + restA == EncodeField(b) + restB
    ensures a == b && restA == restB
  {
    FourBytes();
    BigEndianRoundTrip(|a|, 4);
    BigEndianRoundTrip(|b|, 4);
    var left, right := EncodeField(a) + restA, EncodeField(b) + restB;
    assert left[..4] == BigEndian(|a|, 4) && right[..4] == BigEndian(|b|, 4);
    assert |a| == |b|;
    assert left[4..4 + |a|] == a && right[4..4 + |b|] == b;
    assert left[4 + |a|..] == restA && right[4 + |b|..] == restB;
  }

  /** Joined fields determine the fields, their number included. */
  lemma {:induction false} JoinFieldsInjective(a: seq<Bytes>, b: seq<Bytes>)
    requires Short(a) && Short(b)
    requires JoinFields(a) == JoinFields(b)
    ensures a == b
  {
    if a != [] && b != [] {
      EncodeFieldUnambiguous(a[0], b[0], JoinFields(a[1..]), JoinFields(b[1..]));
      JoinFieldsInjective(a[1..], b[1..]);
      assert a == [a[0]] + a[1..] && b == [b[0]] + b[1..];
    }
  }

  // ---------- payloads ----------

  function OfferFields(o: Offer): seq<Bytes>
    requires o.version >= 0
  {
    [Encode(PrintNat(o.version)), Encode(o.suite), Encode(o.initiator), Encode(o.responder),
     o.initiatorEphemeral, o.initiatorSigning]
  }

  /** HandshakeOffer.signature_payload */
  function OfferPayload(lib: Calls, o: Offer): Bytes
    requires ValidOfferFields(lib, o)
  {
    OfferFieldsShort(lib, o);
    OFFER_TAG + JoinFields(OfferFields(o))
  }

  function TranscriptFields(o: Offer, r: Response): seq<Bytes>
    requires o.version >= 0
  {
    OfferFields(o) + [o.signature, r.responderEphemeral, r.responderSigning]
  }

  /** `handshake_transcript`; it raises ValueError when the response does not fit the offer. */
  function Transcript(lib: Calls, o: Offer, r: Response): (b: Bytes)
    requires ValidOffer(lib, o) && ValidResponse(lib, r)
  {
    OfferFieldsShort(lib, o);
    TRANSCRIPT_TAG + JoinFields(TranscriptFields(o, r))
  }

  /** HandshakeResponse.signature_payload */
  function ResponsePayload(lib: Calls, o: Offer, r: Response): Bytes
    requires ValidOffer(lib, o) && ValidResponse(lib, r)
  {
    TranscriptShort(lib, o, r);
    RESPONSE_TAG + JoinFields([Transcript(lib, o, r), r.responderConfirmation])
  }

  /** HandshakeConfirmation.signature_payload */
  function ConfirmationPayload(lib: Calls, o: Offer, r: Response, c: Confirmation): Bytes
    requires ValidOffer(lib, o) && ValidResponse(lib, r) && ValidConfirmation(lib, c)
  {
    TranscriptShort(lib, o, r);
    CONFIRMATION_TAG + JoinFields([Transcript(lib, o, r), r.responderConfirmation, c.initiatorConfirmation])
  }

  lemma OfferFieldsShort(lib: Calls, o: Offer)
    requires ValidOfferFields(lib, o)
    ensures Short(OfferFields(o))
    ensures forall i | 0 <= i < |OfferFields(o)| :: |OfferFields(o)[i]| <= 255
  {
    assert |Encode(o.suite)| <= 17 by {
      assert AsciiText(o.suite);
      EncodeAscii(o.suite);
    }
    assert PrintNat(o.version) == [49];
    EncodeAscii([49]);
  }

  lemma {:induction false} JoinedSize(fields: seq<Bytes>)
    requires Short(fields) && forall i | 0 <= i < |fields| :: |fields[i]| <= 255
    ensures |JoinFields(fields)| <= 259 * |fields|
  {
    if fields != [] {
      JoinedSize(fields[1..]);
    }
  }

  lemma TranscriptShort(lib: Calls, o: Offer, r: Response)
    requires ValidOffer(lib, o) && ValidResponse(lib, r)
    ensures |Transcript(lib, o, r)| < 0x1_0000_0000
  {
    OfferFieldsShort(lib, o);
    JoinedSize(TranscriptFields(o, r));
  }

  // ---------- what equal bytes imply ----------

  lemma AfterTag(tag: Bytes, a: Bytes, b: Bytes)
    requires tag + a == tag + b
    ensures a == b
  {
    assert (tag + a)[|tag|..] == a && (tag + b)[|tag|..] == b;
  }

  lemma OfferFieldsDetermine(lib: Calls, o: Offer, p: Offer)
    requires ValidOfferFields(lib, o) && ValidOfferFields(lib, p)
    requires OfferFields(o) == OfferFields(p)
    ensures o == p.(signature := o.signature)
  {
    var a, b := OfferFields(o), OfferFields(p);
    assert a[1] == b[1] && a[2] == b[2] && a[3] == b[3] && a[4] == b[4] && a[5] == b[5];
    EncodeInjective(o.suite, p.suite);
    EncodeInjective(o.initiator, p.initiator);
    EncodeInjective(o.responder, p.responder);
  }

  /** Equal offer payloads cover equal offers: everything but the signature. */
  lemma OfferPayloadInjective(lib: Calls, o: Offer, p: Offer)
    requires ValidOfferFields(lib, o) && ValidOfferFields(lib, p)
    requires OfferPayload(lib, o) == OfferPayload(lib, p)
    ensures o == p.(signature := o.signature)
  {
    OfferFieldsShort(lib, o);
    OfferFieldsShort(lib, p);
    AfterTag(OFFER_TAG, JoinFields(OfferFields(o)), JoinFields(OfferFields(p)));
    JoinFieldsInjective(OfferFields(o), OfferFields(p));
    OfferFieldsDetermine(lib, o, p);
  }

  /** Equal transcripts come from one offer, signature included, and equal responder keys. */
  lemma TranscriptInjective(lib: Calls, o: Offer, r: Response, p: Offer, q: Response)
    requires ValidOffer(lib, o) && ValidResponse(lib, r) && ValidOffer(lib, p) && ValidResponse(lib, q)
    requires Transcript(lib, o, r) == Transcript(lib, p, q)
    ensures o == p
    ensures r.responderEphemeral == q.responderEphemeral && r.responderSigning == q.responderSigning
  {
    OfferFieldsShort(lib, o);
    OfferFieldsShort(lib, p);
    var a, b := TranscriptFields(o, r), TranscriptFields(p, q);
    AfterTag(TRANSCRIPT_TAG, JoinFields(a), JoinFields(b));
    JoinFieldsInjective(a, b);
    assert a[..6] == OfferFields(o) && b[..6] == OfferFields(p);
    assert a[6] == b[6] && a[7] == b[7] && a[8] == b[8];
    OfferFieldsDetermine(lib, o, p);
  }

  lemma ResponsePayloadInjective(lib: Calls, o: Offer, r: Response, p: Offer, q: Response)
    requires ValidOffer(lib, o) && ValidResponse(lib, r) && ValidOffer(lib, p) && ValidResponse(lib, q)
    requires ResponsePayload(lib, o, r) == ResponsePayload(lib, p, q)
    ensures Transcript(lib, o, r) == Transcript(lib, p, q)
    ensures o == p
    ensures r.responderEphemeral == q.responderEphemeral && r.responderSigning == q.responderSigning
    ensures r.responderConfirmation == q.responderConfirmation
  {
    TranscriptShort(lib, o, r);
    TranscriptShort(lib, p, q);
    var a: seq<Bytes> := [Transcript(lib, o, r), r.responderConfirmation];
    var b: seq<Bytes> := [Transcript(lib, p, q), q.responderConfirmation];
    AfterTag(RESPONSE_TAG, JoinFields(a), JoinFields(b));
    JoinFieldsInjective(a, b);
    assert a[0] == b[0] && a[1] == b[1];
    TranscriptInjective(lib, o, r, p, q);
  }

  lemma ConfirmationPayloadInjective(lib: Calls, o: Offer, r: Response, c: Confirmation,
                                     p: Offer, q: Response, d: Confirmation)
    requires ValidOffer(lib, o) && ValidResponse(lib, r) && ValidConfirmation(lib, c)
    requires ValidOffer(lib, p) && ValidResponse(lib, q) && ValidConfirmation(lib, d)
    requires ConfirmationPayload(lib, o, r, c) == ConfirmationPayload(lib, p, q, d)
    ensures Transcript(lib, o, r) == Transcript(lib, p, q)
    ensures o == p
    ensures r.responderEphemeral == q.responderEphemeral && r.responderSigning == q.responderSigning
    ensures r.responderConfirmation == q.responderConfirmation
    ensures c.initiatorConfirmation == d.initiatorConfirmation
  {
    hide Transcript, EncodeField;
    TranscriptShort(lib, o, r);
    TranscriptShort(lib, p, q);
    var a: seq<Bytes> := [Transcript(lib, o, r), r.responderConfirmation, c.initiatorConfirmation];
    var b: seq<Bytes> := [Transcript(lib, p, q), q.responderConfirmation, d.initiatorConfirmation];
    AfterTag(CONFIRMATION_TAG, JoinFields(a), JoinFields(b));
    JoinFieldsInjective(a, b);
    assert a[0] == b[0] && a[1] == b[1] && a[2] == b[2];
    TranscriptInjective(lib, o, r, p, q);
  }

  lemma TagsDiffer()
    ensures |OFFER_TAG| >= 31 && |RESPONSE_TAG| >= 31 && |CONFIRMATION_TAG| >= 31
    ensures OFFER_TAG[23] == 'o' as int && RESPONSE_TAG[23] == 'r' as int && CONFIRMATION_TAG[23] == 'c' as int
  {
  }

  /** No byte string is a signing payload of two kinds. */
  lemma PayloadKindsDisjoint(lib: Calls, o: Offer, p: Offer, q: Response, s: Offer, t: Response, c: Confirmation)
    requires ValidOfferFields(lib, o)
    requires ValidOffer(lib, p) && ValidResponse(lib, q)
    requires ValidOffer(lib, s) && ValidResponse(lib, t) && ValidConfirmation(lib, c)
    ensures OfferPayload(lib, o) != ResponsePayload(lib, p, q)
    ensures OfferPayload(lib, o) != ConfirmationPayload(lib, s, t, c)
    ensures ResponsePayload(lib, p, q) != ConfirmationPayload(lib, s, t, c)
  {
    TagsDiffer();
    OfferFieldsShort(lib, o);
    TranscriptShort(lib, p, q);
    TranscriptShort(lib, s, t);
    assert OfferPayload(lib, o)[23] == 'o' as int;
    assert ResponsePayload(lib, p, q)[23] == 'r' as int;
    assert ConfirmationPayload(lib, s, t, c)[23] == 'c' as int;
  }
}
