/** The exact bytes that the handshake signs and hashes: label, fields, order and length prefixes. */
module SignedBytes {
  import opened Basics
  import opened Handshake
  import opened KeySchedule
  import opened Library
  import opened Payloads
  import opened Utf8

  /** A value behind its length in four bytes. */
  function Field(value: Bytes): Bytes {
    seq(4, i requires 0 <= i < 4 => Digit(|value|, 3 - i)) + value
  }

  /** What an offer and a transcript start with, after their labels. */
  function Context(o: Offer): Bytes
    requires SuiteOf(o.suite).Some?
  {
    Field(Ascii("1")) + SuiteField(SuiteOf(o.suite).value) + Field(Encode(o.initiator)) + Field(Encode(o.responder))
    + ([0, 0, 0, 32] + o.initiatorEphemeral) + ([0, 0, 0, 32] + o.initiatorSigning)
  }

  function TranscriptBytes(o: Offer, r: Response): Bytes
    requires SuiteOf(o.suite).Some?
  {
    Ascii("CypherSyntax/handshake-transcript/v1") + Context(o) + ([0, 0, 0, 64] + o.signature)
    + ([0, 0, 0, 32] + r.responderEphemeral) + ([0, 0, 0, 32] + r.responderSigning)
  }

  lemma FieldIs(value: Bytes)
    requires |value| < 0x1_0000_0000
    ensures EncodeField(value) == Field(value)
  {
    forall i | 0 <= i < 4
      ensures BigEndian(|value|, 4)[i] == Digit(|value|, 3 - i)
    {
      BigEndianDigit(|value|, 4, i);
    }
  }

  lemma {:induction false} JoinAppend(a: seq<Bytes>, b: seq<Bytes>)
    requires Short(a) && Short(b)
    ensures Short(a + b) && JoinFields(a + b) == JoinFields(a) + JoinFields(b)
  {
    hide EncodeField;
    if a == [] {
      assert a + b == b;
    } else {
      assert (a + b)[1..] == a[1..] + b;
      JoinAppend(a[1..], b);
    }
  }

  lemma JoinOne(a: Bytes)
    requires |a| < 0x1_0000_0000
    ensures JoinFields([a]) == EncodeField(a)
  {
    assert [a][1..] == [];
  }

  lemma JoinTwo(a: Bytes, b: Bytes)
    requires |a| < 0x1_0000_0000 && |b| < 0x1_0000_0000
    ensures JoinFields([a, b]) == EncodeField(a) + EncodeField(b)
  {
    JoinAppend([a], [b]);
    assert [a, b] == [a] + [b];
    JoinOne(a);
    JoinOne(b);
  }

  lemma JoinThree(a: Bytes, b: Bytes, c: Bytes)
    requires |a| < 0x1_0000_0000 && |b| < 0x1_0000_0000 && |c| < 0x1_0000_0000
    ensures JoinFields([a, b, c]) == EncodeField(a) + EncodeField(b) + EncodeField(c)
  {
    JoinAppend([a, b], [c]);
    assert [a, b, c] == [a, b] + [c];
    JoinTwo(a, b);
    JoinOne(c);
  }

  lemma VersionBytes()
    ensures Encode([49]) == Ascii("1")
  {
    AsciiBytes([49]);
  }

  lemma ContextIs(lib: Calls, o: Offer)
    requires ValidOfferFields(lib, o)
    ensures Short(OfferFields(o)) && JoinFields(OfferFields(o)) == Context(o)
  {
    hide EncodeField, Encode, Ascii, SuiteField, JoinFields, Field;
    OfferFieldsShort(lib, o);
    var f := OfferFields(o);
    VersionBytes();
    SuiteNameBytes(SuiteOf(o.suite).value);
    assert f[0] == Ascii("1");
    assert f == f[..3] + f[3..];
    JoinAppend(f[..3], f[3..]);
    JoinThree(f[0], f[1], f[2]);
    JoinThree(f[3], f[4], f[5]);
    assert f[..3] == [f[0], f[1], f[2]] && f[3..] == [f[3], f[4], f[5]];
    FieldIs(f[0]);
    FieldIs(f[2]);
    FieldIs(f[3]);
    ShortField(f[4]);
    ShortField(f[5]);
  }

  /** An offer's signature covers its label and every field but itself. */
  lemma OfferPayloadIs(lib: Calls, o: Offer)
    requires ValidOfferFields(lib, o)
    ensures OfferPayload(lib, o) == Ascii("CypherSyntax/handshake-offer/v1") + Context(o)
  {
    ContextIs(lib, o);
  }

  /** A transcript covers the whole offer, its signature included, and the responder's two keys. */
  lemma TranscriptIs(lib: Calls, o: Offer, r: Response)
    requires ValidOffer(lib, o) && ValidResponse(lib, r)
    ensures Transcript(lib, o, r) == TranscriptBytes(o, r)
  {
    hide EncodeField, Encode, Ascii, SuiteField, JoinFields, Context;
    ContextIs(lib, o);
    var keys: seq<Bytes> := [o.signature, r.responderEphemeral, r.responderSigning];
    JoinAppend(OfferFields(o), keys);
    JoinThree(keys[0], keys[1], keys[2]);
    assert keys == [keys[0], keys[1], keys[2]];
    ShortField(o.signature);
    ShortField(r.responderEphemeral);
    ShortField(r.responderSigning);
  }

  /** A response's signature covers the transcript and the responder's confirmation. */
  lemma ResponsePayloadIs(lib: Calls, o: Offer, r: Response)
    requires ValidOffer(lib, o) && ValidResponse(lib, r)
    ensures ResponsePayload(lib, o, r)
            == Ascii("CypherSyntax/handshake-response-signature/v1") + Field(TranscriptBytes(o, r))
               + ([0, 0, 0, 32] + r.responderConfirmation)
  {
    hide EncodeField, Ascii, JoinFields, Transcript, TranscriptBytes, Field;
    TranscriptShort(lib, o, r);
    TranscriptIs(lib, o, r);
    JoinTwo(Transcript(lib, o, r), r.responderConfirmation);
    FieldIs(Transcript(lib, o, r));
    ShortField(r.responderConfirmation);
  }

  /** A confirmation's signature covers the transcript and both confirmations. */
  lemma ConfirmationPayloadIs(lib: Calls, o: Offer, r: Response, c: Confirmation)
    requires ValidOffer(lib, o) && ValidResponse(lib, r) && ValidConfirmation(lib, c)
    ensures ConfirmationPayload(lib, o, r, c)
            == Ascii("CypherSyntax/handshake-confirmation-signature/v1") + Field(TranscriptBytes(o, r))
               + ([0, 0, 0, 32] + r.responderConfirmation) + ([0, 0, 0, 32] + c.initiatorConfirmation)
  {
    hide EncodeField, Ascii, JoinFields, Transcript, TranscriptBytes, Field;
    TranscriptShort(lib, o, r);
    TranscriptIs(lib, o, r);
    JoinThree(Transcript(lib, o, r), r.responderConfirmation, c.initiatorConfirmation);
    FieldIs(Transcript(lib, o, r));
    ShortField(r.responderConfirmation);
    ShortField(c.initiatorConfirmation);
  }
}
