/**
 Which messages the four handshake calls accept and how they report each refusal, in terms of the fields of the
 messages and the bytes handed to the libraries; and what an altered or resigned message meets.
 */
module Admission {
  import opened Basics
  import opened Establish
  import opened Handshake
  import opened Kdf
  import opened KeySchedule
  import opened Library
  import opened Payloads
  import opened Protocol
  import opened SignedBytes

  // ---------- SessionFactory ----------

  function OfferBytes(o: Offer): Bytes
    requires SuiteOf(o.suite).Some?
  {
    Ascii("CypherSyntax/handshake-offer/v1") + Context(o)
  }

  /** An initiator starts exactly between two different valid names; its offer says what it was given. */
  lemma InitiatorStartsExactly(lib: Calls, identity: Identity, remoteName: Text, remoteKey: Bytes, suite: Suite,
                               supplemental: Bytes, secret: Bytes)
    requires Lawful(lib)
    ensures var r := StartInitiator(lib, identity, remoteName, remoteKey, suite, supplemental, secret);
            && (r.Ok? <==> ValidName(lib, identity.name) && ValidName(lib, remoteName) && identity.name != remoteName)
            && (r.Err? ==> r.error == ValueError)
            && (r.Ok? ==>
                  var o := r.value.offer;
                  && r.value == Pending(identity, remoteKey, o, supplemental, Some(secret))
                  && o.version == 1 && o.suite == suite.Name() && SuiteOf(o.suite) == Some(suite)
                  && o.initiator == identity.name && o.responder == remoteName
                  && o.initiatorEphemeral == lib.publicKey(secret)
                  && o.initiatorSigning == lib.signingKey(identity.signingSecret)
                  && o.signature == lib.sign(identity.signingSecret, OfferBytes(o)))
  {
    SuiteNames(suite);
    var r := StartInitiator(lib, identity, remoteName, remoteKey, suite, supplemental, secret);
    if r.Ok? {
      StartedOfferIsValid(lib, identity, remoteName, remoteKey, suite, supplemental, secret);
      OfferPayloadIs(lib, r.value.offer);
    }
  }

  /**
   A responder answers an offer exactly when the offer is addressed to it, comes from the trusted key, is signed,
   and the two ephemeral keys differ and can be used together.
   */
  lemma ResponderStartsExactly(lib: Calls, identity: Identity, remoteKey: Bytes, offer: Offer, supplemental: Bytes,
                               secret: Bytes)
    requires Lawful(lib) && ValidOffer(lib, offer)
    ensures var r := StartResponder(lib, identity, remoteKey, offer, supplemental, secret);
            var addressed := identity.name == offer.responder;
            var trusted := offer.initiatorSigning == remoteKey;
            var signed := lib.verify(OfferBytes(offer), offer.signature, remoteKey);
            && (r.Ok? <==>
                  && addressed && trusted && signed
                  && lib.exchange(secret, offer.initiatorEphemeral).Some?
                  && lib.publicKey(secret) != offer.initiatorEphemeral)
            && (!addressed ==> r == Err(ValueError))
            && (addressed && !(trusted && signed) ==> r == Err(InvalidSignatureError))
            && (addressed && trusted && signed && r.Err? ==> r.error == ValueError)
  {
    hide Context;
    OfferPayloadIs(lib, offer);
    assert ValidOfferFields(lib, offer);
    assert |lib.publicKey(secret)| == 32 && |lib.signingKey(identity.signingSecret)| == 32;
  }

  // ---------- InitiatorHandshake.complete ----------

  function ResponseBytes(o: Offer, r: Response): Bytes
    requires SuiteOf(o.suite).Some?
  {
    Ascii("CypherSyntax/handshake-response-signature/v1") + Field(TranscriptBytes(o, r))
    + ([0, 0, 0, 32] + r.responderConfirmation)
  }

  function HashOf(lib: Calls, o: Offer, r: Response): Bytes
    requires SuiteOf(o.suite).Some?
  {
    lib.sha256(TranscriptBytes(o, r))
  }

  function RootOf(lib: Calls, shared: Bytes, hash: Bytes, supplemental: Bytes): Bytes {
    lib.hkdf(HkdfQuery(shared + supplemental, 32, Some(hash), Ascii("CypherSyntax/session-root/v1")))
  }

  /**
   An open initiator completes exactly on a response that repeats its offer, comes from the trusted key, is signed,
   and confirms the root; each check that fails first names the error.
   */
  lemma InitiatorCompletesExactly(lib: Calls, x: Pending, r: Response)
    requires Lawful(lib) && ValidOffer(lib, x.offer) && ValidResponse(lib, r)
    ensures var done := InitiatorComplete(lib, x, r);
            var o := x.offer;
            var fits := r.version == o.version && r.suite == o.suite && r.initiator == o.initiator
                        && r.responder == o.responder && r.initiatorEphemeral == o.initiatorEphemeral
                        && r.initiatorSigning == o.initiatorSigning;
            var genuine := r.responderSigning == x.remoteKey
                           && lib.verify(ResponseBytes(o, r), r.signature, x.remoteKey);
            && (x.ephemeral.None? ==> done == Err(AlreadyCompleted))
            && (x.ephemeral.Some? ==>
                  var shared := lib.exchange(x.ephemeral.value, r.responderEphemeral);
                  var confirmed := shared.Some? &&
                                   r.responderConfirmation
                                   == lib.hmac(RootOf(lib, shared.value, HashOf(lib, o, r), x.supplemental),
                                               ConfirmationBytes("responder", HashOf(lib, o, r)));
                  && (done.Ok? <==> fits && genuine && confirmed)
                  && (!fits ==> done == Err(ValueError))
                  && (fits && !genuine ==> done == Err(InvalidSignatureError))
                  && (fits && genuine && shared.None? ==> done == Err(ValueError))
                  && (fits && genuine && shared.Some? && !confirmed ==> done == Err(KeyConfirmationError)))
  {
    hide TranscriptBytes, ConfirmationBytes, KeyConfirmation, Transcript, ResponsePayload, Ascii;
    ResponsePayloadIs(lib, x.offer, r);
    TranscriptIs(lib, x.offer, r);
    if x.ephemeral.Some? && lib.exchange(x.ephemeral.value, r.responderEphemeral).Some? {
      var shared := lib.exchange(x.ephemeral.value, r.responderEphemeral).value;
      RootBytes(lib, shared, HashOf(lib, x.offer, r), x.supplemental);
      ConfirmationIs(lib, RootOf(lib, shared, HashOf(lib, x.offer, r), x.supplemental), HashOf(lib, x.offer, r));
    }
  }

  lemma RootBytes(lib: Calls, shared: Bytes, hash: Bytes, supplemental: Bytes)
    ensures SessionRoot(lib, shared, hash, supplemental) == RootOf(lib, shared, hash, supplemental)
  {
  }

  function ConfirmationSigned(o: Offer, r: Response, c: Confirmation): Bytes
    requires SuiteOf(o.suite).Some?
  {
    Ascii("CypherSyntax/handshake-confirmation-signature/v1") + Field(TranscriptBytes(o, r))
    + ([0, 0, 0, 32] + r.responderConfirmation) + ([0, 0, 0, 32] + c.initiatorConfirmation)
  }

  /** A completed initiator's confirmation and session, field by field. */
  lemma InitiatorCompletion(lib: Calls, x: Pending, r: Response)
    requires Lawful(lib) && ValidOffer(lib, x.offer) && ValidResponse(lib, r) && InitiatorComplete(lib, x, r).Ok?
    ensures x.ephemeral.Some? && lib.exchange(x.ephemeral.value, r.responderEphemeral).Some?
    ensures var done := InitiatorComplete(lib, x, r).value;
            var o, c, s := x.offer, done.confirmation, done.session;
            var root := RootOf(lib, lib.exchange(x.ephemeral.value, r.responderEphemeral).value, HashOf(lib, o, r), x.supplemental);
            && c.version == o.version && c.suite == o.suite && c.initiator == o.initiator && c.responder == o.responder
            && c.initiatorEphemeral == o.initiatorEphemeral && c.responderEphemeral == r.responderEphemeral
            && c.initiatorConfirmation == lib.hmac(root, ConfirmationBytes("initiator", HashOf(lib, o, r)))
            && c.signature == lib.sign(x.identity.signingSecret, ConfirmationSigned(o, r, c))
            && s.localName == o.initiator && s.remoteName == o.responder
            && Some(s.suite) == SuiteOf(o.suite) && s.rootKey == root
            && s.localEphemeral == o.initiatorEphemeral && s.remoteEphemeral == r.responderEphemeral
            && s.sendSequence == 0 && s.window.size == 1024 && s.window.highest == -1 && s.window.seen == {}
  {
    hide TranscriptBytes, ConfirmationBytes, KeyConfirmation, Transcript, ResponsePayload, ConfirmationPayload, Ascii;
    CompletedInitiatorHolds(lib, x, r);
    ConfirmationPayloadIs(lib, x.offer, r, InitiatorComplete(lib, x, r).value.confirmation);
    TranscriptIs(lib, x.offer, r);
    var shared := lib.exchange(x.ephemeral.value, r.responderEphemeral).value;
    RootBytes(lib, shared, HashOf(lib, x.offer, r), x.supplemental);
    ConfirmationIs(lib, RootOf(lib, shared, HashOf(lib, x.offer, r), x.supplemental), HashOf(lib, x.offer, r));
  }

  // ---------- ResponderHandshake.complete ----------

  /**
   An open responder completes exactly on a confirmation that repeats its response, is signed by the trusted key,
   and confirms the root; each check that fails first names the error. The session is that of the stored fields.
   */
  lemma ResponderCompletesExactly(lib: Calls, x: Awaiting, c: Confirmation)
    requires Lawful(lib) && ValidOffer(lib, x.offer) && ValidResponse(lib, x.response) && ValidConfirmation(lib, c)
    ensures var done := ResponderComplete(lib, x, c);
            var o, r := x.offer, x.response;
            var fits := c.version == r.version == o.version && c.suite == r.suite == o.suite
                        && c.initiator == r.initiator == o.initiator && c.responder == r.responder == o.responder
                        && c.initiatorEphemeral == r.initiatorEphemeral == o.initiatorEphemeral
                        && c.responderEphemeral == r.responderEphemeral && r.initiatorSigning == o.initiatorSigning;
            var signed := lib.verify(ConfirmationSigned(o, r, c), c.signature, x.remoteKey);
            && (x.root.None? ==> done == Err(AlreadyCompleted))
            && (x.root.Some? ==>
                  var confirmed := c.initiatorConfirmation
                                   == lib.hmac(x.root.value, ConfirmationBytes("initiator", HashOf(lib, o, r)));
                  && (done.Ok? <==> fits && signed && confirmed)
                  && (!fits ==> done == Err(ValueError))
                  && (fits && !signed ==> done == Err(InvalidSignatureError))
                  && (fits && signed && !confirmed ==> done == Err(KeyConfirmationError))
                  && (done.Ok? ==> done.value == NewSession(o.responder, o.initiator, x.suite, x.root.value,
                                                            r.responderEphemeral, o.initiatorEphemeral)))
  {
    hide TranscriptBytes, ConfirmationBytes, KeyConfirmation, Transcript, ConfirmationPayload, Ascii, NewSession;
    ConfirmationPayloadIs(lib, x.offer, x.response, c);
    TranscriptIs(lib, x.offer, x.response);
    if x.root.Some? {
      ConfirmationIs(lib, x.root.value, HashOf(lib, x.offer, x.response));
    }
  }

  // ---------- altered and resigned messages ----------

  /** All confirmations that one responder accepts are one confirmation, up to its signature. */
  lemma AcceptedConfirmationIsUnique(lib: Calls, x: Awaiting, c: Confirmation, d: Confirmation)
    requires Lawful(lib) && ValidOffer(lib, x.offer) && ValidResponse(lib, x.response)
    requires ValidConfirmation(lib, c) && ValidConfirmation(lib, d)
    requires ResponderComplete(lib, x, c).Ok? && ResponderComplete(lib, x, d).Ok?
    ensures d == c.(signature := d.signature)
  {
    hide ConfirmationSigned, ConfirmationBytes, HashOf, ResponderComplete;
    ResponderCompletesExactly(lib, x, c);
    ResponderCompletesExactly(lib, x, d);
  }

  /**
   The signature of a confirmation does not cover its suite, its names or its keys: with any of them altered it
   still verifies. The responder raises all the same, and the object stays as it was.
   */
  lemma AlteredConfirmationIsRefused(lib: Calls, x: Awaiting, c: Confirmation, d: Confirmation)
    requires Lawful(lib) && ValidOffer(lib, x.offer) && ValidResponse(lib, x.response)
    requires ValidConfirmation(lib, c) && ValidConfirmation(lib, d) && ResponderComplete(lib, x, c).Ok?
    requires d.signature == c.signature && d.initiatorConfirmation == c.initiatorConfirmation && d != c
    ensures lib.verify(ConfirmationSigned(x.offer, x.response, d), d.signature, x.remoteKey)
    ensures ResponderComplete(lib, x, d) == Err(ValueError) && AfterResponderComplete(lib, x, d) == x
  {
    hide ConfirmationBytes, HashOf, ResponderComplete, TranscriptBytes, Field, Ascii;
    ResponderCompletesExactly(lib, x, c);
    ResponderCompletesExactly(lib, x, d);
  }

  /**
   Another key confirmation, signed again with the initiator's own key: the signature verifies, the responder
   raises KeyConfirmationError, and the object stays as it was.
   */
  lemma ResignedConfirmationIsRefused(lib: Calls, x: Awaiting, c: Confirmation, secret: Bytes, other: Bytes)
    requires Lawful(lib) && ValidOffer(lib, x.offer) && ValidResponse(lib, x.response) && ValidConfirmation(lib, c)
    requires ResponderComplete(lib, x, c).Ok? && x.remoteKey == lib.signingKey(secret)
    requires |other| == 32 && other != c.initiatorConfirmation
    ensures var forged := c.(initiatorConfirmation := other);
            var d := forged.(signature := lib.sign(secret, ConfirmationSigned(x.offer, x.response, forged)));
            && ValidConfirmation(lib, d)
            && ResponderComplete(lib, x, d) == Err(KeyConfirmationError) && AfterResponderComplete(lib, x, d) == x
  {
    hide ConfirmationBytes, HashOf, ResponderComplete, TranscriptBytes, Field, Ascii;
    var forged := c.(initiatorConfirmation := other);
    var d := forged.(signature := lib.sign(secret, ConfirmationSigned(x.offer, x.response, forged)));
    assert ConfirmationSigned(x.offer, x.response, d) == ConfirmationSigned(x.offer, x.response, forged);
    ResponderCompletesExactly(lib, x, c);
    ResponderCompletesExactly(lib, x, d);
  }

  /** Of the responses with one ephemeral and signing key, an initiator accepts one, up to its signature. */
  lemma AcceptedResponseIsUnique(lib: Calls, x: Pending, r: Response, q: Response)
    requires Lawful(lib) && ValidOffer(lib, x.offer) && ValidResponse(lib, r) && ValidResponse(lib, q)
    requires InitiatorComplete(lib, x, r).Ok? && InitiatorComplete(lib, x, q).Ok?
    requires r.responderEphemeral == q.responderEphemeral
    ensures q == r.(signature := q.signature)
  {
    hide ConfirmationBytes, ResponseBytes, InitiatorComplete, RootOf;
    InitiatorCompletesExactly(lib, x, r);
    InitiatorCompletesExactly(lib, x, q);
    assert TranscriptBytes(x.offer, r) == TranscriptBytes(x.offer, q);
  }

  /** Whatever signature it carries, a response that confirms another root is refused and changes nothing. */
  lemma ResignedResponseIsRefused(lib: Calls, x: Pending, r: Response, secret: Bytes, other: Bytes)
    requires Lawful(lib) && ValidOffer(lib, x.offer) && ValidResponse(lib, r) && InitiatorComplete(lib, x, r).Ok?
    requires x.remoteKey == lib.signingKey(secret) && |other| == 32 && other != r.responderConfirmation
    ensures var forged := r.(responderConfirmation := other);
            var q := forged.(signature := lib.sign(secret, ResponseBytes(x.offer, forged)));
            && ValidResponse(lib, q)
            && InitiatorComplete(lib, x, q) == Err(KeyConfirmationError) && AfterInitiatorComplete(lib, x, q) == x
  {
    hide ConfirmationBytes, InitiatorComplete, RootOf, Field, Ascii;
    var forged := r.(responderConfirmation := other);
    var q := forged.(signature := lib.sign(secret, ResponseBytes(x.offer, forged)));
    assert TranscriptBytes(x.offer, q) == TranscriptBytes(x.offer, r) == TranscriptBytes(x.offer, forged);
    assert ResponseBytes(x.offer, q) == ResponseBytes(x.offer, forged);
    InitiatorCompletesExactly(lib, x, r);
    InitiatorCompletesExactly(lib, x, q);
  }

  /** An offer for somebody else is refused, whoever signed it. */
  lemma MisaddressedOfferIsRefused(lib: Calls, alice: Identity, carol: Text, bob: Identity, anchor: Bytes, suite: Suite,
                                   supplemental: Bytes, a: Bytes, b: Bytes)
    requires Lawful(lib) && bob.name != carol
    requires StartInitiator(lib, alice, carol, anchor, suite, supplemental, a).Ok?
    ensures var o := StartInitiator(lib, alice, carol, anchor, suite, supplemental, a).value.offer;
            && ValidOffer(lib, o) && lib.verify(OfferBytes(o), o.signature, lib.signingKey(alice.signingSecret))
            && StartResponder(lib, bob, lib.signingKey(alice.signingSecret), o, supplemental, b) == Err(ValueError)
  {
    hide StartInitiator, StartResponder, OfferBytes;
    InitiatorStartsExactly(lib, alice, carol, anchor, suite, supplemental, a);
    StartedOfferIsValid(lib, alice, carol, anchor, suite, supplemental, a);
    ResponderStartsExactly(lib, bob, lib.signingKey(alice.signingSecret),
                           StartInitiator(lib, alice, carol, anchor, suite, supplemental, a).value.offer, supplemental, b);
  }
}
