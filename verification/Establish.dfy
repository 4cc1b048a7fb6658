/** The three-message handshake: the four steps as functions, and the two stateful classes. */
module Establish {
  import opened Basics
  import opened Handshake
  import opened Kdf
  import opened Library
  import opened Payloads
  import opened Protocol
  import opened Replay
  import opened Session

  /** An Identity, as far as the handshake uses it: a name and an Ed25519 private key. */
  datatype Identity = Identity(name: Text, signingSecret: Bytes)

  /** The fields of an InitiatorHandshake. */
  datatype Pending = Pending(
    identity: Identity, remoteKey: Bytes, offer: Offer, supplemental: Bytes, ephemeral: Option<Bytes>)

  /** The fields of a ResponderHandshake. */
  datatype Awaiting = Awaiting(
    remoteKey: Bytes, offer: Offer, response: Response, suite: Suite, root: Option<Bytes>)

  datatype Started = Started(response: Response, awaiting: Awaiting)
  datatype Completed = Completed(confirmation: Confirmation, session: SessionValue)

  const NO_CONFIRMATION: Bytes := Zeros(32)
  const NO_SIGNATURE: Bytes := Zeros(64)

  function NewSession(local: Text, remote: Text, suite: Suite, root: Bytes, localEphemeral: Bytes, remoteEphemeral: Bytes)
    : SessionValue
  {
    SessionValue(local, remote, suite, root, localEphemeral, remoteEphemeral, 0, Fresh(DEFAULT_WINDOW))
  }

  // ---------- SessionFactory ----------

  /** SessionFactory.initiator; `secret` is the freshly generated X25519 private key. */
  function StartInitiator(lib: Calls, identity: Identity, remoteName: Text, remoteKey: Bytes, suite: Suite,
                          supplemental: Bytes, secret: Bytes): Result<Pending>
    requires Lawful(lib)
  {
    var unsigned := Offer(PROTOCOL_VERSION, suite.Name(), identity.name, remoteName,
                          lib.publicKey(secret), lib.signingKey(identity.signingSecret), NO_SIGNATURE);
    :- Need(ValidOfferFields(lib, unsigned), ValueError);
    var offer := unsigned.(signature := lib.sign(identity.signingSecret, OfferPayload(lib, unsigned)));
    Ok(Pending(identity, remoteKey, offer, supplemental, Some(secret)))
  }

  /** The transcript hash of a valid offer and response. */
  function TranscriptHash(lib: Calls, o: Offer, r: Response): Bytes
    requires ValidOffer(lib, o) && ValidResponse(lib, r)
  {
    lib.sha256(Transcript(lib, o, r))
  }

  /** SessionFactory.responder */
  function StartResponder(lib: Calls, identity: Identity, remoteKey: Bytes, offer: Offer, supplemental: Bytes,
                          secret: Bytes): Result<Started>
    requires Lawful(lib) && ValidOffer(lib, offer)
  {
    var addressed := identity.name == offer.responder;
    :- Need(addressed, ValueError);
    :- Need(offer.initiatorSigning == remoteKey, InvalidSignatureError);
    :- Need(lib.verify(OfferPayload(lib, offer), offer.signature, remoteKey), InvalidSignatureError);
    var suite := SuiteOf(offer.suite).value;
    var ephemeral := lib.publicKey(secret);
    var signing := lib.signingKey(identity.signingSecret);
    var shared := lib.exchange(secret, offer.initiatorEphemeral);
    :- Need(shared.Some?, ValueError);
    var provisional := FromOffer(offer, ephemeral, signing, NO_CONFIRMATION, NO_SIGNATURE);
    :- Need(ValidResponse(lib, provisional), ValueError);
    var hash := TranscriptHash(lib, offer, provisional);
    var root := SessionRoot(lib, shared.value, hash, supplemental);
    var confirmation := KeyConfirmation(lib, root, hash, ResponderRole);
    var unsigned := FromOffer(offer, ephemeral, signing, confirmation, NO_SIGNATURE);
    var signature := lib.sign(identity.signingSecret, ResponsePayload(lib, offer, unsigned));
    var response := FromOffer(offer, ephemeral, signing, confirmation, signature);
    Ok(Started(response, Awaiting(remoteKey, offer, response, suite, Some(root))))
  }

  // ---------- complete ----------

  /** InitiatorHandshake.complete, as a function of the fields. */
  function InitiatorComplete(lib: Calls, x: Pending, response: Response): Result<Completed>
    requires Lawful(lib) && ValidOffer(lib, x.offer) && ValidResponse(lib, response)
  {
    var open := x.ephemeral.Some?;
    :- Need(open, AlreadyCompleted);
    :- Need(ResponseFitsOffer(response, x.offer), ValueError);
    :- Need(response.responderSigning == x.remoteKey, InvalidSignatureError);
    :- Need(lib.verify(ResponsePayload(lib, x.offer, response), response.signature, x.remoteKey), InvalidSignatureError);
    var suite := SuiteOf(response.suite).value;
    var shared := lib.exchange(x.ephemeral.value, response.responderEphemeral);
    :- Need(shared.Some?, ValueError);
    var hash := TranscriptHash(lib, x.offer, response);
    var root := SessionRoot(lib, shared.value, hash, x.supplemental);
    :- Need(response.responderConfirmation == KeyConfirmation(lib, root, hash, ResponderRole), KeyConfirmationError);
    var unsigned := Confirmation(response.version, response.suite, response.initiator, response.responder,
                                 response.initiatorEphemeral, response.responderEphemeral,
                                 KeyConfirmation(lib, root, hash, InitiatorRole), NO_SIGNATURE);
    var signature := lib.sign(x.identity.signingSecret, ConfirmationPayload(lib, x.offer, response, unsigned));
    Ok(Completed(unsigned.(signature := signature),
                 NewSession(x.offer.initiator, x.offer.responder, suite, root,
                            x.offer.initiatorEphemeral, response.responderEphemeral)))
  }

  /** The fields afterwards: only a normal return forgets the private key. */
  function AfterInitiatorComplete(lib: Calls, x: Pending, response: Response): Pending
    requires Lawful(lib) && ValidOffer(lib, x.offer) && ValidResponse(lib, response)
  {
    if InitiatorComplete(lib, x, response).Ok? then x.(ephemeral := None) else x
  }

  /** ResponderHandshake.complete, as a function of the fields. */
  function ResponderComplete(lib: Calls, x: Awaiting, confirmation: Confirmation): Result<SessionValue>
    requires Lawful(lib) && ValidOffer(lib, x.offer) && ValidResponse(lib, x.response)
    requires ValidConfirmation(lib, confirmation)
  {
    var open := x.root.Some?;
    :- Need(open, AlreadyCompleted);
    :- Need(ConfirmationFitsResponse(confirmation, x.response), ValueError);
    :- Need(ResponseFitsOffer(x.response, x.offer), ValueError);
    :- Need(lib.verify(ConfirmationPayload(lib, x.offer, x.response, confirmation), confirmation.signature, x.remoteKey),
            InvalidSignatureError);
    var hash := TranscriptHash(lib, x.offer, x.response);
    :- Need(confirmation.initiatorConfirmation == KeyConfirmation(lib, x.root.value, hash, InitiatorRole),
            KeyConfirmationError);
    Ok(NewSession(x.offer.responder, x.offer.initiator, x.suite, x.root.value,
                  x.response.responderEphemeral, x.offer.initiatorEphemeral))
  }

  function AfterResponderComplete(lib: Calls, x: Awaiting, confirmation: Confirmation): Awaiting
    requires Lawful(lib) && ValidOffer(lib, x.offer) && ValidResponse(lib, x.response)
    requires ValidConfirmation(lib, confirmation)
  {
    if ResponderComplete(lib, x, confirmation).Ok? then x.(root := None) else x
  }

  // ---------- what the steps produce ----------

  lemma StartedOfferIsValid(lib: Calls, identity: Identity, remoteName: Text, remoteKey: Bytes, suite: Suite,
                            supplemental: Bytes, secret: Bytes)
    requires Lawful(lib)
    requires StartInitiator(lib, identity, remoteName, remoteKey, suite, supplemental, secret).Ok?
    ensures var x := StartInitiator(lib, identity, remoteName, remoteKey, suite, supplemental, secret).value;
            && ValidOffer(lib, x.offer)
            && x.offer.signature == lib.sign(identity.signingSecret, OfferPayload(lib, x.offer))
            && SuiteOf(x.offer.suite) == Some(suite)
  {
    SuiteNames(suite);
  }

  lemma SuiteNames(suite: Suite)
    ensures SuiteOf(suite.Name()) == Some(suite)
  {
    assert AesGcmSiv.Name()[1] == 'E' as int && ChaCha20Poly1305.Name()[1] == 'H' as int;
  }

  /** A response's transcript does not cover its confirmation or signature, so all three responses share it. */
  lemma TranscriptIgnoresConfirmation(lib: Calls, o: Offer, r: Response, confirmation: Bytes, signature: Bytes)
    requires ValidOffer(lib, o) && ValidResponse(lib, r) && |confirmation| == 32 && |signature| == 64
    ensures var q := r.(responderConfirmation := confirmation, signature := signature);
            ValidResponse(lib, q) && Transcript(lib, o, q) == Transcript(lib, o, r)
  {
    assert TranscriptFields(o, r.(responderConfirmation := confirmation, signature := signature)) == TranscriptFields(o, r);
  }

  /** Everything that a started responder is known to hold. */
  lemma StartedResponderHolds(lib: Calls, identity: Identity, remoteKey: Bytes, offer: Offer, supplemental: Bytes, secret: Bytes)
    requires Lawful(lib) && ValidOffer(lib, offer)
    requires StartResponder(lib, identity, remoteKey, offer, supplemental, secret).Ok?
    ensures var x := StartResponder(lib, identity, remoteKey, offer, supplemental, secret).value;
            var r := x.response;
            && ValidResponse(lib, r) && ResponseFitsOffer(r, offer)
            && r.responderEphemeral == lib.publicKey(secret)
            && r.responderSigning == lib.signingKey(identity.signingSecret)
            && r.signature == lib.sign(identity.signingSecret, ResponsePayload(lib, offer, r))
            && lib.exchange(secret, offer.initiatorEphemeral).Some?
            && var hash := TranscriptHash(lib, offer, r);
               var root := SessionRoot(lib, lib.exchange(secret, offer.initiatorEphemeral).value, hash, supplemental);
               && r.responderConfirmation == KeyConfirmation(lib, root, hash, ResponderRole)
               && x.awaiting == Awaiting(remoteKey, offer, r, SuiteOf(offer.suite).value, Some(root))
  {
    var x := StartResponder(lib, identity, remoteKey, offer, supplemental, secret).value;
    var r := x.response;
    var provisional := FromOffer(offer, r.responderEphemeral, r.responderSigning, NO_CONFIRMATION, NO_SIGNATURE);
    TranscriptIgnoresConfirmation(lib, offer, provisional, r.responderConfirmation, NO_SIGNATURE);
    TranscriptIgnoresConfirmation(lib, offer, provisional, r.responderConfirmation, r.signature);
    var unsigned := provisional.(responderConfirmation := r.responderConfirmation);
    assert ResponsePayload(lib, offer, r) == ResponsePayload(lib, offer, unsigned);
  }

  /** Everything that a completed initiator is known to hold. */
  lemma CompletedInitiatorHolds(lib: Calls, x: Pending, response: Response)
    requires Lawful(lib) && ValidOffer(lib, x.offer) && ValidResponse(lib, response)
    requires InitiatorComplete(lib, x, response).Ok?
    ensures var done := InitiatorComplete(lib, x, response).value;
            var c := done.confirmation;
            && ValidConfirmation(lib, c) && ConfirmationFitsResponse(c, response)
            && c.signature == lib.sign(x.identity.signingSecret, ConfirmationPayload(lib, x.offer, response, c))
  {
    var c := InitiatorComplete(lib, x, response).value.confirmation;
    var unsigned := c.(signature := NO_SIGNATURE);
    assert ConfirmationPayload(lib, x.offer, response, c) == ConfirmationPayload(lib, x.offer, response, unsigned);
  }

  // ---------- the classes ----------

  class InitiatorHandshake {
    var localIdentity: Identity
    var remoteSigningPublicKey: Bytes
    var offer: Offer
    var supplementalSecret: Bytes
    var ephemeralPrivateKey: Option<Bytes>

    function Value(): Pending
      reads this
    {
      Pending(localIdentity, remoteSigningPublicKey, offer, supplementalSecret, ephemeralPrivateKey)
    }

    predicate IsCompleted()
      reads this
    {
      ephemeralPrivateKey.None?
    }

    constructor (x: Pending)
      ensures Value() == x
    {
      localIdentity, remoteSigningPublicKey, offer := x.identity, x.remoteKey, x.offer;
      supplementalSecret, ephemeralPrivateKey := x.supplemental, x.ephemeral;
    }

    /** Completes at most once; a rejected response changes nothing. */
    method Complete(lib: Calls, response: Response) returns (r: Result<(Confirmation, SessionState)>)
      requires Lawful(lib) && ValidOffer(lib, offer) && ValidResponse(lib, response)
      modifies this
      ensures Value() == AfterInitiatorComplete(lib, old(Value()), response)
      ensures r.Err? ==> InitiatorComplete(lib, old(Value()), response) == Err(r.error)
      ensures r.Ok? ==>
                && fresh(r.value.1) && r.value.1.Valid(lib)
                && InitiatorComplete(lib, old(Value()), response) == Ok(Completed(r.value.0, r.value.1.Value()))
    {
      if ephemeralPrivateKey.None? {
        return Err(AlreadyCompleted);
      }
      if !ResponseFitsOffer(response, offer) {
        return Err(ValueError);
      }
      if response.responderSigning != remoteSigningPublicKey {
        return Err(InvalidSignatureError);
      }
      if !lib.verify(ResponsePayload(lib, offer, response), response.signature, remoteSigningPublicKey) {
        return Err(InvalidSignatureError);
      }
      var suite := SuiteOf(response.suite).value;
      var shared := lib.exchange(ephemeralPrivateKey.value, response.responderEphemeral);
      if shared.None? {
        return Err(ValueError);
      }
      var hash := lib.sha256(Transcript(lib, offer, response));
      var root := SessionRoot(lib, shared.value, hash, supplementalSecret);
      if response.responderConfirmation != KeyConfirmation(lib, root, hash, ResponderRole) {
        return Err(KeyConfirmationError);
      }
      var unsigned := Confirmation(response.version, response.suite, response.initiator, response.responder,
                                   response.initiatorEphemeral, response.responderEphemeral,
                                   KeyConfirmation(lib, root, hash, InitiatorRole), NO_SIGNATURE);
      var signature := lib.sign(localIdentity.signingSecret, ConfirmationPayload(lib, offer, response, unsigned));
      var session := new SessionState(lib, offer.initiator, offer.responder, suite, root,
                                      offer.initiatorEphemeral, response.responderEphemeral);
      ephemeralPrivateKey := None;
      r := Ok((unsigned.(signature := signature), session));
    }
  }

  class ResponderHandshake {
    var remoteSigningPublicKey: Bytes
    var offer: Offer
    var response: Response
    var suite: Suite
    var rootKey: Option<Bytes>

    function Value(): Awaiting
      reads this
    {
      Awaiting(remoteSigningPublicKey, offer, response, suite, rootKey)
    }

    predicate IsCompleted()
      reads this
    {
      rootKey.None?
    }

    constructor (x: Awaiting)
      ensures Value() == x
    {
      remoteSigningPublicKey, offer, response, suite, rootKey := x.remoteKey, x.offer, x.response, x.suite, x.root;
    }

    /** Completes at most once; a rejected confirmation changes nothing. */
    method Complete(lib: Calls, confirmation: Confirmation) returns (r: Result<SessionState>)
      requires Lawful(lib) && ValidOffer(lib, offer) && ValidResponse(lib, response) && ValidConfirmation(lib, confirmation)
      modifies this
      ensures Value() == AfterResponderComplete(lib, old(Value()), confirmation)
      ensures r.Err? ==> ResponderComplete(lib, old(Value()), confirmation) == Err(r.error)
      ensures r.Ok? ==>
                && fresh(r.value) && r.value.Valid(lib)
                && ResponderComplete(lib, old(Value()), confirmation) == Ok(r.value.Value())
    {
      if rootKey.None? {
        return Err(AlreadyCompleted);
      }
      if !ConfirmationFitsResponse(confirmation, response) || !ResponseFitsOffer(response, offer) {
        return Err(ValueError);
      }
      if !lib.verify(ConfirmationPayload(lib, offer, response, confirmation), confirmation.signature, remoteSigningPublicKey) {
        return Err(InvalidSignatureError);
      }
      var hash := lib.sha256(Transcript(lib, offer, response));
      if confirmation.initiatorConfirmation != KeyConfirmation(lib, rootKey.value, hash, InitiatorRole) {
        return Err(KeyConfirmationError);
      }
      var session := new SessionState(lib, offer.responder, offer.initiator, suite, rootKey.value,
                                      response.responderEphemeral, offer.initiatorEphemeral);
      rootKey := None;
      r := Ok(session);
    }
  }
}
