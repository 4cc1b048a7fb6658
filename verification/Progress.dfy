/**
 Progress of one handshake: rejected messages change nothing, an honest message carried as bytes still
 completes it, and nothing completes twice.
 */
module Progress {
  import opened Basics
  import opened Establish
  import opened Handshake
  import opened HandshakeCodec
  import opened Kdf
  import opened Library
  import opened Payloads
  import Agreement
  import Channel

  // ---------- sequences of calls ----------

  predicate ValidResponses(lib: Calls, rs: seq<Response>) {
    forall k | 0 <= k < |rs| :: ValidResponse(lib, rs[k])
  }

  predicate ValidConfirmations(lib: Calls, cs: seq<Confirmation>) {
    forall k | 0 <= k < |cs| :: ValidConfirmation(lib, cs[k])
  }

  /** The initiator after `complete` has been called with each response in turn. */
  function FeedInitiator(lib: Calls, x: Pending, rs: seq<Response>): (y: Pending)
    requires Lawful(lib) && ValidOffer(lib, x.offer) && ValidResponses(lib, rs)
    ensures y == x.(ephemeral := y.ephemeral)
  {
    if rs == [] then x
    else AfterInitiatorComplete(lib, FeedInitiator(lib, x, rs[..|rs| - 1]), rs[|rs| - 1])
  }

  /** Whether call number `k` of the sequence returned normally. */
  predicate InitiatorAccepts(lib: Calls, x: Pending, rs: seq<Response>, k: nat)
    requires Lawful(lib) && ValidOffer(lib, x.offer) && ValidResponses(lib, rs) && k < |rs|
  {
    InitiatorComplete(lib, FeedInitiator(lib, x, rs[..k]), rs[k]).Ok?
  }

  function FeedResponder(lib: Calls, x: Awaiting, cs: seq<Confirmation>): (y: Awaiting)
    requires Lawful(lib) && ValidOffer(lib, x.offer) && ValidResponse(lib, x.response) && ValidConfirmations(lib, cs)
    ensures y == x.(root := y.root)
  {
    if cs == [] then x
    else AfterResponderComplete(lib, FeedResponder(lib, x, cs[..|cs| - 1]), cs[|cs| - 1])
  }

  predicate ResponderAccepts(lib: Calls, x: Awaiting, cs: seq<Confirmation>, k: nat)
    requires Lawful(lib) && ValidOffer(lib, x.offer) && ValidResponse(lib, x.response) && ValidConfirmations(lib, cs)
    requires k < |cs|
  {
    ResponderComplete(lib, FeedResponder(lib, x, cs[..k]), cs[k]).Ok?
  }

  /** Some call so far has returned normally. */
  predicate InitiatorCompleted(lib: Calls, x: Pending, rs: seq<Response>)
    requires Lawful(lib) && ValidOffer(lib, x.offer) && ValidResponses(lib, rs)
  {
    rs != [] && (InitiatorCompleted(lib, x, rs[..|rs| - 1]) || InitiatorAccepts(lib, x, rs, |rs| - 1))
  }

  lemma InitiatorAcceptsInFront(lib: Calls, x: Pending, rs: seq<Response>, k: nat)
    requires Lawful(lib) && ValidOffer(lib, x.offer) && ValidResponses(lib, rs)
    requires k < |rs| - 1
    ensures InitiatorAccepts(lib, x, rs[..|rs| - 1], k) == InitiatorAccepts(lib, x, rs, k)
  {
    hide InitiatorComplete, FeedInitiator;
    assert rs[..|rs| - 1][..k] == rs[..k];
  }

  lemma {:induction false} AcceptedInitiatorIsCompleted(lib: Calls, x: Pending, rs: seq<Response>, k: nat)
    requires Lawful(lib) && ValidOffer(lib, x.offer) && ValidResponses(lib, rs)
    requires k < |rs| && InitiatorAccepts(lib, x, rs, k)
    ensures InitiatorCompleted(lib, x, rs)
  {
    hide InitiatorAccepts;
    var front := rs[..|rs| - 1];
    if k < |front| {
      InitiatorAcceptsInFront(lib, x, rs, k);
      AcceptedInitiatorIsCompleted(lib, x, front, k);
    }
  }

  /** The object is spent exactly when some call has returned normally; before that it is unchanged. */
  lemma {:induction false} InitiatorIsSpentByCompletion(lib: Calls, x: Pending, rs: seq<Response>)
    requires Lawful(lib) && ValidOffer(lib, x.offer) && ValidResponses(lib, rs) && x.ephemeral.Some?
    ensures FeedInitiator(lib, x, rs) == if InitiatorCompleted(lib, x, rs) then x.(ephemeral := None) else x
  {
    if rs != [] {
      InitiatorIsSpentByCompletion(lib, x, rs[..|rs| - 1]);
    }
  }

  /** No two calls of a sequence return normally. */
  lemma InitiatorCompletesAtMostOnce(lib: Calls, x: Pending, rs: seq<Response>, k: nat, l: nat)
    requires Lawful(lib) && ValidOffer(lib, x.offer) && ValidResponses(lib, rs) && x.ephemeral.Some?
    requires k < l < |rs| && InitiatorAccepts(lib, x, rs, k)
    ensures InitiatorComplete(lib, FeedInitiator(lib, x, rs[..l]), rs[l]) == Err(AlreadyCompleted)
  {
    var earlier := rs[..l];
    assert earlier[..k] == rs[..k];
    AcceptedInitiatorIsCompleted(lib, x, earlier, k);
    InitiatorIsSpentByCompletion(lib, x, earlier);
  }

  /** Some call so far has returned normally. */
  predicate ResponderCompleted(lib: Calls, x: Awaiting, cs: seq<Confirmation>)
    requires Lawful(lib) && ValidOffer(lib, x.offer) && ValidResponse(lib, x.response) && ValidConfirmations(lib, cs)
  {
    cs != [] && (ResponderCompleted(lib, x, cs[..|cs| - 1]) || ResponderAccepts(lib, x, cs, |cs| - 1))
  }

  lemma ResponderAcceptsInFront(lib: Calls, x: Awaiting, cs: seq<Confirmation>, k: nat)
    requires Lawful(lib) && ValidOffer(lib, x.offer) && ValidResponse(lib, x.response) && ValidConfirmations(lib, cs)
    requires k < |cs| - 1
    ensures ResponderAccepts(lib, x, cs[..|cs| - 1], k) == ResponderAccepts(lib, x, cs, k)
  {
    hide ResponderComplete, FeedResponder;
    assert cs[..|cs| - 1][..k] == cs[..k];
  }

  lemma {:induction false} AcceptedResponderIsCompleted(lib: Calls, x: Awaiting, cs: seq<Confirmation>, k: nat)
    requires Lawful(lib) && ValidOffer(lib, x.offer) && ValidResponse(lib, x.response) && ValidConfirmations(lib, cs)
    requires k < |cs| && ResponderAccepts(lib, x, cs, k)
    ensures ResponderCompleted(lib, x, cs)
  {
    hide ResponderAccepts;
    var front := cs[..|cs| - 1];
    if k < |front| {
      ResponderAcceptsInFront(lib, x, cs, k);
      AcceptedResponderIsCompleted(lib, x, front, k);
    }
  }

  /** The object is spent exactly when some call has returned normally; before that it is unchanged. */
  lemma {:induction false} ResponderIsSpentByCompletion(lib: Calls, x: Awaiting, cs: seq<Confirmation>)
    requires Lawful(lib) && ValidOffer(lib, x.offer) && ValidResponse(lib, x.response) && ValidConfirmations(lib, cs) && x.root.Some?
    ensures FeedResponder(lib, x, cs) == if ResponderCompleted(lib, x, cs) then x.(root := None) else x
  {
    if cs != [] {
      ResponderIsSpentByCompletion(lib, x, cs[..|cs| - 1]);
    }
  }

  /** No two calls of a sequence return normally. */
  lemma ResponderCompletesAtMostOnce(lib: Calls, x: Awaiting, cs: seq<Confirmation>, k: nat, l: nat)
    requires Lawful(lib) && ValidOffer(lib, x.offer) && ValidResponse(lib, x.response) && ValidConfirmations(lib, cs) && x.root.Some?
    requires k < l < |cs| && ResponderAccepts(lib, x, cs, k)
    ensures ResponderComplete(lib, FeedResponder(lib, x, cs[..l]), cs[l]) == Err(AlreadyCompleted)
  {
    var earlier := cs[..l];
    assert earlier[..k] == cs[..k];
    AcceptedResponderIsCompleted(lib, x, earlier, k);
    ResponderIsSpentByCompletion(lib, x, earlier);
  }

  // ---------- the honest exchange ----------

  /** An offer that this initiator has made, with both key pairs usable. */
  ghost predicate OfferMade(lib: Calls, alice: Identity, bob: Identity, anchor: Bytes, suite: Suite,
                            supplemental: Bytes, a: Bytes, b: Bytes, x: Pending)
  {
    && Lawful(lib)
    && StartInitiator(lib, alice, bob.name, anchor, suite, supplemental, a) == Ok(x)
    && ValidOffer(lib, x.offer)
    && lib.publicKey(a) != lib.publicKey(b)
    && lib.exchange(a, lib.publicKey(b)).Some?
  }

  /** An honest offer, carried as bytes, is answered exactly by a responder that trusts the initiator's key. */
  lemma OfferIsAnsweredExactlyWhenTrusted(lib: Calls, alice: Identity, bob: Identity, anchor: Bytes, suite: Suite,
                                          secretA: Bytes, a: Bytes, b: Bytes, x: Pending,
                                          trusted: Bytes, secretB: Bytes)
    requires OfferMade(lib, alice, bob, anchor, suite, secretA, a, b, x)
    ensures OfferToBytes(x.offer).Ok? && OfferFromBytes(lib, OfferToBytes(x.offer).value) == Ok(x.offer)
    ensures StartResponder(lib, bob, trusted, x.offer, secretB, b).Ok? <==> trusted == Agreement.KeyOf(lib, alice)
  {
    OfferRoundTrip(lib, x.offer);
    StartedOfferIsValid(lib, alice, bob.name, anchor, suite, secretA, a);
    assert lib.exchange(b, x.offer.initiatorEphemeral) == lib.exchange(a, lib.publicKey(b));
    if trusted == Agreement.KeyOf(lib, alice) {
      var provisional := FromOffer(x.offer, lib.publicKey(b), lib.signingKey(bob.signingSecret), NO_CONFIRMATION, NO_SIGNATURE);
      assert ValidResponse(lib, provisional);
      assert lib.verify(OfferPayload(lib, x.offer), x.offer.signature, trusted);
    }
  }

  /** The HKDF call behind the root that one side of an honest exchange computes with its supplemental secret. */
  function HonestRootQuery(lib: Calls, a: Bytes, b: Bytes, o: Offer, r: Response, supplemental: Bytes): HkdfQuery
    requires ValidOffer(lib, o) && ValidResponse(lib, r) && lib.exchange(a, lib.publicKey(b)).Some?
  {
    RootQuery(lib.exchange(a, lib.publicKey(b)).value, TranscriptHash(lib, o, r), supplemental)
  }

  /** The two derivations, and the two confirmations computed from them, do not collide. */
  ghost predicate NoCollision(lib: Calls, q: HkdfQuery, s: HkdfQuery, input: Bytes) {
    && (lib.hkdf(q) == lib.hkdf(s) ==> q == s)
    && (lib.hmac(lib.hkdf(q), input) == lib.hmac(lib.hkdf(s), input) ==> lib.hkdf(q) == lib.hkdf(s))
  }

  /**
   An honest response, carried as bytes and delivered after any number of rejected ones, completes the
   initiator exactly when it trusts the responder's key and both supplied one supplemental secret.
   */
  lemma ResponseCompletesExactlyWhenMatched(lib: Calls, alice: Identity, bob: Identity, anchor: Bytes, suite: Suite,
                                            secretA: Bytes, a: Bytes, b: Bytes, x: Pending, secretB: Bytes,
                                            rejected: seq<Response>)
    requires OfferMade(lib, alice, bob, anchor, suite, secretA, a, b, x)
    requires StartResponder(lib, bob, Agreement.KeyOf(lib, alice), x.offer, secretB, b).Ok?
    requires ValidResponses(lib, rejected)
    requires !InitiatorCompleted(lib, x, rejected)
    requires var r := StartResponder(lib, bob, Agreement.KeyOf(lib, alice), x.offer, secretB, b).value.response;
             ValidResponse(lib, r) &&
             NoCollision(lib, HonestRootQuery(lib, a, b, x.offer, r, secretA), HonestRootQuery(lib, a, b, x.offer, r, secretB),
                         ConfirmationInput(TranscriptHash(lib, x.offer, r), ResponderRole))
    ensures var r := StartResponder(lib, bob, Agreement.KeyOf(lib, alice), x.offer, secretB, b).value.response;
            && ResponseToBytes(r).Ok? && ResponseFromBytes(lib, ResponseToBytes(r).value) == Ok(r)
            && (InitiatorComplete(lib, FeedInitiator(lib, x, rejected), r).Ok?
                <==> anchor == Agreement.KeyOf(lib, bob) && secretA == secretB)
  {
    var r := StartResponder(lib, bob, Agreement.KeyOf(lib, alice), x.offer, secretB, b).value.response;
    ResponseRoundTrip(lib, r);
    InitiatorIsSpentByCompletion(lib, x, rejected);
    ResponseIsAcceptedExactlyWhenConfirmed(lib, alice, bob, anchor, suite, secretA, a, b, x, secretB);
    HonestRoots(lib, alice, bob, anchor, suite, secretA, a, b, x, secretB);
    var q, s := HonestRootQuery(lib, a, b, x.offer, r, secretA), HonestRootQuery(lib, a, b, x.offer, r, secretB);
    if q == s {
      AfterTag(lib.exchange(a, lib.publicKey(b)).value, secretA, secretB);
    }
  }

  /** What the initiator checks of an honest response: the trust anchor and the key confirmation. */
  lemma ResponseIsAcceptedExactlyWhenConfirmed(lib: Calls, alice: Identity, bob: Identity, anchor: Bytes, suite: Suite,
                                               secretA: Bytes, a: Bytes, b: Bytes, x: Pending, secretB: Bytes)
    requires OfferMade(lib, alice, bob, anchor, suite, secretA, a, b, x)
    requires StartResponder(lib, bob, Agreement.KeyOf(lib, alice), x.offer, secretB, b).Ok?
    ensures var r := StartResponder(lib, bob, Agreement.KeyOf(lib, alice), x.offer, secretB, b).value.response;
            ValidResponse(lib, r) &&
            (InitiatorComplete(lib, x, r).Ok? <==>
               && anchor == Agreement.KeyOf(lib, bob)
               && r.responderConfirmation
                  == lib.hmac(lib.hkdf(HonestRootQuery(lib, a, b, x.offer, r, secretA)),
                              ConfirmationInput(TranscriptHash(lib, x.offer, r), ResponderRole)))
  {
    StartedResponderHolds(lib, bob, Agreement.KeyOf(lib, alice), x.offer, secretB, b);
    var r := StartResponder(lib, bob, Agreement.KeyOf(lib, alice), x.offer, secretB, b).value.response;
    assert lib.verify(ResponsePayload(lib, x.offer, r), r.signature, Agreement.KeyOf(lib, bob));
  }

  lemma HonestRoots(lib: Calls, alice: Identity, bob: Identity, anchor: Bytes, suite: Suite,
                    secretA: Bytes, a: Bytes, b: Bytes, x: Pending, secretB: Bytes)
    requires OfferMade(lib, alice, bob, anchor, suite, secretA, a, b, x)
    requires StartResponder(lib, bob, Agreement.KeyOf(lib, alice), x.offer, secretB, b).Ok?
    ensures var st := StartResponder(lib, bob, Agreement.KeyOf(lib, alice), x.offer, secretB, b).value;
            && ValidResponse(lib, st.response)
            && st.awaiting.root == Some(lib.hkdf(HonestRootQuery(lib, a, b, x.offer, st.response, secretB)))
            && st.response.responderConfirmation
               == lib.hmac(st.awaiting.root.value, ConfirmationInput(TranscriptHash(lib, x.offer, st.response), ResponderRole))
  {
    StartedResponderHolds(lib, bob, Agreement.KeyOf(lib, alice), x.offer, secretB, b);
    assert lib.exchange(b, x.offer.initiatorEphemeral) == lib.exchange(a, lib.publicKey(b));
  }

  /**
   The confirmation of an initiator that completed against this responder's response, carried as bytes and
   delivered after any number of rejected ones, completes the responder, and the sessions mirror each other.
   */
  lemma ConfirmationCompletes(lib: Calls, alice: Identity, bob: Identity, suite: Suite, secret: Bytes,
                              a: Bytes, b: Bytes, x: Pending, rejected: seq<Confirmation>)
    requires OfferMade(lib, alice, bob, Agreement.KeyOf(lib, bob), suite, secret, a, b, x)
    requires StartResponder(lib, bob, Agreement.KeyOf(lib, alice), x.offer, secret, b).Ok?
    requires ValidConfirmations(lib, rejected)
    requires var st := StartResponder(lib, bob, Agreement.KeyOf(lib, alice), x.offer, secret, b).value;
             ValidResponse(lib, st.response) && ValidOffer(lib, st.awaiting.offer) && ValidResponse(lib, st.awaiting.response) &&
             !ResponderCompleted(lib, st.awaiting, rejected)
    ensures var st := StartResponder(lib, bob, Agreement.KeyOf(lib, alice), x.offer, secret, b).value;
            var done := InitiatorComplete(lib, x, st.response);
            && done.Ok?
            && var c := done.value.confirmation;
               && ConfirmationToBytes(c).Ok? && ConfirmationFromBytes(lib, ConfirmationToBytes(c).value) == Ok(c)
               && ValidConfirmation(lib, c)
               && var session := ResponderComplete(lib, FeedResponder(lib, st.awaiting, rejected), c);
                  session.Ok? && Channel.Mirrored(done.value.session, session.value)
  {
    var st := StartResponder(lib, bob, Agreement.KeyOf(lib, alice), x.offer, secret, b).value;
    var r := st.response;
    StartedResponderHolds(lib, bob, Agreement.KeyOf(lib, alice), x.offer, secret, b);
    HonestRoots(lib, alice, bob, Agreement.KeyOf(lib, bob), suite, secret, a, b, x, secret);
    assert lib.verify(ResponsePayload(lib, x.offer, r), r.signature, Agreement.KeyOf(lib, bob));
    var done := InitiatorComplete(lib, x, r);
    assert done.Ok?;
    CompletedInitiatorHolds(lib, x, r);
    ConfirmationRoundTrip(lib, done.value.confirmation);
    ResponderIsSpentByCompletion(lib, st.awaiting, rejected);
    StartedOfferIsValid(lib, alice, bob.name, Agreement.KeyOf(lib, bob), suite, secret, a);
  }
}
