/** What completion guarantees in every run of any number of handshakes. */
module InjectiveAgreement {
  import opened Agreement
  import opened Basics
  import opened Establish
  import opened Handshake
  import opened Kdf
  import opened Library
  import opened Payloads
  import opened Session
  import Channel

  /**
   Initiator i has completed against responder j: they hold one offer, one transcript and one responder
   confirmation, and each trusts the other's signing key. Only the signature bytes of the response, which no
   transcript covers, may differ.
   */
  ghost predicate Agrees(lib: Calls, w: World, i: nat, j: nat)
    requires ValidWorld(lib, w)
  {
    && i < |w.initiators| && j < |w.responders|
    && var x, y := w.initiators[i], w.responders[j];
       && x.done.Some? && x.received.Some?
       && x.pending.offer == y.awaiting.offer
       && x.received.value == y.awaiting.response.(signature := x.received.value.signature)
       && Transcript(lib, x.pending.offer, x.received.value) == Transcript(lib, y.awaiting.offer, y.awaiting.response)
       && y.awaiting.remoteKey == KeyOf(lib, x.pending.identity)
       && x.pending.remoteKey == KeyOf(lib, y.identity)
  }

  /** The two sessions have the same names, suite and ephemeral keys, seen from the two sides. */
  predicate SameTerms(s: SessionValue, t: SessionValue) {
    && s.localName == t.remoteName && s.remoteName == t.localName && s.suite == t.suite
    && s.localEphemeral == t.remoteEphemeral && s.remoteEphemeral == t.localEphemeral
  }

  predicate CompletedWithHonestPeer(honest: set<Bytes>, y: Responder) {
    y.session.Some? && y.awaiting.remoteKey in honest
  }

  // ---------- what each side holds ----------

  /** The shared secret and root of a completed initiator. */
  lemma InitiatorRootIs(lib: Calls, honest: set<Bytes>, log: seq<Signed>, x: Initiator)
    requires Lawful(lib) && InitiatorOk(lib, honest, log, x) && x.done.Some?
    ensures var o, r, done := x.pending.offer, x.received.value, x.done.value;
            var hash := TranscriptHash(lib, o, r);
            && ValidConfirmation(lib, done.confirmation)
            && ResponseFitsOffer(r, o) && r.responderSigning == x.pending.remoteKey
            && ConfirmationFitsResponse(done.confirmation, r)
            && lib.exchange(x.secret, r.responderEphemeral).Some?
            && done.session.rootKey
               == SessionRoot(lib, lib.exchange(x.secret, r.responderEphemeral).value, hash, x.pending.supplemental)
            && r.responderConfirmation == KeyConfirmation(lib, done.session.rootKey, hash, ResponderRole)
            && done.session == NewSession(o.initiator, o.responder, SuiteOf(o.suite).value, done.session.rootKey,
                                          o.initiatorEphemeral, r.responderEphemeral)
  {
    CompletedInitiatorHolds(lib, x.pending.(ephemeral := Some(x.secret)), x.received.value);
  }

  /** The root that a responder computed when it started. */
  function ResponderRoot(lib: Calls, y: Responder): Bytes
    requires Lawful(lib) && ValidOffer(lib, y.awaiting.offer) && ValidResponse(lib, y.awaiting.response)
  {
    match lib.exchange(y.secret, y.awaiting.offer.initiatorEphemeral)
    case None => []
    case Some(shared) =>
      SessionRoot(lib, shared, TranscriptHash(lib, y.awaiting.offer, y.awaiting.response), y.supplemental)
  }

  lemma ResponderRootIs(lib: Calls, honest: set<Bytes>, log: seq<Signed>, y: Responder)
    requires Lawful(lib) && ResponderOk(lib, honest, log, y)
    ensures var o, r := y.awaiting.offer, y.awaiting.response;
            && ValidResponse(lib, r) && ResponseFitsOffer(r, o)
            && r.responderEphemeral == lib.publicKey(y.secret)
            && r.responderSigning == KeyOf(lib, y.identity)
            && o.initiatorSigning == y.awaiting.remoteKey
            && lib.exchange(y.secret, o.initiatorEphemeral).Some?
            && r.responderConfirmation == KeyConfirmation(lib, ResponderRoot(lib, y), TranscriptHash(lib, o, r), ResponderRole)
            && (y.session.Some? ==>
                  y.session.value == NewSession(o.responder, o.initiator, SuiteOf(o.suite).value, ResponderRoot(lib, y),
                                                r.responderEphemeral, o.initiatorEphemeral))
  {
    StartedResponderHolds(lib, y.identity, y.awaiting.remoteKey, y.awaiting.offer, y.supplemental, y.secret);
  }

  // ---------- agreement ----------

  /** A signed confirmation payload was signed by the initiator that agrees with the responder. */
  lemma ConfirmationSigner(lib: Calls, honest: set<Bytes>, w: World, j: nat) returns (i: nat)
    requires Lawful(lib) && Invariant(lib, honest, w)
    requires j < |w.responders| && CompletedWithHonestPeer(honest, w.responders[j])
    ensures Agrees(lib, w, i, j)
    ensures w.initiators[i].done.value.confirmation.initiatorConfirmation
            == w.responders[j].received.value.initiatorConfirmation
  {
    var y := w.responders[j];
    assert ResponderOk(lib, honest, w.log, y);
    ResponderRootIs(lib, honest, w.log, y);
    var o, r, c := y.awaiting.offer, y.awaiting.response, y.received.value;
    var n :| 0 <= n < |w.log| && w.log[n].key == y.awaiting.remoteKey
             && w.log[n].payload == ConfirmationPayload(lib, o, r, c);
    assert SignedOk(lib, w, w.log[n]);
    match w.log[n].origin
    case OfferBy(k) => PayloadKindsDisjoint(lib, w.initiators[k].pending.offer, o, r, o, r, c);
    case ResponseBy(k) =>
      PayloadKindsDisjoint(lib, o, w.responders[k].awaiting.offer, w.responders[k].awaiting.response, o, r, c);
    case ConfirmationBy(k) =>
      i := k;
      var x := w.initiators[i];
      assert InitiatorOk(lib, honest, w.log, x);
      InitiatorRootIs(lib, honest, w.log, x);
      ConfirmationPayloadInjective(lib, x.pending.offer, x.received.value, x.done.value.confirmation, o, r, c);
  }

  /** A signed response payload was signed by the responder that agrees with the initiator. */
  lemma ResponseSigner(lib: Calls, honest: set<Bytes>, w: World, i: nat) returns (j: nat)
    requires Lawful(lib) && Invariant(lib, honest, w)
    requires i < |w.initiators| && w.initiators[i].done.Some? && w.initiators[i].pending.remoteKey in honest
    ensures Agrees(lib, w, i, j)
  {
    var x := w.initiators[i];
    assert InitiatorOk(lib, honest, w.log, x);
    InitiatorRootIs(lib, honest, w.log, x);
    var o, r, c := x.pending.offer, x.received.value, x.done.value.confirmation;
    var n :| 0 <= n < |w.log| && w.log[n].key == x.pending.remoteKey && w.log[n].payload == ResponsePayload(lib, o, r);
    assert SignedOk(lib, w, w.log[n]);
    match w.log[n].origin
    case OfferBy(k) => PayloadKindsDisjoint(lib, w.initiators[k].pending.offer, o, r, o, r, c);
    case ConfirmationBy(k) =>
      PayloadKindsDisjoint(lib, o, o, r, w.initiators[k].pending.offer, w.initiators[k].received.value,
                           w.initiators[k].done.value.confirmation);
    case ResponseBy(k) =>
      j := k;
      var y := w.responders[j];
      assert ResponderOk(lib, honest, w.log, y);
      ResponderRootIs(lib, honest, w.log, y);
      ResponsePayloadInjective(lib, o, r, y.awaiting.offer, y.awaiting.response);
  }

  /** Fresh ephemeral keys tie each initiator to at most one responder, and each responder to one initiator. */
  lemma AgreementIsOneToOne(lib: Calls, honest: set<Bytes>, w: World, i: nat, j: nat, h: nat, k: nat)
    requires Lawful(lib) && Invariant(lib, honest, w)
    requires Agrees(lib, w, i, j) && Agrees(lib, w, h, k)
    ensures i == h <==> j == k
  {
    var x, y := w.initiators[i], w.responders[j];
    var u, v := w.initiators[h], w.responders[k];
    assert InitiatorOk(lib, honest, w.log, x) && InitiatorOk(lib, honest, w.log, u);
    assert ResponderOk(lib, honest, w.log, y) && ResponderOk(lib, honest, w.log, v);
    ResponderRootIs(lib, honest, w.log, y);
    ResponderRootIs(lib, honest, w.log, v);
  }

  lemma AgreeingSessionsHaveSameTerms(lib: Calls, honest: set<Bytes>, w: World, i: nat, j: nat)
    requires Lawful(lib) && Invariant(lib, honest, w) && Agrees(lib, w, i, j)
    requires w.responders[j].session.Some?
    ensures SameTerms(w.initiators[i].done.value.session, w.responders[j].session.value)
  {
    assert InitiatorOk(lib, honest, w.log, w.initiators[i]);
    assert ResponderOk(lib, honest, w.log, w.responders[j]);
    InitiatorRootIs(lib, honest, w.log, w.initiators[i]);
    ResponderRootIs(lib, honest, w.log, w.responders[j]);
  }

  /** The completed responders of a run whose peer's signing key is honest. */
  function HonestSessions(honest: set<Bytes>, w: World): set<nat> {
    set j: nat | j < |w.responders| && CompletedWithHonestPeer(honest, w.responders[j])
  }

  ghost predicate Injective(f: map<nat, nat>) {
    forall j, k | j in f && k in f :: f[j] == f[k] ==> j == k
  }

  /** Both sides have completed, they agree, and their sessions have the same terms. */
  ghost predicate Paired(lib: Calls, w: World, i: nat, j: nat)
    requires ValidWorld(lib, w)
  {
    && Agrees(lib, w, i, j)
    && w.responders[j].session.Some?
    && SameTerms(w.initiators[i].done.value.session, w.responders[j].session.value)
  }

  lemma PartnerOf(lib: Calls, honest: set<Bytes>, w: World, j: nat) returns (i: nat)
    requires Lawful(lib) && Invariant(lib, honest, w) && j in HonestSessions(honest, w)
    ensures Paired(lib, w, i, j)
  {
    i := ConfirmationSigner(lib, honest, w, j);
    AgreeingSessionsHaveSameTerms(lib, honest, w, i, j);
  }

  ghost predicate HasPartner(lib: Calls, w: World, j: nat)
    requires ValidWorld(lib, w)
  {
    exists i: nat :: Paired(lib, w, i, j)
  }

  ghost function PartnerIndex(lib: Calls, w: World, j: nat): (i: nat)
    requires ValidWorld(lib, w) && HasPartner(lib, w, j)
    ensures Paired(lib, w, i, j)
  {
    var i: nat :| Paired(lib, w, i, j);
    i
  }

  lemma ChoosePartners(lib: Calls, w: World, js: set<nat>) returns (partner: map<nat, nat>)
    requires ValidWorld(lib, w) && forall j | j in js :: HasPartner(lib, w, j)
    ensures partner.Keys == js && forall j | j in partner :: Paired(lib, w, partner[j], j)
  {
    hide Agrees, Paired;
    partner := map j | j in js :: PartnerIndex(lib, w, j);
  }

  lemma PairUp(lib: Calls, honest: set<Bytes>, w: World) returns (partner: map<nat, nat>)
    requires Lawful(lib) && Invariant(lib, honest, w)
    ensures partner.Keys == HonestSessions(honest, w)
    ensures forall j | j in partner :: Paired(lib, w, partner[j], j)
  {
    forall j | j in HonestSessions(honest, w)
      ensures HasPartner(lib, w, j)
    {
      var i := PartnerOf(lib, honest, w, j);
    }
    partner := ChoosePartners(lib, w, HonestSessions(honest, w));
  }

  lemma PairsAreInjective(lib: Calls, honest: set<Bytes>, w: World, partner: map<nat, nat>)
    requires Lawful(lib) && Invariant(lib, honest, w)
    requires forall j | j in partner :: Paired(lib, w, partner[j], j)
    ensures Injective(partner)
  {
    forall j, k | j in partner && k in partner && partner[j] == partner[k]
      ensures j == k
    {
      AgreementIsOneToOne(lib, honest, w, partner[j], j, partner[k], k);
    }
  }

  /**
   Injective agreement over every run: the completed responders with honest peers map one-to-one to completed
   initiators that agree with them on names, suite, keys and transcript. Replaying an offer or a confirmation
   to make more responders complete is therefore impossible.
   */
  lemma InjectiveAgreementOverEveryRun(lib: Calls, honest: set<Bytes>, events: seq<Event>) returns (partner: map<nat, nat>)
    requires Lawful(lib) && ValidEvents(lib, events) && FairRun(lib, honest, events)
    ensures partner.Keys == HonestSessions(honest, Run(lib, events))
    ensures Injective(partner)
    ensures forall j | j in partner :: Paired(lib, Run(lib, events), partner[j], j)
  {
    RunKeepsInvariant(lib, honest, events);
    var w := Run(lib, events);
    partner := PairUp(lib, honest, w);
    PairsAreInjective(lib, honest, w, partner);
  }

  /** Every initiator that completed against an honest key did so against exactly one responder. */
  lemma CompletedInitiatorHasOneResponder(lib: Calls, honest: set<Bytes>, events: seq<Event>, i: nat) returns (j: nat)
    requires Lawful(lib) && ValidEvents(lib, events) && FairRun(lib, honest, events)
    requires i < |Run(lib, events).initiators| && Run(lib, events).initiators[i].done.Some?
    requires Run(lib, events).initiators[i].pending.remoteKey in honest
    ensures Agrees(lib, Run(lib, events), i, j)
    ensures forall k: nat :: Agrees(lib, Run(lib, events), i, k) ==> k == j
  {
    RunKeepsInvariant(lib, honest, events);
    var w := Run(lib, events);
    j := ResponseSigner(lib, honest, w, i);
    forall k: nat | Agrees(lib, w, i, k)
      ensures k == j
    {
      AgreementIsOneToOne(lib, honest, w, i, j, i, k);
    }
  }

  // ---------- key agreement ----------

  ghost predicate NoHmacCollision(lib: Calls, queries: set<(Bytes, Bytes)>) {
    forall a, b | a in queries && b in queries :: lib.hmac(a.0, a.1) == lib.hmac(b.0, b.1) ==> a == b
  }

  /** The responder confirmation that a completed initiator recomputed. */
  function InitiatorCheck(lib: Calls, x: Initiator): (Bytes, Bytes)
    requires x.done.Some? && x.received.Some?
    requires ValidOffer(lib, x.pending.offer) && ValidResponse(lib, x.received.value)
  {
    (x.done.value.session.rootKey, ConfirmationInput(TranscriptHash(lib, x.pending.offer, x.received.value), ResponderRole))
  }

  /** The confirmation that a responder sent. */
  function ResponderProof(lib: Calls, y: Responder): (Bytes, Bytes)
    requires Lawful(lib) && ValidOffer(lib, y.awaiting.offer) && ValidResponse(lib, y.awaiting.response)
  {
    (ResponderRoot(lib, y), ConfirmationInput(TranscriptHash(lib, y.awaiting.offer, y.awaiting.response), ResponderRole))
  }

  /** The HMAC calls that confirm the responders' keys in a run. */
  ghost function ConfirmationQueries(lib: Calls, w: World): set<(Bytes, Bytes)>
    requires Lawful(lib) && ValidWorld(lib, w)
  {
    (set i: nat | i < |w.initiators| && w.initiators[i].done.Some? && w.initiators[i].received.Some? ::
       InitiatorCheck(lib, w.initiators[i]))
    + (set j: nat | j < |w.responders| :: ResponderProof(lib, w.responders[j]))
  }

  function InitiatorRootQuery(lib: Calls, x: Initiator): HkdfQuery
    requires Lawful(lib) && x.received.Some?
    requires ValidOffer(lib, x.pending.offer) && ValidResponse(lib, x.received.value)
    requires lib.exchange(x.secret, x.received.value.responderEphemeral).Some?
  {
    RootQuery(lib.exchange(x.secret, x.received.value.responderEphemeral).value,
              TranscriptHash(lib, x.pending.offer, x.received.value), x.pending.supplemental)
  }

  function ResponderRootQuery(lib: Calls, y: Responder): HkdfQuery
    requires Lawful(lib) && ValidOffer(lib, y.awaiting.offer) && ValidResponse(lib, y.awaiting.response)
    requires lib.exchange(y.secret, y.awaiting.offer.initiatorEphemeral).Some?
  {
    RootQuery(lib.exchange(y.secret, y.awaiting.offer.initiatorEphemeral).value,
              TranscriptHash(lib, y.awaiting.offer, y.awaiting.response), y.supplemental)
  }

  /** The HKDF calls that derive the roots of a run. */
  ghost function RootQueries(lib: Calls, w: World): set<HkdfQuery>
    requires Lawful(lib) && ValidWorld(lib, w)
  {
    (set i: nat | i < |w.initiators| && w.initiators[i].received.Some?
                  && lib.exchange(w.initiators[i].secret, w.initiators[i].received.value.responderEphemeral).Some? ::
       InitiatorRootQuery(lib, w.initiators[i]))
    + (set j: nat | j < |w.responders|
                    && lib.exchange(w.responders[j].secret, w.responders[j].awaiting.offer.initiatorEphemeral).Some? ::
         ResponderRootQuery(lib, w.responders[j]))
  }

  /** Key confirmation makes the roots equal, unless HMAC collides on the confirmations of the run. */
  lemma RootsAgree(lib: Calls, honest: set<Bytes>, w: World, i: nat, j: nat)
    requires Lawful(lib) && Invariant(lib, honest, w) && Agrees(lib, w, i, j)
    requires NoHmacCollision(lib, ConfirmationQueries(lib, w))
    ensures w.initiators[i].done.value.session.rootKey == ResponderRoot(lib, w.responders[j])
  {
    var x, y := w.initiators[i], w.responders[j];
    assert InitiatorOk(lib, honest, w.log, x) && ResponderOk(lib, honest, w.log, y);
    InitiatorRootIs(lib, honest, w.log, x);
    ResponderRootIs(lib, honest, w.log, y);
    assert InitiatorCheck(lib, x) in ConfirmationQueries(lib, w);
    assert ResponderProof(lib, y) in ConfirmationQueries(lib, w);
  }

  /** Both sides compute one shared secret, because each used the other's generated key. */
  lemma SharedSecretsAgree(lib: Calls, honest: set<Bytes>, w: World, i: nat, j: nat)
    requires Lawful(lib) && Invariant(lib, honest, w) && Agrees(lib, w, i, j)
    ensures lib.exchange(w.initiators[i].secret, w.initiators[i].received.value.responderEphemeral)
            == lib.exchange(w.responders[j].secret, w.responders[j].awaiting.offer.initiatorEphemeral)
    ensures lib.exchange(w.responders[j].secret, w.responders[j].awaiting.offer.initiatorEphemeral).Some?
  {
    var x, y := w.initiators[i], w.responders[j];
    assert InitiatorOk(lib, honest, w.log, x) && ResponderOk(lib, honest, w.log, y);
    ResponderRootIs(lib, honest, w.log, y);
  }

  /** Equal roots from one shared secret mean equal supplemental secrets, unless HKDF collides in the run. */
  lemma SupplementalSecretsAgree(lib: Calls, honest: set<Bytes>, w: World, i: nat, j: nat)
    requires Lawful(lib) && Invariant(lib, honest, w) && Agrees(lib, w, i, j)
    requires NoHmacCollision(lib, ConfirmationQueries(lib, w)) && NoHkdfCollision(lib, RootQueries(lib, w))
    ensures w.initiators[i].pending.supplemental == w.responders[j].supplemental
  {
    var x, y := w.initiators[i], w.responders[j];
    RootsAgree(lib, honest, w, i, j);
    SharedSecretsAgree(lib, honest, w, i, j);
    assert InitiatorOk(lib, honest, w.log, x);
    InitiatorRootIs(lib, honest, w.log, x);
    var a, b := InitiatorRootQuery(lib, x), ResponderRootQuery(lib, y);
    assert a in RootQueries(lib, w) && b in RootQueries(lib, w);
    AfterTag(lib.exchange(x.secret, x.received.value.responderEphemeral).value, x.pending.supplemental, y.supplemental);
  }

  /**
   Completion implies key agreement. An initiator that completed against an honest key shares its root and its
   supplemental secret with the one responder it agrees with; if that responder completes too, the two
   sessions are mirror images and start a channel.
   */
  lemma CompletionImpliesKeyAgreement(lib: Calls, honest: set<Bytes>, events: seq<Event>, i: nat) returns (j: nat)
    requires Lawful(lib) && ValidEvents(lib, events) && FairRun(lib, honest, events)
    requires i < |Run(lib, events).initiators| && Run(lib, events).initiators[i].done.Some?
    requires Run(lib, events).initiators[i].pending.remoteKey in honest
    requires NoHmacCollision(lib, ConfirmationQueries(lib, Run(lib, events)))
    requires NoHkdfCollision(lib, RootQueries(lib, Run(lib, events)))
    ensures var w := Run(lib, events);
            && Agrees(lib, w, i, j)
            && w.initiators[i].done.value.session.rootKey == ResponderRoot(lib, w.responders[j])
            && w.initiators[i].pending.supplemental == w.responders[j].supplemental
            && (w.responders[j].session.Some? ==>
                  Channel.Initial(lib, Channel.State(
                    Channel.Endpoint(w.initiators[i].done.value.session, [], []),
                    Channel.Endpoint(w.responders[j].session.value, [], []))))
  {
    j := CompletedInitiatorHasOneResponder(lib, honest, events, i);
    RunKeepsInvariant(lib, honest, events);
    var w := Run(lib, events);
    RootsAgree(lib, honest, w, i, j);
    SupplementalSecretsAgree(lib, honest, w, i, j);
    if w.responders[j].session.Some? {
      SessionsStartAChannel(lib, honest, w, i, j);
    }
  }

  lemma SessionsStartAChannel(lib: Calls, honest: set<Bytes>, w: World, i: nat, j: nat)
    requires Lawful(lib) && Invariant(lib, honest, w) && Agrees(lib, w, i, j) && w.responders[j].session.Some?
    requires w.initiators[i].done.value.session.rootKey == ResponderRoot(lib, w.responders[j])
    ensures Channel.Initial(lib, Channel.State(
                                   Channel.Endpoint(w.initiators[i].done.value.session, [], []),
                                   Channel.Endpoint(w.responders[j].session.value, [], [])))
  {
    assert InitiatorOk(lib, honest, w.log, w.initiators[i]);
    assert ResponderOk(lib, honest, w.log, w.responders[j]);
    InitiatorRootIs(lib, honest, w.log, w.initiators[i]);
    ResponderRootIs(lib, honest, w.log, w.responders[j]);
  }
}
