/**
 What every object of every run has checked, whoever its peer is and whatever the network does; and, with an
 honest peer, who made the offer that a responder answered.
 */
module Accountability {
  import opened Admission
  import opened Agreement
  import opened Basics
  import opened Establish
  import opened Handshake
  import opened KeySchedule
  import opened Library
  import opened Payloads

  const NOBODY: set<Bytes> := {}

  /** The claims of the invariant about single objects, with no key taken to be honest. */
  ghost predicate ObjectsOk(lib: Calls, w: World)
    requires Lawful(lib)
  {
    InitiatorsOk(lib, NOBODY, w.log, w.initiators) && RespondersOk(lib, NOBODY, w.log, w.responders)
  }

  /** They hold after every run, without any assumption about signatures or keys. */
  lemma {:induction false} RunKeepsObjects(lib: Calls, events: seq<Event>)
    requires Lawful(lib) && ValidEvents(lib, events)
    ensures ObjectsOk(lib, Run(lib, events))
  {
    hide ObjectsOk, Apply;
    if events == [] {
      NothingIsOk(lib);
    } else {
      var front, e := events[..|events| - 1], events[|events| - 1];
      RunKeepsObjects(lib, front);
      if e.StartInitiatorEvent? || e.StartResponderEvent? {
        StartKeepsObjects(lib, Run(lib, front), e);
      } else {
        CompletionKeepsObjects(lib, Run(lib, front), e);
      }
    }
  }

  lemma NothingIsOk(lib: Calls)
    requires Lawful(lib)
    ensures ObjectsOk(lib, EMPTY)
  {
  }

  lemma ObjectsGrow(lib: Calls, w: World, s: Signed)
    requires Lawful(lib) && ObjectsOk(lib, w)
    ensures InitiatorsOk(lib, NOBODY, w.log + [s], w.initiators) && RespondersOk(lib, NOBODY, w.log + [s], w.responders)
  {
    InitiatorsGrow(lib, NOBODY, w.log, s, w.initiators);
    RespondersGrow(lib, NOBODY, w.log, s, w.responders);
  }

  lemma StartKeepsObjects(lib: Calls, w: World, e: Event)
    requires Lawful(lib) && ValidWorld(lib, w) && ValidEvent(lib, e) && ObjectsOk(lib, w)
    requires e.StartInitiatorEvent? || e.StartResponderEvent?
    ensures ObjectsOk(lib, Apply(lib, w, e))
  {
    hide StartInitiator, StartResponder, InitiatorOk, ResponderOk, OfferPayload, ResponsePayload;
    var v := Apply(lib, w, e);
    if v != w {
      ObjectsGrow(lib, w, v.log[|w.log|]);
      if e.StartInitiatorEvent? {
        NewInitiatorOk(lib, NOBODY, v.log, e);
      } else {
        NewResponderOk(lib, NOBODY, w.log, v.log[|w.log|], e);
      }
    }
  }

  lemma CompletionKeepsObjects(lib: Calls, w: World, e: Event)
    requires Lawful(lib) && ValidWorld(lib, w) && ValidEvent(lib, e) && ObjectsOk(lib, w)
    requires e.CompleteInitiatorEvent? || e.CompleteResponderEvent?
    ensures ObjectsOk(lib, Apply(lib, w, e))
  {
    hide InitiatorComplete, ResponderComplete, InitiatorOk, ResponderOk, ResponsePayload, ConfirmationPayload;
    var v := Apply(lib, w, e);
    if v != w {
      match e
      case CompleteInitiatorEvent(i, response) =>
        ObjectsGrow(lib, w, v.log[|w.log|]);
        CompletedInitiatorOk(lib, NOBODY, w.log, v.log[|w.log|], w.initiators[i], response);
      case CompleteResponderEvent(j, confirmation) =>
        CompletedResponderOk(lib, NOBODY, w.log, w.responders[j], confirmation);
    }
  }

  /** Every responder of every run answered an offer addressed to it, signed under the key it was told to trust. */
  lemma EveryAnsweredOfferWasAddressedAndSigned(lib: Calls, events: seq<Event>, j: nat)
    requires Lawful(lib) && ValidEvents(lib, events) && j < |Run(lib, events).responders|
    ensures var y := Run(lib, events).responders[j];
            var o := y.awaiting.offer;
            && o.responder == y.identity.name && o.initiatorSigning == y.awaiting.remoteKey
            && ValidOffer(lib, o) && lib.verify(OfferBytes(o), o.signature, y.awaiting.remoteKey)
  {
    hide StartResponder, OfferBytes, Run, ResponderComplete;
    RunKeepsObjects(lib, events);
    var y := Run(lib, events).responders[j];
    assert ResponderOk(lib, NOBODY, Run(lib, events).log, y);
    ResponderStartsExactly(lib, y.identity, y.awaiting.remoteKey, y.awaiting.offer, y.supplemental, y.secret);
  }

  /** A confirmation repeats the terms of a response. */
  predicate Repeats(c: Confirmation, r: Response) {
    && c.version == r.version && c.suite == r.suite && c.initiator == r.initiator && c.responder == r.responder
    && c.initiatorEphemeral == r.initiatorEphemeral && c.responderEphemeral == r.responderEphemeral
  }

  /**
   Every completed responder of every run, with a dishonest peer too, received a confirmation that repeats its
   response, is signed under the trusted key, and confirms the root of the session.
   */
  lemma EveryResponderCompletionIsConfirmed(lib: Calls, events: seq<Event>, j: nat)
    requires Lawful(lib) && ValidEvents(lib, events)
    requires j < |Run(lib, events).responders| && Run(lib, events).responders[j].session.Some?
    ensures var y := Run(lib, events).responders[j];
            var o, r := y.awaiting.offer, y.awaiting.response;
            && ValidOffer(lib, o) && y.received.Some?
            && Repeats(y.received.value, r)
            && lib.verify(ConfirmationSigned(o, r, y.received.value), y.received.value.signature, y.awaiting.remoteKey)
            && y.received.value.initiatorConfirmation
               == lib.hmac(y.session.value.rootKey, ConfirmationBytes("initiator", HashOf(lib, o, r)))
  {
    hide StartResponder, ConfirmationSigned, Run, ResponderComplete, ConfirmationBytes, HashOf;
    RunKeepsObjects(lib, events);
    var y := Run(lib, events).responders[j];
    assert ResponderOk(lib, NOBODY, Run(lib, events).log, y);
    var started := StartResponder(lib, y.identity, y.awaiting.remoteKey, y.awaiting.offer, y.supplemental, y.secret).value;
    ResponderCompletesExactly(lib, y.awaiting.(root := started.awaiting.root), y.received.value);
  }

  /** The same for every completed initiator: the response repeats its offer, is signed and confirms the root. */
  lemma EveryInitiatorCompletionIsConfirmed(lib: Calls, events: seq<Event>, i: nat)
    requires Lawful(lib) && ValidEvents(lib, events)
    requires i < |Run(lib, events).initiators| && Run(lib, events).initiators[i].done.Some?
    ensures var x := Run(lib, events).initiators[i];
            var o := x.pending.offer;
            && ValidOffer(lib, o) && x.received.Some?
            && var r := x.received.value;
               && r == FromOffer(o, r.responderEphemeral, x.pending.remoteKey, r.responderConfirmation, r.signature)
               && lib.verify(ResponseBytes(o, r), r.signature, x.pending.remoteKey)
               && r.responderConfirmation
                  == lib.hmac(x.done.value.session.rootKey, ConfirmationBytes("responder", HashOf(lib, o, r)))
  {
    hide ResponseBytes, Run, InitiatorComplete, ConfirmationBytes, HashOf, RootOf;
    RunKeepsObjects(lib, events);
    var x := Run(lib, events).initiators[i];
    assert InitiatorOk(lib, NOBODY, Run(lib, events).log, x);
    var open := x.pending.(ephemeral := Some(x.secret));
    InitiatorCompletesExactly(lib, open, x.received.value);
    InitiatorCompletion(lib, open, x.received.value);
  }

  /**
   In a fair run, an offer answered by a responder that trusts an honest key was made by an initiator with that
   key for that responder, with the same terms and ephemeral key; only the signature bytes may differ.
   */
  lemma OfferSigner(lib: Calls, honest: set<Bytes>, events: seq<Event>, j: nat) returns (i: nat)
    requires Lawful(lib) && ValidEvents(lib, events) && FairRun(lib, honest, events)
    requires j < |Run(lib, events).responders| && Run(lib, events).responders[j].awaiting.remoteKey in honest
    ensures i < |Run(lib, events).initiators|
    ensures var x, y := Run(lib, events).initiators[i].pending, Run(lib, events).responders[j];
            && y.awaiting.offer == x.offer.(signature := y.awaiting.offer.signature)
            && KeyOf(lib, x.identity) == y.awaiting.remoteKey && x.identity.name == y.awaiting.offer.initiator
            && x.offer.responder == y.identity.name
  {
    hide Run;
    RunKeepsInvariant(lib, honest, events);
    EveryAnsweredOfferWasAddressedAndSigned(lib, events, j);
    i := SignerOf(lib, honest, Run(lib, events), j);
  }

  lemma SignerOf(lib: Calls, honest: set<Bytes>, w: World, j: nat) returns (i: nat)
    requires Lawful(lib) && Invariant(lib, honest, w)
    requires j < |w.responders| && w.responders[j].awaiting.remoteKey in honest
    ensures i < |w.initiators|
    ensures var x, y := w.initiators[i].pending, w.responders[j];
            && y.awaiting.offer == x.offer.(signature := y.awaiting.offer.signature)
            && KeyOf(lib, x.identity) == y.awaiting.remoteKey && x.identity.name == y.awaiting.offer.initiator
  {
    hide StartResponder, ResponderComplete, InitiatorComplete, OfferPayload, ResponsePayload, ConfirmationPayload;
    var y := w.responders[j];
    var o := y.awaiting.offer;
    assert ResponderOk(lib, honest, w.log, y);
    var n :| 0 <= n < |w.log| && w.log[n].key == y.awaiting.remoteKey && w.log[n].payload == OfferPayload(lib, o);
    assert SignedOk(lib, w, w.log[n]);
    match w.log[n].origin
    case OfferBy(k) =>
      i := k;
      assert InitiatorOk(lib, honest, w.log, w.initiators[k]);
      OfferPayloadInjective(lib, o, w.initiators[k].pending.offer);
    case ResponseBy(k) => NotAResponse(lib, o, w.responders[k].awaiting.offer, w.responders[k].awaiting.response);
    case ConfirmationBy(k) =>
      NotAConfirmation(lib, o, w.initiators[k].pending.offer, w.initiators[k].received.value,
                       w.initiators[k].done.value.confirmation);
  }

  lemma NotAResponse(lib: Calls, o: Offer, p: Offer, r: Response)
    requires ValidOfferFields(lib, o) && ValidOffer(lib, p) && ValidResponse(lib, r)
    ensures OfferPayload(lib, o) != ResponsePayload(lib, p, r)
  {
    TagsDiffer();
    OfferFieldsShort(lib, o);
    TranscriptShort(lib, p, r);
    assert OfferPayload(lib, o)[23] == 'o' as int;
    assert ResponsePayload(lib, p, r)[23] == 'r' as int;
  }

  lemma NotAConfirmation(lib: Calls, o: Offer, p: Offer, r: Response, c: Confirmation)
    requires ValidOfferFields(lib, o) && ValidOffer(lib, p) && ValidResponse(lib, r) && ValidConfirmation(lib, c)
    ensures OfferPayload(lib, o) != ConfirmationPayload(lib, p, r, c)
  {
    PayloadKindsDisjoint(lib, o, p, r, p, r, c);
  }
}
