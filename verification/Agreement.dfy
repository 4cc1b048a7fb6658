/**
 Any number of handshakes at once. Honest identities start and complete initiators and responders in any
 order, with the same signing key in both roles if they like, and the network delivers any valid message.
 */
module Agreement {
  import opened Basics
  import opened Establish
  import opened Handshake
  import opened Library
  import opened Payloads
  import opened Session

  /** One initiator: its object, the private key it generated, and what its completion received and produced. */
  datatype Initiator = Initiator(pending: Pending, secret: Bytes, received: Option<Response>, done: Option<Completed>)

  /** One responder: what it was started with, its object, and what its completion received and produced. */
  datatype Responder = Responder(
    identity: Identity, supplemental: Bytes, secret: Bytes, awaiting: Awaiting,
    received: Option<Confirmation>, session: Option<SessionValue>)

  /** Which call made a signature. */
  datatype Origin = OfferBy(initiator: nat) | ResponseBy(responder: nat) | ConfirmationBy(initiator: nat)

  /** One signature by an honest identity. */
  datatype Signed = Signed(key: Bytes, payload: Bytes, origin: Origin)

  datatype World = World(initiators: seq<Initiator>, responders: seq<Responder>, log: seq<Signed>)

  datatype Event =
    | StartInitiatorEvent(identity: Identity, remoteName: Text, remoteKey: Bytes, suite: Suite, supplemental: Bytes, secret: Bytes)
    | StartResponderEvent(identity: Identity, remoteKey: Bytes, offer: Offer, supplemental: Bytes, secret: Bytes)
    | CompleteInitiatorEvent(initiator: nat, response: Response)
    | CompleteResponderEvent(responder: nat, confirmation: Confirmation)

  const EMPTY := World([], [], [])

  // ---------- steps ----------

  /** Message objects are validated when they are built, so only valid ones are ever delivered. */
  predicate ValidEvent(lib: Calls, e: Event) {
    match e
    case StartInitiatorEvent(_, _, _, _, _, _) => true
    case StartResponderEvent(_, _, offer, _, _) => ValidOffer(lib, offer)
    case CompleteInitiatorEvent(_, response) => ValidResponse(lib, response)
    case CompleteResponderEvent(_, confirmation) => ValidConfirmation(lib, confirmation)
  }

  predicate ValidWorld(lib: Calls, w: World) {
    && (forall i | 0 <= i < |w.initiators| ::
          && ValidOffer(lib, w.initiators[i].pending.offer)
          && (w.initiators[i].received.Some? ==> ValidResponse(lib, w.initiators[i].received.value)))
    && (forall j | 0 <= j < |w.responders| ::
          && ValidOffer(lib, w.responders[j].awaiting.offer)
          && ValidResponse(lib, w.responders[j].awaiting.response)
          && (w.responders[j].received.Some? ==> ValidConfirmation(lib, w.responders[j].received.value)))
  }

  function KeyOf(lib: Calls, identity: Identity): Bytes {
    lib.signingKey(identity.signingSecret)
  }

  /** A call that raises leaves the world as it was: it signs nothing and changes no object. */
  function StartInitiatorStep(lib: Calls, w: World, e: Event): (v: World)
    requires Lawful(lib) && ValidWorld(lib, w) && e.StartInitiatorEvent?
    ensures ValidWorld(lib, v)
  {
    var r := StartInitiator(lib, e.identity, e.remoteName, e.remoteKey, e.suite, e.supplemental, e.secret);
    if r.Err? then w
    else
      StartedOfferIsValid(lib, e.identity, e.remoteName, e.remoteKey, e.suite, e.supplemental, e.secret);
      World(w.initiators + [Initiator(r.value, e.secret, None, None)], w.responders,
            w.log + [Signed(KeyOf(lib, e.identity), OfferPayload(lib, r.value.offer), OfferBy(|w.initiators|))])
  }

  function StartResponderStep(lib: Calls, w: World, e: Event): (v: World)
    requires Lawful(lib) && ValidWorld(lib, w) && e.StartResponderEvent? && ValidEvent(lib, e)
    ensures ValidWorld(lib, v)
  {
    var r := StartResponder(lib, e.identity, e.remoteKey, e.offer, e.supplemental, e.secret);
    if r.Err? then w
    else
      StartedResponderHolds(lib, e.identity, e.remoteKey, e.offer, e.supplemental, e.secret);
      World(w.initiators, w.responders + [Responder(e.identity, e.supplemental, e.secret, r.value.awaiting, None, None)],
            w.log + [Signed(KeyOf(lib, e.identity), ResponsePayload(lib, e.offer, r.value.response), ResponseBy(|w.responders|))])
  }

  function CompleteInitiatorStep(lib: Calls, w: World, e: Event): (v: World)
    requires Lawful(lib) && ValidWorld(lib, w) && e.CompleteInitiatorEvent? && ValidEvent(lib, e)
    ensures ValidWorld(lib, v)
  {
    var i := e.initiator;
    if i >= |w.initiators| then w
    else
      var x := w.initiators[i];
      var r := InitiatorComplete(lib, x.pending, e.response);
      if r.Err? then w
      else
        CompletedInitiatorHolds(lib, x.pending, e.response);
        World(w.initiators[i := Initiator(AfterInitiatorComplete(lib, x.pending, e.response), x.secret, Some(e.response), Some(r.value))],
              w.responders,
              w.log + [Signed(KeyOf(lib, x.pending.identity),
                              ConfirmationPayload(lib, x.pending.offer, e.response, r.value.confirmation), ConfirmationBy(i))])
  }

  function CompleteResponderStep(lib: Calls, w: World, e: Event): (v: World)
    requires Lawful(lib) && ValidWorld(lib, w) && e.CompleteResponderEvent? && ValidEvent(lib, e)
    ensures ValidWorld(lib, v)
  {
    var j := e.responder;
    if j >= |w.responders| then w
    else
      var y := w.responders[j];
      var r := ResponderComplete(lib, y.awaiting, e.confirmation);
      if r.Err? then w
      else
        w.(responders := w.responders[j := y.(awaiting := AfterResponderComplete(lib, y.awaiting, e.confirmation),
                                              received := Some(e.confirmation), session := Some(r.value))])
  }

  function Apply(lib: Calls, w: World, e: Event): (v: World)
    requires Lawful(lib) && ValidWorld(lib, w) && ValidEvent(lib, e)
    ensures ValidWorld(lib, v)
  {
    match e
    case StartInitiatorEvent(_, _, _, _, _, _) => StartInitiatorStep(lib, w, e)
    case StartResponderEvent(_, _, _, _, _) => StartResponderStep(lib, w, e)
    case CompleteInitiatorEvent(_, _) => CompleteInitiatorStep(lib, w, e)
    case CompleteResponderEvent(_, _) => CompleteResponderStep(lib, w, e)
  }

  // ---------- what a run assumes of the libraries ----------

  predicate Logged(log: seq<Signed>, key: Bytes, payload: Bytes) {
    exists n | 0 <= n < |log| :: log[n].key == key && log[n].payload == payload
  }

  /** Under an honest key, only what its owner has signed verifies. */
  predicate Genuine(lib: Calls, honest: set<Bytes>, log: seq<Signed>, key: Bytes, payload: Bytes, signature: Bytes) {
    key in honest && lib.verify(payload, signature, key) ==> Logged(log, key, payload)
  }

  /** The public keys of all ephemeral keys generated so far. */
  function Generated(lib: Calls, w: World): set<Bytes> {
    (set i | 0 <= i < |w.initiators| :: lib.publicKey(w.initiators[i].secret))
    + (set j | 0 <= j < |w.responders| :: lib.publicKey(w.responders[j].secret))
  }

  /** The signatures checked in this step are genuine and the key generated in it is fresh. */
  predicate Fair(lib: Calls, honest: set<Bytes>, w: World, e: Event)
    requires Lawful(lib) && ValidWorld(lib, w) && ValidEvent(lib, e)
  {
    match e
    case StartInitiatorEvent(_, _, _, _, _, secret) => lib.publicKey(secret) !in Generated(lib, w)
    case StartResponderEvent(_, remoteKey, offer, _, secret) =>
      && lib.publicKey(secret) !in Generated(lib, w)
      && Genuine(lib, honest, w.log, remoteKey, OfferPayload(lib, offer), offer.signature)
    case CompleteInitiatorEvent(i, response) =>
      i < |w.initiators| ==>
        var x := w.initiators[i].pending;
        Genuine(lib, honest, w.log, x.remoteKey, ResponsePayload(lib, x.offer, response), response.signature)
    case CompleteResponderEvent(j, c) =>
      j < |w.responders| ==>
        var x := w.responders[j].awaiting;
        Genuine(lib, honest, w.log, x.remoteKey, ConfirmationPayload(lib, x.offer, x.response, c), c.signature)
  }

  predicate ValidEvents(lib: Calls, events: seq<Event>) {
    forall n | 0 <= n < |events| :: ValidEvent(lib, events[n])
  }

  function Run(lib: Calls, events: seq<Event>): (w: World)
    requires Lawful(lib) && ValidEvents(lib, events)
    ensures ValidWorld(lib, w)
  {
    if events == [] then EMPTY
    else Apply(lib, Run(lib, events[..|events| - 1]), events[|events| - 1])
  }

  predicate FairRun(lib: Calls, honest: set<Bytes>, events: seq<Event>)
    requires Lawful(lib) && ValidEvents(lib, events)
  {
    events == []
    || (FairRun(lib, honest, events[..|events| - 1])
        && Fair(lib, honest, Run(lib, events[..|events| - 1]), events[|events| - 1]))
  }

  // ---------- the invariant ----------

  /** An initiator holds its own offer; once completed, a response that its peer signed. */
  ghost predicate InitiatorOk(lib: Calls, honest: set<Bytes>, log: seq<Signed>, x: Initiator)
    requires Lawful(lib)
  {
    var o := x.pending.offer;
    && ValidOffer(lib, o)
    && o.initiatorEphemeral == lib.publicKey(x.secret)
    && o.initiatorSigning == KeyOf(lib, x.pending.identity)
    && o.initiator == x.pending.identity.name
    && (x.done.None? ==> x.pending.ephemeral == Some(x.secret) && x.received.None?)
    && (x.done.Some? ==>
          && x.pending.ephemeral.None?
          && x.received.Some? && ValidResponse(lib, x.received.value)
          && InitiatorComplete(lib, x.pending.(ephemeral := Some(x.secret)), x.received.value) == Ok(x.done.value)
          && (x.pending.remoteKey in honest ==>
                Logged(log, x.pending.remoteKey, ResponsePayload(lib, o, x.received.value))))
  }

  /** A responder answers an offer that its peer signed; once completed, it holds a confirmation that its peer signed. */
  ghost predicate ResponderOk(lib: Calls, honest: set<Bytes>, log: seq<Signed>, y: Responder)
    requires Lawful(lib)
  {
    var o := y.awaiting.offer;
    && ValidOffer(lib, o)
    && (var r := StartResponder(lib, y.identity, y.awaiting.remoteKey, o, y.supplemental, y.secret);
        && r.Ok?
        && ValidResponse(lib, r.value.response)
        && r.value.response == y.awaiting.response
        && (y.awaiting.remoteKey in honest ==> Logged(log, y.awaiting.remoteKey, OfferPayload(lib, o)))
        && (y.session.None? ==> y.awaiting == r.value.awaiting && y.received.None?)
        && (y.session.Some? ==>
              && y.awaiting == r.value.awaiting.(root := None)
              && y.received.Some? && ValidConfirmation(lib, y.received.value)
              && ResponderComplete(lib, y.awaiting.(root := r.value.awaiting.root), y.received.value) == Ok(y.session.value)
              && (y.awaiting.remoteKey in honest ==>
                    Logged(log, y.awaiting.remoteKey,
                           ConfirmationPayload(lib, o, y.awaiting.response, y.received.value)))))
  }

  /** A signature was made by one of the three calls, over that call's payload. */
  ghost predicate SignedOk(lib: Calls, w: World, s: Signed)
    requires ValidWorld(lib, w)
  {
    match s.origin
    case OfferBy(i) =>
      && i < |w.initiators|
      && s.key == KeyOf(lib, w.initiators[i].pending.identity)
      && s.payload == OfferPayload(lib, w.initiators[i].pending.offer)
    case ResponseBy(j) =>
      && j < |w.responders|
      && s.key == KeyOf(lib, w.responders[j].identity)
      && s.payload == ResponsePayload(lib, w.responders[j].awaiting.offer, w.responders[j].awaiting.response)
    case ConfirmationBy(i) =>
      && i < |w.initiators|
      && s.key == KeyOf(lib, w.initiators[i].pending.identity)
      && w.initiators[i].done.Some? && w.initiators[i].received.Some?
      && ValidConfirmation(lib, w.initiators[i].done.value.confirmation)
      && s.payload == ConfirmationPayload(lib, w.initiators[i].pending.offer, w.initiators[i].received.value,
                                          w.initiators[i].done.value.confirmation)
  }

  /** All generated ephemeral keys differ. */
  ghost predicate KeysDiffer(lib: Calls, w: World) {
    && (forall i, k | 0 <= i < k < |w.initiators| :: lib.publicKey(w.initiators[i].secret) != lib.publicKey(w.initiators[k].secret))
    && (forall i, k | 0 <= i < k < |w.responders| :: lib.publicKey(w.responders[i].secret) != lib.publicKey(w.responders[k].secret))
  }

  ghost predicate InitiatorsOk(lib: Calls, honest: set<Bytes>, log: seq<Signed>, xs: seq<Initiator>)
    requires Lawful(lib)
  {
    forall i | 0 <= i < |xs| :: InitiatorOk(lib, honest, log, xs[i])
  }

  ghost predicate RespondersOk(lib: Calls, honest: set<Bytes>, log: seq<Signed>, ys: seq<Responder>)
    requires Lawful(lib)
  {
    forall j | 0 <= j < |ys| :: ResponderOk(lib, honest, log, ys[j])
  }

  ghost predicate LogOk(lib: Calls, w: World, log: seq<Signed>)
    requires ValidWorld(lib, w)
  {
    forall n | 0 <= n < |log| :: SignedOk(lib, w, log[n])
  }

  ghost predicate Invariant(lib: Calls, honest: set<Bytes>, w: World)
    requires Lawful(lib)
  {
    && ValidWorld(lib, w)
    && InitiatorsOk(lib, honest, w.log, w.initiators)
    && RespondersOk(lib, honest, w.log, w.responders)
    && LogOk(lib, w, w.log)
    && KeysDiffer(lib, w)
  }

  lemma LoggedGrows(log: seq<Signed>, s: Signed, key: Bytes, payload: Bytes)
    requires Logged(log, key, payload)
    ensures Logged(log + [s], key, payload)
  {
    var n :| 0 <= n < |log| && log[n].key == key && log[n].payload == payload;
    assert (log + [s])[n] == log[n];
  }

  lemma InitiatorOkGrows(lib: Calls, honest: set<Bytes>, log: seq<Signed>, s: Signed, x: Initiator)
    requires Lawful(lib) && InitiatorOk(lib, honest, log, x)
    ensures InitiatorOk(lib, honest, log + [s], x)
  {
    if x.done.Some? && x.pending.remoteKey in honest {
      LoggedGrows(log, s, x.pending.remoteKey, ResponsePayload(lib, x.pending.offer, x.received.value));
    }
  }

  lemma ResponderOkGrows(lib: Calls, honest: set<Bytes>, log: seq<Signed>, s: Signed, y: Responder)
    requires Lawful(lib) && ResponderOk(lib, honest, log, y)
    ensures ResponderOk(lib, honest, log + [s], y)
  {
    if y.awaiting.remoteKey in honest {
      LoggedGrows(log, s, y.awaiting.remoteKey, OfferPayload(lib, y.awaiting.offer));
      if y.session.Some? {
        StartedResponderHolds(lib, y.identity, y.awaiting.remoteKey, y.awaiting.offer, y.supplemental, y.secret);
        LoggedGrows(log, s, y.awaiting.remoteKey,
                    ConfirmationPayload(lib, y.awaiting.offer, y.awaiting.response, y.received.value));
      }
    }
  }

  lemma InitiatorsGrow(lib: Calls, honest: set<Bytes>, log: seq<Signed>, s: Signed, xs: seq<Initiator>)
    requires Lawful(lib) && InitiatorsOk(lib, honest, log, xs)
    ensures InitiatorsOk(lib, honest, log + [s], xs)
  {
    forall i | 0 <= i < |xs|
      ensures InitiatorOk(lib, honest, log + [s], xs[i])
    {
      InitiatorOkGrows(lib, honest, log, s, xs[i]);
    }
  }

  lemma RespondersGrow(lib: Calls, honest: set<Bytes>, log: seq<Signed>, s: Signed, ys: seq<Responder>)
    requires Lawful(lib) && RespondersOk(lib, honest, log, ys)
    ensures RespondersOk(lib, honest, log + [s], ys)
  {
    forall j | 0 <= j < |ys|
      ensures ResponderOk(lib, honest, log + [s], ys[j])
    {
      ResponderOkGrows(lib, honest, log, s, ys[j]);
    }
  }

  /** No step forgets what a signature was made over. */
  ghost predicate Extends(w: World, v: World) {
    && |w.initiators| <= |v.initiators| && |w.responders| <= |v.responders|
    && (forall i | 0 <= i < |w.initiators| ::
          var x, y := w.initiators[i], v.initiators[i];
          && y.pending.identity == x.pending.identity && y.pending.offer == x.pending.offer
          && (x.done.Some? ==> y.done == x.done && y.received == x.received))
    && (forall j | 0 <= j < |w.responders| ::
          var x, y := w.responders[j], v.responders[j];
          && y.identity == x.identity && y.awaiting.offer == x.awaiting.offer && y.awaiting.response == x.awaiting.response)
  }

  lemma SignedStays(lib: Calls, w: World, v: World, s: Signed)
    requires ValidWorld(lib, w) && ValidWorld(lib, v) && Extends(w, v) && SignedOk(lib, w, s)
    ensures SignedOk(lib, v, s)
  {
  }

  lemma LogStays(lib: Calls, w: World, v: World)
    requires ValidWorld(lib, w) && ValidWorld(lib, v) && Extends(w, v) && LogOk(lib, w, w.log)
    ensures LogOk(lib, v, w.log)
  {
    forall n | 0 <= n < |w.log|
      ensures SignedOk(lib, v, w.log[n])
    {
      SignedStays(lib, w, v, w.log[n]);
    }
  }

  lemma LogGrows(lib: Calls, w: World, v: World, s: Signed)
    requires ValidWorld(lib, w) && ValidWorld(lib, v) && Extends(w, v) && LogOk(lib, w, w.log)
    requires SignedOk(lib, v, s)
    ensures LogOk(lib, v, w.log + [s])
  {
    LogStays(lib, w, v);
  }

  lemma FreshInitiatorKey(lib: Calls, w: World, x: Initiator, log: seq<Signed>)
    requires KeysDiffer(lib, w) && lib.publicKey(x.secret) !in Generated(lib, w)
    ensures KeysDiffer(lib, World(w.initiators + [x], w.responders, log))
  {
    forall i | 0 <= i < |w.initiators|
      ensures lib.publicKey(w.initiators[i].secret) != lib.publicKey(x.secret)
    {
      assert lib.publicKey(w.initiators[i].secret) in Generated(lib, w);
    }
  }

  lemma FreshResponderKey(lib: Calls, w: World, y: Responder, log: seq<Signed>)
    requires KeysDiffer(lib, w) && lib.publicKey(y.secret) !in Generated(lib, w)
    ensures KeysDiffer(lib, World(w.initiators, w.responders + [y], log))
  {
    forall j | 0 <= j < |w.responders|
      ensures lib.publicKey(w.responders[j].secret) != lib.publicKey(y.secret)
    {
      assert lib.publicKey(w.responders[j].secret) in Generated(lib, w);
    }
  }

  lemma InitiatorsAppend(lib: Calls, honest: set<Bytes>, log: seq<Signed>, xs: seq<Initiator>, x: Initiator)
    requires Lawful(lib) && InitiatorsOk(lib, honest, log, xs) && InitiatorOk(lib, honest, log, x)
    ensures InitiatorsOk(lib, honest, log, xs + [x])
  {
  }

  lemma RespondersAppend(lib: Calls, honest: set<Bytes>, log: seq<Signed>, ys: seq<Responder>, y: Responder)
    requires Lawful(lib) && RespondersOk(lib, honest, log, ys) && ResponderOk(lib, honest, log, y)
    ensures RespondersOk(lib, honest, log, ys + [y])
  {
  }

  lemma AppendExtends(w: World, xs: seq<Initiator>, ys: seq<Responder>, log: seq<Signed>)
    ensures Extends(w, World(w.initiators + xs, w.responders + ys, log))
  {
  }

  lemma ResponderReplacementExtends(w: World, j: nat, y: Responder)
    requires j < |w.responders|
    requires var was := w.responders[j];
             && y.identity == was.identity
             && y.awaiting.offer == was.awaiting.offer && y.awaiting.response == was.awaiting.response
    ensures Extends(w, w.(responders := w.responders[j := y]))
  {
  }

  /** Adding an initiator and its signature keeps the invariant. */
  lemma AddInitiator(lib: Calls, honest: set<Bytes>, w: World, x: Initiator, s: Signed)
    requires Lawful(lib) && Invariant(lib, honest, w)
    requires InitiatorOk(lib, honest, w.log + [s], x)
    requires lib.publicKey(x.secret) !in Generated(lib, w)
    requires var v := World(w.initiators + [x], w.responders, w.log + [s]);
             ValidWorld(lib, v) && SignedOk(lib, v, s)
    ensures Invariant(lib, honest, World(w.initiators + [x], w.responders, w.log + [s]))
  {
    InitiatorsGrow(lib, honest, w.log, s, w.initiators);
    RespondersGrow(lib, honest, w.log, s, w.responders);
    InitiatorsAppend(lib, honest, w.log + [s], w.initiators, x);
    FreshInitiatorKey(lib, w, x, w.log + [s]);
    AppendExtends(w, [x], [], w.log + [s]);
    assert w.responders + [] == w.responders;
    LogGrows(lib, w, World(w.initiators + [x], w.responders, w.log + [s]), s);
  }

  lemma AddResponder(lib: Calls, honest: set<Bytes>, w: World, y: Responder, s: Signed)
    requires Lawful(lib) && Invariant(lib, honest, w)
    requires ResponderOk(lib, honest, w.log + [s], y)
    requires lib.publicKey(y.secret) !in Generated(lib, w)
    requires var v := World(w.initiators, w.responders + [y], w.log + [s]);
             ValidWorld(lib, v) && SignedOk(lib, v, s)
    ensures Invariant(lib, honest, World(w.initiators, w.responders + [y], w.log + [s]))
  {
    InitiatorsGrow(lib, honest, w.log, s, w.initiators);
    RespondersGrow(lib, honest, w.log, s, w.responders);
    RespondersAppend(lib, honest, w.log + [s], w.responders, y);
    FreshResponderKey(lib, w, y, w.log + [s]);
    AppendExtends(w, [], [y], w.log + [s]);
    assert w.initiators + [] == w.initiators;
    LogGrows(lib, w, World(w.initiators, w.responders + [y], w.log + [s]), s);
  }

  /** Completing an initiator replaces it by one that extends it. */
  lemma ReplaceInitiator(lib: Calls, honest: set<Bytes>, w: World, i: nat, x: Initiator, s: Signed)
    requires Lawful(lib) && Invariant(lib, honest, w) && i < |w.initiators|
    requires InitiatorOk(lib, honest, w.log + [s], x)
    requires x.secret == w.initiators[i].secret
    requires var v := World(w.initiators[i := x], w.responders, w.log + [s]);
             ValidWorld(lib, v) && Extends(w, v) && SignedOk(lib, v, s)
    ensures Invariant(lib, honest, World(w.initiators[i := x], w.responders, w.log + [s]))
  {
    hide InitiatorOk, ResponderOk, SignedOk;
    InitiatorsGrow(lib, honest, w.log, s, w.initiators);
    RespondersGrow(lib, honest, w.log, s, w.responders);
    LogGrows(lib, w, World(w.initiators[i := x], w.responders, w.log + [s]), s);
  }

  lemma ReplaceResponder(lib: Calls, honest: set<Bytes>, w: World, j: nat, y: Responder)
    requires Lawful(lib) && Invariant(lib, honest, w) && j < |w.responders|
    requires ResponderOk(lib, honest, w.log, y)
    requires y.secret == w.responders[j].secret
    requires var v := w.(responders := w.responders[j := y]); ValidWorld(lib, v) && Extends(w, v)
    ensures Invariant(lib, honest, w.(responders := w.responders[j := y]))
  {
    hide InitiatorOk, ResponderOk, SignedOk, Extends;
    LogStays(lib, w, w.(responders := w.responders[j := y]));
  }

  lemma NewInitiatorOk(lib: Calls, honest: set<Bytes>, log: seq<Signed>, e: Event)
    requires Lawful(lib) && e.StartInitiatorEvent?
    requires StartInitiator(lib, e.identity, e.remoteName, e.remoteKey, e.suite, e.supplemental, e.secret).Ok?
    ensures var x := StartInitiator(lib, e.identity, e.remoteName, e.remoteKey, e.suite, e.supplemental, e.secret).value;
            InitiatorOk(lib, honest, log, Initiator(x, e.secret, None, None))
  {
    StartedOfferIsValid(lib, e.identity, e.remoteName, e.remoteKey, e.suite, e.supplemental, e.secret);
  }

  lemma StartInitiatorKeeps(lib: Calls, honest: set<Bytes>, w: World, e: Event)
    requires Lawful(lib) && Invariant(lib, honest, w) && e.StartInitiatorEvent?
    requires Fair(lib, honest, w, e)
    ensures Invariant(lib, honest, StartInitiatorStep(lib, w, e))
  {
    var r := StartInitiator(lib, e.identity, e.remoteName, e.remoteKey, e.suite, e.supplemental, e.secret);
    if r.Ok? {
      var v := StartInitiatorStep(lib, w, e);
      var x, s := v.initiators[|w.initiators|], v.log[|w.log|];
      NewInitiatorOk(lib, honest, w.log + [s], e);
      AddInitiator(lib, honest, w, x, s);
    }
  }

  lemma NewResponderOk(lib: Calls, honest: set<Bytes>, log: seq<Signed>, s: Signed, e: Event)
    requires Lawful(lib) && e.StartResponderEvent? && ValidEvent(lib, e)
    requires StartResponder(lib, e.identity, e.remoteKey, e.offer, e.supplemental, e.secret).Ok?
    requires Genuine(lib, honest, log, e.remoteKey, OfferPayload(lib, e.offer), e.offer.signature)
    ensures var x := StartResponder(lib, e.identity, e.remoteKey, e.offer, e.supplemental, e.secret).value;
            ResponderOk(lib, honest, log + [s], Responder(e.identity, e.supplemental, e.secret, x.awaiting, None, None))
  {
    StartedResponderHolds(lib, e.identity, e.remoteKey, e.offer, e.supplemental, e.secret);
    if e.remoteKey in honest {
      LoggedGrows(log, s, e.remoteKey, OfferPayload(lib, e.offer));
    }
  }

  lemma StartResponderKeeps(lib: Calls, honest: set<Bytes>, w: World, e: Event)
    requires Lawful(lib) && Invariant(lib, honest, w) && e.StartResponderEvent? && ValidEvent(lib, e)
    requires Fair(lib, honest, w, e)
    ensures Invariant(lib, honest, StartResponderStep(lib, w, e))
  {
    var r := StartResponder(lib, e.identity, e.remoteKey, e.offer, e.supplemental, e.secret);
    if r.Ok? {
      var v := StartResponderStep(lib, w, e);
      var y, s := v.responders[|w.responders|], v.log[|w.log|];
      hide StartResponder;
      StartedResponderHolds(lib, e.identity, e.remoteKey, e.offer, e.supplemental, e.secret);
      NewResponderOk(lib, honest, w.log, s, e);
      hide ResponderOk, InitiatorOk, OfferPayload, ResponsePayload;
      AddResponder(lib, honest, w, y, s);
    }
  }

  /** A completed initiator keeps its claims. */
  lemma CompletedInitiatorOk(lib: Calls, honest: set<Bytes>, log: seq<Signed>, s: Signed, x: Initiator, response: Response)
    requires Lawful(lib) && InitiatorOk(lib, honest, log, x) && ValidResponse(lib, response)
    requires InitiatorComplete(lib, x.pending, response).Ok?
    requires Genuine(lib, honest, log, x.pending.remoteKey, ResponsePayload(lib, x.pending.offer, response), response.signature)
    ensures InitiatorOk(lib, honest, log + [s],
                        Initiator(AfterInitiatorComplete(lib, x.pending, response), x.secret, Some(response),
                                  Some(InitiatorComplete(lib, x.pending, response).value)))
  {
    if x.pending.remoteKey in honest {
      LoggedGrows(log, s, x.pending.remoteKey, ResponsePayload(lib, x.pending.offer, response));
    }
    assert x.pending.(ephemeral := Some(x.secret)) == x.pending;
  }

  /** A completion changes one initiator, without forgetting anything, and logs its signature. */
  lemma CompletionExtends(lib: Calls, honest: set<Bytes>, w: World, e: Event)
    requires Lawful(lib) && ValidWorld(lib, w) && e.CompleteInitiatorEvent? && ValidEvent(lib, e)
    requires InitiatorsOk(lib, honest, w.log, w.initiators) && CompleteInitiatorStep(lib, w, e) != w
    ensures var v := CompleteInitiatorStep(lib, w, e);
            Extends(w, v) && |v.log| == |w.log| + 1 && SignedOk(lib, v, v.log[|w.log|])
  {
    var x := w.initiators[e.initiator];
    assert InitiatorOk(lib, honest, w.log, x);
    CompletedInitiatorHolds(lib, x.pending, e.response);
  }

  lemma CompleteInitiatorKeeps(lib: Calls, honest: set<Bytes>, w: World, e: Event)
    requires Lawful(lib) && Invariant(lib, honest, w) && e.CompleteInitiatorEvent? && ValidEvent(lib, e)
    requires Fair(lib, honest, w, e)
    ensures Invariant(lib, honest, CompleteInitiatorStep(lib, w, e))
  {
    hide InitiatorOk, SignedOk, Extends;
    var i := e.initiator;
    var v := CompleteInitiatorStep(lib, w, e);
    if v != w {
      var x, s := w.initiators[i], v.log[|w.log|];
      CompletionExtends(lib, honest, w, e);
      CompletedInitiatorOk(lib, honest, w.log, s, x, e.response);
      ReplaceInitiator(lib, honest, w, i, v.initiators[i], s);
    }
  }

  /** A completed responder keeps its claims. */
  lemma CompletedResponderOk(lib: Calls, honest: set<Bytes>, log: seq<Signed>, y: Responder, c: Confirmation)
    requires Lawful(lib) && ResponderOk(lib, honest, log, y) && ValidConfirmation(lib, c)
    requires ResponderComplete(lib, y.awaiting, c).Ok?
    requires Genuine(lib, honest, log, y.awaiting.remoteKey,
                     ConfirmationPayload(lib, y.awaiting.offer, y.awaiting.response, c), c.signature)
    ensures ResponderOk(lib, honest, log,
                        y.(awaiting := AfterResponderComplete(lib, y.awaiting, c), received := Some(c),
                           session := Some(ResponderComplete(lib, y.awaiting, c).value)))
  {
    var z := y.awaiting.(root := None);
    assert z.(root := y.awaiting.root) == y.awaiting;
  }

  lemma CompleteResponderKeeps(lib: Calls, honest: set<Bytes>, w: World, e: Event)
    requires Lawful(lib) && Invariant(lib, honest, w) && e.CompleteResponderEvent? && ValidEvent(lib, e)
    requires Fair(lib, honest, w, e)
    ensures Invariant(lib, honest, CompleteResponderStep(lib, w, e))
  {
    var j := e.responder;
    var v := CompleteResponderStep(lib, w, e);
    if v != w {
      var x := w.responders[j];
      var y := x.(awaiting := AfterResponderComplete(lib, x.awaiting, e.confirmation), received := Some(e.confirmation),
                  session := Some(ResponderComplete(lib, x.awaiting, e.confirmation).value));
      assert v == w.(responders := w.responders[j := y]);
      CompletedResponderOk(lib, honest, w.log, x, e.confirmation);
      ResponderReplacementExtends(w, j, y);
      ReplaceResponder(lib, honest, w, j, y);
    }
  }

  lemma {:induction false} RunKeepsInvariant(lib: Calls, honest: set<Bytes>, events: seq<Event>)
    requires Lawful(lib) && ValidEvents(lib, events) && FairRun(lib, honest, events)
    ensures Invariant(lib, honest, Run(lib, events))
  {
    if events != [] {
      var front, e := events[..|events| - 1], events[|events| - 1];
      RunKeepsInvariant(lib, honest, front);
      var w := Run(lib, front);
      match e
      case StartInitiatorEvent(_, _, _, _, _, _) => StartInitiatorKeeps(lib, honest, w, e);
      case StartResponderEvent(_, _, _, _, _) => StartResponderKeeps(lib, honest, w, e);
      case CompleteInitiatorEvent(_, _) => CompleteInitiatorKeeps(lib, honest, w, e);
      case CompleteResponderEvent(_, _) => CompleteResponderKeeps(lib, honest, w, e);
    }
  }
}
