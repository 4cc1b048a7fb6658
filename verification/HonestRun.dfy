/**
 The run of one undisturbed handshake. It is fair whatever the libraries do beyond their laws, it completes
 both sides, and it meets every hypothesis of the agreement theorems; one such run is exhibited.
 */
module HonestRun {
  import opened Agreement
  import opened Basics
  import opened Establish
  import opened Handshake
  import opened InjectiveAgreement
  import opened Kdf
  import opened Library
  import opened Payloads
  import opened Progress
  import opened Protocol
  import opened Separation
  import opened Utf8
  import Channel
  import SealReuse
  import SendLock

  /** The data of one exchange: who takes part, with which secrets, and what the two factories returned. */
  datatype Exchange = Exchange(alice: Identity, bob: Identity, suite: Suite, supplemental: Bytes, a: Bytes, b: Bytes,
                               pending: Pending, started: Started)

  ghost predicate Undisturbed(lib: Calls, x: Exchange) {
    && OfferMade(lib, x.alice, x.bob, KeyOf(lib, x.bob), x.suite, x.supplemental, x.a, x.b, x.pending)
    && StartResponder(lib, x.bob, KeyOf(lib, x.alice), x.pending.offer, x.supplemental, x.b) == Ok(x.started)
  }

  /** What is known of the four calls. */
  lemma FourCalls(lib: Calls, x: Exchange) returns (done: Completed, session: Session.SessionValue)
    requires Undisturbed(lib, x)
    ensures Lawful(lib) && ValidOffer(lib, x.pending.offer) && ValidResponse(lib, x.started.response)
    ensures x.started.awaiting.offer == x.pending.offer && x.started.awaiting.response == x.started.response
    ensures x.started.awaiting.remoteKey == KeyOf(lib, x.alice) && x.pending.remoteKey == KeyOf(lib, x.bob)
    ensures x.pending.identity == x.alice && x.pending.supplemental == x.supplemental
    ensures InitiatorComplete(lib, x.pending, x.started.response) == Ok(done) && ValidConfirmation(lib, done.confirmation)
    ensures ResponderComplete(lib, x.started.awaiting, done.confirmation) == Ok(session)
    ensures Channel.Mirrored(done.session, session)
  {
    StartedResponderHolds(lib, x.bob, KeyOf(lib, x.alice), x.pending.offer, x.supplemental, x.b);
    ConfirmationCompletes(lib, x.alice, x.bob, x.suite, x.supplemental, x.a, x.b, x.pending, []);
    done := InitiatorComplete(lib, x.pending, x.started.response).value;
    session := ResponderComplete(lib, x.started.awaiting, done.confirmation).value;
  }

  // ---------- the four worlds ----------

  function Event1(lib: Calls, x: Exchange): Event {
    StartInitiatorEvent(x.alice, x.bob.name, KeyOf(lib, x.bob), x.suite, x.supplemental, x.a)
  }

  function Event2(lib: Calls, x: Exchange): Event {
    StartResponderEvent(x.bob, KeyOf(lib, x.alice), x.pending.offer, x.supplemental, x.b)
  }

  function World1(lib: Calls, x: Exchange): World
    requires ValidOffer(lib, x.pending.offer)
  {
    World([Initiator(x.pending, x.a, None, None)], [],
          [Signed(KeyOf(lib, x.alice), OfferPayload(lib, x.pending.offer), OfferBy(0))])
  }

  function World2(lib: Calls, x: Exchange): World
    requires ValidOffer(lib, x.pending.offer) && ValidResponse(lib, x.started.response)
  {
    var w := World1(lib, x);
    World(w.initiators, [Responder(x.bob, x.supplemental, x.b, x.started.awaiting, None, None)],
          w.log + [Signed(KeyOf(lib, x.bob), ResponsePayload(lib, x.pending.offer, x.started.response), ResponseBy(0))])
  }

  function World3(lib: Calls, x: Exchange, done: Completed): World
    requires ValidOffer(lib, x.pending.offer) && ValidResponse(lib, x.started.response)
    requires ValidConfirmation(lib, done.confirmation)
  {
    var w := World2(lib, x);
    World([Initiator(x.pending.(ephemeral := None), x.a, Some(x.started.response), Some(done))], w.responders,
          w.log + [Signed(KeyOf(lib, x.alice),
                          ConfirmationPayload(lib, x.pending.offer, x.started.response, done.confirmation), ConfirmationBy(0))])
  }

  function World4(lib: Calls, x: Exchange, done: Completed, session: Session.SessionValue): World
    requires ValidOffer(lib, x.pending.offer) && ValidResponse(lib, x.started.response)
    requires ValidConfirmation(lib, done.confirmation)
  {
    var w := World3(lib, x, done);
    w.(responders := [w.responders[0].(awaiting := x.started.awaiting.(root := None),
                                       received := Some(done.confirmation), session := Some(session))])
  }

  lemma WorldsAreValid(lib: Calls, x: Exchange)
    requires ValidOffer(lib, x.pending.offer) && ValidResponse(lib, x.started.response)
    requires x.started.awaiting.offer == x.pending.offer && x.started.awaiting.response == x.started.response
    ensures ValidWorld(lib, World1(lib, x)) && ValidWorld(lib, World2(lib, x))
  {
    hide OfferPayload, ResponsePayload, ValidOffer, ValidResponse, ValidConfirmation;
  }

  lemma World3IsValid(lib: Calls, x: Exchange, done: Completed)
    requires ValidOffer(lib, x.pending.offer) && ValidResponse(lib, x.started.response)
    requires x.started.awaiting.offer == x.pending.offer && x.started.awaiting.response == x.started.response
    requires ValidConfirmation(lib, done.confirmation)
    ensures ValidWorld(lib, World3(lib, x, done))
  {
    hide OfferPayload, ResponsePayload, ConfirmationPayload, ValidOffer, ValidResponse, ValidConfirmation;
  }

  lemma Step1(lib: Calls, honest: set<Bytes>, x: Exchange)
    requires Undisturbed(lib, x)
    ensures ValidEvent(lib, Event1(lib, x)) && ValidOffer(lib, x.pending.offer) && ValidWorld(lib, World1(lib, x))
    ensures Apply(lib, EMPTY, Event1(lib, x)) == World1(lib, x) && Fair(lib, honest, EMPTY, Event1(lib, x))
  {
    assert EMPTY.initiators + [Initiator(x.pending, x.a, None, None)] == [Initiator(x.pending, x.a, None, None)];
  }

  lemma Step2(lib: Calls, honest: set<Bytes>, x: Exchange)
    requires Undisturbed(lib, x)
    ensures ValidOffer(lib, x.pending.offer) && ValidResponse(lib, x.started.response)
    ensures ValidEvent(lib, Event2(lib, x)) && ValidWorld(lib, World1(lib, x)) && ValidWorld(lib, World2(lib, x))
    ensures Apply(lib, World1(lib, x), Event2(lib, x)) == World2(lib, x) && Fair(lib, honest, World1(lib, x), Event2(lib, x))
  {
    hide OfferPayload, ResponsePayload, InitiatorComplete, ResponderComplete, StartResponder, StartInitiator, ValidWorld,
         ValidOffer, ValidResponse;
    var done, session := FourCalls(lib, x);
    WorldsAreValid(lib, x);
    var w := World1(lib, x);
    assert w.log[0].key == KeyOf(lib, x.alice) && w.log[0].payload == OfferPayload(lib, x.pending.offer);
    assert forall k | k in Generated(lib, w) :: k == lib.publicKey(x.a);
  }

  lemma Step3(lib: Calls, honest: set<Bytes>, x: Exchange, done: Completed)
    requires Undisturbed(lib, x) && ValidOffer(lib, x.pending.offer) && ValidResponse(lib, x.started.response)
    requires InitiatorComplete(lib, x.pending, x.started.response) == Ok(done) && ValidConfirmation(lib, done.confirmation)
    ensures var e := CompleteInitiatorEvent(0, x.started.response);
            && ValidEvent(lib, e) && ValidWorld(lib, World2(lib, x)) && ValidWorld(lib, World3(lib, x, done))
            && Apply(lib, World2(lib, x), e) == World3(lib, x, done) && Fair(lib, honest, World2(lib, x), e)
  {
    hide OfferPayload, ResponsePayload, ConfirmationPayload, InitiatorComplete, ResponderComplete, StartResponder, StartInitiator;
    hide ValidWorld, ValidOffer, ValidResponse, ValidConfirmation;
    var _, _ := FourCalls(lib, x);
    WorldsAreValid(lib, x);
    World3IsValid(lib, x, done);
    var w := World2(lib, x);
    assert w.log[1].key == KeyOf(lib, x.bob) && w.log[1].payload == ResponsePayload(lib, x.pending.offer, x.started.response);
  }

  lemma Step4(lib: Calls, honest: set<Bytes>, x: Exchange, done: Completed, session: Session.SessionValue)
    requires Undisturbed(lib, x) && ValidOffer(lib, x.pending.offer) && ValidResponse(lib, x.started.response)
    requires ValidConfirmation(lib, done.confirmation) && ValidWorld(lib, World3(lib, x, done))
    requires x.started.awaiting.offer == x.pending.offer && x.started.awaiting.response == x.started.response
    requires x.started.awaiting.remoteKey == KeyOf(lib, x.alice)
    requires ResponderComplete(lib, x.started.awaiting, done.confirmation) == Ok(session)
    ensures var e := CompleteResponderEvent(0, done.confirmation);
            && ValidEvent(lib, e) && Apply(lib, World3(lib, x, done), e) == World4(lib, x, done, session)
            && Fair(lib, honest, World3(lib, x, done), e)
  {
    hide OfferPayload, ResponsePayload, ConfirmationPayload, InitiatorComplete, ResponderComplete, StartResponder, StartInitiator;
    var w := World3(lib, x, done);
    assert w.log[2].key == KeyOf(lib, x.alice)
           && w.log[2].payload == ConfirmationPayload(lib, x.pending.offer, x.started.response, done.confirmation);
  }

  lemma RunOfFour(lib: Calls, honest: set<Bytes>, events: seq<Event>, w1: World, w2: World, w3: World, w4: World)
    requires Lawful(lib) && |events| == 4 && ValidEvents(lib, events)
    requires ValidWorld(lib, w1) && ValidWorld(lib, w2) && ValidWorld(lib, w3)
    requires Apply(lib, EMPTY, events[0]) == w1 && Fair(lib, honest, EMPTY, events[0])
    requires Apply(lib, w1, events[1]) == w2 && Fair(lib, honest, w1, events[1])
    requires Apply(lib, w2, events[2]) == w3 && Fair(lib, honest, w2, events[2])
    requires Apply(lib, w3, events[3]) == w4 && Fair(lib, honest, w3, events[3])
    ensures Run(lib, events) == w4 && FairRun(lib, honest, events)
  {
    hide Apply, Fair;
    assert events[..3][..2] == events[..2] && events[..2][..1] == events[..1] && events[..1][..0] == [];
    assert Run(lib, events[..0]) == EMPTY && FairRun(lib, honest, events[..0]);
    assert Run(lib, events[..1]) == w1 && FairRun(lib, honest, events[..1]);
    assert Run(lib, events[..2]) == w2 && FairRun(lib, honest, events[..2]);
    assert Run(lib, events[..3]) == w3 && FairRun(lib, honest, events[..3]);
  }

  lemma FourValidEvents(lib: Calls, a: Event, b: Event, c: Event, d: Event)
    requires ValidEvent(lib, a) && ValidEvent(lib, b) && ValidEvent(lib, c) && ValidEvent(lib, d)
    ensures ValidEvents(lib, [a, b, c, d])
  {
    hide ValidEvent;
  }

  /** The undisturbed exchange is a fair run, whichever keys are honest, and both sides complete as mirror images. */
  lemma UndisturbedRunCompletes(lib: Calls, honest: set<Bytes>, x: Exchange) returns (events: seq<Event>)
    requires Undisturbed(lib, x)
    ensures |events| == 4 && ValidEvents(lib, events) && FairRun(lib, honest, events)
    ensures var w := Run(lib, events);
            && |w.initiators| == |w.responders| == 1
            && w.initiators[0].done.Some? && w.responders[0].session.Some?
            && w.initiators[0].pending.remoteKey == KeyOf(lib, x.bob)
            && w.responders[0].awaiting.remoteKey == KeyOf(lib, x.alice)
            && w.initiators[0].pending.supplemental == w.responders[0].supplemental
            && Channel.Mirrored(w.initiators[0].done.value.session, w.responders[0].session.value)
  {
    hide Apply, Fair, Undisturbed, InitiatorComplete, ResponderComplete, FairRun, Run, ValidWorld, ValidEvent, ValidEvents,
         ValidOffer, ValidResponse, ValidConfirmation, Event1, Event2, OfferPayload, ResponsePayload, ConfirmationPayload;
    var done, session := FourCalls(lib, x);
    Step1(lib, honest, x);
    Step2(lib, honest, x);
    Step3(lib, honest, x, done);
    Step4(lib, honest, x, done, session);
    events := [Event1(lib, x), Event2(lib, x), CompleteInitiatorEvent(0, x.started.response),
               CompleteResponderEvent(0, done.confirmation)];
    FourValidEvents(lib, events[0], events[1], events[2], events[3]);
    RunOfFour(lib, honest, events, World1(lib, x), World2(lib, x), World3(lib, x, done), World4(lib, x, done, session));
  }

  /** One initiator and one responder that hash one transcript. */
  ghost predicate OnePair(lib: Calls, w: World)
    requires Lawful(lib) && ValidWorld(lib, w)
  {
    && |w.initiators| == |w.responders| == 1 && w.initiators[0].received.Some?
    && var x, y := w.initiators[0], w.responders[0];
       Transcript(lib, x.pending.offer, x.received.value) == Transcript(lib, y.awaiting.offer, y.awaiting.response)
  }

  lemma OneTranscript(lib: Calls, w: World)
    requires Lawful(lib) && ValidWorld(lib, w) && OnePair(lib, w)
    ensures NoHashCollision(lib, Transcripts(lib, w))
  {
    hide Transcript;
    var t := Transcript(lib, w.initiators[0].pending.offer, w.initiators[0].received.value);
    assert forall u | u in Transcripts(lib, w) :: u == t;
  }

  lemma OneRootQuery(lib: Calls, w: World)
    requires Lawful(lib) && ValidWorld(lib, w) && OnePair(lib, w)
    requires w.initiators[0].pending.supplemental == w.responders[0].supplemental
    requires lib.exchange(w.initiators[0].secret, w.initiators[0].received.value.responderEphemeral)
             == lib.exchange(w.responders[0].secret, w.responders[0].awaiting.offer.initiatorEphemeral)
    ensures NoHkdfCollision(lib, RootQueries(lib, w))
  {
    hide Transcript;
    if lib.exchange(w.initiators[0].secret, w.initiators[0].received.value.responderEphemeral).Some? {
      var q := InitiatorRootQuery(lib, w.initiators[0]);
      assert forall r | r in RootQueries(lib, w) :: r == q;
    }
  }

  lemma OneConfirmation(lib: Calls, w: World)
    requires Lawful(lib) && ValidWorld(lib, w) && OnePair(lib, w) && w.initiators[0].done.Some?
    requires w.initiators[0].done.value.session.rootKey == ResponderRoot(lib, w.responders[0])
    ensures NoHmacCollision(lib, ConfirmationQueries(lib, w))
  {
    hide Transcript, ResponderRoot;
    var q := InitiatorCheck(lib, w.initiators[0]);
    assert forall r | r in ConfirmationQueries(lib, w) :: r == q;
  }

  /** With one handshake, each side makes the same hash calls, so nothing can collide. */
  lemma OnePairCannotCollide(lib: Calls, honest: set<Bytes>, w: World)
    requires Lawful(lib) && Invariant(lib, honest, w) && |w.initiators| == |w.responders| == 1
    requires Agrees(lib, w, 0, 0) && w.responders[0].session.Some?
    requires w.initiators[0].pending.supplemental == w.responders[0].supplemental
    requires w.initiators[0].done.value.session.rootKey == w.responders[0].session.value.rootKey
    ensures RootsAreFresh(lib, w) && NoHmacCollision(lib, ConfirmationQueries(lib, w))
  {
    assert ResponderOk(lib, honest, w.log, w.responders[0]);
    hide InitiatorOk, ResponderOk, SignedOk, Transcript, Transcripts, RootQueries, ConfirmationQueries;
    ResponderRootIs(lib, honest, w.log, w.responders[0]);
    SharedSecretsAgree(lib, honest, w, 0, 0);
    OneTranscript(lib, w);
    OneRootQuery(lib, w);
    OneConfirmation(lib, w);
  }

  /** So the hypotheses of the theorems about agreeing pairs and their channels are met by an ordinary handshake. */
  lemma UndisturbedRunMakesAPair(lib: Calls, x: Exchange) returns (events: seq<Event>)
    requires Undisturbed(lib, x)
    ensures ValidEvents(lib, events) && PairOfRun(lib, {KeyOf(lib, x.alice), KeyOf(lib, x.bob)}, events, 0, 0)
  {
    hide Undisturbed, InitiatorOk, ResponderOk, SignedOk;
    var honest := {KeyOf(lib, x.alice), KeyOf(lib, x.bob)};
    events := UndisturbedRunCompletes(lib, honest, x);
    assert Lawful(lib) by {
      var _, _ := FourCalls(lib, x);
    }
    var w := Run(lib, events);
    RunKeepsInvariant(lib, honest, events);
    var j := CompletedInitiatorHasOneResponder(lib, honest, events, 0);
    assert j == 0;
    OnePairCannotCollide(lib, honest, w);
  }

  // ---------- an example ----------

  const ALICE: Identity := Identity(Lit("a"), [1])
  const BOB: Identity := Identity(Lit("b"), [2])

  lemma ShortNames()
    ensures ValidName(Example(), ALICE.name) && ValidName(Example(), BOB.name) && ALICE.name != BOB.name
  {
    assert ALICE.name == ['a' as int] && BOB.name == ['b' as int];
    assert Encode(ALICE.name) == ['a' as int] && Encode(BOB.name) == ['b' as int];
  }

  /** Two valid names and a usable key pair are all that starting an initiator takes. */
  lemma InitiatorStarts(lib: Calls, alice: Identity, bob: Identity, suite: Suite, a: Bytes, b: Bytes) returns (pending: Pending)
    requires Lawful(lib) && ValidName(lib, alice.name) && ValidName(lib, bob.name) && alice.name != bob.name
    requires lib.publicKey(a) != lib.publicKey(b) && lib.exchange(a, lib.publicKey(b)).Some?
    ensures OfferMade(lib, alice, bob, KeyOf(lib, bob), suite, [], a, b, pending)
  {
    SuiteNames(suite);
    pending := StartInitiator(lib, alice, bob.name, KeyOf(lib, bob), suite, [], a).value;
    StartedOfferIsValid(lib, alice, bob.name, KeyOf(lib, bob), suite, [], a);
  }

  /** An undisturbed handshake between two identities with different keys. */
  lemma ExampleRun() returns (x: Exchange)
    ensures Undisturbed(Example(), x) && KeyOf(Example(), x.alice) != KeyOf(Example(), x.bob)
  {
    hide Example, OfferMade, StartResponder;
    var lib := Example();
    ExampleIsLawful();
    ShortNames();
    ExampleExchanges();
    var pending := InitiatorStarts(lib, ALICE, BOB, AesGcmSiv, [1], [2]);
    assert ValidOffer(lib, pending.offer) by {
      OfferIsValid(lib, ALICE, BOB, AesGcmSiv, [1], [2], pending);
    }
    OfferIsAnsweredExactlyWhenTrusted(lib, ALICE, BOB, KeyOf(lib, BOB), AesGcmSiv, [], [1], [2], pending, KeyOf(lib, ALICE), []);
    x := Exchange(ALICE, BOB, AesGcmSiv, [], [1], [2], pending,
                  StartResponder(lib, BOB, KeyOf(lib, ALICE), pending.offer, [], [2]).value);
  }

  lemma OfferIsValid(lib: Calls, alice: Identity, bob: Identity, suite: Suite, a: Bytes, b: Bytes, pending: Pending)
    requires OfferMade(lib, alice, bob, KeyOf(lib, bob), suite, [], a, b, pending)
    ensures ValidOffer(lib, pending.offer)
  {
  }

  lemma ExampleExchanges()
    ensures Example().exchange([1], Example().publicKey([2])).Some?
  {
  }

  /** Two threads of a session that such a handshake established can seal two plaintexts under sequence 0. */
  lemma EstablishedSessionReseals(lib: Calls, x: Exchange, t: nat, first: Bytes, u: nat, second: Bytes)
    returns (done: Completed, session: Session.SessionValue)
    requires Undisturbed(lib, x) && |first| <= MAX_PLAINTEXT_BYTES && |second| <= MAX_PLAINTEXT_BYTES
    ensures Lawful(lib) && ValidResponse(lib, x.started.response)
    ensures InitiatorComplete(lib, x.pending, x.started.response) == Ok(done)
    ensures ResponderComplete(lib, x.started.awaiting, done.confirmation) == Ok(session) && Session.Keyed(session)
    ensures SendLock.Run(lib, SendLock.Start(session), SealReuse.SealThenFail(t, first, u, second)).sealed
            == [SendLock.Sealed(0, first), SendLock.Sealed(0, second)]
  {
    done, session := FourCalls(lib, x);
    assert Session.CanEncrypt(lib, session, first) && Session.CanEncrypt(lib, session, second) && session.sendSequence == 0;
    SealReuse.SealThenFailReseals(lib, session, t, first, u, second);
  }
}
