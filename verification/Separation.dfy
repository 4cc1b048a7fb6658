/**
 Separation between handshakes. Fresh keys give different transcripts, and different transcripts give
 different roots and message keys; so a channel stays ideal although the AEAD serves every session there is.
 */
module Separation {
  import opened Agreement
  import opened Basics
  import opened InjectiveAgreement
  import opened Kdf
  import opened Library
  import opened Payloads
  import opened Protocol
  import opened Session
  import opened Wire
  import Channel

  // ---------- roots ----------

  /** The transcripts hashed in a run. */
  ghost function Transcripts(lib: Calls, w: World): set<Bytes>
    requires Lawful(lib) && ValidWorld(lib, w)
  {
    (set i: nat | i < |w.initiators| && w.initiators[i].received.Some? ::
       Transcript(lib, w.initiators[i].pending.offer, w.initiators[i].received.value))
    + (set j: nat | j < |w.responders| :: Transcript(lib, w.responders[j].awaiting.offer, w.responders[j].awaiting.response))
  }

  ghost predicate NoHashCollision(lib: Calls, inputs: set<Bytes>) {
    forall a, b | a in inputs && b in inputs :: lib.sha256(a) == lib.sha256(b) ==> a == b
  }

  /** Neither the transcript hashes nor the root derivations of a run collide. */
  ghost predicate RootsAreFresh(lib: Calls, w: World)
    requires Lawful(lib) && ValidWorld(lib, w)
  {
    NoHashCollision(lib, Transcripts(lib, w)) && NoHkdfCollision(lib, RootQueries(lib, w))
  }

  predicate HasCompleted(w: World, i: nat) {
    i < |w.initiators| && w.initiators[i].done.Some?
  }

  lemma InitiatorQuery(lib: Calls, honest: set<Bytes>, w: World, i: nat) returns (transcript: Bytes, q: HkdfQuery)
    requires Lawful(lib) && Invariant(lib, honest, w) && HasCompleted(w, i)
    ensures w.initiators[i].received.Some?
    ensures transcript == Transcript(lib, w.initiators[i].pending.offer, w.initiators[i].received.value)
    ensures transcript in Transcripts(lib, w) && q in RootQueries(lib, w) && q.salt == Some(lib.sha256(transcript))
    ensures w.initiators[i].done.value.session.rootKey == lib.hkdf(q)
    ensures w.initiators[i].pending.offer.initiatorEphemeral == lib.publicKey(w.initiators[i].secret)
  {
    var x := w.initiators[i];
    assert InitiatorOk(lib, honest, w.log, x);
    InitiatorRootIs(lib, honest, w.log, x);
    transcript := Transcript(lib, x.pending.offer, x.received.value);
    q := InitiatorRootQuery(lib, x);
  }

  lemma ResponderQuery(lib: Calls, honest: set<Bytes>, w: World, j: nat) returns (transcript: Bytes, q: HkdfQuery)
    requires Lawful(lib) && Invariant(lib, honest, w) && j < |w.responders|
    ensures transcript == Transcript(lib, w.responders[j].awaiting.offer, w.responders[j].awaiting.response)
    ensures transcript in Transcripts(lib, w) && q in RootQueries(lib, w) && q.salt == Some(lib.sha256(transcript))
    ensures ResponderRoot(lib, w.responders[j]) == lib.hkdf(q)
    ensures w.responders[j].awaiting.response.responderEphemeral == lib.publicKey(w.responders[j].secret)
  {
    var y := w.responders[j];
    assert ResponderOk(lib, honest, w.log, y);
    ResponderRootIs(lib, honest, w.log, y);
    transcript := Transcript(lib, y.awaiting.offer, y.awaiting.response);
    q := ResponderRootQuery(lib, y);
  }

  /** Two initiators never share a root. */
  lemma InitiatorRootsDiffer(lib: Calls, honest: set<Bytes>, w: World, i: nat, h: nat)
    requires Lawful(lib) && Invariant(lib, honest, w) && RootsAreFresh(lib, w)
    requires HasCompleted(w, i) && HasCompleted(w, h)
    requires w.initiators[i].done.value.session.rootKey == w.initiators[h].done.value.session.rootKey
    ensures i == h
  {
    hide InitiatorOk, ResponderOk, SignedOk;
    var t, q := InitiatorQuery(lib, honest, w, i);
    var u, r := InitiatorQuery(lib, honest, w, h);
    assert q == r && t == u;
    TranscriptInjective(lib, w.initiators[i].pending.offer, w.initiators[i].received.value,
                        w.initiators[h].pending.offer, w.initiators[h].received.value);
  }

  /** Two responders never share a root. */
  lemma ResponderRootsDiffer(lib: Calls, honest: set<Bytes>, w: World, j: nat, k: nat)
    requires Lawful(lib) && Invariant(lib, honest, w) && RootsAreFresh(lib, w)
    requires j < |w.responders| && k < |w.responders|
    requires ResponderRoot(lib, w.responders[j]) == ResponderRoot(lib, w.responders[k])
    ensures j == k
  {
    hide InitiatorOk, ResponderOk, SignedOk;
    var t, q := ResponderQuery(lib, honest, w, j);
    var u, r := ResponderQuery(lib, honest, w, k);
    assert q == r && t == u;
    TranscriptInjective(lib, w.responders[j].awaiting.offer, w.responders[j].awaiting.response,
                        w.responders[k].awaiting.offer, w.responders[k].awaiting.response);
  }

  /** An initiator shares its root with no responder but the one it agrees with. */
  lemma SharedRootMeansAgreement(lib: Calls, honest: set<Bytes>, w: World, i: nat, j: nat, h: nat, k: nat)
    requires Lawful(lib) && Invariant(lib, honest, w) && RootsAreFresh(lib, w)
    requires Agrees(lib, w, i, j) && HasCompleted(w, h) && k < |w.responders|
    requires w.initiators[h].done.value.session.rootKey == ResponderRoot(lib, w.responders[k])
    ensures i == h <==> j == k
  {
    hide InitiatorOk, ResponderOk, SignedOk;
    var t, q := InitiatorQuery(lib, honest, w, h);
    var u, r := ResponderQuery(lib, honest, w, k);
    assert q == r && t == u;
    TranscriptInjective(lib, w.initiators[h].pending.offer, w.initiators[h].received.value,
                        w.responders[k].awaiting.offer, w.responders[k].awaiting.response);
    var _, _ := InitiatorQuery(lib, honest, w, i);
    var _, _ := ResponderQuery(lib, honest, w, j);
  }

  /** A root of some session of the run that is neither initiator i's nor responder j's. */
  ghost predicate OtherRoot(lib: Calls, w: World, i: nat, j: nat, root: Bytes)
    requires Lawful(lib) && ValidWorld(lib, w)
  {
    || (exists h: nat :: h != i && HasCompleted(w, h) && w.initiators[h].done.value.session.rootKey == root)
    || (exists k: nat :: k != j && k < |w.responders| && ResponderRoot(lib, w.responders[k]) == root)
  }

  /** An agreeing pair has its root to itself. */
  lemma PairRootIsItsOwn(lib: Calls, honest: set<Bytes>, w: World, i: nat, j: nat, root: Bytes)
    requires Lawful(lib) && Invariant(lib, honest, w) && RootsAreFresh(lib, w)
    requires Agrees(lib, w, i, j) && OtherRoot(lib, w, i, j, root)
    ensures root != w.initiators[i].done.value.session.rootKey
  {
    if root == w.initiators[i].done.value.session.rootKey {
      if h: nat :| h != i && HasCompleted(w, h) && w.initiators[h].done.value.session.rootKey == root {
        InitiatorRootsDiffer(lib, honest, w, i, h);
      } else {
        var k: nat :| k != j && k < |w.responders| && ResponderRoot(lib, w.responders[k]) == root;
        SharedRootMeansAgreement(lib, honest, w, i, j, i, k);
      }
    }
  }

  // ---------- channels that share the AEAD ----------

  /** One AEAD encryption by a session outside the channel. */
  datatype ForeignSeal = ForeignSeal(root: Bytes, sequence: nat, direction: Direction, input: SealInput)

  /** It was made as every session makes them, and these are the HKDF calls behind it. */
  ghost predicate MadeBySession(lib: Calls, f: ForeignSeal, queries: set<HkdfQuery>)
    requires Lawful(lib)
  {
    && |f.direction.sender| == |f.direction.recipient| == 32
    && f.sequence <= MAX_MESSAGE_SEQUENCE
    && MessageKey(f.input.key, f.input.nonce) == DeriveMessageKey(lib, f.root, f.sequence, f.input.suite, f.direction)
    && MessageQueries(lib, f.root, f.sequence, f.input.suite, f.direction) <= queries
  }

  predicate IsSealOf(lib: Calls, x: SealInput, mk: MessageKey, ciphertext: Bytes, associated: Bytes) {
    x.key == mk.key && x.nonce == mk.nonce && x.associated == associated && Seal(lib, x) == ciphertext
  }

  /**
   The AEAD opens only what some session has sealed, in this channel or outside it. `queries` covers the HKDF
   call behind what is opened.
   */
  ghost predicate SharedStep(lib: Calls, c: Channel.State, foreign: set<ForeignSeal>, queries: set<HkdfQuery>, e: Channel.Event)
    requires Lawful(lib) && Channel.KeyedState(c)
  {
    match e
    case Send(_, _) => true
    case Receive(p, blob) =>
      ReadEnvelopeIsValid(lib, c.End(p).session, blob);
      var s := c.End(p).session;
      var r := ReadEnvelope(lib, s, blob);
      r.Ok? && Authenticate(lib, s, r.value).Ok? ==>
        var mk := DeriveMessageKey(lib, s.rootKey, r.value.sequence, s.suite, Receiving(s));
        var associated := AssociatedData(lib, r.value).value;
        && MessageQueries(lib, s.rootKey, r.value.sequence, s.suite, Receiving(s)) <= queries
        && (Channel.WasSealed(lib, c, mk.key, mk.nonce, r.value.ciphertext, associated)
            || exists f | f in foreign :: IsSealOf(lib, f.input, mk, r.value.ciphertext, associated))
  }

  ghost predicate SharedRun(lib: Calls, c: Channel.State, foreign: set<ForeignSeal>, queries: set<HkdfQuery>,
                            events: seq<Channel.Event>)
    requires Lawful(lib) && Channel.KeyedState(c)
  {
    events == []
    || (SharedRun(lib, c, foreign, queries, events[..|events| - 1])
        && SharedStep(lib, Channel.Run(lib, c, events[..|events| - 1]), foreign, queries, events[|events| - 1]))
  }

  /** Seals under other roots use other keys, so they cannot be what this channel opens. */
  lemma SharedStepIsIdeal(lib: Calls, c: Channel.State, foreign: set<ForeignSeal>, queries: set<HkdfQuery>, e: Channel.Event)
    requires Lawful(lib) && Channel.KeyedState(c) && NoHkdfCollision(lib, queries)
    requires forall f | f in foreign :: MadeBySession(lib, f, queries) && f.root != c.End(e.party).session.rootKey
    requires SharedStep(lib, c, foreign, queries, e)
    ensures Channel.IdealStep(lib, c, e)
  {
    hide FromBytes, ToBytes, AssociatedData, MessageQueries, DeriveMessageKey;
    match e
    case Send(_, _) =>
    case Receive(p, blob) =>
      ReadEnvelopeIsValid(lib, c.End(p).session, blob);
      var s := c.End(p).session;
      var r := ReadEnvelope(lib, s, blob);
      if r.Ok? && Authenticate(lib, s, r.value).Ok? {
        var mk := DeriveMessageKey(lib, s.rootKey, r.value.sequence, s.suite, Receiving(s));
        var associated := AssociatedData(lib, r.value).value;
        if f :| f in foreign && IsSealOf(lib, f.input, mk, r.value.ciphertext, associated) {
          MessageKeysAreSeparated(lib, queries, f.root, f.sequence, f.input.suite, f.direction,
                                  s.rootKey, r.value.sequence, s.suite, Receiving(s));
        }
      }
  }

  lemma {:induction false} RootStays(lib: Calls, c: Channel.State, events: seq<Channel.Event>, p: Channel.Party)
    requires Lawful(lib) && Channel.KeyedState(c)
    ensures Channel.Run(lib, c, events).End(p).session.rootKey == c.End(p).session.rootKey
  {
    hide Encrypted, Decrypted;
    if events != [] {
      RootStays(lib, c, events[..|events| - 1], p);
    }
  }

  lemma {:induction false} SharedRunIsIdeal(lib: Calls, c: Channel.State, foreign: set<ForeignSeal>, queries: set<HkdfQuery>,
                                            events: seq<Channel.Event>)
    requires Lawful(lib) && Channel.KeyedState(c) && NoHkdfCollision(lib, queries)
    requires c.alice.session.rootKey == c.bob.session.rootKey
    requires forall f | f in foreign :: MadeBySession(lib, f, queries) && f.root != c.alice.session.rootKey
    requires SharedRun(lib, c, foreign, queries, events)
    ensures Channel.IdealRun(lib, c, events)
  {
    hide MadeBySession, SharedStep, Channel.IdealStep;
    if events != [] {
      var front, e := events[..|events| - 1], events[|events| - 1];
      SharedRunIsIdeal(lib, c, foreign, queries, front);
      RootStays(lib, c, front, e.party);
      SharedStepIsIdeal(lib, Channel.Run(lib, c, front), foreign, queries, e);
    }
  }

  /** The channel between the two sessions of an agreeing pair. */
  function PairChannel(w: World, i: nat, j: nat): Channel.State
    requires HasCompleted(w, i) && j < |w.responders| && w.responders[j].session.Some?
  {
    Channel.State(Channel.Endpoint(w.initiators[i].done.value.session, [], []),
                  Channel.Endpoint(w.responders[j].session.value, [], []))
  }

  /** Two completed sessions of an agreeing pair, after any fair run of handshakes. */
  ghost predicate PairOfRun(lib: Calls, honest: set<Bytes>, setup: seq<Event>, i: nat, j: nat)
    requires Lawful(lib) && ValidEvents(lib, setup)
  {
    var w := Run(lib, setup);
    && FairRun(lib, honest, setup)
    && Agrees(lib, w, i, j) && w.responders[j].session.Some?
    && RootsAreFresh(lib, w) && NoHmacCollision(lib, ConfirmationQueries(lib, w))
  }

  lemma PairStartsIdeally(lib: Calls, honest: set<Bytes>, setup: seq<Event>, i: nat, j: nat)
    requires Lawful(lib) && ValidEvents(lib, setup) && PairOfRun(lib, honest, setup, i, j)
    ensures var c := PairChannel(Run(lib, setup), i, j);
            && Channel.Initial(lib, c)
            && forall root | OtherRoot(lib, Run(lib, setup), i, j, root) :: root != c.alice.session.rootKey
  {
    RunKeepsInvariant(lib, honest, setup);
    var w := Run(lib, setup);
    RootsAgree(lib, honest, w, i, j);
    SessionsStartAChannel(lib, honest, w, i, j);
    forall root | OtherRoot(lib, w, i, j, root)
      ensures root != w.initiators[i].done.value.session.rootKey
    {
      PairRootIsItsOwn(lib, honest, w, i, j, root);
    }
  }

  /**
   End-to-end safety from the handshake on. The AEAD may open whatever any other session of the run has
   sealed; still everything an agreeing pair returns was encrypted by the peer, once.
   */
  lemma PairIsSafeAmongOthers(lib: Calls, honest: set<Bytes>, setup: seq<Event>, i: nat, j: nat, foreign: set<ForeignSeal>,
                              queries: set<HkdfQuery>, events: seq<Channel.Event>, p: Channel.Party)
    requires Lawful(lib) && ValidEvents(lib, setup) && PairOfRun(lib, honest, setup, i, j)
    requires NoHkdfCollision(lib, queries)
    requires forall f | f in foreign :: MadeBySession(lib, f, queries) && OtherRoot(lib, Run(lib, setup), i, j, f.root)
    requires Channel.KeyedState(PairChannel(Run(lib, setup), i, j))
    requires SharedRun(lib, PairChannel(Run(lib, setup), i, j), foreign, queries, events)
    ensures var d := Channel.Run(lib, PairChannel(Run(lib, setup), i, j), events);
            && (forall k | 0 <= k < |d.End(p).got| :: Channel.GotFromPeer(d.End(p).got[k], d.End(p.Peer()).sent))
            && (forall k, l | 0 <= k < l < |d.End(p).got| :: d.End(p).got[k].sequence != d.End(p).got[l].sequence)
  {
    hide MadeBySession, OtherRoot, SharedRun, Channel.IdealRun, Channel.Run;
    PairStartsIdeally(lib, honest, setup, i, j);
    var c := PairChannel(Run(lib, setup), i, j);
    SharedRunIsIdeal(lib, c, foreign, queries, events);
    Channel.EndToEndSafety(lib, c, events, p);
  }
}
