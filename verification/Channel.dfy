/**
 Two mirrored sessions and a network that drops, duplicates, reorders, reflects and alters packets at will:
 it chooses every blob that is delivered.
 */
module Channel {
  import opened Basics
  import opened Kdf
  import opened Library
  import opened Protocol
  import opened Replay
  import opened Session
  import opened Wire

  datatype Party = Alice | Bob {
    function Peer(): Party {
      if Alice? then Bob else Alice
    }
  }

  /** One successful `encrypt`: what was sealed and the packet it became. */
  datatype Sent = Sent(input: SealInput, envelope: Envelope, packet: Bytes)

  /** One successful `decrypt`. */
  datatype Got = Got(sequence: int, plaintext: Bytes, blob: Bytes)

  datatype Endpoint = Endpoint(session: SessionValue, sent: seq<Sent>, got: seq<Got>)

  datatype State = State(alice: Endpoint, bob: Endpoint) {
    function End(p: Party): Endpoint {
      if p.Alice? then alice else bob
    }

    function With(p: Party, e: Endpoint): State {
      if p.Alice? then State(e, bob) else State(alice, e)
    }
  }

  datatype Event = Send(party: Party, plaintext: Bytes) | Receive(party: Party, blob: Bytes)

  /** What two sessions of one handshake have in common. */
  predicate Mirrored(s: SessionValue, t: SessionValue) {
    && s.localName == t.remoteName && s.remoteName == t.localName
    && s.suite == t.suite && s.rootKey == t.rootKey
    && s.localEphemeral == t.remoteEphemeral && s.remoteEphemeral == t.localEphemeral
    && s.localEphemeral != s.remoteEphemeral
  }

  predicate Started(lib: Calls, s: SessionValue) {
    Keyed(s) && Named(lib, s) && s.sendSequence == 0 && s.window.size > 0 && s.window == Fresh(s.window.size)
  }

  predicate Initial(lib: Calls, c: State) {
    && Mirrored(c.alice.session, c.bob.session)
    && Started(lib, c.alice.session) && Started(lib, c.bob.session)
    && c.alice.sent == [] && c.bob.sent == [] && c.alice.got == [] && c.bob.got == []
  }

  // ---------- steps ----------

  function Sends(lib: Calls, e: Endpoint, plaintext: Bytes): Endpoint
    requires Lawful(lib) && Keyed(e.session)
  {
    var packet := Encrypted(lib, e.session, plaintext);
    if packet.Err? then e
    else
      var x := PrepareSeal(lib, e.session, plaintext).value;
      var envelope := NextEnvelope(e.session).(ciphertext := Seal(lib, x));
      Endpoint(AfterEncrypt(lib, e.session, plaintext), e.sent + [Sent(x, envelope, packet.value)], e.got)
  }

  function Receives(lib: Calls, e: Endpoint, blob: Bytes): Endpoint
    requires Lawful(lib) && Keyed(e.session)
  {
    var plaintext := Decrypted(lib, e.session, blob);
    if plaintext.Err? then e
    else
      var sequence := ReadEnvelope(lib, e.session, blob).value.sequence;
      Endpoint(AfterDecrypt(lib, e.session, blob), e.sent, e.got + [Got(sequence, plaintext.value, blob)])
  }

  predicate KeyedState(c: State) {
    Keyed(c.alice.session) && Keyed(c.bob.session)
  }

  function Apply(lib: Calls, c: State, e: Event): (d: State)
    requires Lawful(lib) && KeyedState(c)
    ensures KeyedState(d)
  {
    match e
    case Send(p, plaintext) => c.With(p, Sends(lib, c.End(p), plaintext))
    case Receive(p, blob) => c.With(p, Receives(lib, c.End(p), blob))
  }

  /** Some party sealed this ciphertext with this key, nonce and associated data. */
  ghost predicate WasSealed(lib: Calls, c: State, key: Bytes, nonce: Bytes, ciphertext: Bytes, associated: Bytes) {
    exists p: Party, i ::
      0 <= i < |c.End(p).sent|
      && var x := c.End(p).sent[i].input;
         x.key == key && x.nonce == nonce && x.associated == associated && Seal(lib, x) == ciphertext
  }

  /** The AEAD is ideal in this step: what it opens was sealed before, by one of the two sessions. */
  ghost predicate IdealStep(lib: Calls, c: State, e: Event)
    requires Lawful(lib) && KeyedState(c)
  {
    match e
    case Send(_, _) => true
    case Receive(p, blob) =>
      ReadEnvelopeIsValid(lib, c.End(p).session, blob);
      var s := c.End(p).session;
      var r := ReadEnvelope(lib, s, blob);
      r.Ok? && Authenticate(lib, s, r.value).Ok? ==>
        var mk := DeriveMessageKey(lib, s.rootKey, r.value.sequence, s.suite, Receiving(s));
        WasSealed(lib, c, mk.key, mk.nonce, r.value.ciphertext, AssociatedData(lib, r.value).value)
  }

  function Run(lib: Calls, c: State, events: seq<Event>): (d: State)
    requires Lawful(lib) && KeyedState(c)
    ensures KeyedState(d)
  {
    if events == [] then c
    else Apply(lib, Run(lib, c, events[..|events| - 1]), events[|events| - 1])
  }

  /** Every step of the run is ideal in the state it starts from. */
  ghost predicate IdealRun(lib: Calls, c: State, events: seq<Event>)
    requires Lawful(lib) && KeyedState(c)
  {
    events == []
    || (IdealRun(lib, c, events[..|events| - 1])
        && IdealStep(lib, Run(lib, c, events[..|events| - 1]), events[|events| - 1]))
  }

  // ---------- the invariant ----------

  /** The n-th packet of a session carries sequence n, its metadata, and the key and nonce of that sequence. */
  ghost predicate SentOk(lib: Calls, s: SessionValue, n: nat, x: Sent)
    requires LawfulHashes(lib) && Keyed(s)
  {
    && x.envelope == Envelope(PROTOCOL_VERSION, s.suite.Name(), s.localName, s.remoteName, n, Seal(lib, x.input))
    && x.input.suite == s.suite
    && MessageKey(x.input.key, x.input.nonce) == DeriveMessageKey(lib, s.rootKey, n, s.suite, Sending(s))
    && AssociatedData(lib, x.envelope) == Ok(x.input.associated)
    && ToBytes(lib, x.envelope) == Ok(x.packet)
  }

  ghost predicate SendsOk(lib: Calls, e: Endpoint)
    requires LawfulHashes(lib) && Keyed(e.session)
  {
    && e.session.sendSequence == |e.sent|
    && |e.sent| <= MAX_MESSAGE_SEQUENCE + 1
    && forall n | 0 <= n < |e.sent| :: SentOk(lib, e.session, n, e.sent[n])
  }

  /** What was returned is what the peer encrypted under that sequence, from a byte-identical packet. */
  predicate GotFromPeer(g: Got, peer: seq<Sent>) {
    && 0 <= g.sequence < |peer|
    && g.plaintext == peer[g.sequence].input.plaintext
    && g.blob == peer[g.sequence].packet
  }

  function GotSequences(got: seq<Got>): (r: seq<int>)
    ensures |r| == |got|
    ensures forall i | 0 <= i < |r| :: r[i] == got[i].sequence
  {
    if got == [] then [] else GotSequences(got[..|got| - 1]) + [got[|got| - 1].sequence]
  }

  ghost predicate GetsOk(e: Endpoint, peer: Endpoint) {
    && Refines(e.session.window, GotSequences(e.got))
    && forall k | 0 <= k < |e.got| :: GotFromPeer(e.got[k], peer.sent)
  }

  ghost predicate Invariant(lib: Calls, c: State)
    requires LawfulHashes(lib)
  {
    && Mirrored(c.alice.session, c.bob.session)
    && KeyedState(c) && Named(lib, c.alice.session)
    && SendsOk(lib, c.alice) && SendsOk(lib, c.bob)
    && GetsOk(c.alice, c.bob) && GetsOk(c.bob, c.alice)
  }

  lemma SendKeepsSends(lib: Calls, e: Endpoint, plaintext: Bytes)
    requires Lawful(lib) && Keyed(e.session) && SendsOk(lib, e)
    ensures var f := Sends(lib, e, plaintext);
            && Keyed(f.session) && SendsOk(lib, f)
            && f.session == e.session.(sendSequence := f.session.sendSequence)
            && f.got == e.got && e.sent <= f.sent
  {
    var f := Sends(lib, e, plaintext);
    EncryptSucceedsExactly(lib, e.session, plaintext);
    if Encrypted(lib, e.session, plaintext).Ok? {
      var n := |e.sent|;
      var x := PrepareSeal(lib, e.session, plaintext).value;
      var envelope := NextEnvelope(e.session);
      assert ValidMetadata(lib, envelope);
      AssociatedDataInjective(lib, envelope.(ciphertext := Seal(lib, x)), envelope);
      assert AssociatedData(lib, envelope.(ciphertext := Seal(lib, x))) == AssociatedData(lib, envelope);
      assert SentOk(lib, f.session, n, f.sent[n]);
      forall k | 0 <= k < |f.sent|
        ensures SentOk(lib, f.session, k, f.sent[k])
      {
        if k < n {
          assert SentOk(lib, e.session, k, e.sent[k]);
        }
      }
    }
  }

  /** Associated data names the sender and the sequence, so it points to one packet of the peer. */
  lemma AssociatedPointsToPeer(lib: Calls, c: State, p: Party, e: Envelope, q: Party, i: nat)
    requires Lawful(lib) && Invariant(lib, c) && ValidEnvelope(lib, e) && e.sender == c.End(p).session.remoteName
    requires i < |c.End(q).sent| && AssociatedData(lib, e) == Ok(c.End(q).sent[i].input.associated)
    ensures q == p.Peer() && e.sequence == i
    ensures c.End(q).sent[i].envelope.(ciphertext := e.ciphertext) == e
  {
    var x := c.End(q).sent[i];
    assert SentOk(lib, c.End(q).session, i, x);
    AssociatedDataInjective(lib, e, x.envelope);
  }

  /** The packet whose seal the AEAD opened. */
  lemma OpenedSeal(lib: Calls, c: State, p: Party, blob: Bytes, e: Envelope) returns (q: Party, i: nat)
    requires Lawful(lib) && KeyedState(c) && IdealStep(lib, c, Receive(p, blob))
    requires ReadEnvelope(lib, c.End(p).session, blob) == Ok(e)
    requires ValidEnvelope(lib, e) && Authenticate(lib, c.End(p).session, e).Ok?
    ensures i < |c.End(q).sent|
    ensures var x, s := c.End(q).sent[i].input, c.End(p).session;
            && AssociatedData(lib, e) == Ok(x.associated) && Seal(lib, x) == e.ciphertext
            && MessageKey(x.key, x.nonce) == DeriveMessageKey(lib, s.rootKey, e.sequence, s.suite, Receiving(s))
  {
    var s := c.End(p).session;
    var mk := DeriveMessageKey(lib, s.rootKey, e.sequence, s.suite, Receiving(s));
    var associated := AssociatedData(lib, e).value;
    assert WasSealed(lib, c, mk.key, mk.nonce, e.ciphertext, associated);
    q, i :| 0 <= i < |c.End(q).sent|
      && var x := c.End(q).sent[i].input;
         x.key == mk.key && x.nonce == mk.nonce && x.associated == associated && Seal(lib, x) == e.ciphertext;
  }

  /** An accepted blob is byte for byte the packet that the peer made for its sequence. */
  lemma AcceptedBlobIsPeerPacket(lib: Calls, c: State, p: Party, blob: Bytes)
    requires Lawful(lib) && Invariant(lib, c) && IdealStep(lib, c, Receive(p, blob))
    requires ReadEnvelope(lib, c.End(p).session, blob).Ok?
    requires var e := ReadEnvelope(lib, c.End(p).session, blob).value;
             ValidEnvelope(lib, e) && Authenticate(lib, c.End(p).session, e).Ok?
    ensures var e := ReadEnvelope(lib, c.End(p).session, blob).value;
            GotFromPeer(Got(e.sequence, Authenticate(lib, c.End(p).session, e).value, blob), c.End(p.Peer()).sent)
  {
    hide FromBytes, ToBytes, AssociatedData, DeriveMessageKey, Encrypted;
    var s := c.End(p).session;
    var e := ReadEnvelope(lib, s, blob).value;
    ReadEnvelopeIsValid(lib, s, blob);
    var q, i := OpenedSeal(lib, c, p, blob, e);
    AssociatedPointsToPeer(lib, c, p, e, q, i);
    assert SentOk(lib, c.End(q).session, i, c.End(q).sent[i]);
  }

  /** Recording one more sequence that the peer sent. */
  lemma OneMoreGot(e: Endpoint, f: Endpoint, peer: Endpoint, g: Got)
    requires GetsOk(e, peer) && GotFromPeer(g, peer.sent) && Check(e.session.window, g.sequence).Pass?
    requires f.session.window == Record(e.session.window, g.sequence) && f.got == e.got + [g]
    ensures GetsOk(f, peer)
  {
    var history := GotSequences(e.got);
    CheckAgreesWithHistory(e.session.window, history, g.sequence);
    RecordRefines(e.session.window, history, g.sequence);
    assert f.got[..|e.got|] == e.got;
  }

  /** What a received blob does to an endpoint: nothing, or one more accepted sequence. */
  lemma ReceivedBlob(lib: Calls, e: Endpoint, blob: Bytes)
    requires Lawful(lib) && Keyed(e.session)
    ensures var f := Receives(lib, e, blob);
            && f.session == e.session.(window := f.session.window) && f.sent == e.sent
            && (f == e || var r := ReadEnvelope(lib, e.session, blob);
                          && r.Ok? && ValidEnvelope(lib, r.value)
                          && Authenticate(lib, e.session, r.value).Ok?
                          && Check(e.session.window, r.value.sequence).Pass?
                          && f.session.window == Record(e.session.window, r.value.sequence)
                          && f.got == e.got + [Got(r.value.sequence, Authenticate(lib, e.session, r.value).value, blob)])
  {
    ReadEnvelopeIsValid(lib, e.session, blob);
  }

  lemma ReceiveKeepsGets(lib: Calls, c: State, p: Party, blob: Bytes)
    requires Lawful(lib) && Invariant(lib, c) && IdealStep(lib, c, Receive(p, blob))
    ensures GetsOk(Receives(lib, c.End(p), blob), c.End(p.Peer()))
  {
    hide FromBytes, ToBytes, Encrypted, AssociatedData, SentOk;
    ReceivedBlob(lib, c.End(p), blob);
    var f := Receives(lib, c.End(p), blob);
    if f != c.End(p) {
      AcceptedBlobIsPeerPacket(lib, c, p, blob);
      OneMoreGot(c.End(p), f, c.End(p.Peer()), f.got[|c.End(p).got|]);
    }
  }

  /** Replacing one endpoint by a compatible one. */
  lemma EndReplaced(lib: Calls, c: State, p: Party, f: Endpoint)
    requires LawfulHashes(lib) && Invariant(lib, c) && Keyed(f.session)
    requires f.session == c.End(p).session.(sendSequence := f.session.sendSequence, window := f.session.window)
    requires SendsOk(lib, f) && GetsOk(f, c.End(p.Peer())) && GetsOk(c.End(p.Peer()), f)
    ensures Invariant(lib, c.With(p, f))
  {
  }

  lemma StepKeepsInvariant(lib: Calls, c: State, e: Event)
    requires Lawful(lib) && Invariant(lib, c) && IdealStep(lib, c, e)
    ensures Invariant(lib, Apply(lib, c, e))
  {
    var end, peer := c.End(e.party), c.End(e.party.Peer());
    match e
    case Send(p, plaintext) =>
      var f := Sends(lib, end, plaintext);
      SendKeepsSends(lib, end, plaintext);
      SendKeepsGets(end, f, peer);
      EndReplaced(lib, c, p, f);
    case Receive(p, blob) =>
      var f := Receives(lib, end, blob);
      ReceivedBlob(lib, end, blob);
      ReceiveKeepsGets(lib, c, p, blob);
      SameKeysKeepSends(lib, end, f);
      EndReplaced(lib, c, p, f);
  }

  lemma SendKeepsGets(e: Endpoint, f: Endpoint, peer: Endpoint)
    requires GetsOk(e, peer) && GetsOk(peer, e)
    requires f.session.window == e.session.window && f.got == e.got && e.sent <= f.sent
    ensures GetsOk(f, peer) && GetsOk(peer, f)
  {
  }

  lemma SameKeysKeepSends(lib: Calls, e: Endpoint, f: Endpoint)
    requires LawfulHashes(lib) && Keyed(e.session) && SendsOk(lib, e)
    requires f.session == e.session.(window := f.session.window) && f.sent == e.sent
    ensures SendsOk(lib, f)
  {
    forall n | 0 <= n < |f.sent|
      ensures SentOk(lib, f.session, n, f.sent[n])
    {
      assert SentOk(lib, e.session, n, e.sent[n]);
    }
  }

  lemma {:induction false} RunKeepsInvariant(lib: Calls, c: State, events: seq<Event>)
    requires Lawful(lib) && Initial(lib, c) && IdealRun(lib, c, events)
    ensures Invariant(lib, Run(lib, c, events))
  {
    if events != [] {
      RunKeepsInvariant(lib, c, events[..|events| - 1]);
      StepKeepsInvariant(lib, Run(lib, c, events[..|events| - 1]), events[|events| - 1]);
    }
  }

  // ---------- what a run delivers ----------

  /**
   End-to-end safety. After any run, whatever the network did, everything a session returned was encrypted by
   its peer under the same sequence with the same content, and no two returns come from one encryption.
   */
  lemma EndToEndSafety(lib: Calls, c: State, events: seq<Event>, p: Party)
    requires Lawful(lib) && Initial(lib, c) && IdealRun(lib, c, events)
    ensures var d := Run(lib, c, events);
            && (forall k | 0 <= k < |d.End(p).got| :: GotFromPeer(d.End(p).got[k], d.End(p.Peer()).sent))
            && (forall k, l | 0 <= k < l < |d.End(p).got| :: d.End(p).got[k].sequence != d.End(p).got[l].sequence)
  {
    RunKeepsInvariant(lib, c, events);
    var d := Run(lib, c, events);
    assert GetsOk(d.End(p), d.End(p.Peer()));
  }

  /** The HKDF calls behind every packet of a run. */
  ghost function SealQueries(lib: Calls, c: State): set<HkdfQuery>
    requires KeyedState(c)
  {
    (set n | 0 <= n < |c.alice.sent|, q <- MessageQueries(lib, c.alice.session.rootKey, n, c.alice.session.suite, Sending(c.alice.session)) :: q)
    + (set n | 0 <= n < |c.bob.sent|, q <- MessageQueries(lib, c.bob.session.rootKey, n, c.bob.session.suite, Sending(c.bob.session)) :: q)
  }

  /**
   No key and nonce is used twice in a run, within a direction or across the two, unless HKDF collides on
   the calls of that run.
   */
  lemma NeverRekeys(lib: Calls, c: State, events: seq<Event>, p: Party, i: nat, q: Party, j: nat)
    requires Lawful(lib) && Initial(lib, c) && IdealRun(lib, c, events)
    requires NoHkdfCollision(lib, SealQueries(lib, Run(lib, c, events)))
    requires i < |Run(lib, c, events).End(p).sent| && j < |Run(lib, c, events).End(q).sent|
    requires p != q || i != j
    ensures var d := Run(lib, c, events);
            var x, y := d.End(p).sent[i].input, d.End(q).sent[j].input;
            x.key != y.key || x.nonce != y.nonce
  {
    RunKeepsInvariant(lib, c, events);
    var d := Run(lib, c, events);
    var s, t := d.End(p).session, d.End(q).session;
    assert SentOk(lib, s, i, d.End(p).sent[i]) && SentOk(lib, t, j, d.End(q).sent[j]);
    var x, y := d.End(p).sent[i].input, d.End(q).sent[j].input;
    if x.key == y.key && x.nonce == y.nonce {
      var queries := SealQueries(lib, d);
      QueriesCounted(lib, d, p, i);
      QueriesCounted(lib, d, q, j);
      MessageKeysAreSeparated(lib, queries, s.rootKey, i, s.suite, Sending(s), t.rootKey, j, t.suite, Sending(t));
    }
  }

  lemma QueriesCounted(lib: Calls, c: State, p: Party, n: nat)
    requires KeyedState(c) && n < |c.End(p).sent|
    ensures var s := c.End(p).session;
            MessageQueries(lib, s.rootKey, n, s.suite, Sending(s)) <= SealQueries(lib, c)
  {
  }
}
