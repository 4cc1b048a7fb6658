/**
 Concurrent senders in a channel. The packets that any interleaving of threads spends are the packets that the
 channel's sequential `encrypt` calls would send, so what holds for the channel holds for them.
 */
module ConcurrentSenders {
  import opened Basics
  import opened Library
  import opened Replay
  import opened SendLock
  import opened Session
  import opened Wire
  import Channel

  /** The plaintexts that the party's `Send` events carry, in order. */
  function SentPlaintexts(events: seq<Channel.Event>, p: Channel.Party): seq<Bytes> {
    if events == [] then []
    else
      var front, last := events[..|events| - 1], events[|events| - 1];
      SentPlaintexts(front, p) + if last.Send? && last.party == p then [last.plaintext] else []
  }

  function Plaintexts(packets: seq<Emission>): (r: seq<Bytes>)
    ensures |r| == |packets| && forall i | 0 <= i < |r| :: r[i] == packets[i].plaintext
  {
    seq(|packets|, i requires 0 <= i < |packets| => packets[i].plaintext)
  }

  /** The window plays no part in encryption. */
  lemma EncryptIgnoresWindow(lib: Calls, s: SessionValue, w: Window, plaintext: Bytes)
    requires Lawful(lib) && Keyed(s)
    ensures PrepareSeal(lib, s.(window := w), plaintext) == PrepareSeal(lib, s, plaintext)
    ensures Encrypted(lib, s.(window := w), plaintext) == Encrypted(lib, s, plaintext)
  {
    hide ToBytes, AssociatedData;
    assert NextEnvelope(s.(window := w)) == NextEnvelope(s);
  }

  /** The endpoint has sent the first packets of the list, and its other fields but the window are as at the start. */
  ghost predicate HasSent(e: Channel.Endpoint, start: SessionValue, packets: seq<Emission>) {
    && |e.sent| <= |packets|
    && e.session == start.(sendSequence := |e.sent|, window := e.session.window)
    && forall n | 0 <= n < |e.sent| ::
         e.sent[n].packet == packets[n].packet && e.sent[n].input.plaintext == packets[n].plaintext
  }

  ghost predicate AllEmitted(lib: Calls, start: SessionValue, packets: seq<Emission>)
    requires Lawful(lib) && Keyed(start)
  {
    forall n | 0 <= n < |packets| :: EmittedAs(lib, start, n, packets[n])
  }

  lemma SendStep(lib: Calls, e: Channel.Endpoint, start: SessionValue, packets: seq<Emission>)
    requires Lawful(lib) && Keyed(start) && AllEmitted(lib, start, packets) && HasSent(e, start, packets)
    requires |e.sent| < |packets|
    ensures var f := Channel.Sends(lib, e, packets[|e.sent|].plaintext);
            HasSent(f, start, packets) && |f.sent| == |e.sent| + 1
  {
    hide ToBytes, AssociatedData;
    var n := |e.sent|;
    assert EmittedAs(lib, start, n, packets[n]);
    EncryptIgnoresWindow(lib, WithSequence(start, n), e.session.window, packets[n].plaintext);
    assert WithSequence(start, n).(window := e.session.window) == e.session;
  }

  lemma ReceiveStep(lib: Calls, e: Channel.Endpoint, start: SessionValue, packets: seq<Emission>, blob: Bytes)
    requires Lawful(lib) && Keyed(e.session) && HasSent(e, start, packets)
    ensures var f := Channel.Receives(lib, e, blob); HasSent(f, start, packets) && f.sent == e.sent
  {
    hide Decrypted, ReadEnvelope;
  }

  lemma {:induction false} SentFollows(lib: Calls, c: Channel.State, events: seq<Channel.Event>, p: Channel.Party,
                                       packets: seq<Emission>)
    requires Lawful(lib) && Channel.Initial(lib, c) && AllEmitted(lib, c.End(p).session, packets)
    requires SentPlaintexts(events, p) <= Plaintexts(packets)
    ensures var e := Channel.Run(lib, c, events).End(p);
            HasSent(e, c.End(p).session, packets) && |e.sent| == |SentPlaintexts(events, p)|
  {
    hide Channel.Sends, Channel.Receives, AllEmitted;
    if events != [] {
      var front, last := events[..|events| - 1], events[|events| - 1];
      var sent := SentPlaintexts(front, p);
      assert SentPlaintexts(events, p)[..|sent|] == sent;
      SentFollows(lib, c, front, p, packets);
      var d := Channel.Run(lib, c, front);
      if last.party == p {
        match last
        case Send(_, plaintext) =>
          assert SentPlaintexts(events, p)[|sent|] == plaintext == Plaintexts(packets)[|sent|];
          SendStep(lib, d.End(p), c.End(p).session, packets);
        case Receive(_, blob) =>
          ReceiveStep(lib, d.End(p), c.End(p).session, packets, blob);
      }
    }
  }

  /** The threads and the channel start from one session, and the channel's `Send` events carry what the threads spent. */
  ghost predicate Corresponds(lib: Calls, c: Channel.State, events: seq<Channel.Event>, p: Channel.Party, steps: seq<Step>)
    requires Lawful(lib)
  {
    && Channel.Initial(lib, c)
    && SentPlaintexts(events, p) == Plaintexts(Run(lib, Start(c.End(p).session), steps).spent)
  }

  /**
   What any interleaving of sending threads spends, with failures anywhere, is the channel's log of sent packets,
   whatever is received in between.
   */
  lemma SpentIsSent(lib: Calls, c: Channel.State, events: seq<Channel.Event>, p: Channel.Party, steps: seq<Step>)
    requires Lawful(lib) && Corresponds(lib, c, events, p, steps)
    ensures var e, x := Channel.Run(lib, c, events).End(p), Run(lib, Start(c.End(p).session), steps);
            && |e.sent| == |x.spent| && e.session.sendSequence == x.session.sendSequence
            && forall n | 0 <= n < |e.sent| ::
                 e.sent[n].packet == x.spent[n].packet && e.sent[n].input.plaintext == x.spent[n].plaintext
  {
    hide EmittedAs;
    var start := c.End(p).session;
    var x := Run(lib, Start(start), steps);
    SpentSequencesAreContiguous(lib, start, steps);
    forall n | 0 <= n < |x.spent|
      ensures EmittedAs(lib, start, n, x.spent[n])
    {
      assert EmittedAs(lib, start, start.sendSequence + n, x.spent[n]);
    }
    SentFollows(lib, c, events, p, x.spent);
  }

  /** So what the peer returns was encrypted by one of the threads, under its own sequence, and only once. */
  lemma ThreadsAreSafeEndToEnd(lib: Calls, c: Channel.State, events: seq<Channel.Event>, p: Channel.Party, steps: seq<Step>)
    requires Lawful(lib) && Corresponds(lib, c, events, p, steps) && Channel.IdealRun(lib, c, events)
    ensures var got, spent := Channel.Run(lib, c, events).End(p.Peer()).got, Run(lib, Start(c.End(p).session), steps).spent;
            && (forall k | 0 <= k < |got| ::
                  && 0 <= got[k].sequence < |spent|
                  && got[k].plaintext == spent[got[k].sequence].plaintext && got[k].blob == spent[got[k].sequence].packet)
            && (forall k, l | 0 <= k < l < |got| :: got[k].sequence != got[l].sequence)
  {
    hide Channel.IdealRun, Channel.Run, Run;
    SpentIsSent(lib, c, events, p, steps);
    Channel.EndToEndSafety(lib, c, events, p.Peer());
    var got := Channel.Run(lib, c, events).End(p.Peer()).got;
    forall k | 0 <= k < |got|
      ensures Channel.GotFromPeer(got[k], Channel.Run(lib, c, events).End(p).sent)
    {
      assert p.Peer().Peer() == p;
    }
  }
}
