/**
 Delivery over whole runs of the channel: whatever else the network delivers, each packet is returned exactly
 once if it first arrives in time, and never otherwise.
 */
module Delivery {
  import opened Basics
  import opened Channel
  import opened Library
  import opened Protocol
  import opened Replay
  import opened Session
  import opened Wire

  /** A packet gets past every check of the receiver, under its own sequence, and opens to its plaintext. */
  lemma PacketIsAuthentic(lib: Calls, c: State, p: Party, i: nat)
    requires Lawful(lib) && Invariant(lib, c) && i < |c.End(p.Peer()).sent|
    ensures var s, x := c.End(p).session, c.End(p.Peer()).sent[i];
            && ReadEnvelope(lib, s, x.packet) == Ok(x.envelope)
            && x.envelope.sequence == i && ValidEnvelope(lib, x.envelope)
            && Authenticate(lib, s, x.envelope) == Ok(x.input.plaintext)
  {
    hide FromBytes;
    var s, t := c.End(p).session, c.End(p.Peer()).session;
    var x := c.End(p.Peer()).sent[i];
    assert SentOk(lib, t, i, x);
    FromBytesInvertsToBytes(lib, x.envelope);
    assert Receiving(s) == Sending(t) && s.suite == t.suite;
  }

  lemma PacketsDiffer(lib: Calls, c: State, p: Party, i: nat, j: nat)
    requires Lawful(lib) && Invariant(lib, c) && i < |c.End(p.Peer()).sent| && j < |c.End(p.Peer()).sent|
    requires c.End(p.Peer()).sent[i].packet == c.End(p.Peer()).sent[j].packet
    ensures i == j
  {
    hide ReadEnvelope, Authenticate, SentOk;
    PacketIsAuthentic(lib, c, p, i);
    PacketIsAuthentic(lib, c, p, j);
  }

  // ---------- which packets arrive ----------

  predicate IsPacket(sent: seq<Sent>, blob: Bytes, i: int) {
    0 <= i < |sent| && sent[i].packet == blob
  }

  /** The packet of the peer that this event delivers to the party, if it delivers one. */
  ghost function Arrival(c: State, e: Event, p: Party): (r: seq<int>)
    ensures r == [] || (|r| == 1 && e.Receive? && e.party == p && IsPacket(c.End(p.Peer()).sent, e.blob, r[0]))
    ensures r == [] && e.Receive? && e.party == p ==> forall i :: !IsPacket(c.End(p.Peer()).sent, e.blob, i)
  {
    if e.Receive? && e.party == p && exists i :: IsPacket(c.End(p.Peer()).sent, e.blob, i) then
      var i :| IsPacket(c.End(p.Peer()).sent, e.blob, i);
      [i]
    else []
  }

  /** The sequences of all packets of the peer delivered to the party, repetitions included, in order. */
  ghost function Arrivals(lib: Calls, c: State, events: seq<Event>, p: Party): seq<int>
    requires Lawful(lib) && KeyedState(c)
  {
    if events == [] then []
    else
      var front := events[..|events| - 1];
      Arrivals(lib, c, front, p) + Arrival(Run(lib, c, front), events[|events| - 1], p)
  }

  lemma AcceptedOfAppend(size: nat, positions: seq<int>, i: int)
    ensures var w := After(Fresh(size), Deliveries(positions));
            && After(Fresh(size), Deliveries(positions + [i])) == Step(w, Attempt(i, true))
            && AcceptedOf(size, positions + [i])
               == AcceptedOf(size, positions) + if Check(w, i).Pass? then [i] else []
  {
    assert (positions + [i])[..|positions|] == positions;
    var d := Deliveries(positions + [i]);
    assert d == Deliveries(positions) + [Attempt(i, true)];
    assert d[..|d| - 1] == Deliveries(positions);
    var kept := Kept(Fresh(size), Deliveries(positions));
    assert (kept + [Attempt(i, true)])[..|kept|] == kept;
    assert kept + [] == kept;
    assert Sequences(kept) + [] == Sequences(kept);
  }

  // ---------- one step ----------

  /** A packet is returned exactly when the window accepts its sequence. */
  lemma PacketStep(lib: Calls, c: State, p: Party, i: nat)
    requires Lawful(lib) && Invariant(lib, c) && i < |c.End(p.Peer()).sent|
    ensures var e, x := c.End(p), c.End(p.Peer()).sent[i];
            var f := Receives(lib, e, x.packet);
            && f.session.window == Replay.Step(e.session.window, Attempt(i, true))
            && f.got == e.got + if Check(e.session.window, i).Pass? then [Got(i, x.input.plaintext, x.packet)] else []
  {
    hide ReadEnvelope, Authenticate, SentOk;
    PacketIsAuthentic(lib, c, p, i);
    assert c.End(p).got + [] == c.End(p).got;
  }

  /** Any other blob leaves no trace, because only packets of the peer are accepted. */
  lemma OtherBlobStep(lib: Calls, c: State, p: Party, blob: Bytes)
    requires Lawful(lib) && Invariant(lib, c) && IdealStep(lib, c, Receive(p, blob))
    requires forall i :: !IsPacket(c.End(p.Peer()).sent, blob, i)
    ensures Receives(lib, c.End(p), blob) == c.End(p)
  {
    var e := c.End(p);
    var f := Receives(lib, e, blob);
    ReceivedBlob(lib, e, blob);
    if f != e {
      AcceptedBlobIsPeerPacket(lib, c, p, blob);
      var g := f.got[|e.got|];
      assert IsPacket(c.End(p.Peer()).sent, blob, g.sequence);
    }
  }

  /** What one event does to a party: nothing, unless a packet of its peer arrives. */
  lemma ArrivalStep(lib: Calls, c: State, e: Event, p: Party)
    requires Lawful(lib) && Invariant(lib, c) && IdealStep(lib, c, e)
    ensures var a, d, x := Arrival(c, e, p), Apply(lib, c, e).End(p), c.End(p);
            if a == [] then d.session.window == x.session.window && d.got == x.got
            else
              && 0 <= a[0] < |c.End(p.Peer()).sent|
              && d.session.window == Replay.Step(x.session.window, Attempt(a[0], true))
              && d.got == x.got + if Check(x.session.window, a[0]).Pass?
                                  then [Got(a[0], c.End(p.Peer()).sent[a[0]].input.plaintext, c.End(p.Peer()).sent[a[0]].packet)]
                                  else []
  {
    hide Receives, Encrypted;
    match e
    case Send(_, _) =>
    case Receive(q, blob) =>
      if q == p {
        if Arrival(c, e, p) == [] {
          OtherBlobStep(lib, c, p, blob);
        } else {
          PacketStep(lib, c, p, Arrival(c, e, p)[0]);
        }
      }
  }

  // ---------- runs ----------

  /** The endpoint is where the bare window would be after these arrivals. */
  ghost predicate Follows(size: nat, arrivals: seq<int>, e: Endpoint) {
    && e.session.window == After(Fresh(size), Deliveries(arrivals))
    && GotSequences(e.got) == AcceptedOf(size, arrivals)
    && AllValid(arrivals)
  }

  lemma FollowsAfterArrival(size: nat, arrivals: seq<int>, e: Endpoint, f: Endpoint, i: int, g: Got)
    requires Follows(size, arrivals, e) && ValidSequence(i) && g.sequence == i
    requires f.session.window == Replay.Step(e.session.window, Attempt(i, true))
    requires f.got == e.got + if Check(e.session.window, i).Pass? then [g] else []
    ensures Follows(size, arrivals + [i], f)
  {
    hide AcceptedOf, Deliveries, After, Highest;
    AcceptedOfAppend(size, arrivals, i);
    assert (e.got + [g])[..|e.got|] == e.got;
    assert e.got + [] == e.got;
    assert AcceptedOf(size, arrivals) + [] == AcceptedOf(size, arrivals);
  }

  lemma {:induction false} ReceiverFollowsWindow(lib: Calls, c: State, events: seq<Event>, p: Party)
    requires Lawful(lib) && Initial(lib, c) && IdealRun(lib, c, events)
    ensures Follows(c.End(p).session.window.size, Arrivals(lib, c, events, p), Run(lib, c, events).End(p))
  {
    var size := c.End(p).session.window.size;
    if events == [] {
      assert Deliveries([]) == [];
      assert AcceptedOf(size, []) == [];
    } else {
      var front, e := events[..|events| - 1], events[|events| - 1];
      ReceiverFollowsWindow(lib, c, front, p);
      RunKeepsInvariant(lib, c, front);
      FollowsStep(lib, size, Arrivals(lib, c, front, p), Run(lib, c, front), e, p);
    }
  }

  lemma FollowsStep(lib: Calls, size: nat, arrivals: seq<int>, c: State, e: Event, p: Party)
    requires Lawful(lib) && Invariant(lib, c) && IdealStep(lib, c, e) && Follows(size, arrivals, c.End(p))
    ensures Follows(size, arrivals + Arrival(c, e, p), Apply(lib, c, e).End(p))
  {
    hide SentOk, Apply;
    ArrivalStep(lib, c, e, p);
    var a := Arrival(c, e, p);
    if a == [] {
      assert arrivals + a == arrivals;
    } else {
      var x := c.End(p.Peer()).sent[a[0]];
      FollowsAfterArrival(size, arrivals, c.End(p), Apply(lib, c, e).End(p), a[0], Got(a[0], x.input.plaintext, x.packet));
      assert a == [a[0]];
    }
  }

  lemma CountLast<T>(s: seq<T>, last: T, x: T)
    ensures multiset(s + [last])[x] == multiset(s)[x] + if last == x then 1 else 0
  {
    assert multiset(s + [last]) == multiset(s) + multiset{last};
  }

  lemma {:induction false} CountGots(got: seq<Got>, g: Got)
    requires forall k | 0 <= k < |got| :: got[k].sequence == g.sequence ==> got[k] == g
    ensures multiset(got)[g] == multiset(GotSequences(got))[g.sequence]
  {
    hide GotSequences;
    if got == [] {
      NoGots(got);
    } else {
      var front, last := got[..|got| - 1], got[|got| - 1];
      CountGots(front, g);
      CountLast(front, last, g);
      CountLast(GotSequences(front), last.sequence, g.sequence);
      assert got == front + [last];
      LastGot(got);
    }
  }

  lemma NoGots(got: seq<Got>)
    requires got == []
    ensures GotSequences(got) == []
  {
  }

  lemma LastGot(got: seq<Got>)
    requires got != []
    ensures GotSequences(got) == GotSequences(got[..|got| - 1]) + [got[|got| - 1].sequence]
  {
  }

  /**
   Exactly once, over every run: what a party encrypted as its i-th message is returned once by its peer if its
   packet first arrives there before a packet `window_size` or more positions ahead of it, and otherwise never.
   Whatever else arrives, in between or instead, changes nothing.
   */
  lemma ReturnedExactlyOnceWhenTimely(lib: Calls, c: State, events: seq<Event>, p: Party, i: nat)
    requires Lawful(lib) && Initial(lib, c) && IdealRun(lib, c, events)
    requires i < |Run(lib, c, events).End(p.Peer()).sent|
    ensures var d := Run(lib, c, events);
            var x := d.End(p.Peer()).sent[i];
            multiset(d.End(p).got)[Got(i, x.input.plaintext, x.packet)]
            == if Timely(c.End(p).session.window.size, Arrivals(lib, c, events, p), i) then 1 else 0
  {
    var size := c.End(p).session.window.size;
    var arrivals := Arrivals(lib, c, events, p);
    var d := Run(lib, c, events);
    var x := d.End(p.Peer()).sent[i];
    var got := d.End(p).got;
    ReceiverFollowsWindow(lib, c, events, p);
    EndToEndSafety(lib, c, events, p);
    CountGots(got, Got(i, x.input.plaintext, x.packet));
    AcceptedExactlyWhenTimely(size, arrivals, i);
    if i in AcceptedOf(size, arrivals) {
      DistinctOccursOnce(AcceptedOf(size, arrivals), i);
    }
  }
}
