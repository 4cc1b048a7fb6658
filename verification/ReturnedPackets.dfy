/**
 What concurrent senders get back. Every sequence below the next one is returned once or lost, and it is lost
 exactly by a failure between the increment and the end of `encrypt`.
 */
module ReturnedPackets {
  import opened Basics
  import opened Library
  import opened Protocol
  import opened SendLock
  import opened Session

  /** This step is a failure after the increment: the sequence is spent and the packet is lost. */
  predicate FailsAtReturn(x: System, s: Step) {
    s.Raise? && x.At(s.thread).Stored?
  }

  function LostBy(x: System, s: Step): set<int> {
    if FailsAtReturn(x, s) then {x.At(s.thread).emission.sequence} else {}
  }

  /** The sequences whose packets a run has lost. */
  function Lost(lib: Calls, x: System, steps: seq<Step>): set<int>
    requires Lawful(lib) && Keyed(x.session)
  {
    if steps == [] then {}
    else
      var front := steps[..|steps| - 1];
      Lost(lib, x, front) + LostBy(Run(lib, x, front), steps[|steps| - 1])
  }

  predicate NeverFailsAtReturn(lib: Calls, x: System, steps: seq<Step>)
    requires Lawful(lib) && Keyed(x.session)
  {
    steps == []
    || (NeverFailsAtReturn(lib, x, steps[..|steps| - 1])
        && !FailsAtReturn(Run(lib, x, steps[..|steps| - 1]), steps[|steps| - 1]))
  }

  lemma {:induction false} NothingLostWithoutFailure(lib: Calls, x: System, steps: seq<Step>)
    requires Lawful(lib) && Keyed(x.session)
    ensures Lost(lib, x, steps) == {} <==> NeverFailsAtReturn(lib, x, steps)
  {
    hide Run;
    if steps != [] {
      NothingLostWithoutFailure(lib, x, steps[..|steps| - 1]);
    }
  }

  /** The sequence that is spent while its packet is still on the way out. */
  function Leaving(x: System): set<int> {
    if x.holder.Some? && x.At(x.holder.value).Stored? then {x.At(x.holder.value).emission.sequence} else {}
  }

  function Sequences(packets: seq<Emission>): set<int> {
    set e | e in packets :: e.sequence
  }

  /** The sequences from the first to the one before the next. */
  function Spent(x: System, start: SessionValue): set<int> {
    set s | start.sendSequence <= s < x.session.sendSequence && IsSpent(x, start, s)
  }

  predicate IsSpent(x: System, start: SessionValue, sequence: int) {
    start.sendSequence <= sequence < x.session.sendSequence
  }

  predicate Ascending(packets: seq<Emission>) {
    forall i, j | 0 <= i < j < |packets| :: packets[i].sequence < packets[j].sequence
  }

  ghost predicate AllGenuine(lib: Calls, start: SessionValue, packets: seq<Emission>)
    requires Lawful(lib) && Keyed(start)
  {
    forall i | 0 <= i < |packets| :: EmittedAs(lib, start, packets[i].sequence, packets[i])
  }

  /** Every spent sequence is returned, lost or leaving, and only one of these. */
  ghost predicate Accounted(x: System, start: SessionValue, lost: set<int>) {
    && Spent(x, start) == Sequences(x.returned) + lost + Leaving(x)
    && Sequences(x.returned) !! lost && Sequences(x.returned) !! Leaving(x) && lost !! Leaving(x)
  }

  ghost predicate ReturnsOk(lib: Calls, x: System, start: SessionValue, lost: set<int>)
    requires Lawful(lib) && Keyed(start)
  {
    Ascending(x.returned) && AllGenuine(lib, start, x.returned) && Accounted(x, start, lost)
  }

  lemma SequencesAppend(packets: seq<Emission>, e: Emission)
    ensures Sequences(packets + [e]) == Sequences(packets) + {e.sequence}
  {
    assert forall f :: f in packets + [e] <==> f in packets || f == e;
  }

  /** The packet on its way out is the last one whose sequence was spent. */
  lemma LeavingIsLast(lib: Calls, x: System, t: nat, start: SessionValue)
    requires Lawful(lib) && Invariant(lib, x, start) && x.At(t).Stored?
    ensures x.holder == Some(t) && x.At(t).emission.sequence == x.session.sendSequence - 1
    ensures EmittedAs(lib, start, x.At(t).emission.sequence, x.At(t).emission)
    ensures Leaving(x) == {x.At(t).emission.sequence}
  {
    hide Encrypted;
    assert InsideLock(x.At(t)) <==> x.holder == Some(t);
    assert Current(lib, x, x.At(t), start);
  }

  lemma ReturnStep(lib: Calls, x: System, t: nat, start: SessionValue, lost: set<int>)
    requires Lawful(lib) && Invariant(lib, x, start) && ReturnsOk(lib, x, start, lost) && x.At(t).Stored?
    ensures ReturnsOk(lib, Next(lib, x, Advance(t)), start, lost)
  {
    hide Encrypted, EmittedAs;
    LeavingIsLast(lib, x, t, start);
    var e := x.At(t).emission;
    SequencesAppend(x.returned, e);
    forall i | 0 <= i < |x.returned|
      ensures x.returned[i].sequence < e.sequence
    {
      assert x.returned[i].sequence in Sequences(x.returned);
      assert x.returned[i].sequence in Spent(x, start);
    }
  }

  lemma LossStep(lib: Calls, x: System, t: nat, start: SessionValue, lost: set<int>)
    requires Lawful(lib) && Invariant(lib, x, start) && ReturnsOk(lib, x, start, lost) && x.At(t).Stored?
    ensures ReturnsOk(lib, Next(lib, x, Raise(t)), start, lost + LostBy(x, Raise(t)))
  {
    hide Encrypted, EmittedAs;
    LeavingIsLast(lib, x, t, start);
  }

  lemma StoreStep(lib: Calls, x: System, t: nat, start: SessionValue, lost: set<int>)
    requires Lawful(lib) && Invariant(lib, x, start) && ReturnsOk(lib, x, start, lost) && x.At(t).Loaded?
    ensures ReturnsOk(lib, Next(lib, x, Advance(t)), start, lost)
  {
    hide Encrypted, EmittedAs;
    assert InsideLock(x.At(t)) <==> x.holder == Some(t);
    assert Current(lib, x, x.At(t), start);
    var y := Next(lib, x, Advance(t));
    assert Leaving(x) == {} && Leaving(y) == {x.session.sendSequence};
    assert Spent(y, start) == Spent(x, start) + {x.session.sendSequence};
  }

  lemma OtherStep(lib: Calls, x: System, s: Step, start: SessionValue, lost: set<int>)
    requires Lawful(lib) && Invariant(lib, x, start) && ReturnsOk(lib, x, start, lost)
    requires s.Advance? || s.Raise? ==> !x.At(s.thread).Stored? && (s.Advance? ==> !x.At(s.thread).Loaded?)
    ensures ReturnsOk(lib, Next(lib, x, s), start, lost)
  {
    hide Encrypted, EmittedAs;
    var t := s.thread;
    assert InsideLock(x.At(t)) <==> x.holder == Some(t);
    var y := Next(lib, x, s);
    assert y.returned == x.returned && y.session == x.session;
    assert Leaving(y) == Leaving(x);
    assert Spent(y, start) == Spent(x, start);
  }

  lemma StepKeepsReturns(lib: Calls, x: System, s: Step, start: SessionValue, lost: set<int>)
    requires Lawful(lib) && Invariant(lib, x, start) && ReturnsOk(lib, x, start, lost)
    ensures ReturnsOk(lib, Next(lib, x, s), start, lost + LostBy(x, s))
  {
    hide Encrypted, Invariant, ReturnsOk, Next;
    assert lost + {} == lost;
    if s.Advance? && x.At(s.thread).Stored? {
      ReturnStep(lib, x, s.thread, start, lost);
    } else if s.Advance? && x.At(s.thread).Loaded? {
      StoreStep(lib, x, s.thread, start, lost);
    } else if s.Raise? && x.At(s.thread).Stored? {
      LossStep(lib, x, s.thread, start, lost);
    } else {
      OtherStep(lib, x, s, start, lost);
    }
  }

  lemma {:induction false} RunKeepsReturns(lib: Calls, session: SessionValue, steps: seq<Step>)
    requires Lawful(lib) && Keyed(session) && 0 <= session.sendSequence <= MAX_MESSAGE_SEQUENCE + 1
    ensures ReturnsOk(lib, Run(lib, Start(session), steps), session, Lost(lib, Start(session), steps))
  {
    hide Encrypted, Invariant, Next, EmittedAs;
    StartHolds(lib, session);
    if steps == [] {
      assert Spent(Start(session), session) == {};
    } else {
      var front, s := steps[..|steps| - 1], steps[|steps| - 1];
      RunKeepsReturns(lib, session, front);
      RunKeepsInvariant(lib, Start(session), front, session);
      StepKeepsReturns(lib, Run(lib, Start(session), front), s, session, Lost(lib, Start(session), front));
    }
  }

  /**
   Under every interleaving, with failures anywhere: the packets that `encrypt` returns carry ascending
   sequences, so each at most once, and each is the encryption of its caller's plaintext under its own sequence.
   Once no thread is inside, the returned sequences are all those spent but the ones that failures after the
   increment have lost.
   */
  lemma ReturnedAreSpentButNotLost(lib: Calls, session: SessionValue, steps: seq<Step>)
    requires Lawful(lib) && Keyed(session) && 0 <= session.sendSequence <= MAX_MESSAGE_SEQUENCE + 1
    ensures var x := Run(lib, Start(session), steps);
            var lost := Lost(lib, Start(session), steps);
            && Ascending(x.returned) && AllGenuine(lib, session, x.returned)
            && lost <= Spent(x, session) && Sequences(x.returned) <= Spent(x, session)
            && (x.holder.None? ==> Sequences(x.returned) == Spent(x, session) - lost)
  {
    hide Encrypted, EmittedAs, Run;
    RunKeepsReturns(lib, session, steps);
  }

  /** In particular they are the whole range exactly when there was no such failure. */
  lemma AllReturnedExactlyWithoutLateFailure(lib: Calls, session: SessionValue, steps: seq<Step>)
    requires Lawful(lib) && Keyed(session) && 0 <= session.sendSequence <= MAX_MESSAGE_SEQUENCE + 1
    requires Run(lib, Start(session), steps).holder.None?
    ensures var x := Run(lib, Start(session), steps);
            Sequences(x.returned) == Spent(x, session) <==> NeverFailsAtReturn(lib, Start(session), steps)
  {
    hide Encrypted, EmittedAs, Run;
    ReturnedAreSpentButNotLost(lib, session, steps);
    NothingLostWithoutFailure(lib, Start(session), steps);
    var x := Run(lib, Start(session), steps);
    var lost := Lost(lib, Start(session), steps);
    if lost != {} {
      var s :| s in lost;
      assert s in Spent(x, session);
    } else {
      assert Spent(x, session) - lost == Spent(x, session);
    }
  }
}
