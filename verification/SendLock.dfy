/**
 Concurrent senders on one session. Any number of threads run `encrypt`; the scheduler picks the next step,
 and a failure, an interrupt for one, may come instead of any step. The lock is modelled as acquire and
 release, and the increment of `send_sequence` as a load and a store.
 */
module SendLock {
  import opened Basics
  import opened Library
  import opened Protocol
  import opened Session

  /** Where one thread stands inside `encrypt`. */
  datatype Stage =
    | Idle
    | Waiting(plaintext: Bytes)                                  // before `with self._send_lock`
    | Entered(plaintext: Bytes)                                  // the lock is held from here on
    | Numbered(plaintext: Bytes, sequence: int)                  // the sequence has been read
    | Encoded(plaintext: Bytes, sequence: int, packet: Bytes)    // sealed and serialized
    | Loaded(plaintext: Bytes, sequence: int, packet: Bytes, loaded: int) // `send_sequence` read for the increment
    | Stored(emission: Emission)                                 // incremented; only the return is left

  predicate InsideLock(s: Stage) {
    !s.Idle? && !s.Waiting?
  }

  /** A packet with the sequence it was made under and its caller's plaintext. */
  datatype Emission = Emission(sequence: int, plaintext: Bytes, packet: Bytes)

  /** One call of the AEAD: the sequence whose key and nonce it used, and the plaintext. */
  datatype Sealed = Sealed(sequence: int, plaintext: Bytes)

  datatype System = System(
    session: SessionValue, holder: Option<nat>, stages: map<nat, Stage>,
    spent: seq<Emission>,     // in the order in which the increment spent their sequences
    sealed: seq<Sealed>,      // in the order of the AEAD calls
    returned: seq<Emission>)  // in the order in which `encrypt` returned them
  {
    function At(t: nat): Stage {
      if t in stages then stages[t] else Idle
    }

    function Move(t: nat, s: Stage): System {
      this.(stages := stages[t := s])
    }

    /** Leaving the `with` block. */
    function Release(t: nat): System {
      this.(stages := stages[t := Idle], holder := None)
    }
  }

  datatype Step =
    | Call(thread: nat, plaintext: Bytes)
    | Acquire(thread: nat)
    | Advance(thread: nat)  // the next statement under the lock
    | Raise(thread: nat)    // the next statement raises instead

  /** The fields of the session when this sequence is the next one. */
  function WithSequence(session: SessionValue, sequence: int): SessionValue {
    session.(sendSequence := sequence)
  }

  function AdvanceInside(lib: Calls, x: System, t: nat): (y: System)
    requires Lawful(lib) && Keyed(x.session)
    ensures y.session == WithSequence(x.session, y.session.sendSequence)
  {
    match x.At(t)
    case Entered(plaintext) =>
      if x.session.sendSequence > MAX_MESSAGE_SEQUENCE || !ValidSequence(x.session.sendSequence) then x.Release(t)
      else x.Move(t, Numbered(plaintext, x.session.sendSequence))
    case Numbered(plaintext, sequence) =>
      var packet := Encrypted(lib, WithSequence(x.session, sequence), plaintext);
      if packet.Err? then x.Release(t)
      else x.Move(t, Encoded(plaintext, sequence, packet.value)).(sealed := x.sealed + [Sealed(sequence, plaintext)])
    case Encoded(plaintext, sequence, packet) => x.Move(t, Loaded(plaintext, sequence, packet, x.session.sendSequence))
    case Loaded(plaintext, sequence, packet, loaded) =>
      var e := Emission(sequence, plaintext, packet);
      x.(session := WithSequence(x.session, loaded + 1), spent := x.spent + [e]).Move(t, Stored(e))
    case Stored(e) => x.Release(t).(returned := x.returned + [e])
    case _ => x
  }

  /** A step that is not enabled leaves the system as it is. */
  function Next(lib: Calls, x: System, s: Step): (y: System)
    requires Lawful(lib) && Keyed(x.session)
    ensures y.session == WithSequence(x.session, y.session.sendSequence)
  {
    var t := s.thread;
    match s
    case Call(_, plaintext) =>
      if x.At(t).Idle? && |plaintext| <= MAX_PLAINTEXT_BYTES then x.Move(t, Waiting(plaintext)) else x
    case Acquire(_) =>
      if x.At(t).Waiting? && x.holder.None? then
        x.Move(t, Entered(x.At(t).plaintext)).(holder := Some(t))
      else x
    case Advance(_) => AdvanceInside(lib, x, t)
    case Raise(_) =>
      if x.At(t).Waiting? then x.Move(t, Idle)
      else if InsideLock(x.At(t)) then x.Release(t)
      else x
  }

  function Run(lib: Calls, x: System, steps: seq<Step>): (y: System)
    requires Lawful(lib) && Keyed(x.session)
    ensures y.session == WithSequence(x.session, y.session.sendSequence)
  {
    if steps == [] then x else Next(lib, Run(lib, x, steps[..|steps| - 1]), steps[|steps| - 1])
  }

  /** Nobody is inside `encrypt` yet. */
  function Start(session: SessionValue): System {
    System(session, None, map[], [], [], [])
  }

  // ---------- the invariant ----------

  /** The lock is held by exactly the thread that is inside it. */
  ghost predicate Exclusive(x: System) {
    forall t: nat :: InsideLock(x.At(t)) <==> x.holder == Some(t)
  }

  ghost predicate PacketOf(lib: Calls, session: SessionValue, sequence: int, plaintext: Bytes, packet: Bytes)
    requires Lawful(lib) && Keyed(session)
  {
    Encrypted(lib, WithSequence(session, sequence), plaintext) == Ok(packet)
  }

  /** What the thread inside the lock has read is still current. */
  ghost predicate Current(lib: Calls, x: System, s: Stage, start: SessionValue)
    requires Lawful(lib) && Keyed(start)
  {
    match s
    case Numbered(_, sequence) => sequence == x.session.sendSequence && ValidSequence(sequence)
    case Encoded(plaintext, sequence, packet) =>
      && sequence == x.session.sendSequence && ValidSequence(sequence)
      && PacketOf(lib, start, sequence, plaintext, packet)
    case Loaded(plaintext, sequence, packet, loaded) =>
      && loaded == sequence == x.session.sendSequence && ValidSequence(sequence)
      && PacketOf(lib, start, sequence, plaintext, packet)
    case Stored(e) => EmittedAs(lib, start, x.session.sendSequence - 1, e)
    case _ => true
  }

  /** An emission carries this sequence and is the encryption of its caller's plaintext under it. */
  ghost predicate EmittedAs(lib: Calls, session: SessionValue, sequence: int, e: Emission)
    requires Lawful(lib) && Keyed(session)
  {
    e.sequence == sequence && PacketOf(lib, session, sequence, e.plaintext, e.packet)
  }

  /** The spent packets are those of the starting sequence and its successors, up to the current one. */
  ghost predicate Contiguous(lib: Calls, x: System, start: SessionValue)
    requires Lawful(lib) && Keyed(start)
  {
    && x.session == WithSequence(start, start.sendSequence + |x.spent|)
    && 0 <= start.sendSequence && x.session.sendSequence <= MAX_MESSAGE_SEQUENCE + 1
    && forall n | 0 <= n < |x.spent| :: EmittedAs(lib, start, start.sendSequence + n, x.spent[n])
  }

  ghost predicate Invariant(lib: Calls, x: System, start: SessionValue)
    requires Lawful(lib)
  {
    && Keyed(x.session) && Keyed(start)
    && Exclusive(x)
    && (forall t: nat :: Current(lib, x, x.At(t), start))
    && Contiguous(lib, x, start)
  }

  lemma ReleaseKeepsInvariant(lib: Calls, x: System, t: nat, start: SessionValue)
    requires Lawful(lib) && Invariant(lib, x, start) && x.holder == Some(t)
    ensures Invariant(lib, x.Release(t), start)
  {
    hide Encrypted;
    var y := x.Release(t);
    forall u: nat
      ensures InsideLock(y.At(u)) <==> y.holder == Some(u)
      ensures Current(lib, y, y.At(u), start)
    {
      assert u != t ==> y.At(u) == x.At(u);
      assert Current(lib, x, x.At(u), start);
    }
  }

  /** The invariant does not speak of what was returned. */
  lemma ReturnKeepsInvariant(lib: Calls, x: System, returned: seq<Emission>, start: SessionValue)
    requires Lawful(lib) && Invariant(lib, x, start)
    ensures Invariant(lib, x.(returned := returned), start)
  {
    hide Encrypted;
    var y := x.(returned := returned);
    forall u: nat
      ensures InsideLock(y.At(u)) <==> y.holder == Some(u)
      ensures Current(lib, y, y.At(u), start)
    {
      assert y.At(u) == x.At(u);
      assert Current(lib, x, x.At(u), start);
    }
  }

  lemma MoveKeepsInvariant(lib: Calls, x: System, t: nat, s: Stage, start: SessionValue)
    requires Lawful(lib) && Invariant(lib, x, start)
    requires InsideLock(s) <==> x.holder == Some(t)
    requires Current(lib, x, s, start)
    ensures Invariant(lib, x.Move(t, s), start)
  {
    hide Encrypted;
    var y := x.Move(t, s);
    forall u: nat
      ensures InsideLock(y.At(u)) <==> y.holder == Some(u)
      ensures Current(lib, y, y.At(u), start)
    {
      assert u != t ==> y.At(u) == x.At(u);
      assert Current(lib, x, x.At(u), start);
    }
  }

  lemma AcquireKeepsInvariant(lib: Calls, x: System, t: nat, start: SessionValue)
    requires Lawful(lib) && Invariant(lib, x, start) && x.At(t).Waiting? && x.holder.None?
    ensures Invariant(lib, Next(lib, x, Acquire(t)), start)
  {
    hide Encrypted;
    var y := Next(lib, x, Acquire(t));
    forall u: nat
      ensures InsideLock(y.At(u)) <==> y.holder == Some(u)
      ensures Current(lib, y, y.At(u), start)
    {
      assert u != t ==> y.At(u) == x.At(u);
      assert Current(lib, x, x.At(u), start);
    }
  }

  lemma StoreKeepsStages(lib: Calls, x: System, t: nat, start: SessionValue)
    requires Lawful(lib) && Invariant(lib, x, start) && x.At(t).Loaded?
    ensures var y := AdvanceInside(lib, x, t);
            Exclusive(y) && forall u: nat :: Current(lib, y, y.At(u), start)
  {
    hide Encrypted;
    assert Current(lib, x, x.At(t), start);
    var y := AdvanceInside(lib, x, t);
    assert InsideLock(x.At(t));
    forall u: nat
      ensures InsideLock(y.At(u)) <==> y.holder == Some(u)
      ensures if u == t then y.At(u).Stored? else !InsideLock(y.At(u))
    {
      if u != t {
        assert y.At(u) == x.At(u);
        assert InsideLock(x.At(u)) <==> x.holder == Some(u);
      }
    }
  }

  lemma ContiguousAppend(lib: Calls, x: System, y: System, e: Emission, start: SessionValue)
    requires Lawful(lib) && Keyed(start) && Contiguous(lib, x, start)
    requires ValidSequence(x.session.sendSequence) && EmittedAs(lib, start, x.session.sendSequence, e)
    requires y.session == WithSequence(x.session, e.sequence + 1) && y.spent == x.spent + [e]
    ensures Contiguous(lib, y, start)
  {
    hide Encrypted;
    forall n | 0 <= n < |y.spent|
      ensures EmittedAs(lib, start, start.sendSequence + n, y.spent[n])
    {
      if n < |x.spent| {
        assert EmittedAs(lib, start, start.sendSequence + n, x.spent[n]);
      }
    }
  }

  lemma StoreEmits(lib: Calls, x: System, t: nat, start: SessionValue)
    requires Lawful(lib) && Invariant(lib, x, start) && x.At(t).Loaded?
    ensures Contiguous(lib, AdvanceInside(lib, x, t), start)
  {
    hide Encrypted;
    assert Current(lib, x, x.At(t), start);
    var s := x.At(t);
    ContiguousAppend(lib, x, AdvanceInside(lib, x, t), Emission(s.sequence, s.plaintext, s.packet), start);
  }

  /** The store is the step that spends a sequence: no other thread can have moved the sequence since it was read. */
  lemma StoreKeepsInvariant(lib: Calls, x: System, t: nat, start: SessionValue)
    requires Lawful(lib) && Invariant(lib, x, start) && x.At(t).Loaded?
    ensures Invariant(lib, AdvanceInside(lib, x, t), start)
  {
    StoreKeepsStages(lib, x, t, start);
    StoreEmits(lib, x, t, start);
  }

  lemma AdvanceKeepsInvariant(lib: Calls, x: System, t: nat, start: SessionValue)
    requires Lawful(lib) && Invariant(lib, x, start)
    ensures Invariant(lib, AdvanceInside(lib, x, t), start)
  {
    hide Encrypted;
    assert Current(lib, x, x.At(t), start);
    assert InsideLock(x.At(t)) <==> x.holder == Some(t);
    match x.At(t)
    case Entered(plaintext) =>
      if ValidSequence(x.session.sendSequence) {
        MoveKeepsInvariant(lib, x, t, Numbered(plaintext, x.session.sendSequence), start);
      } else {
        ReleaseKeepsInvariant(lib, x, t, start);
      }
    case Numbered(plaintext, sequence) =>
      var packet := Encrypted(lib, WithSequence(x.session, sequence), plaintext);
      if packet.Err? {
        ReleaseKeepsInvariant(lib, x, t, start);
      } else {
        assert WithSequence(x.session, sequence) == WithSequence(start, sequence);
        MoveKeepsInvariant(lib, x, t, Encoded(plaintext, sequence, packet.value), start);
      }
    case Encoded(plaintext, sequence, packet) =>
      MoveKeepsInvariant(lib, x, t, Loaded(plaintext, sequence, packet, x.session.sendSequence), start);
    case Loaded(_, _, _, _) => StoreKeepsInvariant(lib, x, t, start);
    case Stored(e) =>
      ReleaseKeepsInvariant(lib, x, t, start);
      ReturnKeepsInvariant(lib, x.Release(t), x.returned + [e], start);
    case _ =>
  }

  lemma StepKeepsInvariant(lib: Calls, x: System, s: Step, start: SessionValue)
    requires Lawful(lib) && Invariant(lib, x, start)
    ensures Invariant(lib, Next(lib, x, s), start)
  {
    hide Encrypted;
    var t := s.thread;
    assert InsideLock(x.At(t)) <==> x.holder == Some(t);
    match s
    case Call(_, plaintext) =>
      if x.At(t).Idle? && |plaintext| <= MAX_PLAINTEXT_BYTES {
        MoveKeepsInvariant(lib, x, t, Waiting(plaintext), start);
      }
    case Acquire(_) =>
      if x.At(t).Waiting? && x.holder.None? {
        AcquireKeepsInvariant(lib, x, t, start);
      }
    case Advance(_) => AdvanceKeepsInvariant(lib, x, t, start);
    case Raise(_) =>
      if x.At(t).Waiting? {
        MoveKeepsInvariant(lib, x, t, Idle, start);
      } else if InsideLock(x.At(t)) {
        ReleaseKeepsInvariant(lib, x, t, start);
      }
  }

  lemma {:induction false} RunKeepsInvariant(lib: Calls, x: System, steps: seq<Step>, start: SessionValue)
    requires Lawful(lib) && Invariant(lib, x, start)
    ensures Invariant(lib, Run(lib, x, steps), start)
  {
    hide Encrypted;
    if steps != [] {
      RunKeepsInvariant(lib, x, steps[..|steps| - 1], start);
      StepKeepsInvariant(lib, Run(lib, x, steps[..|steps| - 1]), steps[|steps| - 1], start);
    }
  }

  lemma StartHolds(lib: Calls, session: SessionValue)
    requires Lawful(lib) && Keyed(session) && 0 <= session.sendSequence <= MAX_MESSAGE_SEQUENCE + 1
    ensures Invariant(lib, Start(session), session)
  {
    hide Encrypted;
    assert forall t: nat :: Start(session).At(t) == Idle;
  }

  /**
   Under every interleaving, with failures anywhere, the packets whose sequences are spent carry exactly those
   from the initial to the current `send_sequence`, each once and in order, and each packet is the encryption
   of its caller's plaintext under its own sequence.
   */
  lemma SpentSequencesAreContiguous(lib: Calls, session: SessionValue, steps: seq<Step>)
    requires Lawful(lib) && Keyed(session) && 0 <= session.sendSequence <= MAX_MESSAGE_SEQUENCE + 1
    ensures var x := Run(lib, Start(session), steps);
            && x.session.sendSequence == session.sendSequence + |x.spent|
            && x.session.sendSequence <= MAX_MESSAGE_SEQUENCE + 1
            && forall n | 0 <= n < |x.spent| :: EmittedAs(lib, session, session.sendSequence + n, x.spent[n])
  {
    hide Encrypted;
    var x := Start(session);
    StartHolds(lib, session);
    RunKeepsInvariant(lib, x, steps, session);
  }

  /** Once 2^64 - 1 has been used, no sequence is ever spent again. */
  lemma {:induction false} ExhaustionIsPermanent(lib: Calls, x: System, steps: seq<Step>, start: SessionValue)
    requires Lawful(lib) && Invariant(lib, x, start)
    requires x.session.sendSequence == MAX_MESSAGE_SEQUENCE + 1
    ensures Run(lib, x, steps).spent == x.spent
    ensures Run(lib, x, steps).session == x.session
  {
    hide Encrypted;
    if steps != [] {
      var front := steps[..|steps| - 1];
      ExhaustionIsPermanent(lib, x, front, start);
      RunKeepsInvariant(lib, x, front, start);
      var y := Run(lib, x, front);
      var s := steps[|steps| - 1];
      assert Current(lib, y, y.At(s.thread), start);
    }
  }
}
