/**
 When concurrent senders use a key and nonce twice. A failure between the AEAD call and the increment leaves a
 sequence sealed but unspent; it is sealed again exactly if another AEAD call follows before it is spent.
 */
module SealReuse {
  import opened Basics
  import opened Kdf
  import opened Library
  import opened Protocol
  import opened SendLock
  import opened Session

  /** Between the AEAD call and the store: a packet exists whose sequence is not yet spent. */
  predicate Exposed(s: Stage) {
    s.Encoded? || s.Loaded?
  }

  predicate ExposedNow(x: System) {
    x.holder.Some? && Exposed(x.At(x.holder.value))
  }

  /** This step is a failure there. */
  predicate FailsExposed(x: System, s: Step) {
    s.Raise? && Exposed(x.At(s.thread))
  }

  /** This step calls the AEAD. */
  predicate Seals(lib: Calls, x: System, s: Step)
    requires Lawful(lib) && Keyed(x.session)
  {
    && s.Advance? && x.At(s.thread).Numbered?
    && Encrypted(lib, WithSequence(x.session, x.At(s.thread).sequence), x.At(s.thread).plaintext).Ok?
  }

  /** A failure has left the next sequence sealed, and nothing has been sealed since. */
  predicate Risk(lib: Calls, x: System, steps: seq<Step>)
    requires Lawful(lib) && Keyed(x.session)
  {
    steps != []
    && var front, last := steps[..|steps| - 1], steps[|steps| - 1];
       var y := Run(lib, x, front);
       FailsExposed(y, last) || (Risk(lib, x, front) && !Seals(lib, y, last))
  }

  /** Something has been sealed at such a moment. */
  predicate Resealed(lib: Calls, x: System, steps: seq<Step>)
    requires Lawful(lib) && Keyed(x.session)
  {
    steps != []
    && var front, last := steps[..|steps| - 1], steps[|steps| - 1];
       Resealed(lib, x, front) || (Risk(lib, x, front) && Seals(lib, Run(lib, x, front), last))
  }

  /** Two AEAD calls were made under one sequence. */
  ghost predicate Repeats(sealed: seq<Sealed>) {
    exists i, j | 0 <= i < j < |sealed| :: sealed[i].sequence == sealed[j].sequence
  }

  // ---------- the invariant ----------

  /** The sealed sequences ascend to the next one, which is among them only if it is exposed or at risk. */
  ghost predicate SealsOk(x: System, risk: bool, resealed: bool) {
    && (forall i | 0 <= i < |x.sealed| :: ValidSequence(x.sealed[i].sequence) && x.sealed[i].sequence <= x.session.sendSequence)
    && (forall i, j | 0 <= i < j < |x.sealed| :: x.sealed[i].sequence <= x.sealed[j].sequence)
    && (EndsAtNext(x) <==> ExposedNow(x) || risk)
    && (ExposedNow(x) ==> !risk)
    && (Repeats(x.sealed) <==> resealed)
  }

  predicate EndsAtNext(x: System) {
    x.sealed != [] && x.sealed[|x.sealed| - 1].sequence == x.session.sendSequence
  }

  lemma RepeatsAfter(sealed: seq<Sealed>, s: Sealed)
    requires forall i, j | 0 <= i < j < |sealed| :: sealed[i].sequence <= sealed[j].sequence
    requires forall i | 0 <= i < |sealed| :: sealed[i].sequence <= s.sequence
    ensures Repeats(sealed + [s])
            <==> Repeats(sealed) || (sealed != [] && sealed[|sealed| - 1].sequence == s.sequence)
  {
    var t := sealed + [s];
    var n := |sealed|;
    if Repeats(t) {
      var i, j :| 0 <= i < j < |t| && t[i].sequence == t[j].sequence;
      if j < n {
        assert sealed[i].sequence == sealed[j].sequence;
      } else {
        assert sealed[i].sequence <= sealed[n - 1].sequence;
      }
    }
    if Repeats(sealed) {
      var i, j :| 0 <= i < j < n && sealed[i].sequence == sealed[j].sequence;
      assert t[i].sequence == t[j].sequence;
    }
    if n > 0 && sealed[n - 1].sequence == s.sequence {
      assert t[n - 1].sequence == t[n].sequence;
    }
  }

  lemma SealKeepsSeals(lib: Calls, x: System, s: Step, start: SessionValue, risk: bool, resealed: bool)
    requires Lawful(lib) && Invariant(lib, x, start) && SealsOk(x, risk, resealed) && Seals(lib, x, s)
    ensures SealsOk(Next(lib, x, s), false, resealed || risk)
  {
    hide Encrypted, Repeats;
    var t := s.thread;
    assert InsideLock(x.At(t)) <==> x.holder == Some(t);
    assert Current(lib, x, x.At(t), start);
    var e := Sealed(x.session.sendSequence, x.At(t).plaintext);
    RepeatsAfter(x.sealed, e);
    assert Next(lib, x, s).sealed == x.sealed + [e];
  }

  lemma OtherStepKeepsSeals(lib: Calls, x: System, s: Step, start: SessionValue, risk: bool, resealed: bool)
    requires Lawful(lib) && Invariant(lib, x, start) && SealsOk(x, risk, resealed) && !Seals(lib, x, s)
    ensures SealsOk(Next(lib, x, s), FailsExposed(x, s) || risk, resealed)
  {
    hide Encrypted, Repeats;
    var t := s.thread;
    assert InsideLock(x.At(t)) <==> x.holder == Some(t);
    assert Current(lib, x, x.At(t), start);
  }

  lemma {:induction false} RunKeepsSeals(lib: Calls, session: SessionValue, steps: seq<Step>)
    requires Lawful(lib) && Keyed(session) && 0 <= session.sendSequence <= MAX_MESSAGE_SEQUENCE + 1
    ensures Invariant(lib, Run(lib, Start(session), steps), session)
    ensures SealsOk(Run(lib, Start(session), steps), Risk(lib, Start(session), steps), Resealed(lib, Start(session), steps))
  {
    hide Encrypted, Invariant, SealsOk, Next, Seals;
    var x := Start(session);
    StartHolds(lib, session);
    RunKeepsInvariant(lib, x, steps, session);
    if steps == [] {
      NothingSealed(session);
    } else {
      var front, s := steps[..|steps| - 1], steps[|steps| - 1];
      RunKeepsSeals(lib, session, front);
      var y := Run(lib, x, front);
      if Seals(lib, y, s) {
        NotBoth(lib, y, s);
        SealKeepsSeals(lib, y, s, session, Risk(lib, x, front), Resealed(lib, x, front));
      } else {
        OtherStepKeepsSeals(lib, y, s, session, Risk(lib, x, front), Resealed(lib, x, front));
      }
    }
  }

  lemma NothingSealed(session: SessionValue)
    ensures SealsOk(Start(session), false, false)
  {
  }

  lemma NotBoth(lib: Calls, x: System, s: Step)
    requires Lawful(lib) && Keyed(x.session) && Seals(lib, x, s)
    ensures !FailsExposed(x, s)
  {
  }

  // ---------- the theorems ----------

  /**
   Under every interleaving, with failures anywhere: two AEAD calls are made under one sequence exactly if, at
   some point of the run, something was sealed while a failure had left the next sequence sealed already.
   */
  lemma SequenceRepeatsExactlyWhenResealed(lib: Calls, session: SessionValue, steps: seq<Step>)
    requires Lawful(lib) && Keyed(session) && 0 <= session.sendSequence <= MAX_MESSAGE_SEQUENCE + 1
    ensures Repeats(Run(lib, Start(session), steps).sealed) <==> Resealed(lib, Start(session), steps)
  {
    hide Encrypted, Invariant, Repeats, Resealed, Risk;
    RunKeepsSeals(lib, session, steps);
  }

  function SealKey(lib: Calls, session: SessionValue, s: Sealed): MessageKey
    requires Lawful(lib) && Keyed(session) && ValidSequence(s.sequence)
  {
    DeriveMessageKey(lib, session.rootKey, s.sequence, session.suite, Sending(session))
  }

  predicate AllSealedValid(sealed: seq<Sealed>) {
    forall i | 0 <= i < |sealed| :: ValidSequence(sealed[i].sequence)
  }

  /** Two AEAD calls were made with one key and nonce. */
  ghost predicate KeyRepeats(lib: Calls, session: SessionValue, sealed: seq<Sealed>)
    requires Lawful(lib) && Keyed(session) && AllSealedValid(sealed)
  {
    exists i, j | 0 <= i < j < |sealed| :: SealKey(lib, session, sealed[i]) == SealKey(lib, session, sealed[j])
  }

  /** The HKDF calls behind the AEAD calls. */
  ghost function SealQueries(lib: Calls, session: SessionValue, sealed: seq<Sealed>): set<HkdfQuery>
    requires Lawful(lib) && Keyed(session) && AllSealedValid(sealed)
  {
    set i, q | 0 <= i < |sealed|
               && q in MessageQueries(lib, session.rootKey, sealed[i].sequence, session.suite, Sending(session)) :: q
  }

  lemma KeyRepeatsExactlyWithSequence(lib: Calls, session: SessionValue, sealed: seq<Sealed>)
    requires Lawful(lib) && Keyed(session) && AllSealedValid(sealed)
    requires NoHkdfCollision(lib, SealQueries(lib, session, sealed))
    ensures KeyRepeats(lib, session, sealed) <==> Repeats(sealed)
  {
    hide NoHkdfCollision, DeriveMessageKey;
    var queries := SealQueries(lib, session, sealed);
    if KeyRepeats(lib, session, sealed) {
      var i, j :| 0 <= i < j < |sealed| && SealKey(lib, session, sealed[i]) == SealKey(lib, session, sealed[j]);
      MessageKeysAreSeparated(lib, queries, session.rootKey, sealed[i].sequence, session.suite, Sending(session),
                              session.rootKey, sealed[j].sequence, session.suite, Sending(session));
    }
    if Repeats(sealed) {
      var i, j :| 0 <= i < j < |sealed| && sealed[i].sequence == sealed[j].sequence;
      assert SealKey(lib, session, sealed[i]) == SealKey(lib, session, sealed[j]);
    }
  }

  /** The same for the keys and nonces themselves, barring HKDF collisions among the calls of the run. */
  lemma KeyRepeatsExactlyWhenResealed(lib: Calls, session: SessionValue, steps: seq<Step>)
    requires Lawful(lib) && Keyed(session) && 0 <= session.sendSequence <= MAX_MESSAGE_SEQUENCE + 1
    requires AllSealedValid(Run(lib, Start(session), steps).sealed) ==>
               NoHkdfCollision(lib, SealQueries(lib, session, Run(lib, Start(session), steps).sealed))
    ensures AllSealedValid(Run(lib, Start(session), steps).sealed)
    ensures KeyRepeats(lib, session, Run(lib, Start(session), steps).sealed) <==> Resealed(lib, Start(session), steps)
  {
    hide Encrypted, Invariant, Repeats, KeyRepeats, Resealed, Risk, NoHkdfCollision;
    RunKeepsSeals(lib, session, steps);
    SequenceRepeatsExactlyWhenResealed(lib, session, steps);
    KeyRepeatsExactlyWithSequence(lib, session, Run(lib, Start(session), steps).sealed);
  }

  // ---------- runs without such a failure ----------

  /** No step of the run is a failure between the AEAD call and the store. */
  predicate NeverFailsExposed(lib: Calls, x: System, steps: seq<Step>)
    requires Lawful(lib) && Keyed(x.session)
  {
    steps == []
    || (NeverFailsExposed(lib, x, steps[..|steps| - 1])
        && !FailsExposed(Run(lib, x, steps[..|steps| - 1]), steps[|steps| - 1]))
  }

  lemma {:induction false} NoRiskWithoutFailure(lib: Calls, x: System, steps: seq<Step>)
    requires Lawful(lib) && Keyed(x.session) && NeverFailsExposed(lib, x, steps)
    ensures !Risk(lib, x, steps) && !Resealed(lib, x, steps)
  {
    hide Run, Seals, FailsExposed;
    if steps != [] {
      NoRiskWithoutFailure(lib, x, steps[..|steps| - 1]);
    }
  }

  /** So without a failure there nothing is sealed twice. */
  lemma NoSequenceIsSealedTwice(lib: Calls, session: SessionValue, steps: seq<Step>, i: nat, j: nat)
    requires Lawful(lib) && Keyed(session) && 0 <= session.sendSequence <= MAX_MESSAGE_SEQUENCE + 1
    requires NeverFailsExposed(lib, Start(session), steps)
    requires i < j < |Run(lib, Start(session), steps).sealed|
    ensures var x := Run(lib, Start(session), steps); x.sealed[i].sequence != x.sealed[j].sequence
  {
    NoRiskWithoutFailure(lib, Start(session), steps);
    SequenceRepeatsExactlyWhenResealed(lib, session, steps);
  }

  // ---------- runs with one ----------

  /** A thread that finds the lock free seals its plaintext under the next sequence, four steps after its call. */
  lemma FreeThreadSeals(lib: Calls, x: System, u: nat, plaintext: Bytes)
    requires Lawful(lib) && Keyed(x.session) && x.holder.None? && x.At(u).Idle?
    requires CanEncrypt(lib, x.session, plaintext)
    ensures var y := Next(lib, Next(lib, Next(lib, Next(lib, x, Call(u, plaintext)), Acquire(u)), Advance(u)), Advance(u));
            && y.sealed == x.sealed + [Sealed(x.session.sendSequence, plaintext)]
            && y.At(u).Encoded? && y.session == x.session && forall v | v != u :: y.At(v) == x.At(v)
  {
    hide Encrypted;
    EncryptSucceedsExactly(lib, x.session, plaintext);
    assert WithSequence(x.session, x.session.sendSequence) == x.session;
    var a := Next(lib, x, Call(u, plaintext));
    assert a.At(u) == Waiting(plaintext) && a.holder.None?;
    var b := Next(lib, a, Acquire(u));
    assert b.At(u) == Entered(plaintext);
    var c := Next(lib, b, Advance(u));
    assert c.At(u) == Numbered(plaintext, x.session.sendSequence) && c.session == x.session;
  }

  lemma FailureFreesLock(lib: Calls, x: System, t: nat, u: nat)
    requires Lawful(lib) && Keyed(x.session) && Exposed(x.At(t)) && (u == t || x.At(u).Idle?)
    ensures var y := Next(lib, x, Raise(t));
            y.holder.None? && y.At(u).Idle? && y.session == x.session && y.sealed == x.sealed
  {
    hide Encrypted;
  }

  function FailThenCall(t: nat, u: nat, plaintext: Bytes): seq<Step> {
    [Raise(t), Call(u, plaintext), Acquire(u), Advance(u), Advance(u)]
  }

  lemma FailureReseals(lib: Calls, x: System, t: nat, u: nat, plaintext: Bytes)
    requires Lawful(lib) && Keyed(x.session) && EndsAtNext(x)
    requires Exposed(x.At(t)) && (u == t || x.At(u).Idle?) && CanEncrypt(lib, x.session, plaintext)
    ensures Run(lib, x, FailThenCall(t, u, plaintext)).sealed
            == x.sealed + [Sealed(x.sealed[|x.sealed| - 1].sequence, plaintext)]
  {
    hide Encrypted, CanEncrypt, Next, Run;
    FailureFreesLock(lib, x, t, u);
    FreeThreadSeals(lib, Next(lib, x, Raise(t)), u, plaintext);
    RunFive(lib, x, FailThenCall(t, u, plaintext));
  }

  lemma RunFive(lib: Calls, x: System, steps: seq<Step>)
    requires Lawful(lib) && Keyed(x.session) && |steps| == 5
    ensures Run(lib, x, steps)
            == Next(lib, Next(lib, Next(lib, Next(lib, Next(lib, x, steps[0]), steps[1]), steps[2]), steps[3]), steps[4])
  {
    hide Next;
    assert steps[..4][..3] == steps[..3] && steps[..3][..2] == steps[..2] && steps[..2][..1] == steps[..1];
    assert steps[..1][..0] == [];
    assert Run(lib, x, steps[..1]) == Next(lib, x, steps[0]);
    assert Run(lib, x, steps[..2]) == Next(lib, Run(lib, x, steps[..1]), steps[1]);
    assert Run(lib, x, steps[..3]) == Next(lib, Run(lib, x, steps[..2]), steps[2]);
    assert Run(lib, x, steps[..4]) == Next(lib, Run(lib, x, steps[..3]), steps[3]);
  }

  lemma RunFour(lib: Calls, x: System, steps: seq<Step>)
    requires Lawful(lib) && Keyed(x.session) && |steps| == 4
    ensures Run(lib, x, steps) == Next(lib, Next(lib, Next(lib, Next(lib, x, steps[0]), steps[1]), steps[2]), steps[3])
  {
    hide Next;
    assert steps[..3][..2] == steps[..2] && steps[..2][..1] == steps[..1] && steps[..1][..0] == [];
    assert Run(lib, x, steps[..1]) == Next(lib, x, steps[0]);
    assert Run(lib, x, steps[..2]) == Next(lib, Run(lib, x, steps[..1]), steps[1]);
    assert Run(lib, x, steps[..3]) == Next(lib, Run(lib, x, steps[..2]), steps[2]);
  }

  lemma {:induction false} RunOnward(lib: Calls, x: System, steps: seq<Step>, more: seq<Step>)
    requires Lawful(lib) && Keyed(x.session)
    ensures Run(lib, x, steps + more) == Run(lib, Run(lib, x, steps), more)
  {
    hide Next;
    if more == [] {
      assert steps + more == steps;
    } else {
      var all := steps + more;
      assert all[..|all| - 1] == steps + more[..|more| - 1];
      RunOnward(lib, x, steps, more[..|more| - 1]);
    }
  }

  /**
   A failure there, at any point of any run, and then a legal `encrypt` by any idle thread: its plaintext is
   sealed under the sequence, and so the key and nonce, that were used already.
   */
  lemma ExposedFailureReseals(lib: Calls, session: SessionValue, steps: seq<Step>, t: nat, u: nat, plaintext: Bytes)
    requires Lawful(lib) && Keyed(session) && 0 <= session.sendSequence <= MAX_MESSAGE_SEQUENCE + 1
    requires var x := Run(lib, Start(session), steps);
             Exposed(x.At(t)) && (u == t || x.At(u).Idle?) && CanEncrypt(lib, x.session, plaintext)
    ensures var x := Run(lib, Start(session), steps);
            && x.sealed != []
            && Run(lib, Start(session), steps + FailThenCall(t, u, plaintext)).sealed
               == x.sealed + [Sealed(x.sealed[|x.sealed| - 1].sequence, plaintext)]
  {
    hide Encrypted, Invariant, SealsOk, Next, Run, Risk, Resealed, CanEncrypt, FailThenCall;
    RunEndsAtNext(lib, session, steps, t);
    FailureReseals(lib, Run(lib, Start(session), steps), t, u, plaintext);
    RunOnward(lib, Start(session), steps, FailThenCall(t, u, plaintext));
  }

  function SealThenFail(t: nat, first: Bytes, u: nat, second: Bytes): seq<Step> {
    [Call(t, first), Acquire(t), Advance(t), Advance(t)] + FailThenCall(t, u, second)
  }

  /** From any session that can encrypt, one thread that fails there and one that follows reseal its first sequence. */
  lemma SealThenFailReseals(lib: Calls, session: SessionValue, t: nat, first: Bytes, u: nat, second: Bytes)
    requires Lawful(lib) && Keyed(session) && CanEncrypt(lib, session, first) && CanEncrypt(lib, session, second)
    ensures var steps := SealThenFail(t, first, u, second);
            && Run(lib, Start(session), steps).sealed
               == [Sealed(session.sendSequence, first), Sealed(session.sendSequence, second)]
            && Resealed(lib, Start(session), steps)
  {
    hide Encrypted, Invariant, SealsOk, Next, Run, Risk, Resealed, CanEncrypt;
    var x := Start(session);
    assert ValidSequence(session.sendSequence) && CanEncrypt(lib, x.session, first) by {
      CanEncryptValid(lib, session, first);
    }
    var opening: seq<Step> := [Call(t, first), Acquire(t), Advance(t), Advance(t)];
    FreeThreadSeals(lib, x, t, first);
    RunFour(lib, x, opening);
    ExposedFailureReseals(lib, session, opening, t, u, second);
    var sealed := Run(lib, x, SealThenFail(t, first, u, second)).sealed;
    assert sealed == [Sealed(session.sendSequence, first), Sealed(session.sendSequence, second)];
    assert Repeats(sealed) by {
      assert sealed[0].sequence == sealed[1].sequence;
    }
    SequenceRepeatsExactlyWhenResealed(lib, session, SealThenFail(t, first, u, second));
  }

  lemma CanEncryptValid(lib: Calls, session: SessionValue, plaintext: Bytes)
    requires CanEncrypt(lib, session, plaintext)
    ensures ValidSequence(session.sendSequence)
  {
  }

  /** While a packet is exposed its sequence is the last one sealed, and the next one to be used. */
  lemma RunEndsAtNext(lib: Calls, session: SessionValue, steps: seq<Step>, t: nat)
    requires Lawful(lib) && Keyed(session) && 0 <= session.sendSequence <= MAX_MESSAGE_SEQUENCE + 1
    requires Exposed(Run(lib, Start(session), steps).At(t))
    ensures EndsAtNext(Run(lib, Start(session), steps))
  {
    hide Encrypted, Run, Risk, Resealed;
    RunKeepsSeals(lib, session, steps);
    var x := Run(lib, Start(session), steps);
    assert InsideLock(x.At(t)) <==> x.holder == Some(t);
  }
}
