/**
 Concurrent receivers on one session. Threads parse their packets outside the window's lock; the check, the
 authentication and the three assignments that record a sequence happen under it. A failure may come instead
 of any step, even between those assignments.
 */
module ReceiveLock {
  import opened Basics
  import opened Kdf
  import opened Library
  import opened Replay
  import opened Session
  import opened Wire

  /** Where one thread stands inside `decrypt`. */
  datatype Stage =
    | Idle
    | Waiting(blob: Bytes)                    // parsed and checked against the session, before the lock
    | Entered(blob: Bytes)                    // the lock is held from here on
    | Checked(blob: Bytes)                    // the window accepts the sequence
    | Opened(blob: Bytes, plaintext: Bytes)   // authenticated
    | Added(blob: Bytes, plaintext: Bytes)    // `seen` has the sequence
    | Topped(blob: Bytes, plaintext: Bytes)   // `highest_seen` is up to date
    | Recorded(blob: Bytes, plaintext: Bytes) // `seen` is pruned; only the return is left

  predicate InsideLock(s: Stage) {
    !s.Idle? && !s.Waiting?
  }

  /**
   One stay under the lock: to its own end, be it a return or an error, or cut short by a failure after so many
   of the three assignments.
   */
  datatype Section = Finished(blob: Bytes) | Interrupted(blob: Bytes, assignments: nat)

  datatype System = System(
    window: Window, holder: Option<nat>, stages: map<nat, Stage>,
    sections: seq<Section>,   // in the order of the lock
    returned: seq<Receipt>)   // in the order in which `decrypt` returned them
  {
    function At(t: nat): Stage {
      if t in stages then stages[t] else Idle
    }

    function Move(t: nat, s: Stage): System {
      this.(stages := stages[t := s])
    }

    function Leave(t: nat, s: Section): System {
      this.(stages := stages[t := Idle], holder := None, sections := sections + [s])
    }
  }

  datatype Step =
    | Call(thread: nat, blob: Bytes)
    | Acquire(thread: nat)
    | Advance(thread: nat)  // the next statement under the lock
    | Raise(thread: nat)    // a failure instead

  // ---------- one sequence is recorded ----------

  function Sequence(lib: Calls, s: SessionValue, blob: Bytes): int
    requires ReadEnvelope(lib, s, blob).Ok?
  {
    ReadEnvelope(lib, s, blob).value.sequence
  }

  /** The window after the first of the assignments of `_record_unlocked`. */
  function Assigned(w: Window, sequence: int, assignments: nat): Window {
    var added := w.(seen := w.seen + {sequence});
    var raised := added.(highest := if sequence > w.highest then sequence else w.highest);
    if assignments == 0 then w
    else if assignments == 1 then added
    else if assignments == 2 then raised
    else raised.(seen := set n | n in raised.seen && n > raised.highest - raised.size)
  }

  lemma AllAssigned(w: Window, sequence: int)
    ensures Assigned(w, sequence, 3) == Record(w, sequence)
  {
  }

  // ---------- steps ----------

  /** What `decrypt` checks before it asks the window. */
  predicate Parsed(lib: Calls, s: SessionValue, blob: Bytes) {
    ReadEnvelope(lib, s, blob).Ok?
  }

  function Opens(lib: Calls, s: SessionValue, blob: Bytes): Result<Bytes>
    requires Lawful(lib) && Keyed(s) && Parsed(lib, s, blob)
  {
    ReadEnvelopeIsValid(lib, s, blob);
    Authenticate(lib, s, ReadEnvelope(lib, s, blob).value)
  }

  ghost predicate BlobsParsed(lib: Calls, s: SessionValue, x: System) {
    forall t: nat :: !x.At(t).Idle? ==> Parsed(lib, s, x.At(t).blob)
  }

  function AdvanceInside(lib: Calls, s: SessionValue, x: System, t: nat): System
    requires Lawful(lib) && Keyed(s) && (!x.At(t).Idle? ==> Parsed(lib, s, x.At(t).blob))
  {
    match x.At(t)
    case Entered(blob) =>
      if Check(x.window, Sequence(lib, s, blob)).Pass? then x.Move(t, Checked(blob)) else x.Leave(t, Finished(blob))
    case Checked(blob) =>
      var r := Opens(lib, s, blob);
      if r.Ok? then x.Move(t, Opened(blob, r.value)) else x.Leave(t, Finished(blob))
    case Opened(blob, plaintext) =>
      x.(window := x.window.(seen := x.window.seen + {Sequence(lib, s, blob)})).Move(t, Added(blob, plaintext))
    case Added(blob, plaintext) =>
      var n := Sequence(lib, s, blob);
      x.(window := x.window.(highest := if n > x.window.highest then n else x.window.highest)).Move(t, Topped(blob, plaintext))
    case Topped(blob, plaintext) =>
      var w := x.window;
      x.(window := w.(seen := set n | n in w.seen && n > w.highest - w.size)).Move(t, Recorded(blob, plaintext))
    case Recorded(blob, plaintext) =>
      x.Leave(t, Finished(blob)).(returned := x.returned + [Receipt(blob, plaintext)])
    case _ => x
  }

  /** How many of the three assignments a thread at this stage has made. */
  function Assignments(s: Stage): nat {
    match s
    case Added(_, _) => 1
    case Topped(_, _) => 2
    case Recorded(_, _) => 3
    case _ => 0
  }

  /** A step that is not enabled leaves the system as it is. */
  function Next(lib: Calls, s: SessionValue, x: System, step: Step): System
    requires Lawful(lib) && Keyed(s) && BlobsParsed(lib, s, x)
  {
    var t := step.thread;
    match step
    case Call(_, blob) => if x.At(t).Idle? && Parsed(lib, s, blob) then x.Move(t, Waiting(blob)) else x
    case Acquire(_) =>
      if x.At(t).Waiting? && x.holder.None? then x.Move(t, Entered(x.At(t).blob)).(holder := Some(t)) else x
    case Advance(_) => AdvanceInside(lib, s, x, t)
    case Raise(_) =>
      if x.At(t).Waiting? then x.Move(t, Idle)
      else if InsideLock(x.At(t)) then x.Leave(t, Interrupted(x.At(t).blob, Assignments(x.At(t))))
      else x
  }

  lemma NextParsed(lib: Calls, s: SessionValue, x: System, step: Step)
    requires Lawful(lib) && Keyed(s) && BlobsParsed(lib, s, x)
    ensures BlobsParsed(lib, s, Next(lib, s, x, step))
  {
    hide ReadEnvelope, Opens, Parsed;
    var y := Next(lib, s, x, step);
    forall u: nat | !y.At(u).Idle?
      ensures Parsed(lib, s, y.At(u).blob)
    {
      assert u != step.thread ==> y.At(u) == x.At(u);
      assert !x.At(u).Idle? ==> Parsed(lib, s, x.At(u).blob);
    }
  }

  function Run(lib: Calls, s: SessionValue, x: System, steps: seq<Step>): (y: System)
    requires Lawful(lib) && Keyed(s) && BlobsParsed(lib, s, x)
    ensures BlobsParsed(lib, s, y)
  {
    if steps == [] then x
    else
      var y := Run(lib, s, x, steps[..|steps| - 1]);
      NextParsed(lib, s, y, steps[|steps| - 1]);
      Next(lib, s, y, steps[|steps| - 1])
  }

  function Start(s: SessionValue): System {
    System(s.window, None, map[], [], [])
  }

  // ---------- one section after another ----------

  predicate SectionsParsed(lib: Calls, s: SessionValue, sections: seq<Section>) {
    forall i | 0 <= i < |sections| :: Parsed(lib, s, sections[i].blob)
  }

  /** The session after the sections have run one after another, each on its own. */
  function Serial(lib: Calls, s: SessionValue, sections: seq<Section>): (r: SessionValue)
    requires Lawful(lib) && Keyed(s) && SectionsParsed(lib, s, sections)
    ensures r == s.(window := r.window)
  {
    if sections == [] then s
    else
      var r := Serial(lib, s, sections[..|sections| - 1]);
      match sections[|sections| - 1]
      case Finished(blob) => AfterDecrypt(lib, r, blob)
      case Interrupted(blob, k) => r.(window := Assigned(r.window, Sequence(lib, s, blob), k))
  }

  /** What they return. */
  function SerialReturned(lib: Calls, s: SessionValue, sections: seq<Section>): seq<Receipt>
    requires Lawful(lib) && Keyed(s) && SectionsParsed(lib, s, sections)
  {
    if sections == [] then []
    else
      var front, last := sections[..|sections| - 1], sections[|sections| - 1];
      var r := Decrypted(lib, Serial(lib, s, front), last.blob);
      SerialReturned(lib, s, front) + if last.Finished? && r.Ok? then [Receipt(last.blob, r.value)] else []
  }

  /** The window matters to `decrypt` only through the check. */
  lemma DecryptIs(lib: Calls, s: SessionValue, w: Window, blob: Bytes)
    requires Lawful(lib) && Keyed(s) && Parsed(lib, s, blob)
    ensures Decrypted(lib, s.(window := w), blob)
            == match Check(w, Sequence(lib, s, blob)) case Fail(error) => Err(error) case Pass => Opens(lib, s, blob)
    ensures AfterDecrypt(lib, s.(window := w), blob)
            == s.(window := if Check(w, Sequence(lib, s, blob)).Pass? && Opens(lib, s, blob).Ok?
                            then Record(w, Sequence(lib, s, blob)) else w)
  {
    hide FromBytes, AssociatedData, DeriveMessageKey;
    var t := s.(window := w);
    ReadEnvelopeIsValid(lib, s, blob);
    assert ReadEnvelope(lib, t, blob) == ReadEnvelope(lib, s, blob);
    assert Authenticate(lib, t, ReadEnvelope(lib, s, blob).value) == Authenticate(lib, s, ReadEnvelope(lib, s, blob).value);
  }

  // ---------- the invariant ----------

  /** The lock is held by exactly the thread that is inside it. */
  ghost predicate Exclusive(x: System) {
    forall t: nat :: InsideLock(x.At(t)) <==> x.holder == Some(t)
  }

  /** What the thread inside the lock knows and has done, on top of the window it found. */
  predicate StageOk(lib: Calls, s: SessionValue, found: Window, now: Window, stage: Stage)
    requires Lawful(lib) && Keyed(s) && (!stage.Idle? ==> Parsed(lib, s, stage.blob))
  {
    match stage
    case Entered(_) => now == found
    case Checked(blob) => now == found && Check(found, Sequence(lib, s, blob)).Pass?
    case Idle => true
    case Waiting(_) => true
    case _ =>
      && now == Assigned(found, Sequence(lib, s, stage.blob), Assignments(stage))
      && Check(found, Sequence(lib, s, stage.blob)).Pass? && Opens(lib, s, stage.blob) == Ok(stage.plaintext)
  }

  /** Up to the thread inside the lock, everything is as if the sections had run one after another. */
  ghost predicate Invariant(lib: Calls, s: SessionValue, x: System)
    requires Lawful(lib) && Keyed(s)
  {
    && Exclusive(x) && BlobsParsed(lib, s, x) && SectionsParsed(lib, s, x.sections)
    && x.returned == SerialReturned(lib, s, x.sections)
    && var found := Serial(lib, s, x.sections).window;
       if x.holder.None? then x.window == found
       else StageOk(lib, s, found, x.window, x.At(x.holder.value))
  }

  lemma StagesAfter(x: System, y: System, t: nat, held: bool)
    requires Exclusive(x) && (x.holder == Some(t) || x.holder.None? || !held)
    requires forall u: nat | u != t :: y.At(u) == x.At(u)
    requires held == InsideLock(y.At(t)) && (held ==> y.holder == Some(t))
    requires !held ==> y.holder == if x.holder == Some(t) then None else x.holder
    ensures Exclusive(y)
  {
    forall u: nat
      ensures InsideLock(y.At(u)) <==> y.holder == Some(u)
    {
      assert InsideLock(x.At(u)) <==> x.holder == Some(u);
    }
  }

  /** One more section at the end of the order. */
  lemma SectionAppended(lib: Calls, s: SessionValue, sections: seq<Section>, last: Section)
    requires Lawful(lib) && Keyed(s) && SectionsParsed(lib, s, sections) && Parsed(lib, s, last.blob)
    ensures SectionsParsed(lib, s, sections + [last])
    ensures var found := Serial(lib, s, sections).window;
            var n := Sequence(lib, s, last.blob);
            var accepted := Check(found, n).Pass? && Opens(lib, s, last.blob).Ok?;
            && Serial(lib, s, sections + [last]).window
               == (match last
                   case Finished(_) => if accepted then Record(found, n) else found
                   case Interrupted(_, k) => Assigned(found, n, k))
            && SerialReturned(lib, s, sections + [last])
               == SerialReturned(lib, s, sections)
                  + if last.Finished? && accepted then [Receipt(last.blob, Opens(lib, s, last.blob).value)] else []
  {
    hide ReadEnvelope, Decrypted, AfterDecrypt, Opens;
    var all := sections + [last];
    assert all[..|all| - 1] == sections;
    var r := Serial(lib, s, sections);
    assert r == s.(window := r.window);
    DecryptIs(lib, s, r.window, last.blob);
  }

  lemma MoveKeeps(lib: Calls, s: SessionValue, x: System, y: System, t: nat)
    requires Lawful(lib) && Keyed(s) && Invariant(lib, s, x) && BlobsParsed(lib, s, y)
    requires x.holder.None? || x.holder == Some(t)
    requires y == x.(window := y.window, stages := y.stages, holder := Some(t)) && y.stages == x.stages[t := y.At(t)]
    requires InsideLock(y.At(t)) && StageOk(lib, s, Serial(lib, s, x.sections).window, y.window, y.At(t))
    ensures Invariant(lib, s, y)
  {
    hide Serial, SerialReturned, StageOk, Parsed;
    StagesAfter(x, y, t, true);
  }

  lemma LeaveKeeps(lib: Calls, s: SessionValue, x: System, t: nat, last: Section, y: System)
    requires Lawful(lib) && Keyed(s) && Invariant(lib, s, x) && BlobsParsed(lib, s, y)
    requires x.holder == Some(t) && Parsed(lib, s, last.blob)
    requires y == x.Leave(t, last).(returned := y.returned)
    requires SectionsParsed(lib, s, y.sections)
    requires y.window == Serial(lib, s, y.sections).window && y.returned == SerialReturned(lib, s, y.sections)
    ensures Invariant(lib, s, y)
  {
    hide Serial, SerialReturned, StageOk, Parsed;
    StagesAfter(x, y, t, false);
  }

  /** The statement under the lock that comes next keeps the invariant. */
  lemma AdvanceKeeps(lib: Calls, s: SessionValue, x: System, t: nat)
    requires Lawful(lib) && Keyed(s) && Invariant(lib, s, x)
    ensures Invariant(lib, s, Next(lib, s, x, Advance(t)))
  {
    hide ReadEnvelope, Opens, Serial, SerialReturned, Check;
    assert InsideLock(x.At(t)) <==> x.holder == Some(t);
    NextParsed(lib, s, x, Advance(t));
    if x.holder == Some(t) {
      var y := Next(lib, s, x, Advance(t));
      if y.holder.None? {
        var last := Finished(x.At(t).blob);
        SectionAppended(lib, s, x.sections, last);
        AllAssigned(Serial(lib, s, x.sections).window, Sequence(lib, s, last.blob));
        LeaveKeeps(lib, s, x, t, last, y);
      } else {
        MoveKeeps(lib, s, x, y, t);
      }
    }
  }

  lemma RaiseKeeps(lib: Calls, s: SessionValue, x: System, t: nat)
    requires Lawful(lib) && Keyed(s) && Invariant(lib, s, x)
    ensures Invariant(lib, s, Next(lib, s, x, Raise(t)))
  {
    hide ReadEnvelope, Opens, Serial, SerialReturned, Check;
    assert InsideLock(x.At(t)) <==> x.holder == Some(t);
    NextParsed(lib, s, x, Raise(t));
    var y := Next(lib, s, x, Raise(t));
    if x.holder == Some(t) {
      var last := Interrupted(x.At(t).blob, Assignments(x.At(t)));
      SectionAppended(lib, s, x.sections, last);
      LeaveKeeps(lib, s, x, t, last, y);
    } else {
      StagesAfter(x, y, t, false);
    }
  }

  lemma StepKeeps(lib: Calls, s: SessionValue, x: System, step: Step)
    requires Lawful(lib) && Keyed(s) && Invariant(lib, s, x)
    ensures Invariant(lib, s, Next(lib, s, x, step))
  {
    hide ReadEnvelope, Opens, Serial, SerialReturned, Check;
    var t := step.thread;
    NextParsed(lib, s, x, step);
    var y := Next(lib, s, x, step);
    assert InsideLock(x.At(t)) <==> x.holder == Some(t);
    match step
    case Call(_, _) => StagesAfter(x, y, t, InsideLock(y.At(t)));
    case Acquire(_) =>
      if x.At(t).Waiting? && x.holder.None? {
        MoveKeeps(lib, s, x, y, t);
      }
    case Advance(_) => AdvanceKeeps(lib, s, x, t);
    case Raise(_) => RaiseKeeps(lib, s, x, t);
  }

  lemma {:induction false} RunKeeps(lib: Calls, s: SessionValue, steps: seq<Step>)
    requires Lawful(lib) && Keyed(s)
    ensures BlobsParsed(lib, s, Start(s)) && Invariant(lib, s, Run(lib, s, Start(s), steps))
  {
    hide ReadEnvelope, Opens, Next, Parsed;
    assert forall t: nat :: Start(s).At(t) == Idle;
    if steps != [] {
      RunKeeps(lib, s, steps[..|steps| - 1]);
      StepKeeps(lib, s, Run(lib, s, Start(s), steps[..|steps| - 1]), steps[|steps| - 1]);
    }
  }

  // ---------- the theorems ----------

  /**
   Every interleaving, with failures anywhere, returns what its sections return when they run one after another
   in the order of the lock, and leaves the same window whenever the lock is free.
   */
  lemma InterleavingsAreSerial(lib: Calls, s: SessionValue, steps: seq<Step>)
    requires Lawful(lib) && Keyed(s)
    ensures BlobsParsed(lib, s, Start(s))
    ensures var x := Run(lib, s, Start(s), steps);
            && SectionsParsed(lib, s, x.sections)
            && x.returned == SerialReturned(lib, s, x.sections)
            && (x.holder.None? ==> x.window == Serial(lib, s, x.sections).window)
  {
    hide ReadEnvelope, Opens, Next;
    RunKeeps(lib, s, steps);
  }

  function SectionBlobs(sections: seq<Section>): (r: seq<Bytes>)
    ensures |r| == |sections| && forall i | 0 <= i < |r| :: r[i] == sections[i].blob
  {
    seq(|sections|, i requires 0 <= i < |sections| => sections[i].blob)
  }

  /** Without failures under the lock, the serial run is the sequential run of `decrypt` over the blobs in that order. */
  lemma {:induction false} FinishedSectionsAreCalls(lib: Calls, s: SessionValue, sections: seq<Section>)
    requires Lawful(lib) && Keyed(s) && SectionsParsed(lib, s, sections)
    requires forall i | 0 <= i < |sections| :: sections[i].Finished?
    ensures Serial(lib, s, sections) == AfterAll(lib, s, SectionBlobs(sections))
    ensures SerialReturned(lib, s, sections) == Receipts(lib, s, SectionBlobs(sections))
  {
    hide Decrypted, AfterDecrypt, ReadEnvelope;
    if sections != [] {
      var front := sections[..|sections| - 1];
      FinishedSectionsAreCalls(lib, s, front);
      assert SectionBlobs(sections)[..|sections| - 1] == SectionBlobs(front);
    }
  }

  /** The window cannot accept this sequence again. */
  predicate Remembers(w: Window, sequence: int) {
    sequence in w.seen || sequence <= w.highest - w.size
  }

  lemma StillRemembers(w: Window, sequence: int, k: nat, n: int)
    requires Remembers(w, n)
    ensures Remembers(Assigned(w, sequence, k), n)
  {
  }

  lemma RecordRemembers(w: Window, sequence: int)
    ensures Remembers(Record(w, sequence), sequence)
  {
  }

  /** The sequences of the returned plaintexts differ, and the window remembers each. */
  ghost predicate Once(lib: Calls, s: SessionValue, w: Window, returned: seq<Receipt>) {
    && (forall i | 0 <= i < |returned| ::
          Parsed(lib, s, returned[i].blob) && Remembers(w, Sequence(lib, s, returned[i].blob)))
    && forall i, j | 0 <= i < j < |returned| ::
         && Parsed(lib, s, returned[i].blob) && Parsed(lib, s, returned[j].blob)
         && Sequence(lib, s, returned[i].blob) != Sequence(lib, s, returned[j].blob)
  }

  lemma OnceAfter(lib: Calls, s: SessionValue, w: Window, returned: seq<Receipt>, last: Receipt, k: nat)
    requires Once(lib, s, w, returned) && Parsed(lib, s, last.blob)
    ensures Once(lib, s, Assigned(w, Sequence(lib, s, last.blob), k), returned)
    ensures Check(w, Sequence(lib, s, last.blob)).Pass? ==>
              Once(lib, s, Record(w, Sequence(lib, s, last.blob)), returned + [last])
  {
    hide ReadEnvelope, Assigned, Record;
    var n := Sequence(lib, s, last.blob);
    forall i | 0 <= i < |returned|
      ensures Remembers(Assigned(w, n, k), Sequence(lib, s, returned[i].blob))
      ensures Remembers(Record(w, n), Sequence(lib, s, returned[i].blob))
    {
      StillRemembers(w, n, k, Sequence(lib, s, returned[i].blob));
      StillRemembers(w, n, 3, Sequence(lib, s, returned[i].blob));
      AllAssigned(w, n);
    }
    RecordRemembers(w, n);
  }

  lemma {:induction false} SerialReturnsOnce(lib: Calls, s: SessionValue, sections: seq<Section>)
    requires Lawful(lib) && Keyed(s) && SectionsParsed(lib, s, sections)
    ensures Once(lib, s, Serial(lib, s, sections).window, SerialReturned(lib, s, sections))
  {
    hide ReadEnvelope, Opens, Once, Serial, SerialReturned, Parsed;
    if sections == [] {
      NothingReturned(lib, s);
    } else {
      var front, last := sections[..|sections| - 1], sections[|sections| - 1];
      FrontParsed(lib, s, sections);
      SerialReturnsOnce(lib, s, front);
      SectionAppended(lib, s, front, last);
      assert sections == front + [last];
      var returned := SerialReturned(lib, s, front);
      assert returned + [] == returned;
      var p := if Opens(lib, s, last.blob).Ok? then Opens(lib, s, last.blob).value else [];
      OnceAfter(lib, s, Serial(lib, s, front).window, returned, Receipt(last.blob, p),
                if last.Interrupted? then last.assignments else 0);
    }
  }

  lemma NothingReturned(lib: Calls, s: SessionValue)
    requires Lawful(lib) && Keyed(s)
    ensures Once(lib, s, Serial(lib, s, []).window, SerialReturned(lib, s, []))
  {
  }

  lemma FrontParsed(lib: Calls, s: SessionValue, sections: seq<Section>)
    requires SectionsParsed(lib, s, sections) && sections != []
    ensures SectionsParsed(lib, s, sections[..|sections| - 1]) && Parsed(lib, s, sections[|sections| - 1].blob)
  {
  }

  /** Under every interleaving, with failures anywhere, no sequence is returned twice. */
  lemma NoSequenceIsReturnedTwice(lib: Calls, s: SessionValue, steps: seq<Step>, i: nat, j: nat)
    requires Lawful(lib) && Keyed(s)
    requires BlobsParsed(lib, s, Start(s)) && i < j < |Run(lib, s, Start(s), steps).returned|
    ensures var x := Run(lib, s, Start(s), steps);
            && Parsed(lib, s, x.returned[i].blob) && Parsed(lib, s, x.returned[j].blob)
            && Sequence(lib, s, x.returned[i].blob) != Sequence(lib, s, x.returned[j].blob)
  {
    hide ReadEnvelope, Opens, Run, Serial, SerialReturned, Parsed;
    InterleavingsAreSerial(lib, s, steps);
    SerialReturnsOnce(lib, s, Run(lib, s, Start(s), steps).sections);
  }
}
