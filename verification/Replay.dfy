/**
 The replay window. It keeps only the recent part of what it accepted, and this module proves that the
 pruned state decides every sequence as the full history would.
 */
module Replay {
  import opened Basics
  import opened Protocol

  /** The fields of a ReplayWindow. */
  datatype Window = Window(size: nat, highest: int, seen: set<int>)

  /** A window that has accepted nothing. */
  function Fresh(size: nat): Window {
    Window(size, -1, {})
  }

  /** `_check_unlocked` */
  function Check(w: Window, sequence: int): Outcome {
    if !ValidSequence(sequence) then Fail(ValueError)
    else if sequence in w.seen then Fail(ReplayDetectedError)
    else if sequence <= w.highest - w.size then Fail(ReplayDetectedError)
    else Pass
  }

  /** `_record_unlocked` */
  function Record(w: Window, sequence: int): Window {
    var seen := w.seen + {sequence};
    var highest := if sequence > w.highest then sequence else w.highest;
    Window(w.size, highest, set n | n in seen && n > highest - w.size)
  }

  // ---------- the unpruned history ----------

  function Highest(history: seq<int>): int {
    if history == [] then -1
    else
      var h := Highest(history[..|history| - 1]);
      var last := history[|history| - 1];
      if last > h then last else h
  }

  /** What a window without pruning would decide. */
  predicate HistoryAccepts(history: seq<int>, size: nat, sequence: int) {
    ValidSequence(sequence) && sequence !in history && sequence > Highest(history) - size
  }

  predicate Distinct(history: seq<int>) {
    forall i, j | 0 <= i < j < |history| :: history[i] != history[j]
  }

  /** The window is the recent part of the history. */
  ghost predicate Refines(w: Window, history: seq<int>) {
    && w.highest == Highest(history)
    && w.seen == (set n | n in history && n > w.highest - w.size)
    && Distinct(history)
    && forall n | n in history :: ValidSequence(n)
  }

  lemma {:induction false} HighestBounds(history: seq<int>)
    ensures forall n | n in history :: n <= Highest(history)
    ensures history != [] ==> -1 <= Highest(history)
    ensures Highest(history) == -1 || Highest(history) in history
  {
    if history != [] {
      var front := history[..|history| - 1];
      HighestBounds(front);
      assert forall n | n in history :: n in front || n == history[|history| - 1];
    }
  }

  /** The pruned window decides as the full history does. */
  lemma CheckAgreesWithHistory(w: Window, history: seq<int>, sequence: int)
    requires Refines(w, history)
    ensures Check(w, sequence).Pass? <==> HistoryAccepts(history, w.size, sequence)
    ensures Check(w, sequence).Fail? ==>
              Check(w, sequence).error == if 0 <= sequence < 0x1_0000_0000_0000_0000 then ReplayDetectedError else ValueError
  {
  }

  /** Recording an accepted sequence keeps the window and the history together. */
  lemma RecordRefines(w: Window, history: seq<int>, sequence: int)
    requires Refines(w, history) && HistoryAccepts(history, w.size, sequence)
    ensures Refines(Record(w, sequence), history + [sequence])
    ensures w.highest <= Record(w, sequence).highest
  {
    var h := history + [sequence];
    assert h[..|history|] == history;
    var v := Record(w, sequence);
    assert forall n :: n in h <==> n in history || n == sequence;
    assert v.seen == (set n | n in h && n > v.highest - w.size);
  }

  /** A window holds at most `size` sequences. */
  lemma SeenIsSmall(w: Window, history: seq<int>)
    requires Refines(w, history)
    ensures |w.seen| <= w.size
  {
    HighestBounds(history);
    IntervalSize(w.seen, w.highest, w.size);
  }

  lemma {:induction false} IntervalSize(s: set<int>, top: int, size: nat)
    requires forall n | n in s :: top - size < n <= top
    ensures |s| <= size
    decreases size
  {
    if size == 0 {
      assert forall n :: n in s <==> n in {};
      assert s == {};
    } else {
      IntervalSize(s - {top}, top - 1, size - 1);
      assert |s| <= |s - {top}| + 1;
    }
  }

  // ---------- runs ----------

  /** One delivery that reaches the window: its sequence, and whether the operation returns normally. */
  datatype Attempt = Attempt(sequence: int, authentic: bool)

  predicate Accepts(w: Window, a: Attempt) {
    Check(w, a.sequence).Pass? && a.authentic
  }

  function Step(w: Window, a: Attempt): Window {
    if Accepts(w, a) then Record(w, a.sequence) else w
  }

  function After(w: Window, attempts: seq<Attempt>): Window {
    if attempts == [] then w
    else Step(After(w, attempts[..|attempts| - 1]), attempts[|attempts| - 1])
  }

  /** The attempts of a run that are accepted, in order. */
  function Kept(w: Window, attempts: seq<Attempt>): seq<Attempt> {
    if attempts == [] then []
    else
      var front := attempts[..|attempts| - 1];
      var last := attempts[|attempts| - 1];
      Kept(w, front) + if Accepts(After(w, front), last) then [last] else []
  }

  function Sequences(attempts: seq<Attempt>): (r: seq<int>)
    ensures |r| == |attempts|
    ensures forall i | 0 <= i < |r| :: r[i] == attempts[i].sequence
  {
    if attempts == [] then [] else Sequences(attempts[..|attempts| - 1]) + [attempts[|attempts| - 1].sequence]
  }

  function Accepted(w: Window, attempts: seq<Attempt>): seq<int> {
    Sequences(Kept(w, attempts))
  }

  /**
   After any run the window is the recent part of everything accepted, it is small, its highest sequence
   is the maximum, and no sequence was accepted twice although old ones are forgotten.
   */
  lemma {:induction false} RunRefinesHistory(size: nat, attempts: seq<Attempt>)
    ensures var w := After(Fresh(size), attempts);
            var accepted := Accepted(Fresh(size), attempts);
            && w.size == size
            && Refines(w, accepted)
            && Distinct(accepted)
            && |w.seen| <= size
            && w.highest == Highest(accepted)
  {
    var w := After(Fresh(size), attempts);
    var accepted := Accepted(Fresh(size), attempts);
    if attempts != [] {
      var front := attempts[..|attempts| - 1];
      var last := attempts[|attempts| - 1];
      RunRefinesHistory(size, front);
      var v, before := After(Fresh(size), front), Kept(Fresh(size), front);
      if Accepts(v, last) {
        assert (before + [last])[..|before|] == before;
        assert accepted == Sequences(before) + [last.sequence];
        CheckAgreesWithHistory(v, Sequences(before), last.sequence);
        RecordRefines(v, Sequences(before), last.sequence);
      } else {
        assert before + [] == before;
      }
    }
    SeenIsSmall(w, accepted);
  }

  /** The highest sequence never decreases along a run. */
  lemma {:induction false} HighestNeverDecreases(w: Window, attempts: seq<Attempt>, more: seq<Attempt>)
    ensures After(w, attempts).highest <= After(w, attempts + more).highest
  {
    if more == [] {
      assert attempts + more == attempts;
    } else {
      var all := attempts + more;
      assert all[..|all| - 1] == attempts + more[..|more| - 1];
      HighestNeverDecreases(w, attempts, more[..|more| - 1]);
    }
  }

  /** Deleting every rejected attempt changes neither the final window nor what is accepted. */
  lemma {:induction false} RejectedAttemptsDoNotMatter(w: Window, attempts: seq<Attempt>)
    ensures After(w, Kept(w, attempts)) == After(w, attempts)
    ensures Kept(w, Kept(w, attempts)) == Kept(w, attempts)
  {
    if attempts != [] {
      var front := attempts[..|attempts| - 1];
      var last := attempts[|attempts| - 1];
      RejectedAttemptsDoNotMatter(w, front);
      var before := Kept(w, front);
      if Accepts(After(w, front), last) {
        assert (before + [last])[..|before|] == before;
      } else {
        assert before + [] == before;
      }
    }
  }

  // ---------- exactly-once delivery ----------

  /** Every delivery is authentic, as when the network only drops, duplicates and reorders. */
  function Deliveries(sequences: seq<int>): (r: seq<Attempt>)
    ensures |r| == |sequences|
    ensures forall i | 0 <= i < |r| :: r[i] == Attempt(sequences[i], true)
  {
    if sequences == [] then []
    else Deliveries(sequences[..|sequences| - 1]) + [Attempt(sequences[|sequences| - 1], true)]
  }

  function AcceptedOf(size: nat, sequences: seq<int>): seq<int> {
    Accepted(Fresh(size), Deliveries(sequences))
  }

  predicate AllValid(sequences: seq<int>) {
    forall i | 0 <= i < |sequences| :: ValidSequence(sequences[i])
  }

  /** Position `i` is the first delivery of `s`, and nothing `size` or more beyond `s` came before it. */
  predicate TimelyFirst(size: nat, sequences: seq<int>, s: int, i: nat) {
    && i < |sequences| && sequences[i] == s
    && s !in sequences[..i]
    && forall k | 0 <= k < i :: sequences[k] < s + size
  }

  lemma AcceptedStep(size: nat, sequences: seq<int>)
    requires sequences != [] && AllValid(sequences)
    ensures var front := sequences[..|sequences| - 1];
            var last := sequences[|sequences| - 1];
            var before := AcceptedOf(size, front);
            AcceptedOf(size, sequences)
            == if last !in before && last > Highest(before) - size then before + [last] else before
  {
    var front := sequences[..|sequences| - 1];
    var last := sequences[|sequences| - 1];
    var d := Deliveries(sequences);
    assert d[..|d| - 1] == Deliveries(front);
    RunRefinesHistory(size, Deliveries(front));
    var kept := Kept(Fresh(size), Deliveries(front));
    CheckAgreesWithHistory(After(Fresh(size), Deliveries(front)), Sequences(kept), last);
    assert (kept + [d[|d| - 1]])[..|kept|] == kept;
    assert kept + [] == kept;
  }

  /** The highest accepted sequence is the highest delivered: a new maximum is always accepted. */
  lemma {:induction false} HighestAcceptedIsHighestDelivered(size: nat, sequences: seq<int>)
    requires size > 0 && AllValid(sequences)
    ensures Highest(AcceptedOf(size, sequences)) == Highest(sequences)
    ensures forall n | n in AcceptedOf(size, sequences) :: n in sequences
  {
    if sequences != [] {
      var front := sequences[..|sequences| - 1];
      var last := sequences[|sequences| - 1];
      var before := AcceptedOf(size, front);
      HighestAcceptedIsHighestDelivered(size, front);
      AcceptedStep(size, sequences);
      HighestBounds(before);
      assert (before + [last])[..|before|] == before;
    }
  }

  predicate Timely(size: nat, sequences: seq<int>, s: int) {
    exists i | 0 <= i < |sequences| :: TimelyFirst(size, sequences, s, i)
  }

  lemma TimelyOfFront(size: nat, sequences: seq<int>, s: int)
    requires sequences != []
    ensures var n := |sequences| - 1;
            Timely(size, sequences, s) <==> Timely(size, sequences[..n], s) || TimelyFirst(size, sequences, s, n)
  {
    var n := |sequences| - 1;
    var front := sequences[..n];
    forall i: nat | i < n
      ensures TimelyFirst(size, front, s, i) <==> TimelyFirst(size, sequences, s, i)
    {
      assert front[..i] == sequences[..i];
    }
  }

  lemma TimelyAtLast(size: nat, sequences: seq<int>, s: int)
    requires size > 0 && sequences != [] && ValidSequence(s)
    ensures var n := |sequences| - 1;
            TimelyFirst(size, sequences, s, n) <==>
            sequences[n] == s && s !in sequences[..n] && s > Highest(sequences[..n]) - size
  {
    var n := |sequences| - 1;
    var front := sequences[..n];
    HighestBounds(front);
    if s <= Highest(front) - size {
      var k :| 0 <= k < n && front[k] == Highest(front);
      assert sequences[k] >= s + size;
    } else {
      assert forall k | 0 <= k < n :: sequences[k] in front;
    }
  }

  /** Once delivered, a packet is either accepted or stale, and stays so. */
  lemma {:induction false} LateCopyIsRejected(size: nat, sequences: seq<int>, s: int)
    requires size > 0 && AllValid(sequences) && s in sequences
    ensures s in AcceptedOf(size, sequences) || s <= Highest(AcceptedOf(size, sequences)) - size
  {
    var n := |sequences| - 1;
    var front := sequences[..n];
    AcceptedStep(size, sequences);
    var before := AcceptedOf(size, front);
    assert (before + [sequences[n]])[..|before|] == before;
    if s != sequences[n] {
      assert s in front;
      LateCopyIsRejected(size, front, s);
    }
  }

  /**
   A packet is accepted exactly when its first delivery comes before it has been overtaken by a packet
   `size` or more positions ahead; then it is accepted once, and otherwise never.
   */
  lemma {:induction false} AcceptedExactlyWhenTimely(size: nat, sequences: seq<int>, s: int)
    requires size > 0 && AllValid(sequences)
    ensures s in AcceptedOf(size, sequences) <==> Timely(size, sequences, s)
    ensures Distinct(AcceptedOf(size, sequences))
  {
    RunRefinesHistory(size, Deliveries(sequences));
    if sequences != [] {
      var front := sequences[..|sequences| - 1];
      AcceptedExactlyWhenTimely(size, front, s);
      AcceptedStep(size, sequences);
      HighestAcceptedIsHighestDelivered(size, front);
      TimelyOfFront(size, sequences, s);
      if sequences[|sequences| - 1] == s {
        TimelyAtLast(size, sequences, s);
        if s in front {
          LateCopyIsRejected(size, front, s);
        }
      }
    }
  }

  /** With every packet delivered and none overtaken too far, each of `0..n` is accepted exactly once. */
  lemma ExactlyOnce(size: nat, sequences: seq<int>, n: nat)
    requires size > 0 && AllValid(sequences)
    requires forall s | 0 <= s < n :: Timely(size, sequences, s)
    ensures forall s | 0 <= s < n :: multiset(AcceptedOf(size, sequences))[s] == 1
  {
    forall s | 0 <= s < n
      ensures multiset(AcceptedOf(size, sequences))[s] == 1
    {
      AcceptedExactlyWhenTimely(size, sequences, s);
      DistinctOccursOnce(AcceptedOf(size, sequences), s);
    }
  }

  lemma {:induction false} DistinctOccursOnce(h: seq<int>, s: int)
    requires Distinct(h) && s in h
    ensures multiset(h)[s] == 1
  {
    var i :| 0 <= i < |h| && h[i] == s;
    assert h == h[..i] + [s] + h[i + 1..];
    assert s !in h[..i] && s !in h[i + 1..];
    assert multiset(h) == multiset(h[..i]) + multiset{s} + multiset(h[i + 1..]);
  }

  // ---------- the class ----------

  class ReplayWindow {
    var windowSize: nat
    var highestSeen: int
    var seen: set<int>
    ghost var accepted: seq<int> // every sequence ever accepted, in order

    function State(): Window
      reads this
    {
      Window(windowSize, highestSeen, seen)
    }

    ghost predicate Valid()
      reads this
    {
      windowSize > 0 && Refines(State(), accepted)
    }

    /** `ReplayWindow(window_size)`, for a size that `__post_init__` accepts. */
    constructor (size: nat)
      requires size > 0
      ensures Valid() && State() == Fresh(size) && accepted == []
    {
      windowSize := size;
      highestSeen := -1;
      seen := {};
      accepted := [];
    }

    /** `_record_unlocked` */
    method RecordUnlocked(sequence: int)
      modifies this
      ensures State() == Record(old(State()), sequence)
      ensures accepted == old(accepted) + [sequence]
    {
      seen := seen + {sequence};
      if sequence > highestSeen {
        highestSeen := sequence;
      }
      var floor := highestSeen - windowSize;
      seen := set number | number in seen && number > floor;
      accepted := accepted + [sequence];
    }

    /** Accepts exactly what the full history would, and changes nothing otherwise. */
    method Observe(sequence: int) returns (r: Outcome)
      requires Valid()
      modifies this
      ensures Valid() && windowSize == old(windowSize)
      ensures r.Pass? <==> HistoryAccepts(old(accepted), windowSize, sequence)
      ensures r == Check(old(State()), sequence)
      ensures accepted == if r.Pass? then old(accepted) + [sequence] else old(accepted)
      ensures State() == if r.Pass? then Record(old(State()), sequence) else old(State())
    {
      CheckAgreesWithHistory(State(), accepted, sequence);
      r := Check(State(), sequence);
      if r.Pass? {
        RecordRefines(State(), accepted, sequence);
        RecordUnlocked(sequence);
      }
    }

    /**
     The operation may read anything but this window: the lock is re-entrant and would not keep it out. State
     is recorded only after the operation has succeeded.
     */
    method AuthenticateAndRecord<T>(sequence: int, operation: () ~> Result<T>) returns (r: Result<T>)
      requires Valid()
      requires operation.requires() && this !in operation.reads()
      modifies this
      ensures Valid() && windowSize == old(windowSize)
      ensures r.Ok? <==> HistoryAccepts(old(accepted), windowSize, sequence) && old(operation()).Ok?
      ensures r == match Check(old(State()), sequence) case Fail(e) => Err(e) case Pass => old(operation())
      ensures accepted == if r.Ok? then old(accepted) + [sequence] else old(accepted)
      ensures State() == Step(old(State()), Attempt(sequence, old(operation()).Ok?))
    {
      CheckAgreesWithHistory(State(), accepted, sequence);
      match Check(State(), sequence)
      case Fail(e) => r := Err(e);
      case Pass =>
        r := operation();
        if r.Ok? {
          RecordRefines(State(), accepted, sequence);
          RecordUnlocked(sequence);
        }
    }
  }
}
