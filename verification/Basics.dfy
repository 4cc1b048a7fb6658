/** Types shared by every layer: bytes, text, results and the exception classes. */
module Basics {
  type Byte = x: int | 0 <= x < 256
  type Bytes = seq<Byte>

  /** A Python string is a sequence of code points; lone surrogates are possible. */
  type CodePoint = x: int | 0 <= x < 0x11_0000
  type Text = seq<CodePoint>

  datatype Option<+T> = None | Some(value: T) {
    predicate IsFailure() { None? }

    function PropagateFailure<U>(): Option<U>
      requires None?
    {
      None
    }

    function Extract(): T
      requires Some?
    {
      value
    }
  }

  /** One constructor per exception class that the modelled code raises. */
  datatype Error =
    | EnvelopeError
    | HandshakeError
    | StoreError
    | PersistenceError
    | OsError
    | TypeError
    | ValueError
    | InvalidSignatureError
    | KeyConfirmationError
    | ReplayDetectedError
    | AlreadyCompleted // RuntimeError of a second complete()
    | OverflowError
    | InvalidTag

  datatype Result<+T> = Ok(value: T) | Err(error: Error) {
    predicate IsFailure() { Err? }

    function PropagateFailure<U>(): Result<U>
      requires Err?
    {
      Err(error)
    }

    function Extract(): T
      requires Ok?
    {
      value
    }
  }

  datatype Outcome = Pass | Fail(error: Error) {
    predicate IsFailure() { Fail? }

    function PropagateFailure<U>(): Result<U>
      requires Fail?
    {
      Err(error)
    }
  }

  /** `if not condition: raise error` */
  function Need(condition: bool, error: Error): Outcome {
    if condition then Pass else Fail(error)
  }

  /** A string literal as Python text. */
  function Lit(s: string): Text {
    seq(|s|, i requires 0 <= i < |s| => s[i] as int)
  }

  /** A bytes literal; the literals of this project are ASCII. */
  function Ascii(s: string): Bytes {
    seq(|s|, i requires 0 <= i < |s| => (s[i] as int) % 256)
  }

  predicate Surrogate(c: CodePoint) {
    0xD800 <= c <= 0xDFFF
  }

  /** Text that `str.encode("utf-8")` accepts. */
  predicate ScalarText(t: Text) {
    forall i | 0 <= i < |t| :: !Surrogate(t[i])
  }

  /** `value.to_bytes(width, "big")` for a value that fits. */
  function BigEndian(value: nat, width: nat): (b: Bytes)
    ensures |b| == width
  {
    if width == 0 then [] else BigEndian(value / 256, width - 1) + [value % 256]
  }

  function FromBigEndian(b: Bytes): nat {
    if b == [] then 0 else 256 * FromBigEndian(b[..|b| - 1]) + b[|b| - 1]
  }

  function Pow256(width: nat): (r: nat)
    ensures r > 0
  {
    if width == 0 then 1 else 256 * Pow256(width - 1)
  }

  /** Reading a big-endian number back returns it, whenever it fits its width. */
  lemma {:induction false} BigEndianRoundTrip(value: nat, width: nat)
    requires value < Pow256(width)
    ensures FromBigEndian(BigEndian(value, width)) == value
  {
    if width > 0 {
      var b := BigEndian(value, width);
      assert b[..|b| - 1] == BigEndian(value / 256, width - 1);
      BigEndianRoundTrip(value / 256, width - 1);
    }
  }

  lemma FourBytes()
    ensures Pow256(4) == 0x1_0000_0000
  {
    assert Pow256(2) == 65536;
    assert Pow256(3) == 16777216;
  }

  lemma EightBytes()
    ensures Pow256(8) == 0x1_0000_0000_0000_0000
  {
    FourBytes();
    assert Pow256(5) == 0x100_0000_0000;
    assert Pow256(6) == 0x1_0000_0000_0000;
    assert Pow256(7) == 0x100_0000_0000_0000;
  }
}
