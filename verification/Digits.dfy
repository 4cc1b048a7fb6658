/** Hexadecimal and decimal digits: `bytes.hex`, `bytes.fromhex`, `str(int)` and their readers. */
module Digits {
  import opened Basics

  function HexDigit(n: nat): (c: CodePoint)
    requires n < 16
  {
    if n < 10 then 48 + n else 87 + n
  }

  /** A lowercase hexadecimal digit. */
  predicate IsHex(c: CodePoint) {
    48 <= c <= 57 || 97 <= c <= 102
  }

  function HexValue(c: CodePoint): (n: nat)
    requires IsHex(c)
    ensures n < 16
  {
    if c <= 57 then c - 48 else c - 87
  }

  /** `value.hex()` */
  function Hex(b: Bytes): (t: Text)
    ensures |t| == 2 * |b|
  {
    if b == [] then [] else [HexDigit(b[0] / 16), HexDigit(b[0] % 16)] + Hex(b[1..])
  }

  predicate HexText(t: Text) {
    forall i | 0 <= i < |t| :: IsHex(t[i])
  }

  /** `bytes.fromhex(t)` on text already known to be canonical lowercase hexadecimal. */
  function FromHex(t: Text): (b: Bytes)
    requires |t| % 2 == 0 && HexText(t)
    ensures |t| == 2 * |b|
  {
    if t == [] then [] else [16 * HexValue(t[0]) + HexValue(t[1])] + FromHex(t[2..])
  }

  lemma {:induction false} HexIsHexText(b: Bytes)
    ensures HexText(Hex(b))
  {
    if b != [] {
      HexIsHexText(b[1..]);
    }
  }

  lemma {:induction false} FromHexInvertsHex(b: Bytes)
    ensures HexText(Hex(b)) && FromHex(Hex(b)) == b
  {
    HexIsHexText(b);
    if b != [] {
      FromHexInvertsHex(b[1..]);
      assert Hex(b)[2..] == Hex(b[1..]);
      assert b == [b[0]] + b[1..];
    }
  }

  lemma HexDigitIs(n: nat)
    requires n < 16
    ensures HexDigit(n) == "0123456789abcdef"[n] as int
  {
  }

  /** Each byte prints as its high and its low digit. */
  lemma {:induction false} HexIs(b: Bytes, i: nat)
    requires i < |b|
    ensures Hex(b)[2 * i] == HexDigit(b[i] / 16) && Hex(b)[2 * i + 1] == HexDigit(b[i] % 16)
  {
    if i > 0 {
      HexIs(b[1..], i - 1);
    }
  }

  lemma HexPair(c: CodePoint, d: CodePoint)
    requires IsHex(c) && IsHex(d)
    ensures var n := 16 * HexValue(c) + HexValue(d); HexDigit(n / 16) == c && HexDigit(n % 16) == d
  {
  }

  lemma {:induction false} HexInvertsFromHex(t: Text)
    requires |t| % 2 == 0 && HexText(t)
    ensures Hex(FromHex(t)) == t
  {
    if t != [] {
      HexPair(t[0], t[1]);
      HexInvertsFromHex(t[2..]);
      assert t == [t[0], t[1]] + t[2..];
    }
  }

  predicate IsDigit(c: CodePoint) {
    48 <= c <= 57
  }

  /** `str(n)` */
  function PrintNat(n: nat): (t: Text)
    ensures t != []
  {
    if n < 10 then [48 + n] else PrintNat(n / 10) + [48 + n % 10]
  }

  function PrintInt(i: int): Text {
    if i < 0 then [45] + PrintNat(-i) else PrintNat(i)
  }

  /** The number that a run of digits denotes. */
  function DigitsValue(t: Text): nat
    requires forall i | 0 <= i < |t| :: IsDigit(t[i])
  {
    if t == [] then 0
    else
      assert IsDigit(t[|t| - 1]);
      var last: int := t[|t| - 1];
      10 * DigitsValue(t[..|t| - 1]) + (last - 48)
  }

  /** How many leading characters are digits. */
  function DigitRun(t: Text): (n: nat)
    ensures n <= |t|
    ensures forall i | 0 <= i < n :: IsDigit(t[i])
    ensures n < |t| ==> !IsDigit(t[n])
  {
    if t == [] || !IsDigit(t[0]) then 0 else 1 + DigitRun(t[1..])
  }

  lemma {:induction false} PrintNatDigits(n: nat)
    ensures var t := PrintNat(n);
            && (forall i | 0 <= i < |t| :: IsDigit(t[i]))
            && DigitsValue(t) == n
            && (n > 0 ==> t[0] != 48)
            && (n == 0 ==> t == [48])
  {
    if n >= 10 {
      PrintNatDigits(n / 10);
      assert PrintNat(n)[..|PrintNat(n)| - 1] == PrintNat(n / 10);
    }
  }

  /** A digit run followed by anything but a digit is found whole. */
  lemma {:induction false} DigitRunIs(t: Text, rest: Text)
    requires forall i | 0 <= i < |t| :: IsDigit(t[i])
    requires rest == [] || !IsDigit(rest[0])
    ensures DigitRun(t + rest) == |t|
  {
    if t == [] {
      assert t + rest == rest;
    } else {
      assert (t + rest)[1..] == t[1..] + rest;
      DigitRunIs(t[1..], rest);
    }
  }

  function Pow10(k: nat): nat {
    if k == 0 then 1 else 10 * Pow10(k - 1)
  }

  /** A number below `10^k` has at most `k` digits. */
  lemma {:induction false} PrintNatLength(n: nat, k: nat)
    requires k > 0 && n < Pow10(k)
    ensures |PrintNat(n)| <= k
  {
    if n >= 10 {
      assert k > 1 by {
        assert Pow10(1) == 10;
      }
      PrintNatLength(n / 10, k - 1);
    }
  }

  function Hex4(n: nat): (t: Text)
    requires n < 0x1_0000
    ensures |t| == 4 && HexText(t)
  {
    [HexDigit(n / 4096), HexDigit(n / 256 % 16), HexDigit(n / 16 % 16), HexDigit(n % 16)]
  }

  /** A hexadecimal digit of either case, as a JSON escape may use. */
  function AnyHexValue(c: CodePoint): (r: Option<nat>)
    ensures r.Some? ==> r.value < 16
  {
    if IsHex(c) then Some(HexValue(c)) else if 65 <= c <= 70 then Some(c - 55) else None
  }

  /** The four hexadecimal digits at the start of `t`. */
  function ReadHex4(t: Text): (r: Option<nat>)
    ensures r.Some? ==> |t| >= 4 && r.value < 0x1_0000
  {
    if |t| < 4 then None
    else
      var a :- AnyHexValue(t[0]);
      var b :- AnyHexValue(t[1]);
      var c :- AnyHexValue(t[2]);
      var d :- AnyHexValue(t[3]);
      Some(4096 * a + 256 * b + 16 * c + d)
  }

  lemma HexDigitRead(n: nat)
    requires n < 16
    ensures AnyHexValue(HexDigit(n)) == Some(n)
  {
  }

  lemma FourNibbles(n: nat)
    requires n < 0x1_0000
    ensures n / 4096 < 16
    ensures 4096 * (n / 4096) + 256 * (n / 256 % 16) + 16 * (n / 16 % 16) + n % 16 == n
  {
  }

  lemma ReadHex4InvertsHex4(n: nat, rest: Text)
    requires n < 0x1_0000
    ensures ReadHex4(Hex4(n) + rest) == Some(n)
  {
    FourNibbles(n);
    HexDigitRead(n / 4096);
    HexDigitRead(n / 256 % 16);
    HexDigitRead(n / 16 % 16);
    HexDigitRead(n % 16);
  }
}
