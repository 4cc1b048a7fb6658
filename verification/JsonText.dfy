/** The exact text of printed objects: member by member, in the order of the keys, without spaces. */
module JsonText {
  import opened Basics
  import opened Digits
  import opened Json
  import opened JsonBytes
  import opened JsonOrder
  import opened JsonRoundTrip

  /** `"name":printed` */
  function Member(name: string, printed: Text): Text {
    ['"' as int] + Lit(name) + ['"' as int, ':' as int] + printed
  }

  /** Members with commas between them. */
  function Commas(members: seq<Text>): Text {
    if members == [] then []
    else if |members| == 1 then members[0]
    else members[0] + ([',' as int] + Commas(members[1..]))
  }

  /** An object of these members, in this order. */
  function Object(members: seq<Text>): Text {
    ['{' as int] + (Commas(members) + ['}' as int])
  }

  /** The member that an entry prints as. */
  ghost predicate Shows(v: Value, k: Key, member: Text, ascii: bool) {
    && v.Dict? && k in v.entries && Dumps(v.entries[k], ascii).Some?
    && member == Quoted(KeyText(k), ascii) + ([COLON] + Dumps(v.entries[k], ascii).value)
  }

  ghost predicate ShowsAll(v: Value, keys: seq<Key>, members: seq<Text>, ascii: bool) {
    |members| == |keys| && forall i | 0 <= i < |keys| :: Shows(v, keys[i], members[i], ascii)
  }

  lemma {:induction false} MembersText(v: Value, keys: seq<Key>, members: seq<Text>, ascii: bool)
    requires v.Dict? && (forall k | k in keys :: k in v.entries) && ShowsAll(v, keys, members, ascii)
    ensures DumpMembers(v, keys, ascii) == Some(Commas(members))
  {
    hide Quoted;
    if keys != [] {
      assert keys[0] in keys;
      MembersText(v, keys[1..], members[1..], ascii);
    }
  }

  /** An object prints its members in the order of its sorted keys. */
  lemma ShowsObject(v: Value, keys: seq<Key>, members: seq<Text>, ascii: bool)
    requires v.Dict? && Sorted(v.entries.Keys, keys) && (forall k | k in v.entries :: k.StrKey?)
    requires ShowsAll(v, keys, members, ascii)
    ensures Dumps(v, ascii) == Some(Object(members))
  {
    StringKeysComparable(v.entries.Keys);
    SortKeysIs(v.entries.Keys, keys);
    MembersText(v, keys, members, ascii);
  }

  lemma {:induction false} ItemsText(v: Value, vs: seq<Value>, items: seq<Text>, ascii: bool)
    requires (v.List? || v.Tuple?) && (forall x | x in vs :: x in v.items) && |items| == |vs|
    requires forall i | 0 <= i < |vs| :: Dumps(vs[i], ascii) == Some(items[i])
    ensures DumpItems(v, vs, ascii) == Some(Commas(items))
  {
    if vs != [] {
      assert vs[0] in vs;
      ItemsText(v, vs[1..], items[1..], ascii);
    }
  }

  /** A list or a tuple prints its items in their order. */
  lemma ListShows(v: Value, items: seq<Text>, ascii: bool)
    requires (v.List? || v.Tuple?) && |items| == |v.items|
    requires forall i | 0 <= i < |items| :: Dumps(v.items[i], ascii) == Some(items[i])
    ensures Dumps(v, ascii) == Some(['[' as int] + (Commas(items) + [']' as int]))
  {
    ItemsText(v, v.items, items, ascii);
  }

  lemma LiteralsShow(ascii: bool)
    ensures Dumps(Null, ascii) == Some(['n' as int, 'u' as int, 'l' as int, 'l' as int])
    ensures Dumps(Bool(true), ascii) == Some(['t' as int, 'r' as int, 'u' as int, 'e' as int])
    ensures Dumps(Bool(false), ascii) == Some(['f' as int, 'a' as int, 'l' as int, 's' as int, 'e' as int])
  {
    assert Lit("null") == ['n' as int, 'u' as int, 'l' as int, 'l' as int];
    assert Lit("true") == ['t' as int, 'r' as int, 'u' as int, 'e' as int];
    assert Lit("false") == ['f' as int, 'a' as int, 'l' as int, 's' as int, 'e' as int];
  }

  lemma PlainMember(name: string, printed: Text, ascii: bool)
    requires PlainText(Lit(name))
    ensures Quoted(Lit(name), ascii) + ([COLON] + printed) == Member(name, printed)
  {
    PlainEscape(Lit(name), ascii);
  }

  /** A text between quotes. */
  function QuotedText(t: Text, ascii: bool): Text {
    ['"' as int] + (Escape(t, ascii) + ['"' as int])
  }

  lemma ShowsText(v: Value, name: string, t: Text, ascii: bool)
    requires v.Dict? && PlainText(Lit(name)) && StrKey(Lit(name)) in v.entries && v.entries[StrKey(Lit(name))] == Str(t)
    ensures Shows(v, StrKey(Lit(name)), Member(name, QuotedText(t, ascii)), ascii)
  {
    PlainMember(name, QuotedText(t, ascii), ascii);
  }

  lemma ShowsNumber(v: Value, name: string, n: int, ascii: bool)
    requires v.Dict? && PlainText(Lit(name)) && StrKey(Lit(name)) in v.entries && v.entries[StrKey(Lit(name))] == Int(n)
    ensures Shows(v, StrKey(Lit(name)), Member(name, PrintInt(n)), ascii)
  {
    PlainMember(name, PrintInt(n), ascii);
  }

  // ---------- the order of names ----------

  lemma {:induction false} FirstDifference(a: Text, b: Text, n: nat)
    requires n < |a| && n < |b| && a[..n] == b[..n] && a[n] < b[n]
    ensures TextLe(a, b)
  {
    if n > 0 {
      assert a[0] == a[..n][0] == b[..n][0] == b[0];
      assert a[1..][..n - 1] == a[..n][1..] == b[..n][1..] == b[1..][..n - 1];
      FirstDifference(a[1..], b[1..], n - 1);
    }
  }

  predicate Ascends(keys: seq<Key>) {
    forall i | 0 <= i < |keys| - 1 :: KeyLe(keys[i], keys[i + 1]) && keys[i] != keys[i + 1]
  }

  lemma {:induction false} AscendingPair(keys: seq<Key>, i: nat, j: nat)
    requires Ascends(keys) && i < j < |keys|
    ensures KeyLe(keys[i], keys[j]) && keys[i] != keys[j]
    decreases j
  {
    if i < j - 1 {
      AscendingPair(keys, i, j - 1);
      KeyLeTransitive(keys[i], keys[j - 1], keys[j]);
      if keys[i] == keys[j] {
        KeyLeAntisymmetric(keys[j - 1], keys[j]);
      }
    }
  }

  lemma AscendingIsSorted(keys: seq<Key>, all: set<Key>)
    requires Ascends(keys) && forall k :: k in keys <==> k in all
    ensures Sorted(all, keys)
  {
    forall i, j | 0 <= i < j < |keys|
      ensures keys[i] != keys[j] && KeyLe(keys[i], keys[j])
    {
      AscendingPair(keys, i, j);
    }
  }

  // ---------- which characters printed text has ----------

  predicate Visible(t: Text) {
    forall i | 0 <= i < |t| :: 0x20 <= t[i] < 0x7F
  }

  /** Printed with ASCII escapes, every text is visible ASCII. */
  lemma {:induction false} EscapedIsVisible(t: Text)
    ensures Visible(Escape(t, true))
  {
    if t != [] {
      EscapedIsVisible(t[1..]);
      EscapedCharacterIsVisible(t[0]);
    }
  }

  lemma EscapedCharacterIsVisible(c: CodePoint)
    ensures Visible(EscapeChar(c, true))
  {
  }

  /** Text without quotes, backslashes and control characters, which raw printing leaves as it is. */
  predicate Unescaped(t: Text) {
    forall i | 0 <= i < |t| :: 0x20 <= t[i] && t[i] != '"' as int && t[i] != '\\' as int
  }

  lemma {:induction false} RawIsUnescaped(t: Text)
    requires Unescaped(t)
    ensures Escape(t, false) == t
  {
    if t != [] {
      RawIsUnescaped(t[1..]);
    }
  }

  lemma Nibbles(high: nat, low: nat)
    requires high < 256 && low < 256
    ensures var n := 256 * high + low;
            n / 4096 == high / 16 && n / 256 % 16 == high % 16 && n / 16 % 16 == low / 16 && n % 16 == low % 16
  {
    var n := 256 * high + low;
    var a, b, c, d := high / 16, high % 16, low / 16, low % 16;
    assert high == 16 * a + b && low == 16 * c + d;
    QuotientIs(n, 4096, a, 256 * b + low);
    QuotientIs(n, 256, high, low);
    QuotientIs(n, 16, 256 * a + 16 * b + c, d);
    QuotientIs(256 * a + 16 * b + c, 16, 16 * a + b, c);
  }

  lemma QuotientIs(n: nat, d: nat, q: nat, r: nat)
    requires d in {16, 256, 4096} && n == d * q + r && r < d
    ensures n / d == q && n % d == r
  {
  }

  /** The four digits of an escape are those of its two bytes. */
  lemma Hex4Is(high: Byte, low: Byte)
    ensures Hex4(256 * high + low) == Hex([high, low])
  {
    hide HexDigit;
    Nibbles(high, low);
    HexIs([high, low], 0);
    HexIs([high, low], 1);
  }

  /** The escapes of section 7 of RFC 8259 that have a letter of their own, with either setting. */
  lemma ShortEscapes(ascii: bool)
    ensures EscapeChar('"' as int, ascii) == ['\\' as int, '"' as int]
    ensures EscapeChar('\\' as int, ascii) == ['\\' as int, '\\' as int]
    ensures EscapeChar(8, ascii) == ['\\' as int, 'b' as int] && EscapeChar(9, ascii) == ['\\' as int, 't' as int]
    ensures EscapeChar(10, ascii) == ['\\' as int, 'n' as int] && EscapeChar(12, ascii) == ['\\' as int, 'f' as int]
    ensures EscapeChar(13, ascii) == ['\\' as int, 'r' as int]
  {
  }

  /**
   Every other character: four digits for a control character and, with ASCII escapes, for DEL and what lies beyond
   ASCII, a surrogate pair from 65536 on; the rest, and raw text beyond controls, as it is.
   */
  lemma OtherEscapes(c: CodePoint, ascii: bool)
    requires c != '"' as int && c != '\\' as int && !(8 <= c <= 10) && c != 12 && c != 13
    ensures c < 0x20 || (ascii && 0x7F <= c < 0x1_0000) ==> EscapeChar(c, ascii) == ['\\' as int, 'u' as int] + Hex4(c)
    ensures 0x20 <= c < 0x7F || (!ascii && 0x7F <= c) ==> EscapeChar(c, ascii) == [c]
    ensures ascii && 0x1_0000 <= c ==>
              exists high, low | 0xD800 <= high < 0xDC00 <= low < 0xE000 ::
                && c == 0x1_0000 + 1024 * (high - 0xD800) + (low - 0xDC00)
                && EscapeChar(c, ascii) == ['\\' as int, 'u' as int] + Hex4(high) + (['\\' as int, 'u' as int] + Hex4(low))
  {
    hide Hex4;
    if ascii && 0x1_0000 <= c {
      var high, low := 0xD800 + (c - 0x1_0000) / 1024, 0xDC00 + c % 1024;
      SurrogateHalves(c);
      assert c == 0x1_0000 + 1024 * (high - 0xD800) + (low - 0xDC00);
      assert EscapeChar(c, ascii) == ['\\' as int, 'u' as int] + Hex4(high) + (['\\' as int, 'u' as int] + Hex4(low));
    }
  }
}
