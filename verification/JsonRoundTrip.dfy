/**
 Reading printed JSON back, for both settings of `ensure_ascii`. A JSON-normal value returns as it was; any
 other printable value returns with its keys as text and its tuples as lists.
 */
module JsonRoundTrip {
  import opened Basics
  import opened Digits
  import opened Json

  /** What may follow a complete value: nothing, a separator, a closing bracket or whitespace. */
  predicate Delimited(s: Text) {
    s == [] || s[0] == COMMA || s[0] == RBRACKET || s[0] == RBRACE || Whitespace(s[0])
  }

  // ---------- strings ----------

  lemma UnicodeEscape(n: nat, s: Text)
    requires n < 0x1_0000 && !(0xD800 <= n < 0xDC00)
    ensures ParseEscape([LOWER_U] + Hex4(n) + s) == Some(Parsed(n, s))
  {
    var e := [LOWER_U] + Hex4(n) + s;
    assert e[1..] == Hex4(n) + s;
    ReadHex4InvertsHex4(n, s);
    assert e[5..] == s;
  }

  lemma LowSurrogateRead(low: nat, s: Text)
    requires 0xDC00 <= low < 0xE000
    ensures LowSurrogate([BACKSLASH, LOWER_U] + Hex4(low) + s) == Some(low)
  {
    var after := [BACKSLASH, LOWER_U] + Hex4(low) + s;
    assert after[2..] == Hex4(low) + s;
    ReadHex4InvertsHex4(low, s);
  }

  lemma PairEscape(high: nat, low: nat, s: Text)
    requires 0xD800 <= high < 0xDC00 <= low < 0xE000
    ensures ParseEscape([LOWER_U] + Hex4(high) + ([BACKSLASH, LOWER_U] + Hex4(low)) + s)
            == Some(Parsed(0x1_0000 + (high - 0xD800) * 1024 + (low - 0xDC00), s))
  {
    hide Hex4, ReadHex4, LowSurrogate;
    var after := [BACKSLASH, LOWER_U] + Hex4(low) + s;
    var e := [LOWER_U] + Hex4(high) + ([BACKSLASH, LOWER_U] + Hex4(low)) + s;
    assert e[1..] == Hex4(high) + after;
    ReadHex4InvertsHex4(high, after);
    LowSurrogateRead(low, s);
    assert e[5..] == after;
    assert e[11..] == s;
  }

  lemma SurrogateHalves(c: CodePoint)
    requires 0x1_0000 <= c
    ensures var q := (c - 0x1_0000) / 1024;
            0 <= q < 1024 && 0x1_0000 + q * 1024 + c % 1024 == c
  {
    var d := c - 0x1_0000;
    assert d == d / 1024 * 1024 + d % 1024;
    assert c == d + 64 * 1024;
    assert c % 1024 == d % 1024;
  }

  lemma SurrogatePairEscape(c: CodePoint, s: Text)
    requires 0x1_0000 <= c
    ensures ParseEscape([LOWER_U] + Hex4(0xD800 + (c - 0x1_0000) / 1024)
                        + ([BACKSLASH, LOWER_U] + Hex4(0xDC00 + c % 1024)) + s) == Some(Parsed(c, s))
  {
    hide ParseEscape, Hex4;
    SurrogateHalves(c);
    var q: nat, r: nat := (c - 0x1_0000) / 1024, c % 1024;
    PairEscape(0xD800 + q, 0xDC00 + r, s);
  }

  /** An escape that denotes a character puts that character before the rest of the string. */
  lemma EscapeIsRead(c: CodePoint, e: Text, s: Text)
    requires ParseString(s).Some? && ParseEscape(e + s) == Some(Parsed(c, s))
    ensures var r := ParseString(s).value;
            ParseString([BACKSLASH] + e + s) == Some(Parsed([c] + r.value, r.rest))
  {
    hide ParseEscape;
    assert ([BACKSLASH] + e + s)[1..] == e + s;
  }

  lemma ShortEscape(c: CodePoint, ascii: bool, s: Text)
    requires c == QUOTE || c == BACKSLASH || c == 8 || c == 9 || c == 10 || c == 12 || c == 13
    ensures var e := EscapeChar(c, ascii);
            e == [BACKSLASH] + e[1..] && ParseEscape(e[1..] + s) == Some(Parsed(c, s))
  {
    var e := EscapeChar(c, ascii);
    assert (e[1..] + s)[1..] == s;
  }

  /** Each escaped character is read back as itself. */
  lemma EscapedCharacter(c: CodePoint, ascii: bool, s: Text)
    requires !Surrogate(c) && ParseString(s).Some?
    ensures var r := ParseString(s).value;
            ParseString(EscapeChar(c, ascii) + s) == Some(Parsed([c] + r.value, r.rest))
  {
    hide ParseEscape, Hex4;
    var e := EscapeChar(c, ascii);
    if e == [c] {
      assert (e + s)[1..] == s;
    } else if c == QUOTE || c == BACKSLASH || c == 8 || c == 9 || c == 10 || c == 12 || c == 13 {
      ShortEscape(c, ascii, s);
      EscapeIsRead(c, e[1..], s);
    } else if c < 0x1_0000 {
      assert e == [BACKSLASH] + ([LOWER_U] + Hex4(c));
      UnicodeEscape(c, s);
      EscapeIsRead(c, [LOWER_U] + Hex4(c), s);
    } else {
      var pair := [LOWER_U] + Hex4(0xD800 + (c - 0x1_0000) / 1024) + ([BACKSLASH, LOWER_U] + Hex4(0xDC00 + c % 1024));
      assert e == [BACKSLASH] + pair;
      SurrogatePairEscape(c, s);
      EscapeIsRead(c, pair, s);
    }
  }

  lemma EscapeThen(t: Text, ascii: bool, tail: Text)
    requires t != []
    ensures Escape(t, ascii) + tail == EscapeChar(t[0], ascii) + (Escape(t[1..], ascii) + tail)
  {
    var a, b := EscapeChar(t[0], ascii), Escape(t[1..], ascii);
    assert (a + b) + tail == a + (b + tail);
  }

  lemma {:induction false} StringRoundTrip(t: Text, ascii: bool, rest: Text)
    requires ScalarText(t)
    ensures ParseString(Escape(t, ascii) + ([QUOTE] + rest)) == Some(Parsed(t, rest))
  {
    var tail := [QUOTE] + rest;
    if t == [] {
      assert Escape(t, ascii) + tail == tail;
    } else {
      StringRoundTrip(t[1..], ascii, rest);
      EscapedCharacter(t[0], ascii, Escape(t[1..], ascii) + tail);
      EscapeThen(t, ascii, tail);
      assert t == [t[0]] + t[1..];
    }
  }

  lemma QuotedRoundTrip(t: Text, ascii: bool, rest: Text)
    requires ScalarText(t)
    ensures var s := Quoted(t, ascii) + rest;
            s[0] == QUOTE && ParseString(s[1..]) == Some(Parsed(t, rest))
  {
    assert (Quoted(t, ascii) + rest)[1..] == Escape(t, ascii) + ([QUOTE] + rest);
    StringRoundTrip(t, ascii, rest);
  }

  // ---------- numbers ----------

  lemma NaturalRoundTrip(n: nat, rest: Text)
    requires Delimited(rest)
    ensures var body := PrintNat(n) + rest;
            && IntegerWidth(body) == |PrintNat(n)|
            && body[..|PrintNat(n)|] == PrintNat(n) && body[|PrintNat(n)|..] == rest
            && DigitsValue(PrintNat(n)) == n
            && FloatWidth(rest) == 0
  {
    PrintNatDigits(n);
    DigitRunIs(PrintNat(n), rest);
  }

  /** A number is read from its sign and its digits. */
  lemma NumberIsRead(negative: bool, body: Text, width: nat, rest: Text)
    requires 0 < width == IntegerWidth(body) && body[width..] == rest && FloatWidth(rest) == 0
    ensures var n: int := DigitsValue(body[..width]);
            ParseNumber(if negative then [MINUS] + body else body) == Some(Parsed(Int(if negative then -n else n), rest))
  {
    hide FloatWidth, DigitsValue;
    assert ([MINUS] + body)[1..] == body;
    assert IsDigit(body[0]);
    assert body[width + 0..] == rest;
  }

  lemma IntegerRoundTrip(i: int, rest: Text)
    requires Delimited(rest)
    ensures ParseNumber(PrintInt(i) + rest) == Some(Parsed(Int(i), rest))
  {
    hide ParseNumber, IntegerWidth, FloatWidth, DigitsValue, PrintNat;
    var n := if i < 0 then -i else i;
    NaturalRoundTrip(n, rest);
    NumberIsRead(i < 0, PrintNat(n) + rest, |PrintNat(n)|, rest);
    assert PrintInt(i) + rest == if i < 0 then [MINUS] + (PrintNat(n) + rest) else PrintNat(n) + rest;
  }

  // ---------- values ----------

  /** What the first character of a printed value cannot be. */
  predicate StartsValue(s: Text) {
    s != [] && !Whitespace(s[0]) && s[0] != RBRACKET && s[0] != RBRACE
  }

  lemma PrintIntStarts(i: int)
    ensures var c := PrintInt(i)[0]; c == MINUS || IsDigit(c)
  {
    PrintNatDigits(if i < 0 then -i else i);
  }

  lemma DumpsStarts(v: Value, ascii: bool, rest: Text)
    requires Dumps(v, ascii).Some?
    ensures StartsValue(Dumps(v, ascii).value + rest)
  {
    if v.Int? {
      PrintIntStarts(v.number);
    }
  }

  lemma NotSpace(s: Text)
    requires s == [] || !Whitespace(s[0])
    ensures SkipWhitespace(s) == s
  {
  }

  lemma {:induction false} DumpsDefined(v: Value, ascii: bool)
    requires Encodable(v)
    ensures Dumps(v, ascii).Some?
    decreases v, 1, 0
  {
    match v
    case List(vs) => DumpItemsDefined(v, vs, ascii);
    case Tuple(vs) => DumpItemsDefined(v, vs, ascii);
    case Dict(m) => DumpMembersDefined(v, SortKeys(m.Keys), ascii);
    case _ =>
  }

  lemma {:induction false} DumpItemsDefined(v: Value, vs: seq<Value>, ascii: bool)
    requires (v.List? || v.Tuple?) && Encodable(v) && forall x | x in vs :: x in v.items
    ensures DumpItems(v, vs, ascii).Some?
    decreases v, 0, |vs|
  {
    if vs != [] {
      assert vs[0] in vs;
      DumpsDefined(vs[0], ascii);
      if |vs| > 1 {
        DumpItemsDefined(v, vs[1..], ascii);
      }
    }
  }

  lemma {:induction false} DumpMembersDefined(v: Value, keys: seq<Key>, ascii: bool)
    requires v.Dict? && Encodable(v) && forall k | k in keys :: k in v.entries
    ensures DumpMembers(v, keys, ascii).Some?
    decreases v, 0, |keys|
  {
    if keys != [] {
      assert keys[0] in keys;
      DumpsDefined(v.entries[keys[0]], ascii);
      if |keys| > 1 {
        DumpMembersDefined(v, keys[1..], ascii);
      }
    }
  }

  lemma Literals(rest: Text)
    ensures ParseValue(Lit("null") + rest) == Some(Parsed(Null, rest))
    ensures ParseValue(Lit("true") + rest) == Some(Parsed(Bool(true), rest))
    ensures ParseValue(Lit("false") + rest) == Some(Parsed(Bool(false), rest))
  {
    var n, t, f := Lit("null") + rest, Lit("true") + rest, Lit("false") + rest;
    assert n[0] == 'n' as int && t[0] == 't' as int && f[0] == 'f' as int;
    assert Lit("null")[0] == 'n' as int && Lit("true")[0] == 't' as int;
    assert Lit("null") <= n && n[4..] == rest;
    assert Lit("true") <= t && t[4..] == rest;
    assert Lit("false") <= f && f[5..] == rest;
  }

  lemma NumberIsParsed(i: int, rest: Text)
    requires Delimited(rest)
    ensures ParseValue(PrintInt(i) + rest) == Some(Parsed(Int(i), rest))
  {
    hide ParseNumber;
    var s := PrintInt(i) + rest;
    PrintIntStarts(i);
    IntegerRoundTrip(i, rest);
    if i < 0 {
      PrintIntStarts(-i);
      assert s[1] == PrintNat(-i)[0];
      assert Lit("-Infinity")[1] == 'I' as int;
    } else {
      PrintNatDigits(i);
    }
  }

  // ---------- keys ----------

  lemma PrintIntInjective(i: int, j: int)
    requires PrintInt(i) == PrintInt(j)
    ensures i == j
  {
    hide ParseNumber;
    IntegerRoundTrip(i, []);
    IntegerRoundTrip(j, []);
    assert PrintInt(i) + [] == PrintInt(j) + [];
  }

  /** Keys that can be sorted together are printed differently. */
  lemma PrintedKeyInjective(a: Key, b: Key)
    requires KeyLe(a, b) || KeyLe(b, a)
    requires PrintedKey(a) == PrintedKey(b)
    ensures a == b
  {
    hide PrintInt;
    match (a, b)
    case (IntKey(i), IntKey(j)) => PrintIntInjective(i, j);
    case (IntKey(i), BoolKey(_)) => PrintIntStarts(i);
    case (BoolKey(_), IntKey(j)) => PrintIntStarts(j);
    case (BoolKey(_), BoolKey(_)) => assert Lit("true")[0] == 't' as int && Lit("false")[0] == 'f' as int;
    case _ =>
  }

  /** The value of a key is found again under its printed form. */
  lemma RereadEntry(m: map<Key, Value>, k: Key)
    requires Comparable(m.Keys) && k in m
    ensures PrintedKey(k) in PrintedKeys(m) && OriginalKey(m, PrintedKey(k)) == k
  {
    assert PrintedKey(k) in PrintedKeys(m);
    PrintedKeyInjective(OriginalKey(m, PrintedKey(k)), k);
  }

  lemma RereadValue(v: Value, k: Key)
    requires v.Dict? && Comparable(v.entries.Keys) && k in v.entries
    ensures Reread(v).Dict? && PrintedKey(k) in Reread(v).entries
    ensures Reread(v).entries[PrintedKey(k)] == Reread(v.entries[k])
  {
    RereadEntry(v.entries, k);
  }

  /** Reading back a JSON-normal value gives the value itself. */
  lemma {:induction false} NormalIsReread(v: Value)
    requires Normal(v)
    ensures Encodable(v) && Reread(v) == v
  {
    match v
    case List(vs) =>
      forall i | 0 <= i < |vs|
        ensures Encodable(vs[i]) && Reread(vs[i]) == vs[i]
      {
        NormalIsReread(vs[i]);
      }
      assert RereadItems(vs) == vs;
    case Dict(m) =>
      StringKeysComparable(m.Keys);
      forall k | k in m
        ensures Encodable(m[k]) && Reread(m[k]) == m[k]
      {
        NormalIsReread(m[k]);
      }
      forall k | k in m
        ensures PrintedKey(k) == k
      {
      }
      assert forall k :: k in PrintedKeys(m) <==> k in m;
      assert forall k | k in m :: OriginalKey(m, k) == k;
      assert Reread(v).entries == m;
    case _ =>
  }

  /** What comes back is JSON-normal, whatever went in. */
  lemma {:induction false} RereadIsNormal(v: Value)
    requires Encodable(v)
    ensures Normal(Reread(v))
  {
    match v
    case List(vs) => RereadItemsNormal(vs);
    case Tuple(vs) => RereadItemsNormal(vs);
    case Dict(m) =>
      forall p | p in PrintedKeys(m)
        ensures Normal(Reread(v).entries[p]) && p.StrKey? && ScalarText(p.text)
      {
        RereadIsNormal(m[OriginalKey(m, p)]);
      }
    case _ =>
  }

  lemma {:induction false} RereadItemsNormal(vs: seq<Value>)
    requires forall i | 0 <= i < |vs| :: Encodable(vs[i])
    ensures forall i | 0 <= i < |vs| :: Normal(RereadItems(vs)[i])
  {
    forall i | 0 <= i < |vs|
      ensures Normal(RereadItems(vs)[i])
    {
      RereadIsNormal(vs[i]);
    }
  }

  // ---------- members ----------

  lemma EncodableMember(v: Value, k: Key)
    requires v.Dict? && Encodable(v) && k in v.entries
    ensures ScalarText(KeyText(k)) && Encodable(v.entries[k])
  {
  }

  /** The pairs that the parser hands to the hook. */
  ghost function RereadPairs(m: map<Key, Value>, keys: seq<Key>): (r: seq<(Text, Value)>)
    requires forall k | k in keys :: k in m
    ensures |r| == |keys|
    ensures forall i | 0 <= i < |keys| :: r[i] == (KeyText(keys[i]), Reread(m[keys[i]]))
  {
    if keys == [] then []
    else
      assert keys[0] in keys;
      [(KeyText(keys[0]), Reread(m[keys[0]]))] + RereadPairs(m, keys[1..])
  }

  /** All keys of a dictionary, each once, in any order. */
  ghost predicate Lists(m: map<Key, Value>, keys: seq<Key>) {
    && (forall k :: k in keys <==> k in m)
    && (forall i, j | 0 <= i < j < |keys| :: keys[i] != keys[j])
  }

  lemma PairsDistinct(m: map<Key, Value>, keys: seq<Key>)
    requires Comparable(m.Keys) && Lists(m, keys)
    ensures DistinctKeys(RereadPairs(m, keys))
  {
    forall i, j | 0 <= i < j < |keys|
      ensures RereadPairs(m, keys)[i].0 != RereadPairs(m, keys)[j].0
    {
      assert keys[i] in keys && keys[j] in keys;
      if KeyText(keys[i]) == KeyText(keys[j]) {
        PrintedKeyInjective(keys[i], keys[j]);
      }
    }
  }

  lemma PairOfKey(m: map<Key, Value>, keys: seq<Key>, p: Key)
    requires Comparable(m.Keys) && Lists(m, keys) && ToDict(RereadPairs(m, keys)).Some?
    ensures var d := ToDict(RereadPairs(m, keys)).value;
            (p in d <==> p in PrintedKeys(m)) && (p in d ==> d[p] == Reread(m[OriginalKey(m, p)]))
  {
    var pairs := RereadPairs(m, keys);
    ToDictKeys(pairs, p);
    if p in PrintedKeys(m) {
      var k := OriginalKey(m, p);
      var i :| 0 <= i < |keys| && keys[i] == k;
      assert pairs[i].0 == p.text;
      ToDictValues(pairs, i);
    }
    if p.StrKey? && HasKey(pairs, p.text) {
      var i :| 0 <= i < |pairs| && pairs[i].0 == p.text;
      assert keys[i] in keys && PrintedKey(keys[i]) == p;
    }
  }

  /** The hook rebuilds the dictionary, whatever the order of the members. */
  lemma PairsToDict(m: map<Key, Value>, keys: seq<Key>)
    requires Comparable(m.Keys) && Lists(m, keys)
    ensures ToDict(RereadPairs(m, keys)) == Some(Reread(Dict(m)).entries)
  {
    PairsDistinct(m, keys);
    ToDictDefined(RereadPairs(m, keys));
    forall p {
      PairOfKey(m, keys, p);
    }
    assert ToDict(RereadPairs(m, keys)).value == Reread(Dict(m)).entries;
  }

  // ---------- the round trip ----------

  /** The parser rereads what the printer printed, whatever delimited text follows. */
  lemma {:induction false} ValueRoundTrip(v: Value, ascii: bool, rest: Text)
    requires Encodable(v) && Delimited(rest)
    ensures Dumps(v, ascii).Some?
    ensures ParseValue(Dumps(v, ascii).value + rest) == Some(Parsed(Reread(v), rest))
    decreases v, 1, 0
  {
    DumpsDefined(v, ascii);
    match v
    case Null => Literals(rest);
    case Bool(_) => Literals(rest);
    case Int(i) => NumberIsParsed(i, rest);
    case Str(t) => QuotedRoundTrip(t, ascii, rest);
    case List(vs) => ListRoundTrip(v, ascii, rest);
    case Tuple(vs) => ListRoundTrip(v, ascii, rest);
    case Dict(m) => DictRoundTrip(v, ascii, rest);
  }

  lemma {:induction false} ListRoundTrip(v: Value, ascii: bool, rest: Text)
    requires (v.List? || v.Tuple?) && Encodable(v) && Dumps(v, ascii).Some?
    ensures ParseValue(Dumps(v, ascii).value + rest) == Some(Parsed(Reread(v), rest))
    decreases v, 0, |v.items| + 1
  {
    var body := DumpItems(v, v.items, ascii).value;
    var t := body + ([RBRACKET] + rest);
    assert Dumps(v, ascii).value + rest == [LBRACKET] + t;
    if v.items == [] {
      assert t == [RBRACKET] + rest;
      EmptyListIsParsed(rest);
    } else {
      ItemsRoundTrip(v, v.items, ascii, rest);
      ListIsParsed(t, RereadItems(v.items), rest);
    }
  }

  lemma ListIsParsed(t: Text, vs: seq<Value>, rest: Text)
    requires StartsValue(t) && SkipWhitespace(t) == t && ParseItems(t) == Some(Parsed(vs, rest))
    ensures ParseValue([LBRACKET] + t) == Some(Parsed(List(vs), rest))
  {
    assert ([LBRACKET] + t)[1..] == t;
  }

  lemma EmptyListIsParsed(rest: Text)
    ensures ParseValue([LBRACKET] + ([RBRACKET] + rest)) == Some(Parsed(List([]), rest))
  {
    var t := [RBRACKET] + rest;
    assert ([LBRACKET] + t)[1..] == t;
    NotSpace(t);
    assert t[1..] == rest;
  }

  lemma LastItem(s: Text, v: Value, rest: Text)
    requires ParseValue(s) == Some(Parsed(v, [RBRACKET] + rest))
    ensures ParseItems(s) == Some(Parsed([v], rest))
  {
    NotSpace([RBRACKET] + rest);
    assert ([RBRACKET] + rest)[1..] == rest;
  }

  lemma NextItem(s: Text, v: Value, others: Text, vs: seq<Value>, rest: Text)
    requires ParseValue(s) == Some(Parsed(v, [COMMA] + others))
    requires SkipWhitespace(others) == others && ParseItems(others) == Some(Parsed(vs, rest))
    ensures ParseItems(s) == Some(Parsed([v] + vs, rest))
  {
    NotSpace([COMMA] + others);
    assert ([COMMA] + others)[1..] == others;
  }

  lemma {:induction false} ItemsRoundTrip(v: Value, vs: seq<Value>, ascii: bool, rest: Text)
    requires (v.List? || v.Tuple?) && Encodable(v) && vs != [] && forall x | x in vs :: x in v.items
    requires DumpItems(v, vs, ascii).Some?
    ensures var s := DumpItems(v, vs, ascii).value + ([RBRACKET] + rest);
            && StartsValue(s) && SkipWhitespace(s) == s
            && ParseItems(s) == Some(Parsed(RereadItems(vs), rest))
    decreases v, 0, |vs|
  {
    hide ParseItems, ParseValue;
    assert vs[0] in vs;
    var first := Dumps(vs[0], ascii).value;
    var s := DumpItems(v, vs, ascii).value + ([RBRACKET] + rest);
    if |vs| == 1 {
      var t := [RBRACKET] + rest;
      DumpsStarts(vs[0], ascii, t);
      ValueRoundTrip(vs[0], ascii, t);
      LastItem(s, Reread(vs[0]), rest);
      assert RereadItems(vs) == [Reread(vs[0])];
    } else {
      var others := DumpItems(v, vs[1..], ascii).value + ([RBRACKET] + rest);
      var t := [COMMA] + others;
      assert s == first + t;
      DumpsStarts(vs[0], ascii, t);
      ValueRoundTrip(vs[0], ascii, t);
      ItemsRoundTrip(v, vs[1..], ascii, rest);
      NextItem(s, Reread(vs[0]), others, RereadItems(vs[1..]), rest);
    }
    NotSpace(s);
  }

  lemma ObjectIsParsed(t: Text, pairs: seq<(Text, Value)>, rest: Text, m: map<Key, Value>)
    requires t != [] && t[0] == QUOTE && SkipWhitespace(t) == t
    requires ParseMembers(t) == Some(Parsed(pairs, rest)) && ToDict(pairs) == Some(m)
    ensures ParseValue([LBRACE] + t) == Some(Parsed(Dict(m), rest))
  {
    assert ([LBRACE] + t)[1..] == t;
  }

  lemma EmptyObjectIsParsed(rest: Text)
    ensures ParseValue([LBRACE] + ([RBRACE] + rest)) == Some(Parsed(Dict(map[]), rest))
  {
    var t := [RBRACE] + rest;
    assert ([LBRACE] + t)[1..] == t;
    NotSpace(t);
    assert t[1..] == rest;
  }

  lemma {:induction false} DictRoundTrip(v: Value, ascii: bool, rest: Text)
    requires v.Dict? && Encodable(v) && Dumps(v, ascii).Some?
    ensures ParseValue(Dumps(v, ascii).value + rest) == Some(Parsed(Reread(v), rest))
    decreases v, 0, 1, 1
  {
    ListedDictIsParsed(v, SortKeys(v.entries.Keys), ascii, rest);
  }

  /** The order of the members does not matter to the parser. */
  lemma {:induction false} ListedDictIsParsed(v: Value, keys: seq<Key>, ascii: bool, rest: Text)
    requires v.Dict? && Encodable(v) && Lists(v.entries, keys) && DumpMembers(v, keys, ascii).Some?
    ensures ParseValue([LBRACE] + (DumpMembers(v, keys, ascii).value + [RBRACE]) + rest) == Some(Parsed(Reread(v), rest))
    decreases v, 0, 1, 0
  {
    var body := DumpMembers(v, keys, ascii).value;
    var t := body + ([RBRACE] + rest);
    assert [LBRACE] + (body + [RBRACE]) + rest == [LBRACE] + t;
    if keys == [] {
      assert t == [RBRACE] + rest;
      assert v.entries == map[];
      assert Reread(v).entries == map[];
      EmptyObjectIsParsed(rest);
    } else {
      MembersRoundTrip(v, keys, ascii, rest);
      PairsToDict(v.entries, keys);
      ObjectIsParsed(t, RereadPairs(v.entries, keys), rest, Reread(v).entries);
    }
  }

  /** A member is parsed from its key and whatever text its value is parsed from. */
  lemma MemberIsParsed(key: Text, printed: Text, item: Value, ascii: bool, tail: Text)
    requires ScalarText(key) && StartsValue(printed) && ParseValue(printed + tail) == Some(Parsed(item, tail))
    ensures var s := Quoted(key, ascii) + ([COLON] + printed) + tail;
            && s[0] == QUOTE
            && ParseMember(s) == Some(Parsed((key, item), tail))
  {
    var afterKey := [COLON] + (printed + tail);
    assert Quoted(key, ascii) + ([COLON] + printed) + tail == Quoted(key, ascii) + afterKey;
    QuotedRoundTrip(key, ascii, afterKey);
    NotSpace(afterKey);
    assert afterKey[1..] == printed + tail;
    NotSpace(printed + tail);
  }

  lemma {:induction false} MemberRoundTrip(key: Text, item: Value, ascii: bool, tail: Text)
    requires ScalarText(key) && Encodable(item) && Delimited(tail)
    ensures Dumps(item, ascii).Some?
    ensures var s := Quoted(key, ascii) + ([COLON] + Dumps(item, ascii).value) + tail;
            && s[0] == QUOTE
            && ParseMember(s) == Some(Parsed((key, Reread(item)), tail))
    decreases item, 2, 0
  {
    DumpsDefined(item, ascii);
    DumpsStarts(item, ascii, []);
    assert Dumps(item, ascii).value + [] == Dumps(item, ascii).value;
    ValueRoundTrip(item, ascii, tail);
    MemberIsParsed(key, Dumps(item, ascii).value, Reread(item), ascii, tail);
  }

  lemma LastMember(s: Text, m: (Text, Value), rest: Text)
    requires ParseMember(s) == Some(Parsed(m, [RBRACE] + rest))
    ensures ParseMembers(s) == Some(Parsed([m], rest))
  {
    hide ParseMember;
    NotSpace([RBRACE] + rest);
    assert ([RBRACE] + rest)[1..] == rest;
  }

  lemma NextMember(s: Text, m: (Text, Value), others: Text, ms: seq<(Text, Value)>, rest: Text)
    requires ParseMember(s) == Some(Parsed(m, [COMMA] + others))
    requires SkipWhitespace(others) == others && ParseMembers(others) == Some(Parsed(ms, rest))
    ensures ParseMembers(s) == Some(Parsed([m] + ms, rest))
  {
    hide ParseMember;
    NotSpace([COMMA] + others);
    assert ([COMMA] + others)[1..] == others;
  }

  lemma {:induction false} MembersRoundTrip(v: Value, keys: seq<Key>, ascii: bool, rest: Text)
    requires v.Dict? && Encodable(v) && keys != [] && forall k | k in keys :: k in v.entries
    requires DumpMembers(v, keys, ascii).Some?
    ensures var s := DumpMembers(v, keys, ascii).value + ([RBRACE] + rest);
            && s[0] == QUOTE && SkipWhitespace(s) == s
            && ParseMembers(s) == Some(Parsed(RereadPairs(v.entries, keys), rest))
    decreases v, 0, 0, |keys|
  {
    hide ParseMembers, ParseMember, ParseValue, Dumps, Encodable, Reread;
    assert keys[0] in keys;
    EncodableMember(v, keys[0]);
    var key := KeyText(keys[0]);
    var item := v.entries[keys[0]];
    var s := DumpMembers(v, keys, ascii).value + ([RBRACE] + rest);
    if |keys| == 1 {
      MemberRoundTrip(key, item, ascii, [RBRACE] + rest);
      LastMember(s, (key, Reread(item)), rest);
      assert RereadPairs(v.entries, keys) == [(key, Reread(item))];
    } else {
      var others := DumpMembers(v, keys[1..], ascii).value + ([RBRACE] + rest);
      var tail := [COMMA] + others;
      assert s == Quoted(key, ascii) + ([COLON] + Dumps(item, ascii).value) + tail;
      MemberRoundTrip(key, item, ascii, tail);
      MembersRoundTrip(v, keys[1..], ascii, rest);
      NextMember(s, (key, Reread(item)), others, RereadPairs(v.entries, keys[1..]), rest);
    }
    NotSpace(s);
  }

  /** `json.loads(json.dumps(v))`, for every value that can be printed as encodable text. */
  lemma LoadsRereads(v: Value, ascii: bool)
    requires Encodable(v)
    ensures Dumps(v, ascii).Some?
    ensures Loads(Dumps(v, ascii).value) == Some(Reread(v))
  {
    hide Reread, ParseValue;
    ValueRoundTrip(v, ascii, []);
    var s := Dumps(v, ascii).value;
    DumpsStarts(v, ascii, []);
    assert s + [] == s;
    NotSpace(s);
  }

  /** `json.loads(json.dumps(v)) == v` for every JSON-normal value. */
  lemma LoadsInvertsDumps(v: Value, ascii: bool)
    requires Normal(v)
    ensures Dumps(v, ascii).Some?
    ensures Loads(Dumps(v, ascii).value) == Some(v)
  {
    NormalIsReread(v);
    LoadsRereads(v, ascii);
  }

  /** Two JSON-normal values print alike only if they are equal. */
  lemma DumpsInjective(v: Value, w: Value, ascii: bool)
    requires Normal(v) && Normal(w)
    requires Dumps(v, ascii) == Dumps(w, ascii)
    ensures v == w
  {
    LoadsInvertsDumps(v, ascii);
    LoadsInvertsDumps(w, ascii);
  }
}
