/** Printed JSON as UTF-8 bytes: the byte-level round trip and the size of a printed object. */
module JsonBytes {
  import opened Basics
  import opened Digits
  import opened Json
  import opened JsonRoundTrip
  import opened Utf8

  /** `json.dumps(...).encode("utf-8")`; None where either raises. */
  function DumpBytes(v: Value, ascii: bool): Option<Bytes> {
    var t :- Dumps(v, ascii);
    EncodeStrict(t)
  }

  /** `json.loads(data.decode("utf-8"), ...)`; None where either raises. */
  function LoadBytes(data: Bytes): Option<Value> {
    var t :- Decode(data);
    Loads(t)
  }

  lemma NothingLoadsFromNothing()
    ensures LoadBytes([]) == None
  {
  }

  // ---------- printed text is encodable ----------

  lemma {:induction false} EscapeScalar(t: Text, ascii: bool)
    requires ScalarText(t)
    ensures ScalarText(Escape(t, ascii))
  {
    if t != [] {
      EscapeScalar(t[1..], ascii);
      assert ScalarText(EscapeChar(t[0], ascii));
    }
  }

  lemma PrintIntAscii(i: int)
    ensures AsciiText(PrintInt(i))
  {
    PrintNatDigits(if i < 0 then -i else i);
  }

  lemma {:induction false} DumpsScalar(v: Value, ascii: bool)
    requires Encodable(v)
    ensures Dumps(v, ascii).Some? && ScalarText(Dumps(v, ascii).value)
    decreases v, 2, 0
  {
    hide DumpItems, DumpMembers;
    match v
    case Int(i) => PrintIntAscii(i);
    case Str(t) => EscapeScalar(t, ascii);
    case List(vs) => ListScalar(v, ascii);
    case Tuple(vs) => ListScalar(v, ascii);
    case Dict(m) => DictScalar(v, ascii);
    case _ =>
  }

  lemma {:induction false} ListScalar(v: Value, ascii: bool)
    requires (v.List? || v.Tuple?) && Encodable(v)
    ensures Dumps(v, ascii).Some? && ScalarText(Dumps(v, ascii).value)
    decreases v, 1, 0
  {
    hide DumpItems, ScalarText;
    DumpItemsScalar(v, v.items, ascii);
    BracketsScalar();
    var body := DumpItems(v, v.items, ascii).value;
    ScalarJoined(body, [RBRACKET]);
    ScalarJoined([LBRACKET], body + [RBRACKET]);
  }

  lemma {:induction false} DictScalar(v: Value, ascii: bool)
    requires v.Dict? && Encodable(v)
    ensures Dumps(v, ascii).Some? && ScalarText(Dumps(v, ascii).value)
    decreases v, 1, 0
  {
    hide DumpMembers, ScalarText;
    DumpMembersScalar(v, SortKeys(v.entries.Keys), ascii);
    BracketsScalar();
    var body := DumpMembers(v, SortKeys(v.entries.Keys), ascii).value;
    ScalarJoined(body, [RBRACE]);
    ScalarJoined([LBRACE], body + [RBRACE]);
  }

  lemma BracketsScalar()
    ensures ScalarText([LBRACKET]) && ScalarText([RBRACKET]) && ScalarText([LBRACE]) && ScalarText([RBRACE])
  {
  }

  lemma {:induction false} DumpItemsScalar(v: Value, vs: seq<Value>, ascii: bool)
    requires (v.List? || v.Tuple?) && Encodable(v) && forall x | x in vs :: x in v.items
    ensures DumpItems(v, vs, ascii).Some? && ScalarText(DumpItems(v, vs, ascii).value)
    decreases v, 0, |vs|
  {
    DumpItemsDefined(v, vs, ascii);
    if vs != [] {
      assert vs[0] in vs;
      DumpsScalar(vs[0], ascii);
      if |vs| > 1 {
        DumpItemsScalar(v, vs[1..], ascii);
      }
    }
  }

  lemma {:induction false} DumpMembersScalar(v: Value, keys: seq<Key>, ascii: bool)
    requires v.Dict? && Encodable(v) && forall k | k in keys :: k in v.entries
    ensures DumpMembers(v, keys, ascii).Some? && ScalarText(DumpMembers(v, keys, ascii).value)
    decreases v, 0, |keys|
  {
    hide Dumps, Quoted, ScalarText;
    DumpMembersDefined(v, keys, ascii);
    if keys != [] {
      var k := keys[0];
      assert k in keys;
      assert ScalarText(KeyText(k));
      DumpsScalar(v.entries[k], ascii);
      MemberScalar(KeyText(k), Dumps(v.entries[k], ascii).value, ascii);
      if |keys| > 1 {
        var first := Quoted(KeyText(k), ascii) + ([COLON] + Dumps(v.entries[k], ascii).value);
        var others := DumpMembers(v, keys[1..], ascii).value;
        DumpMembersScalar(v, keys[1..], ascii);
        PunctuationScalar();
        ScalarJoined([COMMA], others);
        ScalarJoined(first, [COMMA] + others);
      }
    } else {
      ScalarEmpty();
    }
  }

  lemma ScalarEmpty()
    ensures ScalarText([])
  {
  }

  lemma PunctuationScalar()
    ensures ScalarText([COMMA]) && ScalarText([COLON]) && ScalarText([QUOTE])
  {
  }

  lemma ScalarJoined(a: Text, b: Text)
    requires ScalarText(a) && ScalarText(b)
    ensures ScalarText(a + b)
  {
  }

  lemma MemberScalar(t: Text, printed: Text, ascii: bool)
    requires ScalarText(t) && ScalarText(printed)
    ensures ScalarText(Quoted(t, ascii) + ([COLON] + printed))
  {
    hide ScalarText;
    PunctuationScalar();
    EscapeScalar(t, ascii);
    ScalarJoined(Escape(t, ascii), [QUOTE]);
    ScalarJoined([QUOTE], Escape(t, ascii) + [QUOTE]);
    ScalarJoined([COLON], printed);
    ScalarJoined(Quoted(t, ascii), [COLON] + printed);
  }

  /** A JSON-normal value can be printed and encoded. */
  lemma NormalScalar(v: Value, ascii: bool)
    requires Normal(v)
    ensures Dumps(v, ascii).Some? && ScalarText(Dumps(v, ascii).value)
  {
    NormalIsReread(v);
    DumpsScalar(v, ascii);
  }

  /** What comes back through UTF-8 bytes, for every value that can be encoded. */
  lemma LoadBytesRereads(v: Value, ascii: bool)
    requires Encodable(v)
    ensures DumpBytes(v, ascii).Some?
    ensures LoadBytes(DumpBytes(v, ascii).value) == Some(Reread(v))
  {
    hide Reread, Loads, Decode;
    DumpsScalar(v, ascii);
    DecodeInvertsEncode(Dumps(v, ascii).value);
    LoadsRereads(v, ascii);
  }

  /** Every JSON-normal value survives the trip through UTF-8 bytes. */
  lemma LoadBytesInvertsDumpBytes(v: Value, ascii: bool)
    requires Normal(v)
    ensures DumpBytes(v, ascii).Some?
    ensures LoadBytes(DumpBytes(v, ascii).value) == Some(v)
  {
    NormalIsReread(v);
    LoadBytesRereads(v, ascii);
  }

  /** Equal bytes come from equal values. */
  lemma DumpBytesInjective(v: Value, w: Value, ascii: bool)
    requires Normal(v) && Normal(w)
    requires DumpBytes(v, ascii) == DumpBytes(w, ascii)
    ensures v == w
  {
    LoadBytesInvertsDumpBytes(v, ascii);
    LoadBytesInvertsDumpBytes(w, ascii);
  }

  // ---------- sizes ----------

  lemma EscapeCharSize(c: CodePoint, ascii: bool)
    ensures |Encode(EscapeChar(c, ascii))| <= 6 * |EncodeChar(c)|
  {
    var e := EscapeChar(c, ascii);
    if e == [c] {
      assert Encode(e) == EncodeChar(c) + Encode(e[1..]);
    } else {
      EncodeAscii(e);
    }
  }

  /** Escaping expands a text at most sixfold, a control character being the worst case. */
  lemma {:induction false} EscapeSize(t: Text, ascii: bool)
    ensures |Encode(Escape(t, ascii))| <= 6 * |Encode(t)|
  {
    if t != [] {
      EscapeSize(t[1..], ascii);
      EscapeCharSize(t[0], ascii);
      SizeOfConcat(EscapeChar(t[0], ascii), Escape(t[1..], ascii));
    }
  }

  /** Printable ASCII that JSON never escapes. */
  predicate PlainText(t: Text) {
    forall i | 0 <= i < |t| :: 0x20 <= t[i] < 0x7F && t[i] != QUOTE && t[i] != BACKSLASH
  }

  lemma {:induction false} PlainEscape(t: Text, ascii: bool)
    requires PlainText(t)
    ensures Escape(t, ascii) == t
  {
    if t != [] {
      PlainEscape(t[1..], ascii);
      assert t == [t[0]] + t[1..];
    }
  }

  lemma QuotedSize(t: Text, ascii: bool)
    ensures |Encode(Quoted(t, ascii))| == |Encode(Escape(t, ascii))| + 2
  {
    var e := Escape(t, ascii);
    SizeOfConcat(e, [QUOTE]);
    EncodeAscii([QUOTE]);
    SizeOfConcat([QUOTE], e + [QUOTE]);
  }

  lemma PlainSize(t: Text, ascii: bool)
    requires PlainText(t)
    ensures |Encode(Quoted(t, ascii))| == |t| + 2
  {
    QuotedSize(t, ascii);
    PlainEscape(t, ascii);
    EncodeAscii(t);
  }

  /** The bytes of one member and of the comma or bracket after it. */
  function MemberSize(v: Value, k: Key, ascii: bool): nat
    requires v.Dict?
  {
    if k in v.entries && Dumps(v.entries[k], ascii).Some? then
      |Encode(Quoted(KeyText(k), ascii))| + |Encode(Dumps(v.entries[k], ascii).value)| + 2
    else 0
  }

  function ListedSize(v: Value, keys: seq<Key>, ascii: bool): nat
    requires v.Dict?
  {
    if keys == [] then 0 else MemberSize(v, keys[0], ascii) + ListedSize(v, keys[1..], ascii)
  }

  /** The size of the members with these keys, counted in any order. */
  ghost function MembersSize(v: Value, keys: set<Key>, ascii: bool): nat
    requires v.Dict?
  {
    if keys == {} then 0
    else
      var k :| k in keys;
      MemberSize(v, k, ascii) + MembersSize(v, keys - {k}, ascii)
  }

  /** Any member can be counted first. */
  lemma {:induction false} CountMember(v: Value, keys: set<Key>, k: Key, ascii: bool)
    requires v.Dict? && k in keys
    ensures MembersSize(v, keys, ascii) == MemberSize(v, k, ascii) + MembersSize(v, keys - {k}, ascii)
    decreases |keys|
  {
    var m :| m in keys && MembersSize(v, keys, ascii) == MemberSize(v, m, ascii) + MembersSize(v, keys - {m}, ascii);
    if k != m {
      CountMember(v, keys - {m}, k, ascii);
      CountMember(v, keys - {k}, m, ascii);
      assert keys - {k} - {m} == keys - {m} - {k};
    }
  }

  lemma {:induction false} ListedSizeIsMembersSize(v: Value, keys: seq<Key>, all: set<Key>, ascii: bool)
    requires v.Dict?
    requires forall k :: k in keys <==> k in all
    requires forall i, j | 0 <= i < j < |keys| :: keys[i] != keys[j]
    ensures ListedSize(v, keys, ascii) == MembersSize(v, all, ascii)
  {
    if keys != [] {
      assert keys[0] in keys;
      forall k
        ensures k in keys[1..] <==> k in all - {keys[0]}
      {
        if k in all - {keys[0]} {
          var i :| 0 <= i < |keys| && keys[i] == k;
          assert keys[1..][i - 1] == k;
        }
      }
      ListedSizeIsMembersSize(v, keys[1..], all - {keys[0]}, ascii);
      CountMember(v, all, keys[0], ascii);
    } else {
      assert all == {};
    }
  }

  lemma {:induction false} DumpMembersSize(v: Value, keys: seq<Key>, ascii: bool)
    requires v.Dict? && forall k | k in keys :: k in v.entries
    requires DumpMembers(v, keys, ascii).Some?
    ensures |Encode(DumpMembers(v, keys, ascii).value)| <= ListedSize(v, keys, ascii)
  {
    if keys != [] {
      assert keys[0] in keys;
      var key := Quoted(KeyText(keys[0]), ascii);
      var item := Dumps(v.entries[keys[0]], ascii).value;
      EncodeAscii([COLON]);
      SizeOfConcat([COLON], item);
      SizeOfConcat(key, [COLON] + item);
      if |keys| > 1 {
        var others := DumpMembers(v, keys[1..], ascii).value;
        DumpMembersSize(v, keys[1..], ascii);
        EncodeAscii([COMMA]);
        SizeOfConcat([COMMA], others);
        SizeOfConcat(key + ([COLON] + item), [COMMA] + others);
      }
    }
  }

  /** An object is no longer than its members with their separators and two brackets. */
  lemma ObjectSize(v: Value, ascii: bool)
    requires v.Dict? && Dumps(v, ascii).Some?
    ensures |Encode(Dumps(v, ascii).value)| <= MembersSize(v, v.entries.Keys, ascii) + 2
  {
    hide Encode, DumpMembers, ListedSize, MembersSize;
    var keys := SortKeys(v.entries.Keys);
    DumpMembersSize(v, keys, ascii);
    ListedSizeIsMembersSize(v, keys, v.entries.Keys, ascii);
    var body := DumpMembers(v, keys, ascii).value;
    EncodeAscii([LBRACE]);
    EncodeAscii([RBRACE]);
    SizeOfConcat(body, [RBRACE]);
    SizeOfConcat([LBRACE], body + [RBRACE]);
  }

  lemma {:induction false} UniformSize(v: Value, keys: set<Key>, ascii: bool, bound: nat)
    requires v.Dict?
    requires forall k | k in keys :: MemberSize(v, k, ascii) <= bound
    ensures MembersSize(v, keys, ascii) <= |keys| * bound
    decreases |keys|
  {
    hide MemberSize;
    if keys != {} {
      var k :| k in keys;
      var n := |keys - {k}|;
      assert |keys| == n + 1;
      CountMember(v, keys, k, ascii);
      UniformSize(v, keys - {k}, ascii, bound);
      assert (n + 1) * bound == n * bound + bound;
    }
  }

  lemma TextMemberSize(v: Value, k: Key, t: Text, ascii: bool)
    requires v.Dict? && k in v.entries && k.StrKey? && PlainText(k.text)
    requires v.entries[k] == Str(t)
    ensures MemberSize(v, k, ascii) <= |k.text| + 6 * |Encode(t)| + 6
  {
    PlainSize(k.text, ascii);
    QuotedSize(t, ascii);
    EscapeSize(t, ascii);
  }

  lemma PlainMemberSize(v: Value, k: Key, t: Text, ascii: bool)
    requires v.Dict? && k in v.entries && k.StrKey? && PlainText(k.text)
    requires v.entries[k] == Str(t) && PlainText(t)
    ensures MemberSize(v, k, ascii) == |k.text| + |t| + 6
  {
    PlainSize(k.text, ascii);
    PlainSize(t, ascii);
  }

  lemma NumberMemberSize(v: Value, k: Key, n: nat, digits: nat, ascii: bool)
    requires v.Dict? && k in v.entries && k.StrKey? && PlainText(k.text)
    requires v.entries[k] == Int(n) && digits > 0 && n < Pow10(digits)
    ensures MemberSize(v, k, ascii) <= |k.text| + digits + 4
  {
    PlainSize(k.text, ascii);
    PrintNatDigits(n);
    PrintNatLength(n, digits);
    EncodeAscii(PrintNat(n));
  }

  lemma HexPlain(b: Bytes)
    ensures PlainText(Hex(b)) && ScalarText(Hex(b))
  {
    HexIsHexText(b);
  }
}
