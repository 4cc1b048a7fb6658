/** Which values `loads` can return: the other half of the JSON round trip. */
module JsonImage {
  import opened Basics
  import opened Json
  import opened JsonBytes
  import opened Utf8

  /** Lists but no tuples, string keys only; floats and lone surrogates are still possible. */
  predicate Shaped(v: Value) {
    match v
    case List(vs) => forall i | 0 <= i < |vs| :: Shaped(vs[i])
    case Tuple(_) => false
    case Dict(m) => forall k | k in m :: k.StrKey? && Shaped(m[k])
    case _ => true
  }

  lemma {:induction false} ToDictShaped(pairs: seq<(Text, Value)>)
    requires ToDict(pairs).Some? && forall i | 0 <= i < |pairs| :: Shaped(pairs[i].1)
    ensures Shaped(Dict(ToDict(pairs).value))
  {
    if pairs != [] {
      ToDictShaped(pairs[..|pairs| - 1]);
    }
  }

  lemma {:induction false} ParsedValueShaped(s: Text)
    requires ParseValue(s).Some?
    ensures Shaped(ParseValue(s).value.value)
    decreases |s|, 0
  {
    if s[0] == LBRACE {
      var t := SkipWhitespace(s[1..]);
      if t == [] || t[0] != RBRACE {
        ParsedMembersShaped(t);
        ToDictShaped(ParseMembers(t).value.value);
      }
    } else if s[0] == LBRACKET {
      var t := SkipWhitespace(s[1..]);
      if t == [] || t[0] != RBRACKET {
        ParsedItemsShaped(t);
      }
    }
  }

  lemma {:induction false} ParsedItemsShaped(s: Text)
    requires ParseItems(s).Some?
    ensures forall i | 0 <= i < |ParseItems(s).value.value| :: Shaped(ParseItems(s).value.value[i])
    decreases |s|, 1
  {
    ParsedValueShaped(s);
    var t := SkipWhitespace(ParseValue(s).value.rest);
    if t[0] == COMMA {
      ParsedItemsShaped(SkipWhitespace(t[1..]));
    }
  }

  lemma {:induction false} ParsedMembersShaped(s: Text)
    requires ParseMembers(s).Some?
    ensures forall i | 0 <= i < |ParseMembers(s).value.value| :: Shaped(ParseMembers(s).value.value[i].1)
    decreases |s|, 1
  {
    var colon := SkipWhitespace(ParseString(s[1..]).value.rest);
    ParsedValueShaped(SkipWhitespace(colon[1..]));
    var t := SkipWhitespace(ParseMember(s).value.rest);
    if t[0] == COMMA {
      ParsedMembersShaped(SkipWhitespace(t[1..]));
    }
  }

  // ---------- printing shaped values ----------

  /** Unescaped output keeps every surrogate, so encodable output means a text without any. */
  lemma {:induction false} EscapeReflectsScalar(t: Text)
    requires ScalarText(Escape(t, false))
    ensures ScalarText(t)
  {
    if t != [] {
      var head, tail := EscapeChar(t[0], false), Escape(t[1..], false);
      ScalarParts(head, tail);
      EscapeReflectsScalar(t[1..]);
      assert !Surrogate(head[0]);
    }
  }

  lemma ScalarParts(a: Text, b: Text)
    requires ScalarText(a + b)
    ensures ScalarText(a) && ScalarText(b)
  {
    forall i | 0 <= i < |a|
      ensures !Surrogate(a[i])
    {
      assert (a + b)[i] == a[i];
    }
    forall i | 0 <= i < |b|
      ensures !Surrogate(b[i])
    {
      assert (a + b)[|a| + i] == b[i];
    }
  }

  lemma QuotedReflectsScalar(t: Text)
    requires ScalarText(Quoted(t, false))
    ensures ScalarText(t)
  {
    ScalarParts([QUOTE], Escape(t, false) + [QUOTE]);
    ScalarParts(Escape(t, false), [QUOTE]);
    EscapeReflectsScalar(t);
  }

  /** A value whose raw printing is encodable text is encodable throughout. */
  lemma {:induction false} ScalarDumpsEncodable(v: Value)
    requires Dumps(v, false).Some? && ScalarText(Dumps(v, false).value)
    ensures Encodable(v)
    decreases v, 1, 0
  {
    match v
    case Str(t) => QuotedReflectsScalar(t);
    case List(vs) => ScalarItemsEncodable(v, vs);
    case Tuple(vs) => ScalarItemsEncodable(v, vs);
    case Dict(m) =>
      var body := DumpMembers(v, SortKeys(m.Keys), false).value;
      ScalarParts([LBRACE], body + [RBRACE]);
      ScalarParts(body, [RBRACE]);
      ScalarMembersEncodable(v, SortKeys(m.Keys));
    case _ =>
  }

  lemma {:induction false} ScalarItemsEncodable(v: Value, vs: seq<Value>)
    requires (v.List? || v.Tuple?) && v.items == vs
    requires Dumps(v, false).Some? && ScalarText(Dumps(v, false).value)
    ensures forall i | 0 <= i < |vs| :: Encodable(vs[i])
    decreases v, 0, |vs| + 1
  {
    var body := DumpItems(v, vs, false).value;
    ScalarParts([LBRACKET], body + [RBRACKET]);
    ScalarParts(body, [RBRACKET]);
    ScalarTailEncodable(v, vs);
  }

  lemma {:induction false} ScalarTailEncodable(v: Value, vs: seq<Value>)
    requires (v.List? || v.Tuple?) && forall x | x in vs :: x in v.items
    requires DumpItems(v, vs, false).Some? && ScalarText(DumpItems(v, vs, false).value)
    ensures forall i | 0 <= i < |vs| :: Encodable(vs[i])
    decreases v, 0, |vs|
  {
    if vs != [] {
      assert vs[0] in vs;
      var first := Dumps(vs[0], false).value;
      if |vs| > 1 {
        var others := DumpItems(v, vs[1..], false).value;
        ScalarParts(first, [COMMA] + others);
        ScalarParts([COMMA], others);
        ScalarTailEncodable(v, vs[1..]);
      }
      ScalarDumpsEncodable(vs[0]);
    }
  }

  lemma {:induction false} ScalarMembersEncodable(v: Value, keys: seq<Key>)
    requires v.Dict? && forall k | k in keys :: k in v.entries
    requires DumpMembers(v, keys, false).Some? && ScalarText(DumpMembers(v, keys, false).value)
    ensures forall k | k in keys :: ScalarText(KeyText(k)) && Encodable(v.entries[k])
    decreases v, 0, |keys|
  {
    if keys != [] {
      var k := keys[0];
      assert k in keys;
      var item := Dumps(v.entries[k], false).value;
      var first := Quoted(KeyText(k), false) + ([COLON] + item);
      if |keys| > 1 {
        var others := DumpMembers(v, keys[1..], false).value;
        ScalarParts(first, [COMMA] + others);
        ScalarParts([COMMA], others);
        ScalarMembersEncodable(v, keys[1..]);
      }
      ScalarParts(Quoted(KeyText(k), false), [COLON] + item);
      ScalarParts([COLON], item);
      QuotedReflectsScalar(KeyText(k));
      ScalarDumpsEncodable(v.entries[k]);
    }
  }

  /** Raw printing and strict encoding succeed exactly on the encodable values. */
  lemma EncodedExactlyWhenEncodable(v: Value)
    ensures DumpBytes(v, false).Some? <==> Encodable(v)
  {
    if Encodable(v) {
      DumpsScalar(v, false);
    }
    if DumpBytes(v, false).Some? {
      ScalarDumpsEncodable(v);
    }
  }

  lemma {:induction false} ShapedEncodableIsNormal(v: Value)
    requires Shaped(v) && Encodable(v)
    ensures Normal(v)
  {
    match v
    case List(vs) =>
      forall i | 0 <= i < |vs|
        ensures Normal(vs[i])
      {
        ShapedEncodableIsNormal(vs[i]);
      }
    case Dict(m) =>
      forall k | k in m
        ensures Normal(m[k])
      {
        ShapedEncodableIsNormal(m[k]);
      }
    case _ =>
  }

  /** What loads and prints again in raw UTF-8 is JSON-normal. */
  lemma ReprintableIsNormal(data: Bytes)
    requires LoadBytes(data).Some? && DumpBytes(LoadBytes(data).value, false).Some?
    ensures Normal(LoadBytes(data).value)
  {
    ParsedValueShaped(SkipWhitespace(Decode(data).value));
    EncodedExactlyWhenEncodable(LoadBytes(data).value);
    ShapedEncodableIsNormal(LoadBytes(data).value);
  }
}
