/**
 Printing what was read back. A printed value comes back with its keys as text, and the printer sorts text
 as text: it prints the same again exactly when every dictionary was already in that order.
 */
module JsonOrder {
  import opened Basics
  import opened Json
  import opened JsonRoundTrip

  predicate InTextOrder(keys: seq<Key>) {
    forall i, j | 0 <= i < j < |keys| :: TextLe(KeyText(keys[i]), KeyText(keys[j]))
  }

  /** In every dictionary the order of the keys is also the order of their printed texts. */
  predicate TextOrdered(v: Value) {
    match v
    case List(vs) => forall i | 0 <= i < |vs| :: TextOrdered(vs[i])
    case Tuple(vs) => forall i | 0 <= i < |vs| :: TextOrdered(vs[i])
    case Dict(m) => Comparable(m.Keys) && InTextOrder(SortKeys(m.Keys)) && forall k | k in m :: TextOrdered(m[k])
    case _ => true
  }

  /** JSON-normal values always are. */
  lemma {:induction false} NormalIsTextOrdered(v: Value)
    requires Normal(v)
    ensures TextOrdered(v)
  {
    match v
    case List(vs) =>
      forall i | 0 <= i < |vs|
        ensures TextOrdered(vs[i])
      {
        NormalIsTextOrdered(vs[i]);
      }
    case Dict(m) =>
      StringKeysComparable(m.Keys);
      var keys := SortKeys(m.Keys);
      forall i, j | 0 <= i < j < |keys|
        ensures TextLe(KeyText(keys[i]), KeyText(keys[j]))
      {
        assert keys[i] in keys && keys[j] in keys;
      }
      forall k | k in m
        ensures TextOrdered(m[k])
      {
        NormalIsTextOrdered(m[k]);
      }
    case _ =>
  }

  // ---------- sorting ----------

  /** The keys of the set, each once and in order. */
  ghost predicate Sorted(keys: set<Key>, r: seq<Key>) {
    && (forall k :: k in r <==> k in keys)
    && forall i, j | 0 <= i < j < |r| :: r[i] != r[j] && KeyLe(r[i], r[j])
  }

  lemma SortedFrom(keys: set<Key>, k: Key)
    requires Comparable(keys) && Least(k, keys)
    ensures SortKeys(keys) == [k] + SortKeys(keys - {k})
  {
    LeastUnique(keys);
  }

  lemma SortedTail(keys: set<Key>, r: seq<Key>)
    requires Comparable(keys) && Sorted(keys, r) && r != []
    ensures Least(r[0], keys) && Sorted(keys - {r[0]}, r[1..])
  {
    assert r[0] in r;
    forall k | k in keys
      ensures KeyLe(r[0], k)
    {
      var i :| 0 <= i < |r| && r[i] == k;
    }
    forall k
      ensures k in r[1..] <==> k in keys - {r[0]}
    {
      if k in keys - {r[0]} {
        var i :| 0 <= i < |r| && r[i] == k;
        assert r[1..][i - 1] == k;
      }
    }
  }

  /** There is only one sorted order. */
  lemma {:induction false} SortKeysIs(keys: set<Key>, r: seq<Key>)
    requires Comparable(keys) && Sorted(keys, r)
    ensures SortKeys(keys) == r
  {
    if r == [] {
      assert keys == {};
    } else {
      SortedTail(keys, r);
      SortedFrom(keys, r[0]);
      SortKeysIs(keys - {r[0]}, r[1..]);
    }
  }

  function PrintedSeq(keys: seq<Key>): (r: seq<Key>)
    ensures |r| == |keys| && forall i | 0 <= i < |r| :: r[i] == PrintedKey(keys[i])
  {
    seq(|keys|, i requires 0 <= i < |keys| => PrintedKey(keys[i]))
  }

  /** Keys in text order are sorted again as they were. */
  lemma PrintedKeysSorted(m: map<Key, Value>)
    requires Comparable(m.Keys) && InTextOrder(SortKeys(m.Keys))
    ensures Comparable(PrintedKeys(m)) && SortKeys(PrintedKeys(m)) == PrintedSeq(SortKeys(m.Keys))
  {
    var keys := SortKeys(m.Keys);
    var r := PrintedSeq(keys);
    StringKeysComparable(PrintedKeys(m));
    forall p
      ensures p in r <==> p in PrintedKeys(m)
    {
      if p in PrintedKeys(m) {
        var k := OriginalKey(m, p);
        var i :| 0 <= i < |keys| && keys[i] == k;
        assert r[i] == p;
      }
      if p in r {
        var i :| 0 <= i < |r| && r[i] == p;
        assert keys[i] in keys && PrintedKey(keys[i]) in PrintedKeys(m);
      }
    }
    forall i, j | 0 <= i < j < |r|
      ensures r[i] != r[j] && KeyLe(r[i], r[j])
    {
      if r[i] == r[j] {
        PrintedKeyInjective(keys[i], keys[j]);
      }
    }
    SortKeysIs(PrintedKeys(m), r);
  }

  // ---------- text-ordered values print the same again ----------

  lemma {:induction false} TextOrderedPrintsAgain(v: Value, ascii: bool)
    requires Encodable(v) && TextOrdered(v)
    ensures Dumps(Reread(v), ascii) == Dumps(v, ascii)
    decreases v, 2, 0
  {
    match v
    case List(vs) => ListPrintsAgain(v, ascii);
    case Tuple(vs) => ListPrintsAgain(v, ascii);
    case Dict(m) => DictPrintsAgain(v, ascii);
    case _ =>
  }

  lemma {:induction false} ListPrintsAgain(v: Value, ascii: bool)
    requires (v.List? || v.Tuple?) && Encodable(v) && TextOrdered(v)
    ensures Dumps(Reread(v), ascii) == Dumps(v, ascii)
    decreases v, 1, 0
  {
    hide DumpItems, Encodable;
    ItemsPrintAgain(v, v.items, ascii);
  }

  lemma {:induction false} DictPrintsAgain(v: Value, ascii: bool)
    requires v.Dict? && Encodable(v) && TextOrdered(v)
    ensures Dumps(Reread(v), ascii) == Dumps(v, ascii)
    decreases v, 1, 0
  {
    hide InTextOrder, DumpMembers, Encodable, PrintedKeys;
    PrintedKeysSorted(v.entries);
    assert Reread(v).entries.Keys == PrintedKeys(v.entries);
    MembersPrintAgain(v, SortKeys(v.entries.Keys), ascii);
  }

  lemma {:induction false} ItemsPrintAgain(v: Value, vs: seq<Value>, ascii: bool)
    requires (v.List? || v.Tuple?) && Encodable(v) && TextOrdered(v) && forall x | x in vs :: x in v.items
    requires forall x | x in RereadItems(vs) :: x in Reread(v).items
    ensures DumpItems(Reread(v), RereadItems(vs), ascii) == DumpItems(v, vs, ascii)
    decreases v, 0, |vs|
  {
    if vs != [] {
      assert vs[0] in vs;
      TextOrderedPrintsAgain(vs[0], ascii);
      assert RereadItems(vs)[1..] == RereadItems(vs[1..]);
      if |vs| > 1 {
        ItemsPrintAgain(v, vs[1..], ascii);
      }
    }
  }

  lemma TextOrderedMember(v: Value, k: Key)
    requires v.Dict? && TextOrdered(v) && k in v.entries
    ensures Comparable(v.entries.Keys) && TextOrdered(v.entries[k])
  {
  }

  lemma PrintedText(k: Key)
    ensures KeyText(PrintedKey(k)) == KeyText(k)
  {
  }

  lemma {:induction false} MembersPrintAgain(v: Value, keys: seq<Key>, ascii: bool)
    requires v.Dict? && Encodable(v) && TextOrdered(v) && forall k | k in keys :: k in v.entries
    requires forall p | p in PrintedSeq(keys) :: p in Reread(v).entries
    ensures DumpMembers(Reread(v), PrintedSeq(keys), ascii) == DumpMembers(v, keys, ascii)
    decreases v, 0, |keys|
  {
    hide Dumps, Quoted, Encodable, InTextOrder, Reread, PrintedKeys, PrintedKey, KeyLe, Comparable;
    RereadsToDict(v);
    if keys != [] {
      assert keys[0] in keys;
      EncodableMember(v, keys[0]);
      TextOrderedMember(v, keys[0]);
      RereadValue(v, keys[0]);
      TextOrderedPrintsAgain(v.entries[keys[0]], ascii);
      PrintedText(keys[0]);
      assert PrintedSeq(keys)[1..] == PrintedSeq(keys[1..]);
      if |keys| > 1 {
        MembersPrintAgain(v, keys[1..], ascii);
      }
    }
  }

  // ---------- values that print the same again are text-ordered ----------

  /** A printed value ends where the parser says, so equal texts have equal first values. */
  lemma PrintedPrefix(v: Value, w: Value, s: Text, t: Text, ascii: bool)
    requires Encodable(v) && Encodable(w) && Delimited(s) && Delimited(t)
    requires Dumps(v, ascii).Some? && Dumps(w, ascii).Some?
    requires Dumps(v, ascii).value + s == Dumps(w, ascii).value + t
    ensures s == t && Dumps(v, ascii) == Dumps(w, ascii)
  {
    hide Dumps, ParseValue, Reread;
    ValueRoundTrip(v, ascii, s);
    ValueRoundTrip(w, ascii, t);
    SameFront(Dumps(v, ascii).value, Dumps(w, ascii).value, s);
  }

  lemma SameFront(a: Text, b: Text, s: Text)
    requires a + s == b + s
    ensures a == b
  {
    assert |a| == |b|;
    assert a == (a + s)[..|a|];
    assert b == (b + s)[..|b|];
  }

  lemma PrintedMemberPrefix(k: Key, v: Value, l: Key, w: Value, s: Text, t: Text, ascii: bool)
    requires ScalarText(KeyText(k)) && ScalarText(KeyText(l))
    requires Encodable(v) && Encodable(w) && Delimited(s) && Delimited(t)
    requires Dumps(v, ascii).Some? && Dumps(w, ascii).Some?
    requires Quoted(KeyText(k), ascii) + ([COLON] + Dumps(v, ascii).value) + s
             == Quoted(KeyText(l), ascii) + ([COLON] + Dumps(w, ascii).value) + t
    ensures KeyText(k) == KeyText(l) && s == t && Dumps(v, ascii) == Dumps(w, ascii)
  {
    hide Dumps, ParseMember, Reread, Quoted, KeyText;
    MemberRoundTrip(KeyText(k), v, ascii, s);
    MemberRoundTrip(KeyText(l), w, ascii, t);
    var q := Quoted(KeyText(k), ascii) + [COLON];
    var a, b := Dumps(v, ascii).value, Dumps(w, ascii).value;
    assert Quoted(KeyText(k), ascii) + ([COLON] + a) + s == q + (a + s);
    assert Quoted(KeyText(l), ascii) + ([COLON] + b) + t == q + (b + t);
    assert a + s == (q + (a + s))[|q|..] && b + t == (q + (b + t))[|q|..];
    SameFront(a, b, s);
  }

  lemma {:induction false} SameItems(v: Value, vs: seq<Value>, w: Value, ws: seq<Value>, ascii: bool)
    requires (v.List? || v.Tuple?) && Encodable(v) && forall x | x in vs :: x in v.items
    requires (w.List? || w.Tuple?) && Encodable(w) && forall x | x in ws :: x in w.items
    requires |vs| == |ws| && DumpItems(v, vs, ascii).Some? && DumpItems(w, ws, ascii).Some?
    requires DumpItems(v, vs, ascii).value + [RBRACKET] == DumpItems(w, ws, ascii).value + [RBRACKET]
    ensures forall i | 0 <= i < |vs| :: Dumps(vs[i], ascii) == Dumps(ws[i], ascii)
  {
    hide Dumps;
    if vs != [] {
      assert vs[0] in vs && ws[0] in ws;
      var a, b := Dumps(vs[0], ascii).value, Dumps(ws[0], ascii).value;
      if |vs| == 1 {
        PrintedPrefix(vs[0], ws[0], [RBRACKET], [RBRACKET], ascii);
      } else {
        var s := DumpItems(v, vs[1..], ascii).value + [RBRACKET];
        var t := DumpItems(w, ws[1..], ascii).value + [RBRACKET];
        assert DumpItems(v, vs, ascii).value + [RBRACKET] == a + ([COMMA] + s);
        assert DumpItems(w, ws, ascii).value + [RBRACKET] == b + ([COMMA] + t);
        PrintedPrefix(vs[0], ws[0], [COMMA] + s, [COMMA] + t, ascii);
        assert s == ([COMMA] + s)[1..] && t == ([COMMA] + t)[1..];
        SameItems(v, vs[1..], w, ws[1..], ascii);
      }
    }
  }

  lemma {:induction false} SameMembers(v: Value, ks: seq<Key>, w: Value, ls: seq<Key>, ascii: bool)
    requires v.Dict? && Encodable(v) && forall k | k in ks :: k in v.entries
    requires w.Dict? && Encodable(w) && forall l | l in ls :: l in w.entries
    requires |ks| == |ls| && DumpMembers(v, ks, ascii).Some? && DumpMembers(w, ls, ascii).Some?
    requires DumpMembers(v, ks, ascii).value + [RBRACE] == DumpMembers(w, ls, ascii).value + [RBRACE]
    ensures forall i | 0 <= i < |ks| ::
              KeyText(ks[i]) == KeyText(ls[i]) && Dumps(v.entries[ks[i]], ascii) == Dumps(w.entries[ls[i]], ascii)
  {
    hide Dumps, Quoted, KeyText, Encodable, ScalarText;
    if ks != [] {
      assert ks[0] in ks && ls[0] in ls;
      EncodableMember(v, ks[0]);
      EncodableMember(w, ls[0]);
      var x, y := v.entries[ks[0]], w.entries[ls[0]];
      var a := Quoted(KeyText(ks[0]), ascii) + ([COLON] + Dumps(x, ascii).value);
      var b := Quoted(KeyText(ls[0]), ascii) + ([COLON] + Dumps(y, ascii).value);
      if |ks| == 1 {
        PrintedMemberPrefix(ks[0], x, ls[0], y, [RBRACE], [RBRACE], ascii);
      } else {
        var s := DumpMembers(v, ks[1..], ascii).value + [RBRACE];
        var t := DumpMembers(w, ls[1..], ascii).value + [RBRACE];
        assert DumpMembers(v, ks, ascii).value + [RBRACE] == a + ([COMMA] + s);
        assert DumpMembers(w, ls, ascii).value + [RBRACE] == b + ([COMMA] + t);
        PrintedMemberPrefix(ks[0], x, ls[0], y, [COMMA] + s, [COMMA] + t, ascii);
        assert s == ([COMMA] + s)[1..] && t == ([COMMA] + t)[1..];
        SameMembers(v, ks[1..], w, ls[1..], ascii);
      }
    }
  }

  lemma SameMemberCount(v: Value, ks: seq<Key>, w: Value, ls: seq<Key>, ascii: bool)
    requires v.Dict? && Encodable(v) && ks != [] && forall k | k in ks :: k in v.entries
    requires w.Dict? && Encodable(w) && ls != [] && forall l | l in ls :: l in w.entries
    requires DumpMembers(v, ks, ascii).Some? && DumpMembers(w, ls, ascii).Some?
    requires DumpMembers(v, ks, ascii).value + [RBRACE] == DumpMembers(w, ls, ascii).value + [RBRACE]
    ensures |ks| == |ls|
  {
    hide DumpMembers, ParseMembers;
    assert [RBRACE] + [] == [RBRACE];
    MembersRoundTrip(v, ks, ascii, []);
    MembersRoundTrip(w, ls, ascii, []);
  }

  lemma {:induction false} ListIsTextOrdered(v: Value, ascii: bool)
    requires (v.List? || v.Tuple?) && Encodable(v) && Dumps(Reread(v), ascii) == Dumps(v, ascii)
    ensures TextOrdered(v)
    decreases v, 0
  {
    var w := Reread(v);
    RereadIsNormal(v);
    NormalIsReread(w);
    DumpsDefined(v, ascii);
    var a, b := DumpItems(v, v.items, ascii).value, DumpItems(w, w.items, ascii).value;
    SameBody(a, b, LBRACKET, RBRACKET);
    SameItems(v, v.items, w, w.items, ascii);
    forall i | 0 <= i < |v.items|
      ensures TextOrdered(v.items[i])
    {
      PrintsAgainIsTextOrdered(v.items[i], ascii);
    }
  }

  lemma SameBody(a: Text, b: Text, opening: CodePoint, closing: CodePoint)
    requires [opening] + (a + [closing]) == [opening] + (b + [closing])
    ensures a + [closing] == b + [closing]
  {
    assert a + [closing] == ([opening] + (a + [closing]))[1..];
    assert b + [closing] == ([opening] + (b + [closing]))[1..];
  }

  /** Equal printed dictionaries have equal members. */
  lemma SameDictBody(v: Value, w: Value, ascii: bool)
    requires v.Dict? && w.Dict? && Dumps(v, ascii).Some? && Dumps(v, ascii) == Dumps(w, ascii)
    ensures Comparable(v.entries.Keys) && Comparable(w.entries.Keys)
    ensures var a, b := DumpMembers(v, SortKeys(v.entries.Keys), ascii), DumpMembers(w, SortKeys(w.entries.Keys), ascii);
            a.Some? && b.Some? && a.value + [RBRACE] == b.value + [RBRACE]
  {
    hide DumpMembers;
    SameBody(DumpMembers(v, SortKeys(v.entries.Keys), ascii).value, DumpMembers(w, SortKeys(w.entries.Keys), ascii).value,
             LBRACE, RBRACE);
  }

  lemma RereadsToDict(v: Value)
    requires v.Dict?
    ensures Reread(v).Dict? && forall p | p in Reread(v).entries :: p.StrKey?
  {
  }

  /** Each value of the dictionary prints again as it was. */
  lemma ValuesPrintAgain(v: Value, ks: seq<Key>, k: Key, ascii: bool)
    requires v.Dict? && Reread(v).Dict? && Comparable(v.entries.Keys) && k in v.entries && k in ks
    requires forall i | 0 <= i < |ks| ::
               && ks[i] in v.entries && PrintedKey(ks[i]) in Reread(v).entries
               && Dumps(v.entries[ks[i]], ascii) == Dumps(Reread(v).entries[PrintedKey(ks[i])], ascii)
    ensures Dumps(Reread(v.entries[k]), ascii) == Dumps(v.entries[k], ascii)
  {
    hide Dumps, Reread, PrintedKey, Comparable;
    RereadValue(v, k);
    var i :| 0 <= i < |ks| && ks[i] == k;
  }

  /** What the equal texts of a dictionary say about its keys and its values. */
  lemma DictReadOff(v: Value, ascii: bool)
    requires v.Dict? && Encodable(v) && Dumps(Reread(v), ascii) == Dumps(v, ascii)
    ensures Comparable(v.entries.Keys) && InTextOrder(SortKeys(v.entries.Keys))
    ensures forall k | k in v.entries :: Dumps(Reread(v.entries[k]), ascii) == Dumps(v.entries[k], ascii)
  {
    hide Dumps, DumpMembers, InTextOrder, Reread, Normal, Encodable, PrintedKey, KeyLe, Comparable;
    var m, w := v.entries, Reread(v);
    RereadsToDict(v);
    RereadIsNormal(v);
    NormalIsReread(w);
    DumpsDefined(v, ascii);
    SameDictBody(v, w, ascii);
    var ks, ls := SortKeys(m.Keys), SortKeys(w.entries.Keys);
    DictOrder(v, w, ks, ls, ascii);
    forall k | k in m
      ensures Dumps(Reread(m[k]), ascii) == Dumps(m[k], ascii)
    {
      ValuesPrintAgain(v, ks, k, ascii);
    }
  }

  lemma {:induction false} DictIsTextOrdered(v: Value, ascii: bool)
    requires v.Dict? && Encodable(v) && Dumps(Reread(v), ascii) == Dumps(v, ascii)
    ensures TextOrdered(v)
    decreases v, 0
  {
    hide Dumps, Reread, Encodable, InTextOrder, Comparable;
    DictReadOff(v, ascii);
    forall k | k in v.entries
      ensures TextOrdered(v.entries[k])
    {
      EncodableMember(v, k);
      PrintsAgainIsTextOrdered(v.entries[k], ascii);
    }
  }

  /** The order of the two key lists, read off the common text. */
  lemma DictOrder(v: Value, w: Value, ks: seq<Key>, ls: seq<Key>, ascii: bool)
    requires v.Dict? && Encodable(v) && w == Reread(v) && Encodable(w)
    requires ks == SortKeys(v.entries.Keys) && ls == SortKeys(w.entries.Keys)
    requires DumpMembers(v, ks, ascii).Some? && DumpMembers(w, ls, ascii).Some?
    requires DumpMembers(v, ks, ascii).value + [RBRACE] == DumpMembers(w, ls, ascii).value + [RBRACE]
    ensures |ks| == |ls| && InTextOrder(ks)
    ensures forall i | 0 <= i < |ks| ::
              && ks[i] in v.entries && PrintedKey(ks[i]) in w.entries
              && Dumps(v.entries[ks[i]], ascii) == Dumps(w.entries[PrintedKey(ks[i])], ascii)
  {
    hide Dumps, Encodable, DumpMembers, InTextOrder, TextLe;
    assert forall p :: p in ls <==> p in PrintedKeys(v.entries);
    EmptyTogether(v.entries, ks, ls);
    if ks != [] {
      SameMemberCount(v, ks, w, ls, ascii);
    }
    SameMembers(v, ks, w, ls, ascii);
    SameTextsInOrder(ks, ls);
    forall i | 0 <= i < |ks|
      ensures ks[i] in v.entries && ls[i] in w.entries
    {
      assert ks[i] in ks && ls[i] in ls;
    }
  }

  /** The texts of a sorted list of string keys are in order, and so are any keys with the same texts. */
  lemma SameTextsInOrder(ks: seq<Key>, ls: seq<Key>)
    requires |ks| == |ls| && forall l | l in ls :: l.StrKey?
    requires forall i, j | 0 <= i < j < |ls| :: KeyLe(ls[i], ls[j])
    requires forall i | 0 <= i < |ks| :: KeyText(ks[i]) == KeyText(ls[i])
    ensures InTextOrder(ks) && forall i | 0 <= i < |ks| :: ls[i] == PrintedKey(ks[i])
  {
    forall i | 0 <= i < |ls|
      ensures ls[i] == StrKey(KeyText(ks[i]))
    {
      assert ls[i] in ls;
    }
  }

  lemma EmptyTogether(m: map<Key, Value>, ks: seq<Key>, ls: seq<Key>)
    requires forall k :: k in ks <==> k in m
    requires forall p :: p in ls <==> p in PrintedKeys(m)
    ensures ks == [] <==> ls == []
  {
    if ks != [] {
      assert ks[0] in ks && PrintedKey(ks[0]) in PrintedKeys(m);
    }
    if ls != [] {
      assert ls[0] in ls && OriginalKey(m, ls[0]) in m;
    }
  }

  lemma {:induction false} PrintsAgainIsTextOrdered(v: Value, ascii: bool)
    requires Encodable(v) && Dumps(Reread(v), ascii) == Dumps(v, ascii)
    ensures TextOrdered(v)
    decreases v, 1
  {
    match v
    case List(vs) => ListIsTextOrdered(v, ascii);
    case Tuple(vs) => ListIsTextOrdered(v, ascii);
    case Dict(m) => DictIsTextOrdered(v, ascii);
    case _ =>
  }

  /** What was read back prints as the original exactly when the original was in text order throughout. */
  lemma PrintsAgainExactlyWhenTextOrdered(v: Value, ascii: bool)
    requires Encodable(v)
    ensures Dumps(Reread(v), ascii) == Dumps(v, ascii) <==> TextOrdered(v)
  {
    if TextOrdered(v) {
      TextOrderedPrintsAgain(v, ascii);
    }
    if Dumps(Reread(v), ascii) == Dumps(v, ascii) {
      PrintsAgainIsTextOrdered(v, ascii);
    }
  }
}
