/**
 The key check of `save` looks at the outermost keys only. Nested integer keys pass it and come back as
 text, or not at all: 9 sorts before 10 when the object is saved, but after it when `load` encodes it again.
 */
module StoreKeys {
  import opened Basics
  import opened Digits
  import opened Json
  import opened JsonBytes
  import opened JsonOrder
  import opened JsonRoundTrip
  import opened Library
  import opened Store
  import opened Utf8

  function Numbered(x: Value, y: Value): Value {
    Dict(map[IntKey(9) := x, IntKey(10) := y])
  }

  function Under(t: Text, v: Value): Value {
    Dict(map[StrKey(t) := v])
  }

  lemma NineAndTen()
    ensures PrintInt(9) == Lit("9") && PrintInt(10) == Lit("10")
    ensures !TextLe(Lit("9"), Lit("10"))
  {
    assert PrintInt(9) == ['9' as int];
    assert PrintInt(10) == ['1' as int, '0' as int];
    assert Lit("9") == ['9' as int];
    assert Lit("10") == ['1' as int, '0' as int];
  }

  lemma SortedPair(a: Key, b: Key)
    requires a != b && KeyLe(a, a) && KeyLe(a, b) && KeyLe(b, b)
    ensures Comparable({a, b}) && SortKeys({a, b}) == [a, b]
  {
    SortKeysIs({a, b}, [a, b]);
  }

  lemma SortedOne(k: Key)
    requires KeyLe(k, k)
    ensures Comparable({k}) && SortKeys({k}) == [k]
  {
    SortKeysIs({k}, [k]);
  }

  lemma NumberedOrder(x: Value, y: Value)
    ensures Comparable(Numbered(x, y).entries.Keys)
    ensures SortKeys(Numbered(x, y).entries.Keys) == [IntKey(9), IntKey(10)]
  {
    assert Numbered(x, y).entries.Keys == {IntKey(9), IntKey(10)};
    SortedPair(IntKey(9), IntKey(10));
  }

  lemma NumberedNotTextOrdered(t: Text, x: Value, y: Value)
    ensures !TextOrdered(Under(t, Numbered(x, y)))
  {
    NineAndTen();
    NumberedOrder(x, y);
    var keys := SortKeys(Numbered(x, y).entries.Keys);
    assert !TextLe(KeyText(keys[0]), KeyText(keys[1]));
    assert Under(t, Numbered(x, y)).entries[StrKey(t)] == Numbered(x, y);
  }

  /** Whatever the name and the values, keys 9 and 10 side by side below the top are saved and then refused. */
  lemma NineBesideTenIsRefused(lib: Calls, passphrase: Bytes, salt: Bytes, nonce: Bytes, t: Text, x: Value, y: Value)
    requires Lawful(lib) && |salt| == STORE_SALT_BYTES && |nonce| == STORE_NONCE_BYTES
    requires Seal(lib, passphrase, salt, nonce, Under(t, Numbered(x, y))).Ok?
    ensures Open(lib, passphrase, Seal(lib, passphrase, salt, nonce, Under(t, Numbered(x, y))).value) == Err(StoreError)
  {
    NumberedNotTextOrdered(t, x, y);
    LoadAfterSave(lib, passphrase, salt, nonce, Under(t, Numbered(x, y)));
  }

  // ---------- objects small enough to be saved ----------

  lemma {:induction false} EncodeSize(t: Text)
    ensures |Encode(t)| <= 4 * |t|
  {
    if t != [] {
      EncodeSize(t[1..]);
    }
  }

  lemma UnderPrinted(t: Text, v: Value, printed: Text)
    requires Dumps(v, false) == Some(printed)
    ensures Dumps(Under(t, v), false) == Some([LBRACE] + (Quoted(t, false) + ([COLON] + printed) + [RBRACE]))
  {
    var k := StrKey(t);
    TextLeTotal(t, t);
    SortedOne(k);
    assert Under(t, v).entries.Keys == {k};
    assert DumpMembers(Under(t, v), [k], false) == Some(Quoted(t, false) + ([COLON] + printed));
  }

  /** A dictionary without a name, holding a small encodable value, can be saved. */
  lemma SmallIsSaved(lib: Calls, passphrase: Bytes, salt: Bytes, nonce: Bytes, v: Value, printed: Text)
    requires Encodable(v) && Dumps(v, false) == Some(printed) && |printed| <= 100
    ensures Seal(lib, passphrase, salt, nonce, Under([], v)).Ok?
  {
    hide Dumps, Encodable, Encode, ScalarText;
    UnderPrinted([], v, printed);
    DumpsScalar(v, false);
    ScalarEmpty();
    MemberScalar([], printed, false);
    BracketsScalar();
    ScalarJoined(Quoted([], false) + ([COLON] + printed), [RBRACE]);
    ScalarJoined([LBRACE], Quoted([], false) + ([COLON] + printed) + [RBRACE]);
    EncodeSize([LBRACE] + (Quoted([], false) + ([COLON] + printed) + [RBRACE]));
  }

  lemma NumberedPrinted() returns (printed: Text)
    ensures Encodable(Numbered(Null, Null))
    ensures Dumps(Numbered(Null, Null), false) == Some(printed) && |printed| <= 100
  {
    var v := Numbered(Null, Null);
    NineAndTen();
    NumberedOrder(Null, Null);
    var nine := Quoted(Lit("9"), false) + ([COLON] + Lit("null"));
    var ten := Quoted(Lit("10"), false) + ([COLON] + Lit("null"));
    assert [IntKey(9), IntKey(10)][1..] == [IntKey(10)];
    assert DumpMembers(v, [IntKey(10)], false) == Some(ten);
    assert DumpMembers(v, [IntKey(9), IntKey(10)], false) == Some(nine + ([COMMA] + ten));
    PlainEscape(Lit("9"), false);
    PlainEscape(Lit("10"), false);
    printed := [LBRACE] + (nine + ([COMMA] + ten) + [RBRACE]);
  }

  /** `{"": {9: None, 10: None}}` is saved and cannot be loaded. */
  lemma SavedButLost(lib: Calls, passphrase: Bytes, salt: Bytes, nonce: Bytes)
    requires Lawful(lib) && |salt| == STORE_SALT_BYTES && |nonce| == STORE_NONCE_BYTES
    ensures var blob := Seal(lib, passphrase, salt, nonce, Under([], Numbered(Null, Null)));
            blob.Ok? && Open(lib, passphrase, blob.value) == Err(StoreError)
  {
    var printed := NumberedPrinted();
    SmallIsSaved(lib, passphrase, salt, nonce, Numbered(Null, Null), printed);
    NineBesideTenIsRefused(lib, passphrase, salt, nonce, [], Null, Null);
  }

  const ONE: Value := Dict(map[IntKey(1) := Null])
  const TEXT_ONE: Value := Dict(map[StrKey(Lit("1")) := Null])

  lemma OnePrinted() returns (printed: Text)
    ensures Encodable(ONE) && TextOrdered(ONE) && Reread(ONE) == TEXT_ONE
    ensures Dumps(ONE, false) == Some(printed) && |printed| <= 100
  {
    var k := IntKey(1);
    assert PrintInt(1) == ['1' as int] == Lit("1");
    assert ONE.entries.Keys == {k};
    SortedOne(k);
    RereadEntry(ONE.entries, k);
    assert forall p :: p in PrintedKeys(ONE.entries) <==> p == PrintedKey(k);
    assert Reread(ONE).entries == TEXT_ONE.entries;
    PlainEscape(Lit("1"), false);
    var member := Quoted(Lit("1"), false) + ([COLON] + Lit("null"));
    assert DumpMembers(ONE, [k], false) == Some(member);
    printed := [LBRACE] + (member + [RBRACE]);
  }

  /** `{"": {1: None}}` is saved and loads as `{"": {"1": None}}`. */
  lemma SavedAndChanged(lib: Calls, passphrase: Bytes, salt: Bytes, nonce: Bytes)
    requires Lawful(lib) && |salt| == STORE_SALT_BYTES && |nonce| == STORE_NONCE_BYTES
    ensures var blob := Seal(lib, passphrase, salt, nonce, Under([], ONE));
            blob.Ok? && Open(lib, passphrase, blob.value) == Ok(Under([], TEXT_ONE))
  {
    var printed := OnePrinted();
    SmallIsSaved(lib, passphrase, salt, nonce, ONE, printed);
    LoadAfterSave(lib, passphrase, salt, nonce, Under([], ONE));
    UnderReread([], ONE);
  }

  lemma UnderReread(t: Text, v: Value)
    ensures Reread(Under(t, v)) == Under(t, Reread(v))
    ensures TextOrdered(v) ==> TextOrdered(Under(t, v))
  {
    var k := StrKey(t);
    var u := Under(t, v);
    TextLeTotal(t, t);
    assert u.entries.Keys == {k};
    SortedOne(k);
    RereadEntry(u.entries, k);
    assert forall p :: p in PrintedKeys(u.entries) <==> p == k;
    assert Reread(u).entries == Under(t, Reread(v)).entries;
  }
}
