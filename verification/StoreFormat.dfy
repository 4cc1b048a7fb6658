/** Which objects `save` accepts, what it writes, and which files `load` accepts, with the error of every refusal. */
module StoreFormat {
  import opened Basics
  import opened Json
  import opened JsonBytes
  import opened JsonImage
  import opened JsonOrder
  import opened JsonRoundTrip
  import opened Library
  import opened Store
  import opened StoreKeys
  import opened Utf8

  /** The header of every file: a marker and the format's version. */
  function Header(): Bytes {
    Ascii("CypherSyntax/store") + [1]
  }

  /** The object's canonical encoding has at most 1 MiB. */
  ghost predicate Fits(v: Value) {
    Dumps(v, false).Some? && |Encode(Dumps(v, false).value)| <= 1_048_576
  }

  /**
   `save` accepts exactly the dictionaries with text for outermost keys that can be encoded in 1 MiB. It raises
   TypeError exactly on what is no dictionary or has another outermost key, and StoreError on the rest. The file
   is the header, the salt, the nonce and the encoding sealed under them.
   */
  lemma SealsExactly(lib: Calls, passphrase: Bytes, salt: Bytes, nonce: Bytes, v: Value)
    ensures var r := Seal(lib, passphrase, salt, nonce, v);
            && (r.Ok? <==> TextKeyed(v) && Encodable(v) && Fits(v))
            && (!TextKeyed(v) <==> r == Err(TypeError))
            && (TextKeyed(v) && !(Encodable(v) && Fits(v)) ==> r == Err(StoreError))
            && (r.Ok? ==>
                  r.value == Header() + salt + nonce
                             + lib.seal(AesGcmSiv, lib.scrypt(passphrase, salt), nonce, Encode(Dumps(v, false).value), Header()))
  {
    hide Dumps, Encodable;
    EncodedExactlyWhenEncodable(v);
    EncodesExactly(v);
    HeaderIs();
  }

  lemma HeaderIs()
    ensures STORE_HEADER == Header() && |Header()| == 19 && Header()[..18] == Ascii("CypherSyntax/store") && Header()[18] == 1
  {
  }

  lemma EncodesExactly(v: Value)
    ensures EncodeObject(v).Ok? <==> TextKeyed(v) && Encodable(v) && Fits(v)
    ensures EncodeObject(v).Ok? ==> EncodeObject(v).value == Encode(Dumps(v, false).value)
  {
    hide Dumps, Encodable;
    EncodedExactlyWhenEncodable(v);
  }

  /** A decrypted plaintext is accepted exactly if it is the encoding of a JSON-normal dictionary. */
  lemma DecodesExactly(plaintext: Bytes, v: Value)
    ensures DecodePlaintext(plaintext).Err? ==> DecodePlaintext(plaintext).error == StoreError
    ensures DecodePlaintext(plaintext) == Ok(v) <==>
            Normal(v) && TextKeyed(v) && Fits(v) && plaintext == Encode(Dumps(v, false).value)
  {
    hide Dumps, Reread, TextOrdered, Encodable;
    EncodesExactly(v);
    if DecodePlaintext(plaintext) == Ok(v) {
      DecodedIsNormal(plaintext);
    }
    if Normal(v) && TextKeyed(v) && Fits(v) {
      NormalIsReread(v);
      NormalIsTextOrdered(v);
      DecodeAfterEncode(v);
    }
    DecodeErrors(plaintext);
  }

  lemma DecodeErrors(plaintext: Bytes)
    ensures DecodePlaintext(plaintext).Err? ==> DecodePlaintext(plaintext).error == StoreError
  {
    hide Dumps, ParseValue;
    if LoadBytes(plaintext).Some? && LoadBytes(plaintext).value.Dict? {
      ParsedValueShaped(SkipWhitespace(Decode(plaintext).value));
    }
  }

  lemma HeaderParts(blob: Bytes)
    requires |blob| >= 19
    ensures STORE_MAGIC <= blob && blob[|STORE_MAGIC|] == STORE_VERSION <==> blob[..19] == Header()
  {
    HeaderIs();
    assert |STORE_MAGIC| == 18;
    if STORE_MAGIC <= blob && blob[18] == STORE_VERSION {
      assert blob[..19] == blob[..18] + [blob[18]];
    }
    if blob[..19] == Header() {
      assert blob[..18] == blob[..19][..18];
      assert blob[18] == blob[..19][18];
    }
  }

  /**
   `load` returns an object exactly from a file of 63 bytes or more, 1 MiB of plaintext at most, that has the header,
   a salt and a nonce, and whose rest opens to the canonical encoding of that object; otherwise it raises StoreError.
   */
  lemma OpensExactly(lib: Calls, passphrase: Bytes, blob: Bytes, v: Value)
    ensures Open(lib, passphrase, blob).Err? ==> Open(lib, passphrase, blob).error == StoreError
    ensures Open(lib, passphrase, blob) == Ok(v) <==>
            && 63 <= |blob| <= 1_048_639 && blob[..19] == Header()
            && Normal(v) && TextKeyed(v) && Fits(v)
            && lib.open(AesGcmSiv, lib.scrypt(passphrase, blob[19..35]), blob[35..47], blob[47..], Header())
               == Some(Encode(Dumps(v, false).value))
  {
    hide Dumps, DecodePlaintext, Normal, Fits, TextKeyed;
    HeaderIs();
    if |blob| >= 63 {
      HeaderParts(blob);
      var plaintext := lib.open(AesGcmSiv, lib.scrypt(passphrase, blob[19..35]), blob[35..47], blob[47..], Header());
      if plaintext.Some? {
        DecodesExactly(plaintext.value, v);
      }
    }
  }

  /** The dictionary that `save` accepts one level further down is refused as the object itself. */
  lemma OutermostIntegerKeyIsRefused(lib: Calls, passphrase: Bytes, salt: Bytes, nonce: Bytes)
    ensures Encodable(ONE) && Fits(ONE)
    ensures !TextKeyed(ONE) && Seal(lib, passphrase, salt, nonce, ONE) == Err(TypeError)
  {
    hide Dumps;
    var printed := OnePrinted();
    EncodeSize(printed);
    assert IntKey(1) in ONE.entries;
    SealsExactly(lib, passphrase, salt, nonce, ONE);
  }
}
