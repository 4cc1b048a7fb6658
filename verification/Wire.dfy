/** The canonical message envelope. */
module Wire {
  import opened Basics
  import opened Digits
  import opened Json
  import opened JsonBytes
  import opened JsonRoundTrip
  import opened Library
  import opened Protocol
  import opened Utf8

  datatype Envelope = Envelope(
    version: int, suite: Text, sender: Text, recipient: Text, sequence: int, ciphertext: Bytes)

  const VERSION := StrKey(Lit("v"))
  const SUITE := StrKey(Lit("suite"))
  const SENDER := StrKey(Lit("sender"))
  const RECIPIENT := StrKey(Lit("recipient"))
  const SEQUENCE := StrKey(Lit("sequence"))
  const CIPHERTEXT := StrKey(Lit("ciphertext"))
  const ENVELOPE_FIELDS: set<Key> := {VERSION, SUITE, SENDER, RECIPIENT, SEQUENCE, CIPHERTEXT}

  predicate UpperCase(c: CodePoint) {
    65 <= c <= 90
  }

  /** `[A-Z][A-Z0-9_]*` of 1 to 64 characters. */
  predicate ValidSuiteName(t: Text) {
    && 1 <= |t| <= MAX_SUITE_NAME_BYTES
    && UpperCase(t[0])
    && forall i | 0 <= i < |t| :: UpperCase(t[i]) || IsDigit(t[i]) || t[i] == '_' as int
  }

  predicate ValidVersion(v: int) {
    1 <= v <= MAX_PROTOCOL_VERSION
  }

  predicate ValidMetadata(lib: Calls, e: Envelope) {
    && ValidVersion(e.version)
    && ValidSuiteName(e.suite)
    && ValidName(lib, e.sender)
    && ValidName(lib, e.recipient)
    && e.sender != e.recipient
    && ValidSequence(e.sequence)
  }

  predicate ValidEnvelope(lib: Calls, e: Envelope) {
    && ValidMetadata(lib, e)
    && AEAD_TAG_BYTES <= |e.ciphertext| <= MAX_CIPHERTEXT_BYTES
  }

  function MetadataEntries(e: Envelope): map<Key, Value> {
    map[VERSION := Int(e.version), SUITE := Str(e.suite), SENDER := Str(e.sender),
        RECIPIENT := Str(e.recipient), SEQUENCE := Int(e.sequence)]
  }

  function Entries(e: Envelope): map<Key, Value> {
    MetadataEntries(e)[CIPHERTEXT := Str(Hex(e.ciphertext))]
  }

  function AssociatedData(lib: Calls, e: Envelope): Result<Bytes> {
    var valid := ValidMetadata(lib, e);
    :- Need(valid, EnvelopeError);
    var encoded := DumpBytes(Dict(MetadataEntries(e)), true);
    if encoded.Some? then Ok(encoded.value) else Err(EnvelopeError)
  }

  function ToBytes(lib: Calls, e: Envelope): Result<Bytes> {
    var valid := ValidEnvelope(lib, e);
    :- Need(valid, EnvelopeError);
    var encoded := DumpBytes(Dict(Entries(e)), true);
    if encoded.Some? && |encoded.value| <= MAX_ENVELOPE_BYTES then Ok(encoded.value) else Err(EnvelopeError)
  }

  /** `_decode_ciphertext` */
  function DecodeCiphertext(v: Value): Result<Bytes> {
    var canonical := v.Str? && |v.text| % 2 == 0 && v.text != [] && HexText(v.text);
    :- Need(canonical, EnvelopeError);
    Ok(FromHex(v.text))
  }

  /** The validated envelope of a decoded dictionary. */
  function FromEntries(lib: Calls, fields: map<Key, Value>): Result<Envelope> {
    var expected := fields.Keys == ENVELOPE_FIELDS;
    :- Need(expected, EnvelopeError);
    :- Need(fields[VERSION].Int? && ValidVersion(fields[VERSION].number), EnvelopeError);
    :- Need(fields[SUITE].Str? && ValidSuiteName(fields[SUITE].text), EnvelopeError);
    :- Need(fields[SENDER].Str? && ValidName(lib, fields[SENDER].text), EnvelopeError);
    :- Need(fields[RECIPIENT].Str? && ValidName(lib, fields[RECIPIENT].text), EnvelopeError);
    var ciphertext :- DecodeCiphertext(fields[CIPHERTEXT]);
    :- Need(fields[SEQUENCE].Int?, EnvelopeError);
    var e := Envelope(fields[VERSION].number, fields[SUITE].text, fields[SENDER].text,
                      fields[RECIPIENT].text, fields[SEQUENCE].number, ciphertext);
    :- Need(ValidEnvelope(lib, e), EnvelopeError);
    Ok(e)
  }

  function FromBytes(lib: Calls, data: Bytes): Result<Envelope> {
    var bounded := data != [] && |data| <= MAX_ENVELOPE_BYTES;
    :- Need(bounded, EnvelopeError);
    var raw := LoadBytes(data);
    :- Need(raw.Some? && raw.value.Dict?, EnvelopeError);
    var e :- FromEntries(lib, raw.value.entries);
    :- Need(ToBytes(lib, e) == Ok(data), EnvelopeError);
    Ok(e)
  }

  // ---------- the dictionary of an envelope ----------

  lemma FieldNamesDiffer()
    ensures |VERSION.text| == 1 && |SUITE.text| == 5 && |SENDER.text| == 6
    ensures |RECIPIENT.text| == 9 && |SEQUENCE.text| == 8 && |CIPHERTEXT.text| == 10
  {
  }

  lemma FieldNamesPlain()
    ensures forall k | k in ENVELOPE_FIELDS :: k.StrKey? && PlainText(k.text) && ScalarText(k.text)
  {
  }

  lemma SuiteNameScalar(t: Text)
    requires ValidSuiteName(t)
    ensures ScalarText(t) && PlainText(t)
  {
  }

  lemma EntriesNormal(lib: Calls, e: Envelope)
    requires ValidMetadata(lib, e)
    ensures Normal(Dict(MetadataEntries(e))) && Normal(Dict(Entries(e)))
  {
    hide Lit, Hex, PlainText, Encode;
    FieldNamesPlain();
    HexPlain(e.ciphertext);
    SuiteNameScalar(e.suite);
    assert Entries(e).Keys == ENVELOPE_FIELDS;
  }

  lemma EntriesDetermine(e: Envelope)
    ensures var m := Entries(e);
            && m.Keys == ENVELOPE_FIELDS
            && m[VERSION] == Int(e.version) && m[SUITE] == Str(e.suite) && m[SENDER] == Str(e.sender)
            && m[RECIPIENT] == Str(e.recipient) && m[SEQUENCE] == Int(e.sequence)
            && m[CIPHERTEXT] == Str(Hex(e.ciphertext))
    ensures var m := MetadataEntries(e);
            && {VERSION, SUITE, SENDER, RECIPIENT, SEQUENCE} <= m.Keys
            && m[VERSION] == Int(e.version) && m[SUITE] == Str(e.suite) && m[SENDER] == Str(e.sender)
            && m[RECIPIENT] == Str(e.recipient) && m[SEQUENCE] == Int(e.sequence)
  {
    FieldNamesDiffer();
  }

  // ---------- every valid envelope fits ----------

  lemma TwentyDigits()
    ensures 0x1_0000_0000_0000_0000 <= Pow10(20) && 0x1_0000 <= Pow10(5)
  {
    assert Pow10(5) == 100000;
    assert Pow10(10) == 100000 * Pow10(5);
    assert Pow10(15) == 100000 * Pow10(10);
    assert Pow10(20) == 100000 * Pow10(15);
  }

  /** Six-fold escaping of two 255-byte names leaves room, so `to_bytes` never raises its size error. */
  lemma EnvelopeFits(lib: Calls, e: Envelope)
    requires ValidEnvelope(lib, e)
    ensures DumpBytes(Dict(Entries(e)), true).Some?
    ensures |DumpBytes(Dict(Entries(e)), true).value| <= MAX_ENVELOPE_BYTES
  {
    hide Lit, Hex, PlainText, Encode, Entries, MemberSize, ValidName, ValidSuiteName;
    var v := Dict(Entries(e));
    EntriesNormal(lib, e);
    EntriesDetermine(e);
    FieldNamesDiffer();
    FieldNamesPlain();
    HexPlain(e.ciphertext);
    SuiteNameScalar(e.suite);
    NamesSize(lib, e);
    TwentyDigits();
    NormalScalar(v, true);
    PlainMemberSize(v, CIPHERTEXT, Hex(e.ciphertext), true);
    TextMemberSize(v, SENDER, e.sender, true);
    TextMemberSize(v, RECIPIENT, e.recipient, true);
    PlainMemberSize(v, SUITE, e.suite, true);
    NumberMemberSize(v, VERSION, e.version, 5, true);
    NumberMemberSize(v, SEQUENCE, e.sequence, 20, true);
    SixMembers(v);
    ObjectSize(v, true);
  }

  lemma NamesSize(lib: Calls, e: Envelope)
    requires ValidMetadata(lib, e)
    ensures |Encode(e.sender)| <= 255 && |Encode(e.recipient)| <= 255 && |e.suite| <= 64
  {
  }

  lemma SixMembers(v: Value)
    requires v.Dict?
    ensures MembersSize(v, ENVELOPE_FIELDS, true)
            == MemberSize(v, CIPHERTEXT, true) + MemberSize(v, SENDER, true) + MemberSize(v, RECIPIENT, true)
               + MemberSize(v, SUITE, true) + MemberSize(v, VERSION, true) + MemberSize(v, SEQUENCE, true)
  {
    hide Lit, MemberSize;
    FieldNamesDiffer();
    TwoMembers(v, ENVELOPE_FIELDS, CIPHERTEXT, SENDER);
    TwoMembers(v, {RECIPIENT, SUITE, VERSION, SEQUENCE}, RECIPIENT, SUITE);
    TwoMembers(v, {VERSION, SEQUENCE}, VERSION, SEQUENCE);
    assert ENVELOPE_FIELDS - {CIPHERTEXT, SENDER} == {RECIPIENT, SUITE, VERSION, SEQUENCE};
    assert {RECIPIENT, SUITE, VERSION, SEQUENCE} - {RECIPIENT, SUITE} == {VERSION, SEQUENCE};
    assert {VERSION, SEQUENCE} - {VERSION, SEQUENCE} == {};
  }

  lemma TwoMembers(v: Value, keys: set<Key>, a: Key, b: Key)
    requires v.Dict? && a in keys && b in keys && a != b
    ensures MembersSize(v, keys, true) == MemberSize(v, a, true) + MemberSize(v, b, true) + MembersSize(v, keys - {a, b}, true)
  {
    CountMember(v, keys, a, true);
    CountMember(v, keys - {a}, b, true);
    assert keys - {a} - {b} == keys - {a, b};
  }

  // ---------- the codec ----------

  lemma FromEntriesInvertsEntries(lib: Calls, e: Envelope)
    requires ValidEnvelope(lib, e)
    ensures FromEntries(lib, Entries(e)) == Ok(e)
  {
    EntriesDetermine(e);
    FromHexInvertsHex(e.ciphertext);
  }

  /** The bytes of a valid envelope, and what they load as. */
  lemma EnvelopeBytes(lib: Calls, e: Envelope) returns (data: Bytes)
    requires ValidEnvelope(lib, e)
    ensures DumpBytes(Dict(Entries(e)), true) == Some(data)
    ensures LoadBytes(data) == Some(Dict(Entries(e)))
    ensures data != [] && |data| <= MAX_ENVELOPE_BYTES
  {
    EntriesNormal(lib, e);
    EnvelopeFits(lib, e);
    data := DumpBytes(Dict(Entries(e)), true).value;
    LoadBytesInvertsDumpBytes(Dict(Entries(e)), true);
    NothingLoadsFromNothing();
  }

  /** Encoding never fails on a valid envelope, and decoding undoes it. */
  lemma FromBytesInvertsToBytes(lib: Calls, e: Envelope)
    requires ValidEnvelope(lib, e)
    ensures ToBytes(lib, e).Ok?
    ensures FromBytes(lib, ToBytes(lib, e).value) == Ok(e)
  {
    FromEntriesInvertsEntries(lib, e);
    var data := EnvelopeBytes(lib, e);
    assert ToBytes(lib, e) == Ok(data);
  }

  /** `from_bytes` accepts exactly what `to_bytes` produces from valid envelopes. */
  lemma FromBytesAcceptsExactlyTheImage(lib: Calls, data: Bytes)
    ensures FromBytes(lib, data).Ok? <==> exists e :: ValidEnvelope(lib, e) && ToBytes(lib, e) == Ok(data)
    ensures FromBytes(lib, data).Ok? ==>
              var e := FromBytes(lib, data).value; ValidEnvelope(lib, e) && ToBytes(lib, e) == Ok(data)
  {
    if e :| ValidEnvelope(lib, e) && ToBytes(lib, e) == Ok(data) {
      FromBytesInvertsToBytes(lib, e);
    }
  }

  /** No two byte strings decode to one envelope. */
  lemma FromBytesInjective(lib: Calls, data: Bytes, other: Bytes)
    requires FromBytes(lib, data).Ok? && FromBytes(lib, data) == FromBytes(lib, other)
    ensures data == other
  {
    FromBytesAcceptsExactlyTheImage(lib, data);
    FromBytesAcceptsExactlyTheImage(lib, other);
  }

  /** Associated data exists for valid metadata and fixes every field of it. */
  lemma AssociatedDataInjective(lib: Calls, e: Envelope, f: Envelope)
    requires ValidMetadata(lib, e)
    ensures AssociatedData(lib, e).Ok?
    ensures AssociatedData(lib, e) == AssociatedData(lib, f) ==> e.(ciphertext := f.ciphertext) == f
  {
    EntriesNormal(lib, e);
    LoadBytesInvertsDumpBytes(Dict(MetadataEntries(e)), true);
    if AssociatedData(lib, e) == AssociatedData(lib, f) {
      EntriesNormal(lib, f);
      DumpBytesInjective(Dict(MetadataEntries(e)), Dict(MetadataEntries(f)), true);
      EntriesDetermine(e);
      EntriesDetermine(f);
    }
  }

  lemma NewlineEncodes(t: Text)
    requires ScalarText(t)
    ensures Decode(Encode(t) + [10]) == Some(t + [10])
  {
    EncodeConcat(t, [10]);
    assert Encode([10]) == [10];
    DecodeInvertsEncode(t + [10]);
  }

  lemma NewlineIsSkipped(v: Value)
    requires Normal(v) && Dumps(v, true).Some?
    ensures Loads(Dumps(v, true).value + [10]) == Some(v)
  {
    NormalIsReread(v);
    ValueRoundTrip(v, true, [10]);
    DumpsStarts(v, true, [10]);
    NotSpace(Dumps(v, true).value + [10]);
    assert SkipWhitespace([10]) == [];
  }

  lemma NewlineLoads(v: Value, data: Bytes)
    requires Normal(v) && DumpBytes(v, true) == Some(data)
    ensures LoadBytes(data + [10]) == Some(v)
  {
    var t := Dumps(v, true).value;
    NewlineEncodes(t);
    NewlineIsSkipped(v);
  }

  /** Bytes that load as an envelope but are not its encoding are refused. */
  lemma OtherEncodingIsRefused(lib: Calls, e: Envelope, data: Bytes)
    requires LoadBytes(data) == Some(Dict(Entries(e))) && FromEntries(lib, Entries(e)) == Ok(e)
    requires ToBytes(lib, e) != Ok(data)
    ensures FromBytes(lib, data) == Err(EnvelopeError)
  {
  }

  /**
   The re-encoding check does work that parsing does not: a canonical packet with a newline after it is
   read as the same dictionary, yet it is refused.
   */
  lemma TrailingNewlineIsRefused(lib: Calls, e: Envelope)
    requires ValidEnvelope(lib, e)
    ensures ToBytes(lib, e).Ok?
    ensures LoadBytes(ToBytes(lib, e).value + [10]) == LoadBytes(ToBytes(lib, e).value) == Some(Dict(Entries(e)))
    ensures FromBytes(lib, ToBytes(lib, e).value + [10]).Err?
  {
    FromEntriesInvertsEntries(lib, e);
    EntriesNormal(lib, e);
    var data := EnvelopeBytes(lib, e);
    NewlineLoads(Dict(Entries(e)), data);
    assert ToBytes(lib, e) == Ok(data);
    assert data + [10] != data;
    OtherEncodingIsRefused(lib, e, data + [10]);
  }
}
