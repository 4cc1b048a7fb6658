/** The exact bytes of an envelope and of its associated data. */
module WireText {
  import opened Basics
  import opened Digits
  import opened Json
  import opened JsonBytes
  import opened JsonOrder
  import opened JsonText
  import opened KeySchedule
  import opened Library
  import opened Protocol
  import opened Utf8
  import opened Wire

  /** A text between quotes, with ASCII escapes. */
  function Escaped(t: Text): Text {
    QuotedText(t, true)
  }

  /** The members that a packet and its associated data share. */
  function MetadataMembers(e: Envelope): seq<Text> {
    [Member("recipient", Escaped(e.recipient)), Member("sender", Escaped(e.sender)),
     Member("sequence", PrintInt(e.sequence)), Member("suite", Escaped(e.suite)), Member("v", PrintInt(e.version))]
  }

  /** The associated data of an envelope as text. */
  function MetadataText(e: Envelope): Text {
    Object(MetadataMembers(e))
  }

  /** A packet as text. */
  function EnvelopeText(e: Envelope): Text {
    Object([Member("ciphertext", Escaped(Hex(e.ciphertext)))] + MetadataMembers(e))
  }

  const METADATA_ORDER: seq<Key> := [RECIPIENT, SENDER, SEQUENCE, SUITE, VERSION]

  lemma NamesAre()
    ensures VERSION == StrKey(Lit("v")) && SUITE == StrKey(Lit("suite")) && SENDER == StrKey(Lit("sender"))
    ensures RECIPIENT == StrKey(Lit("recipient")) && SEQUENCE == StrKey(Lit("sequence")) && CIPHERTEXT == StrKey(Lit("ciphertext"))
    ensures PlainText(Lit("v")) && PlainText(Lit("suite")) && PlainText(Lit("sender"))
    ensures PlainText(Lit("recipient")) && PlainText(Lit("sequence")) && PlainText(Lit("ciphertext"))
  {
  }

  lemma NamesAscend()
    ensures KeyLe(CIPHERTEXT, RECIPIENT) && KeyLe(RECIPIENT, SENDER) && KeyLe(SENDER, SEQUENCE)
    ensures KeyLe(SEQUENCE, SUITE) && KeyLe(SUITE, VERSION)
  {
    FirstDifference(CIPHERTEXT.text, RECIPIENT.text, 0);
    FirstDifference(RECIPIENT.text, SENDER.text, 0);
    assert SENDER.text[..2] == SEQUENCE.text[..2];
    FirstDifference(SENDER.text, SEQUENCE.text, 2);
    FirstDifference(SEQUENCE.text, SUITE.text, 1);
    FirstDifference(SUITE.text, VERSION.text, 0);
  }

  lemma NamesSorted()
    ensures Sorted({RECIPIENT, SENDER, SEQUENCE, SUITE, VERSION}, METADATA_ORDER)
    ensures Sorted(ENVELOPE_FIELDS, [CIPHERTEXT] + METADATA_ORDER)
  {
    NamesAscend();
    FieldNamesDiffer();
    assert SENDER != SEQUENCE;
    AscendingIsSorted(METADATA_ORDER, {RECIPIENT, SENDER, SEQUENCE, SUITE, VERSION});
    AscendingIsSorted([CIPHERTEXT] + METADATA_ORDER, ENVELOPE_FIELDS);
  }

  lemma MetadataShows(e: Envelope, v: Value)
    requires v == Dict(MetadataEntries(e)) || v == Dict(Entries(e))
    ensures ShowsAll(v, METADATA_ORDER, MetadataMembers(e), true)
  {
    hide Lit, Hex, PlainText, Shows, MetadataEntries, Entries;
    NamesAre();
    EntriesDetermine(e);
    ShowsText(v, "recipient", e.recipient, true);
    ShowsText(v, "sender", e.sender, true);
    ShowsNumber(v, "sequence", e.sequence, true);
    ShowsText(v, "suite", e.suite, true);
    ShowsNumber(v, "v", e.version, true);
  }

  lemma CiphertextShows(e: Envelope)
    ensures ShowsAll(Dict(Entries(e)), [CIPHERTEXT] + METADATA_ORDER,
                     [Member("ciphertext", Escaped(Hex(e.ciphertext)))] + MetadataMembers(e), true)
  {
    hide Lit, Hex, PlainText, Shows, Entries, MetadataMembers, METADATA_ORDER;
    NamesAre();
    EntriesDetermine(e);
    MetadataShows(e, Dict(Entries(e)));
    ShowsText(Dict(Entries(e)), "ciphertext", Hex(e.ciphertext), true);
  }

  lemma MetadataPrints(e: Envelope)
    ensures Dumps(Dict(MetadataEntries(e)), true) == Some(MetadataText(e))
  {
    hide Lit, ShowsAll, Sorted, Member, Escaped, Object;
    NamesSorted();
    MetadataShows(e, Dict(MetadataEntries(e)));
    ShowsObject(Dict(MetadataEntries(e)), METADATA_ORDER, MetadataMembers(e), true);
  }

  lemma EntriesSorted(e: Envelope)
    ensures Sorted(Entries(e).Keys, [CIPHERTEXT] + METADATA_ORDER) && forall k | k in Entries(e) :: k.StrKey?
  {
    hide Lit, Hex, Sorted, Entries, PlainText, ENVELOPE_FIELDS, METADATA_ORDER;
    NamesSorted();
    EntriesDetermine(e);
    FieldNamesPlain();
  }

  lemma EnvelopePrints(e: Envelope)
    ensures Dumps(Dict(Entries(e)), true) == Some(EnvelopeText(e))
  {
    hide Lit, ShowsAll, Sorted, Member, Escaped, Object, Hex, Entries, MetadataMembers, METADATA_ORDER, CIPHERTEXT, Dumps;
    EntriesSorted(e);
    CiphertextShows(e);
    ShowsObject(Dict(Entries(e)), [CIPHERTEXT] + METADATA_ORDER,
                [Member("ciphertext", Escaped(Hex(e.ciphertext)))] + MetadataMembers(e), true);
  }

  // ---------- only visible ASCII ----------

  lemma {:induction false} PrintNatVisible(n: nat)
    ensures Visible(PrintNat(n))
  {
    if n >= 10 {
      PrintNatVisible(n / 10);
    }
  }

  lemma MemberVisible(name: string, printed: Text)
    requires PlainText(Lit(name)) && Visible(printed)
    ensures Visible(Member(name, printed))
  {
    hide Lit;
  }

  lemma EscapedVisible(t: Text)
    ensures Visible(Escaped(t))
  {
    EscapedIsVisible(t);
  }

  lemma {:induction false} CommasVisible(members: seq<Text>)
    requires forall i | 0 <= i < |members| :: Visible(members[i])
    ensures Visible(Commas(members))
  {
    if |members| > 1 {
      CommasVisible(members[1..]);
    }
  }

  lemma ObjectVisible(members: seq<Text>)
    requires forall i | 0 <= i < |members| :: Visible(members[i])
    ensures Visible(Object(members))
  {
    CommasVisible(members);
  }

  lemma TextsVisible(e: Envelope)
    requires e.version >= 0 && e.sequence >= 0
    ensures Visible(MetadataText(e)) && Visible(EnvelopeText(e))
  {
    hide Visible, Lit, Member, Escaped, Object, Hex;
    NamesAre();
    EscapedVisible(e.recipient);
    EscapedVisible(e.sender);
    EscapedVisible(e.suite);
    EscapedVisible(Hex(e.ciphertext));
    PrintNatVisible(e.sequence);
    PrintNatVisible(e.version);
    MemberVisible("recipient", Escaped(e.recipient));
    MemberVisible("sender", Escaped(e.sender));
    MemberVisible("sequence", PrintInt(e.sequence));
    MemberVisible("suite", Escaped(e.suite));
    MemberVisible("v", PrintInt(e.version));
    MemberVisible("ciphertext", Escaped(Hex(e.ciphertext)));
    ObjectVisible(MetadataMembers(e));
    ObjectVisible([Member("ciphertext", Escaped(Hex(e.ciphertext)))] + MetadataMembers(e));
  }

  lemma VisibleBytes(v: Value, t: Text)
    requires Dumps(v, true) == Some(t) && Visible(t)
    ensures DumpBytes(v, true).Some? && DumpBytes(v, true).value == t
  {
    AsciiBytes(t);
  }

  // ---------- the theorems ----------

  /** The five fields of the associated data under their names. */
  function MetadataDict(e: Envelope): Value {
    Dict(map[StrKey(Lit("v")) := Int(e.version), StrKey(Lit("suite")) := Str(e.suite), StrKey(Lit("sender")) := Str(e.sender),
             StrKey(Lit("recipient")) := Str(e.recipient), StrKey(Lit("sequence")) := Int(e.sequence)])
  }

  /**
   The associated data of valid metadata is this text in visible ASCII, one byte a character, and reads back as the
   five named fields; other metadata raises EnvelopeError.
   */
  lemma AssociatedDataIs(lib: Calls, e: Envelope)
    ensures var data := AssociatedData(lib, e);
            && (data.Ok? <==> ValidMetadata(lib, e))
            && (data.Err? ==> data.error == EnvelopeError)
            && (data.Ok? ==> data.value == MetadataText(e) && Visible(data.value) && LoadBytes(data.value) == Some(MetadataDict(e)))
  {
    hide Lit, MetadataText, Visible, ValidName, ValidSuiteName;
    if ValidMetadata(lib, e) {
      EntriesNormal(lib, e);
      LoadBytesInvertsDumpBytes(Dict(MetadataEntries(e)), true);
      MetadataPrints(e);
      TextsVisible(e);
      VisibleBytes(Dict(MetadataEntries(e)), MetadataText(e));
      NamesAre();
    }
  }

  /** A valid envelope is this text in visible ASCII and reads back as the six named fields; any other raises EnvelopeError. */
  lemma ToBytesIs(lib: Calls, e: Envelope)
    ensures var data := ToBytes(lib, e);
            && (data.Ok? <==> ValidEnvelope(lib, e))
            && (data.Err? ==> data.error == EnvelopeError)
            && (data.Ok? ==>
                  && data.value == EnvelopeText(e) && Visible(data.value)
                  && LoadBytes(data.value) == Some(Dict(MetadataDict(e).entries[StrKey(Lit("ciphertext")) := Str(Hex(e.ciphertext))])))
  {
    hide Lit, EnvelopeText, Visible, Hex, ValidName, ValidSuiteName;
    if ValidEnvelope(lib, e) {
      EnvelopeFits(lib, e);
      EntriesNormal(lib, e);
      LoadBytesInvertsDumpBytes(Dict(Entries(e)), true);
      EnvelopePrints(e);
      TextsVisible(e);
      VisibleBytes(Dict(Entries(e)), EnvelopeText(e));
      NamesAre();
    }
  }

  /** A participant's name: 1 to 255 bytes of UTF-8, all printable, no white space at either end. */
  predicate NameRule(lib: Calls, t: Text) {
    && (forall i | 0 <= i < |t| :: !(0xD800 <= t[i] <= 0xDFFF) && lib.printable(t[i]))
    && 1 <= |Encode(t)| <= 255 && t != [] && !lib.space(t[0]) && !lib.space(t[|t| - 1])
  }

  /** A suite's name: 1 to 64 capitals, digits and underscores, a capital first. */
  predicate SuiteRule(t: Text) {
    && 1 <= |t| <= 64 && 'A' as int <= t[0] <= 'Z' as int
    && forall i | 0 <= i < |t| ::
         'A' as int <= t[i] <= 'Z' as int || '0' as int <= t[i] <= '9' as int || t[i] == '_' as int
  }

  lemma NameRuleIs(lib: Calls, t: Text)
    ensures ValidName(lib, t) <==> NameRule(lib, t)
  {
  }

  /** The limits of every field of a packet. */
  predicate EnvelopeRule(lib: Calls, e: Envelope) {
    && 1 <= e.version <= 65535 && SuiteRule(e.suite)
    && NameRule(lib, e.sender) && NameRule(lib, e.recipient) && e.sender != e.recipient
    && 0 <= e.sequence < 0x1_0000_0000_0000_0000 && 16 <= |e.ciphertext| <= 1_048_592
  }

  lemma EnvelopeRuleIs(lib: Calls, e: Envelope)
    ensures ValidEnvelope(lib, e) <==> EnvelopeRule(lib, e)
  {
    hide ValidName, NameRule;
    NameRuleIs(lib, e.sender);
    NameRuleIs(lib, e.recipient);
  }

  /** `from_bytes` returns an envelope exactly on its own text, and only with fields within the limits. */
  lemma FromBytesExactly(lib: Calls, data: Bytes, e: Envelope)
    ensures FromBytes(lib, data).Err? ==> FromBytes(lib, data).error == EnvelopeError
    ensures FromBytes(lib, data) == Ok(e) <==> EnvelopeRule(lib, e) && data == EnvelopeText(e)
  {
    hide FromBytes, EnvelopeText, MetadataDict, Visible, ValidEnvelope, EnvelopeRule, ToBytes;
    FromBytesErrors(lib, data);
    FromBytesAcceptsExactlyTheImage(lib, data);
    ToBytesIs(lib, e);
    EnvelopeRuleIs(lib, e);
    if ValidEnvelope(lib, e) {
      FromBytesInvertsToBytes(lib, e);
    }
  }

  lemma FromBytesErrors(lib: Calls, data: Bytes)
    ensures FromBytes(lib, data).Err? ==> FromBytes(lib, data).error == EnvelopeError
  {
    hide ToBytes, ValidEnvelope, ValidName, ValidSuiteName;
  }
}
