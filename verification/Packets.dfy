/**
 What `encrypt` puts on the wire and what `decrypt` accepts from it, in terms of the bytes handed to the
 libraries, with the error of every refusal.
 */
module Packets {
  import opened Basics
  import opened KeySchedule
  import opened Kdf
  import opened Library
  import opened Protocol
  import opened Session
  import opened Wire
  import opened WireText

  /** The 44 bytes that become the key and the nonce of one message. */
  function Material(lib: Calls, root: Bytes, sequence: nat, suite: Suite, sender: Bytes, recipient: Bytes): (m: Bytes)
    requires LawfulHashes(lib)
    ensures |m| == 44
  {
    var secret := lib.hkdf(HkdfQuery(root, 32, None, TrafficBytes(suite, sender, recipient)));
    lib.hkdf(HkdfQuery(secret, 44, None, Ascii("CypherSyntax/message-key/v1") + SequenceBytes(sequence)))
  }

  lemma KeyAndNonceAre(lib: Calls, root: Bytes, sequence: nat, suite: Suite, sender: Bytes, recipient: Bytes)
    requires LawfulHashes(lib) && |sender| == 32 && |recipient| == 32
    ensures var mk := DeriveMessageKey(lib, root, sequence, suite, Direction(sender, recipient));
            var m := Material(lib, root, sequence, suite, sender, recipient);
            mk.key == m[..32] && mk.nonce == m[32..]
  {
    hide DeriveMessageKey, TrafficBytes, SequenceBytes, Ascii;
    MessageKeyIs(lib, root, sequence, suite, sender, recipient);
    var mk := DeriveMessageKey(lib, root, sequence, suite, Direction(sender, recipient));
    assert (mk.key + mk.nonce)[..32] == mk.key && (mk.key + mk.nonce)[32..] == mk.nonce;
  }

  /** The envelope of the next packet, without its ciphertext. */
  function Header(s: SessionValue): Envelope {
    Envelope(1, s.suite.Name(), s.localName, s.remoteName, s.sendSequence, [])
  }

  /**
   `encrypt` returns a packet exactly for a legal plaintext, an unspent sequence and two different legal names. The
   packet carries the plaintext sealed under the key and nonce of its sequence and of the direction from this
   side to the other, with the header as associated data.
   */
  lemma PacketIs(lib: Calls, s: SessionValue, plaintext: Bytes)
    requires Lawful(lib) && Keyed(s)
    ensures var r := Encrypted(lib, s, plaintext);
            var short := |plaintext| <= 1_048_576;
            var unspent := 0 <= s.sendSequence < 0x1_0000_0000_0000_0000;
            && (r.Ok? <==>
                  && short && unspent && NameRule(lib, s.localName) && NameRule(lib, s.remoteName)
                  && s.localName != s.remoteName)
            && (!short ==> r == Err(ValueError))
            && (short && s.sendSequence >= 0x1_0000_0000_0000_0000 ==> r == Err(OverflowError))
            && (short && s.sendSequence < 0 ==> r == Err(ValueError))
            && (short && unspent && r.Err? ==> r.error == EnvelopeError)
            && (r.Ok? ==>
                  var m := Material(lib, s.rootKey, s.sendSequence, s.suite, s.localEphemeral, s.remoteEphemeral);
                  var data := AssociatedData(lib, Header(s));
                  && data.Ok? && data.value == MetadataText(Header(s))
                  && r.value == EnvelopeText(Header(s).(ciphertext := lib.seal(s.suite, m[..32], m[32..], plaintext, data.value))))
  {
    hide AssociatedData, ToBytes, DeriveMessageKey, Material, NameRule, ValidName, MetadataText, EnvelopeText;
    EncryptSucceedsExactly(lib, s, plaintext);
    NameRuleIs(lib, s.localName);
    NameRuleIs(lib, s.remoteName);
    AssociatedDataIs(lib, Header(s));
    if ValidSequence(s.sendSequence) {
      KeyAndNonceAre(lib, s.rootKey, s.sendSequence, s.suite, s.localEphemeral, s.remoteEphemeral);
    }
    var x := PrepareSeal(lib, s, plaintext);
    if x.Ok? {
      ToBytesIs(lib, Header(s).(ciphertext := Seal(lib, x.value)));
    }
  }

  /**
   `decrypt` returns a plaintext exactly for the text of an envelope of this version, of this session's suite, from
   the other side to this one, with a sequence that the window has neither seen nor left behind, whose ciphertext
   opens under the key and nonce of that sequence and direction; each check that fails first names the error.
   */
  lemma DecryptsExactly(lib: Calls, s: SessionValue, blob: Bytes)
    requires Lawful(lib) && Keyed(s)
    ensures var r := Decrypted(lib, s, blob);
            var parsed := FromBytes(lib, blob);
            && (parsed.Err? ==> r == Err(EnvelopeError))
            && (parsed.Ok? ==>
                  var e := parsed.value;
                  var meant := e.version == 1 && e.suite == s.suite.Name() && e.sender == s.remoteName && e.recipient == s.localName;
                  var timely := e.sequence !in s.window.seen && e.sequence > s.window.highest - s.window.size;
                  && e.sequence >= 0
                  && var m := Material(lib, s.rootKey, e.sequence, s.suite, s.remoteEphemeral, s.localEphemeral);
                     var data := AssociatedData(lib, e);
                     && data.Ok? && data.value == MetadataText(e)
                     && var text := lib.open(s.suite, m[..32], m[32..], e.ciphertext, data.value);
                        && (r.Ok? <==> meant && timely && text.Some?)
                        && (r.Ok? ==> text == Some(r.value))
                        && (!meant ==> r == Err(ValueError))
                        && (meant && !timely ==> r == Err(ReplayDetectedError))
                        && (meant && timely && text.None? ==> r == Err(InvalidTag)))
  {
    hide FromBytes, AssociatedData, ToBytes, DeriveMessageKey, Material, ValidName, ValidSuiteName, MetadataText, EnvelopeText;
    var parsed := FromBytes(lib, blob);
    ReadEnvelopeIsValid(lib, s, blob);
    if parsed.Err? {
      FromBytesExactly(lib, blob, Header(s));
    } else {
      var e := parsed.value;
      FromBytesAcceptsExactlyTheImage(lib, blob);
      AssociatedDataIs(lib, e);
      KeyAndNonceAre(lib, s.rootKey, e.sequence, s.suite, s.remoteEphemeral, s.localEphemeral);
    }
  }
}
