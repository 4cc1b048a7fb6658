/** Protocol constants and the participant-name rule that wire, handshake and identity share. */
module Protocol {
  import opened Basics
  import opened Library
  import opened Utf8

  const PROTOCOL_VERSION: int := 1
  const MAX_MESSAGE_SEQUENCE: int := 0xFFFF_FFFF_FFFF_FFFF
  const MAX_PROTOCOL_VERSION: int := 0xFFFF
  const MAX_PARTICIPANT_NAME_BYTES: int := 255
  const MAX_SUITE_NAME_BYTES: int := 64
  const MAX_PLAINTEXT_BYTES: int := 1_048_576
  const AEAD_TAG_BYTES: int := 16
  const MAX_CIPHERTEXT_BYTES: int := MAX_PLAINTEXT_BYTES + AEAD_TAG_BYTES
  const MAX_ENVELOPE_BYTES: int := MAX_CIPHERTEXT_BYTES * 2 + 4096

  predicate ValidSequence(sequence: int) {
    0 <= sequence <= MAX_MESSAGE_SEQUENCE
  }

  /** `value == value.strip()` */
  predicate Stripped(lib: Calls, t: Text) {
    t == [] || (!lib.space(t[0]) && !lib.space(t[|t| - 1]))
  }

  predicate ValidName(lib: Calls, t: Text) {
    && ScalarText(t)
    && 1 <= |Encode(t)| <= MAX_PARTICIPANT_NAME_BYTES
    && Stripped(lib, t)
    && forall i | 0 <= i < |t| :: lib.printable(t[i])
  }
}
