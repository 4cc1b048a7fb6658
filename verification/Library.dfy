/**
 The library calls the code makes, as one record of functions. Nothing is known about them beyond
 `Lawful`, which collects the functional laws of the libraries. That hashes do not collide and that
 signatures and ciphertexts are not forged are properties of a run, not of the functions: they are stated
 where a run is defined, over the finitely many calls it makes.
 */
module Library {
  import opened Basics

  datatype Suite = AesGcmSiv | ChaCha20Poly1305 {
    function Name(): Text {
      match this
      case AesGcmSiv => Lit("AES_GCM_SIV")
      case ChaCha20Poly1305 => Lit("CHACHA20_POLY1305")
    }
  }

  /** One HKDF-SHA256 call (sections 2.2 and 2.3 of RFC 5869). */
  datatype HkdfQuery = HkdfQuery(secret: Bytes, length: nat, salt: Option<Bytes>, info: Bytes)

  datatype Calls = Calls(
    printable: CodePoint -> bool,                                 // one character of str.isprintable
    space: CodePoint -> bool,                                     // what str.strip removes
    publicKey: Bytes -> Bytes,                                    // X25519 private key to public key
    exchange: (Bytes, Bytes) -> Option<Bytes>,                    // X25519; None where it raises ValueError
    signingKey: Bytes -> Bytes,                                   // Ed25519 private key to public key
    sign: (Bytes, Bytes) -> Bytes,                                // private key, data
    verify: (Bytes, Bytes, Bytes) -> bool,                        // data, signature, public key
    sha256: Bytes -> Bytes,
    hmac: (Bytes, Bytes) -> Bytes,                                // key, message
    hkdf: HkdfQuery -> Bytes,
    seal: (Suite, Bytes, Bytes, Bytes, Bytes) -> Bytes,           // suite, key, nonce, plaintext, associated data
    open: (Suite, Bytes, Bytes, Bytes, Bytes) -> Option<Bytes>,   // suite, key, nonce, ciphertext, associated data
    scrypt: (Bytes, Bytes) -> Bytes                               // passphrase, salt
  )

  /** X25519 keys and shared secrets are 32 bytes, and both sides compute one secret (section 6.1 of RFC 7748). */
  ghost predicate LawfulExchange(lib: Calls) {
    && (forall k :: |lib.publicKey(k)| == 32)
    && (forall k, u :: lib.exchange(k, u).Some? ==> |lib.exchange(k, u).value| == 32)
    && (forall a, b :: lib.exchange(a, lib.publicKey(b)) == lib.exchange(b, lib.publicKey(a)))
  }

  /** A signature is 64 bytes and verifies under its own key. */
  ghost predicate LawfulSignatures(lib: Calls) {
    && (forall k :: |lib.signingKey(k)| == 32)
    && (forall k, m :: |lib.sign(k, m)| == 64)
    && (forall k, m :: lib.verify(m, lib.sign(k, m), lib.signingKey(k)))
  }

  ghost predicate LawfulHashes(lib: Calls) {
    && (forall m :: |lib.sha256(m)| == 32)
    && (forall k, m :: |lib.hmac(k, m)| == 32)
    && (forall q :: |lib.hkdf(q)| == q.length)
  }

  /** A ciphertext is the plaintext with a 16-byte tag, and it opens to the plaintext. */
  ghost predicate LawfulAead(lib: Calls) {
    && (forall s, k, n, m, a :: |lib.seal(s, k, n, m, a)| == |m| + 16)
    && (forall s, k, n, m, a :: lib.open(s, k, n, lib.seal(s, k, n, m, a), a) == Some(m))
  }

  ghost predicate Lawful(lib: Calls) {
    LawfulExchange(lib) && LawfulSignatures(lib) && LawfulHashes(lib) && LawfulAead(lib)
  }

  function Zeros(n: nat): (b: Bytes)
    ensures |b| == n
  {
    seq(n, _ => 0)
  }

  /** A record of functions that obeys all the laws and has two different key pairs. */
  function Example(): Calls {
    Calls(
      c => true, c => false,
      k => if k == [1] then seq(32, _ => 1) else Zeros(32), (k, u) => Some(Zeros(32)),
      k => if k == [1] then seq(32, _ => 1) else Zeros(32), (k, m) => Zeros(64), (m, s, k) => true,
      m => Zeros(32), (k, m) => Zeros(32), (q: HkdfQuery) => Zeros(q.length),
      (s, k, n, m, a) => m + Zeros(16),
      (s, k, n, c, a) => if |c| >= 16 then Some(c[..|c| - 16]) else None,
      (p, s) => Zeros(32))
  }

  /** The laws are consistent. */
  lemma ExampleIsLawful()
    ensures Lawful(Example())
    ensures Example().publicKey([1]) != Example().publicKey([2]) && Example().signingKey([1]) != Example().signingKey([2])
  {
    var lib := Example();
    assert LawfulAead(lib) by {
      forall s, k, n, m: Bytes, a
        ensures lib.open(s, k, n, lib.seal(s, k, n, m, a), a) == Some(m)
      {
        assert (m + Zeros(16))[..|m|] == m;
      }
    }
    assert lib.publicKey([1])[0] == 1 && lib.publicKey([2])[0] == 0;
    assert lib.signingKey([1])[0] == 1 && lib.signingKey([2])[0] == 0;
  }
}
