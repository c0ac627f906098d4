/** The .NET library calls the crypto manager makes, kept abstract.

    The cipher transform is PasswordDeriveBytes key derivation (PBKDF1 with
    SHA-1 and 2 iterations, section 5.1 of RFC 2898) feeding Rijndael in CBC
    mode (section 6.2 of NIST SP 800-38A) with PKCS #7 padding (section 10.3
    of RFC 2315). Base64 is section 4 of RFC 4648. A call that throws returns
    None. The facts the model relies on are collected in `Sound`: they are
    hypotheses about these libraries, which every lemma that needs them
    requires. */
module Platform {
  import opened Wrappers

  newtype byte = b: int | 0 <= b < 256

  type Bytes = seq<byte>

  datatype Primitives = Primitives(
    // (clear, passphrase, salt, initVector) to cipher bytes: the encryptor
    // written through a CryptoStream and flushed
    encrypt: (Bytes, string, string, string) -> Option<Bytes>,
    // (cipher, passphrase, salt, initVector) to the whole clear text the
    // decrypting CryptoStream yields
    decrypt: (Bytes, string, string, string) -> Option<Bytes>,
    toBase64: Bytes -> string,
    fromBase64: string -> Option<Bytes>,
    utf8Encode: string -> Bytes,
    utf8Decode: Bytes -> string)

  /** What the model assumes of the libraries. */
  ghost predicate Sound(p: Primitives)
  {
    // decryption under the same passphrase, salt and IV inverts encryption
    && (forall d, pw, salt, iv :: p.encrypt(d, pw, salt, iv).Some? ==>
          p.decrypt(p.encrypt(d, pw, salt, iv).value, pw, salt, iv) == Some(d))
    // PKCS #7 padding adds at least one byte, so a cipher text is never empty
    && (forall d, pw, salt, iv :: p.encrypt(d, pw, salt, iv).Some? ==>
          |p.encrypt(d, pw, salt, iv).value| > 0)
    // padding is stripped, so clear text is never longer than cipher text
    && (forall c, pw, salt, iv :: p.decrypt(c, pw, salt, iv).Some? ==>
          |p.decrypt(c, pw, salt, iv).value| <= |c|)
    && (forall b :: p.fromBase64(p.toBase64(b)) == Some(b))
    && (forall b :: |b| > 0 ==> |p.toBase64(b)| > 0)
    // UTF-8 decoding inverts encoding, at least on ASCII text
    && (forall s :: IsAscii(s) ==> p.utf8Decode(p.utf8Encode(s)) == s)
  }

  predicate IsAscii(s: string)
  {
    forall i :: 0 <= i < |s| ==> s[i] as int < 128
  }

  /** A toy instance (a one-byte "pad", characters for bytes), used only to
      show that the hypotheses in `Sound` do not contradict each other. */
  function ToyPrimitives(): Primitives
  {
    Primitives(
      (d: Bytes, pw: string, salt: string, iv: string) => Some([0 as byte] + d),
      (c: Bytes, pw: string, salt: string, iv: string) => if |c| > 0 then Some(c[1..]) else None,
      (b: Bytes) => seq(|b|, i requires 0 <= i < |b| => b[i] as int as char),
      (s: string) =>
        if forall i :: 0 <= i < |s| ==> s[i] as int < 256
        then Some(seq(|s|, i requires 0 <= i < |s| && s[i] as int < 256 => s[i] as int as byte))
        else None,
      (s: string) => seq(|s|, i requires 0 <= i < |s| => if s[i] as int < 256 then s[i] as int as byte else 0),
      (b: Bytes) => seq(|b|, i requires 0 <= i < |b| => b[i] as int as char))
  }

  lemma SoundIsSatisfiable()
    ensures exists p :: Sound(p)
  {
    var p := ToyPrimitives();
    forall b: Bytes ensures p.fromBase64(p.toBase64(b)) == Some(b) {
      var s := p.toBase64(b);
      assert forall i :: 0 <= i < |s| ==> s[i] as int < 256;
      assert p.fromBase64(s).value == b;
    }
    forall s | IsAscii(s) ensures p.utf8Decode(p.utf8Encode(s)) == s {
      assert p.utf8Decode(p.utf8Encode(s)) == s;
    }
    assert Sound(p);
  }
}
