/**
  The one-time-pad primitives of flask_relief/crypto.py.

  Bytes are 8-bit bit-vectors: every element of a `bytearray` and every value
  `int_to_byte` turns into a byte is one of the 256 values of `bv8`, so the
  range check of `int_to_byte` is carried by the type. The key that
  `os.urandom` would draw is a parameter.
*/
module Crypto {

  type Byte = bv8
  type Bytes = seq<Byte>

  function Min(a: int, b: int): int
  {
    if a <= b then a else b
  }

  /** `xor_bytes`: XOR position by position; like `zip`, it stops at the end of the shorter input. */
  function XorBytes(a: Bytes, b: Bytes): (r: Bytes)
    ensures |r| == Min(|a|, |b|)
    ensures forall i :: 0 <= i < |r| ==> r[i] == a[i] ^ b[i]
  {
    if |a| == 0 || |b| == 0 then [] else [a[0] ^ b[0]] + XorBytes(a[1..], b[1..])
  }

  /** Every output element, read back as a number, is in 0..255. */
  lemma XorBytesAreBytes(a: Bytes, b: Bytes)
    ensures forall i :: 0 <= i < |XorBytes(a, b)| ==> 0 <= XorBytes(a, b)[i] as int < 256
  {
  }

  lemma {:induction false} XorBytesCommutative(a: Bytes, b: Bytes)
    ensures XorBytes(a, b) == XorBytes(b, a)
  {
    if |a| > 0 && |b| > 0 {
      XorBytesCommutative(a[1..], b[1..]);
    }
  }

  /** Only the first Min(|a|, |b|) bytes of each input matter. */
  lemma {:induction false} XorBytesTruncates(a: Bytes, b: Bytes)
    ensures var n := Min(|a|, |b|); XorBytes(a, b) == XorBytes(a[..n], b[..n])
  {
    var n := Min(|a|, |b|);
    var whole, cut := XorBytes(a, b), XorBytes(a[..n], b[..n]);
    forall i | 0 <= i < n
      ensures whole[i] == cut[i]
    {
      assert a[..n][i] == a[i] && b[..n][i] == b[i];
    }
  }

  /** XOR with the same key twice gives back the input, as long as the key is long enough. */
  lemma {:induction false} XorBytesInvolution(key: Bytes, data: Bytes)
    requires |key| >= |data|
    ensures XorBytes(key, XorBytes(key, data)) == data
  {
    if |data| > 0 {
      XorBytesInvolution(key[1..], data[1..]);
    }
  }

  /**
    `encrypt_once` with the key supplied by the caller in place of
    `os.urandom(len(plaintext))`; returns the pair (key, ciphertext).
  */
  function EncryptOnce(plaintext: Bytes, key: Bytes): (r: (Bytes, Bytes))
    requires |key| == |plaintext|
    ensures r.0 == key
    ensures |r.0| == |r.1| == |plaintext|
    ensures forall i :: 0 <= i < |plaintext| ==> r.1[i] == key[i] ^ plaintext[i]
  {
    (key, XorBytes(key, plaintext))
  }

  /** `decrypt_once`: the same XOR again; the lengths are not checked, the result is truncated to the shorter input. */
  function DecryptOnce(key: Bytes, ciphertext: Bytes): (r: Bytes)
    ensures |r| == Min(|key|, |ciphertext|)
    ensures forall i :: 0 <= i < |r| ==> r[i] == key[i] ^ ciphertext[i]
  {
    XorBytes(key, ciphertext)
  }

  /** Decrypting with the key that encryption used gives back the plaintext. */
  lemma {:induction false} DecryptEncryptRoundTrip(plaintext: Bytes, key: Bytes)
    requires |key| == |plaintext|
    ensures DecryptOnce(EncryptOnce(plaintext, key).0, EncryptOnce(plaintext, key).1) == plaintext
  {
    XorBytesInvolution(key, plaintext);
  }

  /** And the other way round: encrypting a decryption under the same key restores the ciphertext. */
  lemma {:induction false} EncryptDecryptRoundTrip(ciphertext: Bytes, key: Bytes)
    requires |key| == |ciphertext|
    ensures EncryptOnce(DecryptOnce(key, ciphertext), key).1 == ciphertext
  {
    XorBytesInvolution(key, ciphertext);
  }

  /** The ciphertext equals the plaintext exactly when the key is all zero bytes. */
  lemma CiphertextIsPlaintextIffZeroKey(plaintext: Bytes, key: Bytes)
    requires |key| == |plaintext|
    ensures EncryptOnce(plaintext, key).1 == plaintext <==> forall i :: 0 <= i < |key| ==> key[i] == 0
  {
    var c := EncryptOnce(plaintext, key).1;
    if forall i :: 0 <= i < |key| ==> key[i] == 0 {
      assert forall i :: 0 <= i < |key| ==> c[i] == plaintext[i];
    }
    if c == plaintext {
      forall i | 0 <= i < |key|
        ensures key[i] == 0
      {
        assert c[i] == key[i] ^ plaintext[i];
      }
    }
  }

  /** Decryption reads only the first Min(|key|, |ciphertext|) bytes of either argument. */
  lemma DecryptOnceReadsPrefix(key: Bytes, ciphertext: Bytes)
    ensures var n := Min(|key|, |ciphertext|); DecryptOnce(key, ciphertext) == DecryptOnce(key[..n], ciphertext[..n])
  {
    XorBytesTruncates(key, ciphertext);
  }

  /** A key cut to its first j bytes recovers only the first j bytes of the plaintext, without any error. */
  lemma DecryptWithShortKey(plaintext: Bytes, key: Bytes, j: nat)
    requires |key| == |plaintext|
    requires j <= |key|
    ensures DecryptOnce(key[..j], EncryptOnce(plaintext, key).1) == plaintext[..j]
  {
    var c := EncryptOnce(plaintext, key).1;
    var d := DecryptOnce(key[..j], c);
    assert forall i :: 0 <= i < j ==> d[i] == key[i] ^ (key[i] ^ plaintext[i]);
  }
}
