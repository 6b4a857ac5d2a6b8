/** The cryptographic library as uninterpreted functions.  Nothing is assumed of them but the
    laws stated as predicates; a call that fails is a parameter of the caller. */
module Crypto {
  import opened Bytes

  type B16 = s: seq<byte> | |s| == 16 witness Zeros(16)
  type B32 = s: seq<byte> | |s| == 32 witness Zeros(32)
  type B64 = s: seq<byte> | |s| == 64 witness Zeros(64)

  datatype Option<+T> = None | Some(value: T)

  /** sgx_status_t, as far as the enclave code names its values. */
  datatype Status = Success | InvalidParameter | MacMismatch | KdfMismatch | Unexpected | Other(code: int)

  /** A ciphertext and its tag. */
  datatype Sealed = Sealed(text: seq<byte>, tag: B16)

  datatype Crypto = Crypto(
    pub: B32 -> B64,                      // public key of a private key
    dh: (B32, B64) -> B32,                // shared secret of a private and a peer's public key
    cmac: (B16, seq<byte>) -> B16,
    sha256: seq<byte> -> B32,
    sign: (B32, seq<byte>, B32) -> B64,   // private key, data, the signer's random number
    seal: (B16, seq<byte>) -> Sealed,     // AES-GCM, zero IV, no additional data
    unseal: (B16, seq<byte>, B16) -> Option<seq<byte>>)

  ghost predicate DhCommutes(c: Crypto) {
    forall a: B32, b: B32 :: c.dh(a, c.pub(b)) == c.dh(b, c.pub(a))
  }

  ghost predicate GcmRoundTrip(c: Crypto) {
    forall k: B16, m: seq<byte> :: c.unseal(k, c.seal(k, m).text, c.seal(k, m).tag) == Some(m)
  }

  /** Encryption writes as many bytes as it reads. */
  ghost predicate SealKeepsLength(c: Crypto) {
    forall k: B16, m: seq<byte> :: |c.seal(k, m).text| == |m|
  }
}
