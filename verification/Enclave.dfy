/** The enclave's side of an attestation result (isv_enclave.cpp): verify_att_result_mac and
    put_secret_data, with the keys that sgx_ra_get_keys hands out. */
module Enclave {
  import opened Bytes
  import opened Crypto

  /** What sgx_ra_get_keys answers: a key or an error. */
  datatype KeyReply = Key(key: B16) | NoKey(error: Status)

  const UINT32_MAX := 0xFFFF_FFFF

  /** The secret expected from the service provider. */
  predicate IsExpected(secret: seq<byte>) { |secret| == 8 && forall i :: 0 <= i < 8 ==> secret[i] == i }

  /** Decryption keeps the length. */
  ghost predicate UnsealKeepsLength(c: Crypto) {
    forall k: B16, t: seq<byte>, tag: B16 ::
      c.unseal(k, t, tag).Some? ==> |c.unseal(k, t, tag).value| == |t|
  }

  /** Results of the library calls; junk is what a failing decryption left in g_secret. */
  datatype MacEnv = MacEnv(keys: KeyReply, cmac: Status)
  datatype PutEnv = PutEnv(keys: KeyReply, decrypt: Status, junk: seq<byte>)

  predicate WfMac(e: MacEnv) { e.keys.NoKey? ==> e.keys.error != Success }
  predicate WfPut(e: PutEnv) { (e.keys.NoKey? ==> e.keys.error != Success) && |e.junk| == 8 }

  /** What verify_att_result_mac asks for. */
  predicate MacMatches(cr: Crypto, e: MacEnv, message: seq<byte>, mac: seq<byte>) {
    && |mac| == 16 && |message| <= UINT32_MAX
    && e.keys.Key? && e.cmac == Success && cr.cmac(e.keys.key, message) == mac
  }

  /** What put_secret_data asks for. */
  predicate PutSucceeds(cr: Crypto, e: PutEnv, data: seq<byte>, tag: B16) {
    && |data| == 8 && e.keys.Key? && e.decrypt == Success
    && cr.unseal(e.keys.key, data, tag).Some? && IsExpected(cr.unseal(e.keys.key, data, tag).value)
  }

  class Enclave {
    const cr: Crypto
    /** g_secret */
    var secret: seq<byte>

    constructor (cr: Crypto)
      ensures this.cr == cr && secret == Zeros(8)
    {
      this.cr := cr;
      secret := Zeros(8);
    }

    method VerifyAttResultMac(e: MacEnv, message: seq<byte>, mac: seq<byte>) returns (ret: Status)
      requires WfMac(e)
      ensures ret == Success <==> MacMatches(cr, e, message, mac)
      ensures ret ==
        if |mac| != 16 || |message| > 0xFFFF_FFFF then InvalidParameter
        else if e.keys.NoKey? then e.keys.error
        else if e.cmac != Success then e.cmac
        else if cr.cmac(e.keys.key, message) != mac then MacMismatch
        else Success
    {
      if |mac| != 16 { return InvalidParameter; }
      if |message| > UINT32_MAX { return InvalidParameter; }
      if e.keys.NoKey? { return e.keys.error; }
      if e.cmac != Success { return e.cmac; }
      if mac != cr.cmac(e.keys.key, message) { return MacMismatch; }
      return Success;
    }

    /** Decrypts the secret into g_secret and compares it with the expected bytes; success says
        exactly that decryption succeeded and the expected secret is now stored. */
    method PutSecretData(e: PutEnv, data: seq<byte>, tag: B16) returns (ret: Status)
      requires WfPut(e) && UnsealKeepsLength(cr) && |secret| == 8
      modifies this
      ensures |secret| == 8
      ensures ret == Success <==> PutSucceeds(cr, e, data, tag)
      ensures ret ==
        if |data| != 8 then InvalidParameter
        else if e.keys.NoKey? then e.keys.error
        else if secret != [0, 1, 2, 3, 4, 5, 6, 7] then Unexpected
        else if e.decrypt != Success then e.decrypt
        else if cr.unseal(e.keys.key, data, tag).None? then MacMismatch
        else Success
      ensures |data| != 8 || e.keys.NoKey? ==> secret == old(secret)
      ensures |data| == 8 && e.keys.Key? ==>
        secret == if e.decrypt == Success && cr.unseal(e.keys.key, data, tag).Some?
                  then cr.unseal(e.keys.key, data, tag).value else e.junk
    {
      if |data| != 8 { return InvalidParameter; }
      if e.keys.NoKey? { return e.keys.error; }
      ret := e.decrypt;
      var plain := cr.unseal(e.keys.key, data, tag);
      if ret == Success && plain.None? { ret := MacMismatch; }
      secret := if ret == Success then plain.value else e.junk;
      var secretMatch := true;
      for i := 0 to |data|
        invariant secretMatch <==> forall j :: 0 <= j < i ==> secret[j] == j
      {
        if secret[i] != i { secretMatch := false; }
      }
      if !secretMatch { ret := Unexpected; }
    }
  }
}
