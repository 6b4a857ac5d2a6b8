/** The packed structures that the client and the service provider exchange: what each message
    is as a byte string, the offsets at which C code stores and reads its fields, and that the
    two agree for every length of the variable part. */
module Layout {
  import opened Arith
  import opened Bytes
  import opened Crypto

  /** One more than the largest uint32_t. */
  const UINT32_LIMIT := 0x1_0000_0000

  // message types (network_ra.h)
  const TYPE_RA_MSG0: byte := 0
  const TYPE_RA_MSG1: byte := 1
  const TYPE_RA_MSG2: byte := 2
  const TYPE_RA_MSG3: byte := 3
  const TYPE_RA_ATT_RESULT: byte := 4

  /** sizeof(ra_samp_request_header_t) and sizeof(ra_samp_response_header_t) */
  const HEADER := 8

  // sizes and offsets of the fixed parts (service_provider.h, remote_attestation_result.h, ias_ra.h)
  const MSG0 := 4
  const MSG1 := 68
  const MSG2 := 168
  const MSG2_SPID := 64
  const MSG2_QUOTE_TYPE := 80
  const MSG2_KDF_ID := 82
  const MSG2_SIGN := 84
  const MSG2_MAC := 148
  const MSG2_SIG_RL_SIZE := 164
  const MSG3 := 336
  const MSG3_GA := 16
  const MSG3_PS := 80
  const QUOTE_BODY := 48
  const BODY_REPORT_DATA := 320
  const REPORT_DATA := 64
  /** One past the last quote byte that the service provider compares. */
  const QUOTE_READ := QUOTE_BODY + BODY_REPORT_DATA + REPORT_DATA
  const BLOB := 97
  const ATT_MAC := 97
  const ATT_SECRET_SIZE := 113
  const ATT_TAG := 129
  const ATT_RESULT := 145

  // ---------- messages as byte strings ----------

  /** ra_samp_request_header_t followed by the body. */
  function Request(ty: byte, body: seq<byte>): (r: seq<byte>)
    ensures |r| == HEADER + |body|
  {
    [ty] + ToLe(|body|, 4) + Zeros(3) + body
  }

  /** ra_samp_response_header_t followed by the body and `extra` bytes its size does not count. */
  function Response(ty: byte, st0: byte, st1: byte, size: nat, body: seq<byte>): (r: seq<byte>)
    ensures |r| == HEADER + |body|
  {
    [ty] + [st0, st1] + ToLe(size, 4) + Zeros(1) + body
  }

  /** The part of message 2 under the MAC. */
  function Msg2Maced(gB: B64, spid: B16, quoteType: nat, kdfId: nat, signature: B64): (r: seq<byte>)
    ensures |r| == MSG2_MAC
  {
    gB + spid + ToLe(quoteType, 2) + ToLe(kdfId, 2) + signature
  }

  function Msg2(maced: seq<byte>, mac: B16, sigrl: seq<byte>): (r: seq<byte>)
    requires |maced| == MSG2_MAC
    ensures |r| == MSG2 + |sigrl|
  {
    maced + mac + ToLe(|sigrl|, 4) + sigrl
  }

  function Msg3Maced(gA: B64, ps: seq<byte>, quote: seq<byte>): seq<byte> { gA + ps + quote }

  function Msg3(mac: B16, maced: seq<byte>): seq<byte> { mac + maced }

  /** sample_ra_att_result_msg_t with the encrypted secret in its flexible array member. */
  function AttResult(blob: seq<byte>, mac: B16, payloadSize: nat, tag: B16, payload: seq<byte>): (r: seq<byte>)
    requires |blob| == BLOB
    ensures |r| == ATT_RESULT + |payload|
  {
    blob + mac + ToLe(payloadSize, 4) + Zeros(12) + tag + payload
  }

  // ---------- reads through a cast ----------

  /** A uint32_t is read back as it was stored. */
  lemma U32RoundTrip(v: nat)
    requires v < UINT32_LIMIT
    ensures FromLe(ToLe(v, 4)) == v
  {
    assert Power(256, 4) == UINT32_LIMIT by {
      assert Power(256, 2) == 0x1_0000 by { assert Power(256, 1) == 256; }
    }
    LeRoundTrip(v, 4);
  }

  function RequestSize(r: seq<byte>): nat
    requires |r| >= HEADER
  {
    FromLe(Get(r, 1, 4))
  }

  function ResponseSize(r: seq<byte>): nat
    requires |r| >= HEADER
  {
    FromLe(Get(r, 3, 4))
  }

  lemma RequestReads(ty: byte, body: seq<byte>)
    requires |body| < UINT32_LIMIT
    ensures var r := Request(ty, body);
      r[0] == ty && RequestSize(r) == |body| && r[HEADER..] == body
  {
    var r := Request(ty, body);
    assert Get(r, 1, 4) == ToLe(|body|, 4);
    U32RoundTrip(|body|);
  }

  lemma ResponseReads(ty: byte, st0: byte, st1: byte, size: nat, body: seq<byte>)
    requires size < UINT32_LIMIT
    ensures var r := Response(ty, st0, st1, size, body);
      r[0] == ty && r[1] == st0 && r[2] == st1 && ResponseSize(r) == size && r[HEADER..] == body
  {
    var r := Response(ty, st0, st1, size, body);
    assert Get(r, 3, 4) == ToLe(size, 4);
    U32RoundTrip(size);
  }

  /** Every field of message 2 is found at its packed offset. */
  lemma Msg2Reads(gB: B64, spid: B16, quoteType: nat, kdfId: nat, signature: B64, mac: B16, sigrl: seq<byte>)
    requires quoteType < Power(256, 2) && kdfId < Power(256, 2) && |sigrl| < UINT32_LIMIT
    ensures var maced := Msg2Maced(gB, spid, quoteType, kdfId, signature);
      var m := Msg2(maced, mac, sigrl);
      && m[..MSG2_MAC] == maced
      && Get(m, 0, 64) == gB && Get(m, MSG2_SPID, 16) == spid
      && FromLe(Get(m, MSG2_QUOTE_TYPE, 2)) == quoteType && FromLe(Get(m, MSG2_KDF_ID, 2)) == kdfId
      && Get(m, MSG2_SIGN, 64) == signature && Get(m, MSG2_MAC, 16) == mac
      && FromLe(Get(m, MSG2_SIG_RL_SIZE, 4)) == |sigrl| && m[MSG2..] == sigrl
  {
    var maced := Msg2Maced(gB, spid, quoteType, kdfId, signature);
    var m := Msg2(maced, mac, sigrl);
    assert m[..MSG2_MAC] == maced;
    assert Get(m, 0, 64) == Get(maced, 0, 64) == gB;
    assert Get(m, MSG2_SPID, 16) == Get(maced, MSG2_SPID, 16) == spid;
    assert Get(m, MSG2_QUOTE_TYPE, 2) == Get(maced, MSG2_QUOTE_TYPE, 2) == ToLe(quoteType, 2);
    assert Get(m, MSG2_KDF_ID, 2) == Get(maced, MSG2_KDF_ID, 2) == ToLe(kdfId, 2);
    assert Get(m, MSG2_SIGN, 64) == Get(maced, MSG2_SIGN, 64) == signature;
    assert Get(m, MSG2_SIG_RL_SIZE, 4) == ToLe(|sigrl|, 4);
    LeRoundTrip(quoteType, 2);
    LeRoundTrip(kdfId, 2);
    U32RoundTrip(|sigrl|);
  }

  /** Every field of message 3 that the service provider reads, for any quote. */
  lemma Msg3Reads(mac: B16, gA: B64, ps: seq<byte>, quote: seq<byte>)
    requires |ps| == 256
    ensures var m := Msg3(mac, Msg3Maced(gA, ps, quote));
      && |m| == MSG3 + |quote|
      && Get(m, 0, 16) == mac && m[16..] == Msg3Maced(gA, ps, quote)
      && Get(m, MSG3_GA, 64) == gA && Get(m, MSG3_PS, 256) == ps && m[MSG3..] == quote
  {
    var maced := Msg3Maced(gA, ps, quote);
    var m := Msg3(mac, maced);
    assert m[16..] == maced;
    assert Get(m, MSG3_GA, 64) == maced[..64] == gA;
    assert Get(m, MSG3_PS, 256) == maced[64..320] == ps;
    assert m[MSG3..] == maced[320..] == quote;
  }

  /** Every field of the attestation result; the payload lies past the bytes that the size field
      of the response counts. */
  lemma AttResultReads(blob: seq<byte>, mac: B16, payloadSize: nat, tag: B16, payload: seq<byte>)
    requires |blob| == BLOB && payloadSize < UINT32_LIMIT
    ensures var m := AttResult(blob, mac, payloadSize, tag, payload);
      && m[..BLOB] == blob && Get(m, ATT_MAC, 16) == mac
      && FromLe(Get(m, ATT_SECRET_SIZE, 4)) == payloadSize && Get(m, ATT_TAG, 16) == tag
      && m[ATT_RESULT..] == payload
  {
    var m := AttResult(blob, mac, payloadSize, tag, payload);
    assert Get(m, ATT_SECRET_SIZE, 4) == ToLe(payloadSize, 4);
    U32RoundTrip(payloadSize);
  }

  // ---------- stores ----------

  /** A store right after what is already written. */
  lemma FillNext(prefix: seq<byte>, n: nat, v: seq<byte>)
    requires |v| <= n
    ensures Put(prefix + Zeros(n), |prefix|, v) == prefix + v + Zeros(n - |v|)
  {}

  /** A store into a gap. */
  lemma FillGap(prefix: seq<byte>, v: seq<byte>, suffix: seq<byte>)
    ensures Put(prefix + Zeros(|v|) + suffix, |prefix|, v) == prefix + v + suffix
  {}

  /** uint32_t arithmetic. */
  function U32(x: nat): nat { x % UINT32_LIMIT }

  /** msg2_size is computed in 32 bits: the revocation list fits the allocation of message 2
      exactly when that sum does not wrap. */
  lemma SigRlFitsExactly(n: nat)
    requires n < UINT32_LIMIT
    ensures MSG2 + n <= U32(MSG2 + n) <==> MSG2 + n < UINT32_LIMIT
  {}
}
