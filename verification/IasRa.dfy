/** The simulated attestation server (ias_ra.cpp). */
module IasRa {
  import opened Bytes
  import opened Crypto
  import opened Layout
  import opened Memory
  import opened SpSpec
  import opened SwapEndian

  const SIGNED := 33   // sizeof(ias_platform_info_blob_t) - sizeof(sample_ec_sign256_t)

  /** ias_verify_attestation_evidence: a good report whose blob is zeros, signed, with each half of
      the signature, a number, turned from little- to big-endian.  The ECC context is closed on
      every path. */
  method VerifyAttestationEvidence(heap: Heap, cr: Crypto, rkKey: B32, open: bool, sign: bool, coins: B32)
    returns (ret: int, report: Report)
    modifies heap
    ensures heap.contexts == old(heap.contexts) && heap.live == old(heap.live)
    ensures ret == if !open then -1 else if !sign then 5 else 0
    ensures PassedAttestation(report) && report.blob[..SIGNED] == Zeros(SIGNED)
    ensures ret == 0 ==> var signature := cr.sign(rkKey, Zeros(SIGNED), coins);
      && FromBe(report.blob[SIGNED..SIGNED + 32]) == FromLe(signature[..32])
      && FromBe(report.blob[SIGNED + 32..]) == FromLe(signature[32..])
  {
    var blob: seq<byte> := Zeros(BLOB);
    ret := 0;
    var eccOpen := false;
    label attempt: {
      if !open { ret := -1; break attempt; }
      heap.OpenContext();
      eccOpen := true;
      if !sign { ret := SP_INTERNAL_ERROR; break attempt; }
      assert blob[..SIGNED] == Zeros(SIGNED);
      var signature := cr.sign(rkKey, blob[..SIGNED], coins);
      var x := SwapBytes(signature[..32]);
      var y := SwapBytes(signature[32..]);
      blob := blob[..SIGNED] + x + y;
      ReverseSwapsEndianness(signature[..32]);
      ReverseSwapsEndianness(signature[32..]);
      assert blob[SIGNED..SIGNED + 32] == x && blob[SIGNED + 32..] == y;
    }
    if eccOpen { heap.CloseContext(); }
    report := Report(IAS_QUOTE_OK, IAS_PSE_OK, blob);
  }
}
