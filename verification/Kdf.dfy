/** Key derivation: derive_key of ecp.cpp in both of its compile-time forms, and the enclave's
    own copy of the two-key form with key_derivation (isv_enclave.cpp). */
module Kdf {
  import opened Bytes
  import opened Crypto
  import opened Memory

  datatype Form = Default | Supplied

  /** The four session keys. */
  datatype Keys = Keys(smk: B16, sk: B16, mk: B16, vk: B16)

  // ---------- SUPPLIED_KEY_DERIVATION: two keys from one SHA-256 ----------

  /** "SGXRAENCLAVE" and "SGXRASERVER", each with its terminating zero. */
  const ID_U: seq<byte> := [83, 71, 88, 82, 65, 69, 78, 67, 76, 65, 86, 69, 0]
  const ID_V: seq<byte> := [83, 71, 88, 82, 65, 83, 69, 82, 86, 69, 82, 0]

  const SMK_SK: byte := 0
  const MK_VK: byte := 1

  /** counter (big-endian) || shared secret (big-endian) || algorithm id || ID_U || ID_V */
  function HashInput(secret: B32, keyId: byte): seq<byte> {
    Zeros(3) + [keyId] + Reverse(secret) + Zeros(4) + ID_U + ID_V
  }

  function TwoKeys(cr: Crypto, secret: B32, keyId: byte): (B16, B16) {
    var h := cr.sha256(HashInput(secret, keyId));
    (h[..16], h[16..])
  }

  /** Different secrets or key ids give different hash inputs. */
  lemma HashInputInjective(s1: B32, k1: byte, s2: B32, k2: byte)
    requires HashInput(s1, k1) == HashInput(s2, k2)
    ensures s1 == s2 && k1 == k2
  {
    assert HashInput(s1, k1)[3] == k1 && HashInput(s2, k2)[3] == k2;
    assert HashInput(s1, k1)[4..36] == Reverse(s1);
    assert HashInput(s2, k2)[4..36] == Reverse(s2);
    ReverseTwice(s1);
    ReverseTwice(s2);
  }

  /** What is hashed, byte for byte: key id and reversed secret after the counter's zeros, the
      algorithm id, "SGXRAENCLAVE" and "SGXRASERVER", each with its terminator. */
  lemma HashedBytes(secret: B32, keyId: byte)
    ensures HashInput(secret, keyId) ==
      [0, 0, 0, keyId] + Reverse(secret) + [0, 0, 0, 0]
      + [83, 71, 88, 82, 65, 69, 78, 67, 76, 65, 86, 69, 0]
      + [83, 71, 88, 82, 65, 83, 69, 82, 86, 69, 82, 0]
  {
    assert Zeros(3) + [keyId] == [0, 0, 0, keyId] && Zeros(4) == [0, 0, 0, 0];
  }

  ghost predicate ShaInjective(cr: Crypto) {
    forall m1, m2 :: cr.sha256(m1) == cr.sha256(m2) ==> m1 == m2
  }

  /** With a hash that is injective, two derivations give the same pair of keys exactly for the same
      secret and key id. */
  lemma TwoKeysExactly(cr: Crypto, s1: B32, k1: byte, s2: B32, k2: byte)
    requires ShaInjective(cr)
    ensures TwoKeys(cr, s1, k1) == TwoKeys(cr, s2, k2) <==> s1 == s2 && k1 == k2
  {
    var h1, h2 := cr.sha256(HashInput(s1, k1)), cr.sha256(HashInput(s2, k2));
    assert h1 == h1[..16] + h1[16..] && h2 == h2[..16] + h2[16..];
    if TwoKeys(cr, s1, k1) == TwoKeys(cr, s2, k2) { HashInputInjective(s1, k1, s2, k2); }
  }

  /** Which calls of the hash library succeed: the initialisation, three updates, the result. */
  datatype ShaEnv = ShaEnv(init: bool, update1: bool, update2: bool, update3: bool, get: bool) {
    predicate Ok() { init && update1 && update2 && update3 && get }
  }

  /** The hash_buffer_t filled by derive_key. */
  method HashBuffer(secret: B32, keyId: byte) returns (buf: array<byte>)
    ensures fresh(buf) && buf[..] == Zeros(3) + [keyId] + Reverse(secret) + Zeros(4)
  {
    buf := new byte[40](_ => 0);
    buf[3] := keyId;
    ghost var prefix, rev := Zeros(3) + [keyId], Reverse(secret);
    assert buf[..4] == prefix;
    for i := 0 to 32
      invariant buf[..4 + i] == prefix + rev[..i]
      invariant forall j :: 4 + i <= j < 40 ==> buf[j] == 0
    {
      buf[4 + i] := secret[31 - i];
      assert rev[..i + 1] == rev[..i] + [rev[i]];
      assert buf[..4 + (i + 1)] == buf[..4 + i] + [buf[4 + i]];
    }
    assert rev[..32] == rev;
    assert buf[36..] == Zeros(4);
    assert buf[..] == buf[..36] + buf[36..];
  }

  /** The service provider's derive_key: leaves both keys alone when a call fails. */
  method SpDeriveTwo(cr: Crypto, secret: B32, keyId: byte, e: ShaEnv, first0: B16, second0: B16)
    returns (ok: bool, first: B16, second: B16)
    ensures ok <==> e.init && e.update1 && e.update2 && e.update3 && e.get
    ensures ok ==> (first, second) == TwoKeys(cr, secret, keyId)
    ensures !ok ==> (first, second) == (first0, second0)
  {
    ok, first, second := false, first0, second0;
    var hashBuffer := HashBuffer(secret, keyId);
    if !e.init { return; }
    var context: seq<byte> := [];
    if !e.update1 { return; }
    context := context + hashBuffer[..];
    if !e.update2 { return; }
    context := context + ID_U;
    if !e.update3 { return; }
    context := context + ID_V;
    if !e.get { return; }
    assert context == HashInput(secret, keyId);
    var keyMaterial := cr.sha256(context);
    ok, first, second := true, keyMaterial[..16], keyMaterial[16..];
  }

  /** The enclave's derive_key is written separately but meets the same specification. */
  method EnclaveDeriveTwo(cr: Crypto, secret: B32, keyId: byte, e: ShaEnv, first0: B16, second0: B16)
    returns (ok: bool, first: B16, second: B16)
    ensures ok <==> e.init && e.update1 && e.update2 && e.update3 && e.get
    ensures ok ==> (first, second) == TwoKeys(cr, secret, keyId)
    ensures !ok ==> (first, second) == (first0, second0)
  {
    ok, first, second := false, first0, second0;
    var hashBuffer := HashBuffer(secret, keyId);
    if !e.init { return; }
    var data: seq<byte> := [];
    if !e.update1 { return; }
    data := data + hashBuffer[..];
    if !e.update2 { return; }
    data := data + ID_U;
    if !e.update3 { return; }
    data := data + ID_V;
    if !e.get { return; }
    assert data == HashInput(secret, keyId);
    var keyMaterial := cr.sha256(data);
    ok, first, second := true, keyMaterial[..16], keyMaterial[16..];
  }

  const ISV_KDF_ID := 2

  /** key_derivation, the callback that the enclave hands to the key exchange library: its status
      and the keys it leaves, those of the first derivation also when the second one fails. */
  method KeyDerivation(cr: Crypto, secret: Option<B32>, kdfId: nat, e0: ShaEnv, e1: ShaEnv, keys0: Keys)
    returns (r: Status, keys: Keys)
    ensures r == InvalidParameter <==> secret.None?
    ensures r == KdfMismatch <==> secret.Some? && kdfId != 2
    ensures r == Unexpected <==> secret.Some? && kdfId == 2 && !(e0.Ok() && e1.Ok())
    ensures r == Success <==> secret.Some? && kdfId == 2 && e0.Ok() && e1.Ok()
    ensures r == Success ==> keys == KeysOf(cr, Supplied, secret.value)
    ensures r in {InvalidParameter, KdfMismatch} ==> keys == keys0
    ensures r == Unexpected ==>
      var derived := KeysOf(cr, Supplied, secret.value);
      keys == if e0.Ok() then keys0.(smk := derived.smk, sk := derived.sk) else keys0
  {
    keys := keys0;
    if secret.None? { return InvalidParameter, keys; }
    if kdfId != ISV_KDF_ID { return KdfMismatch, keys; }
    var ok, first, second := EnclaveDeriveTwo(cr, secret.value, SMK_SK, e0, keys.smk, keys.sk);
    keys := keys.(smk := first, sk := second);
    if !ok { return Unexpected, keys; }
    ok, first, second := EnclaveDeriveTwo(cr, secret.value, MK_VK, e1, keys.mk, keys.vk);
    keys := keys.(mk := first, vk := second);
    if !ok { return Unexpected, keys; }
    r := Success;
  }

  // ---------- default form: one key from two CMACs ----------

  datatype KeyId = IdSmk | IdSk | IdMk | IdVk | IdOther

  const LABEL_SMK: seq<byte> := [83, 77, 75]
  const LABEL_SK: seq<byte> := [83, 75]
  const LABEL_MK: seq<byte> := [77, 75]
  const LABEL_VK: seq<byte> := [86, 75]

  function LabelOf(id: KeyId): seq<byte>
    requires id != IdOther
  {
    match id case IdSmk => LABEL_SMK case IdSk => LABEL_SK case IdMk => LABEL_MK case IdVk => LABEL_VK
  }

  /** counter (1) || label || 0 || output key length (0x0080, little-endian) */
  function DerivationBuffer(id: KeyId): (s: seq<byte>)
    requires id != IdOther
    ensures |s| == |LabelOf(id)| + 4
  {
    [1] + LabelOf(id) + [0] + ToLe(0x80, 2)
  }

  lemma DerivationBufferInjective(id1: KeyId, id2: KeyId)
    requires id1 != IdOther && id2 != IdOther && DerivationBuffer(id1) == DerivationBuffer(id2)
    ensures id1 == id2
  {
    var a, b := DerivationBuffer(id1), DerivationBuffer(id2);
    assert a[1..|a| - 3] == LabelOf(id1) && b[1..|b| - 3] == LabelOf(id2);
    assert LABEL_SK[0] != LABEL_MK[0] && LABEL_SK[0] != LABEL_VK[0] && LABEL_MK[0] != LABEL_VK[0];
  }

  function OneKey(cr: Crypto, secret: B32, id: KeyId): B16
    requires id != IdOther
  {
    cr.cmac(cr.cmac(Zeros(16), secret), DerivationBuffer(id))
  }

  /** What the second CMAC covers, byte for byte: "SMK", "SK", "MK" or "VK" between the counter and
      a zero, and the length 0x0080 with its low byte first. */
  lemma DerivedBytes(id: KeyId)
    requires id != IdOther
    ensures DerivationBuffer(id) ==
      match id
      case IdSmk => [1, 83, 77, 75, 0, 0x80, 0]
      case IdSk => [1, 83, 75, 0, 0x80, 0]
      case IdMk => [1, 77, 75, 0, 0x80, 0]
      case IdVk => [1, 86, 75, 0, 0x80, 0]
  {
    assert ToLe(0x80, 2) == [0x80, 0] by { assert ToLe(0, 1) == [0]; }
  }

  ghost predicate CmacKeyInjective(cr: Crypto) {
    forall k1: B16, k2: B16, m :: cr.cmac(k1, m) == cr.cmac(k2, m) ==> k1 == k2
  }

  /** When the CMAC is injective in its key, two secrets give the same key for an id exactly if their
      own CMACs under the zero key agree: the key depends on the secret, and only through that. */
  lemma OneKeyExactly(cr: Crypto, s1: B32, s2: B32, id: KeyId)
    requires id != IdOther && CmacKeyInjective(cr)
    ensures OneKey(cr, s1, id) == OneKey(cr, s2, id) <==> cr.cmac(Zeros(16), s1) == cr.cmac(Zeros(16), s2)
  {}

  /** Which calls succeed; junk is what a failing second CMAC left in its output, if anything. */
  datatype CmacEnv = CmacEnv(extract: bool, alloc: bool, expand: bool, junk: Option<B16>) {
    predicate Ok() { extract && alloc && expand }
  }

  /** The key after one derive_key call of the default form. */
  function OneKeyAfter(cr: Crypto, secret: B32, id: KeyId, e: CmacEnv, key0: B16): B16
    requires id != IdOther
  {
    if e.Ok() then OneKey(cr, secret, id)
    else if e.extract && e.alloc && e.junk.Some? then e.junk.value
    else key0
  }

  /** The service provider's derive_key of the default form; the derivation buffer it allocates is
      freed again on every path. */
  method SpDeriveOne(heap: Heap, cr: Crypto, secret: B32, id: KeyId, e: CmacEnv, key0: B16)
    returns (ok: bool, key: B16)
    modifies heap
    ensures heap.live == old(heap.live) && heap.contexts == old(heap.contexts)
    ensures ok <==> id != IdOther && e.extract && e.alloc && e.expand
    ensures id != IdOther ==> key == OneKeyAfter(cr, secret, id, e, key0)
    ensures id == IdOther || !e.extract || !e.alloc ==> key == key0
    ensures !ok && id != IdOther && e.extract && e.alloc ==>
      key == if e.junk.Some? then e.junk.value else key0
    ensures ok ==> key == cr.cmac(cr.cmac(Zeros(16), secret),
      match id
      case IdSmk => [1, 83, 77, 75, 0, 0x80, 0]
      case IdSk => [1, 83, 75, 0, 0x80, 0]
      case IdMk => [1, 77, 75, 0, 0x80, 0]
      case IdVk => [1, 86, 75, 0, 0x80, 0])
  {
    ok, key := false, key0;
    if id != IdOther { DerivedBytes(id); }
    if !e.extract { return; }
    var keyDeriveKey := cr.cmac(Zeros(16), secret);
    if id == IdOther { return; }
    var text := LabelOf(id);
    var buf := heap.Malloc(|text| + 4, e.alloc);
    if buf == null { return; }
    FillDerivation(buf, id);
    if e.expand {
      ok, key := true, cr.cmac(keyDeriveKey, buf[..]);
    } else if e.junk.Some? {
      key := e.junk.value;
    }
    heap.Free(buf);
  }

  method FillDerivation(buf: array<byte>, id: KeyId)
    requires id != IdOther && buf.Length == |LabelOf(id)| + 4
    modifies buf
    ensures buf[..] == DerivationBuffer(id)
  {
    var text, length := LabelOf(id), buf.Length;
    Memset0(buf);
    buf[0] := 1;
    assert buf[..] == [1] + Zeros(|text| + 3);
    var err := MemcpyS(buf, 1, length - 1, text);
    assert buf[..] == [1] + text + Zeros(3);
    buf[length - 2] := 0x80;
    buf[length - 1] := 0;
    assert ToLe(0x80, 2) == [0x80, 0] by { assert ToLe(0, 1) == [0]; }
  }

  function KeysOf(cr: Crypto, form: Form, secret: B32): Keys {
    match form
    case Default =>
      Keys(OneKey(cr, secret, IdSmk), OneKey(cr, secret, IdSk), OneKey(cr, secret, IdMk), OneKey(cr, secret, IdVk))
    case Supplied =>
      var a, b := TwoKeys(cr, secret, SMK_SK), TwoKeys(cr, secret, MK_VK);
      Keys(a.0, a.1, b.0, b.1)
  }

  /** The four keys in terms of the library calls alone, for both forms. */
  lemma KeysSpelledOut(cr: Crypto, secret: B32)
    ensures var k, d := cr.cmac(Zeros(16), secret), KeysOf(cr, Default, secret);
      && d.smk == cr.cmac(k, [1, 83, 77, 75, 0, 0x80, 0]) && d.sk == cr.cmac(k, [1, 83, 75, 0, 0x80, 0])
      && d.mk == cr.cmac(k, [1, 77, 75, 0, 0x80, 0]) && d.vk == cr.cmac(k, [1, 86, 75, 0, 0x80, 0])
    ensures var tail := Reverse(secret) + [0, 0, 0, 0]
        + [83, 71, 88, 82, 65, 69, 78, 67, 76, 65, 86, 69, 0] + [83, 71, 88, 82, 65, 83, 69, 82, 86, 69, 82, 0];
      var h0, h1, d := cr.sha256([0, 0, 0, 0] + tail), cr.sha256([0, 0, 0, 1] + tail), KeysOf(cr, Supplied, secret);
      d.smk == h0[..16] && d.sk == h0[16..] && d.mk == h1[..16] && d.vk == h1[16..]
  {
    DerivedBytes(IdSmk);
    DerivedBytes(IdSk);
    DerivedBytes(IdMk);
    DerivedBytes(IdVk);
    var ids: seq<byte> := [83, 71, 88, 82, 65, 69, 78, 67, 76, 65, 86, 69, 0];
    var ids': seq<byte> := [83, 71, 88, 82, 65, 83, 69, 82, 86, 69, 82, 0];
    Regroup(secret, 0, ids, ids');
    Regroup(secret, 1, ids, ids');
    HashedBytes(secret, 0);
    HashedBytes(secret, 1);
  }

  lemma Regroup(secret: B32, keyId: byte, u: seq<byte>, v: seq<byte>)
    ensures [0, 0, 0, keyId] + Reverse(secret) + [0, 0, 0, 0] + u + v
         == [0, 0, 0, keyId] + (Reverse(secret) + [0, 0, 0, 0] + u + v)
  {}
}
