/** The service provider (service_provider.cpp): the global state as fields of a class, one
    method per message. */
module ServiceProvider {
  import opened Bytes
  import opened Crypto
  import opened Memory
  import opened Kdf
  import opened Layout
  import opened SpSpec

  /** The buffer holds w and, after it, the zeros memset left there. */
  ghost predicate Written(p: array<byte>, w: seq<byte>)
    reads p
  {
    |w| <= p.Length && p[..] == w + Zeros(p.Length - |w|)
  }

  /** One store right after what is already written. */
  method Append(p: array<byte>, ghost w: seq<byte>, at: nat, v: seq<byte>) returns (ghost w': seq<byte>)
    requires Written(p, w) && at == |w| && at + |v| <= p.Length
    modifies p
    ensures w' == w + v && |w'| == at + |v| && Written(p, w')
  {
    FillNext(w, p.Length - at, v);
    w' := w + v;
    var err := MemcpyS(p, at, |v|, v);
  }

  /** Bytes that stay zero. */
  ghost method Skip(p: array<byte>, w: seq<byte>, n: nat) returns (w': seq<byte>)
    requires Written(p, w) && |w| + n <= p.Length
    ensures w' == w + Zeros(n) && |w'| == |w| + n && Written(p, w')
  {
    w' := w + Zeros(n);
    assert Zeros(p.Length - |w|) == Zeros(n) + Zeros(p.Length - |w| - n);
  }

  /** A response header into a zeroed buffer. */
  method FillHeader(p: array<byte>, ty: byte, st0: byte, st1: byte, size: nat) returns (ghost w: seq<byte>)
    requires p.Length >= HEADER
    modifies p
    ensures w == Response(ty, st0, st1, size, []) && Written(p, w)
  {
    Memset0(p);
    w := [];
    assert p[..] == w + Zeros(p.Length);
    w := Append(p, w, 0, [ty]);
    w := Append(p, w, 1, [st0, st1]);
    w := Append(p, w, 3, ToLe(size, 4));
    w := Skip(p, w, 1);
  }

  lemma BodyParts(h: seq<byte>, blob: seq<byte>, mac: B16, size: nat, tag: B16, text: seq<byte>)
    requires |blob| == BLOB
    ensures h + blob + mac + ToLe(size, 4) + Zeros(12) + tag + text == h + AttResult(blob, mac, size, tag, text)
  {}

  class ServiceProvider {
    const cfg: Cfg
    const heap: Heap
    var db: Db
    var group: Option<nat>
    var registered: bool
    var returnEcdsa: bool
    var spid: B16

    function View(): SpState
      reads this
    {
      SpState(db, group, registered, returnEcdsa, spid)
    }

    predicate Valid()
      reads this
    {
      Wf(cfg, View())
    }

    constructor (cfg: Cfg, heap: Heap)
      ensures Valid() && View() == START && this.cfg == cfg && this.heap == heap
    {
      this.cfg := cfg;
      this.heap := heap;
      db, group, registered, returnEcdsa, spid := ZERO_DB, None, false, true, Zeros(16);
    }

    /** The call left the state and gave the answer that `out` says: on success a new buffer
        that is the caller's to free, otherwise none. */
    twostate predicate Answered(out: Out, ret: int, new resp: array?<byte>)
      reads this, heap, resp
    {
      && View() == out.s && ret == out.ret
      && heap.contexts == old(heap.contexts)
      && (ret == SP_OK ==>
        resp != null && fresh(resp) && resp[..] == out.reply && heap.live == old(heap.live) + {resp})
      && (ret != SP_OK ==> resp == null && heap.live == old(heap.live))
    }

    // ---------- message 0 ----------

    method ProcMsg0(msg: seq<byte>, e: Msg0Env) returns (ret: int, resp: array?<byte>)
      requires Valid()
      modifies this, heap
      ensures Valid() && Answered(DoMsg0(cfg, old(View()), msg, e), ret, resp)
    {
      ret, resp := -1, null;
      if |msg| != MSG0 { return; }
      var id := FromLe(msg);
      if !registered || (group.Some? && cfg.table[group.value] != id) {
        ret := SP_UNSUPPORTED_EXTENDED_EPID_GROUP;
        var i := 0;
        while i < |cfg.table| && cfg.table[i] != id
          invariant 0 <= i <= |cfg.table| && forall j :: 0 <= j < i ==> cfg.table[j] != id
        {
          i := i + 1;
        }
        assert FindGroup(cfg.table, id) == if i < |cfg.table| then Some(i) else None;
        if i < |cfg.table| {
          group := Some(i);
          spid := e.spid;
          ret := e.enroll;
          if ret != 0 {
            ret := SP_IAS_FAILED;
            return;
          }
          registered := true;
        }
      }
      var list := if returnEcdsa then cfg.ecdsaList else cfg.epidList;
      resp := heap.Malloc(HEADER + |list|, e.alloc);
      if resp == null {
        ret := SP_INTERNAL_ERROR;
      } else {
        FillKeyList(resp, list);
        returnEcdsa := false;
        ret := SP_OK;
      }
    }

    static method FillKeyList(p: array<byte>, list: seq<byte>)
      requires p.Length == HEADER + |list|
      modifies p
      ensures p[..] == Response(TYPE_RA_MSG0, 0, 0, |list|, list)
    {
      ghost var w := FillHeader(p, TYPE_RA_MSG0, 0, 0, |list|);
      w := Append(p, w, HEADER, list);
      assert p[..] == w;
    }

    // ---------- message 1 ----------

    /** The four or two derive_key calls, each writing its keys into the record. */
    method DeriveKeys(secret: B32, e: Msg1Env) returns (ok: bool)
      modifies this`db, heap
      ensures heap.live == old(heap.live) && heap.contexts == old(heap.contexts)
      ensures ok <==> DerivesAll(cfg, e)
      ensures db == Derived(cfg, old(db), secret, e)
    {
      match cfg.form {
        case Supplied =>
          var first, second;
          ok, first, second := SpDeriveTwo(cfg.cr, secret, SMK_SK, e.t0, db.smk, db.sk);
          db := db.(smk := first, sk := second);
          if !ok { return; }
          ok, first, second := SpDeriveTwo(cfg.cr, secret, MK_VK, e.t1, db.mk, db.vk);
          db := db.(mk := first, vk := second);
        case Default =>
          var key;
          ok, key := SpDeriveOne(heap, cfg.cr, secret, IdSmk, e.d0, db.smk);
          db := db.(smk := key);
          if !ok { return; }
          ok, key := SpDeriveOne(heap, cfg.cr, secret, IdMk, e.d1, db.mk);
          db := db.(mk := key);
          if !ok { return; }
          ok, key := SpDeriveOne(heap, cfg.cr, secret, IdSk, e.d2, db.sk);
          db := db.(sk := key);
          if !ok { return; }
          ok, key := SpDeriveOne(heap, cfg.cr, secret, IdVk, e.d3, db.vk);
          db := db.(vk := key);
      }
    }

    /** Fills the response buffer of message 2 field by field; ret tells whether the signature
        and the MAC could be computed. */
    method FillMsg2(p: array<byte>, e: Msg1Env) returns (ret: int)
      requires p.Length == HEADER + MSG2 + |e.sigrl|
      requires MSG2 + |e.sigrl| < UINT32_LIMIT
      modifies p
      ensures ret == if e.sign && e.cmac then SP_OK else SP_INTERNAL_ERROR
      ensures ret == SP_OK ==> p[..] == Msg2Reply(cfg, db, spid, e)
    {
      ghost var h := FillHeader(p, TYPE_RA_MSG2, 0, 0, MSG2 + |e.sigrl|);
      ghost var maced;
      ret, maced := FillMaced(p, h, e);
      if ret != SP_OK { return; }
      if !e.cmac { return SP_INTERNAL_ERROR; }
      assert p[..][HEADER..HEADER + MSG2_MAC] == maced;
      var mac := cfg.cr.cmac(db.smk, p[HEADER..HEADER + MSG2_MAC]);
      FillTail(p, h + maced, mac, e.sigrl);
      assert h + maced + mac + ToLe(|e.sigrl|, 4) + e.sigrl == h + Msg2(maced, mac, e.sigrl);
    }

    /** The fields of message 2 under the MAC, the last of them the signature. */
    method FillMaced(p: array<byte>, ghost h: seq<byte>, e: Msg1Env) returns (ret: int, ghost maced: seq<byte>)
      requires |h| == HEADER && p.Length >= HEADER + MSG2 && Written(p, h)
      modifies p
      ensures ret == if e.sign then SP_OK else SP_INTERNAL_ERROR
      ensures ret == SP_OK ==> maced == Msg2MacedOf(cfg, db, spid, e.coins) && Written(p, h + maced)
    {
      maced := [];
      ghost var w := Append(p, h, HEADER, db.gB);
      w := Append(p, w, HEADER + MSG2_SPID, spid);
      w := Append(p, w, HEADER + MSG2_QUOTE_TYPE, ToLe(SAMPLE_QUOTE_LINKABLE_SIGNATURE, 2));
      w := Append(p, w, HEADER + MSG2_KDF_ID, ToLe(KdfId(cfg.form), 2));
      ret := SP_INTERNAL_ERROR;
      if !e.sign { return; }
      var gbGa := db.gB + db.gA;
      var signature := cfg.cr.sign(cfg.spKey, gbGa, e.coins);
      w := Append(p, w, HEADER + MSG2_SIGN, signature);
      maced := Msg2MacedOf(cfg, db, spid, e.coins);
      assert w == h + maced;
      ret := SP_OK;
    }

    /** The MAC, the revocation list and, last, its size in front of it. */
    static method FillTail(p: array<byte>, ghost x: seq<byte>, mac: B16, sigrl: seq<byte>)
      requires |x| == HEADER + MSG2_MAC && p.Length == HEADER + MSG2 + |sigrl| && Written(p, x)
      modifies p
      ensures p[..] == x + mac + ToLe(|sigrl|, 4) + sigrl
    {
      ghost var w := Append(p, x, HEADER + MSG2_MAC, mac);
      ghost var gap := Skip(p, w, 4);
      gap := Append(p, gap, HEADER + MSG2, sigrl);
      assert p[..] == w + Zeros(4) + sigrl;
      FillGap(w, ToLe(|sigrl|, 4), sigrl);
      var err := MemcpyS(p, HEADER + MSG2_SIG_RL_SIZE, 4, ToLe(|sigrl|, 4));
    }

    method ProcMsg1(msg: seq<byte>, e: Msg1Env) returns (ret: int, resp: array?<byte>)
      requires Valid()
      requires Admitted(View(), msg, e) && Establishes(cfg, e) ==> MSG2 + |e.sigrl| < UINT32_LIMIT
      modifies this, heap
      ensures Valid() && Answered(DoMsg1(cfg, old(View()), msg, e), ret, resp)
    {
      ret, resp := 0, null;
      if |msg| != MSG1 { return -1, null; }
      if !registered { return SP_UNSUPPORTED_EXTENDED_EPID_GROUP, null; }
      var eccOpen := false;
      label attempt: {
        ret := e.sigrlRet;
        if ret != 0 { ret := SP_IAS_FAILED; break attempt; }
        db := db.(gA := msg[..64]);
        if !e.open { ret := -1; break attempt; }
        heap.OpenContext();
        eccOpen := true;
        if !e.keyPair { ret := SP_INTERNAL_ERROR; break attempt; }
        db := db.(b := e.priv, gB := cfg.cr.pub(e.priv));
        if !e.dh { ret := SP_INTERNAL_ERROR; break attempt; }
        var derived := DeriveKeys(cfg.cr.dh(e.priv, msg[..64]), e);
        if !derived { ret := SP_INTERNAL_ERROR; break attempt; }
        var msg2Size := U32(MSG2 + |e.sigrl|);
        resp := heap.Malloc(HEADER + msg2Size, e.alloc);
        if resp == null { ret := SP_INTERNAL_ERROR; break attempt; }
        ret := FillMsg2(resp, e);
      }
      if ret != 0 {
        if resp != null { heap.Free(resp); }
        resp := null;
      }
      if eccOpen { heap.CloseContext(); }
    }

    // ---------- message 3 ----------

    /** The status of the MAC and of the encryption. */
    static function ResultStatus(e: Msg3Env): int {
      if !e.cmac2 then SP_INTERNAL_ERROR else if PassedAttestation(e.report) then e.gcm else SP_OK
    }

    /** Header and body of the attestation result. */
    method FillResult(p: array<byte>, e: Msg3Env) returns (ret: int)
      requires p.Length == HEADER + ATT_RESULT + |SECRET|
      requires |cfg.cr.seal(db.sk, SECRET).text| == |SECRET|
      modifies p
      ensures ret == ResultStatus(e)
      ensures ret == SP_OK ==> p[..] == ResultReply(cfg, db, e.report)
    {
      ghost var h := FillResultHeader(p, e.report);
      ret := FillResultBody(p, h, e);
    }

    /** The header is written with good statuses, and then a bad quote or a bad platform service
        status is put into its byte. */
    static method FillResultHeader(p: array<byte>, r: Report) returns (ghost w: seq<byte>)
      requires p.Length >= HEADER
      modifies p
      ensures w == Response(TYPE_RA_ATT_RESULT, StatusByte(r.status == IAS_QUOTE_OK),
                            StatusByte(r.pse == IAS_PSE_OK), ATT_RESULT, [])
      ensures Written(p, w)
    {
      w := FillHeader(p, TYPE_RA_ATT_RESULT, 0, 0, ATT_RESULT);
      var st0, st1 := StatusByte(r.status == IAS_QUOTE_OK), StatusByte(r.pse == IAS_PSE_OK);
      if r.status != IAS_QUOTE_OK { p[1] := 0xFF; }
      if r.pse != IAS_PSE_OK { p[2] := 0xFF; }
      w := w[1 := st0][2 := st1];
      assert w == Response(TYPE_RA_ATT_RESULT, st0, st1, ATT_RESULT, []);
    }

    method FillResultBody(p: array<byte>, ghost h: seq<byte>, e: Msg3Env) returns (ret: int)
      requires |h| == HEADER && p.Length == HEADER + ATT_RESULT + |SECRET| && Written(p, h)
      requires |cfg.cr.seal(db.sk, SECRET).text| == |SECRET|
      modifies p
      ensures ret == ResultStatus(e)
      ensures ret == SP_OK ==> p[..] == h + ResultBody(cfg, db, e.report)
    {
      ghost var w;
      ret, w := FillResultInfo(p, h, e);
      if ret != SP_OK { return; }
      if PassedAttestation(e.report) && e.gcm != 0 { return e.gcm; }
      FillSecret(p, w, cfg.cr.seal(db.sk, SECRET), PassedAttestation(e.report));
      ghost var sealed := SealedSecret(cfg, db, e.report);
      assert p[..] == w + sealed.tag + sealed.text;
      BodyParts(h, e.report.blob, cfg.cr.cmac(db.mk, e.report.blob), |SECRET|, sealed.tag, sealed.text);
    }

    /** The fields before the encrypted secret: the platform info, its MAC and the payload size. */
    method FillResultInfo(p: array<byte>, ghost h: seq<byte>, e: Msg3Env) returns (ret: int, ghost w: seq<byte>)
      requires |h| == HEADER && p.Length >= HEADER + ATT_RESULT && Written(p, h)
      modifies p
      ensures ret == if e.cmac2 then SP_OK else SP_INTERNAL_ERROR
      ensures ret == SP_OK ==>
        w == h + e.report.blob + cfg.cr.cmac(db.mk, e.report.blob) + ToLe(|SECRET|, 4) + Zeros(12) && Written(p, w)
    {
      var blob := e.report.blob;
      w := Append(p, h, HEADER, blob);
      if !e.cmac2 { return SP_INTERNAL_ERROR, w; }
      assert p[..][HEADER..HEADER + BLOB] == blob;
      var mac := cfg.cr.cmac(db.mk, p[HEADER..HEADER + BLOB]);
      w := Append(p, w, HEADER + ATT_MAC, mac);
      w := Append(p, w, HEADER + ATT_SECRET_SIZE, ToLe(|SECRET|, 4));
      w := Skip(p, w, 12);
      return SP_OK, w;
    }

    /** The encryption writes the tag and the payload; without it they stay zero. */
    static method FillSecret(p: array<byte>, ghost w: seq<byte>, sealed: Sealed, passed: bool)
      requires |w| == HEADER + ATT_TAG && |sealed.text| == |SECRET|
      requires p.Length == HEADER + ATT_RESULT + |SECRET| && Written(p, w)
      modifies p
      ensures p[..] == if passed then w + sealed.tag + sealed.text else w + Zeros(16) + Zeros(|SECRET|)
    {
      if passed {
        ghost var w' := Append(p, w, HEADER + ATT_TAG, sealed.tag);
        w' := Append(p, w', HEADER + ATT_RESULT, sealed.text);
        assert p[..] == w';
      } else {
        ghost var w' := Skip(p, w, 16);
      }
    }

    method ProcMsg3(msg: seq<byte>, e: Msg3Env) returns (ret: int, resp: array?<byte>)
      requires Valid() && QuoteReadable(cfg, View(), msg, e) && SealKeepsLength(cfg.cr)
      modifies this, heap
      ensures Valid() && Answered(DoMsg3(cfg, old(View()), msg, e), ret, resp)
    {
      ret, resp := 0, null;
      if |msg| < MSG3 { return SP_INTERNAL_ERROR, null; }
      if !registered { return SP_UNSUPPORTED_EXTENDED_EPID_GROUP, null; }
      label attempt: {
        if db.gA != Get(msg, MSG3_GA, 64) { ret := SP_PROTOCOL_ERROR; break attempt; }
        if !e.cmac { ret := SP_INTERNAL_ERROR; break attempt; }
        var mac := cfg.cr.cmac(db.smk, msg[16..]);
        if Get(msg, 0, 16) != mac { ret := SP_INTEGRITY_FAILED; break attempt; }
        db := db.(psSecProp := Get(msg, MSG3_PS, 256));
        if !e.sha.init { ret := SP_INTERNAL_ERROR; break attempt; }
        var data := [];
        if !e.sha.update1 { ret := SP_INTERNAL_ERROR; break attempt; }
        data := data + db.gA;
        if !e.sha.update2 { ret := SP_INTERNAL_ERROR; break attempt; }
        data := data + db.gB;
        if !e.sha.update3 { ret := SP_INTERNAL_ERROR; break attempt; }
        data := data + db.vk;
        if !e.sha.get { ret := SP_INTERNAL_ERROR; break attempt; }
        assert data == db.gA + db.gB + db.vk;
        var reportData := cfg.cr.sha256(data) + Zeros(32);
        var quote := MSG3;
        if reportData != Get(msg, quote + QUOTE_BODY + BODY_REPORT_DATA, REPORT_DATA) {
          ret := SP_INTEGRITY_FAILED;
          break attempt;
        }
        ret := e.ias;
        if ret != 0 { ret := SP_IAS_FAILED; break attempt; }
        resp := heap.Malloc(HEADER + ATT_RESULT + |SECRET|, e.alloc);
        if resp == null { ret := SP_INTERNAL_ERROR; break attempt; }
        ret := FillResult(resp, e);
      }
      if ret != 0 {
        if resp != null { heap.Free(resp); }
        resp := null;
      }
    }
  }
}
