/** What sp_ra_proc_msg0_req, sp_ra_proc_msg1_req and sp_ra_proc_msg3_req do to the global state
    of the service provider and answer, as functions of the state, the message and the results of
    the calls they make.  The class in ServiceProvider.dfy is proved against these functions;
    the theorems about runs (SpRuns.dfy) are about them. */
module SpSpec {
  import opened Bytes
  import opened Crypto
  import opened Kdf
  import opened Layout

  // sp_ra_msg_status_t
  const SP_OK := 0
  const SP_UNSUPPORTED_EXTENDED_EPID_GROUP := 1
  const SP_INTEGRITY_FAILED := 2
  const SP_IAS_FAILED := 4
  const SP_INTERNAL_ERROR := 5
  const SP_PROTOCOL_ERROR := 6

  const IAS_QUOTE_OK := 0
  const IAS_PSE_OK := 0
  const SAMPLE_QUOTE_LINKABLE_SIGNATURE := 1

  /** g_secret of the service provider. */
  const SECRET: seq<byte> := [0, 1, 2, 3, 4, 5, 6, 7]

  /** What is fixed: the crypto library, the key derivation compiled in, the ids of
      g_extended_epid_groups, the signing key and the two attestation key id lists. */
  datatype Cfg = Cfg(cr: Crypto, form: Form, table: seq<nat>, spKey: B32,
                     ecdsaList: seq<byte>, epidList: seq<byte>)

  /** g_sp_db */
  datatype Db = Db(gA: B64, gB: B64, vk: B16, mk: B16, sk: B16, smk: B16, b: B32, psSecProp: seq<byte>)

  /** The global state; group is g_sp_extended_epid_group_id as an index into the table. */
  datatype SpState = SpState(db: Db, group: Option<nat>, registered: bool, returnEcdsa: bool, spid: B16)

  const ZERO_DB := Db(Zeros(64), Zeros(64), Zeros(16), Zeros(16), Zeros(16), Zeros(16), Zeros(32), Zeros(256))
  const START := SpState(ZERO_DB, None, false, true, Zeros(16))

  /** The return value, the state left behind and, when the value is SP_OK, the response. */
  datatype Out = Out(s: SpState, ret: int, reply: seq<byte>)

  function Fail(s: SpState, ret: int): Out { Out(s, ret, []) }

  predicate Wf(cfg: Cfg, s: SpState) {
    && (s.group.Some? ==> s.group.value < |cfg.table|)
    && (s.registered ==> s.group.Some?)
  }

  // ---------- message 0 ----------

  /** The result of the enrolment call, the SPID it stored, and whether there was memory. */
  datatype Msg0Env = Msg0Env(enroll: int, spid: B16, alloc: bool)

  /** The first group of the table with this id. */
  function FindGroup(table: seq<nat>, id: nat): (r: Option<nat>)
    ensures r.Some? ==> r.value < |table| && table[r.value] == id
    ensures forall j :: 0 <= j < (if r.Some? then r.value else |table|) ==> table[j] != id
  {
    if table == [] then None
    else if table[0] == id then Some(0)
    else
      var r := FindGroup(table[1..], id);
      assert forall j :: 1 <= j < |table| ==> table[j] == table[1..][j - 1];
      if r.None? then None else Some(r.value + 1)
  }

  /** Whether message 0 goes through registration: not registered yet, or for another group. */
  predicate Enrolling(cfg: Cfg, s: SpState, id: nat)
    requires Wf(cfg, s)
  {
    !s.registered || (s.group.Some? && cfg.table[s.group.value] != id)
  }

  function EnrollState(cfg: Cfg, s: SpState, id: nat, e: Msg0Env): SpState
    requires Wf(cfg, s)
  {
    if Enrolling(cfg, s, id) && FindGroup(cfg.table, id).Some? then
      s.(group := FindGroup(cfg.table, id), spid := e.spid, registered := s.registered || e.enroll == 0)
    else s
  }

  predicate EnrollFails(cfg: Cfg, s: SpState, id: nat, e: Msg0Env)
    requires Wf(cfg, s)
  {
    Enrolling(cfg, s, id) && FindGroup(cfg.table, id).Some? && e.enroll != 0
  }

  function KeyList(cfg: Cfg, ecdsa: bool): seq<byte> { if ecdsa then cfg.ecdsaList else cfg.epidList }

  function KeyListReply(cfg: Cfg, ecdsa: bool): seq<byte> {
    Response(TYPE_RA_MSG0, 0, 0, |KeyList(cfg, ecdsa)|, KeyList(cfg, ecdsa))
  }

  function DoMsg0(cfg: Cfg, s: SpState, msg: seq<byte>, e: Msg0Env): Out
    requires Wf(cfg, s)
  {
    if |msg| != MSG0 then Fail(s, -1)
    else
      var id := FromLe(msg);
      var s1 := EnrollState(cfg, s, id, e);
      if EnrollFails(cfg, s, id, e) then Fail(s1, SP_IAS_FAILED)
      else if !e.alloc then Fail(s1, SP_INTERNAL_ERROR)
      else Out(s1.(returnEcdsa := false), SP_OK, KeyListReply(cfg, s.returnEcdsa))
  }

  // ---------- message 1 ----------

  /** The results of the calls message 1 makes: the revocation list, the new private key, the
      derivations (d0..d3 in the default form, t0 and t1 in the two-key form) and which of the
      other calls succeed. */
  datatype Msg1Env = Msg1Env(
    sigrlRet: int, sigrl: seq<byte>, open: bool, keyPair: bool, priv: B32, dh: bool,
    d0: CmacEnv, d1: CmacEnv, d2: CmacEnv, d3: CmacEnv, t0: ShaEnv, t1: ShaEnv,
    alloc: bool, sign: bool, coins: B32, cmac: bool)

  /** The record after the derive_key calls, which stop at the first failure. */
  function Derived(cfg: Cfg, db: Db, secret: B32, e: Msg1Env): Db {
    match cfg.form
    case Supplied =>
      var a, c := TwoKeys(cfg.cr, secret, SMK_SK), TwoKeys(cfg.cr, secret, MK_VK);
      if !e.t0.Ok() then db
      else if !e.t1.Ok() then db.(smk := a.0, sk := a.1)
      else db.(smk := a.0, sk := a.1, mk := c.0, vk := c.1)
    case Default =>
      var db1 := db.(smk := OneKeyAfter(cfg.cr, secret, IdSmk, e.d0, db.smk));
      if !e.d0.Ok() then db1
      else
        var db2 := db1.(mk := OneKeyAfter(cfg.cr, secret, IdMk, e.d1, db.mk));
        if !e.d1.Ok() then db2
        else
          var db3 := db2.(sk := OneKeyAfter(cfg.cr, secret, IdSk, e.d2, db.sk));
          if !e.d2.Ok() then db3
          else db3.(vk := OneKeyAfter(cfg.cr, secret, IdVk, e.d3, db.vk))
  }

  predicate DerivesAll(cfg: Cfg, e: Msg1Env) {
    match cfg.form
    case Supplied => e.t0.Ok() && e.t1.Ok()
    case Default => e.d0.Ok() && e.d1.Ok() && e.d2.Ok() && e.d3.Ok()
  }

  /** The record after message 1 got past its guards. */
  function SessionDb(cfg: Cfg, db: Db, gA: B64, e: Msg1Env): Db {
    var db1 := db.(gA := gA);
    if !e.open || !e.keyPair then db1
    else
      var db2 := db1.(b := e.priv, gB := cfg.cr.pub(e.priv));
      if !e.dh then db2 else Derived(cfg, db2, cfg.cr.dh(e.priv, gA), e)
  }

  /** Message 1 completes the session record. */
  predicate Establishes(cfg: Cfg, e: Msg1Env) { e.open && e.keyPair && e.dh && DerivesAll(cfg, e) }

  /** Message 1 gets past the checks that leave the session record alone. */
  predicate Admitted(s: SpState, msg: seq<byte>, e: Msg1Env) {
    |msg| == MSG1 && s.registered && e.sigrlRet == 0
  }

  function KdfId(form: Form): nat { match form case Supplied => ISV_KDF_ID case Default => 1 }

  function SignGbGa(cfg: Cfg, db: Db, coins: B32): B64 { cfg.cr.sign(cfg.spKey, db.gB + db.gA, coins) }

  function Msg2MacedOf(cfg: Cfg, db: Db, spid: B16, coins: B32): (r: seq<byte>)
    ensures |r| == MSG2_MAC
  {
    Msg2Maced(db.gB, spid, SAMPLE_QUOTE_LINKABLE_SIGNATURE, KdfId(cfg.form), SignGbGa(cfg, db, coins))
  }

  function Msg2Reply(cfg: Cfg, db: Db, spid: B16, e: Msg1Env): seq<byte> {
    var maced := Msg2MacedOf(cfg, db, spid, e.coins);
    Response(TYPE_RA_MSG2, 0, 0, MSG2 + |e.sigrl|, Msg2(maced, cfg.cr.cmac(db.smk, maced), e.sigrl))
  }

  function DoMsg1(cfg: Cfg, s: SpState, msg: seq<byte>, e: Msg1Env): Out {
    if |msg| != MSG1 then Fail(s, -1)
    else if !s.registered then Fail(s, SP_UNSUPPORTED_EXTENDED_EPID_GROUP)
    else if e.sigrlRet != 0 then Fail(s, SP_IAS_FAILED)
    else
      var s1 := s.(db := SessionDb(cfg, s.db, msg[..64], e));
      if !e.open then Fail(s1, -1)
      else if !Establishes(cfg, e) || !e.alloc || !e.sign || !e.cmac then Fail(s1, SP_INTERNAL_ERROR)
      else Out(s1, SP_OK, Msg2Reply(cfg, s1.db, s.spid, e))
  }

  // ---------- message 3 ----------

  /** The report of the attestation server. */
  datatype Report = Report(status: nat, pse: nat, blob: Blob)

  /** ias_platform_info_blob_t */
  type Blob = s: seq<byte> | |s| == 97 witness Zeros(97)

  /** Which calls message 3 makes succeed (gcm is the status of the encryption, handed on as the
      return value), and what the attestation server answers. */
  datatype Msg3Env = Msg3Env(cmac: bool, sha: ShaEnv, ias: int, report: Report, alloc: bool, cmac2: bool, gcm: int)

  predicate PassedAttestation(r: Report) { r.status == IAS_QUOTE_OK && r.pse == IAS_PSE_OK }

  /** The report data that binds the quote to the session. */
  function ReportData(cfg: Cfg, db: Db): seq<byte> {
    cfg.cr.sha256(db.gA + db.gB + db.vk) + Zeros(32)
  }

  /** The message carries the stored g_a and its MAC under the stored smk. */
  predicate Authentic(cfg: Cfg, db: Db, msg: seq<byte>)
    requires |msg| >= MSG3
  {
    Get(msg, MSG3_GA, 64) == db.gA && cfg.cr.cmac(db.smk, msg[16..]) == Get(msg, 0, 16)
  }

  /** Message 3 gets as far as comparing the report data in the quote. */
  predicate ReadsQuote(cfg: Cfg, s: SpState, msg: seq<byte>, e: Msg3Env) {
    |msg| >= MSG3 && s.registered && Authentic(cfg, s.db, msg) && e.cmac && e.sha.Ok()
  }

  /** The source does not check that the quote is long enough for that comparison. */
  predicate QuoteReadable(cfg: Cfg, s: SpState, msg: seq<byte>, e: Msg3Env) {
    ReadsQuote(cfg, s, msg, e) ==> |msg| >= MSG3 + QUOTE_READ
  }

  function StatusByte(good: bool): byte { if good then 0 else 0xFF }

  /** The secret as it goes into the result: encrypted if attestation passed, else zeros. */
  function SealedSecret(cfg: Cfg, db: Db, r: Report): Sealed {
    if PassedAttestation(r) then cfg.cr.seal(db.sk, SECRET) else Sealed(Zeros(8), Zeros(16))
  }

  function ResultBody(cfg: Cfg, db: Db, r: Report): seq<byte> {
    var sealed := SealedSecret(cfg, db, r);
    AttResult(r.blob, cfg.cr.cmac(db.mk, r.blob), |SECRET|, sealed.tag, sealed.text)
  }

  function ResultReply(cfg: Cfg, db: Db, r: Report): seq<byte> {
    Response(TYPE_RA_ATT_RESULT, StatusByte(r.status == IAS_QUOTE_OK), StatusByte(r.pse == IAS_PSE_OK),
             ATT_RESULT, ResultBody(cfg, db, r))
  }

  function DoMsg3(cfg: Cfg, s: SpState, msg: seq<byte>, e: Msg3Env): Out
    requires QuoteReadable(cfg, s, msg, e)
  {
    if |msg| < MSG3 then Fail(s, SP_INTERNAL_ERROR)
    else if !s.registered then Fail(s, SP_UNSUPPORTED_EXTENDED_EPID_GROUP)
    else if Get(msg, MSG3_GA, 64) != s.db.gA then Fail(s, SP_PROTOCOL_ERROR)
    else if !e.cmac then Fail(s, SP_INTERNAL_ERROR)
    else if cfg.cr.cmac(s.db.smk, msg[16..]) != Get(msg, 0, 16) then Fail(s, SP_INTEGRITY_FAILED)
    else
      var s1 := s.(db := s.db.(psSecProp := Get(msg, MSG3_PS, 256)));
      if !e.sha.Ok() then Fail(s1, SP_INTERNAL_ERROR)
      else if Get(msg, MSG3 + QUOTE_BODY + BODY_REPORT_DATA, REPORT_DATA) != ReportData(cfg, s.db) then
        Fail(s1, SP_INTEGRITY_FAILED)
      else if e.ias != 0 then Fail(s1, SP_IAS_FAILED)
      else if !e.alloc || !e.cmac2 then Fail(s1, SP_INTERNAL_ERROR)
      else if PassedAttestation(e.report) && e.gcm != 0 then Fail(s1, e.gcm)
      else Out(s1, SP_OK, ResultReply(cfg, s1.db, e.report))
  }
}
