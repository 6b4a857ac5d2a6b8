/** Theorems about whole rounds of the client against the service provider: a secret is stored only
    after an attestation of the round's own session, and an honest round ends with it stored. */
module ClientRuns {
  import opened Bytes
  import opened ClientSpec
  import opened Completeness
  import opened Crypto
  import opened Enclave
  import opened Kdf
  import opened Layout
  import opened Network
  import opened SpLimits
  import opened SpRuns
  import opened SpSpec

  /** The provider's state when message 1 of the round arrives. */
  function BeforeMsg1(cl: Client, p: Progress, e: RoundEnv): (r: Progress)
    requires Wf(cl.cfg, p.s)
    ensures Wf(cl.cfg, r.s)
  {
    StageCreate(StageMsg0(cl, p, e), e.create)
  }

  /** A stage 3 that stores the secret is about the session the provider was in. */
  lemma StoredStage(cl: Client, p: Progress, e: RoundEnv)
    requires p.end.None? && Wf(cl.cfg, p.s) && HasMsg3(cl, e) && SealKeepsLength(cl.cfg.cr)
    requires StageMsg3(cl, p, e).end == Some(Stored)
    ensures !cl.verifying
    ensures var db, m, e3 := StageMsg3(cl, p, e).s.db, e.msg3.value, e.net3.e3;
      && db == p.s.db.(psSecProp := Get(m, MSG3_PS, 256))
      && PassedAttestation(e3.report)
      && ResultJustified(cl.cfg, db, m, e3, ResultReply(cl.cfg, db, e3.report))
      && e.mac.keys.Key? && cl.cfg.cr.cmac(e.mac.keys.key, e3.report.blob) == cl.cfg.cr.cmac(db.mk, e3.report.blob)
  {
    var m, e3 := e.msg3.value, e.net3.e3;
    ResultIsJustified(cl.cfg, p.s, m, e3);
  }

  /** A stage 1 that goes on outside verification mode has established the session of its message. */
  lemma Stage1Session(cl: Client, p: Progress, e: RoundEnv)
    requires Wf(cl.cfg, p.s) && p.end.None? && WfEnv1(e) && !cl.verifying && StageMsg1(cl, p, e).end.None?
    ensures SessionOf(cl.cfg, StageMsg1(cl, p, e).s.db, e.msg1[..64], e.net1.e1.priv)
  {
    Msg1Establishes(cl.cfg, p.s, e.msg1, e.net1.e1);
  }

  /** Safety of a whole round, with any outcome of every call on both sides: when the secret was
      stored, the provider's session is the one of this round's message 1; the round's message 3
      carries its g_a and a MAC under its smk, and its quote binds g_a, g_b and vk; the report was
      good on both counts; and the key the enclave checked the result with gives the same MAC as
      the session's mk. */
  lemma StoredOnlyAttested(cl: Client, p: Progress, e: RoundEnv)
    requires Wf(cl.cfg, p.s) && p.end.None? && WfEnv(e) && WfSamples(cl.samples) && SealKeepsLength(cl.cfg.cr)
    requires RoundOutcome(cl, p, e).end == Some(Stored)
    ensures !cl.verifying && e.msg3.Some?
    ensures var db, m, e3 := RoundOutcome(cl, p, e).s.db, e.msg3.value, e.net3.e3;
      && SessionOf(cl.cfg, db, e.msg1[..64], e.net1.e1.priv)
      && PassedAttestation(e3.report)
      && ResultJustified(cl.cfg, db, m, e3, ResultReply(cl.cfg, db, e3.report))
      && e.mac.keys.Key? && cl.cfg.cr.cmac(e.mac.keys.key, e3.report.blob) == cl.cfg.cr.cmac(db.mk, e3.report.blob)
  {
    var p0 := BeforeMsg1(cl, p, e);
    var p1 := StageMsg1(cl, p0, e);
    var p2 := StageMsg2(cl, p1, e);
    assert RoundOutcome(cl, p, e) == StageMsg3(cl, p2, e);
    if p2.end.None? {
      StoredStage(cl, p2, e);
      Stage1Session(cl, p0, e);
    } else {
      NoStageStores(cl, p, e);
    }
  }

  /** Before its last stage a round only leaves with an error. */
  lemma NoStageStores(cl: Client, p: Progress, e: RoundEnv)
    requires Wf(cl.cfg, p.s) && p.end.None?
    ensures StageMsg2(cl, StageMsg1(cl, BeforeMsg1(cl, p, e), e), e).end != Some(Stored)
  {
  }

  // ---------- completeness ----------

  /** No call of the round fails, on either side, and no retry loop gives up. */
  predicate GoodRound(cl: Client, p: Progress, e: RoundEnv) {
    && !cl.verifying && e.groupId in cl.cfg.table && e.groupId < UINT32_LIMIT
    && e.alloc0 && Good0(e.net0.e0) && e.selectRet == 0
    && e.create.createFails.None? && !GivesUp(p.lost, e.create.lost)
    && e.create.initRet == 0 && e.create.initStatus == 0
    && e.alloc1 && !GivesUp(p.busy, e.getMsg1.times) && e.getMsg1.final == 0 && Good1(cl.cfg, e.net1.e1)
    && !GivesUp(2, e.procMsg2.times) && e.procMsg2.final == 0
    && e.alloc3 && Good3(e.net3.e3) && e.macRet == 0 && e.putRet == 0
  }

  /** The client's library is honest: message 1 is made from a key pair, message 3 from message 2,
      and the keys it hands out are those of the shared secret. */
  predicate HonestLibrary(cl: Client, p: Progress, e: RoundEnv, a: B32, gid: seq<byte>,
                          ps: seq<byte>, head: seq<byte>, tail: seq<byte>)
    requires Wf(cl.cfg, p.s)
  {
    && |gid| == 4 && |ps| == 256 && |head| == QUOTE_BODY + BODY_REPORT_DATA
    && e.msg1 == ClientMsg1(cl.cfg.cr, a, gid)
    && var reply := DoMsg1(cl.cfg, BeforeMsg1(cl, p, e).s, e.msg1, e.net1.e1).reply;
       |reply| >= HEADER + MSG2 ==>
         var ks := ClientKeys(cl.cfg.cr, cl.cfg.form, a, reply);
         && e.msg3 == Some(ClientMsg3(cl.cfg.cr, cl.cfg.form, a, reply, ps, head, tail))
         && e.mac == MacEnv(Key(ks.mk), Success)
         && e.put.keys == Key(ks.sk) && e.put.decrypt == Success
  }

  lemma GoodStart(cl: Client, p: Progress, e: RoundEnv)
    requires Wf(cl.cfg, p.s) && p.end.None? && GoodRound(cl, p, e)
    ensures var p0 := BeforeMsg1(cl, p, e); p0.end.None? && p0.s.registered && p0.busy == p.busy
  {
    Msg0Registers(cl.cfg, p.s, e.groupId, e.net0.e0);
  }

  /** Message 1 to a registered provider. */
  lemma GoodMsg1(cl: Client, p: Progress, e: RoundEnv, a: B32, gid: seq<byte>)
    requires Wf(cl.cfg, p.s) && p.end.None? && p.s.registered && !cl.verifying && DhCommutes(cl.cfg.cr)
    requires |gid| == 4 && e.msg1 == ClientMsg1(cl.cfg.cr, a, gid) && Good1(cl.cfg, e.net1.e1)
    requires e.alloc1 && !GivesUp(p.busy, e.getMsg1.times) && e.getMsg1.final == 0
    ensures var r, o := StageMsg1(cl, p, e), DoMsg1(cl.cfg, p.s, e.msg1, e.net1.e1);
      && r.end.None? && r.s == o.s && r.s.registered && Wf(cl.cfg, r.s)
      && |o.reply| >= HEADER + MSG2 && ReadGb(o.reply) == cl.cfg.cr.pub(e.net1.e1.priv)
      && SessionOf(cl.cfg, r.s.db, cl.cfg.cr.pub(a), e.net1.e1.priv)
      && ClientKeys(cl.cfg.cr, cl.cfg.form, a, o.reply) == Keys(r.s.db.smk, r.s.db.sk, r.s.db.mk, r.s.db.vk)
  {
    SameKeys(cl.cfg, p.s, a, gid, e.net1.e1);
  }

  /** The last stage, in the session of the client. */
  lemma GoodEnd(cl: Client, p: Progress, e: RoundEnv, a: B32, b: B32, reply2: seq<byte>,
                ps: seq<byte>, head: seq<byte>, tail: seq<byte>)
    requires Wf(cl.cfg, p.s) && p.end.None? && p.s.registered && WfEnv2(e) && !cl.verifying
    requires e.alloc3 && Good3(e.net3.e3) && e.macRet == 0 && e.putRet == 0
    requires DhCommutes(cl.cfg.cr) && GcmRoundTrip(cl.cfg.cr) && SealKeepsLength(cl.cfg.cr)
    requires SessionOf(cl.cfg, p.s.db, cl.cfg.cr.pub(a), b)
    requires |reply2| >= HEADER + MSG2 && ReadGb(reply2) == cl.cfg.cr.pub(b)
    requires |ps| == 256 && |head| == QUOTE_BODY + BODY_REPORT_DATA
    requires e.msg3 == Some(ClientMsg3(cl.cfg.cr, cl.cfg.form, a, reply2, ps, head, tail))
    requires e.mac == MacEnv(Key(p.s.db.mk), Success) && e.put.keys == Key(p.s.db.sk) && e.put.decrypt == Success
    ensures StageMsg3(cl, p, e).end == Some(Stored)
  {
    Msg3Accepted(cl.cfg, p.s, a, b, reply2, ps, head, tail, e.net3.e3);
    ResultReadable(cl.cfg, p.s, e.msg3.value, e.net3.e3);
  }

  /** Completeness of a whole round: from any state of the provider and the counters, when no call
      fails and the library is honest, the round ends with the secret stored in the enclave. */
  lemma HonestRoundStores(cl: Client, p: Progress, e: RoundEnv, a: B32, gid: seq<byte>,
                          ps: seq<byte>, head: seq<byte>, tail: seq<byte>)
    requires Wf(cl.cfg, p.s) && p.end.None? && WfEnv(e) && WfSamples(cl.samples)
    requires DhCommutes(cl.cfg.cr) && GcmRoundTrip(cl.cfg.cr) && SealKeepsLength(cl.cfg.cr)
    requires GoodRound(cl, p, e) && HonestLibrary(cl, p, e, a, gid, ps, head, tail)
    ensures RoundOutcome(cl, p, e).end == Some(Stored)
  {
    GoodStart(cl, p, e);
    var p0 := BeforeMsg1(cl, p, e);
    GoodMsg1(cl, p0, e, a, gid);
    var p1, reply := StageMsg1(cl, p0, e), DoMsg1(cl.cfg, p0.s, e.msg1, e.net1.e1).reply;
    var p2 := StageMsg2(cl, p1, e);
    assert p2.end.None? && p2.s == p1.s;
    GoodEnd(cl, p2, e, a, e.net1.e1.priv, reply, ps, head, tail);
  }

  // ---------- the value main returns ----------

  /** Where the round is when message 3 would be sent. */
  function BeforeMsg3(cl: Client, p: Progress, e: RoundEnv): (r: Progress)
    requires Wf(cl.cfg, p.s) && WfEnv(e) && WfSamples(cl.samples) && p.end.None?
    ensures Wf(cl.cfg, r.s) && (r.end.None? ==> HasMsg3(cl, e))
  {
    StageMsg2(cl, StageMsg1(cl, BeforeMsg1(cl, p, e), e), e)
  }

  /** Message 3 is answered and the result's MAC verifies, but the report was bad, or put_secret_data
      itself fails while the call into the enclave works; in verification mode, message 3 is
      answered. */
  predicate ZeroAllTheSame(cl: Client, p: Progress, e: RoundEnv)
    requires Wf(cl.cfg, p.s) && (p.end.None? ==> HasMsg3(cl, e))
  {
    && p.end.None? && e.alloc3 && DoMsg3(cl.cfg, p.s, Msg3Body(cl, e), e.net3.e3).ret == SP_OK
    && (!cl.verifying ==>
      var cr, db, report := cl.cfg.cr, p.s.db, e.net3.e3.report;
      && e.macRet == 0 && MacMatches(cr, e.mac, report.blob, cr.cmac(db.mk, report.blob))
      && (PassedAttestation(report) ==>
           var sealed := cr.seal(db.sk, SECRET);
           e.putRet == 0 && !PutSucceeds(cr, e.put, sealed.text, sealed.tag)))
  }

  /** What the client reads from a result. */
  lemma ResultFields(cfg: Cfg, s: SpState, msg: seq<byte>, e: Msg3Env)
    requires QuoteReadable(cfg, s, msg, e) && DoMsg3(cfg, s, msg, e).ret == SP_OK && SealKeepsLength(cfg.cr)
    ensures var reply := DoMsg3(cfg, s, msg, e).reply;
      && |reply| == HEADER + ATT_RESULT + |SECRET| && reply[0] == TYPE_RA_ATT_RESULT
      && (reply[1] == 0 && reply[2] == 0 <==> PassedAttestation(e.report))
      && ReadBlob(reply) == e.report.blob && ReadMac(reply) == cfg.cr.cmac(s.db.mk, e.report.blob)
      && (PassedAttestation(e.report) ==>
           Sealed(ReadPayload(reply), ReadTag(reply)) == cfg.cr.seal(s.db.sk, SECRET))
  {
    ResultIsJustified(cfg, s, msg, e);
    var reply := DoMsg3(cfg, s, msg, e).reply;
    assert ReadPayload(reply) == reply[HEADER..][ATT_RESULT..];
  }

  /** A stage before the last never leaves with 0. */
  lemma EarlyExits(cl: Client, p: Progress, e: RoundEnv)
    requires Wf(cl.cfg, p.s) && WfEnv(e) && WfSamples(cl.samples) && p.end.None?
    ensures var r := BeforeMsg3(cl, p, e); r.end.Some? ==> BodyRet(r.end.value) != 0
  {}

  /** Message 3 is answered and, outside verification mode, the result's MAC verifies and the call of
      put_secret_data, if it is made, works. */
  predicate EndsWithZero(cl: Client, p: Progress, e: RoundEnv)
    requires Wf(cl.cfg, p.s) && (p.end.None? ==> HasMsg3(cl, e))
  {
    && p.end.None? && e.alloc3 && DoMsg3(cl.cfg, p.s, Msg3Body(cl, e), e.net3.e3).ret == SP_OK
    && (!cl.verifying ==>
      var cr, report := cl.cfg.cr, e.net3.e3.report;
      && e.macRet == 0 && MacMatches(cr, e.mac, report.blob, cr.cmac(p.s.db.mk, report.blob))
      && (PassedAttestation(report) ==> e.putRet == 0))
  }

  /** A round returns 0 exactly if the extended group id was there, the key context closes and
      EndsWithZero; it stored the secret exactly if EndsWithZero and not ZeroAllTheSame. */
  lemma ZeroExactly(cl: Client, p: Progress, e: RoundEnv)
    requires Wf(cl.cfg, p.s) && p.end.None? && WfEnv(e) && WfSamples(cl.samples) && SealKeepsLength(cl.cfg.cr)
    ensures var q := BeforeMsg3(cl, p, e);
      && (RoundRet(cl, p, e) == 0 <==> e.groupIdRet == 0 && Closes(q, e) && EndsWithZero(cl, q, e))
      && (RoundOutcome(cl, p, e).end == Some(Stored) <==> EndsWithZero(cl, q, e) && !ZeroAllTheSame(cl, q, e))
  {
    var q := BeforeMsg3(cl, p, e);
    assert RoundOutcome(cl, p, e) == StageMsg3(cl, q, e);
    EarlyExits(cl, p, e);
    if q.end.None? { LastStageZeroExactly(cl, q, e); }
  }

  lemma LastStageZeroExactly(cl: Client, p: Progress, e: RoundEnv)
    requires Wf(cl.cfg, p.s) && p.end.None? && HasMsg3(cl, e) && SealKeepsLength(cl.cfg.cr)
    ensures var r := StageMsg3(cl, p, e);
      && r.context == p.context
      && (BodyRet(r.end.value) == 0 <==> EndsWithZero(cl, p, e))
      && (r.end == Some(Stored) <==> EndsWithZero(cl, p, e) && !ZeroAllTheSame(cl, p, e))
  {
    if DoMsg3(cl.cfg, p.s, Msg3Body(cl, e), e.net3.e3).ret == SP_OK {
      ResultFields(cl.cfg, p.s, Msg3Body(cl, e), e.net3.e3);
    }
  }

  /** A round ends with 0 without having stored the secret exactly if the extended group id was
      there, the key context closes, and message 3 is answered but the result is not good or is not
      taken; in verification mode whenever message 3 is answered. */
  lemma ZeroWithoutSecretExactly(cl: Client, p: Progress, e: RoundEnv)
    requires Wf(cl.cfg, p.s) && p.end.None? && WfEnv(e) && WfSamples(cl.samples) && SealKeepsLength(cl.cfg.cr)
    ensures RoundRet(cl, p, e) == 0 && RoundOutcome(cl, p, e).end != Some(Stored) <==>
      var q := BeforeMsg3(cl, p, e);
      e.groupIdRet == 0 && Closes(q, e) && ZeroAllTheSame(cl, q, e)
  {
    ZeroExactly(cl, p, e);
  }

  /** The round that starts at p returns 0, in terms of the results of its calls. */
  predicate ReturnsZero(cl: Client, p: Progress, e: RoundEnv)
    requires Wf(cl.cfg, p.s) && p.end.None? && WfEnv(e) && WfSamples(cl.samples)
  {
    var q := BeforeMsg3(cl, p, e);
    e.groupIdRet == 0 && Closes(q, e) && EndsWithZero(cl, q, e)
  }

  /** The round that starts at p stores the secret, in terms of the results of its calls. */
  predicate Stores(cl: Client, p: Progress, e: RoundEnv)
    requires Wf(cl.cfg, p.s) && p.end.None? && WfEnv(e) && WfSamples(cl.samples)
  {
    var q := BeforeMsg3(cl, p, e);
    e.groupIdRet == 0 && EndsWithZero(cl, q, e) && !ZeroAllTheSame(cl, q, e)
  }

  /** main returns the value of its second round alone: it returns 0 although the first round failed
      exactly if that round got its extended group id and did not return 0, and the second one, from
      where the first one left off, does; and it returns 0 although neither round stored the secret
      exactly if the second one returns 0 and neither stores. */
  lemma MainZeroExactly(cl: Client, p: Progress, e1: RoundEnv, e2: RoundEnv)
    requires Wf(cl.cfg, p.s) && p.end.None? && WfEnv(e1) && WfEnv(e2) && WfSamples(cl.samples)
    requires SealKeepsLength(cl.cfg.cr)
    ensures MainRet(cl, p, e1, e2) == 0 && RoundRet(cl, p, e1) != 0 <==>
      e1.groupIdRet == 0 && !ReturnsZero(cl, p, e1) && ReturnsZero(cl, AfterRound(cl, p, e1), e2)
    ensures var p2 := AfterRound(cl, p, e1);
      (MainRet(cl, p, e1, e2) == 0
        && RoundOutcome(cl, p, e1).end != Some(Stored) && RoundOutcome(cl, p2, e2).end != Some(Stored))
      <==> (e1.groupIdRet == 0 && ReturnsZero(cl, p2, e2) && !Stores(cl, p, e1) && !Stores(cl, p2, e2))
  {
    ZeroExactly(cl, p, e1);
    ZeroExactly(cl, AfterRound(cl, p, e1), e2);
  }

  // ---------- rounds that show it ----------

  /** A round in which no call fails up to message 1, whose client key is zeros; message 3 and the
      keys of the enclave fit the provider's record db. */
  function FittingRound(cl: Client, db: Db, status: nat, decrypt: Status): RoundEnv
    requires cl.cfg.table != []
  {
    var net := NetEnv(Msg0Env(0, Zeros(16), true), WorkingMsg1(Zeros(64), Zeros(32)).e1, WorkingEnv3(status));
    RoundEnv(0, cl.cfg.table[0], true, net, 0, CreateEnv(0, None, 0, 0), true, Retried(0, 0), Zeros(MSG1), net, true,
             Retried(0, 0), Some(FittingMsg3(cl.cfg, db)), true, true, net,
             0, MacEnv(Key(db.mk), Success), 0, PutEnv(Key(db.sk), decrypt, Zeros(8)), 0, 0)
  }

  /** The record after message 1 of such a round; it does not depend on message 3. */
  function FittingDb(cl: Client, p: Progress): Db
    requires Wf(cl.cfg, p.s) && cl.cfg.table != []
  {
    var e := FittingRound(cl, ZERO_DB, 0, Success);
    StageMsg1(cl, BeforeMsg1(cl, p, e), e).s.db
  }

  lemma FittingStarts(cl: Client, p: Progress, db: Db, status: nat, decrypt: Status)
    requires Wf(cl.cfg, p.s) && p.end.None? && !cl.verifying
    requires cl.cfg.table != [] && cl.cfg.table[0] < UINT32_LIMIT
    requires p.lost >= 0 && p.busy >= 0
    ensures var e := FittingRound(cl, db, status, decrypt); var r := BeforeMsg1(cl, p, e);
      && r.end.None? && r.s.registered && r.busy == p.busy
      && r.s == BeforeMsg1(cl, p, FittingRound(cl, ZERO_DB, 0, Success)).s
  {
    Msg0Registers(cl.cfg, p.s, cl.cfg.table[0], Msg0Env(0, Zeros(16), true));
  }

  lemma FittingGoesOn(cl: Client, p: Progress, status: nat, decrypt: Status)
    requires Wf(cl.cfg, p.s) && p.end.None? && !cl.verifying
    requires cl.cfg.table != [] && cl.cfg.table[0] < UINT32_LIMIT
    requires p.lost >= 0 && p.busy >= 0 && WfSamples(cl.samples)
    ensures var e := FittingRound(cl, FittingDb(cl, p), status, decrypt);
      && WfEnv(e)
      && var q := BeforeMsg3(cl, p, e);
         q.end.None? && q.s.registered && q.s.db == FittingDb(cl, p)
  {
    var db := FittingDb(cl, p);
    var e := FittingRound(cl, db, status, decrypt);
    FittingLength(cl.cfg, db);
    FittingStarts(cl, p, db, status, decrypt);
    FittingStarts(cl, p, ZERO_DB, 0, Success);
  }

  lemma FittingLength(cfg: Cfg, db: Db)
    ensures |FittingMsg3(cfg, db)| == MSG3 + QUOTE_READ
  {}

  /** In a fitting round everything up to the decision works: it stores the secret exactly if the
      report is good and the decryption works and gives it, and it returns 0 in every case. */
  lemma FittingRoundReturnsZero(cl: Client, p: Progress, status: nat, decrypt: Status)
    requires Wf(cl.cfg, p.s) && p.end.None? && !cl.verifying
    requires cl.cfg.table != [] && cl.cfg.table[0] < UINT32_LIMIT
    requires p.lost >= 0 && p.busy >= 0 && WfSamples(cl.samples) && SealKeepsLength(cl.cfg.cr)
    ensures var e := FittingRound(cl, FittingDb(cl, p), status, decrypt);
      && WfEnv(e) && RoundRet(cl, p, e) == 0
      && (RoundOutcome(cl, p, e).end == Some(Stored) <==>
          var sealed := cl.cfg.cr.seal(FittingDb(cl, p).sk, SECRET);
          status == IAS_QUOTE_OK && PutSucceeds(cl.cfg.cr, e.put, sealed.text, sealed.tag))
  {
    var e := FittingRound(cl, FittingDb(cl, p), status, decrypt);
    FittingGoesOn(cl, p, status, decrypt);
    var q := BeforeMsg3(cl, p, e);
    FittingAnswered(cl.cfg, q.s, status);
    FittingEnd(cl, q, e, status, decrypt);
    assert RoundOutcome(cl, p, e) == StageMsg3(cl, q, e);
  }

  lemma FittingEnd(cl: Client, q: Progress, e: RoundEnv, status: nat, decrypt: Status)
    requires cl.cfg.table != [] && e == FittingRound(cl, q.s.db, status, decrypt) && Wf(cl.cfg, q.s)
    requires q.end.None? && HasMsg3(cl, e) && !cl.verifying && SealKeepsLength(cl.cfg.cr)
    requires DoMsg3(cl.cfg, q.s, Msg3Body(cl, e), e.net3.e3).ret == SP_OK
    ensures var r, sealed := StageMsg3(cl, q, e), cl.cfg.cr.seal(q.s.db.sk, SECRET);
      && BodyRet(r.end.value) == 0 && Closes(r, e)
      && (r.end == Some(Stored) <==> status == IAS_QUOTE_OK && PutSucceeds(cl.cfg.cr, e.put, sealed.text, sealed.tag))
  {
    ResultFields(cl.cfg, q.s, Msg3Body(cl, e), e.net3.e3);
  }

  /** Two rounds that return 0 without the secret: one for whose quote the attestation server reports
      a bad status, and one in which the decryption call of put_secret_data fails. */
  lemma ZeroWithoutSecret(cl: Client, s: SpState)
    requires Wf(cl.cfg, s) && cl.cfg.table != [] && cl.cfg.table[0] < UINT32_LIMIT && !cl.verifying
    requires WfSamples(cl.samples) && SealKeepsLength(cl.cfg.cr)
    ensures var p := Progress(s, 1, 4, false, None);
      var e1, e2 := FittingRound(cl, FittingDb(cl, p), 1, Success), FittingRound(cl, FittingDb(cl, p), 0, Unexpected);
      && WfEnv(e1) && RoundRet(cl, p, e1) == 0 && RoundOutcome(cl, p, e1).end != Some(Stored)
      && WfEnv(e2) && RoundRet(cl, p, e2) == 0 && RoundOutcome(cl, p, e2).end != Some(Stored)
  {
    var p := Progress(s, 1, 4, false, None);
    FittingRoundReturnsZero(cl, p, 1, Success);
    FittingRoundReturnsZero(cl, p, 0, Unexpected);
  }

  /** main, with a first round that fails for want of memory and a second one that works: 0. */
  lemma FirstRoundHidden(cl: Client, s: SpState)
    requires Wf(cl.cfg, s) && cl.cfg.table != [] && cl.cfg.table[0] < UINT32_LIMIT && !cl.verifying
    requires WfSamples(cl.samples) && SealKeepsLength(cl.cfg.cr)
    ensures var p := Progress(s, 1, 4, false, None);
      var e2 := FittingRound(cl, FittingDb(cl, p), 0, Success);
      var e1 := e2.(alloc0 := false);
      && WfEnv(e1) && WfEnv(e2) && RoundRet(cl, p, e1) == -1 && MainRet(cl, p, e1, e2) == 0
  {
    var p := Progress(s, 1, 4, false, None);
    FittingRoundReturnsZero(cl, p, 0, Success);
    var e2 := FittingRound(cl, FittingDb(cl, p), 0, Success);
    var e1 := e2.(alloc0 := false);
    assert RoundOutcome(cl, p, e1) == Leave(p, Aborted);
    assert AfterRound(cl, p, e1) == p;
  }

  // ---------- the retry counters across rounds ----------

  /** The loop that creates the enclave is reached and gives up. */
  predicate CreationGivesUp(cl: Client, p: Progress, e: RoundEnv)
    requires Wf(cl.cfg, p.s)
  {
    && StageMsg0(cl, p, e).end.None? && GivesUp(p.lost, e.create.lost)
    && !(e.create.createFails.Some? && e.create.createFails.value < Tries(p.lost, e.create.lost))
  }

  /** After a round the creation loop still has a bound on its tries exactly if it had one before
      and did not give up; giving up leaves -1 for the next round. */
  lemma LostCounterExactly(cl: Client, p: Progress, e: RoundEnv)
    requires Wf(cl.cfg, p.s) && p.end.None? && WfEnv(e) && WfSamples(cl.samples)
    ensures var r := AfterRound(cl, p, e);
      && ((exists bound: nat :: TriesAtMost(r.lost, bound)) <==>
          p.lost >= 0 && !(e.groupIdRet == 0 && CreationGivesUp(cl, p, e)))
      && (e.groupIdRet == 0 && CreationGivesUp(cl, p, e) ==> r.lost == -1)
  {
    var r := AfterRound(cl, p, e);
    CounterBoundsExactly(r.lost);
    if e.groupIdRet == 0 { LaterStagesKeepLost(cl, p, e); }
  }

  lemma LaterStagesKeepLost(cl: Client, p: Progress, e: RoundEnv)
    requires Wf(cl.cfg, p.s) && p.end.None? && WfEnv(e) && WfSamples(cl.samples)
    ensures RoundOutcome(cl, p, e).lost == BeforeMsg1(cl, p, e).lost
  {
    var p1 := StageMsg1(cl, BeforeMsg1(cl, p, e), e);
    assert StageMsg2(cl, p1, e).lost == p1.lost;
  }

  /** The loop for message 1 is reached and gives up. */
  predicate Msg1GivesUp(cl: Client, p: Progress, e: RoundEnv)
    requires Wf(cl.cfg, p.s)
  {
    BeforeMsg1(cl, p, e).end.None? && e.alloc1 && GivesUp(p.busy, e.getMsg1.times)
  }

  /** The loop for message 2, which sets the counter itself, is reached. */
  predicate ReachesMsg2(cl: Client, p: Progress, e: RoundEnv)
    requires Wf(cl.cfg, p.s)
  {
    StageMsg1(cl, BeforeMsg1(cl, p, e), e).end.None? && !cl.verifying
  }

  /** The same for the other counter, which the loop for message 1 takes over from the round before. */
  lemma BusyCounterExactly(cl: Client, p: Progress, e: RoundEnv)
    requires Wf(cl.cfg, p.s) && p.end.None? && WfEnv(e) && WfSamples(cl.samples) && e.groupIdRet == 0
    ensures (exists bound: nat :: TriesAtMost(AfterRound(cl, p, e).busy, bound)) <==>
      if ReachesMsg2(cl, p, e) then !GivesUp(2, e.procMsg2.times) else p.busy >= 0 && !Msg1GivesUp(cl, p, e)
  {
    CounterBoundsExactly(AfterRound(cl, p, e).busy);
    BusyAfterRound(cl, p, e);
  }

  lemma BusyAfterRound(cl: Client, p: Progress, e: RoundEnv)
    requires Wf(cl.cfg, p.s) && p.end.None? && WfEnv(e) && WfSamples(cl.samples) && e.groupIdRet == 0
    ensures AfterRound(cl, p, e).busy ==
      if ReachesMsg2(cl, p, e) then CounterAfter(2, e.procMsg2.times)
      else if BeforeMsg1(cl, p, e).end.None? && e.alloc1 then CounterAfter(p.busy, e.getMsg1.times)
      else p.busy
  {
    var p0 := BeforeMsg1(cl, p, e);
    assert p0.busy == p.busy;
    BusyAfterMsg1(cl, p0, e);
    var p1 := StageMsg1(cl, p0, e);
    assert RoundOutcome(cl, p, e) == StageMsg3(cl, StageMsg2(cl, p1, e), e);
    BusyAfterMsg2(cl, p1, e);
  }

  lemma BusyAfterMsg1(cl: Client, p: Progress, e: RoundEnv)
    requires Wf(cl.cfg, p.s)
    ensures StageMsg1(cl, p, e).busy ==
      if p.end.None? && e.alloc1 then CounterAfter(p.busy, e.getMsg1.times) else p.busy
  {}

  lemma BusyAfterMsg2(cl: Client, p: Progress, e: RoundEnv)
    requires Wf(cl.cfg, p.s) && WfEnv2(e) && WfSamples(cl.samples)
    ensures StageMsg3(cl, StageMsg2(cl, p, e), e).busy ==
      if p.end.None? && !cl.verifying then CounterAfter(2, e.procMsg2.times) else p.busy
  {}

  /** A first round of main in which the enclave is lost twice: the second round starts with -1. */
  lemma LostTwice(cl: Client, s: SpState)
    requires Wf(cl.cfg, s) && cl.cfg.table != [] && cl.cfg.table[0] < UINT32_LIMIT && !cl.verifying
    requires WfSamples(cl.samples)
    ensures var p := Progress(s, 1, 4, false, None);
      var e := FittingRound(cl, ZERO_DB, 0, Success).(create := CreateEnv(2, None, 0, 0));
      && WfEnv(e) && AfterRound(cl, p, e).lost == -1
      && forall bound: nat :: !TriesAtMost(AfterRound(cl, p, e).lost, bound)
  {
    var p := Progress(s, 1, 4, false, None);
    var e := FittingRound(cl, ZERO_DB, 0, Success).(create := CreateEnv(2, None, 0, 0));
    FittingLength(cl.cfg, ZERO_DB);
    Msg0Registers(cl.cfg, s, cl.cfg.table[0], e.net0.e0);
    LostCounterExactly(cl, p, e);
  }
}
