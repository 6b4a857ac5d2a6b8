/** What a round of the client returns and when it goes on, in terms of the results of its calls and
    the provider's answers; numbers are written out. */
module ClientAnswers {
  import opened Bytes
  import opened ClientRuns
  import opened ClientSpec
  import opened Completeness
  import opened Crypto
  import opened Enclave
  import opened Layout
  import opened SpAnswers
  import opened SpRuns
  import opened SpSpec

  // ---------- when a stage goes on, and the state of the provider ----------

  function Answer0(cl: Client, p: Progress, e: RoundEnv): Out
    requires Wf(cl.cfg, p.s)
  {
    DoMsg0(cl.cfg, p.s, ToLe(e.groupId, 4), e.net0.e0)
  }

  lemma GoesOn0(cl: Client, p: Progress, e: RoundEnv)
    requires Wf(cl.cfg, p.s) && p.end.None?
    ensures var r := StageMsg0(cl, p, e);
      && (r.end.None? <==> e.alloc0 && Answer0(cl, p, e).ret == 0 && e.selectRet == 0)
      && r.s == (if e.alloc0 then Answer0(cl, p, e).s else p.s)
      && r.lost == p.lost && r.busy == p.busy && r.context == p.context
  {}

  /** The enclave and its key context come up: no attempt up to the last one, the one after the
      counter's retries if the enclave stays lost, fails to create the enclave. */
  predicate ComesUp(lost: int, c: CreateEnv) {
    && !(0 <= lost < c.lost) && c.initRet == 0 && c.initStatus == 0
    && (c.createFails.Some? ==> c.createFails.value > c.lost)
  }

  lemma GoesOnCreate(cl: Client, p: Progress, e: RoundEnv)
    requires Wf(cl.cfg, p.s) && p.end.None?
    ensures var p0, r := StageMsg0(cl, p, e), BeforeMsg1(cl, p, e);
      && (r.end.None? <==> p0.end.None? && ComesUp(p.lost, e.create))
      && r.s == p0.s && r.busy == p.busy && r.context == (p.context || r.end.None?)
  {
    GoesOn0(cl, p, e);
  }

  /** Message 1 is sent: memory, and a library that is not busy for longer than the counter allows. */
  predicate Asks1(p: Progress, e: RoundEnv) {
    p.end.None? && e.alloc1 && !(0 <= p.busy < e.getMsg1.times) && e.getMsg1.final == 0
  }

  /** The answer to the message 1 that is sent: the precomputed one in verification mode. */
  function Answer1(cl: Client, s: SpState, e: RoundEnv): Out {
    DoMsg1(cl.cfg, s, if cl.verifying then cl.samples.msg1 else e.msg1, e.net1.e1)
  }

  lemma GoesOn1(cl: Client, p: Progress, e: RoundEnv)
    requires Wf(cl.cfg, p.s)
    ensures var r, o := StageMsg1(cl, p, e), Answer1(cl, p.s, e);
      && (r.end.None? <==> Asks1(p, e) && (o.ret == 0 || (cl.verifying && e.allocSample2)))
      && r.s == (if Asks1(p, e) then o.s else p.s) && r.context == p.context
      && (Asks1(p, e) && o.ret != 0 && !cl.verifying ==> r.end == Some(Refused(o.ret)))
  {}

  lemma GoesOn2(cl: Client, p: Progress, e: RoundEnv)
    ensures var r := StageMsg2(cl, p, e);
      && r.end.None? == (p.end.None? && if cl.verifying then e.allocSample3
                                        else e.msg3.Some? && e.procMsg2.times <= 2 && e.procMsg2.final == 0)
      && r.s == p.s && r.context == p.context
  {}

  /** The answer to the message 3 that is sent: the precomputed one in verification mode. */
  function Answer3(cl: Client, s: SpState, e: RoundEnv): Out
    requires HasMsg3(cl, e)
  {
    DoMsg3(cl.cfg, s, if cl.verifying then cl.samples.msg3 else e.msg3.value, e.net3.e3)
  }

  /** The provider after a round: it has handled messages 0, 1 and 3, each if it was sent. */
  lemma ProviderAfter(cl: Client, p: Progress, e: RoundEnv)
    requires Wf(cl.cfg, p.s) && p.end.None? && WfEnv(e) && WfSamples(cl.samples)
    ensures var s0 := if e.alloc0 then Answer0(cl, p, e).s else p.s;
      var p1, q := BeforeMsg1(cl, p, e), BeforeMsg3(cl, p, e);
      && p1.s == s0
      && q.s == (if Asks1(p1, e) then Answer1(cl, s0, e).s else s0)
      && RoundOutcome(cl, p, e).s == (if q.end.None? && e.alloc3 then Answer3(cl, q.s, e).s else q.s)
  {
    GoesOn0(cl, p, e);
    GoesOnCreate(cl, p, e);
    var p1 := BeforeMsg1(cl, p, e);
    GoesOn1(cl, p1, e);
    GoesOn2(cl, StageMsg1(cl, p1, e), e);
    assert RoundOutcome(cl, p, e) == StageMsg3(cl, BeforeMsg3(cl, p, e), e);
  }

  // ---------- the value a round returns ----------

  /** The exit of the stages before message 1. */
  lemma Exit01(cl: Client, p: Progress, e: RoundEnv)
    requires Wf(cl.cfg, p.s) && p.end.None? && BeforeMsg1(cl, p, e).end.Some?
    ensures var o := Answer0(cl, p, e);
      BodyRet(BeforeMsg1(cl, p, e).end.value) == if e.alloc0 && o.ret != 0 then o.ret else -1
  {}

  lemma Exit12(cl: Client, p: Progress, e: RoundEnv)
    requires Wf(cl.cfg, p.s) && p.end.None? && StageMsg2(cl, StageMsg1(cl, p, e), e).end.Some?
    ensures var o := Answer1(cl, p.s, e);
      BodyRet(StageMsg2(cl, StageMsg1(cl, p, e), e).end.value)
        == if Asks1(p, e) && o.ret != 0 && !cl.verifying then o.ret else -1
  {}

  lemma Exit3(cl: Client, p: Progress, e: RoundEnv)
    requires Wf(cl.cfg, p.s) && p.end.None? && HasMsg3(cl, e) && SealKeepsLength(cl.cfg.cr)
    ensures var report, cr := e.net3.e3.report, cl.cfg.cr;
      BodyRet(StageMsg3(cl, p, e).end.value) ==
        if !e.alloc3 || Answer3(cl, p.s, e).ret != 0 then -1
        else if cl.verifying then 0
        else if e.macRet != 0 || !MacMatches(cr, e.mac, report.blob, cr.cmac(p.s.db.mk, report.blob)) then -1
        else if report.status == 0 && report.pse == 0 then e.putRet
        else 0
  {
    if Answer3(cl, p.s, e).ret == 0 { ResultFields(cl.cfg, p.s, Msg3Body(cl, e), e.net3.e3); }
  }

  /** The value of `ret` after a round that got its extended group id, for every outcome of its calls:
      the provider's own code when it refuses message 0 or, outside verification mode, message 1; the
      code of the call of put_secret_data; -1 for every other failure, a refused message 3 among
      them, and whenever a key context does not close. */
  lemma RoundReturns(cl: Client, p: Progress, e: RoundEnv)
    requires Wf(cl.cfg, p.s) && p.end.None? && WfEnv(e) && WfSamples(cl.samples)
    requires SealKeepsLength(cl.cfg.cr) && e.groupIdRet == 0
    ensures var p1, q := BeforeMsg1(cl, p, e), BeforeMsg3(cl, p, e);
      var o0, o1 := Answer0(cl, p, e), Answer1(cl, p1.s, e);
      var report, cr := e.net3.e3.report, cl.cfg.cr;
      RoundRet(cl, p, e) ==
        if (p.context || p1.end.None?) && (e.closeRet != 0 || e.closeStatus != 0) then -1
        else if p1.end.Some? then (if e.alloc0 && o0.ret != 0 then o0.ret else -1)
        else if q.end.Some? then (if Asks1(p1, e) && o1.ret != 0 && !cl.verifying then o1.ret else -1)
        else if !e.alloc3 || Answer3(cl, q.s, e).ret != 0 then -1
        else if cl.verifying then 0
        else if e.macRet != 0 || !MacMatches(cr, e.mac, report.blob, cr.cmac(q.s.db.mk, report.blob)) then -1
        else if report.status == 0 && report.pse == 0 then e.putRet
        else 0
  {
    var p1, q := BeforeMsg1(cl, p, e), BeforeMsg3(cl, p, e);
    GoesOnCreate(cl, p, e);
    GoesOn1(cl, p1, e);
    GoesOn2(cl, StageMsg1(cl, p1, e), e);
    assert RoundOutcome(cl, p, e) == StageMsg3(cl, q, e);
    if p1.end.Some? {
      Exit01(cl, p, e);
    } else if q.end.Some? {
      Exit12(cl, p1, e);
    } else {
      Exit3(cl, q, e);
      LastStageZeroExactly(cl, q, e);
    }
  }

  /** Outside verification mode a refused message 1 makes the round return the provider's code. */
  lemma RefusedMsg1(cl: Client, p: Progress, e: RoundEnv)
    requires Wf(cl.cfg, p.s) && p.end.None? && WfEnv(e) && WfSamples(cl.samples) && SealKeepsLength(cl.cfg.cr)
    requires e.groupIdRet == 0 && e.closeRet == 0 && e.closeStatus == 0 && !cl.verifying
    requires Asks1(BeforeMsg1(cl, p, e), e)
    requires DoMsg1(cl.cfg, BeforeMsg1(cl, p, e).s, e.msg1, e.net1.e1).ret != 0
    ensures RoundRet(cl, p, e) == DoMsg1(cl.cfg, BeforeMsg1(cl, p, e).s, e.msg1, e.net1.e1).ret
  {
    var p1 := BeforeMsg1(cl, p, e);
    GoesOn1(cl, p1, e);
    GoesOn2(cl, StageMsg1(cl, p1, e), e);
    RoundReturns(cl, p, e);
  }

  /** So does a refused message 0 in either mode. */
  lemma RefusedMsg0(cl: Client, p: Progress, e: RoundEnv)
    requires Wf(cl.cfg, p.s) && p.end.None? && WfEnv(e) && WfSamples(cl.samples) && SealKeepsLength(cl.cfg.cr)
    requires e.groupIdRet == 0 && (p.context ==> e.closeRet == 0 && e.closeStatus == 0) && e.alloc0
    requires DoMsg0(cl.cfg, p.s, ToLe(e.groupId, 4), e.net0.e0).ret != 0
    ensures RoundRet(cl, p, e) == DoMsg0(cl.cfg, p.s, ToLe(e.groupId, 4), e.net0.e0).ret
  {
    GoesOn0(cl, p, e);
    GoesOnCreate(cl, p, e);
    RoundReturns(cl, p, e);
  }

  /** The calls of put_secret_data in a round: exactly for a good result whose MAC verifies. */
  lemma PutsExactly(cl: Client, p: Progress, e: RoundEnv)
    requires Wf(cl.cfg, p.s) && p.end.None? && WfEnv(e) && WfSamples(cl.samples) && SealKeepsLength(cl.cfg.cr)
    ensures var q, report, cr := BeforeMsg3(cl, p, e), e.net3.e3.report, cl.cfg.cr;
      RoundPuts(cl, p, e) ==
        if && e.groupIdRet == 0 && !cl.verifying && q.end.None? && e.alloc3 && Answer3(cl, q.s, e).ret == 0
           && e.macRet == 0 && MacMatches(cr, e.mac, report.blob, cr.cmac(q.s.db.mk, report.blob))
           && report.status == 0 && report.pse == 0
        then 1 else 0
  {
    var q := BeforeMsg3(cl, p, e);
    assert RoundOutcome(cl, p, e) == StageMsg3(cl, q, e);
    if q.end.None? {
      if Answer3(cl, q.s, e).ret == 0 { ResultFields(cl.cfg, q.s, Msg3Body(cl, e), e.net3.e3); }
    } else {
      EarlyPuts(cl, p, e);
    }
  }

  lemma EarlyPuts(cl: Client, p: Progress, e: RoundEnv)
    requires Wf(cl.cfg, p.s) && WfEnv(e) && WfSamples(cl.samples) && p.end.None?
    ensures var r := BeforeMsg3(cl, p, e); r.end.Some? ==> !PutCalled(r.end.value)
  {}

  // ---------- an unsupported group ----------

  /** A round on a platform whose extended group id the provider does not support: everything works
      until message 1 is refused. */
  function UnsupportedRound(cl: Client, id: nat): RoundEnv
    requires cl.cfg.table != []
  {
    FittingRound(cl, ZERO_DB, 0, Success).(groupId := id)
  }

  /** main then returns 1, SP_UNSUPPORTED_EXTENDED_EPID_GROUP. */
  lemma UnsupportedGroupReturns(cl: Client, s: SpState, id: nat)
    requires Wf(cl.cfg, s) && !s.registered && !cl.verifying && cl.cfg.table != []
    requires id !in cl.cfg.table && id < UINT32_LIMIT && WfSamples(cl.samples) && SealKeepsLength(cl.cfg.cr)
    ensures var e, p := UnsupportedRound(cl, id), Progress(s, 1, 4, false, None);
      WfEnv(e) && MainRet(cl, p, e, e) == 1
  {
    var e, p := UnsupportedRound(cl, id), Progress(s, 1, 4, false, None);
    FittingLength(cl.cfg, ZERO_DB);
    RefusedRound(cl, p, e, id);
    RefusedRound(cl, AfterRound(cl, p, e), e, id);
  }

  lemma RefusedRound(cl: Client, p: Progress, e: RoundEnv, id: nat)
    requires Wf(cl.cfg, p.s) && !p.s.registered && !cl.verifying && cl.cfg.table != [] && WfSamples(cl.samples)
    requires id !in cl.cfg.table && id < UINT32_LIMIT && SealKeepsLength(cl.cfg.cr)
    requires e == UnsupportedRound(cl, id) && WfEnv(e) && p.end.None? && p.lost >= 0 && p.busy >= 0
    ensures RoundRet(cl, p, e) == 1
    ensures var r := AfterRound(cl, p, e); !r.s.registered && r.lost == p.lost && r.busy == p.busy
  {
    U32RoundTrip(id);
    Msg0Answer(cl.cfg, p.s, ToLe(id, 4), e.net0.e0);
    GoesOn0(cl, p, e);
    GoesOnCreate(cl, p, e);
    var p1 := BeforeMsg1(cl, p, e);
    Msg1Answer(cl.cfg, p1.s, e.msg1, e.net1.e1);
    GoesOn1(cl, p1, e);
    RefusedMsg1(cl, p, e);
    ProviderAfter(cl, p, e);
    LaterStagesKeepLost(cl, p, e);
    BusyAfterRound(cl, p, e);
  }
}
