/** The answers of the service provider and what it keeps, in terms of the request, the state and the
    results of the calls alone: return values, packed offsets and sizes are written out as numbers. */
module SpAnswers {
  import opened Bytes
  import opened Crypto
  import opened Kdf
  import opened Layout
  import opened SpRuns
  import opened SpSpec

  // ---------- message 0 ----------

  /** A message 0 that gets to the enrolment call: not registered yet, or for another group than the
      one in use, and its group is supported. */
  predicate FindsGroup(cfg: Cfg, s: SpState, msg: seq<byte>)
    requires Wf(cfg, s)
  {
    && |msg| == 4 && FromLe(msg) in cfg.table
    && (!s.registered || (s.group.Some? && cfg.table[s.group.value] != FromLe(msg)))
  }

  lemma Msg0Answer(cfg: Cfg, s: SpState, msg: seq<byte>, e: Msg0Env)
    requires Wf(cfg, s)
    ensures var o, found := DoMsg0(cfg, s, msg, e), FindsGroup(cfg, s, msg);
      && o.ret == (if |msg| != 4 then -1 else if found && e.enroll != 0 then 4 else if !e.alloc then 5 else 0)
      && o.s.registered == (s.registered || (found && e.enroll == 0))
      && o.s.spid == (if found then e.spid else s.spid)
      && (if found then o.s.group.Some? && IsFirst(cfg.table, FromLe(msg), o.s.group.value) else o.s.group == s.group)
      && o.s.returnEcdsa == (s.returnEcdsa && o.ret != 0)
      && o.s.db == s.db && (o.ret != 0 ==> o.reply == [])
  {
    if |msg| == 4 { FoundExactly(cfg.table, FromLe(msg)); }
  }

  lemma FoundExactly(table: seq<nat>, id: nat)
    ensures FindGroup(table, id).Some? <==> id in table
  {
    var r := FindGroup(table, id);
    if r.Some? { assert table[r.value] in table; }
  }

  predicate IsFirst(table: seq<nat>, id: nat, at: nat) {
    at < |table| && table[at] == id && forall j :: 0 <= j < at ==> table[j] != id
  }

  // ---------- message 1 ----------

  /** A key after its derivation: untouched when an earlier derivation failed. */
  function KeyLeft(before: bool, d: CmacEnv, derived: B16, previous: B16): B16 {
    if !before then previous
    else if d.extract && d.alloc && d.expand then derived
    else if d.extract && d.alloc && d.junk.Some? then d.junk.value
    else previous
  }

  lemma Msg1Answer(cfg: Cfg, s: SpState, msg: seq<byte>, e: Msg1Env)
    ensures var o := DoMsg1(cfg, s, msg, e);
      && o.ret == (if |msg| != 68 then -1 else if !s.registered then 1 else if e.sigrlRet != 0 then 4
                   else if !e.open then -1
                   else if !e.keyPair || !e.dh || !e.alloc || !e.sign || !e.cmac then 5
                   else match cfg.form
                     case Supplied => if e.t0.Ok() && e.t1.Ok() then 0 else 5
                     case Default => if e.d0.Ok() && e.d1.Ok() && e.d2.Ok() && e.d3.Ok() then 0 else 5)
      && o.s == s.(db := o.s.db) && (o.ret != 0 ==> o.reply == [])
      && (|msg| != 68 || !s.registered || e.sigrlRet != 0 ==> o.s.db == s.db)
  {}

  /** What an admitted message 1 leaves of the record, whichever of its calls fail. */
  lemma Msg1Record(cfg: Cfg, s: SpState, msg: seq<byte>, e: Msg1Env)
    requires |msg| == 68 && s.registered && e.sigrlRet == 0
    ensures var db, db0 := DoMsg1(cfg, s, msg, e).s.db, s.db;
      var paired := e.open && e.keyPair;
      var ks := KeysOf(cfg.cr, cfg.form, cfg.cr.dh(e.priv, msg[..64]));
      && db.gA == msg[..64] && db.psSecProp == db0.psSecProp
      && db.b == (if paired then e.priv else db0.b) && db.gB == (if paired then cfg.cr.pub(e.priv) else db0.gB)
      && match cfg.form
         case Supplied =>
           var first, both := paired && e.dh && e.t0.Ok(), paired && e.dh && e.t0.Ok() && e.t1.Ok();
           && db.smk == (if first then ks.smk else db0.smk) && db.sk == (if first then ks.sk else db0.sk)
           && db.mk == (if both then ks.mk else db0.mk) && db.vk == (if both then ks.vk else db0.vk)
         case Default =>
           var dh := paired && e.dh;
           && db.smk == KeyLeft(dh, e.d0, ks.smk, db0.smk)
           && db.mk == KeyLeft(dh && e.d0.Ok(), e.d1, ks.mk, db0.mk)
           && db.sk == KeyLeft(dh && e.d0.Ok() && e.d1.Ok(), e.d2, ks.sk, db0.sk)
           && db.vk == KeyLeft(dh && e.d0.Ok() && e.d1.Ok() && e.d2.Ok(), e.d3, ks.vk, db0.vk)
  {}

  // ---------- message 3 ----------

  /** The report data expected in the quote, 704 bytes into the message. */
  predicate QuoteFits(cfg: Cfg, db: Db, msg: seq<byte>)
    requires |msg| >= 768
  {
    msg[704..736] == cfg.cr.sha256(db.gA + db.gB + db.vk) && msg[736..768] == Zeros(32)
  }

  lemma QuoteBytes(cfg: Cfg, db: Db, msg: seq<byte>)
    requires |msg| >= 768
    ensures QuoteFits(cfg, db, msg) <==>
      Get(msg, MSG3 + QUOTE_BODY + BODY_REPORT_DATA, REPORT_DATA) == ReportData(cfg, db)
  {
    var data, h := Get(msg, 704, 64), cfg.cr.sha256(db.gA + db.gB + db.vk);
    assert data == msg[704..736] + msg[736..768];
    assert data[..32] == msg[704..736] && data[32..] == msg[736..768];
    assert ReportData(cfg, db)[..32] == h && ReportData(cfg, db)[32..] == Zeros(32);
  }

  lemma Msg3Answer(cfg: Cfg, s: SpState, msg: seq<byte>, e: Msg3Env)
    requires QuoteReadable(cfg, s, msg, e)
    ensures var o := DoMsg3(cfg, s, msg, e);
      && o.ret == (if |msg| < 336 then 5 else if !s.registered then 1
                   else if msg[16..80] != s.db.gA then 6
                   else if !e.cmac then 5
                   else if msg[..16] != cfg.cr.cmac(s.db.smk, msg[16..]) then 2
                   else if !e.sha.Ok() then 5
                   else if !QuoteFits(cfg, s.db, msg) then 2
                   else if e.ias != 0 then 4
                   else if !e.alloc || !e.cmac2 then 5
                   else if e.report.status == 0 && e.report.pse == 0 then e.gcm
                   else 0)
      && o.s == s.(db := s.db.(psSecProp := o.s.db.psSecProp)) && (o.ret != 0 ==> o.reply == [])
  {
    if |msg| >= 768 { QuoteBytes(cfg, s.db, msg); }
  }

  /** A result is handed out exactly for a registered provider, a message 3 of the session with a
      quote that fits, and calls that all work, that of the attestation server among them. */
  lemma ResultExactly(cfg: Cfg, s: SpState, msg: seq<byte>, e: Msg3Env)
    requires QuoteReadable(cfg, s, msg, e)
    ensures DoMsg3(cfg, s, msg, e).ret == 0 <==>
      && |msg| >= 768 && s.registered
      && msg[16..80] == s.db.gA && msg[..16] == cfg.cr.cmac(s.db.smk, msg[16..]) && QuoteFits(cfg, s.db, msg)
      && e.cmac && e.sha.Ok() && e.ias == 0 && e.alloc && e.cmac2
      && (e.report.status == 0 && e.report.pse == 0 ==> e.gcm == 0)
  {
    Msg3Answer(cfg, s, msg, e);
  }

  // ---------- over every run: registration and SPID ----------

  ghost predicate EnrolsAt(cfg: Cfg, ss: seq<SpState>, es: seq<Event>, i: nat)
    requires IsRun(cfg, ss, es) && i < |es|
  {
    assert StepOk(cfg, ss[i], es[i], ss[i + 1]);
    es[i].Ev0? && FindsGroup(cfg, ss[i], es[i].msg)
  }

  /** Event i is the last one before state n to get to the enrolment call. */
  ghost predicate LastEnrolment(cfg: Cfg, ss: seq<SpState>, es: seq<Event>, i: nat, n: nat)
    requires IsRun(cfg, ss, es) && n < |ss|
  {
    i < n && EnrolsAt(cfg, ss, es, i) && forall k: nat :: i < k < n ==> !EnrolsAt(cfg, ss, es, k)
  }

  /** In every run from the start, a provider that has a group in use holds the SPID that the last
      enrolment call stored, and the group is the one of that message 0. */
  lemma {:induction false} SpidOfLastEnrolment(cfg: Cfg, ss: seq<SpState>, es: seq<Event>, n: nat)
    requires IsRun(cfg, ss, es) && ss[0] == START && n < |ss| && ss[n].group.Some? && Wf(cfg, ss[n])
    ensures exists i: nat ::
      (LastEnrolment(cfg, ss, es, i, n)
        && ss[n].spid == es[i].e0.spid && cfg.table[ss[n].group.value] == FromLe(es[i].msg))
    decreases n
  {
    if n == 0 {
      assert false;
    } else {
      var m := n - 1;
      assert StepOk(cfg, ss[m], es[m], ss[n]);
      EnrolmentStep(cfg, ss[m], es[m]);
      if EnrolsAt(cfg, ss, es, m) {
        assert LastEnrolment(cfg, ss, es, m, n);
      } else {
        SpidOfLastEnrolment(cfg, ss, es, m);
        var i: nat :| LastEnrolment(cfg, ss, es, i, m)
          && ss[m].spid == es[i].e0.spid && cfg.table[ss[m].group.value] == FromLe(es[i].msg);
        assert LastEnrolment(cfg, ss, es, i, n);
      }
    }
  }

  /** Only a message 0 that finds its group changes the group or the SPID, and registers. */
  lemma EnrolmentStep(cfg: Cfg, s: SpState, ev: Event)
    requires Wf(cfg, s) && Legal(cfg, s, ev)
    ensures var s' := Apply(cfg, s, ev).s;
      if ev.Ev0? && FindsGroup(cfg, s, ev.msg) then
        && s'.group.Some? && cfg.table[s'.group.value] == FromLe(ev.msg)
        && s'.spid == ev.e0.spid && s'.registered == (s.registered || ev.e0.enroll == 0)
      else s'.group == s.group && s'.spid == s.spid && s'.registered == s.registered
  {
    if ev.Ev0? { Msg0Answer(cfg, s, ev.msg, ev.e0); }
  }

  /** The SPID in every message 2 is the one that the last enrolment call stored. */
  lemma Msg2CarriesSpid(cfg: Cfg, ss: seq<SpState>, es: seq<Event>, n: nat)
    requires IsRun(cfg, ss, es) && ss[0] == START && n < |es| && es[n].Ev1?
    requires OutAt(cfg, ss, es, n).ret == SP_OK && MSG2 + |es[n].e1.sigrl| < UINT32_LIMIT
    ensures |OutAt(cfg, ss, es, n).reply| >= 176
    ensures exists i: nat ::
      (LastEnrolment(cfg, ss, es, i, n) && Get(OutAt(cfg, ss, es, n).reply[8..], 64, 16) == es[i].e0.spid)
  {
    assert StepOk(cfg, ss[n], es[n], ss[n + 1]);
    Msg2Content(cfg, ss[n], es[n].msg, es[n].e1);
    SpidOfLastEnrolment(cfg, ss, es, n);
  }

  /** In every run from the start the provider is registered exactly after a message 0 whose
      enrolment call succeeded. */
  lemma {:induction false} RegisteredExactly(cfg: Cfg, ss: seq<SpState>, es: seq<Event>, n: nat)
    requires IsRun(cfg, ss, es) && ss[0] == START && n < |ss|
    ensures ss[n].registered <==> exists i: nat :: i < n && EnrolsAt(cfg, ss, es, i) && es[i].e0.enroll == 0
    decreases n
  {
    if n == 0 {
    } else {
      var m := n - 1;
      assert StepOk(cfg, ss[m], es[m], ss[n]);
      EnrolmentStep(cfg, ss[m], es[m]);
      RegisteredExactly(cfg, ss, es, m);
    }
  }
}
