/** How far the guarantees of SpRuns reach.  A result handed out is about the session of a message 1
    exactly when the last message 1 to get to the record completed it.  The other two cases exist:
    no message 1 got to the record yet, or the last one that did failed on the way. */
module SpLimits {
  import opened Bytes
  import opened Crypto
  import opened Kdf
  import opened Layout
  import opened SpRuns
  import opened SpSpec

  // ---------- exactly when a result belongs to a session ----------

  /** Message 1 leaves its own session behind, whatever the record held before and whatever a
      failing derivation leaves in its key. */
  ghost predicate LeavesSession(cfg: Cfg, ev: Event)
    requires ev.Ev1? && |ev.msg| >= 64
  {
    forall db, junk ::
      SessionOf(cfg, SessionDb(cfg, db, ev.msg[..64], WithJunk(ev.e1, junk)), ev.msg[..64], ev.e1.priv)
  }

  /** The record in state j is owed to one message 1 alone: the last that got to it. */
  ghost predicate Owned(cfg: Cfg, ss: seq<SpState>, es: seq<Event>, j: nat)
    requires IsRun(cfg, ss, es) && j < |ss|
  {
    exists i: nat :: LastTouch(ss, es, i, j) && LeavesSession(cfg, es[i])
  }

  /** In every run, a result handed out belongs to the session of a message 1 exactly when there is a
      last message 1 that got to the record and it completed it; without one, the result is about
      the zeros that the record starts with. */
  lemma ResultOwnedExactly(cfg: Cfg, ss: seq<SpState>, es: seq<Event>, j: nat)
    requires IsRun(cfg, ss, es) && ss[0] == START && j < |es| && SealKeepsLength(cfg.cr)
    requires es[j].Ev3? && OutAt(cfg, ss, es, j).ret == SP_OK
    ensures Owned(cfg, ss, es, j) <==> exists i: nat :: LastTouch(ss, es, i, j) && Establishes(cfg, es[i].e1)
    ensures forall i: nat :: LastTouch(ss, es, i, j) && Establishes(cfg, es[i].e1) ==>
      && SessionOf(cfg, ss[j].db, es[i].msg[..64], es[i].e1.priv)
      && ResultJustified(cfg, SessionRecord(cfg, es[i], ss[j].db.psSecProp), es[j].msg, es[j].e3,
                         OutAt(cfg, ss, es, j).reply)
    ensures (forall i: nat :: !LastTouch(ss, es, i, j)) ==>
      ResultJustified(cfg, ZERO_DB, es[j].msg, es[j].e3, OutAt(cfg, ss, es, j).reply)
  {
    forall i: nat | LastTouch(ss, es, i, j)
      ensures LeavesSession(cfg, es[i]) <==> Establishes(cfg, es[i].e1)
      ensures Establishes(cfg, es[i].e1) ==>
        && SessionOf(cfg, ss[j].db, es[i].msg[..64], es[i].e1.priv)
        && ResultJustified(cfg, SessionRecord(cfg, es[i], ss[j].db.psSecProp), es[j].msg, es[j].e3,
                           OutAt(cfg, ss, es, j).reply)
    {
      SessionExactly(cfg, es[i].msg[..64], es[i].e1);
      if Establishes(cfg, es[i].e1) {
        SessionCoherent(cfg, ss, es, i, j);
        ResultBelongsToSession(cfg, ss, es, i, j);
      }
    }
    if forall i: nat :: !LastTouch(ss, es, i, j) {
      NeverTouched(cfg, ss, es, j);
      RecordKept(cfg, ss, es, 0, j);
      assert StepOk(cfg, ss[j], es[j], ss[j + 1]);
      ResultIsJustified(cfg, ss[j], es[j].msg, es[j].e3);
    }
  }

  /** Without a last event that got to the record there is none at all. */
  lemma {:induction false} NeverTouched(cfg: Cfg, ss: seq<SpState>, es: seq<Event>, j: nat)
    requires IsRun(cfg, ss, es) && j < |ss| && forall i: nat :: !LastTouch(ss, es, i, j)
    ensures forall k :: 0 <= k < j ==> !TouchesSession(ss[k], es[k])
    decreases j
  {
    if j == 0 {
    } else {
      var m := j - 1;
      assert !LastTouch(ss, es, m, j);
      assert !TouchesSession(ss[m], es[m]);
      forall i: nat ensures !LastTouch(ss, es, i, m) {
        assert !LastTouch(ss, es, i, j);
      }
      NeverTouched(cfg, ss, es, m);
    }
  }

  /** The key pair a message 1 works with: its own, or the old one when it failed before. */
  function KeyInUse(db: Db, e: Msg1Env): B32 { if e.open && e.keyPair then e.priv else db.b }

  /** The same on the record itself: when the vk in it is not already the one that message 1 would
      derive, and a failing derivation of vk leaves vk alone, the record in a later state is a
      session of that message's g_a exactly if the message completed it. */
  lemma RecordExactly(cfg: Cfg, ss: seq<SpState>, es: seq<Event>, i: nat, j: nat)
    requires IsRun(cfg, ss, es) && j < |ss| && LastTouch(ss, es, i, j)
    requires es[i].e1.d3.junk.None?
    requires var b := KeyInUse(ss[i].db, es[i].e1);
      ss[i].db.vk != KeysOf(cfg.cr, cfg.form, cfg.cr.dh(b, es[i].msg[..64])).vk
    ensures (exists b :: SessionOf(cfg, ss[j].db, es[i].msg[..64], b)) <==> Establishes(cfg, es[i].e1)
  {
    var e, gA := es[i].e1, es[i].msg[..64];
    assert StepOk(cfg, ss[i], es[i], ss[i + 1]);
    RecordKept(cfg, ss, es, i + 1, j);
    ReplacedExactly(cfg, ss[i].db, gA, e);
    var db := SessionDb(cfg, ss[i].db, gA, e);
    if b :| SessionOf(cfg, ss[j].db, gA, b) {
      assert SessionOf(cfg, db, gA, db.b);
    }
    if Establishes(cfg, e) {
      assert SessionOf(cfg, ss[j].db, gA, db.b);
    }
  }

  lemma ReplacedExactly(cfg: Cfg, db: Db, gA: B64, e: Msg1Env)
    requires e.d3.junk.None? && db.vk != KeysOf(cfg.cr, cfg.form, cfg.cr.dh(KeyInUse(db, e), gA)).vk
    ensures var r := SessionDb(cfg, db, gA, e);
      r.b == KeyInUse(db, e) && (SessionOf(cfg, r, gA, r.b) <==> Establishes(cfg, e))
  {}

  // ---------- the other two cases happen ----------

  const ALL_SHA := ShaEnv(true, true, true, true, true)
  const ALL_CMAC := CmacEnv(true, true, true, None)

  /** A message 1 for which no call fails, with the given key pair. */
  function WorkingMsg1(gA: B64, b: B32): Event {
    Ev1(gA + Zeros(4), Msg1Env(0, [], true, true, b, true, ALL_CMAC, ALL_CMAC, ALL_CMAC, ALL_CMAC,
                               ALL_SHA, ALL_SHA, true, true, Zeros(32), true))
  }

  /** A message 1 for which the ECC context cannot be opened. */
  function UnopenedMsg1(gA: B64): Event {
    var ev := WorkingMsg1(gA, Zeros(32));
    ev.(e1 := ev.e1.(open := false))
  }

  /** A message 3 that fits the record. */
  function FittingMsg3(cfg: Cfg, db: Db): seq<byte> {
    var quote := Zeros(QUOTE_BODY + BODY_REPORT_DATA) + ReportData(cfg, db);
    var maced := Msg3Maced(db.gA, Zeros(256), quote);
    Msg3(cfg.cr.cmac(db.smk, maced), maced)
  }

  /** No call of message 3 fails, and the report has the given status. */
  function WorkingEnv3(status: nat): Msg3Env {
    Msg3Env(true, ALL_SHA, 0, Report(status, IAS_PSE_OK, Zeros(BLOB)), true, true, 0)
  }

  function WorkingMsg3(cfg: Cfg, db: Db): Event { Ev3(FittingMsg3(cfg, db), WorkingEnv3(IAS_QUOTE_OK)) }

  lemma FittingAnswered(cfg: Cfg, s: SpState, status: nat)
    requires s.registered
    ensures |FittingMsg3(cfg, s.db)| == MSG3 + QUOTE_READ
    ensures var msg, e := FittingMsg3(cfg, s.db), WorkingEnv3(status);
      QuoteReadable(cfg, s, msg, e) && DoMsg3(cfg, s, msg, e).ret == SP_OK
  {
    var quote := Zeros(QUOTE_BODY + BODY_REPORT_DATA) + ReportData(cfg, s.db);
    var maced := Msg3Maced(s.db.gA, Zeros(256), quote);
    var msg := FittingMsg3(cfg, s.db);
    Msg3Reads(cfg.cr.cmac(s.db.smk, maced), s.db.gA, Zeros(256), quote);
    var at := QUOTE_BODY + BODY_REPORT_DATA;
    assert Get(msg, MSG3 + at, REPORT_DATA) == Get(msg[MSG3..], at, REPORT_DATA) == ReportData(cfg, s.db);
  }

  /** A message 0 for a group that is not supported, at the start: SP_OK, and not registered. */
  lemma UnsupportedAnswered(cfg: Cfg, id: nat)
    requires id !in cfg.table && id < UINT32_LIMIT
    ensures var o := Apply(cfg, START, Msg0Event(id, 0)); o.ret == SP_OK && !o.s.registered
  {
    U32RoundTrip(id);
    OkMsg0Registers(cfg, START, ToLe(id, 4), Msg0Env(0, Zeros(16), true));
  }

  /** In every run from the start, a result handed out comes after a message 1 that got to the
      record. */
  ghost predicate AlwaysAfterMsg1(cfg: Cfg) {
    forall ss: seq<SpState>, es: seq<Event>, j: nat ::
      IsRun(cfg, ss, es) && ss[0] == START && j < |es| && es[j].Ev3? && OutAt(cfg, ss, es, j).ret == SP_OK ==>
      exists i: nat :: LastTouch(ss, es, i, j)
  }

  /** Message 0 and then, without a message 1, a message 3 that fits the initial record: it is
      answered, since the source does not check that a session was established. */
  lemma ResultBeforeMsg1(cfg: Cfg)
    requires cfg.table != [] && cfg.table[0] < UINT32_LIMIT
    ensures !AlwaysAfterMsg1(cfg)
  {
    U32RoundTrip(cfg.table[0]);
    var ev0 := Msg0Event(cfg.table[0], 0);
    var s1 := Apply(cfg, START, ev0).s;
    FittingAnswered(cfg, s1, IAS_QUOTE_OK);
    var ev3 := WorkingMsg3(cfg, s1.db);
    var ss, es := [START, s1, Apply(cfg, s1, ev3).s], [ev0, ev3];
    assert StepOk(cfg, ss[0], es[0], ss[1]) && StepOk(cfg, ss[1], es[1], ss[2]);
    assert IsRun(cfg, ss, es) && OutAt(cfg, ss, es, 1).ret == SP_OK;
    assert forall i: nat :: !LastTouch(ss, es, i, 1);
  }

  /** A result needs a registered provider, and that a supported group. */
  lemma ResultNeedsGroup(cfg: Cfg, ss: seq<SpState>, es: seq<Event>, j: nat)
    requires IsRun(cfg, ss, es) && j < |es| && es[j].Ev3? && OutAt(cfg, ss, es, j).ret == SP_OK
    ensures cfg.table != []
  {
    assert StepOk(cfg, ss[j], es[j], ss[j + 1]);
  }

  /** So this holds only of a provider that supports no group, and thus never registers. */
  lemma AfterMsg1Exactly(cfg: Cfg)
    requires forall i :: 0 <= i < |cfg.table| ==> cfg.table[i] < UINT32_LIMIT
    ensures AlwaysAfterMsg1(cfg) <==> cfg.table == []
  {
    if cfg.table != [] {
      ResultBeforeMsg1(cfg);
    } else if !AlwaysAfterMsg1(cfg) {
      var ss: seq<SpState>, es: seq<Event>, j: nat :|
        IsRun(cfg, ss, es) && ss[0] == START && j < |es| && es[j].Ev3? && OutAt(cfg, ss, es, j).ret == SP_OK
        && forall i: nat :: !LastTouch(ss, es, i, j);
      ResultNeedsGroup(cfg, ss, es, j);
    }
  }

  /** From the start: message 0, a message 1 for which every call works, and another one for which
      the ECC context cannot be opened.  The record then is a session of the new g_a, with some
      private key, exactly if the two client keys give the same four keys; and a message 3 that
      fits it is answered with a result in any case. */
  lemma MixedRun(cfg: Cfg, gA: B64, b: B32, gA': B64) returns (ss: seq<SpState>, es: seq<Event>)
    requires cfg.table != [] && cfg.table[0] < UINT32_LIMIT
    ensures IsRun(cfg, ss, es) && ss[0] == START && |es| == 4
    ensures es[0].Ev0? && es[1] == WorkingMsg1(gA, b) && es[2] == UnopenedMsg1(gA') && es[3].Ev3?
    ensures OutAt(cfg, ss, es, 1).ret == SP_OK && OutAt(cfg, ss, es, 2).ret == -1
    ensures OutAt(cfg, ss, es, 3).ret == SP_OK && LastTouch(ss, es, 2, 3)
    ensures (exists b' :: SessionOf(cfg, ss[3].db, gA', b')) <==>
      KeysOf(cfg.cr, cfg.form, cfg.cr.dh(b, gA')) == KeysOf(cfg.cr, cfg.form, cfg.cr.dh(b, gA))
  {
    U32RoundTrip(cfg.table[0]);
    var ev0, ev1, ev2 := Msg0Event(cfg.table[0], 0), WorkingMsg1(gA, b), UnopenedMsg1(gA');
    var s1 := Apply(cfg, START, ev0).s;
    var s2 := Apply(cfg, s1, ev1).s;
    assert ev1.msg[..64] == gA && ev2.msg[..64] == gA';
    Msg1Establishes(cfg, s1, ev1.msg, ev1.e1);
    var s3 := Apply(cfg, s2, ev2).s;
    assert s3.db == s2.db.(gA := gA') && s3.registered;
    FittingAnswered(cfg, s3, IAS_QUOTE_OK);
    var ev3 := WorkingMsg3(cfg, s3.db);
    es := [ev0, ev1, ev2, ev3];
    ss := [START, s1, s2, s3, Apply(cfg, s3, ev3).s];
    assert StepOk(cfg, ss[0], es[0], ss[1]) && StepOk(cfg, ss[1], es[1], ss[2]);
    assert StepOk(cfg, ss[2], es[2], ss[3]) && StepOk(cfg, ss[3], es[3], ss[4]);
    assert s3.db.b == b;
    if KeysOf(cfg.cr, cfg.form, cfg.cr.dh(b, gA')) == KeysOf(cfg.cr, cfg.form, cfg.cr.dh(b, gA)) {
      assert SessionOf(cfg, s3.db, gA', b);
    }
  }
}
