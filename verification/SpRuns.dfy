/** Theorems about every run of the service provider: any sequence of messages, well formed or
    not, with any outcome of every call the provider makes. */
module SpRuns {
  import opened Arith
  import opened Bytes
  import opened Crypto
  import opened Kdf
  import opened Layout
  import opened SpSpec

  /** A request that reaches the service provider, with the results of the calls it makes. */
  datatype Event =
    | Ev0(msg: seq<byte>, e0: Msg0Env)
    | Ev1(msg: seq<byte>, e1: Msg1Env)
    | Ev3(msg: seq<byte>, e3: Msg3Env)

  /** The events the source defines: a message 3 whose quote would be read past its end is not. */
  predicate Legal(cfg: Cfg, s: SpState, ev: Event) {
    ev.Ev3? ==> QuoteReadable(cfg, s, ev.msg, ev.e3)
  }

  function Apply(cfg: Cfg, s: SpState, ev: Event): (o: Out)
    requires Wf(cfg, s) && Legal(cfg, s, ev)
    ensures Wf(cfg, o.s)
  {
    match ev
    case Ev0(msg, e) => DoMsg0(cfg, s, msg, e)
    case Ev1(msg, e) => DoMsg1(cfg, s, msg, e)
    case Ev3(msg, e) => DoMsg3(cfg, s, msg, e)
  }

  ghost predicate StepOk(cfg: Cfg, s: SpState, ev: Event, s': SpState) {
    Wf(cfg, s) && Legal(cfg, s, ev) && s' == Apply(cfg, s, ev).s
  }

  /** ss[i] is the state in which event es[i] arrives. */
  ghost predicate IsRun(cfg: Cfg, ss: seq<SpState>, es: seq<Event>) {
    && |ss| == |es| + 1 && Wf(cfg, ss[0])
    && forall i :: 0 <= i < |es| ==> StepOk(cfg, ss[i], es[i], ss[i + 1])
  }

  ghost function OutAt(cfg: Cfg, ss: seq<SpState>, es: seq<Event>, i: nat): Out
    requires IsRun(cfg, ss, es) && i < |es|
  {
    assert StepOk(cfg, ss[i], es[i], ss[i + 1]);
    Apply(cfg, ss[i], es[i])
  }

  // ---------- registration and ordering ----------

  /** Once registered, always registered, with a group of the table; and the well-formed
      messages 1 and 3 are refused without any effect exactly until then. */
  lemma {:induction false} Registration(cfg: Cfg, ss: seq<SpState>, es: seq<Event>, i: nat, j: nat)
    requires IsRun(cfg, ss, es) && i <= j < |ss|
    ensures ss[i].registered ==> ss[j].registered
    ensures ss[j].registered ==> ss[j].group.Some? && ss[j].group.value < |cfg.table|
    ensures j < |es| && es[j].Ev1? && |es[j].msg| == MSG1 ==>
      (OutAt(cfg, ss, es, j) == Fail(ss[j], SP_UNSUPPORTED_EXTENDED_EPID_GROUP) <==> !ss[j].registered)
    ensures j < |es| && es[j].Ev3? && |es[j].msg| >= MSG3 && !ss[j].registered ==>
      OutAt(cfg, ss, es, j) == Fail(ss[j], SP_UNSUPPORTED_EXTENDED_EPID_GROUP)
    decreases j
  {
    if j == 0 {
    } else {
      assert StepOk(cfg, ss[j - 1], es[j - 1], ss[j]);
    }
    if i < j { Registration(cfg, ss, es, i, j - 1); }
  }

  /** A successful message 0 registers exactly when its group is in the table: an unsupported
      group is answered with SP_OK all the same. */
  lemma OkMsg0Registers(cfg: Cfg, s: SpState, msg: seq<byte>, e: Msg0Env)
    requires Wf(cfg, s) && DoMsg0(cfg, s, msg, e).ret == SP_OK
    ensures DoMsg0(cfg, s, msg, e).s.registered <==> s.registered || FromLe(msg) in cfg.table
  {
    if FindGroup(cfg.table, FromLe(msg)).Some? {
      assert cfg.table[FindGroup(cfg.table, FromLe(msg)).value] == FromLe(msg);
    }
  }

  ghost predicate OkMsg0At(cfg: Cfg, ss: seq<SpState>, es: seq<Event>, i: nat)
    requires IsRun(cfg, ss, es)
  {
    i < |es| && es[i].Ev0? && OutAt(cfg, ss, es, i).ret == SP_OK
  }

  /** Only a successful message 0 clears the flag. */
  lemma FlagStep(cfg: Cfg, s: SpState, ev: Event)
    requires Wf(cfg, s) && Legal(cfg, s, ev)
    ensures var o := Apply(cfg, s, ev);
      o.s.returnEcdsa <==> s.returnEcdsa && !(ev.Ev0? && o.ret == SP_OK)
  {}

  lemma {:induction false} EcdsaFlag(cfg: Cfg, ss: seq<SpState>, es: seq<Event>, i: nat)
    requires IsRun(cfg, ss, es) && i < |ss|
    ensures ss[i].returnEcdsa <==>
      ss[0].returnEcdsa && forall j: nat :: j < i ==> !OkMsg0At(cfg, ss, es, j)
    decreases i
  {
    if i == 0 {
    } else {
      EcdsaFlag(cfg, ss, es, i - 1);
      assert StepOk(cfg, ss[i - 1], es[i - 1], ss[i]);
      FlagStep(cfg, ss[i - 1], es[i - 1]);
      if ss[i].returnEcdsa {
        forall j: nat | j < i ensures !OkMsg0At(cfg, ss, es, j) {
          if j == i - 1 { assert OkMsg0At(cfg, ss, es, j) ==> OutAt(cfg, ss, es, j).ret == SP_OK; }
        }
      } else if ss[i - 1].returnEcdsa {
        assert OkMsg0At(cfg, ss, es, i - 1);
      }
    }
  }

  /** Among the successful answers to message 0 exactly the first carries the ECDSA key ids and
      all later ones carry the EPID key ids. */
  lemma KeyListsInOrder(cfg: Cfg, ss: seq<SpState>, es: seq<Event>, i: nat)
    requires IsRun(cfg, ss, es) && ss[0] == START && OkMsg0At(cfg, ss, es, i)
    requires |cfg.ecdsaList| < UINT32_LIMIT && |cfg.epidList| < UINT32_LIMIT
    ensures var first := forall j: nat :: j < i ==> !OkMsg0At(cfg, ss, es, j);
      var reply := OutAt(cfg, ss, es, i).reply;
      && |reply| >= 8 && reply[0] == 0 && reply[1] == 0 && reply[2] == 0
      && reply[8..] == (if first then cfg.ecdsaList else cfg.epidList)
      && ResponseSize(reply) == |reply| - 8
  {
    EcdsaFlag(cfg, ss, es, i);
    var list := KeyList(cfg, ss[i].returnEcdsa);
    ResponseReads(TYPE_RA_MSG0, 0, 0, |list|, list);
  }

  /** The group pointer refers to a group whose enrolment succeeded in this run. */
  ghost predicate EnrolledIn(cfg: Cfg, es: seq<Event>, g: nat)
    requires g < |cfg.table|
  {
    exists i :: 0 <= i < |es| && Enrols(cfg, es[i], g)
  }

  /** A message 0 for group g whose enrolment call, if it is made, succeeds. */
  ghost predicate Enrols(cfg: Cfg, ev: Event, g: nat)
    requires g < |cfg.table|
  {
    ev.Ev0? && ev.e0.enroll == 0 && |ev.msg| == MSG0 && FromLe(ev.msg) == cfg.table[g]
  }

  /** In every run from the start the group in use of a registered provider is an enrolled one. */
  ghost predicate GroupAlwaysEnrolled(cfg: Cfg) {
    forall ss: seq<SpState>, es: seq<Event> ::
      IsRun(cfg, ss, es) && ss[0] == START && ss[|es|].registered && Wf(cfg, ss[|es|]) ==>
      EnrolledIn(cfg, es, ss[|es|].group.value)
  }

  ghost predicate OneGroup(cfg: Cfg) {
    forall i :: 0 <= i < |cfg.table| ==> cfg.table[i] == cfg.table[0]
  }

  lemma {:induction false} OneGroupEnrolled(cfg: Cfg, ss: seq<SpState>, es: seq<Event>, n: nat)
    requires OneGroup(cfg) && IsRun(cfg, ss, es) && ss[0] == START && n <= |es|
    ensures ss[n].group.Some? ==> ss[n].group.value == 0
    ensures ss[n].registered ==> 0 < |cfg.table| && exists i :: 0 <= i < n && Enrols(cfg, es[i], 0)
    decreases n
  {
    if n == 0 {
    } else {
      OneGroupEnrolled(cfg, ss, es, n - 1);
      var ev := es[n - 1];
      assert StepOk(cfg, ss[n - 1], ev, ss[n]);
      if ss[n].registered && !ss[n - 1].registered {
        assert FindGroup(cfg.table, FromLe(ev.msg)).Some?;
        assert Enrols(cfg, ev, 0);
      }
    }
  }

  function Msg0Event(id: nat, enroll: int): Event { Ev0(ToLe(id, 4), Msg0Env(enroll, Zeros(16), true)) }

  /** A failing enrolment after a successful one for another group leaves the provider registered
      and pointing to the group that was not enrolled. */
  lemma SwitchFails(cfg: Cfg, m: nat)
    requires m < |cfg.table| && cfg.table[m] != cfg.table[0]
    requires cfg.table[0] < UINT32_LIMIT && cfg.table[m] < UINT32_LIMIT
    ensures !GroupAlwaysEnrolled(cfg)
  {
    var x, y := cfg.table[0], cfg.table[m];
    U32RoundTrip(x);
    U32RoundTrip(y);
    var es := [Msg0Event(x, 0), Msg0Event(y, 1)];
    var s1 := Apply(cfg, START, es[0]).s;
    var s2 := Apply(cfg, s1, es[1]).s;
    var ss := [START, s1, s2];
    assert s1.registered && cfg.table[s1.group.value] == x;
    assert s2.registered && cfg.table[s2.group.value] == y;
    assert StepOk(cfg, ss[0], es[0], ss[1]) && StepOk(cfg, ss[1], es[1], ss[2]);
    assert IsRun(cfg, ss, es);
    assert !EnrolledIn(cfg, es, s2.group.value);
  }

  /** The group in use is always an enrolled one exactly if the table holds a single group id, as
      the table of the source does. */
  lemma GroupEnrolledExactly(cfg: Cfg)
    requires forall i :: 0 <= i < |cfg.table| ==> cfg.table[i] < UINT32_LIMIT
    ensures GroupAlwaysEnrolled(cfg) <==> OneGroup(cfg)
  {
    if OneGroup(cfg) {
      forall ss: seq<SpState>, es: seq<Event> |
        IsRun(cfg, ss, es) && ss[0] == START && ss[|es|].registered && Wf(cfg, ss[|es|])
        ensures EnrolledIn(cfg, es, ss[|es|].group.value)
      {
        OneGroupEnrolled(cfg, ss, es, |es|);
      }
    } else {
      var m :| 0 <= m < |cfg.table| && cfg.table[m] != cfg.table[0];
      SwitchFails(cfg, m);
    }
  }

  // ---------- session ----------

  /** The record holds the session of a client key g_a and the provider's private key b. */
  predicate SessionOf(cfg: Cfg, db: Db, gA: B64, b: B32) {
    && db.gA == gA && db.b == b && db.gB == cfg.cr.pub(b)
    && Keys(db.smk, db.sk, db.mk, db.vk) == KeysOf(cfg.cr, cfg.form, cfg.cr.dh(b, gA))
  }

  /** Event i is a message 1 that gets to the session record. */
  predicate TouchesSession(s: SpState, ev: Event) { ev.Ev1? && Admitted(s, ev.msg, ev.e1) }

  lemma Msg1Establishes(cfg: Cfg, s: SpState, msg: seq<byte>, e: Msg1Env)
    requires Admitted(s, msg, e) && Establishes(cfg, e)
    ensures SessionOf(cfg, DoMsg1(cfg, s, msg, e).s.db, msg[..64], e.priv)
  {}

  /** Messages 0 and 3, and a message 1 refused by the first checks, leave the session alone. */
  lemma SessionUntouched(cfg: Cfg, s: SpState, ev: Event)
    requires Wf(cfg, s) && Legal(cfg, s, ev) && !TouchesSession(s, ev)
    ensures var db := Apply(cfg, s, ev).s.db; db == s.db.(psSecProp := db.psSecProp)
  {}

  /** The stored platform services property changes only to that of an authentic message 3. */
  lemma PropertyStored(cfg: Cfg, s: SpState, ev: Event)
    requires Wf(cfg, s) && Legal(cfg, s, ev)
    ensures Apply(cfg, s, ev).s.db.psSecProp ==
      if ev.Ev3? && |ev.msg| >= MSG3 && s.registered && ev.e3.cmac && Authentic(cfg, s.db, ev.msg)
      then Get(ev.msg, MSG3_PS, 256) else s.db.psSecProp
  {}

  /** While no message 1 gets to it the record keeps everything but ps_sec_prop. */
  lemma {:induction false} RecordKept(cfg: Cfg, ss: seq<SpState>, es: seq<Event>, i: nat, j: nat)
    requires IsRun(cfg, ss, es) && i <= j < |ss|
    requires forall k :: i <= k < j ==> !TouchesSession(ss[k], es[k])
    ensures ss[j].db == ss[i].db.(psSecProp := ss[j].db.psSecProp)
    decreases j
  {
    if i == j {
    } else {
      RecordKept(cfg, ss, es, i, j - 1);
      assert StepOk(cfg, ss[j - 1], es[j - 1], ss[j]);
      assert !TouchesSession(ss[j - 1], es[j - 1]);
      SessionUntouched(cfg, ss[j - 1], es[j - 1]);
    }
  }

  lemma SessionKept(cfg: Cfg, ss: seq<SpState>, es: seq<Event>, i: nat, j: nat, gA: B64, b: B32)
    requires IsRun(cfg, ss, es) && i <= j < |ss|
    requires SessionOf(cfg, ss[i].db, gA, b)
    requires forall k :: i <= k < j ==> !TouchesSession(ss[k], es[k])
    ensures SessionOf(cfg, ss[j].db, gA, b)
  {
    RecordKept(cfg, ss, es, i, j);
  }

  /** Event i is the last one before state j to get to the session record. */
  ghost predicate LastTouch(ss: seq<SpState>, es: seq<Event>, i: nat, j: nat)
    requires |ss| == |es| + 1 && j < |ss|
  {
    i < j && TouchesSession(ss[i], es[i]) && forall k :: i < k < j ==> !TouchesSession(ss[k], es[k])
  }

  /** A message 1 that returned SP_OK got to the record and completed it. */
  lemma OkMsg1Establishes(cfg: Cfg, s: SpState, msg: seq<byte>, e: Msg1Env)
    requires DoMsg1(cfg, s, msg, e).ret == SP_OK
    ensures Admitted(s, msg, e) && Establishes(cfg, e)
  {}

  /** Session coherence: from a message 1 whose key pair, shared secret and derivations succeeded, in
      particular from one that returned SP_OK, until the next one that gets to the session record,
      g_a, b, g_b and the four keys are those of that message and its key pair, whatever other
      messages arrive. */
  lemma SessionCoherent(cfg: Cfg, ss: seq<SpState>, es: seq<Event>, i: nat, j: nat)
    requires IsRun(cfg, ss, es) && j < |ss|
    requires LastTouch(ss, es, i, j) && Establishes(cfg, es[i].e1)
    ensures SessionOf(cfg, ss[j].db, es[i].msg[..64], es[i].e1.priv)
  {
    assert StepOk(cfg, ss[i], es[i], ss[i + 1]);
    Msg1Establishes(cfg, ss[i], es[i].msg, es[i].e1);
    SessionKept(cfg, ss, es, i + 1, j, es[i].msg[..64], es[i].e1.priv);
  }

  /** The environment with other leftovers of failing derivations. */
  function WithJunk(e: Msg1Env, junk: Option<B16>): Msg1Env {
    e.(d0 := e.d0.(junk := junk), d1 := e.d1.(junk := junk), d2 := e.d2.(junk := junk), d3 := e.d3.(junk := junk))
  }

  function Different16(k: B16): (d: B16)
    ensures d != k
  {
    k[0 := if k[0] == 0 then 1 else 0]
  }

  /** An admitted message 1 leaves its own session behind, whatever the record held before,
      exactly when its key pair, its shared secret and all its derivations succeed; in every other
      case some record ends up mixed. */
  lemma SessionExactly(cfg: Cfg, gA: B64, e: Msg1Env)
    ensures (forall db, junk :: SessionOf(cfg, SessionDb(cfg, db, gA, WithJunk(e, junk)), gA, e.priv))
       <==> Establishes(cfg, e)
  {
    if !Establishes(cfg, e) {
      var ks := KeysOf(cfg.cr, cfg.form, cfg.cr.dh(e.priv, gA));
      var db := Db(gA, cfg.cr.pub(e.priv), Different16(ks.vk), Different16(ks.mk), Different16(ks.sk),
                   Different16(ks.smk), e.priv, []);
      assert !SessionOf(cfg, SessionDb(cfg, db, gA, WithJunk(e, None)), gA, e.priv);
    }
  }

  /** A failing message 1 can leave a mixed record.  When the ECC context cannot be opened only
      g_a changes: a coherent record stays coherent exactly if the new g_a happens to give the
      old keys. */
  lemma OpenFailureExactly(cfg: Cfg, s: SpState, msg: seq<byte>, e: Msg1Env)
    requires Admitted(s, msg, e) && !e.open && SessionOf(cfg, s.db, s.db.gA, s.db.b)
    ensures var db := DoMsg1(cfg, s, msg, e).s.db;
      && db == s.db.(gA := msg[..64])
      && (SessionOf(cfg, db, db.gA, db.b) <==>
          KeysOf(cfg.cr, cfg.form, cfg.cr.dh(s.db.b, msg[..64]))
            == KeysOf(cfg.cr, cfg.form, cfg.cr.dh(s.db.b, s.db.gA)))
  {}

  /** What is in message 2: read at its packed offsets, written out here, it holds g_b, the SPID, the
      quote type and key derivation id, the signature over g_b||g_a and, last, the MAC under smk of
      everything before it. */
  lemma Msg2Content(cfg: Cfg, s: SpState, msg: seq<byte>, e: Msg1Env)
    requires DoMsg1(cfg, s, msg, e).ret == SP_OK && MSG2 + |e.sigrl| < UINT32_LIMIT
    ensures var reply := DoMsg1(cfg, s, msg, e).reply;
      && |reply| == 8 + 168 + |e.sigrl|
      && reply[0] == 2 && reply[1] == 0 && reply[2] == 0 && ResponseSize(reply) == 168 + |e.sigrl|
      && var body, gB := reply[8..], cfg.cr.pub(e.priv);
         var ks := KeysOf(cfg.cr, cfg.form, cfg.cr.dh(e.priv, msg[..64]));
      && Get(body, 0, 64) == gB && Get(body, 64, 16) == s.spid
      && FromLe(Get(body, 80, 2)) == 1
      && FromLe(Get(body, 82, 2)) == (match cfg.form case Supplied => 2 case Default => 1)
      && Get(body, 84, 64) == cfg.cr.sign(cfg.spKey, gB + msg[..64], e.coins)
      && Get(body, 148, 16) == cfg.cr.cmac(ks.smk, body[..148])
      && FromLe(Get(body, 164, 4)) == |e.sigrl| && body[168..] == e.sigrl
  {
    Msg1Establishes(cfg, s, msg, e);
    var db := DoMsg1(cfg, s, msg, e).s.db;
    var maced := Msg2MacedOf(cfg, db, s.spid, e.coins);
    var mac := cfg.cr.cmac(db.smk, maced);
    SmallIds();
    var signature := SignGbGa(cfg, db, e.coins);
    Msg2Reads(db.gB, s.spid, SAMPLE_QUOTE_LINKABLE_SIGNATURE, KdfId(cfg.form), signature, mac, e.sigrl);
    ResponseReads(TYPE_RA_MSG2, 0, 0, MSG2 + |e.sigrl|, Msg2(maced, mac, e.sigrl));
  }

  lemma SmallIds()
    ensures 2 < Power(256, 2)
  {
    assert Power(256, 1) == 256;
  }

  // ---------- attestation results ----------

  /** What a result handed out says about the message that got it, with the packed offsets written
      out: g_a at 16, the report data at 704 of message 3; the body of the result from 8 on. */
  ghost predicate ResultJustified(cfg: Cfg, db: Db, msg: seq<byte>, e: Msg3Env, reply: seq<byte>) {
    && |msg| >= 768
    && Get(msg, 16, 64) == db.gA
    && Get(msg, 0, 16) == cfg.cr.cmac(db.smk, msg[16..])
    && Get(msg, 704, 32) == cfg.cr.sha256(db.gA + db.gB + db.vk) && Get(msg, 736, 32) == Zeros(32)
    && e.ias == 0
    && |reply| == 161 && reply[0] == 4 && ResponseSize(reply) == 145
    && reply[1] == (if e.report.status == 0 then 0 else 0xFF)
    && reply[2] == (if e.report.pse == 0 then 0 else 0xFF)
    && var body := reply[8..];
    && body[..97] == e.report.blob
    && Get(body, 97, 16) == cfg.cr.cmac(db.mk, e.report.blob)
    && FromLe(Get(body, 113, 4)) == 8
    && (if e.report.status == 0 && e.report.pse == 0
        then Sealed(body[145..], Get(body, 129, 16)) == cfg.cr.seal(db.sk, [0, 1, 2, 3, 4, 5, 6, 7])
        else body[145..] == Zeros(8) && Get(body, 129, 16) == Zeros(16))
  }

  lemma ResultIsJustified(cfg: Cfg, s: SpState, msg: seq<byte>, e: Msg3Env)
    requires QuoteReadable(cfg, s, msg, e) && DoMsg3(cfg, s, msg, e).ret == SP_OK && SealKeepsLength(cfg.cr)
    ensures ResultJustified(cfg, s.db, msg, e, DoMsg3(cfg, s, msg, e).reply)
  {
    var db, r := DoMsg3(cfg, s, msg, e).s.db, e.report;
    var at := MSG3 + QUOTE_BODY + BODY_REPORT_DATA;
    var data := Get(msg, at, REPORT_DATA);
    assert Get(msg, at, 32) == data[..32] && Get(msg, at + 32, 32) == data[32..];
    var sealed := SealedSecret(cfg, db, r);
    assert |cfg.cr.seal(db.sk, SECRET).text| == |SECRET|;
    AttResultReads(r.blob, cfg.cr.cmac(db.mk, r.blob), |SECRET|, sealed.tag, sealed.text);
    ResponseReads(TYPE_RA_ATT_RESULT, StatusByte(r.status == IAS_QUOTE_OK), StatusByte(r.pse == IAS_PSE_OK),
                  ATT_RESULT, ResultBody(cfg, db, r));
  }

  /** Safety over every run: when the last message 1 to get to the session record completed it, a
      result handed out answers a message 3 that carries the g_a of that message, a MAC under the
      smk of its session and a quote over its g_a, g_b and vk; the secret in it is encrypted under
      that session's sk, and only when both statuses are good.  What a result is about in the two
      remaining cases, no such message 1 and an incomplete one, is the subject of SpLimits. */
  lemma ResultBelongsToSession(cfg: Cfg, ss: seq<SpState>, es: seq<Event>, i: nat, j: nat)
    requires IsRun(cfg, ss, es) && j < |es| && SealKeepsLength(cfg.cr)
    requires LastTouch(ss, es, i, j) && Establishes(cfg, es[i].e1)
    requires es[j].Ev3? && OutAt(cfg, ss, es, j).ret == SP_OK
    ensures ResultJustified(cfg, SessionRecord(cfg, es[i], ss[j].db.psSecProp), es[j].msg, es[j].e3,
                            OutAt(cfg, ss, es, j).reply)
  {
    SessionCoherent(cfg, ss, es, i, j);
    assert StepOk(cfg, ss[j], es[j], ss[j + 1]);
    ResultIsJustified(cfg, ss[j], es[j].msg, es[j].e3);
  }

  /** The record that holds the session of a message 1 and its key pair. */
  function SessionRecord(cfg: Cfg, ev: Event, psSecProp: seq<byte>): Db
    requires ev.Ev1? && |ev.msg| >= 64
  {
    var gA, b := ev.msg[..64], ev.e1.priv;
    var ks := KeysOf(cfg.cr, cfg.form, cfg.cr.dh(b, gA));
    Db(gA, cfg.cr.pub(b), ks.vk, ks.mk, ks.sk, ks.smk, b, psSecProp)
  }
}
