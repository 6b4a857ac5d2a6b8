/** The whole protocol: an honest client that runs messages 0, 1 and 3 gets the secret, whatever
    other requests reach the service provider in between. */
module Completeness {
  import opened Bytes
  import opened ClientSpec
  import opened Crypto
  import opened Enclave
  import opened Kdf
  import opened Layout
  import opened SpRuns
  import opened SpSpec

  /** No call that message 0 makes fails. */
  predicate Good0(e: Msg0Env) { e.enroll == 0 && e.alloc }

  predicate Good1(cfg: Cfg, e: Msg1Env) {
    e.sigrlRet == 0 && Establishes(cfg, e) && e.alloc && e.sign && e.cmac && MSG2 + |e.sigrl| < UINT32_LIMIT
  }

  predicate Good3(e: Msg3Env) {
    e.cmac && e.sha.Ok() && e.ias == 0 && e.alloc && e.cmac2 && e.gcm == 0 && PassedAttestation(e.report)
  }

  /** Message 1 of a client with private key a. */
  function ClientMsg1(cr: Crypto, a: B32, gid: seq<byte>): seq<byte> { cr.pub(a) + gid }

  /** g_b and the key derivation id as the client reads them from the response. */
  function ReadGb(reply: seq<byte>): B64
    requires |reply| >= HEADER + MSG2
  {
    Get(reply[HEADER..], 0, 64)
  }

  function ReadKdfId(reply: seq<byte>): nat
    requires |reply| >= HEADER + MSG2
  {
    FromLe(Get(reply[HEADER..], MSG2_KDF_ID, 2))
  }

  /** The keys the client's enclave derives from message 2. */
  function ClientKeys(cr: Crypto, form: Form, a: B32, reply: seq<byte>): Keys
    requires |reply| >= HEADER + MSG2
  {
    KeysOf(cr, form, cr.dh(a, ReadGb(reply)))
  }

  /** A quote around the given report data; head and tail are whatever the platform puts there. */
  function Quote(head: seq<byte>, reportData: seq<byte>, tail: seq<byte>): seq<byte> { head + reportData + tail }

  function ClientQuote(cr: Crypto, form: Form, a: B32, reply: seq<byte>, head: seq<byte>, tail: seq<byte>): seq<byte>
    requires |reply| >= HEADER + MSG2
  {
    Quote(head, cr.sha256(cr.pub(a) + ReadGb(reply) + ClientKeys(cr, form, a, reply).vk) + Zeros(32), tail)
  }

  /** Message 3 of the honest client: mac_smk(g_a || ps_sec_prop || quote) and what it covers. */
  function ClientMsg3(cr: Crypto, form: Form, a: B32, reply: seq<byte>,
                      ps: seq<byte>, head: seq<byte>, tail: seq<byte>): seq<byte>
    requires |reply| >= HEADER + MSG2
  {
    var maced := Msg3Maced(cr.pub(a), ps, ClientQuote(cr, form, a, reply, head, tail));
    Msg3(cr.cmac(ClientKeys(cr, form, a, reply).smk, maced), maced)
  }

  /** Message 0 for a known group registers and keeps the provider registered. */
  lemma Msg0Registers(cfg: Cfg, s: SpState, id: nat, e: Msg0Env)
    requires Wf(cfg, s) && id in cfg.table && id < UINT32_LIMIT && Good0(e)
    ensures var o := DoMsg0(cfg, s, ToLe(id, 4), e); o.ret == SP_OK && o.s.registered
  {
    U32RoundTrip(id);
    OkMsg0Registers(cfg, s, ToLe(id, 4), e);
  }

  /** Both sides hold the same keys once the client has message 2. */
  lemma SameKeys(cfg: Cfg, s: SpState, a: B32, gid: seq<byte>, e: Msg1Env)
    requires s.registered && |gid| == 4 && Good1(cfg, e) && DhCommutes(cfg.cr)
    ensures var o := DoMsg1(cfg, s, ClientMsg1(cfg.cr, a, gid), e);
      && o.ret == SP_OK && |o.reply| >= HEADER + MSG2
      && ReadGb(o.reply) == cfg.cr.pub(e.priv)
      && ReadKdfId(o.reply) == KdfId(cfg.form)
      && SessionOf(cfg, o.s.db, cfg.cr.pub(a), e.priv)
      && ClientKeys(cfg.cr, cfg.form, a, o.reply) == Keys(o.s.db.smk, o.s.db.sk, o.s.db.mk, o.s.db.vk)
  {
    var msg := ClientMsg1(cfg.cr, a, gid);
    assert msg[..64] == cfg.cr.pub(a);
    Msg2Content(cfg, s, msg, e);
    Msg1Establishes(cfg, s, msg, e);
    assert cfg.cr.dh(a, cfg.cr.pub(e.priv)) == cfg.cr.dh(e.priv, cfg.cr.pub(a));
  }

  /** The service provider accepts the honest message 3 in the client's session. */
  lemma Msg3Accepted(cfg: Cfg, s: SpState, a: B32, b: B32, reply2: seq<byte>,
                     ps: seq<byte>, head: seq<byte>, tail: seq<byte>, e: Msg3Env)
    requires s.registered && SessionOf(cfg, s.db, cfg.cr.pub(a), b) && DhCommutes(cfg.cr)
    requires |reply2| >= HEADER + MSG2 && ReadGb(reply2) == cfg.cr.pub(b)
    requires |ps| == 256 && |head| == QUOTE_BODY + BODY_REPORT_DATA && Good3(e)
    ensures var msg := ClientMsg3(cfg.cr, cfg.form, a, reply2, ps, head, tail);
      QuoteReadable(cfg, s, msg, e) && DoMsg3(cfg, s, msg, e).ret == SP_OK
  {
    assert cfg.cr.dh(a, cfg.cr.pub(b)) == cfg.cr.dh(b, cfg.cr.pub(a));
    var ks := ClientKeys(cfg.cr, cfg.form, a, reply2);
    var quote := ClientQuote(cfg.cr, cfg.form, a, reply2, head, tail);
    var maced := Msg3Maced(cfg.cr.pub(a), ps, quote);
    var msg := ClientMsg3(cfg.cr, cfg.form, a, reply2, ps, head, tail);
    Msg3Reads(cfg.cr.cmac(ks.smk, maced), cfg.cr.pub(a), ps, quote);
    assert Get(msg, MSG3 + |head|, 64) == Get(msg[MSG3..], |head|, 64) == Get(quote, |head|, 64);
    assert Get(quote, |head|, 64) == ReportData(cfg, s.db);
  }

  /** The result carries the secret for whoever holds the session's keys. */
  lemma ResultReadable(cfg: Cfg, s: SpState, msg: seq<byte>, e: Msg3Env)
    requires QuoteReadable(cfg, s, msg, e) && DoMsg3(cfg, s, msg, e).ret == SP_OK
    requires PassedAttestation(e.report) && GcmRoundTrip(cfg.cr) && SealKeepsLength(cfg.cr)
    ensures var reply := DoMsg3(cfg, s, msg, e).reply;
      && |reply| == HEADER + ATT_RESULT + |SECRET|
      && reply[0] == TYPE_RA_ATT_RESULT && reply[1] == 0 && reply[2] == 0
      && cfg.cr.cmac(s.db.mk, ReadBlob(reply)) == ReadMac(reply)
      && |ReadPayload(reply)| == 8
      && cfg.cr.unseal(s.db.sk, ReadPayload(reply), ReadTag(reply)) == Some(SECRET)
  {
    ResultIsJustified(cfg, s, msg, e);
    var reply := DoMsg3(cfg, s, msg, e).reply;
    var body := reply[HEADER..];
    assert ReadBlob(reply) == body[..BLOB];
    assert ReadPayload(reply) == body[ATT_RESULT..];
  }

  /** An honest client among other requests: in a run it sends message 0 for group 0 (event i0),
      message 1 (i1) and, from the answer, message 3 (i3), and no call made for these three fails.
      Other requests, good or bad, may come in between; only another message 1 may not get to the
      session record between the client's last two. */
  ghost predicate HonestRun(cfg: Cfg, ss: seq<SpState>, es: seq<Event>, i0: nat, i1: nat, i3: nat,
                            a: B32, gid: seq<byte>, ps: seq<byte>, head: seq<byte>, tail: seq<byte>)
  {
    && IsRun(cfg, ss, es) && i0 < i1 < i3 < |es| && 0 in cfg.table
    && |gid| == 4 && |ps| == 256 && |head| == QUOTE_BODY + BODY_REPORT_DATA
    && es[i0].Ev0? && es[i0].msg == ToLe(0, 4) && Good0(es[i0].e0)
    && es[i1].Ev1? && es[i1].msg == ClientMsg1(cfg.cr, a, gid) && Good1(cfg, es[i1].e1)
    && (forall k :: i1 < k < i3 ==> !TouchesSession(ss[k], es[k]))
    && es[i3].Ev3? && Good3(es[i3].e3)
    && var reply := OutAt(cfg, ss, es, i1).reply;
       |reply| >= HEADER + MSG2 ==> es[i3].msg == ClientMsg3(cfg.cr, cfg.form, a, reply, ps, head, tail)
  }

  /** Completeness: all three messages are answered with SP_OK, the result has both status bytes
      zero, and with the client's keys its MAC verifies and its payload opens to the secret. */
  lemma HonestClientGetsSecret(cfg: Cfg, ss: seq<SpState>, es: seq<Event>, i0: nat, i1: nat, i3: nat,
                               a: B32, gid: seq<byte>, ps: seq<byte>, head: seq<byte>, tail: seq<byte>)
    requires HonestRun(cfg, ss, es, i0, i1, i3, a, gid, ps, head, tail)
    requires DhCommutes(cfg.cr) && GcmRoundTrip(cfg.cr) && SealKeepsLength(cfg.cr)
    ensures OutAt(cfg, ss, es, i0).ret == SP_OK && OutAt(cfg, ss, es, i1).ret == SP_OK
    ensures |OutAt(cfg, ss, es, i1).reply| >= HEADER + MSG2
    ensures ReadKdfId(OutAt(cfg, ss, es, i1).reply) == KdfId(cfg.form)
    ensures OutAt(cfg, ss, es, i3).ret == SP_OK
    ensures var reply := OutAt(cfg, ss, es, i3).reply;
      var ks := ClientKeys(cfg.cr, cfg.form, a, OutAt(cfg, ss, es, i1).reply);
      && |reply| == HEADER + ATT_RESULT + |SECRET|
      && reply[0] == TYPE_RA_ATT_RESULT && reply[1] == 0 && reply[2] == 0
      && cfg.cr.cmac(ks.mk, ReadBlob(reply)) == ReadMac(reply)
      && |ReadPayload(reply)| == 8
      && cfg.cr.unseal(ks.sk, ReadPayload(reply), ReadTag(reply)) == Some(SECRET)
  {
    assert StepOk(cfg, ss[i0], es[i0], ss[i0 + 1]);
    Msg0Registers(cfg, ss[i0], 0, es[i0].e0);
    Registration(cfg, ss, es, i0 + 1, i1);
    Registration(cfg, ss, es, i0 + 1, i3);
    assert StepOk(cfg, ss[i1], es[i1], ss[i1 + 1]);
    SameKeys(cfg, ss[i1], a, gid, es[i1].e1);
    var b := es[i1].e1.priv;
    SessionKept(cfg, ss, es, i1 + 1, i3, cfg.cr.pub(a), b);
    assert StepOk(cfg, ss[i3], es[i3], ss[i3 + 1]);
    Msg3Accepted(cfg, ss[i3], a, b, OutAt(cfg, ss, es, i1).reply, ps, head, tail, es[i3].e3);
    ResultReadable(cfg, ss[i3], es[i3].msg, es[i3].e3);
  }

  /** The enclave accepts a result that its keys fit. */
  lemma EnclaveAccepts(cr: Crypto, mk: B16, sk: B16, reply: seq<byte>, junk: seq<byte>)
    requires |reply| >= HEADER + ATT_RESULT && cr.cmac(mk, ReadBlob(reply)) == ReadMac(reply)
    requires |ReadPayload(reply)| == 8 && cr.unseal(sk, ReadPayload(reply), ReadTag(reply)) == Some(SECRET)
    ensures MacMatches(cr, MacEnv(Key(mk), Success), ReadBlob(reply), ReadMac(reply))
    ensures PutSucceeds(cr, PutEnv(Key(sk), Success, junk), ReadPayload(reply), ReadTag(reply))
  {}

  /** The client's enclave in such a run, with the two-key derivation: its keys come from
      key_derivation on its own shared secret and the key derivation id in message 2; with them
      verify_att_result_mac and put_secret_data succeed on the result, and g_secret holds the
      service provider's secret. */
  method EnclaveStoresSecret(enc: Enclave, a: B32, e0: ShaEnv, e1: ShaEnv, keys0: Keys,
                             reply2: seq<byte>, reply3: seq<byte>, junk: seq<byte>,
                             ghost cfg: Cfg, ghost ss: seq<SpState>, ghost es: seq<Event>,
                             ghost i0: nat, ghost i1: nat, ghost i3: nat, ghost gid: seq<byte>,
                             ghost ps: seq<byte>, ghost head: seq<byte>, ghost tail: seq<byte>)
    returns (verified: Status, stored: Status)
    requires |enc.secret| == 8 && UnsealKeepsLength(enc.cr) && |junk| == 8 && e0.Ok() && e1.Ok()
    requires cfg.form == Supplied && cfg.cr == enc.cr
    requires DhCommutes(cfg.cr) && GcmRoundTrip(cfg.cr) && SealKeepsLength(cfg.cr)
    requires HonestRun(cfg, ss, es, i0, i1, i3, a, gid, ps, head, tail)
    requires reply2 == OutAt(cfg, ss, es, i1).reply && reply3 == OutAt(cfg, ss, es, i3).reply
    modifies enc
    ensures verified == Success && stored == Success && enc.secret == SECRET
  {
    HonestClientGetsSecret(cfg, ss, es, i0, i1, i3, a, gid, ps, head, tail);
    var shared := enc.cr.dh(a, ReadGb(reply2));
    var r, keys := KeyDerivation(enc.cr, Some(shared), ReadKdfId(reply2), e0, e1, keys0);
    assert keys == ClientKeys(enc.cr, Supplied, a, reply2);
    EnclaveAccepts(enc.cr, keys.mk, keys.sk, reply3, junk);
    verified := enc.VerifyAttResultMac(MacEnv(Key(keys.mk), Success), ReadBlob(reply3), ReadMac(reply3));
    stored := enc.PutSecretData(PutEnv(Key(keys.sk), Success, junk), ReadPayload(reply3), ReadTag(reply3));
  }
}
