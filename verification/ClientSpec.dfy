/** What one round of the client driver (isv_app.cpp) does, as functions: the stages of a round,
    each on the state of the service provider, the two retry counters and, once the round has
    gone to CLEANUP, the reason.  The class in IsvApp.dfy is proved against these functions. */
module ClientSpec {
  import opened Bytes
  import opened Crypto
  import opened Enclave
  import opened Layout
  import opened Network
  import opened SpSpec

  // ---------- retry loops ----------

  /** A call that answers "busy" (or "enclave lost") some times before its final status. */
  datatype Retried = Retried(times: nat, final: int)

  /** `while (busy && counter--)` leaves the loop with the call still busy. */
  predicate GivesUp(counter: int, times: nat) { 0 <= counter < times }

  function Tries(counter: int, times: nat): nat {
    if GivesUp(counter, times) then counter + 1 else times + 1
  }

  function CounterAfter(counter: int, times: nat): int {
    if GivesUp(counter, times) then -1 else counter - times
  }

  ghost predicate TriesAtMost(counter: int, bound: nat) {
    forall times: nat :: Tries(counter, times) <= bound
  }

  /** The counter bounds the number of tries exactly while it is not negative; a loop that gave up
      leaves -1 behind, and the counters are not set again for the second round. */
  lemma CounterBoundsExactly(counter: int)
    ensures (exists bound: nat :: TriesAtMost(counter, bound)) <==> counter >= 0
    ensures forall times: nat :: counter >= 0 ==> (CounterAfter(counter, times) < 0 <==> GivesUp(counter, times))
  {
    if counter >= 0 {
      assert TriesAtMost(counter, counter + 1);
    } else {
      forall bound: nat
        ensures !TriesAtMost(counter, bound)
      {
        assert Tries(counter, bound) > bound;
      }
    }
  }

  // ---------- the parameters of a round ----------

  /** Creating the enclave and its key context, repeated while the enclave is lost; the attempt
      with number createFails, counted from 0, cannot create the enclave. */
  datatype CreateEnv = CreateEnv(lost: nat, createFails: Option<nat>, initRet: int, initStatus: int)

  /** The results of all calls of one round; statuses are 0 for success. */
  datatype RoundEnv = RoundEnv(
    groupIdRet: int, groupId: nat, alloc0: bool, net0: NetEnv, selectRet: int,
    create: CreateEnv, alloc1: bool, getMsg1: Retried, msg1: seq<byte>, net1: NetEnv, allocSample2: bool,
    procMsg2: Retried, msg3: Option<seq<byte>>, allocSample3: bool, alloc3: bool, net3: NetEnv,
    macRet: int, mac: MacEnv, putRet: int, put: PutEnv, closeRet: int, closeStatus: int)

  /** The precomputed messages of verification mode. */
  datatype Samples = Samples(msg1: seq<byte>, msg2: seq<byte>, msg3: seq<byte>)

  /** A message 3 with a whole quote, small enough for a 32-bit size. */
  predicate WholeMsg3(m: seq<byte>) { MSG3 + QUOTE_READ <= |m| < UINT32_LIMIT }

  predicate WfEnv1(e: RoundEnv) { |e.msg1| == MSG1 && MSG2 + |e.net1.e1.sigrl| < UINT32_LIMIT }

  predicate WfEnv2(e: RoundEnv) { e.msg3.Some? ==> WholeMsg3(e.msg3.value) }

  predicate WfEnv3(e: RoundEnv) { WfMac(e.mac) && WfPut(e.put) }

  predicate WfEnv(e: RoundEnv) { e.groupId < UINT32_LIMIT && WfEnv1(e) && WfEnv2(e) && WfEnv3(e) }

  predicate WfSamples(s: Samples) {
    |s.msg1| == MSG1 && |s.msg2| >= HEADER + MSG2 && WholeMsg3(s.msg3)
  }

  /** What is fixed for a client: the service provider's configuration, verification mode (an
      argument was given) and the precomputed messages. */
  datatype Client = Client(cfg: Cfg, verifying: bool, samples: Samples)

  /** How a round left its main part: with an error the driver set, with the service provider's
      error code, on an unexpected response type, in verification mode, with a result that did not
      pass, with put_secret_data failing, or with the secret stored. */
  datatype End = Aborted | Refused(code: int) | WrongType | Skipped | NotPassed | PutFailed(ret: int) | Stored

  /** The value of `ret` at CLEANUP. */
  function BodyRet(end: End): int {
    match end
    case Aborted => -1
    case Refused(code) => code
    case PutFailed(ret) => ret
    case _ => 0
  }

  /** The round called put_secret_data. */
  predicate PutCalled(end: End) { end.PutFailed? || end == Stored }

  // ---------- fields of the attestation result ----------

  function ReadBlob(reply: seq<byte>): seq<byte>
    requires |reply| >= HEADER + ATT_RESULT
  {
    Get(reply[HEADER..], 0, BLOB)
  }

  function ReadMac(reply: seq<byte>): seq<byte>
    requires |reply| >= HEADER + ATT_RESULT
  {
    Get(reply[HEADER..], ATT_MAC, 16)
  }

  function ReadTag(reply: seq<byte>): B16
    requires |reply| >= HEADER + ATT_RESULT
  {
    Get(reply[HEADER..], ATT_TAG, 16)
  }

  function PayloadSize(reply: seq<byte>): nat
    requires |reply| >= HEADER + ATT_RESULT
  {
    FromLe(Get(reply[HEADER..], ATT_SECRET_SIZE, 4))
  }

  /** payload_size bytes of the payload. */
  function ReadPayload(reply: seq<byte>): seq<byte>
    requires |reply| >= HEADER + ATT_RESULT
  {
    var body := reply[HEADER..];
    if ATT_RESULT + PayloadSize(reply) <= |body| then Get(body, ATT_RESULT, PayloadSize(reply)) else []
  }

  // ---------- the stages ----------

  /** Where a round is: the provider, the retry counters of main, whether main has a key context
      (it is never forgotten again), and the exit once the round has gone to CLEANUP. */
  datatype Progress = Progress(s: SpState, lost: int, busy: int, context: bool, end: Option<End>)

  function Leave(p: Progress, end: End): Progress { p.(end := Some(end)) }

  function Asked0(cl: Client, p: Progress, e: RoundEnv): (r: Progress)
    requires Wf(cl.cfg, p.s)
    ensures Wf(cl.cfg, r.s)
  {
    var o := DoMsg0(cl.cfg, p.s, ToLe(e.groupId, 4), e.net0.e0);
    var p1 := p.(s := o.s);
    if o.ret != SP_OK then Leave(p1, Refused(o.ret))
    else if e.selectRet != 0 then Leave(p1, Aborted)
    else p1
  }

  function StageMsg0(cl: Client, p: Progress, e: RoundEnv): (r: Progress)
    requires Wf(cl.cfg, p.s)
    ensures Wf(cl.cfg, r.s)
  {
    if p.end.Some? then p
    else if !e.alloc0 then Leave(p, Aborted)
    else Asked0(cl, p, e)
  }

  function StageCreate(p: Progress, c: CreateEnv): Progress {
    if p.end.Some? then p
    else if c.createFails.Some? && c.createFails.value < Tries(p.lost, c.lost) then
      Leave(p.(lost := p.lost - c.createFails.value), Aborted)
    else
      var p1 := p.(lost := CounterAfter(p.lost, c.lost));
      if GivesUp(p.lost, c.lost) || c.initRet != 0 || c.initStatus != 0 then Leave(p1, Aborted)
      else p1.(context := true)
  }

  function Msg1Body(cl: Client, e: RoundEnv): seq<byte> { if cl.verifying then cl.samples.msg1 else e.msg1 }

  /** What becomes of the answer to message 1: its return value and, on success, its type.  In
      verification mode neither a failure nor a wrong type counts. */
  function Judged1(cl: Client, p: Progress, ret: int, ty: byte, e: RoundEnv): Progress {
    if ret != SP_OK then
      if !cl.verifying then Leave(p, Refused(ret)) else if e.allocSample2 then p else Leave(p, Aborted)
    else if ty != TYPE_RA_MSG2 && !cl.verifying then Leave(p, WrongType)
    else p
  }

  function Answered1(cl: Client, p: Progress, e: RoundEnv): (r: Progress)
    requires Wf(cl.cfg, p.s)
    ensures Wf(cl.cfg, r.s)
  {
    var o := DoMsg1(cl.cfg, p.s, Msg1Body(cl, e), e.net1.e1);
    Judged1(cl, p.(s := o.s), o.ret, if o.ret == SP_OK then o.reply[0] else 0, e)
  }

  function StageMsg1(cl: Client, p: Progress, e: RoundEnv): (r: Progress)
    requires Wf(cl.cfg, p.s)
    ensures Wf(cl.cfg, r.s)
  {
    if p.end.Some? then p
    else if !e.alloc1 then Leave(p, Aborted)
    else
      var p1 := p.(busy := CounterAfter(p.busy, e.getMsg1.times));
      if GivesUp(p.busy, e.getMsg1.times) || e.getMsg1.final != 0 then Leave(p1, Aborted)
      else Answered1(cl, p1, e)
  }

  function StageMsg2(cl: Client, p: Progress, e: RoundEnv): Progress {
    if p.end.Some? then p
    else if cl.verifying then (if e.allocSample3 then p else Leave(p, Aborted))
    else
      var p1 := p.(busy := CounterAfter(2, e.procMsg2.times));
      if e.msg3.None? || GivesUp(2, e.procMsg2.times) || e.procMsg2.final != 0 then Leave(p1, Aborted) else p1
  }

  /** The message 3 there is after a stage 2 that did not leave. */
  predicate HasMsg3(cl: Client, e: RoundEnv) {
    if cl.verifying then WholeMsg3(cl.samples.msg3) else e.msg3.Some? && WholeMsg3(e.msg3.value)
  }

  function Msg3Body(cl: Client, e: RoundEnv): (m: seq<byte>)
    requires HasMsg3(cl, e)
    ensures WholeMsg3(m)
  {
    if cl.verifying then cl.samples.msg3 else e.msg3.value
  }

  function ResultEnd(cr: Crypto, reply: seq<byte>, e: RoundEnv): End
    requires |reply| >= HEADER + ATT_RESULT
  {
    if e.macRet != 0 || !MacMatches(cr, e.mac, ReadBlob(reply), ReadMac(reply)) then Aborted
    else if reply[1] != 0 || reply[2] != 0 then NotPassed
    else if e.putRet != 0 || !PutSucceeds(cr, e.put, ReadPayload(reply), ReadTag(reply)) then PutFailed(e.putRet)
    else Stored
  }

  function StageMsg3(cl: Client, p: Progress, e: RoundEnv): (r: Progress)
    requires Wf(cl.cfg, p.s) && (p.end.None? ==> HasMsg3(cl, e))
    ensures r.end.Some? && Wf(cl.cfg, r.s)
  {
    if p.end.Some? then p
    else if !e.alloc3 then Leave(p, Aborted)
    else
      var o := DoMsg3(cl.cfg, p.s, Msg3Body(cl, e), e.net3.e3);
      var p1 := p.(s := o.s);
      if o.ret != SP_OK || o.reply[0] != TYPE_RA_ATT_RESULT then Leave(p1, Aborted)
      else if cl.verifying then Leave(p1, Skipped)
      else Leave(p1, ResultEnd(cl.cfg.cr, o.reply, e))
  }

  /** The last stage once the result is there. */
  lemma Decided(cl: Client, p: Progress, e: RoundEnv)
    requires Wf(cl.cfg, p.s) && p.end.None? && HasMsg3(cl, e) && e.alloc3
    requires var o := DoMsg3(cl.cfg, p.s, Msg3Body(cl, e), e.net3.e3);
      o.ret == SP_OK && o.reply[0] == TYPE_RA_ATT_RESULT
    ensures var o := DoMsg3(cl.cfg, p.s, Msg3Body(cl, e), e.net3.e3);
      StageMsg3(cl, p, e) ==
        Leave(p.(s := o.s), if cl.verifying then Skipped else ResultEnd(cl.cfg.cr, o.reply, e))
  {}

  /** A round between the extended group id and CLEANUP. */
  function RoundOutcome(cl: Client, p: Progress, e: RoundEnv): (r: Progress)
    requires Wf(cl.cfg, p.s) && p.end.None? && WfEnv(e) && WfSamples(cl.samples)
    ensures r.end.Some? && Wf(cl.cfg, r.s)
  {
    var p0 := StageMsg0(cl, p, e);
    var p1 := StageMsg1(cl, StageCreate(p0, e.create), e);
    StageMsg3(cl, StageMsg2(cl, p1, e), e)
  }

  /** What a round leaves for the next one; without the extended group id it does nothing. */
  function AfterRound(cl: Client, p: Progress, e: RoundEnv): (r: Progress)
    requires Wf(cl.cfg, p.s) && p.end.None? && WfEnv(e) && WfSamples(cl.samples)
    ensures r.end.None? && Wf(cl.cfg, r.s)
  {
    if e.groupIdRet != 0 then p else RoundOutcome(cl, p, e).(end := None)
  }

  /** Both rounds; main returns at once when a round cannot get the extended group id. */
  function MainOutcome(cl: Client, p: Progress, e1: RoundEnv, e2: RoundEnv): Progress
    requires Wf(cl.cfg, p.s) && p.end.None? && WfEnv(e1) && WfEnv(e2) && WfSamples(cl.samples)
  {
    if e1.groupIdRet != 0 then p else AfterRound(cl, AfterRound(cl, p, e1), e2)
  }

  /** Closing the key context succeeds, or there is none to close. */
  predicate Closes(p: Progress, e: RoundEnv) { !p.context || (e.closeRet == 0 && e.closeStatus == 0) }

  /** The value of `ret` after a round. */
  function RoundRet(cl: Client, p: Progress, e: RoundEnv): int
    requires Wf(cl.cfg, p.s) && p.end.None? && WfEnv(e) && WfSamples(cl.samples)
  {
    if e.groupIdRet != 0 then -1
    else
      var r := RoundOutcome(cl, p, e);
      if Closes(r, e) then BodyRet(r.end.value) else -1
  }

  /** How often a round calls put_secret_data. */
  function RoundPuts(cl: Client, p: Progress, e: RoundEnv): nat
    requires Wf(cl.cfg, p.s) && p.end.None? && WfEnv(e) && WfSamples(cl.samples)
  {
    if e.groupIdRet == 0 && PutCalled(RoundOutcome(cl, p, e).end.value) then 1 else 0
  }

  function MainRet(cl: Client, p: Progress, e1: RoundEnv, e2: RoundEnv): int
    requires Wf(cl.cfg, p.s) && p.end.None? && WfEnv(e1) && WfEnv(e2) && WfSamples(cl.samples)
  {
    if e1.groupIdRet != 0 then -1 else RoundRet(cl, AfterRound(cl, p, e1), e2)
  }

  function MainPuts(cl: Client, p: Progress, e1: RoundEnv, e2: RoundEnv): nat
    requires Wf(cl.cfg, p.s) && p.end.None? && WfEnv(e1) && WfEnv(e2) && WfSamples(cl.samples)
  {
    if e1.groupIdRet != 0 then 0 else RoundPuts(cl, p, e1) + RoundPuts(cl, AfterRound(cl, p, e1), e2)
  }

  /** main, with its retry counters set and the provider in state s, leaves the provider in state
      s', returns ret and called put_secret_data `puts` times. */
  predicate MainLeaves(cl: Client, s: SpState, e1: RoundEnv, e2: RoundEnv, s': SpState, ret: int, puts: nat)
    requires Wf(cl.cfg, s) && WfEnv(e1) && WfEnv(e2) && WfSamples(cl.samples)
  {
    var p := Progress(s, 1, 4, false, None);
    && s' == MainOutcome(cl, p, e1, e2).s
    && ret == MainRet(cl, p, e1, e2) && puts == MainPuts(cl, p, e1, e2)
  }
}
