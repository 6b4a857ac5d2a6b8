/** The client driver (isv_app.cpp): two rounds of messages 0, 1 and 3 with their exits to
    CLEANUP, the retry counters, and the buffers that each path allocates and frees.  The seven
    pointers of main are kept in a map by name; a NULL pointer is a name without an entry. */
module IsvApp {
  import opened Bytes
  import opened ClientSpec
  import opened Crypto
  import opened Enclave
  import opened Layout
  import opened Memory
  import opened Network
  import opened ServiceProvider
  import opened SpRuns
  import opened SpSpec

  // ---------- retry loops ----------

  method Retry(counter: int, r: Retried) returns (counter': int, busy: bool, tries: nat)
    ensures busy <==> 0 <= counter < r.times
    ensures tries == if busy then counter + 1 else r.times + 1
    ensures counter' == if busy then -1 else counter - r.times
  {
    counter', tries := counter, 0;
    while true
      invariant counter' == counter - tries && tries <= r.times
      invariant counter >= 0 ==> tries <= counter
      decreases r.times - tries
    {
      tries := tries + 1;
      busy := tries <= r.times;
      if !busy { break; }
      var again := counter' != 0;
      counter' := counter' - 1;
      if !again { break; }
    }
  }

  // ---------- buffers and requests ----------

  datatype Name = Msg0Full | Msg0Resp | Msg1Full | Msg2Full | Msg3Raw | Msg3Full | AttResultFull

  /** A request buffer; the padding of its header is never written. */
  predicate IsRequest(r: seq<byte>, ty: byte, body: seq<byte>) {
    |r| == HEADER + |body| && r[0] == ty && Get(r, 1, 4) == ToLe(|body|, 4) && r[HEADER..] == body
  }

  /** What the client relies on in a response to a request of the given type. */
  predicate ResponseShape(ty: byte, r: seq<byte>) {
    && |r| >= HEADER
    && (ty == TYPE_RA_MSG1 ==> |r| >= HEADER + MSG2)
    && (ty == TYPE_RA_MSG3 ==>
         |r| == HEADER + ATT_RESULT + |SECRET| && PayloadSize(r) == |SECRET|)
  }

  /** A call of put_secret_data: on which result, in which mode, and the key its MAC was checked
      with. */
  datatype PutCall = PutCall(verifying: bool, result: seq<byte>, mk: KeyReply)

  /** The gate in front of put_secret_data. */
  predicate Gated(cr: Crypto, p: PutCall) {
    && !p.verifying && |p.result| >= HEADER + ATT_RESULT
    && p.result[0] == TYPE_RA_ATT_RESULT && p.result[1] == 0 && p.result[2] == 0
    && p.mk.Key? && cr.cmac(p.mk.key, ReadBlob(p.result)) == ReadMac(p.result)
  }

  /** Every call went through the gate, in the mode the client runs in; so there is none in
      verification mode. */
  ghost predicate AllGated(cr: Crypto, verifying: bool, puts: seq<PutCall>) {
    forall i :: 0 <= i < |puts| ==> Gated(cr, puts[i]) && puts[i].verifying == verifying
  }

  lemma RequestStored(s: seq<byte>, ty: byte, body: seq<byte>)
    requires |s| == HEADER + |body| && s[0] == ty
    ensures IsRequest(Put(Put(s, 1, ToLe(|body|, 4)), HEADER, body), ty, body)
  {
    var sized := Put(s, 1, ToLe(|body|, 4));
    GetPutSame(s, 1, ToLe(|body|, 4));
    GetPutOther(sized, HEADER, body, 1, 4);
  }

  function EventFor(ty: byte, body: seq<byte>, e: NetEnv): Event {
    if ty == TYPE_RA_MSG0 then Ev0(body, e.e0) else if ty == TYPE_RA_MSG1 then Ev1(body, e.e1) else Ev3(body, e.e3)
  }

  predicate Sendable(ty: byte, body: seq<byte>, e: NetEnv) {
    && ty in {TYPE_RA_MSG0, TYPE_RA_MSG1, TYPE_RA_MSG3} && |body| < UINT32_LIMIT
    && (ty == TYPE_RA_MSG1 ==> MSG2 + |e.e1.sigrl| < UINT32_LIMIT)
    && (ty == TYPE_RA_MSG3 ==> WholeMsg3(body))
  }

  lemma RequestEvent(r: seq<byte>, ty: byte, body: seq<byte>, e: NetEnv)
    requires IsRequest(r, ty, body) && Sendable(ty, body, e)
    ensures WfRequest(r) && EventOf(r, e) == Some(EventFor(ty, body, e))
  {
    U32RoundTrip(|body|);
    assert r[HEADER..HEADER + |body|] == r[HEADER..];
  }

  lemma Shapes(cfg: Cfg, s: SpState, ty: byte, body: seq<byte>, e: NetEnv)
    requires Wf(cfg, s) && Sendable(ty, body, e) && SealKeepsLength(cfg.cr)
    ensures Legal(cfg, s, EventFor(ty, body, e))
    ensures Apply(cfg, s, EventFor(ty, body, e)).ret == SP_OK ==>
      ResponseShape(ty, Apply(cfg, s, EventFor(ty, body, e)).reply)
  {
    if ty == TYPE_RA_MSG3 && DoMsg3(cfg, s, body, e.e3).ret == SP_OK {
      ResultIsJustified(cfg, s, body, e.e3);
    }
  }

  /** No two pointers refer to the same buffer. */
  ghost predicate Distinct(ptr: map<Name, array<byte>>) {
    forall a, b :: a in ptr && b in ptr && a != b ==> ptr[a] != ptr[b]
  }

  /** The pointers are distinct, and they are exactly what is outstanding besides base. */
  ghost predicate Owns(ptr: map<Name, array<byte>>, base: set<array<byte>>, live: set<array<byte>>) {
    Distinct(ptr) && live == base + ptr.Values && base !! ptr.Values
  }

  lemma OwnsLess(ptr: map<Name, array<byte>>, base: set<array<byte>>, live: set<array<byte>>, n: Name)
    requires Owns(ptr, base, live) && n in ptr
    ensures ptr[n] in live && Owns(ptr - {n}, base, live - {ptr[n]})
  {
    var rest := ptr - {n};
    forall p ensures p in rest.Values <==> p in ptr.Values - {ptr[n]}
    {
      if p in rest.Values {
        var a :| a in rest && rest[a] == p;
        assert ptr[a] == p;
      }
      if p in ptr.Values && p != ptr[n] {
        var a :| a in ptr && ptr[a] == p;
        assert a in rest && rest[a] == p;
      }
    }
    assert rest.Values == ptr.Values - {ptr[n]};
  }

  lemma OwnsMore(ptr: map<Name, array<byte>>, base: set<array<byte>>, live: set<array<byte>>, n: Name, p: array<byte>)
    requires Owns(ptr, base, live) && n !in ptr && p !in live
    ensures Owns(ptr[n := p], base, live + {p})
  {
    var more := ptr[n := p];
    forall q ensures q in more.Values <==> q in ptr.Values + {p}
    {
      if q in more.Values {
        var a :| a in more && more[a] == q;
        assert a == n || (a in ptr && ptr[a] == q);
      }
      if q in ptr.Values {
        var a :| a in ptr && ptr[a] == q;
        assert a in more && more[a] == q;
      }
      assert n in more && more[n] == p;
    }
    assert more.Values == ptr.Values + {p};
    forall a, b | a in more && b in more && a != b
      ensures more[a] != more[b]
    {
      assert a != n ==> ptr[a] in ptr.Values;
      assert b != n ==> ptr[b] in ptr.Values;
    }
  }

  class IsvApp {
    const heap: Heap
    const sp: ServiceProvider
    const verifying: bool
    const samples: Samples
    /** The buffers outstanding when main starts. */
    ghost const base: set<array<byte>>

    var ptr: map<Name, array<byte>>
    var ret: int
    var hasContext: bool
    var lostRetry: int
    var busyRetry: int
    var enclave: Enclave
    ghost var puts: seq<PutCall>
    ghost var end: End

    constructor (sp: ServiceProvider, verifying: bool, samples: Samples)
      requires sp.Valid() && WfSamples(samples) && SealKeepsLength(sp.cfg.cr) && UnsealKeepsLength(sp.cfg.cr)
      ensures Valid() && this.sp == sp && this.verifying == verifying
      ensures ptr == map[] && base == sp.heap.live && puts == []
      ensures Me() == Client(sp.cfg, verifying, samples) && Now(true) == Progress(sp.View(), 1, 4, false, None)
      ensures fresh(enclave)
    {
      heap := sp.heap;
      this.sp := sp;
      this.verifying := verifying;
      this.samples := samples;
      base := sp.heap.live;
      ptr, ret, hasContext, lostRetry, busyRetry := map[], 0, false, 1, 4;
      enclave := new Enclave(sp.cfg.cr);
      puts := [];
      end := Aborted;
    }

    ghost predicate Valid()
      reads this`ptr, this`puts, this`enclave, heap`live, sp
    {
      && sp.Valid() && sp.heap == heap && WfSamples(samples)
      && SealKeepsLength(sp.cfg.cr) && UnsealKeepsLength(sp.cfg.cr) && enclave.cr == sp.cfg.cr
      && Owns(ptr, base, heap.live)
      && AllGated(sp.cfg.cr, verifying, puts)
    }

    method Allocate(n: Name, size: nat, ok: bool) returns (p: array?<byte>)
      requires Valid() && n !in ptr
      modifies this`ptr, heap
      ensures Valid() && heap.contexts == old(heap.contexts)
      ensures p == null <==> !ok
      ensures p != null ==> fresh(p) && p.Length == size && ptr == old(ptr)[n := p]
      ensures p == null ==> ptr == old(ptr)
    {
      p := heap.Malloc(size, ok);
      if p != null {
        OwnsMore(ptr, base, old(heap.live), n, p);
        ptr := ptr[n := p];
      }
    }

    /** Fills a request buffer: type, size and body. */
    static method WriteRequest(p: array<byte>, ty: byte, body: seq<byte>)
      requires p.Length == HEADER + |body|
      modifies p
      ensures IsRequest(p[..], ty, body)
    {
      p[0] := ty;
      ghost var s := p[..];
      var err := MemcpyS(p, 1, 4, ToLe(|body|, 4));
      err := MemcpyS(p, HEADER, |body|, body);
      RequestStored(s, ty, body);
    }

    /** ra_network_send_receive with the request p and the NULL pointer `resp`. */
    method Send(p: array<byte>, resp: Name, ty: byte, body: seq<byte>, e: NetEnv) returns (r: int)
      requires Valid() && resp !in ptr && Sendable(ty, body, e) && IsRequest(p[..], ty, body)
      modifies this`ptr, heap, sp
      ensures Valid() && heap.contexts == old(heap.contexts)
      ensures Sent(old(sp.View()), EventFor(ty, body, e), r)
      ensures r != 0 ==> ptr == old(ptr)
      ensures r == 0 ==> resp in ptr && ptr == old(ptr)[resp := ptr[resp]] && ResponseShape(ty, ptr[resp][..])
      ensures r == 0 ==> ptr[resp][..] == Apply(sp.cfg, old(sp.View()), EventFor(ty, body, e)).reply
    {
      RequestEvent(p[..], ty, body, e);
      Shapes(sp.cfg, sp.View(), ty, body, e);
      var slot;
      r, slot := SendReceive(sp, Some("http://SampleServiceProvider.intel.com/"), p, Some(null), e);
      if r == 0 {
        OwnsMore(ptr, base, old(heap.live), resp, slot.value);
        ptr := ptr[resp := slot.value];
      }
    }

    /** The provider has handled ev, which it got in state s, and returned r. */
    ghost predicate Sent(s: SpState, ev: Event, r: int)
      reads sp
    {
      && Wf(sp.cfg, s) && Legal(sp.cfg, s, ev)
      && sp.View() == Apply(sp.cfg, s, ev).s && r == Apply(sp.cfg, s, ev).ret
    }

    /** Fills the request p and sends it. */
    method Exchange(p: array<byte>, resp: Name, ty: byte, body: seq<byte>, e: NetEnv) returns (r: int)
      requires Valid() && resp !in ptr && p.Length == HEADER + |body| && Sendable(ty, body, e)
      modifies this`ptr, heap, sp, p
      ensures Valid() && heap.contexts == old(heap.contexts)
      ensures Sent(old(sp.View()), EventFor(ty, body, e), r)
      ensures r != 0 ==> ptr == old(ptr)
      ensures r == 0 ==> resp in ptr && ptr == old(ptr)[resp := ptr[resp]] && ResponseShape(ty, ptr[resp][..])
      ensures r == 0 ==> ptr[resp][..] == Apply(sp.cfg, old(sp.View()), EventFor(ty, body, e)).reply
    {
      WriteRequest(p, ty, body);
      r := Send(p, resp, ty, body, e);
    }

    /** Frees a buffer and resets its pointer; does nothing for a NULL pointer.  Responses go through
        ra_free_network_response_buffer, requests through SAFE_FREE, to the same effect. */
    method Release(n: Name)
      requires Valid()
      modifies this`ptr, heap
      ensures Valid() && heap.contexts == old(heap.contexts) && ptr == old(ptr) - {n}
    {
      if n in ptr {
        OwnsLess(ptr, base, heap.live, n);
        FreeResponse(heap, ptr[n]);
        ptr := ptr - {n};
      } else {
        assert ptr - {n} == ptr;
      }
    }

    /** The pointers that are still NULL in the course of a round. */
    predicate NoMsg1()
      reads this`ptr
    {
      Msg1Full !in ptr && Msg2Full !in ptr && NoMsg3()
    }

    predicate NoMsg3()
      reads this`ptr
    {
      Msg3Raw !in ptr && NoResult()
    }

    predicate NoResult()
      reads this`ptr
    {
      Msg3Full !in ptr && AttResultFull !in ptr
    }

    // ---------- the parts of a round; false stands for goto CLEANUP ----------

    function Me(): Client { Client(sp.cfg, verifying, samples) }

    /** Where the round is: still going, or on its way to CLEANUP. */
    ghost function Now(go: bool): Progress
      reads this`lostRetry, this`busyRetry, this`hasContext, this`end, sp
    {
      Progress(sp.View(), lostRetry, busyRetry, hasContext, if go then None else Some(end))
    }

    method RoundMsg0(e: RoundEnv) returns (go: bool)
      requires Valid() && ptr == map[] && e.groupId < UINT32_LIMIT
      modifies this`ptr, this`ret, this`end, heap, sp
      ensures Valid() && heap.contexts == old(heap.contexts) && NoMsg1()
      ensures Now(go) == StageMsg0(Me(), old(Now(true)), e)
      ensures !go ==> ret == BodyRet(end) && !PutCalled(end)
    {
      go, end := false, Aborted;
      var p := Allocate(Msg0Full, HEADER + 4, e.alloc0);
      if p == null { ret := -1; return; }
      go := AskMsg0(p, e);
    }

    method AskMsg0(p: array<byte>, e: RoundEnv) returns (go: bool)
      requires Valid() && Msg0Resp !in ptr && NoMsg1() && e.groupId < UINT32_LIMIT && p.Length == HEADER + 4
      modifies this`ptr, this`ret, this`end, heap, sp, p
      ensures Valid() && heap.contexts == old(heap.contexts) && NoMsg1()
      ensures Now(go) == Asked0(Me(), old(Now(true)), e)
      ensures !go ==> ret == BodyRet(end) && !PutCalled(end)
    {
      go, end := false, Aborted;
      ghost var p0 := Now(true);
      ret := Exchange(p, Msg0Resp, TYPE_RA_MSG0, ToLe(e.groupId, 4), e.net0);
      ghost var o := Apply(sp.cfg, p0.s, Ev0(ToLe(e.groupId, 4), e.net0.e0));
      assert Now(true) == p0.(s := o.s) && ret == o.ret;
      if ret != 0 { end := Refused(ret); return; }
      ret := e.selectRet;
      if ret != 0 { ret := -1; return; }
      go := true;
    }

    /** The loop that creates the enclave until enclave_init_ra does not find it lost. */
    method CreateEnclave(e: CreateEnv) returns (go: bool)
      requires Valid()
      modifies this`ret, this`end, this`lostRetry, this`enclave, this`hasContext
      ensures Valid() && (go ==> fresh(enclave) && |enclave.secret| == 8)
      ensures Now(go) == StageCreate(old(Now(true)), e)
      ensures !go ==> ret == BodyRet(end) && !PutCalled(end)
    {
      go, end := false, Aborted;
      var tries, lost := 0, true;
      while true
        invariant Valid() && end == Aborted && sp.View() == old(sp.View()) && hasContext == old(hasContext)
        invariant lostRetry == old(lostRetry) - tries && tries <= e.lost
        invariant old(lostRetry) >= 0 ==> tries <= old(lostRetry)
        invariant e.createFails.Some? ==> e.createFails.value >= tries
        decreases e.lost - tries
      {
        if e.createFails == Some(tries) { ret := -1; return; }
        enclave := new Enclave(sp.cfg.cr);
        lost := tries < e.lost;
        tries := tries + 1;
        if !lost { break; }
        var again := lostRetry != 0;
        lostRetry := lostRetry - 1;
        if !again { break; }
      }
      if lost || e.initRet != 0 || e.initStatus != 0 { ret := -1; return; }
      hasContext := true;
      ret := 0;
      go := true;
    }

    /** The library's message 1, asked for again while it is busy. */
    method GetMsg1(r: Retried) returns (failed: bool)
      modifies this`busyRetry
      ensures failed <==> GivesUp(old(busyRetry), r.times) || r.final != 0
      ensures busyRetry == CounterAfter(old(busyRetry), r.times)
    {
      var counter, busy, tries := Retry(busyRetry, r);
      busyRetry := counter;
      failed := busy || r.final != 0;
    }

    method RoundMsg1(e: RoundEnv) returns (go: bool)
      requires Valid() && NoMsg1() && WfEnv1(e)
      modifies this`ptr, this`ret, this`end, this`busyRetry, heap, sp
      ensures Valid() && heap.contexts == old(heap.contexts) && NoMsg3()
      ensures Now(go) == StageMsg1(Me(), old(Now(true)), e)
      ensures !go ==> ret == BodyRet(end) && !PutCalled(end)
    {
      go, end := false, Aborted;
      var p := Allocate(Msg1Full, HEADER + MSG1, e.alloc1);
      if p == null { ret := -1; return; }
      var failed := GetMsg1(e.getMsg1);
      if failed { ret := -1; return; }
      var body := if verifying then samples.msg1 else e.msg1;
      go := ReceiveMsg2(p, body, e);
    }

    /** Sends message 1 and receives message 2. */
    method ReceiveMsg2(p: array<byte>, body: seq<byte>, e: RoundEnv) returns (go: bool)
      requires Valid() && Msg2Full !in ptr && NoMsg3() && WfEnv1(e)
      requires |body| == MSG1 && p.Length == HEADER + MSG1 && body == Msg1Body(Me(), e)
      modifies this`ptr, this`ret, this`end, heap, sp, p
      ensures Valid() && heap.contexts == old(heap.contexts) && NoMsg3()
      ensures Now(go) == Answered1(Me(), old(Now(true)), e)
      ensures !go ==> ret == BodyRet(end) && !PutCalled(end)
    {
      ghost var p0 := Now(true);
      ret := Exchange(p, Msg2Full, TYPE_RA_MSG1, body, e.net1);
      ghost var o := Apply(sp.cfg, p0.s, Ev1(body, e.net1.e1));
      assert Now(true) == p0.(s := o.s) && ret == o.ret;
      assert ret == SP_OK ==> ptr[Msg2Full][0] == o.reply[0];
      go := CheckMsg2(e);
    }

    /** In verification mode the precomputed message 2 stands in for a failure, and a wrong type is
        ignored. */
    method CheckMsg2(e: RoundEnv) returns (go: bool)
      requires Valid() && NoMsg3()
      requires ret == 0 ==> Msg2Full in ptr && |ptr[Msg2Full][..]| > 0
      modifies this`ptr, this`ret, this`end, heap
      ensures Valid() && heap.contexts == old(heap.contexts) && NoMsg3()
      ensures Now(go) == Judged1(Me(), old(Now(true)), old(ret),
        if old(ret) == SP_OK then old(ptr[Msg2Full][0]) else 0, e)
      ensures !go ==> ret == BodyRet(end) && !PutCalled(end)
    {
      go, end := false, Aborted;
      if ret != 0 || Msg2Full !in ptr {
        if !verifying { end := Refused(ret); return; }
        go := TakeSample2(e);
      } else {
        if ptr[Msg2Full][0] != TYPE_RA_MSG2 {
          if !verifying { end := WrongType; return; }
        }
        go := true;
      }
    }

    /** Verification mode without an answer to message 1. */
    method TakeSample2(e: RoundEnv) returns (go: bool)
      requires Valid() && NoMsg3() && end == Aborted
      modifies this`ptr, this`ret, heap
      ensures Valid() && heap.contexts == old(heap.contexts) && NoMsg3()
      ensures go == e.allocSample2 && (!go ==> ret == -1)
    {
      Release(Msg2Full);
      var q := Allocate(Msg2Full, |samples.msg2|, e.allocSample2);
      if q == null { ret := -1; return false; }
      var err := MemcpyS(q, 0, |samples.msg2|, samples.msg2);
      go := true;
    }

    /** The library's handling of message 2, with its own number of retries. */
    method ProcMsg2(r: Retried) returns (failed: bool)
      modifies this`busyRetry
      ensures failed <==> GivesUp(2, r.times) || r.final != 0
      ensures busyRetry == CounterAfter(2, r.times)
    {
      busyRetry := 2;
      var counter, busy, tries := Retry(busyRetry, r);
      busyRetry := counter;
      failed := busy || r.final != 0;
    }

    /** A buffer for message 3 with the given contents. */
    method TakeMsg3(m: seq<byte>, ok: bool)
      requires Valid() && Msg3Raw !in ptr && NoResult()
      modifies this`ptr, heap
      ensures Valid() && heap.contexts == old(heap.contexts) && NoResult()
      ensures Msg3Raw in ptr <==> ok
      ensures ok ==> ptr[Msg3Raw][..] == m
    {
      var p := Allocate(Msg3Raw, |m|, ok);
      if p != null {
        var err := MemcpyS(p, 0, |m|, m);
        assert p[..] == m;
      }
    }

    method RoundMsg2(e: RoundEnv) returns (go: bool)
      requires Valid() && NoMsg3() && WfEnv2(e)
      modifies this`ptr, this`ret, this`end, this`busyRetry, heap
      ensures Valid() && heap.contexts == old(heap.contexts) && NoResult()
      ensures Now(go) == StageMsg2(Me(), old(Now(true)), e)
      ensures go ==> Msg3Raw in ptr && HasMsg3(Me(), e) && ptr[Msg3Raw][..] == Msg3Body(Me(), e)
      ensures !go ==> ret == BodyRet(end) && !PutCalled(end)
    {
      go, end := false, Aborted;
      if verifying {
        TakeMsg3(samples.msg3, e.allocSample3);
        if Msg3Raw !in ptr { ret := -1; return; }
      } else {
        var failed := ProcMsg2(e.procMsg2);
        if e.msg3.Some? { TakeMsg3(e.msg3.value, true); }
        if Msg3Raw !in ptr { ret := -1; return; }
        if failed { ret := -1; return; }
      }
      go := true;
    }

    /** The request for the attestation result. */
    method ReceiveResult(e: RoundEnv) returns (go: bool)
      requires Valid() && NoResult() && HasMsg3(Me(), e)
      requires Msg3Raw in ptr && ptr[Msg3Raw][..] == Msg3Body(Me(), e)
      modifies this`ptr, this`ret, this`end, heap, sp
      ensures Valid() && heap.contexts == old(heap.contexts)
      ensures !go ==> end == Aborted && ret == -1 && Now(false) == StageMsg3(Me(), old(Now(true)), e)
      ensures go ==> e.alloc3 && GotResult(old(sp.View()), e)
    {
      go, end := false, Aborted;
      var body := ptr[Msg3Raw][..];
      var p := Allocate(Msg3Full, HEADER + |body|, e.alloc3);
      if p == null { ret := -1; return; }
      go := AskResult(p, body, e);
    }

    /** The provider, asked in state s, has sent a whole attestation result. */
    ghost predicate GotResult(s: SpState, e: RoundEnv)
      requires HasMsg3(Me(), e)
      reads this`ptr, this`ret, sp, if AttResultFull in ptr then {ptr[AttResultFull]} else {}
    {
      && ret == 0 && Sent(s, Ev3(Msg3Body(Me(), e), e.net3.e3), 0)
      && AttResultFull in ptr && ResponseShape(TYPE_RA_MSG3, ptr[AttResultFull][..])
      && ptr[AttResultFull][0] == TYPE_RA_ATT_RESULT
      && ptr[AttResultFull][..] == DoMsg3(sp.cfg, s, Msg3Body(Me(), e), e.net3.e3).reply
    }

    /** Sends message 3 and receives the attestation result. */
    method AskResult(p: array<byte>, body: seq<byte>, e: RoundEnv) returns (go: bool)
      requires Valid() && AttResultFull !in ptr && HasMsg3(Me(), e)
      requires body == Msg3Body(Me(), e) && p.Length == HEADER + |body| && e.alloc3 && end == Aborted
      modifies this`ptr, this`ret, heap, sp, p
      ensures Valid() && heap.contexts == old(heap.contexts)
      ensures !go ==> ret == -1 && Now(false) == StageMsg3(Me(), old(Now(true)), e)
      ensures go ==> GotResult(old(sp.View()), e)
    {
      ret := Exchange(p, AttResultFull, TYPE_RA_MSG3, body, e.net3);
      go := ret == 0 && AttResultFull in ptr && ptr[AttResultFull][0] == TYPE_RA_ATT_RESULT;
      if !go { ret := -1; }
    }

    /** Checks the MAC and the statuses of the result r and, past them, puts the secret. */
    method CheckResult(r: array<byte>, e: RoundEnv)
      requires Valid() && WfEnv3(e) && |enclave.secret| == 8 && !verifying
      requires ResponseShape(TYPE_RA_MSG3, r[..]) && r[0] == TYPE_RA_ATT_RESULT
      modifies this`ret, this`end, this`puts, enclave
      ensures Valid() && ret == BodyRet(end)
      ensures end == ResultEnd(sp.cfg.cr, r[..], e)
      ensures puts == old(puts) + (if PutCalled(end) then [PutCall(verifying, r[..], e.mac.keys)] else [])
      ensures end == Stored ==> IsExpected(enclave.secret)
    {
      end := Aborted;
      var bytes := r[..];
      var status := Success;
      ret := e.macRet;
      if ret == 0 { status := enclave.VerifyAttResultMac(e.mac, ReadBlob(bytes), ReadMac(bytes)); }
      if ret != 0 || status != Success { ret := -1; return; }
      if bytes[1] != 0 || bytes[2] != 0 {
        end := NotPassed;
        return;
      }
      PutSecret(bytes, e);
    }

    /** The call of put_secret_data, for a result that got through the gate. */
    method PutSecret(bytes: seq<byte>, e: RoundEnv)
      requires Valid() && WfPut(e.put) && |enclave.secret| == 8 && !verifying
      requires ResponseShape(TYPE_RA_MSG3, bytes)
      requires Gated(sp.cfg.cr, PutCall(verifying, bytes, e.mac.keys))
      modifies this`ret, this`end, this`puts, enclave
      ensures Valid() && ret == e.putRet
      ensures puts == old(puts) + [PutCall(verifying, bytes, e.mac.keys)]
      ensures end == if e.putRet == 0 && PutSucceeds(sp.cfg.cr, e.put, ReadPayload(bytes), ReadTag(bytes))
                     then Stored else PutFailed(e.putRet)
      ensures end == Stored ==> IsExpected(enclave.secret)
    {
      puts := puts + [PutCall(verifying, bytes, e.mac.keys)];
      var body := bytes[HEADER..];
      var payload := Get(body, ATT_RESULT, PayloadSize(bytes));
      var status := Success;
      ret := e.putRet;
      if ret == 0 { status := enclave.PutSecretData(e.put, payload, ReadTag(bytes)); }
      end := if ret != 0 || status != Success then PutFailed(ret) else Stored;
    }

    /** In verification mode the result is not looked at. */
    method Judge(e: RoundEnv)
      requires Valid() && WfEnv3(e) && |enclave.secret| == 8 && ret == 0
      requires AttResultFull in ptr && ResponseShape(TYPE_RA_MSG3, ptr[AttResultFull][..])
      requires ptr[AttResultFull][0] == TYPE_RA_ATT_RESULT
      modifies this`ret, this`end, this`puts, enclave
      ensures Valid() && ret == BodyRet(end)
      ensures end == if verifying then Skipped else ResultEnd(sp.cfg.cr, ptr[AttResultFull][..], e)
      ensures old(puts) <= puts && |puts| == |old(puts)| + (if PutCalled(end) then 1 else 0)
      ensures end == Stored ==> IsExpected(enclave.secret)
    {
      if verifying {
        end := Skipped;
      } else {
        CheckResult(ptr[AttResultFull], e);
      }
    }

    /** Message 3 and the attestation result. */
    method RoundMsg3(e: RoundEnv)
      requires Valid() && NoResult() && WfEnv3(e) && HasMsg3(Me(), e) && |enclave.secret| == 8
      requires Msg3Raw in ptr && ptr[Msg3Raw][..] == Msg3Body(Me(), e)
      modifies this`ptr, this`ret, this`end, this`puts, heap, sp, enclave
      ensures Valid() && heap.contexts == old(heap.contexts)
      ensures ret == BodyRet(end)
      ensures Now(false) == StageMsg3(Me(), old(Now(true)), e)
      ensures old(puts) <= puts && |puts| == |old(puts)| + (if PutCalled(end) then 1 else 0)
      ensures end == Stored ==> IsExpected(enclave.secret)
    {
      ghost var p0 := Now(true);
      var go := ReceiveResult(e);
      if !go { return; }
      ghost var o := DoMsg3(sp.cfg, p0.s, Msg3Body(Me(), e), e.net3.e3);
      assert Now(true) == p0.(s := o.s) && o.ret == SP_OK && ptr[AttResultFull][..] == o.reply;
      Decided(Me(), p0, e);
      Judge(e);
    }

    method Cleanup(e: RoundEnv)
      requires Valid()
      modifies this`ptr, this`ret, heap
      ensures Valid() && heap.contexts == old(heap.contexts)
      ensures ptr == map[] && heap.live == base
      ensures ret == if Closes(Now(true), e) then old(ret) else -1
    {
      if hasContext {
        var saved := ret;
        ret := e.closeRet;
        if ret != 0 || e.closeStatus != 0 { ret := -1; } else { ret := saved; }
      }
      FreeAll();
    }

    /** The three responses, then the four request buffers. */
    method FreeAll()
      requires Valid()
      modifies this`ptr, heap
      ensures Valid() && heap.contexts == old(heap.contexts)
      ensures ptr == map[] && heap.live == base
    {
      FreeResponses();
      FreeRequests();
      ghost var left := ptr;
      forall n: Name ensures n !in left {
        match n case Msg0Full => case Msg0Resp => case Msg1Full => case Msg2Full =>
                case Msg3Raw => case Msg3Full => case AttResultFull =>
      }
      assert left == map[];
      assert left.Values == {};
    }

    method FreeResponses()
      requires Valid()
      modifies this`ptr, heap
      ensures Valid() && heap.contexts == old(heap.contexts)
      ensures ptr.Keys == old(ptr.Keys) - {Msg0Resp, Msg2Full, AttResultFull}
    {
      Release(Msg0Resp);
      Release(Msg2Full);
      Release(AttResultFull);
    }

    method FreeRequests()
      requires Valid()
      modifies this`ptr, heap
      ensures Valid() && heap.contexts == old(heap.contexts)
      ensures ptr.Keys == old(ptr.Keys) - {Msg3Raw, Msg3Full, Msg1Full, Msg0Full}
    {
      Release(Msg3Raw);
      Release(Msg3Full);
      Release(Msg1Full);
      Release(Msg0Full);
    }

    /** Message 0 and the enclave. */
    method RoundStart(e: RoundEnv) returns (go: bool)
      requires Valid() && e.groupId < UINT32_LIMIT && ptr == map[]
      modifies this`ptr, this`ret, this`end, this`lostRetry, this`enclave, this`hasContext, heap, sp
      ensures Valid() && heap.contexts == old(heap.contexts) && NoMsg1()
      ensures Now(go) == StageCreate(StageMsg0(Me(), old(Now(true)), e), e.create)
      ensures go ==> fresh(enclave) && |enclave.secret| == 8
      ensures !go ==> ret == BodyRet(end) && !PutCalled(end)
    {
      go := RoundMsg0(e);
      if !go { return; }
      go := CreateEnclave(e.create);
    }

    /** Messages 1 and 2. */
    method RoundMiddle(e: RoundEnv) returns (go: bool)
      requires Valid() && NoMsg1() && WfEnv1(e) && WfEnv2(e)
      modifies this`ptr, this`ret, this`end, this`busyRetry, heap, sp
      ensures Valid() && heap.contexts == old(heap.contexts) && NoResult()
      ensures Now(go) == StageMsg2(Me(), StageMsg1(Me(), old(Now(true)), e), e)
      ensures go ==> Msg3Raw in ptr && HasMsg3(Me(), e) && ptr[Msg3Raw][..] == Msg3Body(Me(), e)
      ensures !go ==> ret == BodyRet(end) && !PutCalled(end)
    {
      go := RoundMsg1(e);
      if !go { return; }
      go := RoundMsg2(e);
    }

    /** A round between the extended group id and CLEANUP. */
    method MainPart(e: RoundEnv)
      requires Valid() && WfEnv(e) && ptr == map[]
      modifies this, heap, sp
      ensures Valid() && heap.contexts == old(heap.contexts)
      ensures Now(false) == RoundOutcome(Me(), old(Now(true)), e)
      ensures old(puts) <= puts && |puts| == |old(puts)| + (if PutCalled(end) then 1 else 0)
      ensures ret == BodyRet(end)
      ensures end == Stored ==> IsExpected(enclave.secret)
    {
      var go := RoundStart(e);
      if !go { return; }
      go := RoundMiddle(e);
      if !go { return; }
      RoundMsg3(e);
    }

    /** One round, from the extended group id to the end of CLEANUP; early tells that main returned
        at once because the group id was not available.  Every buffer the round allocated is freed
        and every pointer is NULL again on every path.  A round ends with 0 exactly when CLEANUP
        closed the context and the main part left 0: also for a result that did not pass, and for
        a put_secret_data whose own status, not that of the call, is the failure. */
    method Round(e: RoundEnv) returns (early: bool)
      requires Valid() && WfEnv(e) && ptr == map[]
      modifies this, heap, sp
      ensures Valid() && ptr == map[] && heap.live == base && heap.contexts == old(heap.contexts)
      ensures early <==> e.groupIdRet != 0
      ensures early ==> Now(true) == old(Now(true))
      ensures !early ==> Now(false) == RoundOutcome(Me(), old(Now(true)), e)
      ensures ret == RoundRet(Me(), old(Now(true)), e)
      ensures old(puts) <= puts && |puts| == |old(puts)| + RoundPuts(Me(), old(Now(true)), e)
      ensures !early && end == Stored ==> IsExpected(enclave.secret)
    {
      early := false;
      ret := e.groupIdRet;
      if ret != 0 { ret := -1; return true; }
      MainPart(e);
      Cleanup(e);
    }

    /** The two rounds, the second with the retry counters of the first. */
    method Rounds(e1: RoundEnv, e2: RoundEnv)
      requires Valid() && WfEnv(e1) && WfEnv(e2) && ptr == map[]
      modifies this, heap, sp
      ensures Valid() && ptr == map[] && heap.live == base && heap.contexts == old(heap.contexts)
      ensures Now(true) == MainOutcome(Me(), old(Now(true)), e1, e2)
      ensures ret == MainRet(Me(), old(Now(true)), e1, e2)
      ensures |puts| == |old(puts)| + MainPuts(Me(), old(Now(true)), e1, e2)
    {
      var i := 2;
      while true
        invariant 1 <= i <= 2 && Valid() && ptr == map[] && heap.contexts == old(heap.contexts)
        invariant |puts| == |old(puts)| + if i == 2 then 0 else RoundPuts(Me(), old(Now(true)), e1)
        invariant i == 1 ==> e1.groupIdRet == 0
        invariant Now(true) == if i == 2 then old(Now(true)) else AfterRound(Me(), old(Now(true)), e1)
        decreases i
      {
        var early := Round(if i == 2 then e1 else e2);
        if early { break; }
        i := i - 1;
        if i == 0 { break; }
      }
    }
  }

  function ClientOf(cfg: Cfg, arg: Option<int>, table: seq<Samples>): Client
    requires |table| > 0
  {
    Client(cfg, arg.Some?, if arg.Some? && 0 < arg.value <= |table| then table[arg.value - 1] else table[0])
  }

  predicate BadArgument(arg: Option<int>, samples: nat) { arg.Some? && !(0 < arg.value <= samples) }

  /** main past its arguments. */
  method RunRounds(sp: ServiceProvider, verifying: bool, samples: Samples, e1: RoundEnv, e2: RoundEnv)
    returns (r: int, ghost puts: seq<PutCall>)
    requires sp.Valid() && SealKeepsLength(sp.cfg.cr) && UnsealKeepsLength(sp.cfg.cr)
    requires WfSamples(samples) && WfEnv(e1) && WfEnv(e2)
    modifies sp, sp.heap
    ensures sp.Valid() && sp.heap.live == old(sp.heap.live) && sp.heap.contexts == old(sp.heap.contexts)
    ensures MainLeaves(Client(sp.cfg, verifying, samples), old(sp.View()), e1, e2, sp.View(), r, |puts|)
    ensures AllGated(sp.cfg.cr, verifying, puts)
  {
    var app := new IsvApp(sp, verifying, samples);
    app.Rounds(e1, e2);
    r, puts := app.ret, app.puts;
  }

  /** main: the arguments, and two rounds.  No path leaks a buffer, put_secret_data is only called
      through the gate, and provider, return value and number of calls are those of the rounds one
      after the other. */
  method Run(sp: ServiceProvider, arg: Option<int>, table: seq<Samples>, e1: RoundEnv, e2: RoundEnv)
    returns (r: int, ghost puts: seq<PutCall>)
    requires sp.Valid() && SealKeepsLength(sp.cfg.cr) && UnsealKeepsLength(sp.cfg.cr)
    requires |table| > 0 && (forall i :: 0 <= i < |table| ==> WfSamples(table[i])) && WfEnv(e1) && WfEnv(e2)
    modifies sp, sp.heap
    ensures sp.Valid() && sp.heap.live == old(sp.heap.live) && sp.heap.contexts == old(sp.heap.contexts)
    ensures BadArgument(arg, |table|) ==> r == -1 && puts == [] && sp.View() == old(sp.View())
    ensures !BadArgument(arg, |table|) ==>
      MainLeaves(ClientOf(sp.cfg, arg, table), old(sp.View()), e1, e2, sp.View(), r, |puts|)
    ensures AllGated(sp.cfg.cr, arg.Some?, puts)
  {
    puts := [];
    if BadArgument(arg, |table|) { return -1, []; }
    var samples := if arg.Some? then table[arg.value - 1] else table[0];
    r, puts := RunRounds(sp, arg.Some?, samples, e1, e2);
  }
}
