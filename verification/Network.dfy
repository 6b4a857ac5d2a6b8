/** network_ra.cpp: hands a request to the service provider by its type. */
module Network {
  import opened Bytes
  import opened Crypto
  import opened Layout
  import opened Memory
  import opened ServiceProvider
  import opened SpRuns
  import opened SpSpec

  /** The results of the calls the service provider makes, whichever message it gets. */
  datatype NetEnv = NetEnv(e0: Msg0Env, e1: Msg1Env, e3: Msg3Env)

  /** The request holds as many bytes as its size field says; the source relies on it. */
  predicate WfRequest(r: seq<byte>) { |r| >= HEADER && RequestSize(r) <= |r| - HEADER }

  /** The message that a request stands for; none if its type is unknown. */
  function EventOf(r: seq<byte>, e: NetEnv): Option<Event>
    requires WfRequest(r)
  {
    var body := r[HEADER..HEADER + RequestSize(r)];
    if r[0] == TYPE_RA_MSG0 then Some(Ev0(body, e.e0))
    else if r[0] == TYPE_RA_MSG1 then Some(Ev1(body, e.e1))
    else if r[0] == TYPE_RA_MSG3 then Some(Ev3(body, e.e3))
    else None
  }

  /** The dispatch, on the bytes of the request: type 0, 1 or 3, the size at offset 1, the body at 8. */
  lemma Dispatch(r: seq<byte>, e: NetEnv)
    requires |r| >= 8 && FromLe(r[1..5]) <= |r| - 8
    ensures WfRequest(r)
    ensures var body := r[8..8 + FromLe(r[1..5])];
      EventOf(r, e) ==
        if r[0] == 0 then Some(Ev0(body, e.e0)) else if r[0] == 1 then Some(Ev1(body, e.e1))
        else if r[0] == 3 then Some(Ev3(body, e.e3)) else None
  {}

  /** What the source leaves undefined is excluded: a quote too short for the comparison, and a
      revocation list that makes the 32-bit message size wrap. */
  predicate Defined(cfg: Cfg, s: SpState, ev: Event) {
    && Legal(cfg, s, ev)
    && (ev.Ev1? && Admitted(s, ev.msg, ev.e1) && Establishes(cfg, ev.e1) ==>
          MSG2 + |ev.e1.sigrl| < UINT32_LIMIT)
  }

  /** slot is *p_resp, None a null p_resp.  The slot changes only when 0 is returned, and then it
      holds a new buffer that the caller has to free. */
  method SendReceive(sp: ServiceProvider, url: Option<string>, req: array?<byte>,
                     slot: Option<array?<byte>>, e: NetEnv)
    returns (ret: int, slot': Option<array?<byte>>)
    requires sp.Valid() && SealKeepsLength(sp.cfg.cr)
    requires req != null ==> WfRequest(req[..])
    requires req != null && EventOf(req[..], e).Some? ==>
      Defined(sp.cfg, sp.View(), EventOf(req[..], e).value)
    modifies sp, sp.heap
    ensures sp.Valid() && sp.heap.contexts == old(sp.heap.contexts)
    ensures url.None? || req == null || slot.None? || EventOf(req[..], e).None? ==>
      ret == -1 && sp.View() == old(sp.View())
    ensures url.Some? && req != null && slot.Some? && EventOf(req[..], e).Some? ==>
      var out := Apply(sp.cfg, old(sp.View()), EventOf(req[..], e).value);
      && sp.View() == out.s && ret == out.ret
      && (ret == SP_OK ==> slot'.Some? && slot'.value != null && slot'.value[..] == out.reply)
    ensures ret == SP_OK ==>
      slot'.Some? && slot'.value != null && fresh(slot'.value)
      && sp.heap.live == old(sp.heap.live) + {slot'.value}
    ensures ret != SP_OK ==> slot' == slot && sp.heap.live == old(sp.heap.live)
  {
    ret, slot' := 0, slot;
    if url.None? || req == null || slot.None? { return -1, slot; }
    var body := req[HEADER..HEADER + RequestSize(req[..])];
    assert body == req[..][HEADER..HEADER + RequestSize(req[..])];
    var resp: array?<byte>;
    if req[0] == TYPE_RA_MSG0 {
      ret, resp := sp.ProcMsg0(body, e.e0);
    } else if req[0] == TYPE_RA_MSG1 {
      ret, resp := sp.ProcMsg1(body, e.e1);
    } else if req[0] == TYPE_RA_MSG3 {
      ret, resp := sp.ProcMsg3(body, e.e3);
    } else {
      return -1, slot;
    }
    if ret == 0 { slot' := Some(resp); }
  }

  /** ra_free_network_response_buffer */
  method FreeResponse(heap: Heap, resp: array?<byte>)
    requires resp != null ==> resp in heap.live
    modifies heap
    ensures heap.live == old(heap.live) - (if resp == null then {} else {resp})
    ensures heap.contexts == old(heap.contexts)
  {
    if resp != null { heap.Free(resp); }
  }
}
