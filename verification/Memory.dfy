/** malloc, free and the ECC contexts of the crypto library, with what is outstanding. */
module Memory {
  import opened Bytes

  class Heap {
    /** The buffers that were allocated and not freed yet. */
    ghost var live: set<array<byte>>
    /** The number of ECC contexts that are open. */
    ghost var contexts: nat

    constructor ()
      ensures live == {} && contexts == 0
    {
      live := {};
      contexts := 0;
    }

    /** malloc; ok says whether there was memory. */
    method Malloc(n: nat, ok: bool) returns (p: array?<byte>)
      modifies this
      ensures p == null <==> !ok
      ensures p != null ==> fresh(p) && p.Length == n
      ensures live == old(live) + (if p == null then {} else {p}) && contexts == old(contexts)
    {
      p := null;
      if ok {
        p := new byte[n];
        live := live + {p};
      }
    }

    /** free: only of a buffer that is outstanding. */
    method Free(p: array<byte>)
      requires p in live
      modifies this
      ensures live == old(live) - {p} && contexts == old(contexts)
    {
      live := live - {p};
    }

    /** sample_ecc256_open_context */
    method OpenContext()
      modifies this
      ensures live == old(live) && contexts == old(contexts) + 1
    {
      contexts := contexts + 1;
    }

    /** sample_ecc256_close_context */
    method CloseContext()
      requires contexts > 0
      modifies this
      ensures live == old(live) && contexts == old(contexts) - 1
    {
      contexts := contexts - 1;
    }
  }

  method Memset0(p: array<byte>)
    modifies p
    ensures p[..] == Zeros(p.Length)
  {
    for i := 0 to p.Length
      invariant forall j :: 0 <= j < i ==> p[j] == 0
    {
      p[i] := 0;
    }
  }
}
