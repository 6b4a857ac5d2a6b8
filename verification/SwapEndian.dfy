/** SWAP_ENDIAN_DW and SWAP_ENDIAN_32B of ias_ra.cpp, which the attestation server applies to
    the two halves of a signature.  Words are kept as C keeps them, least significant byte
    first in memory.  The macro exchanges word i with word 7-i for i = 0..3; SwapEndian does
    the same for any even number of words. */
module SwapEndian {
  import opened Bytes

  function SwapDw(dw: bv32): bv32 {
    ((dw & 0x000000ff) << 24)
    | ((dw & 0x0000ff00) << 8)
    | ((dw & 0x00ff0000) >> 8)
    | ((dw & 0xff000000) >> 24)
  }

  /** The byte of w at address offset i. */
  function ByteAt(w: bv32, i: nat): (x: bv32)
    requires i < 4
    ensures x <= 0xff
  {
    if i == 0 then w & 0xff else if i == 1 then (w >> 8) & 0xff
    else if i == 2 then (w >> 16) & 0xff else (w >> 24) & 0xff
  }

  lemma SwapDwBytes(w: bv32, i: nat)
    requires i < 4
    ensures ByteAt(SwapDw(w), i) == ByteAt(w, 3 - i)
  {}

  lemma SwapDwTwice(w: bv32)
    ensures SwapDw(SwapDw(w)) == w
  {}

  function AsByte(x: bv32): byte
    requires x <= 0xff
  {
    x as int
  }

  /** A word as the bytes it occupies. */
  function BytesOf(w: bv32): (m: seq<byte>)
    ensures |m| == 4
  {
    [AsByte(ByteAt(w, 0)), AsByte(ByteAt(w, 1)), AsByte(ByteAt(w, 2)), AsByte(ByteAt(w, 3))]
  }

  lemma LeastSignificantFirst()
    ensures BytesOf(0x04030201) == [1, 2, 3, 4]
  {
    assert ByteAt(0x04030201, 0) == 1 && ByteAt(0x04030201, 1) == 2;
    assert ByteAt(0x04030201, 2) == 3 && ByteAt(0x04030201, 3) == 4;
  }

  /** The words of a buffer as the bytes they occupy. */
  function Memory(ws: seq<bv32>): (m: seq<byte>)
    ensures |m| == 4 * |ws|
  {
    if ws == [] then [] else BytesOf(ws[0]) + Memory(ws[1..])
  }

  /** The words after the exchange. */
  function Swapped(ws: seq<bv32>): (r: seq<bv32>)
    ensures |r| == |ws|
  {
    seq(|ws|, i requires 0 <= i < |ws| => SwapDw(ws[|ws| - 1 - i]))
  }

  lemma SwapDwReverses(w: bv32)
    ensures BytesOf(SwapDw(w)) == Reverse(BytesOf(w))
  {
    forall j | 0 <= j < 4
      ensures BytesOf(SwapDw(w))[j] == BytesOf(w)[3 - j]
    {
      SwapDwBytes(w, j);
    }
  }

  lemma ReverseSplit<T>(a: seq<T>, b: seq<T>)
    ensures Reverse(a + b) == Reverse(b) + Reverse(a)
  {}

  lemma {:induction false} MemorySnoc(ws: seq<bv32>, w: bv32)
    ensures Memory(ws + [w]) == Memory(ws) + BytesOf(w)
  {
    if ws != [] {
      MemorySnoc(ws[1..], w);
      assert (ws + [w])[1..] == ws[1..] + [w];
      assert BytesOf(ws[0]) + (Memory(ws[1..]) + BytesOf(w)) == Memory(ws) + BytesOf(w);
    } else {
      assert ws + [w] == [w];
    }
  }

  /** Exchanging and byte-swapping the words is exactly reversing the byte string. */
  lemma {:induction false} SwappedIsReversal(ws: seq<bv32>)
    ensures Memory(Swapped(ws)) == Reverse(Memory(ws))
  {
    if ws == [] {
    } else {
      var w, rest := ws[0], ws[1..];
      assert Swapped(ws) == Swapped(rest) + [SwapDw(w)];
      MemorySnoc(Swapped(rest), SwapDw(w));
      SwappedIsReversal(rest);
      SwapDwReverses(w);
      ReverseSplit(BytesOf(w), Memory(rest));
    }
  }

  lemma SwappedTwice(ws: seq<bv32>)
    ensures Swapped(Swapped(ws)) == ws
  {
    forall i | 0 <= i < |ws|
      ensures Swapped(Swapped(ws))[i] == ws[i]
    {
      SwapDwTwice(ws[i]);
    }
  }

  /** A number stored little-endian is stored big-endian afterwards. */
  lemma SwapConvertsEndianness(ws: seq<bv32>)
    ensures FromBe(Memory(Swapped(ws))) == FromLe(Memory(ws))
  {
    SwappedIsReversal(ws);
    ReverseSwapsEndianness(Memory(ws));
  }

  method SwapEndian(p: array<bv32>)
    requires p.Length % 2 == 0
    modifies p
    ensures p[..] == Swapped(old(p[..]))
    ensures Memory(p[..]) == Reverse(old(Memory(p[..])))
  {
    ghost var was := p[..];
    var n, i := p.Length, 0;
    while i < n / 2
      invariant 0 <= i <= n / 2
      invariant forall j :: 0 <= j < i || n - i <= j < n ==> p[j] == SwapDw(was[n - 1 - j])
      invariant forall j :: i <= j < n - i ==> p[j] == was[j]
    {
      var temp := SwapDw(p[i]);
      p[i] := SwapDw(p[n - 1 - i]);
      p[n - 1 - i] := temp;
      i := i + 1;
    }
    SwappedIsReversal(was);
  }

  // ---------- the cast to unsigned int* ----------

  function Wide(b: byte): (x: bv32)
    ensures x <= 0xff
  {
    (b as bv8) as bv32
  }

  lemma WideRoundTrip(b: byte)
    ensures AsByte(Wide(b)) == b
  {
    Narrow(b as bv8);
    assert (b as bv8) as int == b;
  }

  lemma Narrow(x: bv8)
    ensures (x as bv32) as int == x as int
  {}

  function Joined(x0: bv32, x1: bv32, x2: bv32, x3: bv32): bv32 {
    x0 | (x1 << 8) | (x2 << 16) | (x3 << 24)
  }

  lemma JoinedBytes(x0: bv32, x1: bv32, x2: bv32, x3: bv32)
    requires x0 <= 0xff && x1 <= 0xff && x2 <= 0xff && x3 <= 0xff
    ensures var w := Joined(x0, x1, x2, x3);
      ByteAt(w, 0) == x0 && ByteAt(w, 1) == x1 && ByteAt(w, 2) == x2 && ByteAt(w, 3) == x3
  {}

  /** The word that four bytes in memory hold. */
  function WordOf(b0: byte, b1: byte, b2: byte, b3: byte): bv32 {
    Joined(Wide(b0), Wide(b1), Wide(b2), Wide(b3))
  }

  lemma WordOfBytes(b0: byte, b1: byte, b2: byte, b3: byte)
    ensures BytesOf(WordOf(b0, b1, b2, b3)) == [b0, b1, b2, b3]
  {
    JoinedBytes(Wide(b0), Wide(b1), Wide(b2), Wide(b3));
    WideRoundTrip(b0);
    WideRoundTrip(b1);
    WideRoundTrip(b2);
    WideRoundTrip(b3);
  }

  function WordsOf(m: seq<byte>): (ws: seq<bv32>)
    requires |m| % 4 == 0
    ensures 4 * |ws| == |m|
  {
    if m == [] then [] else [WordOf(m[0], m[1], m[2], m[3])] + WordsOf(m[4..])
  }

  lemma {:induction false} WordsOfMemory(m: seq<byte>)
    requires |m| % 4 == 0
    ensures Memory(WordsOf(m)) == m
  {
    if m == [] {
    } else {
      var w := WordOf(m[0], m[1], m[2], m[3]);
      WordOfBytes(m[0], m[1], m[2], m[3]);
      WordsOfMemory(m[4..]);
      assert WordsOf(m)[0] == w && WordsOf(m)[1..] == WordsOf(m[4..]);
      assert Memory(WordsOf(m)) == BytesOf(w) + m[4..];
      assert m == [m[0], m[1], m[2], m[3]] + m[4..];
    }
  }

  /** SWAP_ENDIAN_32B on 32 bytes of memory. */
  method SwapBytes(m: seq<byte>) returns (r: seq<byte>)
    requires |m| == 32
    ensures r == Reverse(m)
  {
    WordsOfMemory(m);
    var ws := WordsOf(m);
    var p := new bv32[8](i requires 0 <= i < 8 => ws[i]);
    assert p[..] == ws;
    SwapEndian(p);
    r := Memory(p[..]);
  }
}
