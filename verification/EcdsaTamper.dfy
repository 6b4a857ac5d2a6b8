/** The tamper-and-undo part of test_builtin in ecdsatest.c: the two numbers of a signature are
    written right-aligned into one zeroed buffer, one byte is flipped, the numbers are read back,
    and the flip is undone. */
module EcdsaTamper {
  import opened Arith
  import opened Bytes

  /** The bitwise exclusive or of two unsigned numbers (the C operator ^). */
  function Xor(x: nat, d: nat): nat
    decreases x + d
  {
    if x == 0 && d == 0 then 0
    else (if x % 2 == d % 2 then 0 else 1) + 2 * Xor(x / 2, d / 2)
  }

  lemma XorHalves(x: nat, d: nat)
    ensures Xor(x, d) / 2 == Xor(x / 2, d / 2)
    ensures Xor(x, d) % 2 == if x % 2 == d % 2 then 0 else 1
  {
    assert Xor(0, 0) == 0;
  }

  lemma {:induction false} XorTwice(x: nat, d: nat)
    ensures Xor(Xor(x, d), d) == x
    decreases x + d
  {
    if x == 0 && d == 0 {
    } else {
      XorTwice(x / 2, d / 2);
      XorHalves(x, d);
      XorHalves(Xor(x, d), d);
    }
  }

  lemma {:induction false} XorChanges(x: nat, d: nat)
    ensures Xor(x, d) == x <==> d == 0
    decreases x + d
  {
    if x == 0 && d == 0 {
    } else {
      XorChanges(x / 2, d / 2);
    }
  }

  lemma {:induction false} XorBits(x: nat, d: nat, bits: nat)
    requires x < Power(2, bits) && d < Power(2, bits)
    ensures Xor(x, d) < Power(2, bits)
  {
    if bits == 0 {
    } else {
      XorBits(x / 2, d / 2, bits - 1);
    }
  }

  predicate Bit(x: nat, k: nat) { if k == 0 then x % 2 == 1 else Bit(x / 2, k - 1) }

  /** Bit by bit, the result differs from the one operand where the other has a one. */
  lemma {:induction false} XorBitwise(x: nat, d: nat, k: nat)
    ensures Bit(Xor(x, d), k) <==> Bit(x, k) != Bit(d, k)
    decreases k
  {
    if k == 0 {
    } else {
      XorBitwise(x / 2, d / 2, k - 1);
    }
  }

  function XorByte(x: byte, d: byte): byte
  {
    assert Power(2, 8) == 256 by { assert Power(2, 4) == 16; assert Power(2, 6) == 64; }
    XorBits(x, d, 8);
    Xor(x, d)
  }

  /** BN_num_bytes */
  function NumBytes(v: nat): nat { if v == 0 then 0 else 1 + NumBytes(v / 256) }

  /** BN_bn2bin: the NumBytes(v) bytes of v, the most significant first. */
  function Bn2Bin(v: nat): (s: seq<byte>)
    ensures |s| == NumBytes(v) && FromBe(s) == v
  {
    if v == 0 then []
    else
      var s := Bn2Bin(v / 256) + [v % 256];
      assert s[..|s| - 1] == Bn2Bin(v / 256);
      s
  }

  lemma {:induction false} NumBytesFits(v: nat, n: nat)
    ensures NumBytes(v) <= n <==> v < Power(256, n)
    decreases v
  {
    if v > 0 && n > 0 { NumBytesFits(v / 256, n - 1); }
  }

  /** Changing one byte of a big-endian number changes the number. */
  lemma OneByteChange(s: seq<byte>, t: seq<byte>, k: nat)
    requires |s| == |t| && k < |s| && s[k] != t[k]
    ensures FromBe(s) != FromBe(t)
  {
    if FromBe(s) == FromBe(t) { FromBeInjective(s, t); }
  }

  /** Both numbers stored right-aligned, each in its half of the buffer. */
  ghost predicate Holds(buf: seq<byte>, bnLen: nat, r: nat, s: nat)
  {
    |buf| == 2 * bnLen && FromBe(buf[..bnLen]) == r && FromBe(buf[bnLen..]) == s
  }

  /** Storing d and e right-aligned in the two halves of a zeroed buffer. */
  lemma StoredBoth(n: nat, d: seq<byte>, e: seq<byte>)
    requires |d| <= n && |e| <= n
    ensures Put(Put(Zeros(2 * n), n - |d|, d), 2 * n - |e|, e)
         == (Zeros(n - |d|) + d) + (Zeros(n - |e|) + e)
  {
    var once := Put(Zeros(2 * n), n - |d|, d);
    assert once == (Zeros(n - |d|) + d) + Zeros(n);
  }

  lemma HalvesHold(n: nat, a: seq<byte>, c: seq<byte>)
    requires |a| == n && |c| == n
    ensures Holds(a + c, n, FromBe(a), FromBe(c))
  {
    assert (a + c)[..n] == a && (a + c)[n..] == c;
  }

  /** The zeros in front of a stored number do not change it. */
  lemma StoresHold(n: nat, d: seq<byte>, e: seq<byte>, buf: seq<byte>)
    requires |d| <= n && |e| <= n
    requires buf == (Zeros(n - |d|) + d) + (Zeros(n - |e|) + e)
    ensures Holds(buf, n, FromBe(d), FromBe(e))
  {
    HalvesHold(n, Zeros(n - |d|) + d, Zeros(n - |e|) + e);
    LeadingZeros(n - |d|, d);
    LeadingZeros(n - |e|, e);
  }

  lemma StoresInTurn(n: nat, d: seq<byte>, e: seq<byte>, once: seq<byte>, buf: seq<byte>)
    requires |d| <= n && |e| <= n
    requires once == Put(Zeros(2 * n), n - |d|, d) && buf == Put(once, 2 * n - |e|, e)
    ensures Holds(buf, n, FromBe(d), FromBe(e))
  {
    StoredBoth(n, d, e);
    StoresHold(n, d, e, buf);
  }

  method StoreNumbers(bnLen: nat, r: nat, s: nat) returns (raw: array<byte>)
    requires NumBytes(r) <= bnLen && NumBytes(s) <= bnLen
    ensures fresh(raw) && raw.Length == 2 * bnLen && Holds(raw[..], bnLen, r, s)
  {
    var rLen, sLen, bufLen := NumBytes(r), NumBytes(s), 2 * bnLen;
    var rBytes, sBytes := Bn2Bin(r), Bn2Bin(s);
    raw := new byte[bufLen](_ => 0);
    assert raw[..] == Zeros(bufLen);
    var err := MemcpyS(raw, bnLen - rLen, rLen, rBytes);
    ghost var once := raw[..];
    err := MemcpyS(raw, bufLen - sLen, sLen, sBytes);
    StoresInTurn(bnLen, rBytes, sBytes, once, raw[..]);
  }

  method ReadNumbers(raw: array<byte>, bnLen: nat) returns (r: nat, s: nat)
    requires raw.Length == 2 * bnLen
    ensures Holds(raw[..], bnLen, r, s) && r < Power(256, bnLen) && s < Power(256, bnLen)
  {
    assert raw[..][..bnLen] == raw[..bnLen] && raw[..][bnLen..] == raw[bnLen..];
    FromBeBound(raw[..bnLen]);
    FromBeBound(raw[bnLen..]);
    r, s := FromBe(raw[..bnLen]), FromBe(raw[bnLen..]);
  }

  /** A change of one byte of the buffer changes exactly one of the two numbers. */
  lemma FlipChangesOne(clean: seq<byte>, dirty: seq<byte>, k: nat, bnLen: nat, r: nat, s: nat, r': nat, s': nat)
    requires Holds(clean, bnLen, r, s) && Holds(dirty, bnLen, r', s')
    requires k < |clean| && dirty == clean[k := dirty[k]] && dirty[k] != clean[k]
    ensures (r' == r) != (s' == s)
  {
    if k < bnLen {
      OneByteChange(dirty[..bnLen], clean[..bnLen], k);
      assert dirty[bnLen..] == clean[bnLen..];
    } else {
      OneByteChange(dirty[bnLen..], clean[bnLen..], k - bnLen);
      assert dirty[..bnLen] == clean[..bnLen];
    }
  }

  /** raw_buf[offset] ^= dirt */
  method Flip(raw: array<byte>, offset: nat, dirt: byte)
    requires offset < raw.Length
    modifies raw
    ensures raw[..] == old(raw[..])[offset := XorByte(old(raw[offset]), dirt)]
  {
    raw[offset] := XorByte(raw[offset], dirt);
  }

  /** The n bytes of v, the most significant first. */
  function BigEndian(v: nat, n: nat): (s: seq<byte>)
    ensures |s| == n
  {
    Reverse(ToLe(v, n))
  }

  lemma BigEndianOnly(s: seq<byte>)
    ensures s == BigEndian(FromBe(s), |s|)
  {
    var t := BigEndian(FromBe(s), |s|);
    FromBeBound(s);
    LeRoundTrip(FromBe(s), |s|);
    ReverseSwapsEndianness(ToLe(FromBe(s), |s|));
    FromBeInjective(s, t);
  }

  /** What the buffer holds, byte for byte. */
  lemma BufferBytes(buf: seq<byte>, n: nat, r: nat, s: nat)
    requires Holds(buf, n, r, s)
    ensures buf == BigEndian(r, n) + BigEndian(s, n)
  {
    BigEndianOnly(buf[..n]);
    BigEndianOnly(buf[n..]);
    assert buf == buf[..n] + buf[n..];
  }

  /** What the test observes of one curve: whether it got past the length and allocation checks,
      the numbers read back after the flip, and those read back after undoing it. */
  datatype Outcome = Refused | Done(modified: (nat, nat), unmodified: (nat, nat))

  /** The flip, reading the numbers, undoing the flip and reading them again. */
  method FlipAndUndo(raw: array<byte>, bnLen: nat, ghost r: nat, ghost s: nat)
    returns (r1: nat, s1: nat, r2: nat, s2: nat)
    requires raw.Length == 2 * bnLen && bnLen >= 6 && Holds(raw[..], bnLen, r, s)
    modifies raw
    ensures raw[..] == old(raw[..]) && r2 == r && s2 == s
    ensures (r1 == r) != (s1 == s) && r1 < Power(256, bnLen) && s1 < Power(256, bnLen)
    ensures var at, dirt := old(raw[10]) % (2 * bnLen), if old(raw[11]) != 0 then old(raw[11]) else 1;
      Holds(old(raw[..])[at := XorByte(old(raw[..])[at], dirt)], bnLen, r1, s1)
  {
    ghost var clean := raw[..];
    var offset := raw[10] % raw.Length;
    var dirt := if raw[11] != 0 then raw[11] else 1;
    Flip(raw, offset, dirt);
    ghost var dirty := raw[..];
    r1, s1 := ReadNumbers(raw, bnLen);
    XorChanges(clean[offset], dirt);
    FlipChangesOne(clean, dirty, offset, bnLen, r, s, r1, s1);
    Flip(raw, offset, dirt);
    XorTwice(clean[offset], dirt);
    assert raw[..] == clean;
    r2, s2 := ReadNumbers(raw, bnLen);
  }

  /** degree is the curve's degree; smaller curves are dropped before this point.  The byte at the
      position that byte 10 of the buffer selects is changed by byte 11, or by 1 when that is zero. */
  method TamperAndUndo(degree: nat, r: nat, s: nat, allocOk: bool) returns (o: Outcome)
    requires degree >= 160
    ensures var bnLen := (degree + 7) / 8;
      o.Done? <==> allocOk && r < Power(256, bnLen) && s < Power(256, bnLen)
    ensures o.Done? ==> o.unmodified == (r, s)
    ensures o.Done? ==> (o.modified.0 == r) != (o.modified.1 == s)
    ensures o.Done? ==> var bnLen := (degree + 7) / 8;
      o.modified.0 < Power(256, bnLen) && o.modified.1 < Power(256, bnLen)
    ensures o.Done? ==> var n := (degree + 7) / 8;
      var clean := BigEndian(r, n) + BigEndian(s, n);
      var at, dirt := clean[10] % (2 * n), if clean[11] != 0 then clean[11] else 1;
      Holds(clean[at := XorByte(clean[at], dirt)], n, o.modified.0, o.modified.1)
  {
    var rLen, sLen, bnLen := NumBytes(r), NumBytes(s), (degree + 7) / 8;
    NumBytesFits(r, bnLen);
    NumBytesFits(s, bnLen);
    if rLen > bnLen || sLen > bnLen { return Refused; }
    if !allocOk { return Refused; }
    var raw := StoreNumbers(bnLen, r, s);
    BufferBytes(raw[..], bnLen, r, s);
    var r1, s1, r2, s2 := FlipAndUndo(raw, bnLen, r, s);
    o := Done((r1, s1), (r2, s2));
  }
}
