/** Byte strings, little- and big-endian numbers, and the byte buffers of the C code. */
module Bytes {
  import opened Arith

  type byte = x: int | 0 <= x < 256

  function Zeros(n: nat): (s: seq<byte>)
    ensures |s| == n
  {
    seq(n, _ => 0)
  }

  function Reverse<T>(s: seq<T>): (r: seq<T>)
    ensures |r| == |s|
    ensures forall i :: 0 <= i < |s| ==> r[i] == s[|s| - 1 - i]
  {
    if s == [] then [] else Reverse(s[1..]) + [s[0]]
  }

  lemma ReverseTwice<T>(s: seq<T>)
    ensures Reverse(Reverse(s)) == s
  {
    assert forall i :: 0 <= i < |s| ==> Reverse(Reverse(s))[i] == Reverse(s)[|s| - 1 - i];
  }

  // ---------- numbers ----------

  /** The number whose bytes are s, the least significant first. */
  function FromLe(s: seq<byte>): nat
  {
    if s == [] then 0 else s[0] + 256 * FromLe(s[1..])
  }

  /** The number whose bytes are s, the most significant first (BN_bin2bn). */
  function FromBe(s: seq<byte>): nat
  {
    if s == [] then 0 else 256 * FromBe(s[..|s| - 1]) + s[|s| - 1]
  }

  /** The n low bytes of v, the least significant first: how x86 stores an unsigned integer. */
  function ToLe(v: nat, n: nat): (s: seq<byte>)
    ensures |s| == n
  {
    if n == 0 then [] else [v % 256] + ToLe(v / 256, n - 1)
  }

  lemma {:induction false} LeRoundTrip(v: nat, n: nat)
    requires v < Power(256, n)
    ensures FromLe(ToLe(v, n)) == v
    decreases n
  {
    if n == 0 {
    } else {
      LeRoundTrip(v / 256, n - 1);
      assert ToLe(v, n)[1..] == ToLe(v / 256, n - 1);
    }
  }

  lemma {:induction false} FromLeBound(s: seq<byte>)
    ensures FromLe(s) < Power(256, |s|)
  {
    if s == [] {
    } else {
      FromLeBound(s[1..]);
    }
  }

  lemma {:induction false} LeToLe(s: seq<byte>)
    ensures ToLe(FromLe(s), |s|) == s
  {
    if s == [] {
    } else {
      LeToLe(s[1..]);
      assert FromLe(s) % 256 == s[0] && FromLe(s) / 256 == FromLe(s[1..]);
    }
  }

  lemma {:induction false} ReverseSwapsEndianness(s: seq<byte>)
    ensures FromBe(Reverse(s)) == FromLe(s)
  {
    if s == [] {
    } else {
      var r := Reverse(s);
      assert r[..|r| - 1] == Reverse(s[1..]);
      ReverseSwapsEndianness(s[1..]);
    }
  }

  lemma {:induction false} FromBeBound(s: seq<byte>)
    ensures FromBe(s) < Power(256, |s|)
  {
    if s == [] {
    } else {
      FromBeBound(s[..|s| - 1]);
    }
  }

  /** Strings of equal length with equal values are equal. */
  lemma {:induction false} FromBeInjective(s: seq<byte>, t: seq<byte>)
    requires |s| == |t| && FromBe(s) == FromBe(t)
    ensures s == t
  {
    if s == [] {
    } else {
      var n := |s| - 1;
      assert s[n] == FromBe(s) % 256 && t[n] == FromBe(t) % 256;
      FromBeInjective(s[..n], t[..n]);
      assert s == s[..n] + [s[n]] && t == t[..n] + [t[n]];
    }
  }

  lemma {:induction false} LeadingZeros(n: nat, s: seq<byte>)
    ensures FromBe(Zeros(n) + s) == FromBe(s)
    decreases |s|, n
  {
    var z := Zeros(n) + s;
    if s != [] {
      assert z[..|z| - 1] == Zeros(n) + s[..|s| - 1];
      LeadingZeros(n, s[..|s| - 1]);
    } else if n > 0 {
      assert z[..n - 1] == Zeros(n - 1) + [];
      LeadingZeros(n - 1, []);
    }
  }

  // ---------- stores into a byte string at an offset ----------

  /** The string after storing v at offset `at`. */
  function Put(s: seq<byte>, at: nat, v: seq<byte>): (r: seq<byte>)
    requires at + |v| <= |s|
    ensures |r| == |s|
  {
    s[..at] + v + s[at + |v|..]
  }

  /** The n bytes at offset `at`: a field read through a cast. */
  function Get(s: seq<byte>, at: nat, n: nat): (r: seq<byte>)
    requires at + n <= |s|
    ensures |r| == n
  {
    s[at..at + n]
  }

  lemma GetPutSame(s: seq<byte>, at: nat, v: seq<byte>)
    requires at + |v| <= |s|
    ensures Get(Put(s, at, v), at, |v|) == v
  {}

  lemma GetPutOther(s: seq<byte>, at: nat, v: seq<byte>, from: nat, n: nat)
    requires at + |v| <= |s| && from + n <= |s|
    requires from + n <= at || at + |v| <= from
    ensures Get(Put(s, at, v), from, n) == Get(s, from, n)
  {}

  /** memcpy_s into a buffer: refuses when the destination is too small, and then writes nothing. */
  method MemcpyS(dst: array<byte>, at: nat, room: nat, src: seq<byte>) returns (err: int)
    requires at + room <= dst.Length
    modifies dst
    ensures err == if |src| <= room then 0 else -1
    ensures dst[..] == if |src| <= room then Put(old(dst[..]), at, src) else old(dst[..])
  {
    if room < |src| {
      return -1;
    }
    ghost var before := dst[..];
    for i := 0 to |src|
      invariant forall j :: 0 <= j < i ==> dst[at + j] == src[j]
      invariant forall j :: 0 <= j < at || at + i <= j < dst.Length ==> dst[j] == before[j]
    {
      dst[at + i] := src[i];
    }
    assert dst[..at] == before[..at] && dst[at..at + |src|] == src && dst[at + |src|..] == before[at + |src|..];
    return 0;
  }
}
