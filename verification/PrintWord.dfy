/** print_word of bntest.c: prints a machine word in upper-case hexadecimal, for a word of any
    number of bytes. */
module PrintWord {
  import opened Arith
  import opened Bytes

  function Digit(d: nat): char
    requires d < 16
  {
    "0123456789ABCDEF"[d]
  }

  predicate IsDigit(c: char) { '0' <= c <= '9' || 'A' <= c <= 'F' }

  function DigitValue(c: char): nat
    requires IsDigit(c)
  {
    if c <= '9' then c as nat - '0' as nat else c as nat - 'A' as nat + 10
  }

  lemma DigitRoundTrip(d: nat)
    requires d < 16
    ensures IsDigit(Digit(d)) && DigitValue(Digit(d)) == d
    ensures Digit(d) == '0' <==> d == 0
  {}

  /** BIO_printf("%X", byte) */
  function FormatX(b: byte): string { if b < 16 then [Digit(b)] else [Digit(b / 16), Digit(b % 16)] }

  /** BIO_printf("%02X", byte) */
  function Format02X(b: byte): string { [Digit(b / 16), Digit(b % 16)] }

  predicate IsHex(s: string) { forall i :: 0 <= i < |s| ==> IsDigit(s[i]) }

  function ParseHex(s: string): nat
    requires IsHex(s)
  {
    if s == [] then 0 else 16 * ParseHex(s[..|s| - 1]) + DigitValue(s[|s| - 1])
  }

  lemma ParseAppend(s: string, d: nat)
    requires IsHex(s) && d < 16
    ensures IsHex(s + [Digit(d)]) && ParseHex(s + [Digit(d)]) == 16 * ParseHex(s) + d
  {
    DigitRoundTrip(d);
    assert (s + [Digit(d)])[..|s|] == s;
  }

  lemma ParseByte(s: string, b: byte)
    requires IsHex(s)
    ensures IsHex(s + Format02X(b)) && ParseHex(s + Format02X(b)) == 256 * ParseHex(s) + b
    ensures s == "" ==> IsHex(FormatX(b)) && ParseHex(FormatX(b)) == b
  {
    ParseAppend(s, b / 16);
    ParseAppend(s + [Digit(b / 16)], b % 16);
    assert s + [Digit(b / 16)] + [Digit(b % 16)] == s + Format02X(b);
    if b < 16 {
      ParseAppend("", b);
      assert "" + [Digit(b)] == FormatX(b);
    } else {
      assert s == "" ==> s + Format02X(b) == FormatX(b);
    }
  }

  /** Printed numbers: hexadecimal digits without a superfluous leading zero. */
  predicate Canonical(s: string) { IsHex(s) && (s == "0" || (s != "" && s[0] != '0')) }

  lemma {:induction false} NonzeroLead(s: string)
    requires IsHex(s) && s != "" && s[0] != '0'
    ensures ParseHex(s) > 0
  {
    var n := |s| - 1;
    if n > 0 {
      assert s[..n][0] == s[0];
      NonzeroLead(s[..n]);
    }
  }

  /** A word has exactly one canonical print. */
  lemma {:induction false} CanonicalUnique(s: string, t: string)
    requires Canonical(s) && Canonical(t) && ParseHex(s) == ParseHex(t)
    ensures s == t
  {
    if s != "0" { NonzeroLead(s); }
    if t != "0" { NonzeroLead(t); }
    if s != "0" && t != "0" {
      SuffixUnique(s, t);
    }
  }

  lemma DigitsDiffer(c: char, d: char)
    requires IsDigit(c) && IsDigit(d) && DigitValue(c) == DigitValue(d)
    ensures c == d
  {}

  /** The last digit and the number before it. */
  lemma LastDigit(s: string, v: nat, d: nat)
    requires IsHex(s) && s != "" && v == ParseHex(s[..|s| - 1]) && d == DigitValue(s[|s| - 1])
    ensures ParseHex(s) / 16 == v && ParseHex(s) % 16 == d
    ensures |s| > 1 ==> s[..|s| - 1][0] == s[0]
  {
    assert ParseHex(s) == 16 * v + d && d < 16;
  }

  lemma {:induction false} SuffixUnique(s: string, t: string)
    requires IsHex(s) && IsHex(t) && s != "" && t != "" && s[0] != '0' && t[0] != '0'
    requires ParseHex(s) == ParseHex(t)
    ensures s == t
  {
    var m, n := |s| - 1, |t| - 1;
    LastDigit(s, ParseHex(s[..m]), DigitValue(s[m]));
    LastDigit(t, ParseHex(t[..n]), DigitValue(t[n]));
    DigitsDiffer(s[m], t[n]);
    if m > 0 { NonzeroLead(s[..m]); }
    if n > 0 { NonzeroLead(t[..n]); }
    if m > 0 && n > 0 { SuffixUnique(s[..m], t[..n]); }
    assert s == s[..m] + [s[m]] && t == t[..n] + [t[n]];
  }

  /** w >> i */
  function Shr(w: nat, i: nat): nat { if i == 0 then w else Shr(w / 2, i - 1) }

  lemma {:induction false} ShrHalf(w: nat, i: nat)
    ensures Shr(w, i + 1) == Shr(w, i) / 2
    decreases i
  {
    if i == 0 {
    } else {
      ShrHalf(w / 2, i - 1);
    }
  }

  lemma {:induction false} ShrAll(w: nat, n: nat)
    requires w < Power(2, n)
    ensures Shr(w, n) == 0
    decreases n
  {
    if n == 0 {
    } else {
      ShrAll(w / 2, n - 1);
    }
  }

  lemma ShrNibble(w: nat, i: nat)
    ensures Shr(w, i + 4) == Shr(w, i) / 16
  {
    ShrHalf(w, i);
    ShrHalf(w, i + 1);
    assert Shr(w, i + 2) == Shr(w, i) / 4;
    ShrHalf(w, i + 2);
    ShrHalf(w, i + 3);
  }

  /** The bits of w from bit i upwards are those from bit i+8 upwards and one more byte. */
  lemma ShiftStep(w: nat, i: nat)
    ensures Shr(w, i) == 256 * Shr(w, i + 8) + Shr(w, i) % 256
  {
    ShrNibble(w, i);
    ShrNibble(w, i + 4);
  }

  /** The format chosen for the next byte: none until a nonzero byte was seen. */
  datatype Fmt = NoFmt | FmtX | Fmt02X

  function Emit(fmt: Fmt, b: byte): string {
    match fmt case NoFmt => "" case FmtX => FormatX(b) case Fmt02X => Format02X(b)
  }

  /** What holds between two bytes: the output parses to the bits seen so far, v. */
  predicate Printed(fmt: Fmt, out: string, v: nat) {
    && IsHex(out) && ParseHex(out) == v
    && (fmt == NoFmt <==> out == "")
    && (out != "" ==> out[0] != '0')
  }

  function NextFmt(fmt: Fmt, b: byte): Fmt {
    if fmt == NoFmt then (if b != 0 then FmtX else NoFmt) else Fmt02X
  }

  lemma EmitStep(fmt: Fmt, out: string, v: nat, b: byte)
    requires Printed(fmt, out, v)
    ensures var fmt' := NextFmt(fmt, b); Printed(fmt', out + Emit(fmt', b), 256 * v + b)
  {
    ParseByte(out, b);
    DigitRoundTrip(b / 16);
    DigitRoundTrip(b % 16);
    assert out + "" == out;
    assert "" + FormatX(b) == FormatX(b);
  }

  /** One pass of the loop of print_word: the byte at bit i of w. */
  lemma ByteStep(fmt: Fmt, out: string, w: nat, i: nat, b: byte)
    requires Printed(fmt, out, Shr(w, i + 8)) && b == Shr(w, i) % 256
    ensures Printed(NextFmt(fmt, b), out + Emit(NextFmt(fmt, b), b), Shr(w, i))
    ensures NextFmt(fmt, b) == NoFmt ==> out + Emit(NextFmt(fmt, b), b) == out
  {
    ShiftStep(w, i);
    EmitStep(fmt, out, Shr(w, i + 8), b);
  }

  /** The output once the whole word was seen. */
  lemma Completed(fmt: Fmt, out: string, w: nat)
    requires Printed(fmt, out, w)
    ensures var all := if fmt == NoFmt then out + "0" else out; Canonical(all) && ParseHex(all) == w
  {
    if fmt == NoFmt {
      ParseAppend("", 0);
      assert "" + [Digit(0)] == "0" == out + "0";
    }
  }

  /** print_word(bp, w) for a word of n bytes; returns what is written to bp. */
  method PrintWord(n: nat, w: nat) returns (out: string)
    requires n >= 1 && w < Power(2, 8 * n)
    ensures Canonical(out) && ParseHex(out) == w
  {
    var i := 8 * n;
    var fmt := NoFmt;
    out := "";
    ShrAll(w, i);
    while true
      invariant 0 < i <= 8 * n && i % 8 == 0
      invariant Printed(fmt, out, Shr(w, i))
      decreases i
    {
      i := i - 8;
      var b: byte := Shr(w, i) % 256;
      ByteStep(fmt, out, w, i, b);
      fmt := NextFmt(fmt, b);
      if fmt != NoFmt { out := out + Emit(fmt, b); }
      if i == 0 { break; }
    }
    Completed(fmt, out, w);
    if fmt == NoFmt { out := out + "0"; }
  }

  /** The digits are the usual ones, letters in upper case: with PrintWord and CanonicalUnique this
      fixes every print. */
  lemma DigitsAsWritten()
    ensures Canonical("9AF") && ParseHex("9AF") == 0x9AF && ParseHex("10") == 16 && !IsDigit('a')
  {
    assert "9AF"[..2] == "9A" && "9A"[..1] == "9" && "9"[..0] == "";
    assert ParseHex("9") == 9 && ParseHex("9A") == 0x9A;
    assert "10"[..1] == "1" && "1"[..0] == "" && ParseHex("1") == 1;
  }
}
