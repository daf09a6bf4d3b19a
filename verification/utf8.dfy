/**
  UTF-8 as Go's `unicode/utf8` reads it: `DecodeRune` takes the first
  character of a byte sequence, or reports `(RuneError, 1)` when the
  sequence does not start with a well-formed character.  Well-formedness is
  the grammar of section 4 of RFC 3629 (no overlong forms, no surrogates,
  nothing above U+10FFFF).
 */
module Utf8 {
  import opened Unicode

  type Byte = x: int | 0 <= x < 256

  /** A decoded rune and the number of bytes it took. */
  datatype Decoding = Decoding(rune: int, size: nat)

  /** The result of decoding a sequence that does not start with a character. */
  const Invalid: Decoding := Decoding(RuneError, 1)

  predicate IsContinuation(b: Byte) {
    0x80 <= b <= 0xBF
  }

  /** The rule UTF8-char of the grammar in section 4 of RFC 3629. */
  predicate IsChar(q: seq<Byte>) {
    || (|q| == 1 && q[0] <= 0x7F)
    || (|q| == 2 && 0xC2 <= q[0] <= 0xDF && IsContinuation(q[1]))
    || (&& |q| == 3
        && IsContinuation(q[2])
        && (|| (q[0] == 0xE0 && 0xA0 <= q[1] <= 0xBF)
            || (0xE1 <= q[0] <= 0xEC && IsContinuation(q[1]))
            || (q[0] == 0xED && 0x80 <= q[1] <= 0x9F)
            || (0xEE <= q[0] <= 0xEF && IsContinuation(q[1]))))
    || (&& |q| == 4
        && IsContinuation(q[2]) && IsContinuation(q[3])
        && (|| (q[0] == 0xF0 && 0x90 <= q[1] <= 0xBF)
            || (0xF1 <= q[0] <= 0xF3 && IsContinuation(q[1]))
            || (q[0] == 0xF4 && 0x80 <= q[1] <= 0x8F)))
  }

  /** The rule UTF8-octets: a sequence of zero or more characters. */
  predicate WellFormed(bs: seq<Byte>)
    decreases |bs|
  {
    || |bs| == 0
    || (|bs| >= 1 && IsChar(bs[..1]) && WellFormed(bs[1..]))
    || (|bs| >= 2 && IsChar(bs[..2]) && WellFormed(bs[2..]))
    || (|bs| >= 3 && IsChar(bs[..3]) && WellFormed(bs[3..]))
    || (|bs| >= 4 && IsChar(bs[..4]) && WellFormed(bs[4..]))
  }

  /**
    What the first byte of a sequence announces (Go's `first` table joined
    with its `acceptRanges`): an ASCII byte, a byte that cannot start a
    character, or the start of a `width`-byte character whose second byte
    must lie in `lo..hi`.
   */
  datatype Lead = Ascii | Bad | Multi(width: nat, lo: Byte, hi: Byte)

  function Classify(b: Byte): Lead {
    if b < 0x80 then Ascii
    else if b < 0xC2 then Bad
    else if b < 0xE0 then Multi(2, 0x80, 0xBF)
    else if b == 0xE0 then Multi(3, 0xA0, 0xBF)
    else if b < 0xED then Multi(3, 0x80, 0xBF)
    else if b == 0xED then Multi(3, 0x80, 0x9F)
    else if b < 0xF0 then Multi(3, 0x80, 0xBF)
    else if b == 0xF0 then Multi(4, 0x90, 0xBF)
    else if b < 0xF4 then Multi(4, 0x80, 0xBF)
    else if b == 0xF4 then Multi(4, 0x80, 0x8F)
    else Bad
  }

  /** Go's `utf8.DecodeRune`. */
  function DecodeRune(p: seq<Byte>): (d: Decoding)
    ensures |p| == 0 ==> d == Decoding(RuneError, 0)
    ensures |p| > 0 ==> 1 <= d.size <= 4 && d.size <= |p|
    ensures IsScalar(d.rune)
  {
    if |p| == 0 then Decoding(RuneError, 0)
    else
      match Classify(p[0])
      case Ascii => Decoding(p[0], 1)
      case Bad => Invalid
      case Multi(width, lo, hi) =>
        if |p| < width then Invalid
        else if !(lo <= p[1] <= hi) then Invalid
        else if width == 2 then
          Decoding((p[0] as int - 0xC0) * 0x40 + (p[1] as int - 0x80), 2)
        else if !IsContinuation(p[2]) then Invalid
        else if width == 3 then
          Decoding((p[0] as int - 0xE0) * 0x1000 + (p[1] as int - 0x80) * 0x40 + (p[2] as int - 0x80), 3)
        else if !IsContinuation(p[3]) then Invalid
        else
          Decoding((p[0] as int - 0xF0) * 0x40000 + (p[1] as int - 0x80) * 0x1000
                   + (p[2] as int - 0x80) * 0x40 + (p[3] as int - 0x80), 4)
  }

  /** What decodes is a character of the grammar. */
  lemma DecodeSound(p: seq<Byte>)
    requires |p| > 0 && DecodeRune(p) != Invalid
    ensures IsChar(p[..DecodeRune(p).size])
  {
  }

  /** Go's `utf8.EncodeRune`, for scalar values. */
  function EncodeRune(c: int): (q: seq<Byte>)
    requires IsScalar(c)
    ensures 1 <= |q| <= 4
    ensures IsChar(q)
  {
    if c < 0x80 then [c]
    else if c < 0x800 then [0xC0 + c / 0x40, 0x80 + c % 0x40]
    else if c < 0x10000 then
      [0xE0 + c / 0x1000, 0x80 + (c / 0x40) % 0x40, 0x80 + c % 0x40]
    else
      [0xF0 + c / 0x40000, 0x80 + (c / 0x1000) % 0x40,
       0x80 + (c / 0x40) % 0x40, 0x80 + c % 0x40]
  }

  /** Division by 64 undoes a shift by six bits. */
  lemma Shift6(hi: int, lo: int)
    requires 0 <= lo < 0x40
    ensures (hi * 0x40 + lo) / 0x40 == hi
    ensures (hi * 0x40 + lo) % 0x40 == lo
  {
  }

  /** Decoding the encoding of a scalar value gives it back, whatever follows. */
  lemma DecodeEncode(c: int, rest: seq<Byte>)
    requires IsScalar(c)
    ensures DecodeRune(EncodeRune(c) + rest) == Decoding(c, |EncodeRune(c)|)
  {
    var q := EncodeRune(c);
    assert (q + rest)[..|q|] == q;
    if c < 0x80 {
    } else if c < 0x800 {
      DecodeEncode2(c, rest);
    } else if c < 0x10000 {
      DecodeEncode3(c, rest);
    } else {
      DecodeEncode4(c, rest);
    }
  }

  lemma DecodeEncode2(c: int, rest: seq<Byte>)
    requires IsScalar(c) && 0x80 <= c < 0x800
    ensures DecodeRune(EncodeRune(c) + rest) == Decoding(c, 2)
  {
    var p := EncodeRune(c) + rest;
    Shift6(c / 0x40, c % 0x40);
    assert p[0] == 0xC0 + c / 0x40 && p[1] == 0x80 + c % 0x40;
    assert DecodeRune(p).rune == (c / 0x40) * 0x40 + c % 0x40;
  }

  lemma DecodeEncode3(c: int, rest: seq<Byte>)
    requires IsScalar(c) && 0x800 <= c < 0x10000
    ensures DecodeRune(EncodeRune(c) + rest) == Decoding(c, 3)
  {
    var p := EncodeRune(c) + rest;
    var c1 := c / 0x40;
    assert c == c1 * 0x40 + c % 0x40;
    assert c1 == (c1 / 0x40) * 0x40 + c1 % 0x40;
    assert c1 / 0x40 == c / 0x1000;
    assert p[0] == 0xE0 + c / 0x1000 && p[1] == 0x80 + c1 % 0x40 && p[2] == 0x80 + c % 0x40;
    assert DecodeRune(p).rune == (c / 0x1000) * 0x1000 + (c1 % 0x40) * 0x40 + c % 0x40;
  }

  lemma DecodeEncode4(c: int, rest: seq<Byte>)
    requires IsScalar(c) && 0x10000 <= c
    ensures DecodeRune(EncodeRune(c) + rest) == Decoding(c, 4)
  {
    var p := EncodeRune(c) + rest;
    var c1 := c / 0x40;
    var c2 := c1 / 0x40;
    assert c == c1 * 0x40 + c % 0x40;
    assert c1 == c2 * 0x40 + c1 % 0x40;
    assert c2 == (c2 / 0x40) * 0x40 + c2 % 0x40;
    assert c2 == c / 0x1000;
    assert c2 / 0x40 == c / 0x40000;
    assert p[0] == 0xF0 + c / 0x40000 && p[1] == 0x80 + c2 % 0x40;
    assert p[2] == 0x80 + c1 % 0x40 && p[3] == 0x80 + c % 0x40;
    assert DecodeRune(p).rune
      == (c / 0x40000) * 0x40000 + (c2 % 0x40) * 0x1000 + (c1 % 0x40) * 0x40 + c % 0x40;
  }

  lemma Shift12(hi: int, lo: int)
    requires 0 <= lo < 0x1000
    ensures (hi * 0x1000 + lo) / 0x1000 == hi
  {
  }

  lemma Shift18(hi: int, lo: int)
    requires 0 <= lo < 0x40000
    ensures (hi * 0x40000 + lo) / 0x40000 == hi
  {
  }

  /** A successful decoding has read exactly the encoding of the rune it returns. */
  lemma EncodeDecode(p: seq<Byte>)
    requires |p| > 0 && DecodeRune(p) != Invalid
    ensures EncodeRune(DecodeRune(p).rune) == p[..DecodeRune(p).size]
  {
    var d := DecodeRune(p);
    if d.size == 2 {
      Shift6(p[0] as int - 0xC0, p[1] as int - 0x80);
    } else if d.size == 3 {
      EncodeDecode3(p);
    } else if d.size == 4 {
      EncodeDecode4(p);
    }
  }

  lemma EncodeDecode3(p: seq<Byte>)
    requires |p| > 0 && DecodeRune(p) != Invalid && DecodeRune(p).size == 3
    ensures EncodeRune(DecodeRune(p).rune) == p[..3]
  {
    var c := DecodeRune(p).rune;
    var b0: int, b1: int, b2: int := p[0], p[1], p[2];
    var c1 := (b0 - 0xE0) * 0x40 + (b1 - 0x80);
    assert c == c1 * 0x40 + (b2 - 0x80);
    Shift6(c1, b2 - 0x80);
    Shift6(b0 - 0xE0, b1 - 0x80);
    Shift12(b0 - 0xE0, (b1 - 0x80) * 0x40 + (b2 - 0x80));
  }

  lemma EncodeDecode4(p: seq<Byte>)
    requires |p| > 0 && DecodeRune(p) != Invalid && DecodeRune(p).size == 4
    ensures EncodeRune(DecodeRune(p).rune) == p[..4]
  {
    var c := DecodeRune(p).rune;
    var b0: int, b1: int, b2: int, b3: int := p[0], p[1], p[2], p[3];
    var c2 := (b0 - 0xF0) * 0x40 + (b1 - 0x80);
    var c1 := c2 * 0x40 + (b2 - 0x80);
    assert c == c1 * 0x40 + (b3 - 0x80);
    Shift6(c1, b3 - 0x80);
    Shift6(c2, b2 - 0x80);
    Shift6(b0 - 0xF0, b1 - 0x80);
    Shift12(c2, (b2 - 0x80) * 0x40 + (b3 - 0x80));
    Shift18(b0 - 0xF0, (b1 - 0x80) * 0x1000 + (b2 - 0x80) * 0x40 + (b3 - 0x80));
  }

  /** Every sequence that starts with a character decodes as that character. */
  lemma DecodeComplete(p: seq<Byte>, n: nat)
    requires 1 <= n <= |p| && IsChar(p[..n])
    ensures DecodeRune(p) != Invalid && DecodeRune(p).size == n
  {
  }

  /** A successful decoding looks at no byte beyond the character it returns. */
  lemma DecodeLocal(p: seq<Byte>, t: seq<Byte>)
    requires |p| > 0 && DecodeRune(p) != Invalid
    requires DecodeRune(p).size <= |t|
    requires t[..DecodeRune(p).size] == p[..DecodeRune(p).size]
    ensures DecodeRune(t) == DecodeRune(p)
  {
    var n := DecodeRune(p).size;
    DecodeComplete(t, n);
    EncodeDecode(p);
    EncodeDecode(t);
    DecodeEncode(DecodeRune(p).rune, []);
    DecodeEncode(DecodeRune(t).rune, []);
    assert EncodeRune(DecodeRune(p).rune) + [] == EncodeRune(DecodeRune(t).rune) + [];
  }

  /** Appending bytes never changes a successful decoding. */
  lemma DecodeExtend(p: seq<Byte>, rest: seq<Byte>)
    requires |p| > 0 && DecodeRune(p) != Invalid
    ensures DecodeRune(p + rest) == DecodeRune(p)
  {
    var n := DecodeRune(p).size;
    assert (p + rest)[..n] == p[..n];
    DecodeLocal(p, p + rest);
  }

  /**
    Go's `!utf8.FullRune(p)` for a non-empty `p`: the bytes so far are a
    valid beginning of a multi-byte character that has not ended yet.
   */
  predicate Incomplete(p: seq<Byte>) {
    && |p| > 0
    && Classify(p[0]).Multi?
    && |p| < Classify(p[0]).width
    && (|p| > 1 ==> Classify(p[0]).lo <= p[1] <= Classify(p[0]).hi)
    && (|p| > 2 ==> IsContinuation(p[2]))
  }

  /** A truncated sequence is at most three bytes long and does not decode. */
  lemma IncompleteIsInvalid(p: seq<Byte>)
    requires Incomplete(p)
    ensures |p| <= 3 && DecodeRune(p) == Invalid
  {
  }

  /** Every proper non-empty prefix of a character is a truncated sequence; `IncompleteCompletes` is the converse. */
  lemma IncompleteIsCutChar(p: seq<Byte>, q: seq<Byte>)
    requires IsChar(q) && 0 < |p| < |q| && p == q[..|p|]
    ensures Incomplete(p)
  {
  }

  /** Conversely, a truncated sequence can be completed to a character. */
  lemma IncompleteCompletes(p: seq<Byte>) returns (q: seq<Byte>)
    requires Incomplete(p)
    ensures IsChar(q) && |p| < |q| && q[..|p|] == p
  {
    var w := Classify(p[0]).width;
    var b1: Byte := if |p| > 1 then p[1] else Classify(p[0]).lo;
    var b2: Byte := if |p| > 2 then p[2] else 0x80;
    q := [p[0], b1, b2, 0x80][..w];
    assert q[..|p|] == p;
  }

  /**
    The runes a reader sees: decode, step over, repeat.  Each byte that
    does not start a character reads as one U+FFFD.
   */
  function DecodeAll(bs: seq<Byte>): (rs: seq<int>)
    ensures |rs| <= |bs|
    ensures forall i :: 0 <= i < |rs| ==> IsScalar(rs[i])
    decreases |bs|
  {
    if |bs| == 0 then []
    else
      var d := DecodeRune(bs);
      [d.rune] + DecodeAll(bs[d.size..])
  }

  /** The encoding of a sequence of scalar values. */
  function EncodeAll(rs: seq<int>): (bs: seq<Byte>)
    requires forall i :: 0 <= i < |rs| ==> IsScalar(rs[i])
    ensures |rs| <= |bs| <= 4 * |rs|
  {
    if |rs| == 0 then [] else EncodeRune(rs[0]) + EncodeAll(rs[1..])
  }

  /** A well-formed sequence starts with a character and continues well-formed. */
  lemma WellFormedStep(bs: seq<Byte>)
    requires WellFormed(bs) && |bs| > 0
    ensures DecodeRune(bs) != Invalid
    ensures WellFormed(bs[DecodeRune(bs).size..])
  {
    var n :| 1 <= n <= 4 && n <= |bs| && IsChar(bs[..n]) && WellFormed(bs[n..]);
    DecodeComplete(bs, n);
  }

  lemma WellFormedCons(bs: seq<Byte>)
    requires |bs| > 0 && DecodeRune(bs) != Invalid
    requires WellFormed(bs[DecodeRune(bs).size..])
    ensures WellFormed(bs)
  {
    DecodeSound(bs);
  }

  /** Encoding then decoding is the identity on scalar values. */
  lemma {:induction false} DecodeAllEncodeAll(rs: seq<int>)
    requires forall i :: 0 <= i < |rs| ==> IsScalar(rs[i])
    ensures WellFormed(EncodeAll(rs))
    ensures DecodeAll(EncodeAll(rs)) == rs
  {
    if |rs| > 0 {
      var q := EncodeRune(rs[0]);
      var tail := EncodeAll(rs[1..]);
      DecodeAllEncodeAll(rs[1..]);
      DecodeEncode(rs[0], tail);
      assert (q + tail)[|q|..] == tail;
      WellFormedCons(q + tail);
    }
  }

  lemma EncodeAllCons(r: int, rs: seq<int>)
    requires IsScalar(r) && forall i :: 0 <= i < |rs| ==> IsScalar(rs[i])
    ensures EncodeAll([r] + rs) == EncodeRune(r) + EncodeAll(rs)
  {
    assert ([r] + rs)[1..] == rs;
  }

  /** Decoding then encoding is the identity on well-formed bytes. */
  lemma {:induction false} EncodeAllDecodeAll(bs: seq<Byte>)
    requires WellFormed(bs)
    ensures EncodeAll(DecodeAll(bs)) == bs
    decreases |bs|
  {
    if |bs| > 0 {
      WellFormedStep(bs);
      var d := DecodeRune(bs);
      var tail := DecodeAll(bs[d.size..]);
      EncodeAllDecodeAll(bs[d.size..]);
      EncodeDecode(bs);
      EncodeAllCons(d.rune, tail);
      assert bs == bs[..d.size] + bs[d.size..];
    }
  }

  /** Cutting bytes off after the first character changes neither its decoding nor well-formedness. */
  lemma DecodePrefixCons(bs: seq<Byte>, k: nat)
    requires |bs| > 0 && DecodeRune(bs) != Invalid && DecodeRune(bs).size <= k <= |bs|
    ensures DecodeAll(bs[..k]) == [DecodeRune(bs).rune] + DecodeAll(bs[DecodeRune(bs).size..k])
    ensures WellFormed(bs[DecodeRune(bs).size..k]) ==> WellFormed(bs[..k])
  {
    var n := DecodeRune(bs).size;
    var head := bs[..k];
    assert head[..n] == bs[..n];
    DecodeLocal(bs, head);
    assert head[n..] == bs[n..k];
    if WellFormed(bs[n..k]) {
      WellFormedCons(head);
    }
  }

  /** After a well-formed sequence, decoding starts afresh. */
  lemma {:induction false} DecodeAllAfterWellFormed(w: seq<Byte>, x: seq<Byte>)
    requires WellFormed(w)
    ensures DecodeAll(w + x) == DecodeAll(w) + DecodeAll(x)
    decreases |w|
  {
    if |w| > 0 {
      WellFormedStep(w);
      var d := DecodeRune(w);
      DecodeAllAfterWellFormed(w[d.size..], x);
      DecodeAllCarry(w, x);
    } else {
      assert w + x == x;
    }
  }

  /** One step of the induction above: the first character of `w` is the first rune of `w + x`. */
  lemma DecodeAllCarry(w: seq<Byte>, x: seq<Byte>)
    requires |w| > 0 && DecodeRune(w) != Invalid
    ensures DecodeAll(w + x) == [DecodeRune(w).rune] + DecodeAll(w[DecodeRune(w).size..] + x)
  {
    var d := DecodeRune(w);
    DecodeExtend(w, x);
    assert (w + x)[d.size..] == w[d.size..] + x;
  }

  /** A byte below 0x80 never continues a character, so decoding restarts there. */
  lemma InvalidBeforeAscii(p: seq<Byte>, t: seq<Byte>)
    requires |p| > 0 && DecodeRune(p) == Invalid
    requires |t| > 0 && t[0] < 0x80
    ensures DecodeRune(p + t) == Invalid
  {
    var d := DecodeRune(p + t);
    if d != Invalid {
      if d.size <= |p| {
        assert (p + t)[..d.size] == p[..d.size];
        DecodeComplete(p, d.size);
      }
    }
  }

  /** The first rune of a sequence is the same with or without a tail starting below 0x80. */
  lemma DecodeBeforeAscii(a: seq<Byte>, b: seq<Byte>)
    requires |a| > 0 && |b| > 0 && b[0] < 0x80
    ensures DecodeRune(a + b) == DecodeRune(a)
  {
    if DecodeRune(a) == Invalid {
      InvalidBeforeAscii(a, b);
    } else {
      DecodeExtend(a, b);
    }
  }

  /** Decoding splits at a byte below 0x80. */
  lemma {:induction false} DecodeAllSplitsAtAscii(a: seq<Byte>, b: seq<Byte>)
    requires |b| > 0 && b[0] < 0x80
    ensures DecodeAll(a + b) == DecodeAll(a) + DecodeAll(b)
    decreases |a|
  {
    if |a| > 0 {
      var d := DecodeRune(a);
      DecodeBeforeAscii(a, b);
      assert (a + b)[d.size..] == a[d.size..] + b;
      DecodeAllSplitsAtAscii(a[d.size..], b);
      assert DecodeAll(a + b) == [d.rune] + DecodeAll(a[d.size..] + b);
    } else {
      assert a + b == b;
    }
  }

  /** A sequence that fails to decode and is not cut short fails whatever follows it. */
  lemma StuckStaysInvalid(p: seq<Byte>, x: seq<Byte>)
    requires |p| > 0 && DecodeRune(p) == Invalid && !Incomplete(p)
    ensures DecodeRune(p + x) == Invalid
  {
    var d := DecodeRune(p + x);
    if d != Invalid {
      if d.size <= |p| {
        assert (p + x)[..d.size] == p[..d.size];
        DecodeComplete(p, d.size);
      }
    }
  }
}
