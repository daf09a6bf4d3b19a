/**
  Code points and the Unicode White_Space property, as Go's `unicode`
  package classifies them: a Latin-1 fast path followed by a lookup in the
  strided range table `unicode.White_Space`.
 */
module Unicode {

  /** The replacement character U+FFFD, Go's `utf8.RuneError`. */
  const RuneError: int := 0xFFFD

  /** The largest code point, Go's `unicode.MaxRune`. */
  const MaxRune: int := 0x10FFFF

  /** The last Latin-1 code point, Go's `unicode.MaxLatin1`. */
  const MaxLatin1: int := 0xFF

  /** A Unicode scalar value: a code point that is not a surrogate. */
  predicate IsScalar(c: int) {
    0 <= c <= MaxRune && !(0xD800 <= c <= 0xDFFF)
  }

  /** One row of a Go range table: lo, lo + stride, ..., up to hi. */
  datatype Range = Range(lo: int, hi: int, stride: nat)

  predicate InRange(r: int, rg: Range) {
    rg.lo <= r <= rg.hi && rg.stride > 0 && (r - rg.lo) % rg.stride == 0
  }

  /** The rows of `unicode.White_Space` (all of them fit in 16 bits). */
  const WhiteSpaceTable: seq<Range> := [
    Range(0x0009, 0x000D, 1),
    Range(0x0020, 0x0085, 0x65),
    Range(0x00A0, 0x1680, 0x15E0),
    Range(0x2000, 0x200A, 1),
    Range(0x2028, 0x2029, 1),
    Range(0x202F, 0x205F, 0x30),
    Range(0x3000, 0x3000, 1)
  ]

  /** How many leading rows of `WhiteSpaceTable` lie inside Latin-1. */
  const WhiteSpaceLatinOffset: nat := 2

  /** Non-empty rows in increasing order, each ending before the next begins. */
  predicate Sorted(table: seq<Range>) {
    && (forall i :: 0 <= i < |table| ==> table[i].lo <= table[i].hi)
    && (forall i, j :: 0 <= i < j < |table| ==> table[i].hi < table[j].lo)
  }

  /**
    Linear search of a table sorted by `lo`, stopping at the first row that
    starts above `r` (Go's `is16` for short tables).
   */
  function InTable(table: seq<Range>, r: int): (found: bool)
    ensures found ==> exists i :: 0 <= i < |table| && InRange(r, table[i])
    ensures Sorted(table) && (exists i :: 0 <= i < |table| && InRange(r, table[i])) ==> found
  {
    if |table| == 0 then false
    else if r < table[0].lo then false
    else if InRange(r, table[0]) then true
    else InTable(table[1..], r)
  }

  /** Every row of `WhiteSpaceTable` lies between TAB and IDEOGRAPHIC SPACE. */
  lemma WhiteSpaceTableBounds()
    ensures forall i :: 0 <= i < |WhiteSpaceTable| ==>
      0x09 <= WhiteSpaceTable[i].lo && WhiteSpaceTable[i].hi <= 0x3000
  {
  }

  /** Go's `unicode.IsSpace`: every space lies between U+0009 and U+3000. */
  function IsSpace(r: int): (sp: bool)
    ensures sp ==> 0x09 <= r <= 0x3000
  {
    if 0 <= r <= MaxLatin1 then
      r == '\t' as int || r == '\n' as int || r == 0x0B || r == 0x0C
      || r == '\r' as int || r == ' ' as int || r == 0x85 || r == 0xA0
    else
      WhiteSpaceTableBounds();
      0 <= r && InTable(WhiteSpaceTable[WhiteSpaceLatinOffset..], r)
  }

  /** The White_Space property of the Unicode character database, listed point by point. */
  const WhiteSpace: set<int> := {
    0x0009, 0x000A, 0x000B, 0x000C, 0x000D, 0x0020, 0x0085, 0x00A0, 0x1680,
    0x2000, 0x2001, 0x2002, 0x2003, 0x2004, 0x2005, 0x2006, 0x2007, 0x2008,
    0x2009, 0x200A, 0x2028, 0x2029, 0x202F, 0x205F, 0x3000
  }

  /** The range table really is a table: sorted and disjoint. */
  lemma WhiteSpaceTableSorted()
    ensures Sorted(WhiteSpaceTable)
  {
  }

  /** Go's `IsSpace` holds exactly of the White_Space code points. */
  lemma IsSpaceIsWhiteSpace(r: int)
    ensures IsSpace(r) <==> r in WhiteSpace
  {
    if r in WhiteSpace {
      WhiteSpaceIsSpace(r);
    }
    if IsSpace(r) {
      SpaceIsWhiteSpace(r);
    }
  }

  lemma WhiteSpaceIsSpace(r: int)
    requires r in WhiteSpace
    ensures IsSpace(r)
  {
    if r > MaxLatin1 {
      var tail := WhiteSpaceTable[WhiteSpaceLatinOffset..];
      WhiteSpaceTableSorted();
      assert Sorted(tail);
      var i := if r == 0x1680 then 0
        else if r <= 0x200A then 1
        else if r <= 0x2029 then 2
        else if r == 0x202F || r == 0x205F then 3
        else 4;
      assert InRange(r, tail[i]);
    }
  }

  lemma SpaceIsWhiteSpace(r: int)
    requires IsSpace(r)
    ensures r in WhiteSpace
  {
    if r > MaxLatin1 {
      var tail := WhiteSpaceTable[WhiteSpaceLatinOffset..];
      var i :| 0 <= i < |tail| && InRange(r, tail[i]);
      if i == 0 || i == 3 {
        StrideRow(r, tail[i]);
      }
    }
  }

  /** A row whose stride equals its span holds just its two ends. */
  lemma StrideRow(r: int, rg: Range)
    requires InRange(r, rg) && rg.stride == rg.hi - rg.lo
    ensures r == rg.lo || r == rg.hi
  {
    var k := (r - rg.lo) / rg.stride;
    assert r - rg.lo == k * rg.stride;
  }
}
