/**
 Strings as UTF-8 bytes and back (util/conv.js:916-996). The bit operators of JavaScript work on 32
 bits, so code units and bytes are small 32-bit numbers.
*/
module Utf8 {
  import opened Wrappers

  type Unit = u: bv32 | u <= 0xFFFF witness 0
  type Byte = b: bv32 | b <= 0xFF witness 0

  // ----- UTF-16: the code points of a string ---------------------------------------------------------

  predicate High(u: Unit) {
    0xD800 <= u <= 0xDBFF
  }

  predicate Low(u: Unit) {
    0xDC00 <= u <= 0xDFFF
  }

  /** A surrogate pair starts at `i`. */
  predicate PairAt(s: seq<Unit>, i: nat) {
    i + 1 < |s| && High(s[i]) && Low(s[i + 1])
  }

  function PairValue(high: Unit, low: Unit): bv32 {
    0x1_0000 + (high - 0xD800) * 0x400 + (low - 0xDC00)
  }

  /** The code points from unit `i` on. A surrogate without a partner stands for itself. */
  function CodePoints(s: seq<Unit>, i: nat): seq<bv32>
    decreases |s| - i
  {
    if i >= |s| then []
    else if PairAt(s, i) then [PairValue(s[i], s[i + 1])] + CodePoints(s, i + 2)
    else [s[i]] + CodePoints(s, i + 1)
  }

  /** The pairs count the code points from U+10000 to U+10FFFF, the second half of a pair first. */
  lemma PairsCount(high: Unit, low: Unit)
    requires High(high) && Low(low)
    ensures PairValue(0xD800, 0xDC00) == 0x1_0000 && PairValue(0xDBFF, 0xDFFF) == 0x10_FFFF
    ensures low < 0xDFFF ==> PairValue(high, low + 1) == PairValue(high, low) + 1
    ensures high < 0xDBFF ==> PairValue(high + 1, 0xDC00) == PairValue(high, 0xDFFF) + 1
  {
    NextLow(high, low);
    NextHigh(high);
    hide PairValue;
    assert PairValue(0xD800, 0xDC00) == 0x1_0000 && PairValue(0xDBFF, 0xDFFF) == 0x10_FFFF by {
      PairEnds();
    }
  }

  lemma PairEnds()
    ensures PairValue(0xD800, 0xDC00) == 0x1_0000 && PairValue(0xDBFF, 0xDFFF) == 0x10_FFFF
  {
  }

  lemma NextLow(high: Unit, low: Unit)
    requires High(high) && Low(low)
    ensures low < 0xDFFF ==> PairValue(high, low + 1) == PairValue(high, low) + 1
  {
  }

  lemma NextHigh(high: Unit)
    requires High(high)
    ensures high < 0xDBFF ==> PairValue(high + 1, 0xDC00) == PairValue(high, 0xDFFF) + 1
  {
  }

  // ----- UTF-8: section 3 of RFC 3629 ----------------------------------------------------------------

  /** The number of bytes of a code point. */
  function Width(cp: bv32): (n: nat)
    ensures 1 <= n <= 4
  {
    if cp <= 0x7F then 1 else if cp <= 0x7FF then 2 else if cp <= 0xFFFF then 3 else 4
  }

  /** The rows of the RFC's table: the fixed bits of each byte, and the value of the bits marked x. */
  predicate Row2(cp: bv32, a: Byte, b: Byte) {
    a & 0xE0 == 0xC0 && b & 0xC0 == 0x80 && cp == ((a & 0x1F) << 6) | (b & 0x3F)
  }

  predicate Row3(cp: bv32, a: Byte, b: Byte, c: Byte) {
    a & 0xF0 == 0xE0 && b & 0xC0 == 0x80 && c & 0xC0 == 0x80 &&
    cp == ((a & 0x0F) << 12) | ((b & 0x3F) << 6) | (c & 0x3F)
  }

  predicate Row4(cp: bv32, a: Byte, b: Byte, c: Byte, d: Byte) {
    a & 0xF8 == 0xF0 && b & 0xC0 == 0x80 && c & 0xC0 == 0x80 && d & 0xC0 == 0x80 &&
    cp == ((a & 0x07) << 18) | ((b & 0x3F) << 12) | ((c & 0x3F) << 6) | (d & 0x3F)
  }

  predicate Row(cp: bv32, b: seq<Byte>) {
    |b| == Width(cp) &&
    match |b|
    case 1 => b[0] == cp
    case 2 => Row2(cp, b[0], b[1])
    case 3 => Row3(cp, b[0], b[1], b[2])
    case _ => |b| == 4 && Row4(cp, b[0], b[1], b[2], b[3])
  }

  /** The bytes are those of the code points, one after the other. */
  predicate IsUtf8(bytes: seq<Byte>, cps: seq<bv32>)
    decreases |cps|
  {
    if cps == [] then bytes == []
    else
      var n := Width(cps[0]);
      n <= |bytes| && Row(cps[0], bytes[..n]) && IsUtf8(bytes[n..], cps[1..])
  }

  /** The examples of section 7 of RFC 3629. */
  lemma Examples()
    ensures Row(0x41, [0x41]) && Row(0x2262, [0xE2, 0x89, 0xA2]) && Row(0x391, [0xCE, 0x91]) && Row(0x2E, [0x2E])
    ensures Row(0x2_33B4, [0xF0, 0xA3, 0x8E, 0xB4])
  {
  }

  // The bytes as the encoder computes them, named for the proofs' sake.

  function Lead2(c: bv32): bv32 {
    ((c >> 6) & 0x1F) | 0xC0
  }

  function Lead3(c: bv32): bv32 {
    ((c >> 12) & 0x0F) | 0xE0
  }

  function Lead4(c: bv32): bv32 {
    ((c >> 18) & 0x07) | 0xF0
  }

  function Tail0(c: bv32): bv32 {
    (c & 0x3F) | 0x80
  }

  function Tail6(c: bv32): bv32 {
    ((c >> 6) & 0x3F) | 0x80
  }

  function Tail12(c: bv32): bv32 {
    ((c >> 12) & 0x3F) | 0x80
  }

  lemma Row2Gives(cp: bv32, a: Byte, b: Byte)
    requires 0x7F < cp <= 0x7FF && Row2(cp, a, b)
    ensures a == Lead2(cp) && b == Tail0(cp)
  {
  }

  lemma Row3Gives(cp: bv32, a: Byte, b: Byte, c: Byte)
    requires 0x7FF < cp <= 0xFFFF && Row3(cp, a, b, c)
    ensures a == Lead3(cp) && b == Tail6(cp) && c == Tail0(cp)
  {
  }

  lemma Row4Gives(cp: bv32, a: Byte, b: Byte, c: Byte, d: Byte)
    requires 0xFFFF < cp && Row4(cp, a, b, c, d)
    ensures a == Lead4(cp) && b == Tail12(cp)
    ensures c == Tail6(cp) && d == Tail0(cp)
  {
  }

  lemma RowUnique(cp: bv32, x: seq<Byte>, y: seq<Byte>)
    requires Row(cp, x) && Row(cp, y)
    ensures x == y
  {
    hide Row2, Row3, Row4;
    if |x| == 2 {
      Row2Gives(cp, x[0], x[1]);
      Row2Gives(cp, y[0], y[1]);
    } else if |x| == 3 {
      Row3Gives(cp, x[0], x[1], x[2]);
      Row3Gives(cp, y[0], y[1], y[2]);
    } else if |x| == 4 {
      Row4Gives(cp, x[0], x[1], x[2], x[3]);
      Row4Gives(cp, y[0], y[1], y[2], y[3]);
    }
  }

  /** The table leaves no choice: code points have one encoding. */
  lemma {:induction false} Utf8Unique(x: seq<Byte>, y: seq<Byte>, cps: seq<bv32>)
    requires IsUtf8(x, cps) && IsUtf8(y, cps)
    ensures x == y
    decreases |cps|
  {
    hide Row, Width;
    if cps != [] {
      var n := Width(cps[0]);
      RowUnique(cps[0], x[..n], y[..n]);
      Utf8Unique(x[n..], y[n..], cps[1..]);
      assert x == x[..n] + x[n..] && y == y[..n] + y[n..];
    }
  }

  // ----- The encoder ----------------------------------------------------------------------------------

  lemma GivesRow2(cp: bv32, a: Byte, b: Byte)
    requires 0x7F < cp <= 0x7FF && a == Lead2(cp) && b == Tail0(cp)
    ensures Row2(cp, a, b)
  {
  }

  lemma GivesRow3(cp: bv32, a: Byte, b: Byte, c: Byte)
    requires 0x7FF < cp <= 0xFFFF
    requires a == Lead3(cp) && b == Tail6(cp) && c == Tail0(cp)
    ensures Row3(cp, a, b, c)
  {
  }

  lemma GivesRow4(cp: bv32, a: Byte, b: Byte, c: Byte, d: Byte)
    requires 0xFFFF < cp <= 0x10_FFFF
    requires a == Lead4(cp) && b == Tail12(cp)
    requires c == Tail6(cp) && d == Tail0(cp)
    ensures Row4(cp, a, b, c, d)
  {
  }

  predicate Fits7(c: bv32) {
    c & 0xFFFF_FF80 == 0
  }

  predicate Fits11(c: bv32) {
    c & 0xFFFF_F800 == 0
  }

  predicate Fits16(c: bv32) {
    c & 0xFFFF_0000 == 0
  }

  predicate Fits21(c: bv32) {
    c & 0xFFE0_0000 == 0
  }

  lemma Fits7Is(c: bv32)
    ensures Fits7(c) <==> Width(c) <= 1
  {
  }

  lemma Fits11Is(c: bv32)
    ensures Fits11(c) <==> Width(c) <= 2
  {
  }

  lemma Fits16Is(c: bv32)
    ensures Fits16(c) <==> Width(c) <= 3
  {
  }

  lemma Fits21Is(c: bv32)
    requires c <= 0x10_FFFF
    ensures Fits21(c)
  {
  }

  lemma ByteBounds(c: bv32)
    ensures Lead2(c) <= 0xFF && Lead3(c) <= 0xFF && Lead4(c) <= 0xFF
    ensures Tail0(c) <= 0xFF && Tail6(c) <= 0xFF && Tail12(c) <= 0xFF
  {
  }

  /** How the encoder joins a pair, and how it knows the second half. */
  function Joined(c: bv32, extra: Unit): bv32 {
    ((c & 0x3FF) << 10) + (extra & 0x3FF) + 0x1_0000
  }

  predicate IsSecond(extra: Unit) {
    extra & 0xFC00 == 0xDC00
  }

  lemma JoinedPair(high: Unit, low: Unit)
    requires High(high) && Low(low)
    ensures Joined(high, low) == PairValue(high, low) && 0xFFFF < PairValue(high, low) <= 0x10_FFFF
  {
  }

  lemma SecondIsLow(extra: Unit)
    ensures IsSecond(extra) <==> Low(extra)
  {
  }

  lemma Utf8Cons(row: seq<Byte>, cp: bv32, bytes: seq<Byte>, cps: seq<bv32>)
    requires Row(cp, row) && IsUtf8(bytes, cps)
    ensures IsUtf8(row + bytes, [cp] + cps)
  {
    hide Row, Width;
    RowLength(cp, row);
    assert (row + bytes)[..|row|] == row && (row + bytes)[|row|..] == bytes;
    assert ([cp] + cps)[1..] == cps;
  }

  lemma Utf8Head(bytes: seq<Byte>, cps: seq<bv32>)
    requires IsUtf8(bytes, cps) && cps != []
    ensures var n := Width(cps[0]); n <= |bytes| && Row(cps[0], bytes[..n]) && IsUtf8(bytes[n..], cps[1..])
  {
  }

  lemma {:induction false} Utf8Snoc(bytes: seq<Byte>, cps: seq<bv32>, row: seq<Byte>, cp: bv32)
    requires IsUtf8(bytes, cps) && Row(cp, row)
    ensures IsUtf8(bytes + row, cps + [cp])
    decreases |cps|
  {
    hide Row, Width, IsUtf8;
    if cps == [] {
      NoPoints(bytes);
      NoPoints([]);
      Utf8Cons(row, cp, [], []);
      assert bytes + row == row + [] && cps + [cp] == [cp] + [];
    } else {
      var n := Width(cps[0]);
      Utf8Head(bytes, cps);
      Utf8Snoc(bytes[n..], cps[1..], row, cp);
      Utf8Cons(bytes[..n], cps[0], bytes[n..] + row, cps[1..] + [cp]);
      assert bytes + row == bytes[..n] + (bytes[n..] + row);
      assert cps + [cp] == [cps[0]] + (cps[1..] + [cp]);
    }
  }

  lemma RowLength(cp: bv32, row: seq<Byte>)
    requires Row(cp, row)
    ensures |row| == Width(cp)
  {
  }

  /** All bytes but the last of a code point that has several (util/conv.js:935-949). */
  method PutLeads(arr: array<Byte>, start: nat, c: bv32) returns (j: nat)
    requires start + Width(c) <= arr.Length && 1 < Width(c) && c <= 0x10_FFFF
    modifies arr
    ensures j == start + Width(c) - 1 && arr[..start] == old(arr[..start])
    ensures Width(c) == 2 ==> arr[start] == Lead2(c)
    ensures Width(c) == 3 ==> arr[start] == Lead3(c) && arr[start + 1] == Tail6(c)
    ensures Width(c) == 4 ==> arr[start] == Lead4(c) && arr[start + 1] == Tail12(c) && arr[start + 2] == Tail6(c)
  {
    hide Width, Fits7, Fits11, Fits16, Fits21, Lead2, Lead3, Lead4, Tail0, Tail6, Tail12;
    Fits7Is(c);
    Fits11Is(c);
    Fits16Is(c);
    Fits21Is(c);
    ByteBounds(c);
    j := start;
    if Fits11(c) {
      arr[j] := Lead2(c);
      j := j + 1;
    } else if Fits16(c) {
      arr[j] := Lead3(c);
      arr[j + 1] := Tail6(c);
      j := j + 2;
    } else if Fits21(c) {
      arr[j] := Lead4(c);
      arr[j + 1] := Tail12(c);
      arr[j + 2] := Tail6(c);
      j := j + 3;
    }
  }

  /** The bytes of one code point (util/conv.js:931-950). */
  method PutPoint(arr: array<Byte>, start: nat, c: bv32) returns (j: nat)
    requires start + Width(c) <= arr.Length && c <= 0x10_FFFF
    modifies arr
    ensures start <= j <= arr.Length && arr[..start] == old(arr[..start]) && Row(c, arr[start..j])
  {
    hide Width, Row2, Row3, Row4, Row, Fits7, Lead2, Lead3, Lead4, Tail0, Tail6, Tail12;
    Fits7Is(c);
    ByteBounds(c);
    j := start;
    if Fits7(c) {
      AsciiByte(c);
      arr[j] := c;
      j := j + 1;
      MakeRow1(c, arr[start..j]);
    } else {
      j := PutLeads(arr, j, c);
      arr[j] := Tail0(c);
      j := j + 1;
      MakeRow(c, arr[start..j]);
    }
  }

  lemma AsciiByte(c: bv32)
    requires Width(c) == 1
    ensures c <= 0xFF
  {
  }

  lemma MakeRow1(c: bv32, row: seq<Byte>)
    requires Width(c) == 1 && |row| == 1 && row[0] == c
    ensures Row(c, row)
  {
  }

  lemma MakeRow(c: bv32, row: seq<Byte>)
    requires c <= 0x10_FFFF && |row| == Width(c) > 1 && row[|row| - 1] == Tail0(c)
    requires |row| == 2 ==> row[0] == Lead2(c)
    requires |row| == 3 ==> row[0] == Lead3(c) && row[1] == Tail6(c)
    requires |row| == 4 ==> row[0] == Lead4(c) && row[1] == Tail12(c) && row[2] == Tail6(c)
    ensures Row(c, row)
  {
    hide Row2, Row3, Row4, Lead2, Lead3, Lead4, Tail0, Tail6, Tail12;
    if |row| == 2 {
      GivesRow2(c, row[0], row[1]);
    } else if |row| == 3 {
      GivesRow3(c, row[0], row[1], row[2]);
    } else {
      GivesRow4(c, row[0], row[1], row[2], row[3]);
    }
  }

  /** One turn of the encoder's loop, up to the bytes (util/conv.js:923-931). */
  method NextPoint(s: seq<Unit>, start: nat) returns (c: bv32, i: nat)
    requires start < |s|
    ensures start < i <= |s| && c <= 0x10_FFFF && Width(c) <= 3 * (i - start)
    ensures CodePoints(s, start) == [c] + CodePoints(s, i)
  {
    hide Joined, PairValue, IsSecond, Low;
    c, i := s[start], start + 1;
    if 0xD800 <= c && c <= 0xDBFF && i < |s| {
      var extra := s[i];
      i := i + 1;
      SecondIsLow(extra);
      if IsSecond(extra) {
        JoinedPair(s[start], extra);
        c := Joined(c, extra);
      } else {
        i := i - 1;
      }
    }
  }

  /** `str2utf8bin` (util/conv.js:916-953). It never writes beyond its buffer of three bytes a unit. */
  method Str2Utf8Bin(s: seq<Unit>) returns (r: Option<seq<Byte>>)
    ensures r.None? <==> s == []
    ensures r.Some? ==> IsUtf8(r.value, CodePoints(s, 0))
  {
    hide Row, IsUtf8, CodePoints, Width;
    if |s| == 0 {
      return None;
    }
    var arr := new Byte[|s| * 3];
    var len, i, j := |s|, 0, 0;
    ghost var done: seq<bv32> := [];
    NoPoints(arr[..j]);
    while i < len
      invariant i <= len && j <= 3 * i && done + CodePoints(s, i) == CodePoints(s, 0)
      invariant IsUtf8(arr[..j], done)
    {
      var c, next := NextPoint(s, i);
      ghost var before := arr[..j];
      var k := PutPoint(arr, j, c);
      assert arr[..k] == before + arr[j..k];
      RowLength(c, arr[j..k]);
      Utf8Snoc(before, done, arr[j..k], c);
      assert done + ([c] + CodePoints(s, next)) == done + [c] + CodePoints(s, next);
      done, i, j := done + [c], next, k;
    }
    NoUnits(s);
    assert done + [] == done;
    return Some(arr[..j]);
  }

  lemma NoUnits(s: seq<Unit>)
    ensures CodePoints(s, |s|) == []
  {
  }

  lemma NoPoints(bytes: seq<Byte>)
    ensures IsUtf8(bytes, []) <==> bytes == []
  {
  }

  // ----- The decoder ----------------------------------------------------------------------------------

  /** `arr[i]`; the bit operators read the `undefined` beyond the end as 0. */
  function Get(arr: seq<Byte>, i: nat): Byte {
    if i < |arr| then arr[i] else 0
  }

  function Two(a: Byte, b: Byte): Unit {
    ((a & 0x1F) << 6) | (b & 0x3F)
  }

  function Three(a: Byte, b: Byte, c: Byte): Unit {
    ((a & 0x0F) << 12) | ((b & 0x3F) << 6) | (c & 0x3F)
  }

  /** The mask of the first byte drops the bit of the code points from 0x100000 on. */
  function Four(a: Byte, b: Byte, c: Byte, d: Byte): bv32 {
    (((a & 0x03) << 18) | ((b & 0x3F) << 12) | ((c & 0x3F) << 6) | (d & 0x3F)) - 0x1_0000
  }

  /** `String.fromCharCode` keeps 16 bits; bits 10 to 25 of `cp` do not depend on how `>>` treats the sign. */
  function HighOf(cp: bv32): Unit {
    (0xD800 | (cp >> 10)) & 0xFFFF
  }

  function LowOf(cp: bv32): Unit {
    0xDC00 | (cp & 0x3FF)
  }

  function Kind(c: Byte): bv32 {
    c >> 4
  }

  /** The units that the byte at `i` starts, and how many bytes they take. */
  function StepAt(arr: seq<Byte>, i: nat): (seq<Unit>, nat) {
    var c, kind := Get(arr, i), Kind(Get(arr, i));
    if kind <= 7 then ([c], 1)
    else if kind == 12 || kind == 13 then ([Two(c, Get(arr, i + 1))], 2)
    else if kind == 14 then ([Three(c, Get(arr, i + 1), Get(arr, i + 2))], 3)
    else if kind == 15 then
      var cp := Four(c, Get(arr, i + 1), Get(arr, i + 2), Get(arr, i + 3));
      ([HighOf(cp), LowOf(cp)], 4)
    else ([], 1)
  }

  function Decoded(arr: seq<Byte>, i: nat, len: nat): seq<Unit>
    decreases len - i
  {
    if i >= len then []
    else
      StepForward(arr, i);
      StepAt(arr, i).0 + Decoded(arr, i + StepAt(arr, i).1, len)
  }

  /** The `switch` of the loop: the byte at `start` and those that it takes with it (util/conv.js:962-993). */
  method DecodeStep(arr: seq<Byte>, start: nat, before: seq<Unit>) returns (out: seq<Unit>, i: nat)
    ensures out == before + StepAt(arr, start).0 && i == start + StepAt(arr, start).1
  {
    hide Two, Three, Four, HighOf, LowOf, Kind;
    out, i := before, start;
    var c := Get(arr, i);
    i := i + 1;
    var kind := Kind(c);
    if kind <= 7 {
      out := out + [c];
    } else if kind == 12 || kind == 13 {
      var char2 := Get(arr, i);
      i := i + 1;
      out := out + [Two(c, char2)];
    } else if kind == 14 {
      var char2, char3 := Get(arr, i), Get(arr, i + 1);
      i := i + 2;
      out := out + [Three(c, char2, char3)];
    } else if kind == 15 {
      var char2, char3, char4 := Get(arr, i), Get(arr, i + 1), Get(arr, i + 2);
      i := i + 3;
      var cp := Four(c, char2, char3, char4);
      out := out + [HighOf(cp)];
      out := out + [LowOf(cp)];
    }
  }

  /** `utf8bin2str` (util/conv.js:955-996). */
  method Utf8Bin2Str(arr: seq<Byte>, offset: nat, length: nat) returns (out: seq<Unit>)
    ensures out == Decoded(arr, offset, if length != 0 then offset + length else |arr|)
  {
    hide StepAt, Decoded;
    out := [];
    var i := offset;
    var len := if length != 0 then i + length else |arr|;
    while i < len
      invariant Decoded(arr, offset, len) == out + Decoded(arr, i, len)
      decreases len - i
    {
      ghost var before, start := out, i;
      StepForward(arr, i);
      DecodedStep(arr, i, len);
      out, i := DecodeStep(arr, i, out);
      assert out + Decoded(arr, i, len) == before + (StepAt(arr, start).0 + Decoded(arr, i, len));
    }
    DecodedEnd(arr, i, len);
    assert out + [] == out;
  }

  lemma DecodedStep(arr: seq<Byte>, i: nat, len: nat)
    requires i < len
    ensures Decoded(arr, i, len) == StepAt(arr, i).0 + Decoded(arr, i + StepAt(arr, i).1, len)
  {
    hide StepAt;
  }

  lemma DecodedEnd(arr: seq<Byte>, i: nat, len: nat)
    requires i >= len
    ensures Decoded(arr, i, len) == []
  {
  }

  lemma StepForward(arr: seq<Byte>, i: nat)
    ensures StepAt(arr, i).1 > 0
  {
  }

  // ----- There and back -------------------------------------------------------------------------------

  /** What becomes of the first half of a pair: the code points from 0x100000 on do not survive. */
  function Damaged(high: Unit): Unit {
    if high >= 0xDBC0 then high | 0xFFC0 else high
  }

  lemma Step1(cp: Byte)
    requires cp <= 0x7F
    ensures Kind(cp) <= 7
  {
  }

  lemma Step2(cp: bv32, a: Byte, b: Byte)
    requires 0x7F < cp <= 0x7FF && Row2(cp, a, b)
    ensures (Kind(a) == 12 || Kind(a) == 13) && Two(a, b) == cp
  {
  }

  lemma Step3(cp: bv32, a: Byte, b: Byte, c: Byte)
    requires 0x7FF < cp <= 0xFFFF && Row3(cp, a, b, c)
    ensures Kind(a) == 14 && Three(a, b, c) == cp
  {
  }

  lemma Step4(high: Unit, low: Unit, a: Byte, b: Byte, c: Byte, d: Byte)
    requires High(high) && Low(low) && Row4(PairValue(high, low), a, b, c, d)
    ensures Kind(a) == 15 && HighOf(Four(a, b, c, d)) == Damaged(high) && LowOf(Four(a, b, c, d)) == low
  {
  }

  /** The string that comes back: the first half of a pair above 0xFFFFF is changed, and nothing else. */
  function Returned(s: seq<Unit>): seq<Unit> {
    seq(|s|, k requires 0 <= k < |s| => if PairAt(s, k) then Damaged(s[k]) else s[k])
  }

  /** The units that a code point gives back. */
  function Back(s: seq<Unit>, i: nat): seq<Unit>
    requires i < |s|
  {
    if PairAt(s, i) then [Damaged(s[i]), s[i + 1]] else [s[i]]
  }

  function PointAt(s: seq<Unit>, i: nat): bv32
    requires i < |s|
  {
    if PairAt(s, i) then PairValue(s[i], s[i + 1]) else s[i]
  }

  /** One code point at a time: what `StepAt` makes of its bytes. */
  lemma StepOfRow(s: seq<Unit>, i: nat, arr: seq<Byte>, at: nat)
    requires i < |s| && at + Width(PointAt(s, i)) <= |arr| && Row(PointAt(s, i), arr[at..at + Width(PointAt(s, i))])
    ensures StepAt(arr, at) == (Back(s, i), Width(PointAt(s, i))) && Back(s, i) != []
  {
    hide Two, Three, Four, HighOf, LowOf, Kind, Row2, Row3, Row4, PairValue, Damaged, High, Low;
    if PairAt(s, i) {
      StepOfPair(s[i], s[i + 1], arr, at);
    } else {
      StepOfOne(s[i], arr, at);
    }
  }

  lemma StepOfPair(high: Unit, low: Unit, arr: seq<Byte>, at: nat)
    requires High(high) && Low(low) && at + Width(PairValue(high, low)) <= |arr|
    requires Row(PairValue(high, low), arr[at..at + Width(PairValue(high, low))])
    ensures StepAt(arr, at) == ([Damaged(high), low], Width(PairValue(high, low)))
  {
    hide Two, Three, Four, HighOf, LowOf, Kind, Row2, Row3, Row4, PairValue, Damaged, High, Low;
    JoinedPair(high, low);
    Step4(high, low, arr[at], arr[at + 1], arr[at + 2], arr[at + 3]);
  }

  lemma StepOfOne(u: Unit, arr: seq<Byte>, at: nat)
    requires at + Width(u) <= |arr| && Row(u, arr[at..at + Width(u)])
    ensures StepAt(arr, at) == ([u], Width(u))
  {
    hide Two, Three, Four, HighOf, LowOf, Kind, Row2, Row3, Row4;
    if u <= 0x7F {
      Step1(arr[at]);
    } else if u <= 0x7FF {
      Step2(u, arr[at], arr[at + 1]);
    } else {
      Step3(u, arr[at], arr[at + 1], arr[at + 2]);
    }
  }

  lemma ReturnedStep(s: seq<Unit>, i: nat)
    requires i < |s|
    ensures i + |Back(s, i)| <= |s|
    ensures Returned(s)[i..] == Back(s, i) + Returned(s)[i + |Back(s, i)|..]
    ensures CodePoints(s, i) == [PointAt(s, i)] + CodePoints(s, i + |Back(s, i)|)
  {
    hide Damaged, High, Low, PairValue;
    var next := i + |Back(s, i)|;
    NotAPair(s, i);
    assert Returned(s)[i..] == Returned(s)[i..next] + Returned(s)[next..];
    assert Returned(s)[i..next] == Back(s, i);
  }

  lemma {:induction false} DecodeFrom(s: seq<Unit>, i: nat, arr: seq<Byte>, at: nat)
    requires i <= |s| && at <= |arr| && IsUtf8(arr[at..], CodePoints(s, i))
    ensures Decoded(arr, at, |arr|) == Returned(s)[i..]
    decreases |s| - i
  {
    hide StepAt, Row, Back, PointAt, Returned, Width, CodePoints;
    if i < |s| {
      ReturnedStep(s, i);
      var next, after := i + |Back(s, i)|, at + Width(PointAt(s, i));
      assert CodePoints(s, i)[1..] == CodePoints(s, next);
      assert arr[at..][..after - at] == arr[at..after] && arr[at..][after - at..] == arr[after..];
      StepOfRow(s, i, arr, at);
      DecodeFrom(s, next, arr, after);
    } else {
      NoUnits(s);
      ReturnedLength(s);
    }
  }

  lemma ReturnedLength(s: seq<Unit>)
    ensures |Returned(s)| == |s|
  {
  }

  /** A second half does not start a pair. */
  lemma NotAPair(s: seq<Unit>, i: nat)
    ensures PairAt(s, i) ==> !PairAt(s, i + 1)
  {
  }

  lemma DamagedWhen(high: Unit)
    requires High(high)
    ensures Damaged(high) == high <==> high < 0xDBC0
  {
  }

  /**
   Decoding undoes encoding exactly when no pair denotes a code point from 0x100000 on; such a pair
   comes back with another first half. Surrogates without a partner survive.
  */
  lemma RoundTrip(s: seq<Unit>, bytes: seq<Byte>)
    requires IsUtf8(bytes, CodePoints(s, 0))
    ensures Decoded(bytes, 0, |bytes|) == Returned(s)
    ensures Decoded(bytes, 0, |bytes|) == s <==>
      forall i :: 0 <= i < |s| - 1 && 0xDBC0 <= s[i] <= 0xDBFF ==> !Low(s[i + 1])
  {
    hide Damaged, IsUtf8, CodePoints, Decoded;
    assert bytes[0..] == bytes;
    DecodeFrom(s, 0, bytes, 0);
    assert Returned(s)[0..] == Returned(s);
    if i :| 0 <= i < |s| - 1 && 0xDBC0 <= s[i] <= 0xDBFF && Low(s[i + 1]) {
      DamagedWhen(s[i]);
      assert Returned(s)[i] != s[i];
    } else {
      forall i | 0 <= i < |s| && PairAt(s, i) ensures Damaged(s[i]) == s[i] {
        DamagedWhen(s[i]);
      }
      assert Returned(s) == s;
    }
  }

  /** U+100000 is the first code point that comes back changed. */
  lemma PlaneSixteenIsLost()
    ensures CodePoints([0xDBC0, 0xDC00], 0) == [0x10_0000]
    ensures IsUtf8([0xF4, 0x80, 0x80, 0x80], [0x10_0000])
    ensures Decoded([0xF4, 0x80, 0x80, 0x80], 0, 4) == [0xFFC0, 0xDC00]
  {
    var s: seq<Unit>, bytes: seq<Byte> := [0xDBC0, 0xDC00], [0xF4, 0x80, 0x80, 0x80];
    JoinedPair(0xDBC0, 0xDC00);
    assert CodePoints(s, 0) == [PairValue(0xDBC0, 0xDC00)] + CodePoints(s, 2);
    GivesRow4(0x10_0000, 0xF4, 0x80, 0x80, 0x80);
    NoPoints([]);
    Utf8Snoc([], [], bytes, 0x10_0000);
    assert [] + bytes == bytes;
    RoundTrip(s, bytes);
  }

  // ----- Well-formed strings --------------------------------------------------------------------------

  /** Unit `i` is no surrogate, or it is half of a pair. */
  predicate Whole(s: seq<Unit>, i: nat)
    requires i < |s|
  {
    (High(s[i]) ==> PairAt(s, i)) && (Low(s[i]) ==> i > 0 && PairAt(s, i - 1))
  }

  /** No surrogate is among the code points: section 3 of RFC 3629 forbids them. */
  predicate Legal(cps: seq<bv32>) {
    forall k :: 0 <= k < |cps| ==> !(0xD800 <= cps[k] <= 0xDFFF)
  }

  lemma LegalCons(first: bv32, rest: seq<bv32>)
    ensures Legal([first] + rest) <==> !(0xD800 <= first <= 0xDFFF) && Legal(rest)
  {
    var all := [first] + rest;
    assert all[0] == first && all[1..] == rest;
    forall k | 0 <= k < |rest| ensures rest[k] == all[k + 1] {
    }
    if Legal(all) {
      forall k | 0 <= k < |rest| ensures !(0xD800 <= rest[k] <= 0xDFFF) {
        assert rest[k] == all[k + 1];
      }
    }
  }

  predicate WholeFrom(s: seq<Unit>, i: nat) {
    forall k :: i <= k < |s| ==> Whole(s, k)
  }

  /** The code points are legal exactly when every surrogate is half of a pair. */
  lemma {:induction false} LegalWhenWhole(s: seq<Unit>, i: nat)
    requires i <= |s| && (i > 0 ==> !PairAt(s, i - 1))
    ensures Legal(CodePoints(s, i)) <==> WholeFrom(s, i)
    decreases |s| - i
  {
    hide PairValue, Legal, Whole, High, Low, PairAt;
    if i == |s| {
      NothingIllegal();
    } else if PairAt(s, i) {
      PairWhole(s, i);
      LegalWhenWhole(s, i + 2);
      LegalCons(PairValue(s[i], s[i + 1]), CodePoints(s, i + 2));
    } else {
      LoneWhole(s, i);
      LegalWhenWhole(s, i + 1);
      LegalCons(s[i], CodePoints(s, i + 1));
    }
  }

  lemma PairWhole(s: seq<Unit>, i: nat)
    requires PairAt(s, i)
    ensures i + 1 < |s| && Whole(s, i) && Whole(s, i + 1) && !PairAt(s, i + 1)
    ensures PairValue(s[i], s[i + 1]) > 0xDFFF
  {
    JoinedPair(s[i], s[i + 1]);
  }

  lemma LoneWhole(s: seq<Unit>, i: nat)
    requires i < |s| && !PairAt(s, i) && (i > 0 ==> !PairAt(s, i - 1))
    ensures Whole(s, i) <==> !(0xD800 <= s[i] <= 0xDFFF)
  {
  }

  lemma NothingIllegal()
    ensures Legal([])
  {
  }
}
