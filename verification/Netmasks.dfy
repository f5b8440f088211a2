/**
 The address whitelist (`Netmasks` in lib/util.js): a sorted array of ranges that do not touch, changed
 in place.
*/
module Netmasks {

  datatype Range = Range(from: int, to: int)

  function Min(a: int, b: int): int {
    if a <= b then a else b
  }

  function Max(a: int, b: int): int {
    if a <= b then b else a
  }

  /** Non-empty ranges, in order, with at least one address between two of them. */
  ghost predicate Canonical(rs: seq<Range>) {
    && (forall i :: 0 <= i < |rs| ==> rs[i].from <= rs[i].to)
    && (forall i, j :: 0 <= i < j < |rs| ==> rs[i].to + 1 < rs[j].from)
  }

  ghost predicate Covers(rs: seq<Range>, x: int) {
    exists i :: 0 <= i < |rs| && rs[i].from <= x <= rs[i].to
  }

  ghost predicate SortedByFrom(rs: seq<Range>) {
    forall i, j :: 0 <= i < j < |rs| ==> rs[i].from < rs[j].from
  }

  /**
   The contract of lodash's `sortedIndexBy(ranges, {from: x}, 'from')`: the first range that starts at `x`
   or later.
  */
  function SortedIndex(rs: seq<Range>, x: int): (idx: nat)
    requires SortedByFrom(rs)
    ensures idx <= |rs|
    ensures forall k :: 0 <= k < idx ==> rs[k].from < x
    ensures forall k :: idx <= k < |rs| ==> x <= rs[k].from
  {
    if rs == [] || x <= rs[0].from then 0 else 1 + SortedIndex(rs[1..], x)
  }

  // ----- The reference ----------------------------------------------------------------------------

  /** One range merged into the list, from the left: what touches it is swallowed. */
  function Merged(rs: seq<Range>, from: int, to: int): seq<Range> {
    if rs == [] then [Range(from, to)]
    else if rs[0].to + 1 < from then [rs[0]] + Merged(rs[1..], from, to)
    else if to + 1 < rs[0].from then [Range(from, to)] + rs
    else Merged(rs[1..], Min(from, rs[0].from), Max(to, rs[0].to))
  }

  lemma {:induction false} MergedHead(rs: seq<Range>, from: int, to: int)
    requires Canonical(rs) && from <= to
    ensures Merged(rs, from, to) != []
    ensures Merged(rs, from, to)[0].from == if rs == [] then from else Min(from, rs[0].from)
  {
    if rs != [] {
      if rs[0].to + 1 < from {
      } else if to + 1 < rs[0].from {
      } else {
        MergedHead(rs[1..], Min(from, rs[0].from), Max(to, rs[0].to));
      }
    }
  }

  lemma {:induction false} MergedCanonical(rs: seq<Range>, from: int, to: int)
    requires Canonical(rs) && from <= to
    ensures Canonical(Merged(rs, from, to))
  {
    if rs != [] {
      if rs[0].to + 1 < from {
        MergedCanonical(rs[1..], from, to);
        MergedHead(rs[1..], from, to);
        CanonicalCons(rs[0], Merged(rs[1..], from, to));
      } else if to + 1 < rs[0].from {
        CanonicalCons(Range(from, to), rs);
      } else {
        MergedCanonical(rs[1..], Min(from, rs[0].from), Max(to, rs[0].to));
      }
    }
  }

  lemma CanonicalCons(r: Range, rs: seq<Range>)
    requires Canonical(rs) && rs != [] && r.from <= r.to && r.to + 1 < rs[0].from
    ensures Canonical([r] + rs)
  {
  }

  lemma {:induction false} MergedCovers(rs: seq<Range>, from: int, to: int, x: int)
    requires Canonical(rs) && from <= to
    ensures Covers(Merged(rs, from, to), x) <==> Covers(rs, x) || from <= x <= to
  {
    if rs == [] {
      assert Merged(rs, from, to)[0] == Range(from, to);
    } else {
      CoversFirst(rs, x);
      if rs[0].to + 1 < from {
        MergedCovers(rs[1..], from, to, x);
        CoversFirst([rs[0]] + Merged(rs[1..], from, to), x);
      } else if to + 1 < rs[0].from {
        CoversFirst([Range(from, to)] + rs, x);
      } else {
        MergedCovers(rs[1..], Min(from, rs[0].from), Max(to, rs[0].to), x);
      }
    }
  }

  lemma CoversFirst(rs: seq<Range>, x: int)
    requires rs != []
    ensures Covers(rs, x) <==> rs[0].from <= x <= rs[0].to || Covers(rs[1..], x)
  {
    if Covers(rs, x) && !(rs[0].from <= x <= rs[0].to) {
      var i :| 0 <= i < |rs| && rs[i].from <= x <= rs[i].to;
      assert rs[1..][i - 1] == rs[i];
    }
    if Covers(rs[1..], x) {
      var i :| 0 <= i < |rs[1..]| && rs[1..][i].from <= x <= rs[1..][i].to;
      assert rs[i + 1] == rs[1..][i];
    }
  }

  /** Canonical lists are determined by the addresses they cover. */
  lemma {:induction false} CanonicalUnique(a: seq<Range>, b: seq<Range>)
    requires Canonical(a) && Canonical(b) && forall x :: Covers(a, x) <==> Covers(b, x)
    ensures a == b
  {
    if a == [] || b == [] {
      if a != [] {
        assert Covers(a, a[0].from);
      }
      if b != [] {
        assert Covers(b, b[0].from);
      }
    } else {
      FirstRange(a, b);
      FirstRange(b, a);
      assert a[0] == b[0];
      forall x ensures Covers(a[1..], x) <==> Covers(b[1..], x) {
        CoversFirst(a, x);
        CoversFirst(b, x);
        RestAbove(a, x);
        RestAbove(b, x);
      }
      CanonicalUnique(a[1..], b[1..]);
    }
  }

  lemma RestAbove(a: seq<Range>, x: int)
    requires Canonical(a) && a != []
    ensures Covers(a[1..], x) ==> a[0].to + 1 < x
  {
  }

  lemma GapAfter(b: seq<Range>)
    requires Canonical(b) && b != []
    ensures !Covers(b, b[0].to + 1)
  {
  }

  lemma FirstRange(a: seq<Range>, b: seq<Range>)
    requires Canonical(a) && Canonical(b) && a != [] && b != [] && forall x :: Covers(a, x) <==> Covers(b, x)
    ensures a[0].from >= b[0].from
    ensures a[0].from == b[0].from ==> a[0].to <= b[0].to
  {
    assert a[0].from <= a[0].from <= a[0].to;
    assert Covers(a, a[0].from) && Covers(b, a[0].from);
    GapAfter(b);
    assert a[0].from <= b[0].to + 1 <= a[0].to ==> Covers(a, b[0].to + 1);
  }

  function MergedAll(rs: seq<Range>, adds: seq<Range>): seq<Range>
    decreases adds
  {
    if adds == [] then rs else MergedAll(Merged(rs, adds[0].from, adds[0].to), adds[1..])
  }

  ghost predicate NonEmpty(adds: seq<Range>) {
    forall i :: 0 <= i < |adds| ==> adds[i].from <= adds[i].to
  }

  lemma {:induction false} MergedAllCovers(rs: seq<Range>, adds: seq<Range>, x: int)
    requires Canonical(rs) && NonEmpty(adds)
    ensures Canonical(MergedAll(rs, adds))
    ensures Covers(MergedAll(rs, adds), x) <==> Covers(rs, x) || Covers(adds, x)
    decreases adds
  {
    if adds != [] {
      MergedCanonical(rs, adds[0].from, adds[0].to);
      MergedCovers(rs, adds[0].from, adds[0].to, x);
      CoversFirst(adds, x);
      MergedAllCovers(Merged(rs, adds[0].from, adds[0].to), adds[1..], x);
    }
  }

  /** The final array depends on the set of addresses added, not on the order or the cut into ranges. */
  lemma OrderIndependent(adds: seq<Range>, adds': seq<Range>)
    requires NonEmpty(adds) && NonEmpty(adds') && forall x :: Covers(adds, x) <==> Covers(adds', x)
    ensures MergedAll([], adds) == MergedAll([], adds')
  {
    forall x ensures Covers(MergedAll([], adds), x) <==> Covers(MergedAll([], adds'), x) {
      MergedAllCovers([], adds, x);
      MergedAllCovers([], adds', x);
    }
    MergedAllCovers([], adds, 0);
    MergedAllCovers([], adds', 0);
    CanonicalUnique(MergedAll([], adds), MergedAll([], adds'));
  }

  /** The range that `rs[i..j]` and the added range become. */
  function Spliced(rs: seq<Range>, from: int, to: int, i: nat, j: nat): Range
    requires i <= j <= |rs|
  {
    if i == j then Range(from, to) else Range(Min(from, rs[i].from), Max(to, rs[j - 1].to))
  }

  lemma SplicedStep(rs: seq<Range>, from: int, to: int, j: nat)
    requires Canonical(rs) && from <= to && 0 < j <= |rs|
    ensures Spliced(rs[1..], Min(from, rs[0].from), Max(to, rs[0].to), 0, j - 1) == Spliced(rs, from, to, 0, j)
  {
    if j > 1 {
      assert rs[1..][0] == rs[1] && rs[1..][j - 2] == rs[j - 1];
    }
  }

  lemma SplicedNone(rs: seq<Range>, from: int, to: int)
    ensures Spliced(rs, from, to, 0, 0) == Range(from, to)
  {
  }

  lemma {:induction false} MergedSwallows(rs: seq<Range>, from: int, to: int, j: nat)
    requires Canonical(rs) && from <= to && j <= |rs|
    requires forall k :: 0 <= k < j ==> rs[k].from <= to + 1 && from <= rs[k].to + 1
    requires forall k :: j <= k < |rs| ==> to + 1 < rs[k].from
    ensures Merged(rs, from, to) == [Spliced(rs, from, to, 0, j)] + rs[j..]
    decreases |rs|
  {
    hide Spliced;
    if rs == [] || j == 0 {
      SplicedNone(rs, from, to);
    } else {
      var f, t := Min(from, rs[0].from), Max(to, rs[0].to);
      MergedSwallows(rs[1..], f, t, j - 1);
      SplicedStep(rs, from, to, j);
      assert rs[1..][j - 1..] == rs[j..];
    }
  }

  /** Where the merge happens: `rs[i..j]` touches the range, what is before and after does not. */
  lemma {:induction false} MergedAt(rs: seq<Range>, from: int, to: int, i: nat, j: nat)
    requires Canonical(rs) && from <= to && i <= j <= |rs|
    requires forall k :: 0 <= k < i ==> rs[k].to + 1 < from
    requires forall k :: i <= k < j ==> rs[k].from <= to + 1 && from <= rs[k].to + 1
    requires forall k :: j <= k < |rs| ==> to + 1 < rs[k].from
    ensures Merged(rs, from, to) == rs[..i] + [Spliced(rs, from, to, i, j)] + rs[j..]
    decreases |rs|
  {
    if i == 0 {
      MergedSwallows(rs, from, to, j);
      assert rs[..0] == [];
    } else {
      hide Spliced, Min, Max;
      MergedAt(rs[1..], from, to, i - 1, j - 1);
      SplicedShift(rs, from, to, i, j);
      Around(rs, Spliced(rs, from, to, i, j), i, j);
    }
  }

  lemma SplicedShift(rs: seq<Range>, from: int, to: int, i: nat, j: nat)
    requires 0 < i <= j <= |rs|
    ensures Spliced(rs[1..], from, to, i - 1, j - 1) == Spliced(rs, from, to, i, j)
  {
  }

  lemma Around(rs: seq<Range>, r: Range, i: nat, j: nat)
    requires 0 < i <= j <= |rs|
    ensures [rs[0]] + (rs[1..][..i - 1] + [r] + rs[1..][j - 1..]) == rs[..i] + [r] + rs[j..]
  {
  }

  lemma SpliceOut(rs: seq<Range>, r1: Range, i: nat, j: nat)
    requires i < j <= |rs|
    ensures (if j > i + 1 then rs[i := r1][..i + 1] + rs[i := r1][j..] else rs[i := r1]) == Replaced(rs, r1, i, j)
  {
  }

  lemma SetTwice(rs: seq<Range>, r0: Range, r1: Range, i: nat)
    requires i < |rs|
    ensures rs[i := r0][i := r1] == rs[i := r1]
  {
  }

  /** `rs` with `r` in the place of `rs[i..j]`. */
  function Replaced(rs: seq<Range>, r: Range, i: nat, j: nat): seq<Range>
    requires i <= j <= |rs|
  {
    rs[..i] + [r] + rs[j..]
  }

  lemma MergedApart(rs: seq<Range>, from: int, to: int, i: nat)
    requires Canonical(rs) && from <= to && i <= |rs|
    requires forall k :: 0 <= k < i ==> rs[k].to + 1 < from
    requires forall k :: i <= k < |rs| ==> to + 1 < rs[k].from
    ensures Merged(rs, from, to) == Replaced(rs, Range(from, to), i, i)
  {
    hide Merged;
    MergedAt(rs, from, to, i, i);
  }

  /** What the first search finds: whether anything touches the added range, and from which index on. */
  lemma Found(rs: seq<Range>, from: int, to: int)
    requires Canonical(rs) && from <= to
    ensures SortedByFrom(rs)
    ensures var idx := SortedIndex(rs, from);
      if idx > 0 && rs[idx - 1].to >= from - 1 then
        && (forall k :: 0 <= k < idx - 1 ==> rs[k].to + 1 < from)
        && rs[idx - 1].from <= to + 1 && from <= rs[idx - 1].to + 1
      else
        && (forall k :: 0 <= k < idx ==> rs[k].to + 1 < from)
        && (if idx == |rs| || to < rs[idx].from - 1 then
              Merged(rs, from, to) == Replaced(rs, Range(from, to), idx, idx)
            else rs[idx].from <= to + 1 && from <= rs[idx].to + 1)
  {
    hide Merged, Replaced, SortedIndex;
    var idx := SortedIndex(rs, from);
    if !(idx > 0 && rs[idx - 1].to >= from - 1) && (idx == |rs| || to < rs[idx].from - 1) {
      MergedApart(rs, from, to, idx);
    }
  }

  /** `to_idx` of `_add_range` (lib/util.js:1075-1077): the last range to swallow. */
  function LastIndex(rs1: seq<Range>, to: int): int
    requires SortedByFrom(rs1)
  {
    var idx := SortedIndex(rs1, to);
    if idx == |rs1| || to < rs1[idx].from - 1 then idx - 1 else idx
  }

  /** What the two searches find: the ranges that touch the added one, and what they become. */
  lemma Touched(rs: seq<Range>, from: int, to: int, i: nat, rs1: seq<Range>)
    requires Canonical(rs) && from <= to && i < |rs|
    requires forall k :: 0 <= k < i ==> rs[k].to + 1 < from
    requires rs[i].from <= to + 1 && from <= rs[i].to + 1
    requires rs1 == rs[i := Range(Min(rs[i].from, from), Max(rs[i].to, to))]
    ensures SortedByFrom(rs1) && i <= LastIndex(rs1, to) < |rs|
    ensures forall k :: i <= k <= LastIndex(rs1, to) ==> rs[k].from <= to + 1 && from <= rs[k].to + 1
    ensures forall k :: LastIndex(rs1, to) < k < |rs| ==> to + 1 < rs[k].from
    ensures Spliced(rs, from, to, i, LastIndex(rs1, to) + 1)
      == Range(rs1[i].from, Max(rs1[i].to, rs1[LastIndex(rs1, to)].to))
  {
    var idx := SortedIndex(rs1, to);
    assert rs1[i].from <= to;
    assert i <= LastIndex(rs1, to);
    forall k | i <= k <= LastIndex(rs1, to) ensures rs[k].from <= to + 1 && from <= rs[k].to + 1 {
      if k > i {
        assert rs1[k] == rs[k] && rs[i].to + 1 < rs[k].from;
      }
    }
  }

  /** `u` is `rs` with the range at `i` grown by the added one, and that is the first of those it touches. */
  ghost predicate Grown(rs: seq<Range>, from: int, to: int, i: nat, u: seq<Range>) {
    && i < |rs| && SortedByFrom(u)
    && u == rs[i := Range(Min(rs[i].from, from), Max(rs[i].to, to))]
    && i <= LastIndex(u, to) < |rs|
    && Spliced(rs, from, to, i, LastIndex(u, to) + 1) == Range(u[i].from, Max(u[i].to, u[LastIndex(u, to)].to))
  }

  /** So the merge keeps what is before and after them. */
  lemma Touching(rs: seq<Range>, from: int, to: int, i: nat, rs1: seq<Range>)
    requires Canonical(rs) && from <= to && i < |rs|
    requires forall k :: 0 <= k < i ==> rs[k].to + 1 < from
    requires rs[i].from <= to + 1 && from <= rs[i].to + 1
    requires rs1 == rs[i := Range(Min(rs[i].from, from), Max(rs[i].to, to))]
    ensures Grown(rs, from, to, i, rs1)
    ensures var j := LastIndex(rs1, to) + 1;
      Merged(rs, from, to) == Replaced(rs, Spliced(rs, from, to, i, j), i, j)
  {
    hide Merged, Spliced, LastIndex, Canonical, Max, Min;
    Touched(rs, from, to, i, rs1);
    MergedAt(rs, from, to, i, LastIndex(rs1, to) + 1);
  }

  /** What the second half of `_add_range` leaves. */
  lemma Swallowed(rs: seq<Range>, from: int, to: int, i: nat, u: seq<Range>)
    requires Grown(rs, from, to, i, u)
    ensures SortedByFrom(u) && |u| == |rs| && i <= LastIndex(u, to) < |u|
    ensures var last := LastIndex(u, to);
      var v, r := u[i := Range(u[i].from, Max(u[i].to, u[last].to))], Spliced(rs, from, to, i, last + 1);
      Replaced(rs, r, i, last + 1) == if last > i then v[..i + 1] + v[last + 1..] else v
  {
    hide Replaced, Spliced, LastIndex, Min, Max, SortedByFrom;
    var last := LastIndex(u, to);
    var r := Spliced(rs, from, to, i, last + 1);
    SetTwice(rs, u[i], r, i);
    SpliceOut(rs, r, i, last + 1);
  }

  class Netmasks {
    var ranges: seq<Range>

    ghost predicate Valid()
      reads this
    {
      Canonical(ranges)
    }

    constructor (adds: seq<Range>)
      requires NonEmpty(adds)
      ensures Valid() && ranges == MergedAll([], adds)
      ensures forall x :: Covers(ranges, x) <==> Covers(adds, x)
    {
      ranges := [];
      new;
      Add(adds);
      forall x ensures Covers(ranges, x) <==> Covers(adds, x) {
        MergedAllCovers([], adds, x);
      }
    }

    /** `add` (lib/util.js:1050-1055), on ranges of numbers. */
    method Add(adds: seq<Range>)
      requires Valid() && NonEmpty(adds)
      modifies this
      ensures Valid() && ranges == MergedAll(old(ranges), adds)
    {
      for i := 0 to |adds|
        invariant Valid() && MergedAll(ranges, adds[i..]) == MergedAll(old(ranges), adds)
      {
        assert adds[i..][1..] == adds[i + 1..];
        AddRange(adds[i].from, adds[i].to);
      }
    }

    /** `_add_range` (lib/util.js:1064-1082). */
    method AddRange(from: int, to: int)
      requires Valid() && from <= to
      modifies this
      ensures Valid() && ranges == Merged(old(ranges), from, to)
      ensures forall x :: Covers(ranges, x) <==> Covers(old(ranges), x) || from <= x <= to
    {
      ghost var rs := ranges;
      MergedCanonical(rs, from, to);
      forall x ensures Covers(Merged(rs, from, to), x) <==> Covers(rs, x) || from <= x <= to {
        MergedCovers(rs, from, to, x);
      }
      Splice(from, to);
    }

    /** The body of `_add_range`. */
    method Splice(from: int, to: int)
      requires Valid() && from <= to
      modifies this
      ensures ranges == Merged(old(ranges), from, to)
    {
      hide Merged, Canonical, SortedByFrom, Spliced, LastIndex, Grown;
      ghost var rs := ranges;
      Found(rs, from, to);
      var fromIdx := SortedIndex(ranges, from);
      if fromIdx > 0 && ranges[fromIdx - 1].to >= from - 1 {
        fromIdx := fromIdx - 1;
      } else if fromIdx == |ranges| || to < ranges[fromIdx].from - 1 {
        ranges := ranges[..fromIdx] + [Range(from, to)] + ranges[fromIdx..];
        assert ranges == Replaced(rs, Range(from, to), fromIdx, fromIdx);
        return;
      }
      var current := ranges[fromIdx];
      ranges := ranges[fromIdx := Range(Min(current.from, from), Max(current.to, to))];
      Touching(rs, from, to, fromIdx, ranges);
      Swallow(rs, from, to, fromIdx);
    }

    /** The rest of `_add_range`: the ranges from `fromIdx` on that touch the added one become one. */
    method Swallow(ghost rs: seq<Range>, ghost from: int, to: int, fromIdx: nat)
      requires Grown(rs, from, to, fromIdx, ranges)
      modifies this
      ensures var j := LastIndex(old(ranges), to) + 1;
        ranges == Replaced(rs, Spliced(rs, from, to, fromIdx, j), fromIdx, j)
    {
      hide Replaced, Spliced, Min, Max, Canonical;
      Swallowed(rs, from, to, fromIdx, ranges);
      hide SortedByFrom, Grown;
      var toIdx := SortedIndex(ranges, to);
      toIdx := if toIdx == |ranges| || to < ranges[toIdx].from - 1 then toIdx - 1 else toIdx;
      assert toIdx == LastIndex(ranges, to);
      hide LastIndex, SortedIndex;
      var next, current := ranges[toIdx], ranges[fromIdx];
      ranges := ranges[fromIdx := Range(current.from, Max(current.to, next.to))];
      if toIdx > fromIdx {
        ranges := ranges[..fromIdx + 1] + ranges[toIdx + 1..];
      }
    }

    /** `contains` (lib/util.js:1083-1091), on a number. */
    method Contains(ip: int) returns (found: bool)
      requires Valid()
      ensures found <==> Covers(ranges, ip)
    {
      var idx := SortedIndex(ranges, ip);
      if idx < |ranges| && ranges[idx].from == ip {
        return true;
      }
      found := idx > 0 && ranges[idx - 1].from <= ip <= ranges[idx - 1].to;
    }
  }
}
