/** The canonical text of an IPv6 address (util/conv.js:243-300), by section 4 of RFC 5952. */
module Ipv6Canon {
  import opened Hex

  /** Eight numbers of 16 bits. */
  predicate IsAddress(g: seq<nat>) {
    |g| == 8 && forall i :: 0 <= i < 8 ==> g[i] < 0x1_0000
  }

  predicate AreOctets(a: seq<nat>) {
    |a| == 16 && forall i :: 0 <= i < 16 ==> a[i] < 0x100
  }

  /** The address that sixteen octets denote, the high octet of each group first. */
  function GroupsOf(a: seq<nat>): (g: seq<nat>)
    requires AreOctets(a)
    ensures IsAddress(g)
  {
    seq(8, i requires 0 <= i < 8 => a[2 * i] * 256 + a[2 * i + 1])
  }

  // ----- The reference ------------------------------------------------------------------------------

  /** `n` groups of zero from group `p` on. */
  predicate IsRun(g: seq<nat>, p: nat, n: nat) {
    p + n <= |g| && forall k :: p <= k < p + n ==> g[k] == 0
  }

  /** Section 4.2.3: the longest run of zeros, and the first of the longest. */
  ghost predicate FirstLongest(g: seq<nat>, p: nat, n: nat) {
    IsRun(g, p, n) && forall q: nat, m: nat :: IsRun(g, q, m) ==> m < n || (m == n && q >= p)
  }

  /** The groups with colons between them. */
  function Colons(g: seq<nat>): string {
    if g == [] then "" else if |g| == 1 then ToHex(g[0]) else Colons(g[..|g| - 1]) + ":" + ToHex(g[|g| - 1])
  }

  /** Sections 4.2.1 to 4.2.3: `::` stands for the first longest run, if that is longer than one group. */
  ghost predicate IsCanonical(g: seq<nat>, text: string) {
    (exists p: nat, n: nat :: n > 1 && p + n <= |g| && FirstLongest(g, p, n) &&
          text == Colons(g[..p]) + "::" + Colons(g[p + n..])) ||
    ((forall p: nat, n: nat :: IsRun(g, p, n) ==> n <= 1) && text == Colons(g))
  }

  /** There is one canonical text. */
  lemma CanonicalUnique(g: seq<nat>, s: string, t: string)
    requires IsCanonical(g, s) && IsCanonical(g, t)
    ensures s == t
  {
    hide Colons, ToHex;
    if p: nat, n: nat :|
      n > 1 && p + n <= |g| && FirstLongest(g, p, n) && s == Colons(g[..p]) + "::" + Colons(g[p + n..]) {
      assert IsRun(g, p, n);
      var q: nat, m: nat :|
        m > 1 && q + m <= |g| && FirstLongest(g, q, m) && t == Colons(g[..q]) + "::" + Colons(g[q + m..]);
      FirstUnique(g, p, n, q, m);
    }
  }

  lemma FirstUnique(g: seq<nat>, p: nat, n: nat, q: nat, m: nat)
    requires FirstLongest(g, p, n) && FirstLongest(g, q, m)
    ensures p == q && n == m
  {
    hide IsRun;
    assert IsRun(g, p, n) && IsRun(g, q, m);
  }

  // ----- The longest run -----------------------------------------------------------------------------

  /** What the scan knows after `i` groups: the best closed run, and the run that is still open. */
  ghost predicate Scanned(g: seq<nat>, i: nat, maxLen: nat, maxAt: nat, curLen: nat, curAt: nat) {
    && i <= |g| && curLen <= i
    && IsRun(g, i - curLen, curLen)
    && (curLen > 0 ==> curAt == i - curLen)
    && (curLen < i ==> g[i - curLen - 1] != 0)
    && IsRun(g, maxAt, maxLen) && maxAt + maxLen <= i - curLen
    && forall q: nat, m: nat {:trigger IsRun(g, q, m)} :: IsRun(g, q, m) && 0 < m && q + m <= i - curLen ==>
      m < maxLen || (m == maxLen && q >= maxAt)
  }

  /** A run lies before the group at `k`, or behind it, if that is not zero. */
  lemma RunSplits(g: seq<nat>, q: nat, m: nat, k: nat)
    requires IsRun(g, q, m) && k < |g| && g[k] != 0
    ensures q + m <= k || q > k
  {
  }

  lemma ScanStart(g: seq<nat>)
    ensures Scanned(g, 0, 0, 0, 0, 0)
  {
  }

  lemma ScanZero(g: seq<nat>, i: nat, maxLen: nat, maxAt: nat, curLen: nat, curAt: nat)
    requires i < |g| && g[i] == 0 && Scanned(g, i, maxLen, maxAt, curLen, curAt)
    ensures Scanned(g, i + 1, maxLen, maxAt, curLen + 1, if curLen == 0 then i else curAt)
  {
  }

  /** The open run is closed, and replaces the best one only if it is longer. */
  lemma ScanClose(g: seq<nat>, i: nat, maxLen: nat, maxAt: nat, curLen: nat, curAt: nat)
    requires Scanned(g, i, maxLen, maxAt, curLen, curAt)
    ensures var better := curLen > maxLen;
      var n, p := if better then curLen else maxLen, if better then curAt else maxAt;
      IsRun(g, p, n) && p + n <= i &&
      forall q: nat, m: nat {:trigger IsRun(g, q, m)} ::
        IsRun(g, q, m) && 0 < m && q + m <= i ==> m < n || (m == n && q >= p)
  {
    var better := curLen > maxLen;
    var n, p := if better then curLen else maxLen, if better then curAt else maxAt;
    forall q: nat, m: nat {:trigger IsRun(g, q, m)} | IsRun(g, q, m) && 0 < m && q + m <= i
      ensures m < n || (m == n && q >= p)
    {
      if curLen < i {
        RunSplits(g, q, m, i - curLen - 1);
      }
    }
  }

  lemma ScanOther(g: seq<nat>, i: nat, maxLen: nat, maxAt: nat, curLen: nat, curAt: nat, anyAt: nat)
    requires i < |g| && g[i] != 0 && Scanned(g, i, maxLen, maxAt, curLen, curAt)
    ensures var better := curLen > maxLen;
      Scanned(g, i + 1, if better then curLen else maxLen, if better then curAt else maxAt, 0, anyAt)
  {
    ScanClose(g, i, maxLen, maxAt, curLen, curAt);
    var better := curLen > maxLen;
    var n, p := if better then curLen else maxLen, if better then curAt else maxAt;
    forall q: nat, m: nat {:trigger IsRun(g, q, m)} | IsRun(g, q, m) && 0 < m && q + m <= i + 1
      ensures m < n || (m == n && q >= p)
    {
      RunSplits(g, q, m, i);
    }
  }

  /** The search of `ipv6_oct_to_canon` (util/conv.js:245-276). */
  method LongestRun(arr: seq<nat>) returns (arr8: seq<nat>, max0len: nat, max0i: nat)
    requires AreOctets(arr)
    ensures arr8 == GroupsOf(arr) && |arr8| == 8
    ensures if max0len > 0 then FirstLongest(arr8, max0i, max0len)
      else forall p: nat, n: nat :: IsRun(arr8, p, n) ==> n == 0
  {
    ghost var g := GroupsOf(arr);
    arr8, max0len, max0i := [], 0, 0;
    var cur0len: nat, cur0i: nat := 0, 0;
    ScanStart(g);
    for i := 0 to 8
      invariant arr8 == g[..i] && Scanned(g, i, max0len, max0i, cur0len, cur0i)
    {
      hide Scanned;
      var cur2oct := arr[i * 2] * 256 + arr[i * 2 + 1];
      assert cur2oct == g[i];
      if cur2oct == 0 {
        ScanZero(g, i, max0len, max0i, cur0len, cur0i);
        if cur0len == 0 {
          cur0i := i;
          cur0len := 1;
        } else {
          cur0len := cur0len + 1;
        }
      } else {
        ScanOther(g, i, max0len, max0i, cur0len, cur0i, cur0i);
        if cur0len > 0 {
          if cur0len > max0len {
            max0len := cur0len;
            max0i := cur0i;
          }
          cur0len := 0;
        }
      }
      arr8 := arr8 + [cur2oct];
    }
    ScanClose(g, 8, max0len, max0i, cur0len, cur0i);
    if cur0len > max0len {
      max0len := cur0len;
      max0i := cur0i;
    }
    assert arr8 == g;
  }

  // ----- The text ---------------------------------------------------------------------------------------

  lemma ColonsSnoc(g: seq<nat>, n: nat)
    ensures Colons(g + [n]) == if g == [] then ToHex(n) else Colons(g) + ":" + ToHex(n)
  {
    assert (g + [n])[..|g|] == g;
  }

  /** The groups, each with a colon behind it. */
  function Left(g: seq<nat>): string {
    if g == [] then "" else Colons(g) + ":"
  }

  /** What stands after the groups before the gap, when the groups `g` behind it have been added. */
  function AfterLeft(left: string, g: seq<nat>): string {
    if g == [] then left + ":" else left + "::" + Colons(g)
  }

  lemma NoLeft()
    ensures Left([]) == ""
  {
  }

  lemma LeftIs(g: seq<nat>)
    requires g != []
    ensures Left(g) == Colons(g) + ":"
  {
  }

  lemma AfterLeftIs(left: string, g: seq<nat>)
    ensures AfterLeft(left, []) == left + ":"
    ensures g != [] ==> AfterLeft(left, g) == left + "::" + Colons(g)
  {
  }

  lemma NextLeft(g: seq<nat>, n: nat)
    ensures Left(g + [n]) == Left(g) + ToHex(n) + ":"
  {
    ColonsSnoc(g, n);
    if g == [] {
      assert "" + ToHex(n) + ":" == ToHex(n) + ":";
    }
  }

  lemma NextRight(left: string, g: seq<nat>, n: nat)
    ensures AfterLeft(left, g + [n]) == AfterLeft(left, g) + ":" + ToHex(n)
  {
    ColonsSnoc(g, n);
    if g == [] {
      assert left + ":" + ":" == left + "::";
    } else {
      assert left + "::" + (Colons(g) + ":" + ToHex(n)) == left + "::" + Colons(g) + ":" + ToHex(n);
    }
  }

  /** The text with `::` for the `max0len` groups from `max0i` on (util/conv.js:279-291). */
  method WithGap(arr8: seq<nat>, max0i: nat, max0len: nat) returns (res: string)
    requires |arr8| == 8 && max0i + max0len <= 8
    ensures res == Colons(arr8[..max0i]) + "::" + Colons(arr8[max0i + max0len..])
  {
    hide Colons, ToHex, AfterLeft, Left;
    res := "";
    NoColons();
    NoLeft();
    ghost var left, right := Colons(arr8[..max0i]), arr8[max0i + max0len..];
    if max0i != 0 {
      for i := 0 to max0i
        invariant res == Left(arr8[..i])
      {
        NextLeft(arr8[..i], arr8[i]);
        assert arr8[..i + 1] == arr8[..i] + [arr8[i]];
        res := res + ToHex(arr8[i]) + ":";
      }
    } else {
      res := ":";
      assert "" + ":" == ":";
    }
    if max0i != 0 {
      LeftIs(arr8[..max0i]);
    }
    AfterLeftIs(left, right);
    var max0end := max0i + max0len;
    if max0end == 8 {
      res := res + ":";
      assert right == [] && left + "::" + "" == left + "::" == left + ":" + ":";
    } else {
      assert arr8[max0end..max0end] == [];
      for i := max0end to 8
        invariant res == AfterLeft(left, arr8[max0end..i])
      {
        NextRight(left, arr8[max0end..i], arr8[i]);
        assert arr8[max0end..i + 1] == arr8[max0end..i] + [arr8[i]];
        res := res + ":" + ToHex(arr8[i]);
      }
      assert arr8[max0end..8] == right;
    }
  }

  /** `ipv6_oct_to_canon` (util/conv.js:243-300). */
  method OctToCanon(arr: seq<nat>) returns (res: string)
    requires AreOctets(arr)
    ensures IsCanonical(GroupsOf(arr), res)
  {
    hide FirstLongest, Colons, ToHex, IsCanonical, GroupsOf, AreOctets, Left;
    var arr8, max0len, max0i := LongestRun(arr);
    res := "";
    if max0len > 1 {
      RunFits(arr8, max0i, max0len);
      res := WithGap(arr8, max0i, max0len);
      GapText(arr8, max0i, max0len, res);
    } else {
      NoLeft();
      for i := 0 to 7
        invariant res == Left(arr8[..i])
      {
        NextLeft(arr8[..i], arr8[i]);
        assert arr8[..i + 1] == arr8[..i] + [arr8[i]];
        res := res + ToHex(arr8[i]) + ":";
      }
      LeftIs(arr8[..7]);
      ColonsSnoc(arr8[..7], arr8[7]);
      assert arr8 == arr8[..7] + [arr8[7]];
      res := res + ToHex(arr8[7]);
      PlainText(arr8, max0i, max0len, res);
    }
  }

  lemma GapText(g: seq<nat>, p: nat, n: nat, text: string)
    requires n > 1 && p + n <= |g| && FirstLongest(g, p, n) && text == Colons(g[..p]) + "::" + Colons(g[p + n..])
    ensures IsCanonical(g, text)
  {
  }

  lemma NoColons()
    ensures Colons([]) == ""
  {
  }

  lemma RunFits(g: seq<nat>, p: nat, n: nat)
    requires FirstLongest(g, p, n)
    ensures p + n <= |g|
  {
  }

  lemma PlainText(g: seq<nat>, p: nat, n: nat, text: string)
    requires n <= 1 && (if n > 0 then FirstLongest(g, p, n) else forall q: nat, m: nat :: IsRun(g, q, m) ==> m == 0)
    requires text == Colons(g)
    ensures IsCanonical(g, text)
  {
  }

  // ----- Where the double colon stands ----------------------------------------------------------------

  /** Two colons in a row. */
  ghost predicate HasGap(text: string) {
    exists i :: 0 <= i < |text| - 1 && text[i] == ':' && text[i + 1] == ':'
  }

  /** Groups with colons between them: no two colons in a row, and none at either end. */
  lemma {:induction false} ColonsHaveNoGap(g: seq<nat>)
    ensures !HasGap(Colons(g)) && (g != [] ==> Colons(g) != "" && Colons(g)[|Colons(g)| - 1] != ':')
  {
    hide ToHex;
    if |g| == 1 {
      NoColon(ToHex(g[0]));
    } else if g != [] {
      var front, last := Colons(g[..|g| - 1]), ToHex(g[|g| - 1]);
      ColonsHaveNoGap(g[..|g| - 1]);
      NoColon(last);
      var text := front + ":" + last;
      forall i | 0 <= i < |text| - 1 && text[i] == ':' ensures text[i + 1] != ':' {
        if i + 1 < |front| {
          assert front[i] == ':' && front[i + 1] == text[i + 1];
        } else if i >= |front| {
          assert text[i + 1] == last[i - |front|];
        }
      }
    }
  }

  lemma NoColon(digits: string)
    requires digits != "" && AllHex(digits)
    ensures forall i :: 0 <= i < |digits| ==> digits[i] != ':'
  {
    forall i | 0 <= i < |digits| ensures digits[i] != ':' {
      assert digits[i] in digits;
    }
  }

  /** Section 4.2.2: the canonical text is shortened exactly if two groups in a row are zero. */
  lemma GapExactly(g: seq<nat>, text: string)
    requires IsAddress(g) && IsCanonical(g, text)
    ensures HasGap(text) <==> exists i :: 0 <= i < 7 && g[i] == 0 == g[i + 1]
  {
    hide Colons, ToHex;
    if p: nat, n: nat :|
      n > 1 && p + n <= |g| && FirstLongest(g, p, n) && text == Colons(g[..p]) + "::" + Colons(g[p + n..]) {
      var k := |Colons(g[..p])|;
      assert text[k] == ':' && text[k + 1] == ':';
      assert IsRun(g, p, n) && g[p] == 0 == g[p + 1];
    } else {
      ColonsHaveNoGap(g);
      if i :| 0 <= i < 7 && g[i] == 0 == g[i + 1] {
        assert IsRun(g, i, 2);
      }
    }
  }

  /** The last example of section 4.2.3, 2001:db8:0:0:1:0:0:1: of two runs of the same length the first is shortened. */
  lemma Example()
    ensures FirstLongest([0x2001, 0xDB8, 0, 0, 1, 0, 0, 1], 2, 2)
  {
    var g := [0x2001, 0xDB8, 0, 0, 1, 0, 0, 1];
    forall q: nat, m: nat | IsRun(g, q, m) ensures m < 2 || (m == 2 && q >= 2) {
      ExampleRuns(g, q, m);
    }
  }

  lemma ExampleRuns(g: seq<nat>, q: nat, m: nat)
    requires g == [0x2001, 0xDB8, 0, 0, 1, 0, 0, 1] && IsRun(g, q, m)
    ensures m < 2 || (m == 2 && q >= 2)
  {
    if m >= 2 {
      assert g[q] == 0 && g[q + 1] == 0;
      assert q == 2 || q == 5;
      assert g[q + 2] == 1;
    }
  }
}
