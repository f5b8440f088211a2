/** Hexadecimal text of natural numbers, as `n.toString(16)` prints and `parseInt(s, 16)` reads them. */
module Hex {

  predicate IsHex(c: char) {
    '0' <= c <= '9' || 'a' <= c <= 'f' || 'A' <= c <= 'F'
  }

  function HexDigit(c: char): (d: nat)
    requires IsHex(c)
    ensures d < 16
  {
    if c <= '9' then (c - '0') as nat else if c <= 'F' then (c - 'A') as nat + 10 else (c - 'a') as nat + 10
  }

  /** Lower case, as section 4.3 of RFC 5952 asks. */
  function HexChar(d: nat): (c: char)
    requires d < 16
    ensures IsHex(c) && HexDigit(c) == d && !('A' <= c <= 'F')
  {
    if d < 10 then '0' + d as char else 'a' + (d - 10) as char
  }

  predicate AllHex(s: string) {
    forall c :: c in s ==> IsHex(c)
  }

  function ToHex(n: nat): (s: string)
    ensures s != "" && AllHex(s) && forall c :: c in s ==> !('A' <= c <= 'F')
  {
    if n < 16 then [HexChar(n)] else ToHex(n / 16) + [HexChar(n % 16)]
  }

  function HexValue(s: string): nat
    requires AllHex(s)
  {
    if s == "" then 0 else HexValue(s[..|s| - 1]) * 16 + HexDigit(s[|s| - 1])
  }

  /** Where the hexadecimal digits at the start of `s` end. */
  function HexPrefix(s: string): (n: nat)
    ensures n <= |s| && AllHex(s[..n]) && (n < |s| ==> !IsHex(s[n]))
  {
    if s == "" then 0
    else
      var n := HexPrefix(s[..|s| - 1]);
      assert s[..|s| - 1][..n] == s[..n];
      if n == |s| - 1 && IsHex(s[n]) then
        assert s == s[..n] + [s[n]];
        |s|
      else n
  }

  /** `parseInt(s, 16)`, with 0 for `NaN`: the bit operators turn it into that. */
  function ParseHex(s: string): nat {
    HexValue(s[..HexPrefix(s)])
  }

  lemma EachHex(s: string, n: nat)
    requires n <= |s| && AllHex(s[..n])
    ensures forall k :: 0 <= k < n ==> IsHex(s[k])
  {
    forall k | 0 <= k < n ensures IsHex(s[k]) {
      assert s[..n][k] in s[..n];
    }
  }

  lemma ParseHexValue(s: string, rest: string)
    requires AllHex(s) && (rest == "" || !IsHex(rest[0]))
    ensures ParseHex(s + rest) == HexValue(s)
  {
    hide HexValue, IsHex, AllHex;
    var t := s + rest;
    assert t[..|s|] == s;
    EachHex(t, |s|);
    EachHex(t, HexPrefix(t));
  }

  lemma {:induction false} ValueOfHex(n: nat)
    ensures HexValue(ToHex(n)) == n
  {
    if n < 16 {
      assert ToHex(n)[..0] == "";
    } else {
      ValueOfHex(n / 16);
      assert ToHex(n)[..|ToHex(n)| - 1] == ToHex(n / 16);
    }
  }

  /** No leading zero (section 4.1 of RFC 5952), and four digits are enough for 16 bits. */
  lemma {:induction false} ShapeOfHex(n: nat)
    ensures ToHex(n)[0] == '0' <==> n == 0
    ensures n < 0x1_0000 ==> |ToHex(n)| <= 4
  {
    if n >= 16 {
      ShapeOfHex(n / 16);
      assert ToHex(n)[0] == ToHex(n / 16)[0];
      if n < 0x1_0000 && n / 16 < 0x1000 {
        ThreeDigits(n / 16);
      }
    }
  }

  lemma ThreeDigits(n: nat)
    requires n < 0x1000
    ensures |ToHex(n)| <= 3
  {
    if n >= 16 {
      assert n / 16 < 0x100;
      if n / 16 >= 16 {
        assert n / 16 / 16 < 16 && |ToHex(n / 16 / 16)| == 1;
        assert |ToHex(n / 16)| == 2;
      }
    }
  }

  /** The digits of base sixteen, in either case. */
  lemma HexDigits(d: nat)
    requires d < 16
    ensures HexChar(d) == "0123456789abcdef"[d] && HexDigit("0123456789abcdef"[d]) == d
    ensures HexDigit("0123456789ABCDEF"[d]) == d
  {
  }

  /** The last digit counts ones, and those before it sixteens. */
  lemma HexSnoc(s: string, c: char)
    requires AllHex(s) && IsHex(c)
    ensures AllHex(s + [c]) && HexValue(s + [c]) == 16 * HexValue(s) + HexDigit(c)
    ensures s == "" ==> HexValue(s) == 0
  {
    assert (s + [c])[..|s|] == s;
  }
}
