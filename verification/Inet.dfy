/** IPv4 addresses as text and as 32-bit numbers (util/conv.js:121-149). */
module Inet {
  import opened Wrappers
  import opened Decimal
  import opened TextFields

  const TWO32 := 0x1_0000_0000

  /** A number as the 32-bit operators of JavaScript read it: signed. */
  function ToInt32(x: int): int {
    var m := x % TWO32;
    if m >= 0x8000_0000 then m - TWO32 else m
  }

  /** The factor that `<< shift` multiplies by; only the low five bits of `shift` count. */
  function ShiftFactor(shift: int): nat {
    Pow2(shift % 32)
  }

  function Pow2(n: nat): nat {
    if n == 0 then 1 else 2 * Pow2(n - 1)
  }

  lemma BytePowers()
    ensures Pow2(0) == 1 && Pow2(8) == 0x100 && Pow2(16) == 0x1_0000 && Pow2(24) == 0x100_0000
  {
    assert Pow2(4) == 16;
    assert Pow2(8) == 0x100;
    assert Pow2(12) == 0x1000;
    assert Pow2(16) == 0x1_0000;
    assert Pow2(20) == 0x10_0000;
  }

  /** `inet_ntoa_t` (util/conv.js:121-124). */
  function Ntoa(ip: int): string {
    var m := ip % TWO32;
    ToText(m / 0x100_0000) + "." + ToText(m / 0x1_0000 % 0x100) + "." +
    ToText(m / 0x100 % 0x100) + "." + ToText(m % 0x100)
  }

  // ----- The reference ----------------------------------------------------------------------------

  /** A field that is a number from 0 to 255. */
  predicate IsByte(field: string) {
    field != "" && AllDigits(field) && FromText(field) < 256
  }

  /** The number that dotted bytes denote, the first the most significant. */
  function FromBytes(fields: seq<string>): nat
    requires forall i :: 0 <= i < |fields| ==> IsByte(fields[i])
  {
    if fields == [] then 0
    else
      assert IsByte(fields[|fields| - 1]);
      FromBytes(fields[..|fields| - 1]) * 256 + FromText(fields[|fields| - 1])
  }

  /** Exactly the texts of four bytes with dots between them are addresses. */
  function Address(s: string): Option<nat> {
    var fields := Fields(s, '.');
    if |fields| == 4 && forall i :: 0 <= i < 4 ==> IsByte(fields[i]) then Some(FromBytes(fields)) else None
  }

  lemma {:induction false} FromBytesBound(fields: seq<string>)
    requires |fields| <= 4 && forall i :: 0 <= i < |fields| ==> IsByte(fields[i])
    ensures FromBytes(fields) <
      (if |fields| == 0 then 1 else if |fields| == 1 then 0x100 else if |fields| == 2 then 0x1_0000
       else if |fields| == 3 then 0x100_0000 else TWO32)
  {
    if fields != [] {
      assert IsByte(fields[|fields| - 1]);
      FromBytesBound(fields[..|fields| - 1]);
    }
  }

  // ----- The parser -------------------------------------------------------------------------------

  /** `inet_addr` (util/conv.js:126-149). */
  method InetAddr(ip: string) returns (r: Option<int>)
    ensures r == Address(ip)
  {
    hide ScanState, Fields, Address, ToInt32, ShiftFactor;
    var res: int, shift: int, num: Option<nat> := 0, 24, None;
    ScanStart();
    for i := 0 to |ip|
      invariant ScanState(ip[..i], res, shift, num)
    {
      var c := ip[i];
      assert ip[..i + 1] == ip[..i] + [c];
      if IsDigit(c) {
        ScanDigit(ip[..i], c, res, shift, num);
        num := Some((if num.Some? then num.value else 0) * 10 + DigitValue(c));
        continue;
      }
      assert ip == ip[..i] + [c] + ip[i + 1..];
      if c == '.' {
        if num.None? || num.value > 255 {
          ScanFails(ip[..i], c, ip[i + 1..], res, shift, num);
          return None;
        }
        ScanDot(ip[..i], res, shift, num.value);
        res := res + ToInt32(num.value * ShiftFactor(shift));
        num := None;
        shift := shift - 8;
        continue;
      }
      ScanFails(ip[..i], c, ip[i + 1..], res, shift, num);
      return None;
    }
    assert ip[..|ip|] == ip;
    ScanEnd(ip, res, shift, num);
    r := if shift == 0 && num.Some? && num.value < 256 then Some((res + num.value) % TWO32) else None;
  }

  /** After `s`: all fields but the last are bytes, `res` is their sum and `num` the number of the last. */
  ghost predicate ScanState(s: string, res: int, shift: int, num: Option<nat>) {
    var fields := Fields(s, '.');
    var n := |fields| - 1;
    && shift == 24 - 8 * n
    && (forall i :: 0 <= i < n ==> IsByte(fields[i]))
    && AllDigits(fields[n])
    && num == (if fields[n] == "" then None else Some(FromText(fields[n])))
    && (n <= 3 ==> res % TWO32 == FromBytes(fields[..n]) * Pow2(shift + 8) % TWO32)
  }

  lemma ScanStart()
    ensures ScanState("", 0, 24, None)
  {
  }

  lemma ScanDigit(s: string, c: char, res: int, shift: int, num: Option<nat>)
    requires IsDigit(c) && ScanState(s, res, shift, num)
    ensures ScanState(s + [c], res, shift, Some((if num.Some? then num.value else 0) * 10 + DigitValue(c)))
  {
    hide Fields, FromBytes, Pow2, IsByte, FromText;
    FieldsSnoc(s, c, '.');
    var fields, n := Fields(s, '.'), |Fields(s, '.')| - 1;
    assert Fields(s + [c], '.')[n] == fields[n] + [c];
    DecimalSnoc(fields[n], c);
    assert Fields(s + [c], '.')[..n] == fields[..n];
  }

  lemma ScanDot(s: string, res: int, shift: int, num: nat)
    requires ScanState(s, res, shift, Some(num)) && num <= 255
    ensures ScanState(s + ".", res + ToInt32(num * ShiftFactor(shift)), shift - 8, None)
  {
    FieldsSnoc(s, '.', '.');
    var fields, n := Fields(s, '.'), |Fields(s, '.')| - 1;
    assert IsByte(fields[n]);
    assert (fields + [""])[..n + 1] == fields && fields[..n + 1] == fields;
    if n < 3 {
      BytePowers();
      AddByte(FromBytes(fields[..n]), num, shift, res);
    }
  }

  /** One more byte moves into the sum, modulo 2^32, signed as the shift may be. */
  lemma AddByte(before: nat, num: nat, shift: int, res: int)
    requires shift == 8 || shift == 16 || shift == 24
    requires num <= 255 && res % TWO32 == before * Pow2(shift + 8) % TWO32
    ensures (res + ToInt32(num * ShiftFactor(shift))) % TWO32 == (before * 256 + num) * Pow2(shift) % TWO32
  {
    var x := num * Pow2(shift);
    assert shift % 32 == shift;
    EightMore(shift);
    SignedSame(x);
    hide Pow2, ToInt32;
    Factor(before, num, Pow2(shift));
    SumMod(res, ToInt32(x), before * Pow2(shift + 8), x);
  }

  lemma SignedSame(x: int)
    ensures ToInt32(x) % TWO32 == x % TWO32
  {
  }

  lemma EightMore(shift: nat)
    ensures Pow2(shift + 8) == 256 * Pow2(shift)
  {
    assert Pow2(shift + 8) == 4 * Pow2(shift + 6);
    assert Pow2(shift + 6) == 4 * Pow2(shift + 4);
    assert Pow2(shift + 4) == 4 * Pow2(shift + 2);
    assert Pow2(shift + 2) == 4 * Pow2(shift);
  }

  lemma Factor(b: nat, v: nat, p: nat)
    ensures b * (256 * p) + v * p == (b * 256 + v) * p
  {
  }

  lemma SumMod(a: int, b: int, c: int, d: int)
    requires a % TWO32 == c % TWO32 && b % TWO32 == d % TWO32
    ensures (a + b) % TWO32 == (c + d) % TWO32
  {
    var k1, k2 := a / TWO32 - c / TWO32, b / TWO32 - d / TWO32;
    assert a + b == (c + d) + (k1 + k2) * TWO32;
  }

  lemma ScanEnd(s: string, res: int, shift: int, num: Option<nat>)
    requires ScanState(s, res, shift, num)
    ensures Address(s) ==
      if shift == 0 && num.Some? && num.value < 256 then Some((res + num.value) % TWO32) else None
  {
    var fields, n := Fields(s, '.'), |Fields(s, '.')| - 1;
    if shift == 0 && num.Some? && num.value < 256 {
      assert IsByte(fields[3]) && fields[..|fields| - 1] == fields[..3];
      assert FromBytes(fields) == FromBytes(fields[..3]) * 256 + num.value;
      FromBytesBound(fields);
      BytePowers();
      SumMod(res, num.value, FromBytes(fields[..3]) * 256, num.value);
    }
  }

  lemma ScanFails(s: string, c: char, rest: string, res: int, shift: int, num: Option<nat>)
    requires ScanState(s, res, shift, num) && !IsDigit(c)
    requires c != '.' || num.None? || num.value > 255
    ensures Address(s + [c] + rest) == None
  {
    assert (s + [c])[..|s|] == s;
    FieldsGrow(s + [c], rest, '.');
    var n := |Fields(s, '.')| - 1;
    var bad := Fields(s + [c] + rest, '.')[n];
    if c == '.' {
      assert bad == Fields(s, '.')[n];
    } else {
      assert c in Fields(s + [c], '.')[n] && c in bad;
    }
    assert !IsByte(bad);
  }

  // ----- Printing and parsing ---------------------------------------------------------------------

  lemma NextField(s: string, before: seq<string>, digits: string)
    requires Fields(s, '.') == before + [""] && AllDigits(digits)
    ensures Fields(s + digits, '.') == before + [digits]
    ensures Fields(s + digits + ".", '.') == before + [digits] + [""]
  {
    FieldsAppend(s, digits, '.');
    assert "" + digits == digits && (before + [""])[..|before|] == before;
    assert (s + digits + ".")[..|s + digits|] == s + digits;
  }

  lemma QuadFields(a: string, b: string, c: string, d: string)
    requires AllDigits(a) && AllDigits(b) && AllDigits(c) && AllDigits(d)
    ensures Fields(a + "." + b + "." + c + "." + d, '.') == [a, b, c, d]
  {
    hide Fields;
    assert Fields("", '.') == [] + [""] by {
      NoFields('.');
    }
    assert "" + a == a;
    NextField("", [], a);
    NextField(a + ".", [] + [a], b);
    NextField(a + "." + b + ".", [] + [a] + [b], c);
    NextField(a + "." + b + "." + c + ".", [] + [a] + [b] + [c], d);
  }

  lemma QuadBytes(a: string, b: string, c: string, d: string)
    requires IsByte(a) && IsByte(b) && IsByte(c) && IsByte(d)
    ensures FromBytes([a, b, c, d]) == ((FromText(a) * 256 + FromText(b)) * 256 + FromText(c)) * 256 + FromText(d)
  {
    var f4, f3, f2, f1 := [a, b, c, d], [a, b, c], [a, b], [a];
    assert f4[..3] == f3 && f3[..2] == f2 && f2[..1] == f1 && f1[..0] == [];
    assert FromBytes(f1) == FromText(a);
    assert FromBytes(f2) == FromBytes(f1) * 256 + FromText(b);
    assert FromBytes(f3) == FromBytes(f2) * 256 + FromText(c);
  }

  lemma ByteText(n: nat)
    requires n < 256
    ensures IsByte(ToText(n)) && FromText(ToText(n)) == n
  {
    FromToText(n);
  }

  lemma BytesOf(m: nat)
    requires m < TWO32
    ensures m / 0x100_0000 < 256
    ensures m == ((m / 0x100_0000 * 256 + m / 0x1_0000 % 0x100) * 256 + m / 0x100 % 0x100) * 256 + m % 0x100
  {
    assert m / 0x100 == m / 0x1_0000 * 256 + m / 0x100 % 0x100;
    assert m / 0x1_0000 == m / 0x100_0000 * 256 + m / 0x1_0000 % 0x100;
  }

  /** The number that is printed is read back, for every 32-bit number, signed or unsigned. */
  lemma AddressOfNtoa(ip: int)
    ensures Address(Ntoa(ip)) == Some(ip % TWO32)
  {
    hide Fields, ToText, FromText, FromBytes;
    var m := ip % TWO32;
    var a, b, c, d := m / 0x100_0000, m / 0x1_0000 % 0x100, m / 0x100 % 0x100, m % 0x100;
    BytesOf(m);
    ByteText(a);
    ByteText(b);
    ByteText(c);
    ByteText(d);
    QuadFields(ToText(a), ToText(b), ToText(c), ToText(d));
    QuadBytes(ToText(a), ToText(b), ToText(c), ToText(d));
  }
}
