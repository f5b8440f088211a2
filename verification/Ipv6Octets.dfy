/**
 IPv6 text as sixteen octets (util/conv.js:152-239), and back. Section 2.2 of RFC 4291 gives the text
 forms: groups, `::` for groups of zeros, and a dotted quad at the end.
*/
module Ipv6Octets {
  import opened Decimal
  import opened Hex
  import opened Inet
  import opened Ipv6Canon
  import opened TextFields

  // ----- The reference ------------------------------------------------------------------------------

  predicate IsGroup(field: string) {
    1 <= |field| <= 4 && AllHex(field)
  }

  predicate AllGroups(fields: seq<string>) {
    forall i :: 0 <= i < |fields| ==> IsGroup(fields[i])
  }

  /** Four decimal bytes with dots between them. */
  predicate IsQuad(field: string) {
    Address(field).Some?
  }

  /** What may stand on the left of `::`. */
  predicate IsSide(text: string) {
    text == "" || AllGroups(Fields(text, ':'))
  }

  /** What may stand on the right of `::`. */
  predicate IsEnd(text: string) {
    var fields := Fields(text, ':');
    var n := |fields| - 1;
    text == "" || (AllGroups(fields[..n]) && (IsGroup(fields[n]) || IsQuad(fields[n])))
  }

  function NonEmpty(fields: seq<string>): seq<string> {
    if fields == [] then [] else (if fields[0] == "" then [] else [fields[0]]) + NonEmpty(fields[1..])
  }

  function Groups(text: string): seq<string> {
    NonEmpty(Fields(text, ':'))
  }

  /** `cur2b_int>>8`. */
  function High(value: nat): int {
    ToInt32(value) / 256
  }

  /** `cur2b_int&0xFF`. */
  function Low(value: nat): int {
    value % 256
  }

  function Octets(groups: seq<string>): seq<int> {
    if groups == [] then []
    else [High(ParseHex(groups[0])), Low(ParseHex(groups[0]))] + Octets(groups[1..])
  }

  /** The octets of the last field. */
  function LastOctets(field: string): seq<int> {
    if IsQuad(field) then
      var bytes := Fields(field, '.');
      seq(4, i requires 0 <= i < 4 => assert IsByte(bytes[i]); FromText(bytes[i]))
    else if field == "" then []
    else Octets([field])
  }

  function EndOctets(text: string): seq<int> {
    var fields := Fields(text, ':');
    Octets(fields[..|fields| - 1]) + LastOctets(fields[|fields| - 1])
  }

  function Zeros(n: nat): seq<int> {
    seq(n, i => 0)
  }

  /** `::` stands for as many zeros as are missing. */
  ghost predicate DenotesGap(x: string, y: string, a: seq<int>) {
    var front, back := Octets(Groups(x)), EndOctets(y);
    IsSide(x) && IsEnd(y) && |front| + |back| <= 16 && a == front + Zeros(16 - |front| - |back|) + back
  }

  /** The text is one of the address with the octets `a`: all sixteen, or fewer with one `::` among them. */
  ghost predicate Denotes(text: string, a: seq<int>) {
    (text != "" && IsEnd(text) && |EndOctets(text)| == 16 && a == EndOctets(text)) ||
    (exists x: string, y: string :: text == x + "::" + y && DenotesGap(x, y, a))
  }

  /** A list of sixteen octets by its indexes. */
  function OctetMap(a: seq<int>): map<int, int>
    requires |a| == 16
  {
    map i: int | 0 <= i < 16 :: a[i]
  }

  // ----- The octets that are set ---------------------------------------------------------------------

  /** The octet at `i` when `front` fills the list from its start and `back` from its end. */
  function At(front: seq<int>, back: seq<int>, i: int): int {
    if 0 <= i < |front| then front[i]
    else if 16 - |back| <= i < 16 then back[i - (16 - |back|)]
    else 0
  }

  /** The octets below `n` are set and those of `back`; they are right unless there are too many. */
  predicate Filled(res: map<int, int>, front: seq<int>, back: seq<int>, n: int) {
    |front| <= n <= 16 - |back| ==>
      res == map i: int | 0 <= i < 16 && (i < n || i >= 16 - |back|) :: At(front, back, i)
  }

  lemma PutFront(res: map<int, int>, front: seq<int>, back: seq<int>, octet: int)
    requires Filled(res, front, back, |front|)
    ensures Filled(res[|front| := octet], front + [octet], back, |front| + 1)
  {
  }

  lemma PutBack(res: map<int, int>, front: seq<int>, back: seq<int>, octet: int)
    requires Filled(res, front, back, |front|)
    ensures Filled(res[15 - |back| := octet], front, [octet] + back, |front|)
  {
  }

  lemma PutZero(res: map<int, int>, front: seq<int>, back: seq<int>, n: int)
    requires |front| <= n < 16 - |back| && Filled(res, front, back, n)
    ensures Filled(res[n := 0], front, back, n + 1)
  {
  }

  lemma NothingSet()
    ensures Filled(map[], [], [], 0)
  {
  }

  /** The block that sets the octets of a group from the end of the list, which the source repeats. */
  method PutGroup(group: string, before: map<int, int>, lastE: int, ghost front: seq<int>, ghost back: seq<int>)
    returns (res: map<int, int>, resE: int)
    requires lastE == 15 - |back| && Filled(before, front, back, |front|)
    ensures var more := Octets([group]) + back; resE == 15 - |more| && Filled(res, front, more, |front|)
  {
    hide Filled, High, Low, ParseHex;
    res, resE := before, lastE;
    var cur2bInt := ParseHex(group);
    PutBack(res, front, back, Low(cur2bInt));
    res := res[resE := Low(cur2bInt)];
    resE := resE - 1;
    PutBack(res, front, [Low(cur2bInt)] + back, High(cur2bInt));
    res := res[resE := High(cur2bInt)];
    resE := resE - 1;
    assert [High(cur2bInt)] + ([Low(cur2bInt)] + back) == Octets([group]) + back;
  }

  // ----- Fields ---------------------------------------------------------------------------------------

  lemma {:induction false} NonEmptySnoc(fields: seq<string>, f: string)
    ensures NonEmpty(fields + [f]) == NonEmpty(fields) + if f == "" then [] else [f]
  {
    if fields != [] {
      NonEmptySnoc(fields[1..], f);
      assert (fields + [f])[1..] == fields[1..] + [f];
    }
  }

  lemma NonEmptyCons(f: string, fields: seq<string>)
    ensures NonEmpty([f] + fields) == (if f == "" then [] else [f]) + NonEmpty(fields)
  {
    assert ([f] + fields)[1..] == fields;
  }

  lemma {:induction false} NonEmptyAll(fields: seq<string>)
    requires AllGroups(fields)
    ensures NonEmpty(fields) == fields
  {
    if fields != [] {
      NonEmptyAll(fields[1..]);
      assert IsGroup(fields[0]);
    }
  }

  lemma {:induction false} OctetsCat(f: seq<string>, g: seq<string>)
    ensures Octets(f + g) == Octets(f) + Octets(g)
  {
    hide ParseHex, High, Low;
    if f == [] {
      assert f + g == g && [] + Octets(g) == Octets(g);
    } else {
      var pair := [High(ParseHex(f[0])), Low(ParseHex(f[0]))];
      OctetsCat(f[1..], g);
      assert (f + g)[1..] == f[1..] + g;
      assert pair + (Octets(f[1..]) + Octets(g)) == pair + Octets(f[1..]) + Octets(g);
    }
  }

  lemma {:induction false} OctetsCount(f: seq<string>)
    ensures |Octets(f)| == 2 * |f|
  {
    if f != [] {
      OctetsCount(f[1..]);
    }
  }

  /** `str[i]` as a string; what `parseInt` makes of `undefined` behind other text is nothing more. */
  function CharAt(str: string, i: nat): string {
    if i < |str| then [str[i]] else ""
  }

  /** No `::` starts before `i`. */
  predicate NoGap(str: string, i: nat) {
    forall k :: 0 <= k < i && k + 1 < |str| && str[k] == ':' ==> str[k + 1] != ':'
  }

  lemma NoGapYet(str: string)
    ensures NoGap(str, 0)
  {
  }

  lemma NoGapNext(str: string, i: nat)
    requires NoGap(str, i) && i < |str|
    ensures NoGap(str, i + 1) <==> str[i] != ':' || i + 1 == |str| || str[i + 1] != ':'
  {
  }

  /** The next character lengthens the last field or ends it. */
  lemma NextChar(s: string, c: char, done: seq<string>, last: string)
    requires Fields(s, ':') == done + [last]
    ensures Fields(s + [c], ':') == if c == ':' then done + [last] + [""] else done + [last + [c]]
  {
    assert (s + [c])[..|s|] == s;
    assert (done + [last])[..|done|] == done;
  }

  // ----- The parser -----------------------------------------------------------------------------------

  /** `parseInt(s, 10)`, by the digits that the text starts with. */
  function ParseDec(s: string): nat {
    if AllDigits(s) then FromText(s) else ParseDec(s[..|s| - 1])
  }

  function Decs(fields: seq<string>): seq<int> {
    seq(|fields|, i requires 0 <= i < |fields| => ParseDec(fields[i]))
  }

  /** What the first loop makes of the field behind the last colon. */
  function Tail(field: string): seq<int> {
    if '.' in field then Decs(Fields(field, '.')) else if field == "" then [] else Octets([field])
  }

  /** The last colon is at `e + 1`, and `back` are the octets behind it. */
  ghost predicate LastColon(str: string, e: int, back: seq<int>) {
    0 <= e && e + 1 < |str| && str[e + 1] == ':' && ':' !in str[e + 2..] && back == Tail(str[e + 2..])
  }

  /** The inner loop of the first one: the numbers of a dotted quad, from its end (util/conv.js:168-186). */
  method Quad(str: string, last: int, field: string)
    returns (e: int, res: map<int, int>, resE: int, c: string, ghost back: seq<int>)
    requires 0 <= last && last + 1 < |str| && str[last + 1] == '.' && str[last + 2..] == field
    requires ':' !in field && '.' !in field
    ensures Filled(res, [], back, 0) && resE == 15 - |back|
    ensures -1 <= e && (e >= 0 ==> LastColon(str, e, back)) && (e == -1 ==> ':' !in str[1..])
  {
    hide Filled, Fields, ParseDec;
    NothingSet();
    PutBack(map[], [], [], ParseDec(field));
    res, resE, back := map[15 := ParseDec(field)], 14, [ParseDec(field)] + [];
    assert map[][15 := ParseDec(field)] == res;
    var cur := "";
    ghost var rest := field;
    OneField(field, '.');
    c, e := [str[last]], last - 1;
    while e >= 0 && c != ":"
      invariant -1 <= e && e + 1 < |str| && c == [str[e + 1]]
      invariant str[e + 2..] == cur + "." + rest && '.' !in cur && ':' !in str[e + 2..]
      invariant resE == 15 - |back| && back == Decs(Fields(rest, '.')) && Filled(res, [], back, 0)
    {
      if c == "." {
        PutBack(res, [], back, ParseDec(cur));
        res := res[resE := ParseDec(cur)];
        resE := resE - 1;
        NextNumber(cur, rest);
        back, rest := [ParseDec(cur)] + back, cur + "." + rest;
        cur := "";
      } else {
        assert c + (cur + "." + rest) == c + cur + "." + rest;
        cur := c + cur;
      }
      c, e := [str[e]], e - 1;
    }
    PutBack(res, [], back, ParseDec(cur));
    res := res[resE := ParseDec(cur)];
    resE := resE - 1;
    NextNumber(cur, rest);
    back := [ParseDec(cur)] + back;
  }

  lemma NextNumber(cur: string, rest: string)
    requires '.' !in cur
    ensures Decs(Fields(cur + "." + rest, '.')) == [ParseDec(cur)] + Decs(Fields(rest, '.'))
  {
    hide Fields, ParseDec;
    OneField(cur, '.');
    FieldsJoin(cur, rest, '.');
  }

  /** The first loop: what stands behind the last colon, and the character read last (util/conv.js:155-188). */
  method LastGroup(str: string)
    returns (e: int, res: map<int, int>, resE: int, c: string, ghost found: bool, ghost back: seq<int>)
    ensures Filled(res, [], back, 0) && resE == 15 - |back| && -1 <= e < |str|
    ensures if found then LastColon(str, e, back) else str != "" ==> e <= 0 && ':' !in str[1..]
  {
    hide Filled, Fields;
    var s, cur := 0, "";
    e, res, resE, c, found, back := |str| - 1, map[], 15, "", false, [];
    NothingSet();
    while s < e
      invariant -1 <= e < |str| && (str == "" <==> e == -1)
      invariant cur == str[e + 1..] && ':' !in cur && '.' !in cur
      invariant res == map[] && resE == 15
      decreases e
    {
      c := [str[e]];
      e := e - 1;
      if c == ":" {
        if cur != "" {
          res, resE := PutGroup(cur, res, resE, [], []);
          back := Octets([cur]) + [];
        }
        found := true;
        return;
      }
      if c == "." {
        e, res, resE, c, back := Quad(str, e, cur);
        found := e >= 0;
        return;
      }
      cur := c + cur;
    }
  }

  /** What the loop behind `::` sets, for the fields from there on. */
  function Behind(fields: seq<string>): seq<int>
    requires fields != []
  {
    Octets(NonEmpty(fields[..|fields| - 1])) + Tail(fields[|fields| - 1])
  }

  /** One turn of that loop at a colon, or its end. */
  method FlushBack(cur2b: string, before: map<int, int>, lastE: int,
                   ghost front: seq<int>, ghost done: seq<string>, ghost tail: seq<int>)
    returns (res: map<int, int>, resE: int)
    requires var back := Octets(NonEmpty(done)) + tail; lastE == 15 - |back| && Filled(before, front, back, |front|)
    ensures var back := Octets(NonEmpty([cur2b] + done)) + tail;
      resE == 15 - |back| && Filled(res, front, back, |front|)
  {
    hide Filled, Octets, NonEmpty;
    res, resE := before, lastE;
    NonEmptyCons(cur2b, done);
    OctetsCat([cur2b], NonEmpty(done));
    assert [] + NonEmpty(done) == NonEmpty(done);
    if cur2b != "" {
      res, resE := PutGroup(cur2b, before, lastE, front, Octets(NonEmpty(done)) + tail);
      assert Octets([cur2b]) + (Octets(NonEmpty(done)) + tail) == Octets([cur2b]) + Octets(NonEmpty(done)) + tail;
    }
  }

  /** The loop behind `::`, from the end of the text to its start (util/conv.js:208-229). */
  method AfterGap(str: string, start: nat, last: int, before: map<int, int>, lastE: int,
                  ghost front: seq<int>, ghost tail: seq<int>)
    returns (res: map<int, int>, resE: int)
    requires start <= last + 1 && LastColon(str, last, tail)
    requires lastE == 15 - |tail| && Filled(before, front, tail, |front|)
    ensures var back := Behind(Fields(str[start + 1..], ':'));
      resE == 15 - |back| && Filled(res, front, back, |front|)
  {
    hide Filled, Fields, NonEmpty, Octets, Tail;
    var s, e, cur2b := start, last, "";
    res, resE := before, lastE;
    ghost var done: seq<string>, y, field := [], str[start + 1..], str[last + 2..];
    NothingEmpty();
    assert [] + tail == tail && [] + [field] == [field];
    OneField(field, ':');
    if start <= last {
      assert y == str[start + 1..last + 1] + ":" + field;
      FieldsAdd(str[start + 1..last + 1], field, ':');
      assert str[start + 1..last + 1] + "" == str[start + 1..last + 1];
    }
    while s < e
      invariant if start > last then e == last && cur2b == "" && Fields(y, ':') == done + [field] else
        s <= e <= last && ':' !in cur2b &&
        Fields(y, ':') == Fields(str[s + 1..e + 1] + cur2b, ':') + done + [field]
      invariant var back := Octets(NonEmpty(done)) + tail; resE == 15 - |back| && Filled(res, front, back, |front|)
    {
      var ch := str[e];
      ghost var rem := str[s + 1..e];
      assert str[s + 1..e + 1] == rem + [ch];
      e := e - 1;
      if ch == ':' {
        FieldsAdd(rem, cur2b, ':');
        assert rem + "" == rem;
        assert Fields(rem, ':') + [cur2b] + done + [field] == Fields(rem, ':') + ([cur2b] + done) + [field];
        res, resE := FlushBack(cur2b, res, resE, front, done, tail);
        done := [cur2b] + done;
        cur2b := "";
      } else {
        assert rem + [ch] + cur2b == rem + ([ch] + cur2b);
        cur2b := [ch] + cur2b;
      }
    }
    if start <= last {
      assert str[s + 1..e + 1] + cur2b == cur2b;
      OneField(cur2b, ':');
    }
    res, resE := FlushBack(cur2b, res, resE, front, done, tail);
    NonEmptyCons(cur2b, done);
    assert [] + NonEmpty(done) == NonEmpty(done);
    var fields := Fields(y, ':');
    assert fields == (if start <= last then [cur2b] + done else done) + [field];
  }

  /** The zeros for `::` (util/conv.js:230-231). */
  method ZeroFill(before: map<int, int>, resS: int, resE: int, ghost front: seq<int>, ghost back: seq<int>)
    returns (res: map<int, int>)
    requires resS == |front| && resE == 15 - |back| && Filled(before, front, back, resS)
    ensures Filled(res, front, back, 16 - |back|)
  {
    hide Filled;
    res := before;
    var i := resS;
    while i <= resE
      invariant resS <= i && (resS <= resE + 1 ==> i <= resE + 1)
      invariant Filled(res, front, back, i)
    {
      PutZero(res, front, back, i);
      res := res[i := 0];
      i := i + 1;
    }
    TooMany(res, front, back, i);
  }

  lemma TooMany(res: map<int, int>, front: seq<int>, back: seq<int>, n: int)
    requires Filled(res, front, back, n) && n > 15 - |back| && (|front| <= 16 - |back| ==> n <= 16 - |back|)
    ensures Filled(res, front, back, 16 - |back|)
  {
  }

  /** The block that sets the octets of a group from the start of the list. */
  method FlushFront(cur2b: string, before: map<int, int>, firstS: int, ghost done: seq<string>, ghost back: seq<int>)
    returns (res: map<int, int>, resS: int)
    requires var front := Octets(NonEmpty(done)); firstS == |front| && Filled(before, front, back, firstS)
    ensures var front := Octets(NonEmpty(done + [cur2b])); resS == |front| && Filled(res, front, back, resS)
  {
    hide Filled, High, Low, ParseHex, NonEmpty;
    res, resS := before, firstS;
    NonEmptySnoc(done, cur2b);
    OctetsCat(NonEmpty(done), [cur2b]);
    assert NonEmpty(done) + [] == NonEmpty(done);
    if cur2b != "" {
      ghost var front := Octets(NonEmpty(done));
      var cur2bInt := ParseHex(cur2b);
      PutTwo(res, front, back, cur2b);
      res := res[resS := High(cur2bInt)];
      resS := resS + 1;
      res := res[resS := Low(cur2bInt)];
      resS := resS + 1;
    }
  }

  lemma PutTwo(res: map<int, int>, front: seq<int>, back: seq<int>, group: string)
    requires Filled(res, front, back, |front|)
    ensures var n, value := |front|, ParseHex(group);
      Filled(res[n := High(value)][n + 1 := Low(value)], front + Octets([group]), back, n + 2)
  {
    hide Filled, ParseHex, High, Low;
    var value := ParseHex(group);
    PutFront(res, front, back, High(value));
    PutFront(res[|front| := High(value)], front + [High(value)], back, Low(value));
    assert front + [High(value)] + [Low(value)] == front + Octets([group]);
  }

  /** The rest of the text, once `::` is found before `start` (util/conv.js:206-233). */
  method FromGap(str: string, start: nat, last: int, before: map<int, int>, resS: int, lastE: int,
                 ghost front: seq<int>, ghost tail: seq<int>)
    returns (res: map<int, int>)
    requires 0 < start <= last + 1 && LastColon(str, last, tail) && NoGap(str, start - 1)
    requires str[start - 1] == ':' && str[start] == ':' && front == Octets(Groups(str[..start - 1]))
    requires resS == |front| && lastE == 15 - |tail| && Filled(before, front, tail, resS)
    ensures forall a: seq<int> :: |a| == 16 && Denotes(str, a) ==> res == OctetMap(a)
  {
    hide Filled, Fields, Octets, Groups, Denotes, OctetMap, NoGap, Behind;
    ghost var x, y := str[..start - 1], str[start + 1..];
    var resE;
    res, resE := AfterGap(str, start, last, before, lastE, front, tail);
    res := ZeroFill(res, resS, resE, front, Behind(Fields(y, ':')));
    assert str == x + "::" + y;
    FullGap(str, x, y, res);
  }

  /** `ipv6_to_oct` (util/conv.js:152-239). */
  method ToOct(str: string) returns (res: map<int, int>)
    ensures forall a: seq<int> :: |a| == 16 && Denotes(str, a) ==> res == OctetMap(a)
  {
    hide Filled, Fields, NonEmpty, Octets, Tail, High, Low, ParseHex, Denotes, OctetMap, NoGap;
    var e, resE: int, c: string;
    ghost var found, back;
    e, res, resE, c, found, back := LastGroup(str);
    var s, resS, cur2b := 0, 0, "";
    ghost var done, front: seq<int> := [], [];
    NoFields(':');
    NothingEmpty();
    NoGapYet(str);
    assert str[..0] == "" && [] + [""] == [""];
    while s <= e
      invariant 0 <= s <= e + 1 && (s > 0 ==> c == CharAt(str, s)) && NoGap(str, s)
      invariant Fields(str[..s], ':') == done + [cur2b] && front == Octets(NonEmpty(done))
      invariant resS == |front| && Filled(res, front, back, resS)
      decreases e + 1 - s
    {
      c := [str[s]];
      assert str[..s + 1] == str[..s] + [str[s]];
      NextChar(str[..s], str[s], done, cur2b);
      NoGapNext(str, s);
      if c != ":" {
        cur2b := cur2b + c;
        s := s + 1;
        c := CharAt(str, s);
        continue;
      }
      res, resS := FlushFront(cur2b, res, resS, done, back);
      done := done + [cur2b];
      front := Octets(NonEmpty(done));
      cur2b := "";
      s := s + 1;
      c := CharAt(str, s);
      if c == ":" {
        assert found by {
          assert str[1..][s - 1] == ':';
        }
        res := FromGap(str, s, e, res, resS, resE, front, back);
        return;
      }
    }
    ghost var filled := res;
    var cur2bInt := ParseHex(cur2b + c);
    res := res[resS := High(cur2bInt)];
    resS := resS + 1;
    res := res[resS := Low(cur2bInt)];
    if found {
      FullPlain(str, e, done, cur2b, back, filled);
    } else {
      FewFields(str);
    }
  }

  // ----- The list is full -----------------------------------------------------------------------------

  lemma NothingEmpty()
    ensures NonEmpty([]) == [] && Octets([]) == []
  {
  }

  lemma FullMap(res: map<int, int>, front: seq<int>, back: seq<int>, a: seq<int>)
    requires |front| + |back| <= 16 && Filled(res, front, back, 16 - |back|)
    requires a == front + Zeros(16 - |front| - |back|) + back
    ensures res == OctetMap(a)
  {
    forall i: int | 0 <= i < 16 ensures At(front, back, i) == a[i] {
    }
  }

  /** The decimal numbers of a quad are its bytes. */
  lemma QuadOctets(field: string)
    requires IsQuad(field)
    ensures '.' in field && Tail(field) == LastOctets(field)
  {
    hide Fields, FromText;
    if '.' !in field {
      OneField(field, '.');
    }
    var bytes := Fields(field, '.');
    forall i | 0 <= i < 4 ensures ParseDec(bytes[i]) == FromText(bytes[i]) {
      assert IsByte(bytes[i]);
    }
    assert Decs(bytes) == LastOctets(field);
  }

  /** The last loop finds the octets of what may stand there. */
  lemma EndIsBehind(text: string)
    requires IsEnd(text)
    ensures Behind(Fields(text, ':')) == EndOctets(text)
  {
    hide Fields, Octets, ParseHex;
    var fields := Fields(text, ':');
    var n := |fields| - 1;
    if text == "" {
      NoFields(':');
      NothingEmpty();
      NoQuad("");
    } else {
      NonEmptyAll(fields[..n]);
      if IsQuad(fields[n]) {
        QuadOctets(fields[n]);
      } else {
        NoDot(fields[n]);
      }
    }
  }

  lemma NoQuad(field: string)
    requires '.' !in field
    ensures !IsQuad(field)
  {
    OneField(field, '.');
  }

  lemma NoDot(group: string)
    requires IsGroup(group)
    ensures '.' !in group && !IsQuad(group)
  {
    NoQuad(group);
  }

  /** The fields around two colons. */
  lemma FieldsAround(a: string, b: string)
    ensures |Fields(a + "::" + b, ':')| >= |Fields(a, ':')| + 2
    ensures Fields(a + "::" + b, ':')[|Fields(a, ':')|] == ""
  {
    hide Fields;
    FieldsAdd(a, "", ':');
    assert a + ":" + "" == a + ":";
    FieldsAdd(a + ":", "", ':');
    assert a + ":" + ":" + "" == a + "::";
    FieldsGrow(a + "::", b, ':');
  }

  /** Nothing on the left of `::` ends in a colon or has two of them together. */
  lemma NotASide(a: string, i: nat)
    requires i < |a| && a[i] == ':' && (i + 1 < |a| ==> a[i + 1] == ':')
    ensures !IsSide(a)
  {
    hide Fields;
    var rest, k := a[i + 1..], |Fields(a[..i], ':')|;
    if rest == "" {
      assert a == a[..i] + ":" + "";
      FieldsAdd(a[..i], "", ':');
    } else {
      assert a == a[..i] + "::" + rest[1..];
      FieldsAround(a[..i], rest[1..]);
    }
    assert !IsGroup(Fields(a, ':')[k]);
  }

  /** Only the first `::` of a text can have an address on its left. */
  lemma GapUnique(x: string, y: string, a: string, b: string)
    requires a + "::" + b == x + "::" + y && NoGap(x + "::" + y, |x|) && IsSide(a)
    ensures a == x && b == y
  {
    hide IsSide;
    var str := x + "::" + y;
    assert str == a + "::" + b;
    assert str[|a|] == ':' && str[|a| + 1] == ':' && str[|x|] == ':' && str[|x| + 1] == ':';
    if |a| > |x| {
      assert a[|x|] == str[|x|];
      NotASide(a, |x|);
    }
    assert |a| == |x|;
    assert a == str[..|a|] && x == str[..|x|] && b == str[|a| + 2..] && y == str[|x| + 2..];
  }

  lemma FullGap(str: string, x: string, y: string, res: map<int, int>)
    requires str == x + "::" + y && NoGap(str, |x|)
    requires var back := Behind(Fields(y, ':')); Filled(res, Octets(Groups(x)), back, 16 - |back|)
    ensures forall a: seq<int> :: |a| == 16 && Denotes(str, a) ==> res == OctetMap(a)
  {
    hide Filled, Fields, NonEmpty, ParseHex, OctetMap, NoGap, Octets, LastOctets, Behind, IsQuad;
    forall a: seq<int> | |a| == 16 && Denotes(str, a) ensures res == OctetMap(a) {
      FieldsAround(x, y);
      assert !IsEnd(str) by {
        var fields := Fields(str, ':');
        assert !IsGroup(fields[..|fields| - 1][|Fields(x, ':')|]);
      }
      var x1: string, y1: string :| str == x1 + "::" + y1 && DenotesGap(x1, y1, a);
      GapUnique(x, y, x1, y1);
      EndIsBehind(y);
      FullMap(res, Octets(Groups(x)), EndOctets(y), a);
    }
  }

  /** Without `::`, the text is an address only if all groups but the last stand before the last colon. */
  lemma FullPlain(str: string, e: int, done: seq<string>, cur2b: string, back: seq<int>, filled: map<int, int>)
    requires LastColon(str, e, back) && Fields(str[..e + 1], ':') == done + [cur2b] && NoGap(str, e + 1)
    requires var front := Octets(NonEmpty(done)); Filled(filled, front, back, |front|)
    ensures var n, value := |Octets(NonEmpty(done))|, ParseHex(cur2b + CharAt(str, e + 1));
      forall a: seq<int> :: |a| == 16 && Denotes(str, a) ==>
        filled[n := High(value)][n + 1 := Low(value)] == OctetMap(a)
  {
    hide Filled, Fields, ParseHex, OctetMap, High, Low, Octets, LastOctets, IsQuad, NoGap, IsGroup, Denotes;
    var n, value, tail := |Octets(NonEmpty(done))|, ParseHex(cur2b + CharAt(str, e + 1)), str[e + 2..];
    assert str == str[..e + 1] + ":" + tail;
    FieldsAdd(str[..e + 1], tail, ':');
    NoGapBehind(str, e);
    var fields := Fields(str, ':');
    assert fields == done + [cur2b] + [tail] && fields[..|fields| - 1] == done + [cur2b];
    forall a: seq<int> | |a| == 16 && Denotes(str, a)
      ensures filled[n := High(value)][n + 1 := Low(value)] == OctetMap(a)
    {
      NotGap(str, a);
      GroupsAreHex(cur2b);
      GroupsApart(done, cur2b);
      NonEmptyAll(done);
      NonEmptyAll(done + [cur2b]);
      EndIsBehind(str);
      LastGroupSet(done, cur2b, ":", back, filled, a);
    }
  }

  /** The group before the last colon, read with that colon behind it, completes the list. */
  lemma LastGroupSet(done: seq<string>, cur2b: string, c: string, back: seq<int>, filled: map<int, int>, a: seq<int>)
    requires AllHex(cur2b) && c == ":" && Filled(filled, Octets(done), back, |Octets(done)|)
    requires |a| == 16 && a == Octets(done + [cur2b]) + back
    ensures var n, value := |Octets(done)|, ParseHex(cur2b + c);
      filled[n := High(value)][n + 1 := Low(value)] == OctetMap(a)
  {
    hide Filled, ParseHex, OctetMap, High, Low, Octets;
    ParseHexValue(cur2b, c);
    ParseHexValue(cur2b, "");
    assert cur2b + "" == cur2b;
    PutTwo(filled, Octets(done), back, cur2b);
    OctetsCat(done, [cur2b]);
    OctetsCount([cur2b]);
    assert a == Octets(done + [cur2b]) + Zeros(0) + back;
    var n, value := |Octets(done)|, ParseHex(cur2b);
    FullMap(filled[n := High(value)][n + 1 := Low(value)], Octets(done + [cur2b]), back, a);
  }

  lemma NoGapBehind(str: string, e: int)
    requires 0 <= e && e + 1 < |str| && NoGap(str, e + 1) && ':' !in str[e + 2..]
    ensures NoGap(str, |str|)
  {
    forall k | e + 1 <= k < |str| && k + 1 < |str| && str[k] == ':' ensures str[k + 1] != ':' {
      assert str[k + 1] in str[e + 2..];
    }
  }

  lemma GroupsAreHex(group: string)
    ensures IsGroup(group) ==> AllHex(group)
  {
  }

  lemma GroupsApart(done: seq<string>, last: string)
    requires AllGroups(done + [last])
    ensures AllGroups(done) && IsGroup(last)
  {
    forall i | 0 <= i < |done| ensures IsGroup(done[i]) {
      assert done[i] == (done + [last])[i];
    }
    assert (done + [last])[|done|] == last;
  }

  /** A text with `::` in it. */
  lemma HasGap(x: string, y: string)
    ensures var str := x + "::" + y; !NoGap(str, |str|) && ':' in str[1..]
  {
    var str := x + "::" + y;
    assert str[|x|] == ':' && str[|x| + 1] == ':' && str[1..][|x|] == ':';
  }

  /** Without a colon behind its first character no text is an address. */
  lemma FewFields(str: string)
    requires str != "" ==> ':' !in str[1..]
    ensures forall a: seq<int> :: !Denotes(str, a)
  {
    hide Fields, DenotesGap, IsEnd, Octets, IsQuad;
    forall x: string, y: string ensures str != x + "::" + y {
      HasGap(x, y);
    }
    if str != "" {
      OneChar(str[..1]);
      FieldsAppend(str[..1], str[1..], ':');
      assert str == str[..1] + str[1..];
      var fields := Fields(str, ':');
      OctetsCount(fields[..|fields| - 1]);
      OctetsCount([fields[|fields| - 1]]);
    }
  }

  lemma OneChar(c: string)
    requires |c| == 1
    ensures |Fields(c, ':')| <= 2
  {
    assert c[..0] == "";
  }

  lemma NotGap(str: string, a: seq<int>)
    requires NoGap(str, |str|) && Denotes(str, a)
    ensures str != "" && IsEnd(str) && |EndOctets(str)| == 16 && a == EndOctets(str)
  {
    hide Fields, DenotesGap, IsEnd, EndOctets;
    forall x: string, y: string ensures str != x + "::" + y {
      HasGap(x, y);
    }
  }

  // ----- There and back -------------------------------------------------------------------------------

  function HexOf(g: seq<nat>): seq<string> {
    seq(|g|, i requires 0 <= i < |g| => ToHex(g[i]))
  }

  /** The octets of an address given by its groups. */
  function OctetsOf(g: seq<nat>): seq<int> {
    if g == [] then [] else [High(g[0]), Low(g[0])] + OctetsOf(g[1..])
  }

  lemma GroupOfHex(n: nat)
    requires n < 0x1_0000
    ensures IsGroup(ToHex(n)) && ParseHex(ToHex(n)) == n
  {
    ShapeOfHex(n);
    ValueOfHex(n);
    ParseHexValue(ToHex(n), "");
    assert ToHex(n) + "" == ToHex(n);
  }

  lemma {:induction false} HexGroups(g: seq<nat>)
    requires forall i :: 0 <= i < |g| ==> g[i] < 0x1_0000
    ensures AllGroups(HexOf(g)) && Octets(HexOf(g)) == OctetsOf(g) && |OctetsOf(g)| == 2 * |g|
  {
    hide ParseHex, ToHex, IsGroup, High, Low;
    if g != [] {
      HexGroups(g[1..]);
      GroupOfHex(g[0]);
      assert HexOf(g) == [ToHex(g[0])] + HexOf(g[1..]);
    }
  }

  lemma {:induction false} FieldsOfColons(g: seq<nat>)
    requires g != []
    ensures Fields(Colons(g), ':') == HexOf(g)
  {
    hide ToHex, Fields;
    var front, last := g[..|g| - 1], g[|g| - 1];
    assert ':' !in ToHex(last);
    if |g| == 1 {
      OneField(ToHex(g[0]), ':');
    } else {
      FieldsOfColons(front);
      FieldsAdd(Colons(front), ToHex(last), ':');
      assert HexOf(g) == HexOf(front) + [ToHex(last)];
    }
  }

  lemma SideOfColons(g: seq<nat>)
    requires forall i :: 0 <= i < |g| ==> g[i] < 0x1_0000
    ensures IsSide(Colons(g)) && Octets(Groups(Colons(g))) == OctetsOf(g)
    ensures IsEnd(Colons(g)) && EndOctets(Colons(g)) == OctetsOf(g) && |OctetsOf(g)| == 2 * |g|
  {
    hide ToHex, Fields, ParseHex, High, Low, IsGroup, IsQuad;
    HexGroups(g);
    if g == [] {
      NoFields(':');
      NoQuad("");
    } else {
      FieldsOfColons(g);
      NonEmptyAll(HexOf(g));
      var n := |g| - 1;
      NoDot(HexOf(g)[n]);
      OctetsCat(HexOf(g)[..n], [HexOf(g)[n]]);
      assert HexOf(g) == HexOf(g)[..n] + [HexOf(g)[n]];
      GroupNotEmpty(HexOf(g)[n]);
    }
  }

  lemma GroupNotEmpty(group: string)
    requires IsGroup(group)
    ensures group != ""
  {
  }

  lemma {:induction false} OctetsOfCat(f: seq<nat>, g: seq<nat>)
    ensures OctetsOf(f + g) == OctetsOf(f) + OctetsOf(g)
  {
    hide High, Low;
    if f == [] {
      assert f + g == g && [] + OctetsOf(g) == OctetsOf(g);
    } else {
      var pair := [High(f[0]), Low(f[0])];
      OctetsOfCat(f[1..], g);
      assert (f + g)[1..] == f[1..] + g;
      assert pair + (OctetsOf(f[1..]) + OctetsOf(g)) == pair + OctetsOf(f[1..]) + OctetsOf(g);
    }
  }

  lemma {:induction false} ZeroOctets(g: seq<nat>)
    requires forall i :: 0 <= i < |g| ==> g[i] == 0
    ensures OctetsOf(g) == Zeros(2 * |g|)
  {
    if g != [] {
      ZeroOctets(g[1..]);
      assert High(0) == 0 && Low(0) == 0;
    }
  }

  /** A canonical text is one of its address. */
  lemma CanonicalDenotes(g: seq<nat>, text: string)
    requires IsAddress(g) && IsCanonical(g, text)
    ensures Denotes(text, OctetsOf(g))
  {
    hide ToHex, Fields, Colons, IsSide, IsEnd, EndOctets, NonEmpty, Octets, OctetsOf, Groups, FirstLongest;
    if p: nat, n: nat :|
      n > 1 && p + n <= |g| && FirstLongest(g, p, n) && text == Colons(g[..p]) + "::" + Colons(g[p + n..]) {
      var left, zeros, right := g[..p], g[p..p + n], g[p + n..];
      LongestIsRun(g, p, n);
      SideOfColons(left);
      SideOfColons(right);
      ZeroOctets(zeros);
      OctetsOfCat(left, zeros);
      OctetsOfCat(left + zeros, right);
      assert g == left + zeros + right;
      assert DenotesGap(Colons(left), Colons(right), OctetsOf(g));
    } else {
      SideOfColons(g);
      ColonsNotEmpty(g);
    }
  }

  lemma ColonsNotEmpty(g: seq<nat>)
    requires g != []
    ensures Colons(g) != ""
  {
  }

  lemma LongestIsRun(g: seq<nat>, p: nat, n: nat)
    requires FirstLongest(g, p, n)
    ensures IsRun(g, p, n)
  {
  }

  /** The octets of the groups are the octets. */
  lemma {:induction false} OctetsBack(a: seq<nat>, g: seq<nat>)
    requires |a| == 2 * |g| && forall i :: 0 <= i < |a| ==> a[i] < 0x100
    requires forall i :: 0 <= i < |g| ==> g[i] == a[2 * i] * 256 + a[2 * i + 1]
    ensures OctetsOf(g) == a
  {
    hide High, Low;
    if g != [] {
      OctetsBack(a[2..], g[1..]);
      SplitOctets(a[0], a[1]);
      assert a == [a[0], a[1]] + a[2..];
    }
  }

  lemma SplitOctets(high: nat, low: nat)
    requires high < 256 && low < 256
    ensures High(high * 256 + low) == high && Low(high * 256 + low) == low
  {
    var value := high * 256 + low;
    assert value < 0x1_0000 && ToInt32(value) == value;
    hide ToInt32;
    assert value / 256 == high && value % 256 == low;
  }

  /** `ipv6_to_oct(ipv6_oct_to_canon(a))` is `a`, for all octets. */
  method CanonAndBack(a: seq<nat>) returns (res: map<int, int>)
    requires AreOctets(a)
    ensures res == map i: int | 0 <= i < 16 :: a[i]
  {
    hide IsCanonical, Denotes, OctetsOf;
    var text := OctToCanon(a);
    res := ToOct(text);
    CanonicalDenotes(GroupsOf(a), text);
    OctetsBack(a, GroupsOf(a));
  }

  // ----- IPv4 addresses as IPv6 ones -------------------------------------------------------------------

  function BytesOfIp(ip: int): (b: seq<int>)
    ensures |b| == 4
  {
    var m := ip % TWO32;
    [m / 0x100_0000, m / 0x1_0000 % 0x100, m / 0x100 % 0x100, m % 0x100]
  }

  lemma NtoaOctets(ip: int)
    ensures IsQuad(Ntoa(ip)) && LastOctets(Ntoa(ip)) == BytesOfIp(ip) && ':' !in Ntoa(ip)
  {
    hide Fields, ToText, FromText;
    AddressOfNtoa(ip);
    var b := BytesOfIp(ip);
    forall i | 0 <= i < 4 ensures 0 <= b[i] < 256 && IsByte(ToText(b[i])) && FromText(ToText(b[i])) == b[i] {
      ByteText(b[i]);
    }
    QuadFields(ToText(b[0]), ToText(b[1]), ToText(b[2]), ToText(b[3]));
  }

  /** Section 2.5.5.2 of RFC 4291: the mapped address of every IPv4 address, its quad as `inet_ntoa_t` prints it. */
  lemma MappedDenotes(ip: int)
    ensures Denotes("::ffff:" + Ntoa(ip), Zeros(10) + [0xFF, 0xFF] + BytesOfIp(ip))
  {
    hide Ntoa, LastOctets, IsQuad, BytesOfIp, Fields, Octets, ParseHex;
    var f, q := "ffff", Ntoa(ip);
    var y := f + ":" + q;
    assert "::ffff:" + q == "" + "::" + y;
    NtoaOctets(ip);
    OneField(f, ':');
    FieldsAdd(f, q, ':');
    assert [f] + [q] == [f, q] && [f, q][..1] == [f];
    GroupFfff();
    NoFields(':');
    NothingEmpty();
    assert EndOctets(y) == [0xFF, 0xFF] + BytesOfIp(ip);
    assert Groups("") == [] && [] + Zeros(10) == Zeros(10);
    assert Zeros(10) + [0xFF, 0xFF] + BytesOfIp(ip) == Zeros(10) + EndOctets(y);
    assert DenotesGap("", y, Zeros(10) + [0xFF, 0xFF] + BytesOfIp(ip));
  }

  lemma GroupFfff()
    ensures IsGroup("ffff") && Octets(["ffff"]) == [0xFF, 0xFF]
  {
    var f := "ffff";
    ParseHexValue(f, "");
    assert f + "" == f;
    ValueOfFfff();
    hide ParseHex, HexValue;
    assert High(0xFFFF) == 0xFF && Low(0xFFFF) == 0xFF;
    assert Octets([]) == [];
    assert Octets([f]) == [0xFF, 0xFF] + [];
  }

  lemma ValueOfFfff()
    ensures HexValue("ffff") == 0xFFFF
  {
    hide HexValue, IsHex, HexDigit;
    IsHexF();
    HexSnoc("", 'f');
    HexSnoc("f", 'f');
    HexSnoc("ff", 'f');
    HexSnoc("fff", 'f');
    assert "" + ['f'] == "f" && "f" + ['f'] == "ff" && "ff" + ['f'] == "fff" && "fff" + ['f'] == "ffff";
  }

  lemma IsHexF()
    ensures IsHex('f') && HexDigit('f') == 15 && AllHex("")
  {
  }
}
