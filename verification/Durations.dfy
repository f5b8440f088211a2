/** Lengths of time as text and back (util/date.js:14-29, 59-83, 139-153). All numbers are milliseconds. */
module Durations {
  import opened Wrappers
  import opened Decimal

  /** The units, from the year to the millisecond. */
  const UNITS := 8

  function Period(g: nat): (p: nat)
    requires g < UNITS
    ensures p > 0
  {
    match g
    case 0 => 365 * 24 * 60 * 60 * 1000
    case 1 => 30 * 24 * 60 * 60 * 1000
    case 2 => 7 * 24 * 60 * 60 * 1000
    case 3 => 24 * 60 * 60 * 1000
    case 4 => 60 * 60 * 1000
    case 5 => 60 * 1000
    case 6 => 1000
    case _ => 1
  }

  function Name(g: nat): string
    requires g < UNITS
  {
    match g
    case 0 => "y"
    case 1 => "mo"
    case 2 => "w"
    case 3 => "d"
    case 4 => "h"
    case 5 => "min"
    case 6 => "s"
    case _ => "ms"
  }

  // ----- The regular expression -----------------------------------------------------------------------

  /** The words that the pattern of a unit matches, in the order in which it tries them. */
  function Words(g: nat, shortMonth: bool): seq<string>
    requires g < UNITS
  {
    match g
    case 0 => ["years", "year", "y"]
    case 1 => ["mo", "mon", "months", "month"] + if shortMonth then ["m"] else []
    case 2 => ["weeks", "week", "w"]
    case 3 => ["days", "day", "d"]
    case 4 => ["hours", "hour", "h"]
    case 5 => ["min", "minutes", "minute"]
    case 6 => ["sec", "seconds", "second", "s"]
    case _ => ["msec", "ms"]
  }

  /** What the optional group of a unit matched. */
  datatype Capture = Skipped | Taken(digits: string, word: string)

  function LowerChar(c: char): char {
    if 'A' <= c <= 'Z' then 'a' + (c - 'A') else c
  }

  /** The flag `i`: only ASCII letters match the letters of the pattern in another case. */
  function Lower(s: string): (r: string)
    ensures |r| == |s|
  {
    seq(|s|, i requires 0 <= i < |s| => LowerChar(s[i]))
  }

  predicate TakenFits(c: Capture, g: nat, shortMonth: bool)
    requires g < UNITS && c.Taken?
  {
    c.digits != "" && AllDigits(c.digits) && Lower(c.word) in Words(g, shortMonth)
  }

  function TextOf(c: Capture): string {
    if c.Taken? then c.digits + c.word else ""
  }

  /** The meaning of the pattern from unit `g` on: the text is what the groups took, one after the other. */
  predicate Matches(s: string, g: nat, caps: seq<Capture>, shortMonth: bool)
    decreases UNITS - g
  {
    if g >= UNITS then s == "" && caps == []
    else
      caps != [] && TextOf(caps[0]) <= s && (caps[0].Taken? ==> TakenFits(caps[0], g, shortMonth)) &&
      Matches(s[|TextOf(caps[0])|..], g + 1, caps[1..], shortMonth)
  }

  /** How many digits `s` starts with. */
  function DigitRun(s: string): (n: nat)
    ensures n <= |s| && AllDigits(s[..n]) && (n < |s| ==> !IsDigit(s[n]))
  {
    if s == "" || !IsDigit(s[0]) then 0
    else
      var n := DigitRun(s[1..]) + 1;
      assert s[..n] == [s[0]] + s[1..][..n - 1];
      n
  }

  /** The backtracking search: a group is first tried, with as many digits as there are, and then skipped. */
  function MatchFrom(s: string, g: nat, shortMonth: bool): Option<seq<Capture>>
    decreases UNITS - g, 2, 0
  {
    if g >= UNITS then if s == "" then Some([]) else None
    else
      var r := TryDigits(s, g, shortMonth, DigitRun(s));
      if r.Some? then r else Prepend(Skipped, MatchFrom(s, g + 1, shortMonth))
  }

  function TryDigits(s: string, g: nat, shortMonth: bool, n: nat): Option<seq<Capture>>
    requires g < UNITS && n <= |s|
    decreases UNITS - g, 1, n
  {
    if n == 0 then None
    else
      var r := TryWords(s, g, shortMonth, n, Words(g, shortMonth));
      if r.Some? then r else TryDigits(s, g, shortMonth, n - 1)
  }

  function TryWords(s: string, g: nat, shortMonth: bool, n: nat, words: seq<string>): Option<seq<Capture>>
    requires g < UNITS && n <= |s|
    decreases UNITS - g, 0, |words|
  {
    if words == [] then None
    else
      var end := n + |words[0]|;
      var r := if end <= |s| && Lower(s[n..end]) == words[0] then
        Prepend(Taken(s[..n], s[n..end]), MatchFrom(s[end..], g + 1, shortMonth)) else None;
      if r.Some? then r else TryWords(s, g, shortMonth, n, words[1..])
  }

  function Prepend(c: Capture, r: Option<seq<Capture>>): Option<seq<Capture>> {
    if r.Some? then Some([c] + r.value) else None
  }

  // ----- The search finds what the pattern means --------------------------------------------------------

  lemma MatchesCons(c: Capture, s: string, g: nat, caps: seq<Capture>, shortMonth: bool)
    requires g < UNITS && TextOf(c) <= s && (c.Taken? ==> TakenFits(c, g, shortMonth))
    requires Matches(s[|TextOf(c)|..], g + 1, caps, shortMonth)
    ensures Matches(s, g, [c] + caps, shortMonth)
  {
    assert ([c] + caps)[1..] == caps;
  }

  lemma {:induction false} MatchSound(s: string, g: nat, shortMonth: bool)
    requires MatchFrom(s, g, shortMonth).Some?
    ensures Matches(s, g, MatchFrom(s, g, shortMonth).value, shortMonth)
    decreases UNITS - g, 2, 0
  {
    hide Words, Lower;
    if g < UNITS {
      if TryDigits(s, g, shortMonth, DigitRun(s)).Some? {
        DigitsSound(s, g, shortMonth, DigitRun(s));
      } else {
        MatchSound(s, g + 1, shortMonth);
        assert s[0..] == s;
        MatchesCons(Skipped, s, g, MatchFrom(s, g + 1, shortMonth).value, shortMonth);
      }
    }
  }

  lemma {:induction false} DigitsSound(s: string, g: nat, shortMonth: bool, n: nat)
    requires g < UNITS && n <= DigitRun(s) && TryDigits(s, g, shortMonth, n).Some?
    ensures Matches(s, g, TryDigits(s, g, shortMonth, n).value, shortMonth)
    decreases UNITS - g, 1, n
  {
    hide Words, Matches;
    if TryWords(s, g, shortMonth, n, Words(g, shortMonth)).Some? {
      WordsSound(s, g, shortMonth, n, Words(g, shortMonth));
    } else {
      DigitsSound(s, g, shortMonth, n - 1);
    }
  }

  lemma {:induction false} WordsSound(s: string, g: nat, shortMonth: bool, n: nat, words: seq<string>)
    requires g < UNITS && 0 < n <= DigitRun(s) && TryWords(s, g, shortMonth, n, words).Some?
    requires forall w :: w in words ==> w in Words(g, shortMonth)
    ensures Matches(s, g, TryWords(s, g, shortMonth, n, words).value, shortMonth)
    decreases UNITS - g, 0, |words|
  {
    hide Words, Matches, Lower, MatchFrom, TakenFits;
    var end := n + |words[0]|;
    if end <= |s| && Lower(s[n..end]) == words[0] && MatchFrom(s[end..], g + 1, shortMonth).Some? {
      MatchSound(s[end..], g + 1, shortMonth);
      var c := Taken(s[..n], s[n..end]);
      assert TextOf(c) == s[..end];
      TakenCut(s, n, end, g, shortMonth);
      MatchesCons(c, s, g, MatchFrom(s[end..], g + 1, shortMonth).value, shortMonth);
    } else {
      WordsSound(s, g, shortMonth, n, words[1..]);
    }
  }

  lemma TakenCut(s: string, n: nat, end: nat, g: nat, shortMonth: bool)
    requires g < UNITS && 0 < n <= DigitRun(s) && n <= end <= |s| && Lower(s[n..end]) in Words(g, shortMonth)
    ensures TakenFits(Taken(s[..n], s[n..end]), g, shortMonth)
  {
    hide Words, Lower;
    assert s[..n] <= s[..DigitRun(s)];
  }

  lemma {:induction false} MatchComplete(s: string, g: nat, caps: seq<Capture>, shortMonth: bool)
    requires Matches(s, g, caps, shortMonth)
    ensures MatchFrom(s, g, shortMonth).Some?
    decreases UNITS - g
  {
    hide Words, Lower, TryDigits, TakenFits;
    if g < UNITS {
      var c := caps[0];
      MatchComplete(s[|TextOf(c)|..], g + 1, caps[1..], shortMonth);
      if c.Taken? {
        TakenFound(s, g, c, shortMonth);
      } else {
        assert s[0..] == s;
      }
    }
  }

  lemma TakenFound(s: string, g: nat, c: Capture, shortMonth: bool)
    requires g < UNITS && c.Taken? && TakenFits(c, g, shortMonth) && TextOf(c) <= s
    requires MatchFrom(s[|TextOf(c)|..], g + 1, shortMonth).Some?
    ensures TryDigits(s, g, shortMonth, DigitRun(s)).Some?
  {
    hide Words, Lower, TryDigits, MatchFrom;
    var n, words := |c.digits|, Words(g, shortMonth);
    assert s[..n] == c.digits && s[n..n + |c.word|] == c.word;
    RunAtLeast(s, n);
    var k :| 0 <= k < |words| && words[k] == Lower(c.word);
    WordsFound(s, g, shortMonth, n, words, k);
    DigitsFound(s, g, shortMonth, DigitRun(s), n);
  }

  lemma RunAtLeast(s: string, n: nat)
    requires n <= |s| && AllDigits(s[..n])
    ensures DigitRun(s) >= n
  {
    forall k | 0 <= k < n ensures IsDigit(s[k]) {
      assert s[..n][k] in s[..n];
    }
  }

  lemma {:induction false} WordsFound(s: string, g: nat, shortMonth: bool, n: nat, words: seq<string>, k: nat)
    requires g < UNITS && k < |words| && n + |words[k]| <= |s| && Lower(s[n..n + |words[k]|]) == words[k]
    requires MatchFrom(s[n + |words[k]|..], g + 1, shortMonth).Some?
    ensures TryWords(s, g, shortMonth, n, words).Some?
    decreases k
  {
    hide Words, Lower, MatchFrom;
    if k > 0 {
      WordsFound(s, g, shortMonth, n, words[1..], k - 1);
    }
  }

  lemma {:induction false} DigitsFound(s: string, g: nat, shortMonth: bool, run: nat, n: nat)
    requires g < UNITS && 0 < n <= run <= |s| && TryWords(s, g, shortMonth, n, Words(g, shortMonth)).Some?
    ensures TryDigits(s, g, shortMonth, run).Some?
    decreases run
  {
    hide Words, TryWords;
    if n < run {
      DigitsFound(s, g, shortMonth, run - 1, n);
    }
  }

  // ----- The pattern leaves no choice -------------------------------------------------------------------

  /** The unit that a word belongs to. */
  function UnitOf(w: string): nat
    requires w != ""
  {
    match w[0]
    case 'y' => 0
    case 'w' => 2
    case 'd' => 3
    case 'h' => 4
    case 's' => 6
    case _ => if |w| == 1 || w[1] == 'o' then 1 else if w[1] == 'i' then 5 else 7
  }

  lemma UnitOfWord(w: string, g: nat, shortMonth: bool)
    requires g < UNITS && w in Words(g, shortMonth)
    ensures w != "" && UnitOf(w) == g
  {
  }

  lemma WordHasNoDigit(w: string, g: nat, shortMonth: bool)
    requires g < UNITS && w in Words(g, shortMonth)
    ensures forall k :: 0 <= k < |w| ==> !IsDigit(w[k])
  {
  }

  /** How many characters `s` starts with that are no digits. */
  function WordRun(s: string): (n: nat)
    ensures n <= |s| && (n < |s| ==> IsDigit(s[n])) && forall k :: 0 <= k < n ==> !IsDigit(s[k])
  {
    if s == "" || IsDigit(s[0]) then 0 else WordRun(s[1..]) + 1
  }

  lemma LowerDigits(w: string)
    ensures forall k :: 0 <= k < |w| ==> IsDigit(Lower(w)[k]) == IsDigit(w[k])
  {
  }

  /** The word that follows the digits at the start. */
  function HeadWord(s: string): string {
    var rest := s[DigitRun(s)..];
    rest[..WordRun(rest)]
  }

  /** A group that took something took all digits at the start and the whole word behind them. */
  lemma TakenHead(s: string, g: nat, c: Capture, shortMonth: bool)
    requires g < UNITS && c.Taken? && TakenFits(c, g, shortMonth) && TextOf(c) <= s
    requires var rest := s[|TextOf(c)|..]; rest != "" ==> IsDigit(rest[0])
    ensures c == Taken(s[..DigitRun(s)], HeadWord(s)) && HeadWord(s) != "" && UnitOf(Lower(HeadWord(s))) == g
  {
    hide Words, UnitOf, Lower, WordRun, DigitRun, IsDigit, AllDigits;
    var n, m := |c.digits|, |c.word|;
    UnitOfWord(Lower(c.word), g, shortMonth);
    WordHasNoDigit(Lower(c.word), g, shortMonth);
    LowerDigits(c.word);
    assert s[..n] == c.digits && s[n..n + m] == c.word;
    assert forall k :: 0 <= k < m ==> s[n..][k] == c.word[k];
    RunAtLeast(s, n);
    RunExactly(s, n, DigitRun(s));
    WordExactly(s[n..], m);
    assert s[n..][..m] == c.word;
  }

  lemma RunExactly(s: string, n: nat, run: nat)
    requires n <= run <= |s| && AllDigits(s[..run]) && n < |s| && !IsDigit(s[n])
    ensures n == run
  {
    forall k | 0 <= k < run ensures IsDigit(s[k]) {
      assert s[..run][k] in s[..run];
    }
  }

  lemma WordExactly(s: string, m: nat)
    requires m <= |s| && (m < |s| ==> IsDigit(s[m])) && forall k :: 0 <= k < m ==> !IsDigit(s[k])
    ensures WordRun(s) == m
  {
  }

  lemma {:induction false} StartsWithDigit(s: string, g: nat, caps: seq<Capture>, shortMonth: bool)
    requires Matches(s, g, caps, shortMonth) && s != ""
    ensures IsDigit(s[0])
    decreases UNITS - g
  {
    hide Words;
    if caps[0].Taken? {
      assert s[0] == caps[0].digits[0];
    } else {
      assert s[0..] == s;
      StartsWithDigit(s, g + 1, caps[1..], shortMonth);
    }
  }

  /** The first group that takes something is that of the first word. */
  lemma {:induction false} HeadUnit(s: string, g: nat, caps: seq<Capture>, shortMonth: bool)
    requires Matches(s, g, caps, shortMonth) && s != ""
    ensures HeadWord(s) != "" && UnitOf(Lower(HeadWord(s))) >= g
    ensures g < UNITS && (caps[0].Taken? <==> UnitOf(Lower(HeadWord(s))) == g)
    ensures caps[0].Taken? ==> caps[0] == Taken(s[..DigitRun(s)], HeadWord(s))
    decreases UNITS - g
  {
    hide Words, UnitOf, HeadWord, TakenFits;
    if caps[0].Taken? {
      var rest := s[|TextOf(caps[0])|..];
      if rest != "" {
        StartsWithDigit(rest, g + 1, caps[1..], shortMonth);
      }
      TakenHead(s, g, caps[0], shortMonth);
    } else {
      assert s[0..] == s;
      HeadUnit(s, g + 1, caps[1..], shortMonth);
    }
  }

  /** A text matches in one way only. */
  lemma {:induction false} MatchUnique(s: string, g: nat, a: seq<Capture>, b: seq<Capture>, shortMonth: bool)
    requires Matches(s, g, a, shortMonth) && Matches(s, g, b, shortMonth)
    ensures a == b
    decreases UNITS - g
  {
    hide Matches, UnitOf, HeadWord, TextOf, DigitRun;
    if g < UNITS {
      OneGroup(s, g, a, shortMonth);
      OneGroup(s, g, b, shortMonth);
      if s == "" {
        NothingTaken(g, a, shortMonth);
        NothingTaken(g, b, shortMonth);
      } else {
        HeadUnit(s, g, a, shortMonth);
        HeadUnit(s, g, b, shortMonth);
      }
      assert a[0] == b[0];
      MatchUnique(s[|TextOf(a[0])|..], g + 1, a[1..], b[1..], shortMonth);
      assert a == [a[0]] + a[1..] && b == [b[0]] + b[1..];
    } else {
      NoGroup(s, g, a, shortMonth);
      NoGroup(s, g, b, shortMonth);
    }
  }

  lemma OneGroup(s: string, g: nat, caps: seq<Capture>, shortMonth: bool)
    requires g < UNITS && Matches(s, g, caps, shortMonth)
    ensures caps != [] && |TextOf(caps[0])| <= |s|
    ensures Matches(s[|TextOf(caps[0])|..], g + 1, caps[1..], shortMonth)
  {
    hide TextOf, TakenFits;
  }

  lemma NoGroup(s: string, g: nat, caps: seq<Capture>, shortMonth: bool)
    requires g >= UNITS && Matches(s, g, caps, shortMonth)
    ensures caps == []
  {
  }

  lemma NothingTaken(g: nat, caps: seq<Capture>, shortMonth: bool)
    requires g < UNITS && Matches("", g, caps, shortMonth)
    ensures caps != [] && caps[0] == Skipped
  {
  }

  /** The search finds the only way to match, if there is one. */
  lemma MatchFound(s: string, caps: seq<Capture>, shortMonth: bool)
    requires Matches(s, 0, caps, shortMonth)
    ensures MatchFrom(s, 0, shortMonth) == Some(caps)
  {
    hide MatchFrom, Matches;
    MatchComplete(s, 0, caps, shortMonth);
    MatchSound(s, 0, shortMonth);
    MatchUnique(s, 0, MatchFrom(s, 0, shortMonth).value, caps, shortMonth);
  }

  // ----- Parsing ----------------------------------------------------------------------------------------

  /** `str.replace(/ /g, '')`. */
  function NoSpaces(s: string): string {
    if s == "" then "" else NoSpaces(s[..|s| - 1]) + if s[|s| - 1] == ' ' then "" else [s[|s| - 1]]
  }

  /** `+m[i]||0`, times the period of the unit, for the groups from `g` on. */
  function Total(caps: seq<Capture>, g: nat): nat
    requires |caps| + g <= UNITS
    requires forall i :: 0 <= i < |caps| && caps[i].Taken? ==> AllDigits(caps[i].digits)
  {
    if caps == [] then 0
    else (if caps[0].Taken? then FromText(caps[0].digits) * Period(g) else 0) + Total(caps[1..], g + 1)
  }

  lemma {:induction false} CapsFit(s: string, g: nat, caps: seq<Capture>, shortMonth: bool)
    requires Matches(s, g, caps, shortMonth)
    ensures g <= UNITS ==> |caps| + g == UNITS
    ensures forall i :: 0 <= i < |caps| && caps[i].Taken? ==> AllDigits(caps[i].digits)
    decreases UNITS - g
  {
    hide Words;
    if g < UNITS {
      CapsFit(s[|TextOf(caps[0])|..], g + 1, caps[1..], shortMonth);
      forall i | 0 <= i < |caps| && caps[i].Taken? ensures AllDigits(caps[i].digits) {
        if i > 0 {
          assert caps[i] == caps[1..][i - 1];
        }
      }
    }
  }

  /** `str_to_dur` (util/date.js:139-153). */
  function StrToDur(str: string, shortMonth: bool): Option<nat> {
    var m := MatchFrom(NoSpaces(str), 0, shortMonth);
    if m.None? then None
    else
      MatchSound(NoSpaces(str), 0, shortMonth);
      CapsFit(NoSpaces(str), 0, m.value, shortMonth);
      Some(Total(m.value, 0))
  }

  // ----- Printing ---------------------------------------------------------------------------------------

  /** How often a unit goes into a length. */
  function Number(dur: nat, g: nat): nat
    requires g < UNITS
  {
    dur / Period(g)
  }

  /** What is left for the smaller units. */
  function LeftOver(dur: nat, g: nat): (left: nat)
    requires g < UNITS
    ensures left <= dur && left < Period(g) && dur == Number(dur, g) * Period(g) + left
  {
    Remainder(dur, Period(g));
    dur % Period(g)
  }

  /** The parts for the units from `g` on: as much as possible of each unit goes into it. */
  function Parts(dur: nat, g: nat, week: bool): seq<string>
    decreases UNITS - g
  {
    if g >= UNITS then []
    else if dur < Period(g) || (g == 2 && !week) then Parts(dur, g + 1, week)
    else [ToText(Number(dur, g)) + Name(g)] + Parts(LeftOver(dur, g), g + 1, week)
  }

  function Join(parts: seq<string>, sep: string): string {
    if parts == [] then "" else if |parts| == 1 then parts[0] else parts[0] + sep + Join(parts[1..], sep)
  }

  function Least(a: nat, b: nat): nat {
    if a < b then a else b
  }

  /** The text of a length: its parts, or the first `units` of them. */
  function Printed(dur: nat, week: bool, units: nat, sep: string): string {
    var parts := Parts(dur, 0, week);
    if parts == [] then "0s" else Join(if units == 0 then parts else parts[..Least(units, |parts|)], sep)
  }

  /** `chop`, the closure in `dur_to_str` (util/date.js:63-69). */
  method Chop(dur: nat, parts: seq<string>, g: nat, ghost week: bool) returns (left: nat, more: seq<string>)
    requires g < UNITS && (g == 2 ==> week)
    ensures parts + Parts(dur, g, week) == more + Parts(left, g + 1, week)
  {
    hide Period, Name, Parts, ToText;
    left, more := dur, parts;
    var period := Period(g);
    PartsStep(dur, g, week);
    if dur < period {
      return;
    }
    var number := dur / period;
    more := more + [ToText(number) + Name(g)];
    Remainder(dur, period);
    left := dur - number * period;
    assert parts + ([ToText(number) + Name(g)] + Parts(left, g + 1, week)) == more + Parts(left, g + 1, week);
  }

  lemma PartsStep(dur: nat, g: nat, week: bool)
    requires g < UNITS && (g == 2 ==> week)
    ensures Parts(dur, g, week) == if dur < Period(g) then Parts(dur, g + 1, week)
      else [ToText(Number(dur, g)) + Name(g)] + Parts(LeftOver(dur, g), g + 1, week)
  {
  }

  lemma Remainder(dur: nat, period: nat)
    requires period > 0
    ensures dur % period == dur - dur / period * period
  {
  }

  /** `dur_to_str` (util/date.js:59-83), for whole numbers and without `precision`. */
  method DurToStr(duration: nat, week: bool, units: nat, sep: string) returns (r: string)
    ensures r == Printed(duration, week, units, sep)
  {
    hide Period, Name, Join, Parts;
    var dur, parts := duration, [];
    assert parts + Parts(dur, 0, week) == Parts(dur, 0, week);
    dur, parts := Chop(dur, parts, 0, week);
    dur, parts := Chop(dur, parts, 1, week);
    if week {
      dur, parts := Chop(dur, parts, 2, week);
    } else {
      NoWeeks(dur);
    }
    dur, parts := Chop(dur, parts, 3, week);
    dur, parts := Chop(dur, parts, 4, week);
    dur, parts := Chop(dur, parts, 5, week);
    dur, parts := Chop(dur, parts, 6, week);
    LastPart(dur, week);
    if dur != 0 {
      parts := parts + [ToText(dur) + "ms"];
    }
    assert parts + [] == parts;
    if |parts| == 0 {
      return "0s";
    }
    var end := if units == 0 then |parts| else units;
    assert parts[..|parts|] == parts;
    r := Join(parts[..Least(end, |parts|)], sep);
  }

  lemma NoWeeks(dur: nat)
    ensures Parts(dur, 2, false) == Parts(dur, 3, false)
  {
  }

  lemma LastPart(dur: nat, week: bool)
    ensures Parts(dur, 7, week) == if dur == 0 then [] else [ToText(dur) + "ms"]
  {
  }

  // ----- There and back ---------------------------------------------------------------------------------

  /** What the first `u` parts are matched by. */
  function Caps(dur: nat, g: nat, week: bool, u: nat): seq<Capture>
    decreases UNITS - g
  {
    if g >= UNITS then []
    else if u == 0 || dur < Period(g) || (g == 2 && !week) then [Skipped] + Caps(dur, g + 1, week, u)
    else [Taken(ToText(Number(dur, g)), Name(g))] + Caps(LeftOver(dur, g), g + 1, week, u - 1)
  }

  /** The length without what the first `u` parts leave. */
  function Kept(dur: nat, g: nat, week: bool, u: nat): nat
    decreases UNITS - g
  {
    if g >= UNITS || u == 0 then 0
    else if dur < Period(g) || (g == 2 && !week) then Kept(dur, g + 1, week, u)
    else dur - LeftOver(dur, g) + Kept(LeftOver(dur, g), g + 1, week, u - 1)
  }

  lemma NameFits(g: nat, n: nat, shortMonth: bool)
    requires g < UNITS
    ensures TakenFits(Taken(ToText(n), Name(g)), g, shortMonth)
  {
    hide ToText;
    assert Lower(Name(g)) == Name(g);
  }

  lemma JoinCons(part: string, parts: seq<string>)
    ensures Join([part] + parts, "") == part + Join(parts, "")
  {
    assert ([part] + parts)[1..] == parts;
    if parts == [] {
      assert part + "" == part;
    } else {
      assert part + "" + Join(parts, "") == part + Join(parts, "");
    }
  }

  lemma {:induction false} CapsMatch(dur: nat, g: nat, week: bool, u: nat, shortMonth: bool)
    requires u <= |Parts(dur, g, week)|
    ensures Matches(Join(Parts(dur, g, week)[..u], ""), g, Caps(dur, g, week, u), shortMonth)
    decreases UNITS - g
  {
    hide Period, Name, Words, TakenFits, ToText, Join, Matches, Number, LeftOver, Parts, Caps;
    Unfolded(dur, g, week, u);
    if g >= UNITS {
      EmptyMatch(shortMonth, g);
    } else if u == 0 {
      var none: seq<string> := [];
      assert Parts(dur, g, week)[..0] == none && Parts(dur, g + 1, week)[..0] == none;
      CapsMatch(dur, g + 1, week, 0, shortMonth);
      SkipMatches(Join(none, ""), g, Caps(dur, g + 1, week, 0), shortMonth);
    } else if dur < Period(g) || (g == 2 && !week) {
      CapsMatch(dur, g + 1, week, u, shortMonth);
      SkipMatches(Join(Parts(dur, g + 1, week)[..u], ""), g, Caps(dur, g + 1, week, u), shortMonth);
    } else {
      var left := LeftOver(dur, g);
      CapsMatch(left, g + 1, week, u - 1, shortMonth);
      TakeMatches(Number(dur, g), g, Parts(left, g + 1, week), u - 1, Caps(left, g + 1, week, u - 1), shortMonth);
    }
  }

  lemma Unfolded(dur: nat, g: nat, week: bool, u: nat)
    ensures g >= UNITS ==> Parts(dur, g, week) == [] && Caps(dur, g, week, u) == []
    ensures g < UNITS ==> var left := LeftOver(dur, g); var c := Taken(ToText(Number(dur, g)), Name(g));
      var skipped := dur < Period(g) || (g == 2 && !week);
      Parts(dur, g, week) == (if skipped then Parts(dur, g + 1, week) else [TextOf(c)] + Parts(left, g + 1, week)) &&
      Caps(dur, g, week, u) ==
        if u == 0 || skipped then [Skipped] + Caps(dur, g + 1, week, u) else [c] + Caps(left, g + 1, week, u - 1)
  {
    hide Period, Name, ToText, Number, LeftOver;
  }

  lemma TakeMatches(n: nat, g: nat, rest: seq<string>, u: nat, caps: seq<Capture>, shortMonth: bool)
    requires g < UNITS && u <= |rest| && Matches(Join(rest[..u], ""), g + 1, caps, shortMonth)
    ensures var c := Taken(ToText(n), Name(g));
      Matches(Join(([TextOf(c)] + rest)[..u + 1], ""), g, [c] + caps, shortMonth)
  {
    hide Name, Words, TakenFits, ToText, Join, Matches;
    var c := Taken(ToText(n), Name(g));
    NameFits(g, n, shortMonth);
    assert ([TextOf(c)] + rest)[..u + 1] == [TextOf(c)] + rest[..u];
    JoinCons(TextOf(c), rest[..u]);
    var text := TextOf(c) + Join(rest[..u], "");
    assert text[|TextOf(c)|..] == Join(rest[..u], "");
    MatchesCons(c, text, g, caps, shortMonth);
  }

  lemma EmptyMatch(shortMonth: bool, g: nat)
    requires g >= UNITS
    ensures forall parts: seq<string> :: parts == [] ==> Matches(Join(parts, ""), g, [], shortMonth)
  {
  }

  lemma SkipMatches(s: string, g: nat, caps: seq<Capture>, shortMonth: bool)
    requires g < UNITS && Matches(s, g + 1, caps, shortMonth)
    ensures Matches(s, g, [Skipped] + caps, shortMonth)
  {
    assert s[0..] == s;
    MatchesCons(Skipped, s, g, caps, shortMonth);
  }

  /** The captures of the units from `g` on, and what they add up to. */
  predicate AddUp(caps: seq<Capture>, g: nat, total: int) {
    && |caps| + g == UNITS
    && (forall i :: 0 <= i < |caps| && caps[i].Taken? ==> AllDigits(caps[i].digits))
    && Total(caps, g) == total
  }

  lemma AddNone(g: nat)
    requires g == UNITS
    ensures AddUp([], g, 0)
  {
  }

  lemma AddSkipped(caps: seq<Capture>, g: nat, total: int)
    requires g < UNITS && AddUp(caps, g + 1, total)
    ensures AddUp([Skipped] + caps, g, total)
  {
    hide AllDigits, FromText, Period;
    assert ([Skipped] + caps)[1..] == caps;
  }

  lemma AddTaken(n: nat, word: string, caps: seq<Capture>, g: nat, total: int)
    requires g < UNITS && AddUp(caps, g + 1, total)
    ensures AddUp([Taken(ToText(n), word)] + caps, g, n * Period(g) + total)
  {
    hide AllDigits, FromText, Period, ToText;
    FromToText(n);
    assert ([Taken(ToText(n), word)] + caps)[1..] == caps;
  }

  lemma {:induction false} CapsTotal(dur: nat, g: nat, week: bool, u: nat)
    requires g <= UNITS
    ensures AddUp(Caps(dur, g, week, u), g, Kept(dur, g, week, u))
    decreases UNITS - g
  {
    hide AddUp, Period, Name, ToText, Number, LeftOver, Caps, Parts, Kept;
    Unfolded(dur, g, week, u);
    if g == UNITS {
      NoUnits(dur, g, week, u);
      AddNone(g);
    } else {
      OneUnit(dur, g, week, u);
      if u == 0 || dur < Period(g) || (g == 2 && !week) {
        CapsTotal(dur, g + 1, week, u);
        NothingKept(dur, g, week);
        NothingKept(dur, g + 1, week);
        AddSkipped(Caps(dur, g + 1, week, u), g, Kept(dur, g + 1, week, u));
      } else {
        var left := LeftOver(dur, g);
        CapsTotal(left, g + 1, week, u - 1);
        AddTaken(Number(dur, g), Name(g), Caps(left, g + 1, week, u - 1), g, Kept(left, g + 1, week, u - 1));
      }
    }
  }

  /** All parts together are the length; fewer are less. */
  lemma {:induction false} KeptAll(dur: nat, g: nat, week: bool, u: nat)
    requires g < UNITS && u <= |Parts(dur, g, week)|
    ensures if u == |Parts(dur, g, week)| then Kept(dur, g, week, u) == dur else Kept(dur, g, week, u) < dur
    decreases UNITS - g
  {
    hide Parts, Kept, Period;
    OneUnit(dur, g, week, u);
    if dur < Period(g) || (g == 2 && !week) {
      if g < UNITS - 1 {
        KeptAll(dur, g + 1, week, u);
      } else {
        Milliseconds();
        NoUnits(dur, g + 1, week, u);
      }
    } else if u > 0 {
      var left := LeftOver(dur, g);
      if g < UNITS - 1 {
        KeptAll(left, g + 1, week, u - 1);
      } else {
        Milliseconds();
        NoUnits(left, g + 1, week, u - 1);
      }
    }
  }

  lemma OneUnit(dur: nat, g: nat, week: bool, u: nat)
    requires g < UNITS
    ensures var n := |Parts(dur, g, week)|;
      if dur < Period(g) || (g == 2 && !week) then
        n == |Parts(dur, g + 1, week)| && Kept(dur, g, week, u) == Kept(dur, g + 1, week, u)
      else
        n == 1 + |Parts(LeftOver(dur, g), g + 1, week)| && dur > 0 && Kept(dur, g, week, 0) == 0 &&
        (u > 0 ==> Kept(dur, g, week, u) == dur - LeftOver(dur, g) + Kept(LeftOver(dur, g), g + 1, week, u - 1))
  {
    hide Period, ToText, Name, Number, LeftOver;
    if u == 0 {
      NothingKept(dur, g + 1, week);
    }
  }

  lemma NothingKept(dur: nat, g: nat, week: bool)
    ensures Kept(dur, g, week, 0) == 0
  {
  }

  lemma NoUnits(dur: nat, g: nat, week: bool, u: nat)
    requires g >= UNITS
    ensures Parts(dur, g, week) == [] && Kept(dur, g, week, u) == 0
  {
  }

  lemma Milliseconds()
    ensures Period(7) == 1
  {
  }

  predicate Blank(s: string) {
    forall i :: 0 <= i < |s| ==> s[i] == ' '
  }

  lemma {:induction false} NoSpacesCat(a: string, b: string)
    ensures NoSpaces(a + b) == NoSpaces(a) + NoSpaces(b)
  {
    if b == "" {
      assert a + b == a && NoSpaces(a) + "" == NoSpaces(a);
    } else {
      NoSpacesCat(a, b[..|b| - 1]);
      assert (a + b)[..|a + b| - 1] == a + b[..|b| - 1];
    }
  }

  lemma {:induction false} NoSpacesSame(s: string)
    requires ' ' !in s
    ensures NoSpaces(s) == s
  {
    if s != "" {
      NoSpacesSame(s[..|s| - 1]);
    }
  }

  lemma {:induction false} NoSpacesBlank(s: string)
    requires Blank(s)
    ensures NoSpaces(s) == ""
  {
    if s != "" {
      NoSpacesBlank(s[..|s| - 1]);
    }
  }

  lemma {:induction false} SpacesGo(parts: seq<string>, sep: string)
    requires Blank(sep) && forall i :: 0 <= i < |parts| ==> ' ' !in parts[i]
    ensures NoSpaces(Join(parts, sep)) == Join(parts, "")
  {
    hide NoSpaces;
    if parts == [] {
      NoSpacesSame("");
    } else if |parts| == 1 {
      NoSpacesSame(parts[0]);
    } else {
      SpacesGo(parts[1..], sep);
      NoSpacesCat(parts[0] + sep, Join(parts[1..], sep));
      NoSpacesCat(parts[0], sep);
      NoSpacesSame(parts[0]);
      NoSpacesBlank(sep);
    }
  }

  lemma {:induction false} PartsHaveNoSpaces(dur: nat, g: nat, week: bool)
    ensures forall i :: 0 <= i < |Parts(dur, g, week)| ==> ' ' !in Parts(dur, g, week)[i]
    decreases UNITS - g
  {
    hide Period, ToText, Number, LeftOver, Name;
    if g < UNITS {
      if dur < Period(g) || (g == 2 && !week) {
        PartsHaveNoSpaces(dur, g + 1, week);
      } else {
        PartsHaveNoSpaces(LeftOver(dur, g), g + 1, week);
        PartHasNoSpaces(Number(dur, g), g);
      }
    }
  }

  lemma PartHasNoSpaces(n: nat, g: nat)
    requires g < UNITS
    ensures ' ' !in ToText(n) + Name(g)
  {
    hide ToText;
    assert ' ' !in ToText(n) && ' ' !in Name(g);
  }

  /**
   What `str_to_dur` makes of a printed length, whatever blanks separate its parts: the parts that were
   printed. It is the length itself exactly when no part was cut off.
  */
  lemma RoundTrip(dur: nat, week: bool, units: nat, sep: string, shortMonth: bool)
    requires Blank(sep)
    ensures var n := |Parts(dur, 0, week)|; var u := if units == 0 then n else Least(units, n);
      StrToDur(Printed(dur, week, units, sep), shortMonth) == Some(Kept(dur, 0, week, u))
    ensures StrToDur(Printed(dur, week, units, sep), shortMonth) == Some(dur) <==>
      units == 0 || |Parts(dur, 0, week)| <= units
  {
    hide Parts, Join, NoSpaces, MatchFrom, Kept, Caps, Total, Matches;
    var parts := Parts(dur, 0, week);
    var n := |parts|;
    var u := if units == 0 then n else Least(units, n);
    KeptAll(dur, 0, week, u);
    if n == 0 {
      ZeroSeconds(shortMonth);
      assert u == 0 && dur == Kept(dur, 0, week, 0);
      NothingKept(dur, 0, week);
    } else {
      PartsHaveNoSpaces(dur, 0, week);
      assert parts[..n] == parts;
      SpacesGo(parts[..u], sep);
      CapsMatch(dur, 0, week, u, shortMonth);
      MatchFound(Join(parts[..u], ""), Caps(dur, 0, week, u), shortMonth);
      CapsTotal(dur, 0, week, u);
    }
  }

  /** How a text with a single part is matched from unit `g` on, when the part is one of unit `h`. */
  function OneCap(g: nat, h: nat, c: Capture): seq<Capture>
    decreases UNITS - g
  {
    if g >= UNITS then [] else [if g == h then c else Skipped] + OneCap(g + 1, h, c)
  }

  lemma {:induction false} OneCapMatches(g: nat, h: nat, c: Capture, shortMonth: bool)
    requires g <= UNITS && h < UNITS && c.Taken? && TakenFits(c, h, shortMonth)
    ensures var caps := OneCap(g, h, c);
      Matches(if g <= h then TextOf(c) else "", g, caps, shortMonth)
    decreases UNITS - g
  {
    hide Words, TextOf, TakenFits;
    if g < UNITS {
      OneCapMatches(g + 1, h, c, shortMonth);
      var rest := OneCap(g + 1, h, c);
      if g == h {
        assert TextOf(c)[|TextOf(c)|..] == "";
        MatchesCons(c, TextOf(c), g, rest, shortMonth);
      } else {
        SkipMatches(if g <= h then TextOf(c) else "", g, rest, shortMonth);
      }
    }
  }

  lemma {:induction false} OneCapTotal(g: nat, h: nat, c: Capture)
    requires g <= UNITS && h < UNITS && c.Taken? && AllDigits(c.digits)
    ensures var caps := OneCap(g, h, c);
      |caps| + g == UNITS && (forall i :: 0 <= i < |caps| && caps[i].Taken? ==> AllDigits(caps[i].digits)) &&
      Total(caps, g) == if g <= h then FromText(c.digits) * Period(h) else 0
    decreases UNITS - g
  {
    hide Period, AllDigits, FromText;
    if g < UNITS {
      OneCapTotal(g + 1, h, c);
      assert OneCap(g, h, c)[1..] == OneCap(g + 1, h, c);
    }
  }

  /** A number followed by any spelling of a unit, in any case, is that many of the unit. */
  lemma UnitText(n: nat, word: string, g: nat, shortMonth: bool)
    requires g < UNITS && Lower(word) in Words(g, shortMonth)
    ensures StrToDur(ToText(n) + word, shortMonth) == Some(n * Period(g))
    ensures Period(7) == 1 && Period(6) == 1000 && Period(5) == 60 * Period(6) && Period(4) == 60 * Period(5)
    ensures Period(3) == 24 * Period(4) && Period(2) == 7 * Period(3)
      && Period(1) == 30 * Period(3) && Period(0) == 365 * Period(3)
  {
    var c, text := Taken(ToText(n), word), ToText(n) + word;
    WordsHaveNoSpaces(word, g, shortMonth);
    assert ' ' !in ToText(n);
    NoSpacesSame(text);
    FromToText(n);
    OneCapMatches(0, g, c, shortMonth);
    OneCapTotal(0, g, c);
    hide Words, Matches, MatchFrom, Total, OneCap;
    MatchFound(text, OneCap(0, g, c), shortMonth);
  }

  lemma WordsHaveNoSpaces(word: string, g: nat, shortMonth: bool)
    requires g < UNITS && Lower(word) in Words(g, shortMonth)
    ensures ' ' !in word
  {
    assert ' ' !in Lower(word);
    forall i | 0 <= i < |word| ensures word[i] != ' ' {
      assert Lower(word)[i] in Lower(word);
    }
  }

  lemma ZeroSeconds(shortMonth: bool)
    ensures StrToDur("0s", shortMonth) == Some(0)
  {
    hide MatchFrom, Words, Matches;
    assert ToText(0) + "s" == "0s";
    NameFits(6, 0, shortMonth);
    UnitText(0, "s", 6, shortMonth);
  }

  // ----- The spellings --------------------------------------------------------------------------------

  /** What a unit may be called, and how long it is. */
  predicate Spelled(word: string, length: nat, shortMonth: bool) {
    || (word in ["y", "year", "years"] && length == 31536000000)
    || (word in ["mo", "mon", "month", "months"] && length == 2592000000)
    || (shortMonth && word == "m" && length == 2592000000)
    || (word in ["w", "week", "weeks"] && length == 604800000)
    || (word in ["d", "day", "days"] && length == 86400000)
    || (word in ["h", "hour", "hours"] && length == 3600000)
    || (word in ["min", "minute", "minutes"] && length == 60000)
    || (word in ["s", "sec", "second", "seconds"] && length == 1000)
    || (word in ["ms", "msec"] && length == 1)
  }

  lemma SpelledUnit(word: string, length: nat, shortMonth: bool)
    ensures Spelled(word, length, shortMonth) <==>
      exists g: nat :: g < UNITS && word in Words(g, shortMonth) && length == Period(g)
  {
    if Spelled(word, length, shortMonth) {
      var g := if length == 31536000000 then 0 else if length == 2592000000 then 1 else if length == 604800000 then 2
        else if length == 86400000 then 3 else if length == 3600000 then 4 else if length == 60000 then 5
        else if length == 1000 then 6 else 7;
      assert word in Words(g, shortMonth) && length == Period(g);
    }
  }

  /** Some unit is called by the only word of the text. */
  lemma {:induction false} OnlyWord(s: string, g: nat, caps: seq<Capture>, shortMonth: bool)
    requires Matches(s, g, caps, shortMonth) && s != ""
    ensures exists h: nat :: h < UNITS && Lower(HeadWord(s)) in Words(h, shortMonth)
    decreases UNITS - g
  {
    hide Words, UnitOf, HeadWord, Lower;
    HeadUnit(s, g, caps, shortMonth);
    if !caps[0].Taken? {
      assert s[0..] == s;
      OnlyWord(s, g + 1, caps[1..], shortMonth);
    }
  }

  lemma HeadOf(digits: string, word: string)
    requires digits != "" && AllDigits(digits) && word != "" && forall k :: 0 <= k < |word| ==> !IsDigit(word[k])
    ensures HeadWord(digits + word) == word
  {
    var s, n := digits + word, |digits|;
    assert s[..n] == digits && s[n..] == word;
    RunAtLeast(s, n);
    RunExactly(s, n, DigitRun(s));
    WordExactly(word, |word|);
  }

  /** A number and a word are a length exactly if the word is one of those, in any case. */
  lemma SpelledExactly(n: nat, word: string, length: nat, shortMonth: bool)
    requires word != "" && ' ' !in word && forall k :: 0 <= k < |word| ==> !IsDigit(word[k])
    ensures Spelled(Lower(word), length, shortMonth) ==> StrToDur(ToText(n) + word, shortMonth) == Some(n * length)
    ensures (forall l: nat :: !Spelled(Lower(word), l, shortMonth)) <==>
      StrToDur(ToText(n) + word, shortMonth) == None
  {
    hide Words, Spelled, Lower, Period, Matches, MatchFrom, HeadWord, Total;
    var text := ToText(n) + word;
    if l: nat :| Spelled(Lower(word), l, shortMonth) {
      SpelledUnit(Lower(word), l, shortMonth);
      var g: nat :| g < UNITS && Lower(word) in Words(g, shortMonth);
      UnitText(n, word, g, shortMonth);
    }
    if Spelled(Lower(word), length, shortMonth) {
      SpelledUnit(Lower(word), length, shortMonth);
      var g: nat :| g < UNITS && Lower(word) in Words(g, shortMonth) && length == Period(g);
      UnitText(n, word, g, shortMonth);
    }
    if StrToDur(text, shortMonth).Some? {
      assert ' ' !in ToText(n);
      NoSpacesSame(text);
      MatchSound(text, 0, shortMonth);
      OnlyWord(text, 0, MatchFrom(text, 0, shortMonth).value, shortMonth);
      HeadOf(ToText(n), word);
      var h: nat :| h < UNITS && Lower(word) in Words(h, shortMonth);
      SpelledUnit(Lower(word), Period(h), shortMonth);
    }
  }

  /** A number of one unit, below the next unit that is used, is printed with the name of the unit. */
  lemma OneUnitPrinted(n: nat, g: nat, week: bool, units: nat, sep: string)
    requires n > 0 && g < UNITS && (g == 2 ==> week)
    requires forall h :: 0 <= h < g && (h == 2 ==> week) ==> n * Period(g) < Period(h)
    ensures Printed(n * Period(g), week, units, sep) == ToText(n) + ["y", "mo", "w", "d", "h", "min", "s", "ms"][g]
    ensures Printed(0, week, units, sep) == "0s"
  {
    OnePart(n, g, 0, week);
    NothingLeft(0, week);
    Named(g);
    hide Period, ToText, Parts, Name;
    var parts := Parts(n * Period(g), 0, week);
    assert parts[..1] == parts;
  }

  lemma Named(g: nat)
    requires g < UNITS
    ensures Name(g) == ["y", "mo", "w", "d", "h", "min", "s", "ms"][g]
  {
  }

  lemma {:induction false} OnePart(n: nat, g: nat, h: nat, week: bool)
    requires n > 0 && h <= g < UNITS && (g == 2 ==> week)
    requires forall k :: h <= k < g && (k == 2 ==> week) ==> n * Period(g) < Period(k)
    ensures Parts(n * Period(g), h, week) == [ToText(n) + Name(g)]
    decreases g - h
  {
    hide Period, ToText, Name, LeftOver, Number;
    if h < g {
      OnePart(n, g, h + 1, week);
    } else {
      WholeUnits(n, g);
      NothingLeft(g + 1, week);
      assert n * Period(g) >= Period(g);
    }
  }

  lemma WholeUnits(n: nat, g: nat)
    requires g < UNITS
    ensures Number(n * Period(g), g) == n && LeftOver(n * Period(g), g) == 0 && (n > 0 ==> n * Period(g) >= Period(g))
  {
    hide Period;
    WholeDivides(n, Period(g));
  }

  lemma WholeDivides(n: nat, p: nat)
    requires p > 0
    ensures n * p / p == n && n * p % p == 0 && (n > 0 ==> n * p >= p)
  {
    var dur := n * p;
    var q, r := dur / p, dur % p;
    Remainder(dur, p);
    Whole(n, q, r, p);
    if n > 0 {
      assert (n - 1) * p >= 0;
    }
  }

  lemma Whole(n: int, q: int, r: int, p: nat)
    requires n * p == q * p + r && 0 <= r < p
    ensures n == q && r == 0
  {
    Multiple(n - q, p);
    assert (n - q) * p == r;
  }

  lemma Multiple(d: int, p: nat)
    ensures d >= 1 ==> d * p >= p
    ensures d <= -1 ==> d * p + p <= 0
  {
  }

  lemma {:induction false} NothingLeft(g: nat, week: bool)
    ensures Parts(0, g, week) == []
    decreases UNITS - g
  {
    if g < UNITS {
      NothingLeft(g + 1, week);
    }
  }
}
