/** Quoting of shell words and its inverse (util/escape.js:24-123). */
module Shell {
  import opened Wrappers

  // ----- Quoting ----------------------------------------------------------------------------------

  /** A character that needs no quotes: `[a-z0-9_\-./:]`, in either case. */
  predicate IsSafe(c: char) {
    || 'a' <= c <= 'z' || 'A' <= c <= 'Z' || '0' <= c <= '9'
    || c == '_' || c == '-' || c == '.' || c == '/' || c == ':'
  }

  predicate AllSafe(x: string) {
    forall i :: 0 <= i < |x| ==> IsSafe(x[i])
  }

  predicate NeedsEscape(c: char) {
    c == '\\' || c == '"' || c == '`' || c == '$'
  }

  function Escaped(s: string): string {
    if s == "" then "" else (if NeedsEscape(s[0]) then ['\\', s[0]] else [s[0]]) + Escaped(s[1..])
  }

  /** `single` (util/escape.js:25-32). */
  function Single(s: string): string {
    if s == "" then "\"\""
    else if AllSafe(s) then s
    else "\"" + Escaped(s) + "\""
  }

  function Joined(args: seq<string>): string {
    if args == [] then ""
    else if |args| == 1 then Single(args[0])
    else Single(args[0]) + " " + Joined(args[1..])
  }

  lemma Regroup(a: string, b: string, c: string)
    ensures a + " " + (b + " " + c) == a + " " + b + " " + c
  {
  }

  lemma {:induction false} JoinedSnoc(args: seq<string>, x: string)
    requires args != []
    ensures Joined(args + [x]) == Joined(args) + " " + Single(x)
  {
    hide Single;
    assert (args + [x])[1..] == args[1..] + [x];
    if |args| == 1 {
      assert args[1..] + [x] == [x];
    } else {
      JoinedSnoc(args[1..], x);
      Regroup(Single(args[0]), Joined(args[1..]), Single(x));
    }
  }

  /** `sh` on a list (util/escape.js:33-39). */
  method Sh(args: seq<string>) returns (s: string)
    ensures s == Joined(args)
  {
    s := "";
    for i := 0 to |args|
      invariant s == Joined(args[..i])
    {
      assert args[..i + 1] == args[..i] + [args[i]];
      if i > 0 {
        JoinedSnoc(args[..i], args[i]);
      }
      s := s + (if i > 0 then " " else "") + Single(args[i]);
    }
    assert args[..|args|] == args;
  }

  // ----- Splitting --------------------------------------------------------------------------------

  datatype Mode = Init | NormalArg | QuoteArg

  /** `quote` is the open quote, `a` the word so far and `argv` the words that are complete. */
  datatype State = State(mode: Mode, quote: Option<char>, a: string, argv: seq<string>)

  const START := State(Init, None, "", [])

  predicate IsBlank(c: char) {
    c == '\r' || c == '\n' || c == ' ' || c == '\t'
  }

  predicate IsQuote(c: char) {
    c == '"' || c == '\''
  }

  function Drop(a: string): string {
    if a == "" then "" else a[..|a| - 1]
  }

  /** A character as `+=` appends it; what is past the end appends the word `undefined`. */
  function TextOf(c: Option<char>): string {
    if c.Some? then [c.value] else "undefined"
  }

  /** The `switch` of `un_sh` (util/escape.js:57-113), on a character already appended to `a`. */
  function Switch(st: State, c: Option<char>, esc: bool, keepEsc: bool): State {
    var unquoted := if keepEsc then st.a else Drop(st.a);
    match st.mode
    case Init =>
      if !esc && c.Some? && IsBlank(c.value) then st.(a := "")
      else if !esc && c.Some? && IsQuote(c.value) then st.(mode := QuoteArg, a := unquoted, quote := c)
      else st.(mode := NormalArg)
    case NormalArg =>
      if !esc && c.Some? && IsBlank(c.value) then st.(mode := Init, argv := st.argv + [Drop(st.a)], a := "")
      else if !esc && c.Some? && IsQuote(c.value) then st.(mode := QuoteArg, a := unquoted, quote := c)
      else st
    case QuoteArg =>
      if !esc && c == st.quote then st.(mode := NormalArg, a := unquoted) else st
  }

  /** The state after `s`. The source looks at `s[1]`, so a backslash counts if the whole text is `long`. */
  function Scan(s: string, st: State, long: bool, keepEsc: bool): State
    decreases |s|
  {
    if s == "" then st
    else if s[0] == '\\' && long then
      var c := if |s| > 1 then Some(s[1]) else None;
      var a := st.a + (if keepEsc then "\\" else "") + TextOf(c);
      Scan(if |s| > 1 then s[2..] else "", Switch(st.(a := a), c, true, keepEsc), long, keepEsc)
    else
      Scan(s[1..], Switch(st.(a := st.a + [s[0]]), Some(s[0]), false, keepEsc), long, keepEsc)
  }

  /** The words; `None` is the error for a quote that is not closed. */
  function Words(st: State): Option<seq<string>> {
    match st.mode
    case Init => Some(st.argv)
    case NormalArg => Some(st.argv + [st.a])
    case QuoteArg => None
  }

  function Split(s: string, keepEsc: bool): Option<seq<string>> {
    Words(Scan(s, START, |s| > 1, keepEsc))
  }

  /** `un_sh` (util/escape.js:41-123). */
  method UnSh(s: string, keepEsc: bool) returns (r: Option<seq<string>>)
    ensures r == Split(s, keepEsc)
  {
    var st, i := START, 0;
    assert s[0..] == s;
    while i < |s|
      invariant Scan(s[if i <= |s| then i else |s|..], st, |s| > 1, keepEsc) == Scan(s, START, |s| > 1, keepEsc)
    {
      assert s[i..][1..] == s[i + 1..];
      assert i + 1 < |s| ==> s[i..][2..] == s[i + 2..];
      var a, esc, c := st.a + [s[i]], false, Some(s[i]);
      if s[i] == '\\' && |s| > 1 {
        if !keepEsc {
          a := Drop(a);
          assert a == st.a + "";
        }
        esc := true;
        i := i + 1;
        c := if i < |s| then Some(s[i]) else None;
        a := a + TextOf(c);
      }
      assert a == st.a + (if esc && keepEsc then "\\" else "") + TextOf(c);
      st := Switch(st.(a := a), c, esc, keepEsc);
      i := i + 1;
    }
    r := Words(st);
  }

  // ----- Splitting undoes quoting -----------------------------------------------------------------

  /** The word that is read: with `keepEsc` the quotes and backslashes stay in it. */
  function Read(x: string, keepEsc: bool): string {
    if keepEsc then Single(x) else x
  }

  lemma {:induction false} ScanSafe(
      x: string, rest: string, a: string, q: Option<char>, argv: seq<string>, long: bool, keepEsc: bool)
    requires AllSafe(x)
    ensures Scan(x + rest, State(NormalArg, q, a, argv), long, keepEsc)
      == Scan(rest, State(NormalArg, q, a + x, argv), long, keepEsc)
    decreases |x|
  {
    if x == "" {
      assert x + rest == rest && a + x == a;
    } else {
      assert (x + rest)[1..] == x[1..] + rest && a + [x[0]] + x[1..] == a + x;
      assert forall i :: 0 <= i < |x[1..]| ==> x[1..][i] == x[i + 1];
      ScanSafe(x[1..], rest, a + [x[0]], q, argv, long, keepEsc);
    }
  }

  /** One turn of the loop at a character that is no backslash. */
  lemma ScanStep(s: string, st: State, long: bool, keepEsc: bool)
    requires s != "" && s[0] != '\\'
    ensures Scan(s, st, long, keepEsc)
      == Scan(s[1..], Switch(st.(a := st.a + [s[0]]), Some(s[0]), false, keepEsc), long, keepEsc)
  {
  }

  /** What is read of the text `x` and the quote behind it. */
  function QuotedRead(x: string, keepEsc: bool): string {
    if keepEsc then Escaped(x) + "\"" else x
  }

  function CharRead(c: char, keepEsc: bool): string {
    if keepEsc && NeedsEscape(c) then ['\\', c] else [c]
  }

  lemma QuotedReadOne(x: string, a: string, keepEsc: bool)
    requires x != ""
    ensures a + QuotedRead(x, keepEsc) == a + CharRead(x[0], keepEsc) + QuotedRead(x[1..], keepEsc)
  {
    assert Escaped(x) == CharRead(x[0], true) + Escaped(x[1..]);
    hide Escaped, CharRead, NeedsEscape;
    var c, rest := CharRead(x[0], keepEsc), QuotedRead(x[1..], keepEsc);
    if keepEsc {
      assert c + Escaped(x[1..]) + "\"" == c + rest;
    } else {
      PlainRead(x[0]);
      assert x == c + rest;
    }
    assert a + (c + rest) == a + c + rest;
  }

  lemma PlainRead(c: char)
    ensures CharRead(c, false) == [c]
  {
  }

  lemma ScanCloses(rest: string, a: string, argv: seq<string>, keepEsc: bool)
    ensures Scan(Escaped("") + "\"" + rest, State(QuoteArg, Some('"'), a, argv), true, keepEsc)
      == Scan(rest, State(NormalArg, Some('"'), a + QuotedRead("", keepEsc), argv), true, keepEsc)
  {
    var s := Escaped("") + "\"" + rest;
    assert s[0] == '"' && s[1..] == rest && Drop(a + ['"']) == a && a + "" == a && "" + "\"" == "\"";
  }

  lemma {:induction false} ScanEscaped(x: string, rest: string, a: string, argv: seq<string>, keepEsc: bool)
    ensures Scan(Escaped(x) + "\"" + rest, State(QuoteArg, Some('"'), a, argv), true, keepEsc)
      == Scan(rest, State(NormalArg, Some('"'), a + QuotedRead(x, keepEsc), argv), true, keepEsc)
    decreases |x|
  {
    hide Escaped, Scan, QuotedRead, CharRead;
    if x == "" {
      ScanCloses(rest, a, argv, keepEsc);
    } else {
      ScanEscaped(x[1..], rest, a + CharRead(x[0], keepEsc), argv, keepEsc);
      EscapedOne(x, rest);
      QuotedReadOne(x, a, keepEsc);
      ScanOne(x[0], Escaped(x[1..]) + "\"" + rest, a, argv, keepEsc);
    }
  }

  /** The text of the first character, and what follows. */
  lemma EscapedOne(x: string, rest: string)
    requires x != ""
    ensures Escaped(x) + "\"" + rest ==
      (if NeedsEscape(x[0]) then ['\\', x[0]] else [x[0]]) + (Escaped(x[1..]) + "\"" + rest)
  {
  }

  /** One character inside double quotes. */
  lemma ScanOne(c: char, tail: string, a: string, argv: seq<string>, keepEsc: bool)
    ensures Scan((if NeedsEscape(c) then ['\\', c] else [c]) + tail, State(QuoteArg, Some('"'), a, argv), true, keepEsc)
      == Scan(tail, State(QuoteArg, Some('"'), a + CharRead(c, keepEsc), argv), true, keepEsc)
  {
    if NeedsEscape(c) {
      assert (['\\', c] + tail)[2..] == tail && a + "" + [c] == a + [c] && a + "\\" + [c] == a + ['\\', c];
    } else {
      assert ([c] + tail)[1..] == tail;
    }
  }

  lemma ScanSafeWord(x: string, rest: string, q: Option<char>, argv: seq<string>, long: bool, keepEsc: bool)
    requires x != "" && AllSafe(x)
    ensures Scan(x + rest, State(Init, q, "", argv), long, keepEsc)
      == Scan(rest, State(NormalArg, q, x, argv), long, keepEsc)
  {
    assert (x + rest)[1..] == x[1..] + rest && (x + rest)[0] == x[0];
    assert [x[0]] + x[1..] == x && "" + [x[0]] == [x[0]] && IsSafe(x[0]);
    assert forall i :: 0 <= i < |x[1..]| ==> x[1..][i] == x[i + 1];
    var st := Switch(State(Init, q, "" + [x[0]], argv), Some(x[0]), false, keepEsc);
    assert !IsBlank(x[0]) && !IsQuote(x[0]);
    assert st.a == [x[0]];
    assert st == State(NormalArg, q, [x[0]], argv);
    assert Scan(x + rest, State(Init, q, "", argv), long, keepEsc) == Scan(x[1..] + rest, st, long, keepEsc);
    ScanSafe(x[1..], rest, [x[0]], q, argv, long, keepEsc);
  }

  lemma ScanQuotedWord(x: string, rest: string, q: Option<char>, argv: seq<string>, keepEsc: bool)
    ensures Scan("\"" + Escaped(x) + "\"" + rest, State(Init, q, "", argv), true, keepEsc)
      == Scan(rest, State(NormalArg, Some('"'), if keepEsc then "\"" + Escaped(x) + "\"" else x, argv), true, keepEsc)
  {
    hide Scan, Escaped;
    var body, a := Escaped(x), if keepEsc then "\"" else "";
    InQuotes(body, rest);
    OpensQuote("\"" + body + "\"" + rest, q, argv, keepEsc);
    ScanEscaped(x, rest, a, argv, keepEsc);
    assert "" + x == x;
  }

  lemma InQuotes(body: string, rest: string)
    ensures ("\"" + body + "\"" + rest)[0] == '"' && ("\"" + body + "\"" + rest)[1..] == body + "\"" + rest
    ensures "\"" + (body + "\"") == "\"" + body + "\""
  {
  }

  lemma OpensQuote(s: string, q: Option<char>, argv: seq<string>, keepEsc: bool)
    requires s != "" && (s[0] == '"' || s[0] == '\'')
    ensures Scan(s, State(Init, q, "", argv), true, keepEsc)
      == Scan(s[1..], State(QuoteArg, Some(s[0]), if keepEsc then [s[0]] else "", argv), true, keepEsc)
  {
    hide Scan, Switch;
    ScanStep(s, State(Init, q, "", argv), true, keepEsc);
    SwitchOpens(s[0], q, argv, keepEsc);
    assert "" + [s[0]] == [s[0]];
  }

  lemma SwitchOpens(c: char, q: Option<char>, argv: seq<string>, keepEsc: bool)
    requires c == '"' || c == '\''
    ensures Switch(State(Init, q, [c], argv), Some(c), false, keepEsc)
      == State(QuoteArg, Some(c), if keepEsc then [c] else "", argv)
  {
    assert Drop([c]) == "";
  }

  /** The quote that is open after a word is read, if it was quoted. */
  function QuoteAfter(x: string, q: Option<char>): Option<char> {
    if x != "" && AllSafe(x) then q else Some('"')
  }

  /** A word that `sh` prints is read back, and what follows goes on outside quotes. */
  lemma ScanSingle(x: string, rest: string, q: Option<char>, argv: seq<string>, long: bool, keepEsc: bool)
    requires long || (x != "" && AllSafe(x))
    ensures Scan(Single(x) + rest, State(Init, q, "", argv), long, keepEsc)
      == Scan(rest, State(NormalArg, QuoteAfter(x, q), Read(x, keepEsc), argv), long, keepEsc)
  {
    hide Scan, Escaped;
    if x != "" && AllSafe(x) {
      ScanSafeWord(x, rest, q, argv, long, keepEsc);
    } else {
      ScanQuotedWord(x, rest, q, argv, keepEsc);
      assert x == "" ==> Escaped(x) == "" by {
        EscapedNothing();
      }
      assert Single(x) == "\"" + Escaped(x) + "\"";
    }
  }

  lemma EscapedNothing()
    ensures Escaped("") == ""
  {
  }

  lemma ScanNothing(st: State, long: bool, keepEsc: bool)
    ensures Scan("", st, long, keepEsc) == st
  {
  }

  /** The blank after a word completes it. */
  lemma ScanBlank(a: string, b: char, tail: string, q: Option<char>, argv: seq<string>, long: bool, keepEsc: bool)
    requires b in "\r\n \t"
    ensures Scan([b] + tail, State(NormalArg, q, a, argv), long, keepEsc)
      == Scan(tail, State(Init, q, "", argv + [a]), long, keepEsc)
  {
    assert ([b] + tail)[1..] == tail && Drop(a + [b]) == a;
  }

  function ReadAll(args: seq<string>, keepEsc: bool): seq<string> {
    seq(|args|, i requires 0 <= i < |args| => Read(args[i], keepEsc))
  }

  lemma {:induction false} ScanWords(args: seq<string>, q: Option<char>, argv: seq<string>, long: bool, keepEsc: bool)
    requires args != [] && (long || forall i :: 0 <= i < |args| ==> args[i] != "" && AllSafe(args[i]))
    ensures Words(Scan(Joined(args), State(Init, q, "", argv), long, keepEsc)) == Some(argv + ReadAll(args, keepEsc))
    decreases |args|
  {
    hide Single, AllSafe, Switch, Scan, QuoteAfter, Read;
    var x, q', a := args[0], QuoteAfter(args[0], q), Read(args[0], keepEsc);
    if |args| == 1 {
      ScanSingle(x, "", q, argv, long, keepEsc);
      ScanNothing(State(NormalArg, q', a, argv), long, keepEsc);
      assert Single(x) + "" == Single(x) && args == [x] && ReadAll(args, keepEsc) == [a];
    } else {
      var tail := Joined(args[1..]);
      ScanSingle(x, " " + tail, q, argv, long, keepEsc);
      ScanBlank(a, ' ', tail, q', argv, long, keepEsc);
      assert Joined(args) == Single(x) + (" " + tail);
      ScanWords(args[1..], q', argv + [a], long, keepEsc);
      assert argv + [a] + ReadAll(args[1..], keepEsc) == argv + ReadAll(args, keepEsc);
    }
  }

  lemma SingleLength(x: string)
    ensures |Single(x)| >= 1
    ensures |Single(x)| == 1 ==> x != "" && AllSafe(x)
  {
  }

  /** A text of one character is one word without quotes. */
  lemma LongIfQuoted(args: seq<string>)
    requires |Joined(args)| <= 1
    ensures forall i :: 0 <= i < |args| ==> args[i] != "" && AllSafe(args[i])
  {
    if args != [] {
      SingleLength(args[0]);
    }
  }

  lemma ReadsBack(args: seq<string>, keepEsc: bool)
    ensures Split(Joined(args), keepEsc) == Some(ReadAll(args, keepEsc))
  {
    if args != [] {
      if |Joined(args)| <= 1 {
        LongIfQuoted(args);
      }
      ScanWords(args, None, [], |Joined(args)| > 1, keepEsc);
      assert [] + ReadAll(args, keepEsc) == ReadAll(args, keepEsc);
    }
  }

  /** Every list of words is read back as it was quoted. */
  lemma RoundTrip(args: seq<string>)
    ensures Split(Joined(args), false) == Some(args)
  {
    ReadsBack(args, false);
    assert ReadAll(args, false) == args;
  }

  /** With `keepEsc` the words are read as they were printed, quotes and backslashes included. */
  lemma KeptAsPrinted(args: seq<string>)
    ensures Split(Joined(args), true) == Some(seq(|args|, i requires 0 <= i < |args| => Single(args[i])))
  {
    ReadsBack(args, true);
    assert ReadAll(args, true) == seq(|args|, i requires 0 <= i < |args| => Single(args[i]));
  }

  // ----- Words that others print --------------------------------------------------------------------

  /** Any of the four blanks separates words. */
  lemma BlankSeparates(x: string, b: char, y: string)
    requires x != "" && y != "" && AllSafe(x) && AllSafe(y) && b in "\r\n \t"
    ensures Split(x + [b] + y, false) == Some([x, y])
  {
    assert x + [b] + y == x + ([b] + y) && y + "" == y;
    ScanSafeWord(x, [b] + y, None, [], true, false);
    ScanBlank(x, b, y, None, [], true, false);
    ScanSafeWord(y, "", None, [] + [x], true, false);
    ScanNothing(State(NormalArg, None, y, [] + [x]), true, false);
    assert [] + [x] + [y] == [x, y];
  }

  lemma {:induction false} ScanInQuotes(x: string, rest: string, q: char, a: string, argv: seq<string>)
    requires q !in x && '\\' !in x
    ensures Scan(x + rest, State(QuoteArg, Some(q), a, argv), true, false)
      == Scan(rest, State(QuoteArg, Some(q), a + x, argv), true, false)
    decreases |x|
  {
    if x == "" {
      assert x + rest == rest && a + x == a;
    } else {
      assert (x + rest)[1..] == x[1..] + rest && a + [x[0]] + x[1..] == a + x;
      ScanInQuotes(x[1..], rest, q, a + [x[0]], argv);
    }
  }

  /** A text in single or double quotes is one word, and an error if the quote is not closed. */
  lemma QuotesHold(q: char, x: string)
    requires (q == '"' || q == '\'') && q !in x && '\\' !in x
    ensures Split([q] + x + [q], false) == Some([x])
    ensures x != "" ==> Split([q] + x, false) == None
  {
    hide Scan, Words;
    var st, start := State(QuoteArg, Some(q), "", []), [q] + x;
    ScanInQuotes(x, [q], q, "", []);
    ScanInQuotes(x, "", q, "", []);
    QuoteOpens(q, x + [q]);
    QuoteOpens(q, x + "");
    assert "" + x == x && start + [q] == [q] + (x + [q]) && x + "" == x;
    QuoteCloses(q, x);
    QuoteStaysOpen(q, x);
  }

  lemma QuoteOpens(q: char, rest: string)
    requires q == '"' || q == '\''
    ensures Scan([q] + rest, START, true, false) == Scan(rest, State(QuoteArg, Some(q), "", []), true, false)
  {
    hide Scan;
    assert ([q] + rest)[0] == q && ([q] + rest)[1..] == rest;
    OpensQuote([q] + rest, None, [], false);
  }

  lemma QuoteCloses(q: char, x: string)
    requires q == '"' || q == '\''
    ensures Words(Scan([q], State(QuoteArg, Some(q), x, []), true, false)) == Some([x])
  {
    ScanStep([q], State(QuoteArg, Some(q), x, []), true, false);
    ScanNothing(State(NormalArg, Some(q), x, []), true, false);
    hide Scan;
    assert Drop(x + [q]) == x && [q][1..] == "" && [] + [x] == [x];
  }

  lemma QuoteStaysOpen(q: char, x: string)
    ensures Words(Scan("", State(QuoteArg, Some(q), x, []), true, false)) == None
  {
  }

  /** Exactly the words of letters, digits and five other characters are printed as they are. */
  lemma BareExactly(x: string)
    ensures Single(x) == x <==> x != "" && forall i :: 0 <= i < |x| ==>
      'a' <= x[i] <= 'z' || 'A' <= x[i] <= 'Z' || '0' <= x[i] <= '9' || x[i] in "_-./:"
  {
    EscapedLength(x);
  }

  lemma {:induction false} EscapedLength(x: string)
    ensures |Escaped(x)| >= |x|
  {
    if x != "" {
      EscapedLength(x[1..]);
    }
  }

  /** A backslash that is the whole text stands for itself; at the end of a longer one it adds a word. */
  lemma LastBackslash(x: string)
    requires x != "" && AllSafe(x)
    ensures Split("\\", false) == Some(["\\"])
    ensures Split(x + "\\", false) == Some([x + "undefined"])
  {
    LoneBackslash();
    BackslashEnds(x);
    hide Scan;
    assert |x + "\\"| > 1;
    ScanSafeWord(x, "\\", None, [], true, false);
    assert [] + [x + "undefined"] == [x + "undefined"] && [] + ["\\"] == ["\\"];
  }

  lemma LoneBackslash()
    ensures Scan("\\", START, false, false) == State(NormalArg, None, "\\", [])
  {
    var st := State(NormalArg, None, "\\", []);
    assert "" + ['\\'] == "\\" && "\\"[1..] == "";
    assert Switch(START.(a := "\\"), Some('\\'), false, false) == st;
    ScanNothing(st, false, false);
  }

  lemma BackslashEnds(x: string)
    ensures Scan("\\", State(NormalArg, None, x, []), true, false) == State(NormalArg, None, x + "undefined", [])
  {
    var st := State(NormalArg, None, x + "undefined", []);
    assert x + "" + "undefined" == x + "undefined";
    assert Switch(st, None, true, false) == st;
    ScanNothing(st, true, false);
  }

  // ----- What a shell reads -------------------------------------------------------------------------

  /** The characters that section 2.2 of the POSIX Shell Command Language asks to quote. */
  predicate IsSpecial(c: char) {
    c in "|&;<>()$`\\\"' \t\n*?[#~=%"
  }

  /** A word of the words of a simple command; `None` is anything but literal words. */
  function PosixWords(s: string, word: Option<string>, words: seq<string>): Option<seq<string>>
    decreases |s|
  {
    if s == "" then Some(if word.None? then words else words + [word.value])
    else if s[0] == ' ' then PosixWords(s[1..], None, if word.None? then words else words + [word.value])
    else if s[0] == '"' then PosixQuoted(s[1..], if word.None? then "" else word.value, words)
    else if IsSpecial(s[0]) then None
    else PosixWords(s[1..], Some((if word.None? then "" else word.value) + [s[0]]), words)
  }

  /** Section 2.2.3: in double quotes a dollar sign, a backquote and some backslashes keep their meaning. */
  function PosixQuoted(s: string, word: string, words: seq<string>): Option<seq<string>>
    decreases |s|
  {
    if s == "" || s[0] == '$' || s[0] == '`' then None
    else if s[0] == '"' then PosixWords(s[1..], Some(word), words)
    else if s[0] == '\\' && |s| > 1 && s[1] == '\n' then PosixQuoted(s[2..], word, words)
    else if s[0] == '\\' && |s| > 1 && s[1] in "$`\"\\" then PosixQuoted(s[2..], word + [s[1]], words)
    else PosixQuoted(s[1..], word + [s[0]], words)
  }

  lemma {:induction false} PosixSafe(x: string, rest: string, word: string, words: seq<string>)
    requires AllSafe(x)
    ensures PosixWords(x + rest, Some(word), words) == PosixWords(rest, Some(word + x), words)
    decreases |x|
  {
    hide PosixQuoted;
    if x == "" {
      assert x + rest == rest && word + x == word;
    } else {
      assert (x + rest)[1..] == x[1..] + rest && word + [x[0]] + x[1..] == word + x;
      assert forall i :: 0 <= i < |x[1..]| ==> x[1..][i] == x[i + 1];
      PosixSafe(x[1..], rest, word + [x[0]], words);
    }
  }

  lemma {:induction false} PosixEscaped(x: string, rest: string, word: string, words: seq<string>)
    ensures PosixQuoted(Escaped(x) + "\"" + rest, word, words) == PosixWords(rest, Some(word + x), words)
    decreases |x|
  {
    var s := Escaped(x) + "\"" + rest;
    if x == "" {
      assert s[1..] == rest && word + x == word;
    } else {
      var tail := Escaped(x[1..]) + "\"" + rest;
      EscapedOne(x, rest);
      assert word + [x[0]] + x[1..] == word + x;
      PosixEscaped(x[1..], rest, word + [x[0]], words);
      hide Escaped;
      PosixOne(x[0], tail, word, words);
    }
  }

  lemma PosixOne(c: char, tail: string, word: string, words: seq<string>)
    requires tail != ""
    ensures PosixQuoted((if NeedsEscape(c) then ['\\', c] else [c]) + tail, word, words) ==
      PosixQuoted(tail, word + [c], words)
  {
    if NeedsEscape(c) {
      assert (['\\', c] + tail)[2..] == tail;
    } else {
      assert ([c] + tail)[1..] == tail;
    }
  }

  lemma PosixSafeWord(x: string, rest: string, words: seq<string>)
    requires x != "" && AllSafe(x)
    ensures PosixWords(x + rest, None, words) == PosixWords(rest, Some(x), words)
  {
    hide PosixQuoted;
    assert (x + rest)[1..] == x[1..] + rest && (x + rest)[0] == x[0] && IsSafe(x[0]) && !IsSpecial(x[0]);
    assert forall i :: 0 <= i < |x[1..]| ==> x[1..][i] == x[i + 1];
    PosixSafe(x[1..], rest, "" + [x[0]], words);
    assert "" + [x[0]] + x[1..] == x;
  }

  lemma PosixQuotedWord(x: string, rest: string, words: seq<string>)
    ensures PosixWords("\"" + Escaped(x) + "\"" + rest, None, words) == PosixWords(rest, Some(x), words)
  {
    var s, tail := "\"" + Escaped(x) + "\"" + rest, Escaped(x) + "\"" + rest;
    assert s[0] == '"' && s[1..] == tail;
    PosixEscaped(x, rest, "", words);
    hide Escaped;
    assert "" + x == x && PosixWords(s, None, words) == PosixQuoted(tail, "", words);
  }

  lemma PosixSingle(x: string, rest: string, words: seq<string>)
    ensures PosixWords(Single(x) + rest, None, words) == PosixWords(rest, Some(x), words)
  {
    hide PosixWords;
    if x != "" && AllSafe(x) {
      PosixSafeWord(x, rest, words);
    } else {
      EscapedNothing();
      PosixQuotedWord(x, rest, words);
      hide Escaped;
      assert Single(x) == "\"" + Escaped(x) + "\"";
    }
  }

  /** A POSIX shell reads the words as literal words too: nothing in them is expanded or ends the command. */
  lemma {:induction false} ShellReads(args: seq<string>, words: seq<string>)
    ensures PosixWords(Joined(args), None, words) == Some(words + args)
    decreases |args|
  {
    hide Single;
    if args == [] {
      assert words + args == words;
    } else if |args| == 1 {
      PosixSingle(args[0], "", words);
      assert Single(args[0]) + "" == Single(args[0]) && args == [args[0]];
    } else {
      var tail := Joined(args[1..]);
      PosixSingle(args[0], " " + tail, words);
      assert Joined(args) == Single(args[0]) + (" " + tail) && (" " + tail)[1..] == tail;
      ShellReads(args[1..], words + [args[0]]);
      assert words + [args[0]] + args[1..] == words + args;
    }
  }
}
