/**
 CSV text (util/csv.js) with the default options: `,` between fields, `"` for quoting, a line feed after
 each row. Rows are arrays of strings.
*/
module Csv {
  import opened Wrappers

  type Row = seq<string>

  // ----- Printing ---------------------------------------------------------------------------------

  /** `v.replace(/"/g, '""')`. */
  function Doubled(v: string): string {
    if v == "" then ""
    else (if v[0] == '"' then "\"\"" else [v[0]]) + Doubled(v[1..])
  }

  predicate QuoteNeeded(v: string) {
    exists i :: 0 <= i < |v| && (v[i] == '"' || v[i] == '\'' || v[i] == '\n' || v[i] == ',')
  }

  /** `escape_field` (util/csv.js:173-193). */
  function EscapeField(v: string): string {
    if QuoteNeeded(v) then "\"" + Doubled(v) + "\"" else v
  }

  function Fields(row: Row): string {
    if row == [] then ""
    else if |row| == 1 then EscapeField(row[0])
    else EscapeField(row[0]) + "," + Fields(row[1..])
  }

  function Lines(rows: seq<Row>): string {
    if rows == [] then "" else Fields(rows[0]) + "\n" + Lines(rows[1..])
  }

  lemma {:induction false} FieldsSnoc(row: Row, v: string)
    requires row != []
    ensures Fields(row + [v]) == Fields(row) + "," + EscapeField(v)
  {
    assert (row + [v])[1..] == row[1..] + [v];
    if |row| == 1 {
      assert row[1..] + [v] == [v];
    } else {
      FieldsSnoc(row[1..], v);
    }
  }

  lemma {:induction false} LinesSnoc(rows: seq<Row>, row: Row)
    ensures Lines(rows + [row]) == Lines(rows) + Fields(row) + "\n"
  {
    if rows == [] {
      assert [row][1..] == [];
    } else {
      assert (rows + [row])[1..] == rows[1..] + [row];
      LinesSnoc(rows[1..], row);
    }
  }

  /** `line_to_str` (util/csv.js:294-299). */
  method LineToStr(vals: Row) returns (s: string)
    ensures s == Fields(vals) + "\n"
  {
    s := "";
    for k := 0 to |vals|
      invariant s == Fields(vals[..k])
    {
      assert vals[..k + 1] == vals[..k] + [vals[k]];
      if k > 0 {
        FieldsSnoc(vals[..k], vals[k]);
      }
      s := s + (if k > 0 then "," else "") + EscapeField(vals[k]);
    }
    assert vals[..|vals|] == vals;
    s := s + "\n";
  }

  /** `to_str` on arrays of arrays (util/csv.js:290-309). */
  method ToStr(rows: seq<Row>) returns (s: string)
    ensures s == Lines(rows)
  {
    s := "";
    for i := 0 to |rows|
      invariant s == Lines(rows[..i])
    {
      assert rows[..i + 1] == rows[..i] + [rows[i]];
      LinesSnoc(rows[..i], rows[i]);
      var line := LineToStr(rows[i]);
      s := s + line;
    }
    assert rows[..|rows|] == rows;
  }

  // ----- Parsing ----------------------------------------------------------------------------------

  datatype Parsed = Rows(rows: seq<Row>) | NoClosingQuote | DelimiterExpected

  /** The rest of a quoted value after its opening quote, and what follows its closing quote. */
  function Quoted(s: string): (r: Option<(string, string)>)
    ensures r.Some? ==> |r.value.1| < |s|
  {
    if s == "" then None
    else if s[0] == '"' && (|s| == 1 || s[1] != '"') then Some(("", s[1..]))
    else
      var (c, tail) := if s[0] == '"' then ('"', s[2..]) else (s[0], s[1..]);
      var (v, rest) :- Quoted(tail);
      Some(([c] + v, rest))
  }

  /** A value without quotes ends before a delimiter. */
  function Plain(s: string): (r: (string, string))
    ensures |r.1| <= |s|
  {
    if s == "" || s[0] == ',' || s[0] == '\n' then ("", s)
    else
      var (v, rest) := Plain(s[1..]);
      ([s[0]] + v, rest)
  }

  /** The value at the start of `s` and what follows it. */
  function Value(s: string): (r: Option<(string, string)>)
    ensures r.Some? ==> |r.value.1| <= |s|
  {
    if s != "" && s[0] == '"' then Quoted(s[1..]) else Some(Plain(s))
  }

  /** The rows of `s`, after the complete rows `rows` and the fields `row` of the row at hand. */
  function Parse(s: string, rows: seq<Row>, row: Row): Parsed
    decreases |s|
  {
    if s == "" then Rows(if row == [] then rows else rows + [row])
    else
      match Value(s)
      case None => NoClosingQuote
      case Some((v, rest)) =>
        if rest == "" then Rows(rows + [row + [v]])
        else if rest == "," then Rows(rows + [row + [v, ""]])
        else if rest[0] == ',' then Parse(rest[1..], rows, row + [v])
        else if rest[0] == '\n' then Parse(rest[1..], rows + [row + [v]], [])
        else DelimiterExpected
  }

  /** `data[i]`, which is undefined past the end. */
  function At(data: string, i: nat): Option<char> {
    if i < |data| then Some(data[i]) else None
  }

  function Behind(value: string, r: Option<(string, string)>): Option<(string, string)> {
    if r.None? then None else Some((value + r.value.0, r.value.1))
  }

  /** The quoted branch of `to_arr` (util/csv.js:52-73), from the opening quote to the closing one. */
  method ReadQuoted(data: string, start: nat) returns (value: string, i: nat, c: Option<char>)
    requires start < |data|
    ensures c == At(data, i) && (c.Some? <==> Quoted(data[start + 1..]).Some?)
    ensures c.Some? ==> Quoted(data[start + 1..]) == Some((value, data[i + 1..]))
  {
    hide Quoted, Behind;
    value, i := "", start + 1;
    c := At(data, i);
    var again := true;
    BehindNothing(Quoted(data[i..]));
    while again
      invariant start < i && c == At(data, i)
      invariant i <= |data| ==> Quoted(data[start + 1..]) == Behind(value, Quoted(data[i..]))
      invariant i > |data| ==> Quoted(data[start + 1..]) == None && !again
      invariant !again ==> c.None? || (c == Some('"') && At(data, i + 1) != Some('"'))
      decreases |data| + 2 - i, again
    {
      if c != Some('"') {
        QuotedStep(data, i, value);
        value := value + (if c.Some? then [c.value] else "undefined");
        i := i + 1;
        c := At(data, i);
      }
      if c == Some('"') {
        if At(data, i + 1) == Some('"') {
          QuotedStep(data, i, value);
          value := value + "\"";
          i := i + 2;
          c := At(data, i);
        }
      }
      again := c.Some? && (c != Some('"') || At(data, i + 1) == Some('"'));
    }
    if i <= |data| {
      QuotedEnd(data, i, value);
    }
  }

  lemma BehindNothing(r: Option<(string, string)>)
    ensures Behind("", r) == r
  {
    if r.Some? {
      assert "" + r.value.0 == r.value.0;
    }
  }

  lemma QuotedEnd(data: string, i: nat, value: string)
    requires i <= |data|
    ensures i == |data| ==> Behind(value, Quoted(data[i..])) == None
    ensures i < |data| && data[i] == '"' && At(data, i + 1) != Some('"') ==>
      Behind(value, Quoted(data[i..])) == Some((value, data[i + 1..]))
  {
    if i < |data| {
      assert data[i..][1..] == data[i + 1..];
      assert value + "" == value;
    }
  }

  lemma QuotedStep(data: string, i: nat, value: string)
    requires i <= |data|
    ensures i == |data| ==> Behind(value, Quoted(data[i..])) == None
    ensures i < |data| && data[i] != '"' ==>
      Behind(value, Quoted(data[i..])) == Behind(value + [data[i]], Quoted(data[i + 1..]))
    ensures i + 1 < |data| && data[i] == '"' && data[i + 1] == '"' ==>
      Behind(value, Quoted(data[i..])) == Behind(value + "\"", Quoted(data[i + 2..]))
  {
    if i < |data| {
      var (k, ch) := if data[i] == '"' then (2, '"') else (1, data[i]);
      if i + k <= |data| {
        assert data[i..][k..] == data[i + k..];
        forall v: string ensures value + ([ch] + v) == value + [ch] + v {
        }
      }
    }
  }

  /** The branch without quotes (util/csv.js:92-96). */
  method ReadPlain(data: string, start: nat) returns (value: string, i: nat)
    requires start <= |data|
    ensures start <= i <= |data| && Plain(data[start..]) == (value, data[i..])
  {
    value, i := "", start;
    assert "" + Plain(data[i..]).0 == Plain(data[i..]).0;
    while i < |data| && data[i] != ',' && data[i] != '\n'
      invariant start <= i <= |data|
      invariant Plain(data[start..]) == (value + Plain(data[i..]).0, Plain(data[i..]).1)
    {
      assert data[i..][1..] == data[i + 1..];
      assert value + ([data[i]] + Plain(data[i + 1..]).0) == value + [data[i]] + Plain(data[i + 1..]).0;
      value := value + [data[i]];
      i := i + 1;
    }
    assert value + "" == value;
  }

  /** `to_arr` (util/csv.js:22-142) with the default options. */
  method ToArr(data: string) returns (r: Parsed)
    ensures r == Parse(data, [], [])
  {
    hide Parse, Value, Quoted, Plain, Remaining, Added;
    var i, row, rows: seq<Row> := 0, 0, [];
    var c := At(data, 0);
    Start(data);
    while c.Some?
      invariant c == At(data, i) && row <= |rows| <= row + 1
      invariant Remaining(data, i, row, rows) == Parse(data, [], [])
      decreases |data| - i
    {
      var value;
      ghost var start, before := i, rows;
      ValueAt(data, start);
      if c == Some('"') {
        value, i, c := ReadQuoted(data, i);
        if c.None? {
          NoValue(data, start, row, rows);
          return NoClosingQuote;
        }
        i := i + 1;
      } else {
        value, i := ReadPlain(data, i);
      }
      c := At(data, i);
      Step(data, start, row, rows, value, i);
      if |rows| <= row {
        rows := rows + [[]];
      }
      rows := rows[row := rows[row] + [value]];
      AddedRow(row, before, rows, value);
      if c == Some('\n') {
        row := row + 1;
      } else if c.Some? && c != Some(',') {
        return DelimiterExpected;
      }
      i := i + 1;
      c := At(data, i);
    }
    Finish(data, i, row, rows);
    if 0 < i <= |data| && data[i - 1] == ',' && row < |rows| {
      rows := rows[row := rows[row] + [""]];
    }
    r := Rows(rows);
  }

  /** The result when the next character is `data[i]`: past the end no field is open any more. */
  function Remaining(data: string, i: nat, row: nat, rows: seq<Row>): Parsed
    requires row <= |rows| <= row + 1
  {
    if i > |data| then Rows(rows)
    else if i == |data| then
      Rows(if 0 < i && data[i - 1] == ',' && row < |rows| then rows[row := rows[row] + [""]] else rows)
    else Parse(data[i..], rows[..row], if row < |rows| then rows[row] else [])
  }

  lemma Start(data: string)
    ensures Remaining(data, 0, 0, []) == Parse(data, [], [])
  {
    assert data[0..] == data;
    var none: seq<Row> := [];
    assert none[..0] == none;
  }

  lemma Finish(data: string, i: nat, row: nat, rows: seq<Row>)
    requires |data| <= i && row <= |rows| <= row + 1
    ensures Remaining(data, i, row, rows) ==
      Rows(if 0 < i <= |data| && data[i - 1] == ',' && row < |rows| then rows[row := rows[row] + [""]] else rows)
  {
  }

  lemma ValueAt(data: string, i: nat)
    requires i < |data|
    ensures Value(data[i..]) == if data[i] == '"' then Quoted(data[i + 1..]) else Some(Plain(data[i..]))
  {
    assert data[i..][1..] == data[i + 1..];
  }

  lemma NoValue(data: string, i: nat, row: nat, rows: seq<Row>)
    requires i < |data| && row <= |rows| <= row + 1 && Value(data[i..]) == None
    ensures Remaining(data, i, row, rows) == NoClosingQuote
  {
  }

  lemma AddedRow(row: nat, before: seq<Row>, rows: seq<Row>, value: string)
    requires row <= |before| <= row + 1
    requires rows == if |before| <= row then (before + [[]])[row := [] + [value]]
      else before[row := before[row] + [value]]
    ensures rows == Added(row, before, value)
  {
    assert [] + [value] == [value];
  }

  function Added(row: nat, rows: seq<Row>, value: string): seq<Row>
    requires row <= |rows| <= row + 1
  {
    if row < |rows| then rows[row := rows[row] + [value]] else rows + [[value]]
  }

  /** One field: the value is added and the delimiter after it decides where the next one goes. */
  lemma Step(data: string, start: nat, row: nat, rows: seq<Row>, value: string, i: nat)
    requires start < |data| && i <= |data| && row <= |rows| <= row + 1
    requires Value(data[start..]) == Some((value, data[i..]))
    ensures var next := Remaining(data, start, row, rows);
      if i == |data| || data[i] == ',' then next == Remaining(data, i + 1, row, Added(row, rows, value))
      else if data[i] == '\n' then next == Remaining(data, i + 1, row + 1, Added(row, rows, value))
      else next == DelimiterExpected
  {
    var before := if row < |rows| then rows[row] else [];
    var added := Added(row, rows, value);
    assert [] + [value] == [value];
    assert added == rows[..row] + [before + [value]] && added[..row + 1] == added;
    assert added[row := added[row] + [""]] == rows[..row] + [before + [value, ""]] by {
      assert before + [value] + [""] == before + [value, ""];
    }
    if i < |data| {
      assert data[i..][1..] == data[i + 1..];
      assert i + 1 == |data| ==> data[i..] == [data[i]];
      assert i + 1 < |data| ==> data[i..] != ",";
      if data[i] == '\n' {
        assert Remaining(data, start, row, rows) == Parse(data[i + 1..], added, []);
        assert i + 1 == |data| ==> data[i + 1..] == "";
      }
    }
  }

  // ----- What is printed is read back ---------------------------------------------------------------

  lemma {:induction false} QuotedDoubled(v: string, rest: string)
    requires rest == "" || rest[0] != '"'
    ensures Quoted(Doubled(v) + "\"" + rest) == Some((v, rest))
  {
    var s := Doubled(v) + "\"" + rest;
    if v == "" {
      assert s[1..] == rest;
    } else {
      QuotedDoubled(v[1..], rest);
      var tail := Doubled(v[1..]) + "\"" + rest;
      assert [v[0]] + v[1..] == v;
      if v[0] == '"' {
        assert s == "\"\"" + tail && s[2..] == tail;
      } else {
        assert s == [v[0]] + tail && s[1..] == tail;
      }
    }
  }

  lemma {:induction false} PlainField(v: string, rest: string)
    requires !QuoteNeeded(v) && (rest == "" || rest[0] == ',' || rest[0] == '\n')
    ensures Plain(v + rest) == (v, rest)
  {
    if v == "" {
      assert v + rest == rest;
    } else {
      assert forall i :: 0 <= i < |v[1..]| ==> v[1..][i] == v[i + 1];
      PlainField(v[1..], rest);
      assert [v[0]] + v[1..] == v;
      assert (v + rest)[1..] == v[1..] + rest;
    }
  }

  lemma ValueOfField(v: string, rest: string)
    requires rest != "" && (rest[0] == ',' || rest[0] == '\n')
    ensures Value(EscapeField(v) + rest) == Some((v, rest))
  {
    hide Quoted, Plain, Doubled, QuoteNeeded;
    if QuoteNeeded(v) {
      QuotedDoubled(v, rest);
      AfterQuote(Doubled(v), rest);
    } else {
      PlainField(v, rest);
      FirstIsPlain(v, rest);
    }
  }

  lemma AfterQuote(text: string, rest: string)
    ensures ("\"" + text + "\"" + rest)[0] == '"' && ("\"" + text + "\"" + rest)[1..] == text + "\"" + rest
  {
  }

  lemma FirstIsPlain(v: string, rest: string)
    requires !QuoteNeeded(v) && rest != "" && rest[0] != '"'
    ensures (v + rest)[0] != '"'
  {
    assert v != "" ==> (v + rest)[0] == v[0];
  }

  lemma ParseLast(s: string, v: string, rest: string, rows: seq<Row>, before: Row)
    requires Value(s) == Some((v, "\n" + rest))
    ensures Parse(s, rows, before) == Parse(rest, rows + [before + [v]], [])
  {
    hide Value;
    assert ("\n" + rest)[1..] == rest;
  }

  lemma ParseNext(s: string, v: string, tail: string, rows: seq<Row>, before: Row)
    requires Value(s) == Some((v, "," + tail)) && tail != ""
    ensures Parse(s, rows, before) == Parse(tail, rows, before + [v])
  {
    hide Value;
    assert ("," + tail)[1..] == tail && "," + tail != ",";
  }

  lemma {:induction false} ParseFields(row: Row, rest: string, rows: seq<Row>, before: Row)
    requires row != []
    ensures Parse(Fields(row) + "\n" + rest, rows, before) == Parse(rest, rows + [before + row], [])
    decreases |row|
  {
    hide EscapeField, Value, Parse;
    var s := Fields(row) + "\n" + rest;
    if |row| == 1 {
      assert s == EscapeField(row[0]) + ("\n" + rest);
      ValueOfField(row[0], "\n" + rest);
      ParseLast(s, row[0], rest, rows, before);
      assert [row[0]] == row;
    } else {
      var tail := Fields(row[1..]) + "\n" + rest;
      assert s == EscapeField(row[0]) + ("," + tail);
      ValueOfField(row[0], "," + tail);
      ParseNext(s, row[0], tail, rows, before);
      ParseFields(row[1..], rest, rows, before + [row[0]]);
      assert before + [row[0]] + row[1..] == before + row;
    }
  }

  /** A row without fields prints as an empty line, and an empty line reads as one empty field. */
  function Normal(row: Row): Row {
    if row == [] then [""] else row
  }

  function NormalRows(rows: seq<Row>): seq<Row> {
    if rows == [] then [] else [Normal(rows[0])] + NormalRows(rows[1..])
  }

  lemma {:induction false} ParseLines(rows: seq<Row>, before: seq<Row>)
    ensures Parse(Lines(rows), before, []) == Rows(before + NormalRows(rows))
    decreases |rows|
  {
    if rows == [] {
      assert before + [] == before;
    } else {
      assert Fields([""]) == "" by {
        assert !QuoteNeeded("");
      }
      ParseFields(Normal(rows[0]), Lines(rows[1..]), before, []);
      assert [] + Normal(rows[0]) == Normal(rows[0]);
      ParseLines(rows[1..], before + [Normal(rows[0])]);
      assert before + [Normal(rows[0])] + NormalRows(rows[1..]) == before + NormalRows(rows);
    }
  }

  /** Printing and reading gives the rows back exactly when no row is without fields. */
  lemma RoundTrip(rows: seq<Row>)
    ensures Parse(Lines(rows), [], []) == Rows(NormalRows(rows))
    ensures Parse(Lines(rows), [], []) == Rows(rows) <==> [] !in rows
  {
    ParseLines(rows, []);
    assert [] + NormalRows(rows) == NormalRows(rows);
    NormalAlready(rows);
  }

  lemma {:induction false} NormalAlready(rows: seq<Row>)
    ensures NormalRows(rows) == rows <==> [] !in rows
  {
    if rows != [] {
      NormalAlready(rows[1..]);
      if NormalRows(rows) == rows {
        assert NormalRows(rows)[1..] == NormalRows(rows[1..]);
        assert rows[0] != [];
        assert forall r :: r in rows ==> r == rows[0] || r in rows[1..];
      }
    }
  }

  // ----- What is quoted, and what is an error -------------------------------------------------------

  /** A value is printed as it is exactly if it has none of the four characters; otherwise it is quoted. */
  lemma QuotedIfNeeded(v: string)
    ensures EscapeField(v) == v <==> forall c :: c in v ==> c !in "\"',\n"
    ensures EscapeField(v) != v ==> EscapeField(v) == "\"" + Doubled(v) + "\""
  {
    if QuoteNeeded(v) {
      DoubledLength(v);
      var i :| 0 <= i < |v| && (v[i] == '"' || v[i] == '\'' || v[i] == '\n' || v[i] == ',');
      assert v[i] in v && |EscapeField(v)| > |v|;
    } else {
      forall c | c in v ensures c !in "\"',\n" {
        var i :| 0 <= i < |v| && v[i] == c;
      }
    }
  }

  lemma {:induction false} DoubledLength(v: string)
    ensures |Doubled(v)| >= |v|
  {
    if v != "" {
      DoubledLength(v[1..]);
    }
  }

  lemma {:induction false} NeverClosed(x: string)
    requires '"' !in x
    ensures Quoted(x) == None
  {
    if x != "" {
      NeverClosed(x[1..]);
    }
  }

  /** A quote that is not closed, and text between a closing quote and the next delimiter, are the two errors. */
  lemma Errors(x: string, rest: string)
    ensures '"' !in x ==> Parse("\"" + x, [], []) == NoClosingQuote
    ensures rest != "" && rest[0] !in "\",\n" ==> Parse("\"" + Doubled(x) + "\"" + rest, [], []) == DelimiterExpected
  {
    var open, s := "\"" + x, "\"" + Doubled(x) + "\"" + rest;
    assert open[1..] == x && s[1..] == Doubled(x) + "\"" + rest;
    if '"' !in x {
      NeverClosed(x);
    }
    if rest != "" && rest[0] !in "\",\n" {
      QuotedDoubled(x, rest);
      assert rest != ",";
    }
  }

  lemma {:induction false} ParseLastFields(row: Row, rows: seq<Row>, before: Row)
    requires row != [] && row != [""]
    ensures Parse(Fields(row), rows, before) == Rows(rows + [before + row])
    decreases |row|
  {
    hide EscapeField, Value, Parse;
    var s := Fields(row);
    if |row| == 1 {
      assert [row[0]] == row;
      LastField(row[0], rows, before);
    } else if row[1..] == [""] {
      NothingToQuote();
      assert s == EscapeField(row[0]) + ",";
      ValueOfField(row[0], ",");
      ParseComma(s, row[0], rows, before);
      assert [row[0], ""] == row;
    } else {
      var tail := Fields(row[1..]);
      assert s == EscapeField(row[0]) + ("," + tail);
      ValueOfField(row[0], "," + tail);
      FieldsNotEmpty(row[1..]);
      ParseNext(s, row[0], tail, rows, before);
      ParseLastFields(row[1..], rows, before + [row[0]]);
      assert before + [row[0]] + row[1..] == before + row;
    }
  }

  lemma NothingToQuote()
    ensures EscapeField("") == "" && Fields([""]) == ""
  {
    assert !QuoteNeeded("");
  }

  lemma FieldsNotEmpty(row: Row)
    requires row != [] && row != [""]
    ensures Fields(row) != ""
  {
    hide QuoteNeeded, Doubled;
    assert |row| == 1 ==> row == [row[0]];
  }

  lemma ParseComma(s: string, v: string, rows: seq<Row>, before: Row)
    requires Value(s) == Some((v, ","))
    ensures Parse(s, rows, before) == Rows(rows + [before + [v, ""]])
  {
    hide Value;
  }

  lemma LastField(v: string, rows: seq<Row>, before: Row)
    requires v != ""
    ensures Parse(EscapeField(v), rows, before) == Rows(rows + [before + [v]])
  {
    hide Quoted, Plain, Doubled, QuoteNeeded;
    if QuoteNeeded(v) {
      QuotedDoubled(v, "");
      AfterQuote(Doubled(v), "");
      assert "\"" + Doubled(v) + "\"" + "" == EscapeField(v) && Doubled(v) + "\"" + "" == Doubled(v) + "\"";
    } else {
      PlainField(v, "");
      FirstNotQuote(v);
      assert v + "" == v;
    }
  }

  lemma FirstNotQuote(v: string)
    requires v != "" && !QuoteNeeded(v)
    ensures v[0] != '"'
  {
  }

  /** Text behind the last line feed is a row too, however its fields end. */
  lemma {:induction false} Unterminated(rows: seq<Row>, row: Row, before: seq<Row>)
    requires row != [] && row != [""]
    ensures Parse(Lines(rows) + Fields(row), before, []) == Rows(before + NormalRows(rows) + [row])
    decreases |rows|
  {
    hide EscapeField, Value, Parse;
    if rows == [] {
      assert "" + Fields(row) == Fields(row) && before + [] == before && [] + row == row;
      assert |row| == 1 ==> row == [row[0]];
      ParseLastFields(row, before, []);
    } else {
      var tail := Lines(rows[1..]) + Fields(row);
      NothingToQuote();
      assert Lines(rows) + Fields(row) == Fields(Normal(rows[0])) + "\n" + tail;
      ParseFields(Normal(rows[0]), tail, before, []);
      assert [] + Normal(rows[0]) == Normal(rows[0]);
      Unterminated(rows[1..], row, before + [Normal(rows[0])]);
      assert before + [Normal(rows[0])] + NormalRows(rows[1..]) == before + NormalRows(rows);
    }
  }

  /** Quotes behind the first character of a value stand for themselves. */
  lemma {:induction false} PlainWhole(v: string)
    requires ',' !in v && '\n' !in v
    ensures Plain(v) == (v, "")
  {
    if v != "" {
      PlainWhole(v[1..]);
      assert [v[0]] + v[1..] == v;
    }
  }

  lemma QuotesInside(v: string)
    requires v != "" && v[0] != '"' && ',' !in v && '\n' !in v
    ensures Parse(v, [], []) == Rows([[v]])
  {
    PlainWhole(v);
    var none: Row := [];
    assert none + [v] == [v];
    assert Value(v) == Some((v, ""));
  }
}
