/**
 The line reader of util/file.js:63-91. The decoded text of a file comes in the pieces that the reads
 give; each line is reported to a callback that can stop the reading.
*/
module LineReader {

  /** `s.replace(/\r$/, '')`. */
  function StripCr(s: string): string {
    if s != "" && s[|s| - 1] == '\r' then s[..|s| - 1] else s
  }

  function Join(parts: seq<string>): string {
    if parts == [] then "" else Join(parts[..|parts| - 1]) + parts[|parts| - 1]
  }

  // ----- The reference ------------------------------------------------------------------------------

  /** The complete lines of a text, without their line ends, and the text after the last line feed. */
  function Split(text: string): (seq<string>, string)
    decreases |text|
  {
    if text == "" then ([], "")
    else
      var (lines, tail) := Split(text[..|text| - 1]);
      if text[|text| - 1] == '\n' then (lines + [StripCr(tail)], "") else (lines, tail + [text[|text| - 1]])
  }

  /** The lines of a text; an unterminated last line counts unless it is empty. */
  function Lines(text: string): seq<string> {
    var (lines, tail) := Split(text);
    if tail == "" then lines else lines + [tail]
  }

  /** The lines that are reported: up to and including the first that stops the reading. */
  function UpTo(lines: seq<string>, stop: string -> bool): seq<string> {
    if lines == [] then [] else [lines[0]] + if stop(lines[0]) then [] else UpTo(lines[1..], stop)
  }

  /** No line stops the reading. */
  predicate Quiet(lines: seq<string>, stop: string -> bool) {
    forall i :: 0 <= i < |lines| ==> !stop(lines[i])
  }

  // ----- Facts about splitting ------------------------------------------------------------------------

  lemma SplitSnoc(text: string, c: char)
    ensures Split(text + [c]) ==
      var (lines, tail) := Split(text);
      if c == '\n' then (lines + [StripCr(tail)], "") else (lines, tail + [c])
  {
    assert (text + [c])[..|text|] == text;
  }

  lemma SplitEmpty()
    ensures Split("") == ([], "")
  {
  }

  lemma {:induction false} SplitPiece(text: string, piece: string)
    requires '\n' !in piece
    ensures Split(text + piece) == (Split(text).0, Split(text).1 + piece)
  {
    if piece == "" {
      assert text + piece == text && Split(text).1 + piece == Split(text).1;
    } else {
      var front, c := piece[..|piece| - 1], piece[|piece| - 1];
      SplitPiece(text, front);
      SplitSnoc(text + front, c);
      assert text + piece == text + front + [c];
      assert Split(text).1 + front + [c] == Split(text).1 + piece;
    }
  }

  /** Only the last of the first `n` lines may stop, and it must when there are more. */
  predicate EndsAt(lines: seq<string>, n: nat, stop: string -> bool) {
    n <= |lines| && (n == |lines| || (n > 0 && stop(lines[n - 1]))) &&
    forall i :: 0 <= i < n - 1 ==> !stop(lines[i])
  }

  lemma {:induction false} UpToIs(lines: seq<string>, n: nat, stop: string -> bool)
    requires EndsAt(lines, n, stop)
    ensures UpTo(lines, stop) == lines[..n]
  {
    var none: seq<string> := [];
    if lines == [] {
    } else if stop(lines[0]) || n == 1 {
      assert n == 1 && lines[..1] == [lines[0]] + none;
      if !stop(lines[0]) {
        assert lines[1..] == none;
      }
    } else {
      UpToIs(lines[1..], n - 1, stop);
      assert lines[..n] == [lines[0]] + lines[1..][..n - 1];
    }
  }

  /** Text that comes later adds lines after the complete ones. */
  lemma {:induction false} SplitGrows(text: string, more: string)
    ensures Split(text).0 <= Split(text + more).0
  {
    if more == "" {
      assert text + more == text;
    } else {
      var front, c := more[..|more| - 1], more[|more| - 1];
      SplitGrows(text, front);
      SplitSnoc(text + front, c);
      assert text + more == text + front + [c];
    }
  }

  // ----- The reader -----------------------------------------------------------------------------------

  /** The first line feed from `start` on; `|chunk|` when there is none. */
  method IndexOfLf(chunk: string, start: nat) returns (i: nat)
    requires start <= |chunk|
    ensures start <= i <= |chunk| && (i < |chunk| ==> chunk[i] == '\n')
    ensures '\n' !in chunk[start..i]
  {
    i := start;
    while i < |chunk| && chunk[i] != '\n'
      invariant start <= i <= |chunk| && '\n' !in chunk[start..i]
    {
      assert chunk[start..i + 1] == chunk[start..i] + [chunk[i]];
      i := i + 1;
    }
  }

  /** `line_parts` joins to the unfinished line, and none of the parts is empty. */
  ghost predicate Collected(parts: seq<string>, tail: string) {
    Join(parts) == tail && "" !in parts
  }

  /** What is joined when a line ends after `piece` (util/file.js:73-79). */
  method FinishLine(parts: seq<string>, piece: string, ghost tail: string) returns (line: string)
    requires Collected(parts, tail)
    ensures line == StripCr(tail + piece)
  {
    var lineParts := parts;
    if piece != "" {
      lineParts := lineParts + [StripCr(piece)];
      assert lineParts[..|parts|] == parts;
      assert StripCr(tail + piece) == tail + StripCr(piece);
    } else if |lineParts| > 0 {
      var last := |lineParts| - 1;
      assert parts[last] in parts;
      lineParts := lineParts[last := StripCr(lineParts[last])];
      assert lineParts[..last] == parts[..last];
      assert tail + piece == tail && StripCr(tail) == Join(parts[..last]) + StripCr(parts[last]);
    } else {
      assert tail + piece == "";
    }
    line := Join(lineParts);
  }

  function Concat(chunks: seq<string>): string {
    if chunks == [] then "" else Concat(chunks[..|chunks| - 1]) + chunks[|chunks| - 1]
  }

  /** `fread_line_cb_e` (util/file.js:63-91): the lines given to the callback. */
  method ReadLines(chunks: seq<string>, stop: string -> bool) returns (reported: seq<string>)
    ensures reported == UpTo(Lines(Concat(chunks)), stop)
  {
    hide Split, UpTo, StripCr;
    reported := [];
    var lineParts: seq<string> := [];
    SplitEmpty();
    ghost var text := "";
    for k := 0 to |chunks|
      invariant text == Concat(chunks[..k])
      invariant reported == Split(text).0 && Quiet(reported, stop) && Collected(lineParts, Split(text).1)
    {
      var chunk, start := chunks[k], 0;
      assert chunks[..k + 1][..k] == chunks[..k] && text + chunk[..0] == text;
      var lfIdx := IndexOfLf(chunk, 0);
      while lfIdx < |chunk|
        invariant start <= lfIdx <= |chunk| && (lfIdx < |chunk| ==> chunk[lfIdx] == '\n')
        invariant '\n' !in chunk[start..lfIdx]
        invariant var seen := text + chunk[..start];
          reported == Split(seen).0 && Quiet(reported, stop) && Collected(lineParts, Split(seen).1)
        decreases |chunk| - start
      {
        ghost var seen := text + chunk[..start];
        var line := FinishLine(lineParts, chunk[start..lfIdx], Split(seen).1);
        LineEnds(text, chunk, start, lfIdx);
        reported := reported + [line];
        if stop(line) {
          ReportedSoFar(chunks, k, chunk[..lfIdx + 1], reported, stop);
          return;
        }
        lineParts := [];
        start := lfIdx + 1;
        lfIdx := IndexOfLf(chunk, start);
      }
      SplitPiece(text + chunk[..start], chunk[start..]);
      assert text + chunk[..start] + chunk[start..] == text + chunk;
      if start < |chunk| {
        assert (lineParts + [chunk[start..]])[..|lineParts|] == lineParts;
        lineParts := lineParts + [chunk[start..]];
      }
      text := text + chunk;
    }
    assert chunks[..|chunks|] == chunks;
    if |lineParts| > 0 {
      PartsNonEmpty(lineParts);
      reported := reported + [Join(lineParts)];
    }
    UpToIs(reported, |reported|, stop);
    assert reported[..|reported|] == reported;
  }

  lemma PartsNonEmpty(parts: seq<string>)
    requires parts != [] && "" !in parts
    ensures Join(parts) != ""
  {
    assert parts[|parts| - 1] in parts;
  }

  lemma LineEnds(text: string, chunk: string, start: nat, lf: nat)
    requires start <= lf < |chunk| && chunk[lf] == '\n' && '\n' !in chunk[start..lf]
    ensures Split(text + chunk[..lf + 1]) ==
      (Split(text + chunk[..start]).0 + [StripCr(Split(text + chunk[..start]).1 + chunk[start..lf])], "")
  {
    hide Split, StripCr;
    var seen := text + chunk[..start];
    SplitPiece(seen, chunk[start..lf]);
    SplitSnoc(seen + chunk[start..lf], '\n');
    assert chunk[..start] + chunk[start..lf] + ['\n'] == chunk[..lf + 1];
    assert seen + chunk[start..lf] + ['\n'] == text + (chunk[..start] + chunk[start..lf] + ['\n']);
  }

  lemma {:induction false} ConcatSplits(chunks: seq<string>, k: nat)
    requires k <= |chunks|
    ensures exists rest: string :: Concat(chunks) == Concat(chunks[..k]) + rest
    decreases |chunks| - k
  {
    if k == |chunks| {
      assert chunks[..k] == chunks && Concat(chunks) == Concat(chunks) + "";
    } else {
      ConcatSplits(chunks, k + 1);
      var rest: string :| Concat(chunks) == Concat(chunks[..k + 1]) + rest;
      assert chunks[..k + 1][..k] == chunks[..k];
      assert Concat(chunks) == Concat(chunks[..k]) + (chunks[k] + rest);
    }
  }

  /** Stopped in the middle of a chunk: what is reported does not depend on what comes after. */
  lemma ReportedSoFar(chunks: seq<string>, k: nat, front: string, reported: seq<string>, stop: string -> bool)
    requires k < |chunks| && front <= chunks[k]
    requires reported == Split(Concat(chunks[..k]) + front).0 && reported != []
    requires stop(reported[|reported| - 1]) && Quiet(reported[..|reported| - 1], stop)
    ensures reported == UpTo(Lines(Concat(chunks)), stop)
  {
    hide Split, UpTo, StripCr;
    ConcatSplits(chunks, k + 1);
    var rest: string :| Concat(chunks) == Concat(chunks[..k + 1]) + rest;
    assert chunks[..k + 1][..k] == chunks[..k];
    var seen, more := Concat(chunks[..k]) + front, chunks[k][|front|..] + rest;
    assert Concat(chunks) == seen + more;
    SplitGrows(seen, more);
    var lines, n := Lines(Concat(chunks)), |reported|;
    assert reported <= lines;
    assert EndsAt(lines, n, stop) by {
      forall i | 0 <= i < n - 1 ensures !stop(lines[i]) {
        assert lines[i] == reported[..n - 1][i];
      }
    }
    UpToIs(lines, n, stop);
  }

  // ----- Cutting does not matter, and writing lines is undone -----------------------------------------

  function Written(lines: seq<string>): string {
    if lines == [] then "" else Written(lines[..|lines| - 1]) + lines[|lines| - 1] + "\n"
  }

  function StripAll(lines: seq<string>): seq<string> {
    seq(|lines|, i requires 0 <= i < |lines| => StripCr(lines[i]))
  }

  /** Lines that are written with line feeds are read back, each without one final carriage return. */
  lemma {:induction false} ReadBack(lines: seq<string>)
    requires forall i :: 0 <= i < |lines| ==> '\n' !in lines[i]
    ensures Split(Written(lines)) == (StripAll(lines), "")
    ensures Lines(Written(lines)) == lines <==>
      forall i :: 0 <= i < |lines| ==> lines[i] == "" || lines[i][|lines[i]| - 1] != '\r'
  {
    hide Split, StripCr;
    if lines == [] {
      SplitEmpty();
    } else {
      var front, last := lines[..|lines| - 1], lines[|lines| - 1];
      ReadBack(front);
      SplitPiece(Written(front), last);
      SplitSnoc(Written(front) + last, '\n');
      assert "" + last == last;
      assert StripAll(lines) == StripAll(front) + [StripCr(last)];
    }
    NothingStripped(lines);
  }

  lemma NothingStripped(lines: seq<string>)
    ensures StripAll(lines) == lines <==>
      forall i :: 0 <= i < |lines| ==> lines[i] == "" || lines[i][|lines[i]| - 1] != '\r'
  {
    if i :| 0 <= i < |lines| && lines[i] != "" && lines[i][|lines[i]| - 1] == '\r' {
      assert StripAll(lines)[i] != lines[i];
    }
  }

  lemma StripsOne(s: string)
    ensures StripCr(s + "\r") == s
    ensures s == "" || s[|s| - 1] != '\r' ==> StripCr(s) == s
  {
    assert (s + "\r")[..|s|] == s;
  }

  /**
   Every line that ends in CR LF comes without both, and text behind the last line feed is a line unless it
   is empty.
  */
  lemma {:induction false} LastLine(lines: seq<string>, last: string)
    requires '\n' !in last && forall i :: 0 <= i < |lines| ==> '\n' !in lines[i]
    ensures var crs := seq(|lines|, i requires 0 <= i < |lines| => lines[i] + "\r");
      Lines(Written(crs) + last) == lines + if last == "" then [] else [last]
  {
    var crs := seq(|lines|, i requires 0 <= i < |lines| => lines[i] + "\r");
    ReadBack(crs);
    SplitPiece(Written(crs), last);
    assert "" + last == last;
    forall i | 0 <= i < |lines| ensures StripAll(crs)[i] == lines[i] {
      StripsOne(lines[i]);
    }
    assert StripAll(crs) == lines && lines + [] == lines;
  }
}
