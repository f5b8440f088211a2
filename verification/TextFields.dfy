/** A text as the fields between the occurrences of a separator. */
module TextFields {

  function Fields(s: string, sep: char): (fields: seq<string>)
    ensures fields != []
  {
    if s == "" then [""]
    else
      var front, c := Fields(s[..|s| - 1], sep), s[|s| - 1];
      if c == sep then front + [""] else front[..|front| - 1] + [front[|front| - 1] + [c]]
  }

  lemma NoFields(sep: char)
    ensures Fields("", sep) == [""]
  {
  }

  /** A separator starts a field, another character lengthens the last one. */
  lemma FieldsSnoc(s: string, c: char, sep: char)
    ensures var fields, n := Fields(s, sep), |Fields(s, sep)| - 1;
      Fields(s + [c], sep) == if c == sep then fields + [""] else fields[..n] + [fields[n] + [c]]
  {
    assert (s + [c])[..|s|] == s;
  }

  /** More text completes or lengthens the last field, and leaves the ones before it. */
  lemma {:induction false} FieldsGrow(s: string, t: string, sep: char)
    ensures |Fields(s + t, sep)| >= |Fields(s, sep)|
    ensures forall i :: 0 <= i < |Fields(s, sep)| - 1 ==> Fields(s + t, sep)[i] == Fields(s, sep)[i]
    ensures Fields(s, sep)[|Fields(s, sep)| - 1] <= Fields(s + t, sep)[|Fields(s, sep)| - 1]
  {
    hide Fields;
    if t == "" {
      assert s + t == s;
    } else {
      FieldsGrow(s, t[..|t| - 1], sep);
      FieldsSnoc(s + t[..|t| - 1], t[|t| - 1], sep);
      assert s + t == s + t[..|t| - 1] + [t[|t| - 1]];
    }
  }

  lemma {:induction false} FieldsAppend(s: string, piece: string, sep: char)
    requires sep !in piece
    ensures Fields(s + piece, sep)
      == Fields(s, sep)[..|Fields(s, sep)| - 1] + [Fields(s, sep)[|Fields(s, sep)| - 1] + piece]
  {
    hide Fields;
    if piece == "" {
      assert s + piece == s && Fields(s, sep)[|Fields(s, sep)| - 1] + piece == Fields(s, sep)[|Fields(s, sep)| - 1];
    } else {
      var front, c := piece[..|piece| - 1], piece[|piece| - 1];
      FieldsAppend(s, front, sep);
      FieldsSnoc(s + front, c, sep);
      assert s + piece == s + front + [c];
      var before, last := Fields(s, sep)[..|Fields(s, sep)| - 1], Fields(s, sep)[|Fields(s, sep)| - 1];
      assert c != sep && last + front + [c] == last + piece;
      assert (before + [last + front])[..|before|] == before;
    }
  }

  /** A separator and a piece without one add a field. */
  lemma FieldsAdd(s: string, piece: string, sep: char)
    requires sep !in piece
    ensures Fields(s + [sep] + piece, sep) == Fields(s, sep) + [piece]
  {
    assert (s + [sep])[..|s|] == s;
    FieldsAppend(s + [sep], piece, sep);
    assert "" + piece == piece && (Fields(s, sep) + [""])[..|Fields(s, sep)|] == Fields(s, sep);
  }

  /** A separator between two texts leaves the fields of both. */
  lemma {:induction false} FieldsJoin(s: string, t: string, sep: char)
    ensures Fields(s + [sep] + t, sep) == Fields(s, sep) + Fields(t, sep)
  {
    hide Fields;
    if t == "" {
      NoFields(sep);
      FieldsAdd(s, "", sep);
    } else {
      var front, c := t[..|t| - 1], t[|t| - 1];
      FieldsJoin(s, front, sep);
      FieldsSnoc(s + [sep] + front, c, sep);
      FieldsSnoc(front, c, sep);
      assert s + [sep] + t == s + [sep] + front + [c] && t == front + [c];
    }
  }

  lemma OneField(f: string, sep: char)
    requires sep !in f
    ensures Fields(f, sep) == [f]
  {
    NoFields(sep);
    FieldsAppend("", f, sep);
    assert "" + f == f;
  }
}
