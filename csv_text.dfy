/**
 * The text handling of the CSV front end: `String.Split(',')`, which keeps
 * empty fields, `String.Trim()`, which strips the characters .NET calls
 * white space, and the column catalog built from a header line.
 */
module CsvText {

  /** The field separator of the file format. */
  const Comma: char := ','

  /** Number of occurrences of `c` in `s`. */
  function Occurrences(s: string, c: char): nat
  {
    if s == [] then 0 else (if s[0] == c then 1 else 0) + Occurrences(s[1..], c)
  }

  /**
   * `s.Split(sep)`: the pieces between separators, left to right, empty
   * pieces kept, so a string with k separators has k + 1 fields.
   */
  function Split(s: string, sep: char): (fields: seq<string>)
    ensures |fields| == Occurrences(s, sep) + 1
    ensures forall j :: 0 <= j < |fields| ==> sep !in fields[j]
    decreases |s|
  {
    if s == [] then [""]
    else
      var rest := Split(s[1..], sep);
      if s[0] == sep then [""] + rest
      else [[s[0]] + rest[0]] + rest[1..]
  }

  /** `String.Join(sep, fields)`: the inverse of Split. */
  function Join(fields: seq<string>, sep: char): string
  {
    if |fields| == 0 then ""
    else if |fields| == 1 then fields[0]
    else fields[0] + [sep] + Join(fields[1..], sep)
  }

  /** Splitting loses nothing: joining the fields back gives the line. */
  lemma {:induction false} JoinSplit(s: string, sep: char)
    ensures Join(Split(s, sep), sep) == s
    decreases |s|
  {
    if s != [] {
      var rest := Split(s[1..], sep);
      JoinSplit(s[1..], sep);
      if s[0] == sep {
        assert Split(s, sep) == [""] + rest;
        assert ([""] + rest)[1..] == rest;
        assert [sep] + s[1..] == s;
      } else if |rest| == 1 {
        assert Split(s, sep) == [[s[0]] + rest[0]];
        assert [s[0]] + s[1..] == s;
      } else {
        var fields := Split(s, sep);
        assert fields[1..] == rest[1..];
        assert Join(rest, sep) == rest[0] + [sep] + Join(rest[1..], sep);
        assert fields[0] + [sep] + Join(fields[1..], sep) == [s[0]] + Join(rest, sep);
        assert [s[0]] + s[1..] == s;
      }
    }
  }

  /** A piece without separators splits into itself. */
  lemma {:induction false} SplitPlain(f: string, sep: char)
    requires sep !in f
    ensures Split(f, sep) == [f]
    decreases |f|
  {
    if f != [] {
      assert sep !in f[1..] by { assert forall j :: 0 <= j < |f| - 1 ==> f[1..][j] == f[j + 1]; }
      SplitPlain(f[1..], sep);
      assert [f[0]] + f[1..] == f;
    }
  }

  /** A separator-free piece followed by a separator contributes one field. */
  lemma {:induction false} SplitAfterPiece(f: string, sep: char, t: string)
    requires sep !in f
    ensures Split(f + [sep] + t, sep) == [f] + Split(t, sep)
    decreases |f|
  {
    var s := f + [sep] + t;
    if f == [] {
      assert s[0] == sep && s[1..] == t;
    } else {
      assert sep !in f[1..] by { assert forall j :: 0 <= j < |f| - 1 ==> f[1..][j] == f[j + 1]; }
      SplitAfterPiece(f[1..], sep, t);
      assert s[0] == f[0] && s[0] != sep;
      assert s[1..] == f[1..] + [sep] + t;
      var rest := Split(s[1..], sep);
      assert rest == [f[1..]] + Split(t, sep);
      assert [f[0]] + f[1..] == f;
      assert rest[1..] == Split(t, sep);
    }
  }

  /** Joining separator-free fields and splitting again gives the fields back. */
  lemma {:induction false} SplitJoin(fields: seq<string>, sep: char)
    requires |fields| >= 1
    requires forall j :: 0 <= j < |fields| ==> sep !in fields[j]
    ensures Split(Join(fields, sep), sep) == fields
    decreases |fields|
  {
    if |fields| == 1 {
      SplitPlain(fields[0], sep);
    } else {
      SplitJoin(fields[1..], sep);
      SplitAfterPiece(fields[0], sep, Join(fields[1..], sep));
      assert [fields[0]] + fields[1..] == fields;
    }
  }

  /** `char.IsWhiteSpace`: the Unicode space separators, line and paragraph separators and the listed controls. */
  predicate IsWhiteSpace(c: char)
  {
    || ('\t' <= c <= '\r') || c == ' ' || c == '\U{0085}' || c == '\U{00A0}' || c == '\U{1680}'
    || ('\U{2000}' <= c <= '\U{200A}') || c == '\U{2028}' || c == '\U{2029}' || c == '\U{202F}'
    || c == '\U{205F}' || c == '\U{3000}'
  }

  /** Neither the first nor the last character is white space. */
  predicate IsTrimmed(s: string)
  {
    s == [] || (!IsWhiteSpace(s[0]) && !IsWhiteSpace(s[|s| - 1]))
  }

  /** `s.TrimStart()`: drops the white space at the front. */
  function TrimStart(s: string): string
  {
    if s != [] && IsWhiteSpace(s[0]) then TrimStart(s[1..]) else s
  }

  /** `s.TrimEnd()`: drops the white space at the back. */
  function TrimEnd(s: string): string
  {
    if s != [] && IsWhiteSpace(s[|s| - 1]) then TrimEnd(s[..|s| - 1]) else s
  }

  /** `s.Trim()`. */
  function Trim(s: string): string
  {
    TrimEnd(TrimStart(s))
  }

  /**
   * TrimStart leaves a suffix of `s`, reached by dropping only white space,
   * that does not itself start with white space.
   */
  lemma {:induction false} TrimStartShape(s: string)
    ensures var r := TrimStart(s);
      && |r| <= |s| && r == s[|s| - |r|..]
      && (forall j :: 0 <= j < |s| - |r| ==> IsWhiteSpace(s[j]))
      && (r != [] ==> !IsWhiteSpace(r[0]))
    decreases |s|
  {
    if s != [] && IsWhiteSpace(s[0]) {
      TrimStartShape(s[1..]);
      var r := TrimStart(s[1..]);
      assert s[1..][|s| - 1 - |r|..] == s[|s| - |r|..];
      forall j | 0 <= j < |s| - |r| ensures IsWhiteSpace(s[j]) {
        if j > 0 {
          assert s[j] == s[1..][j - 1];
        }
      }
    }
  }

  /**
   * TrimEnd leaves a prefix of `s`, reached by dropping only white space,
   * that does not itself end with white space.
   */
  lemma {:induction false} TrimEndShape(s: string)
    ensures var r := TrimEnd(s);
      && |r| <= |s| && r == s[..|r|]
      && (forall j :: |r| <= j < |s| ==> IsWhiteSpace(s[j]))
      && (r != [] ==> !IsWhiteSpace(r[|r| - 1]))
    decreases |s|
  {
    if s != [] && IsWhiteSpace(s[|s| - 1]) {
      var init := s[..|s| - 1];
      TrimEndShape(init);
      var r := TrimEnd(init);
      assert init[..|r|] == s[..|r|];
      forall j | |r| <= j < |s| ensures IsWhiteSpace(s[j]) {
        if j < |s| - 1 {
          assert s[j] == init[j];
        }
      }
    }
  }

  /**
   * Trim keeps a contiguous middle part of `s`: what it removes on either
   * side is white space, and what it keeps starts and ends with a character
   * that is not.
   */
  lemma TrimKeepsMiddle(s: string)
    ensures IsTrimmed(Trim(s))
    ensures exists a, b :: 0 <= a <= b <= |s| && Trim(s) == s[a..b]
              && (forall j :: 0 <= j < a ==> IsWhiteSpace(s[j]))
              && (forall j :: b <= j < |s| ==> IsWhiteSpace(s[j]))
  {
    var t := TrimStart(s);
    TrimStartShape(s);
    var r := TrimEnd(t);
    TrimEndShape(t);
    var a := |s| - |t|;
    var b := a + |r|;
    assert r != [] ==> r[0] == t[0];
    assert r == s[a..b];
    forall j | b <= j < |s| ensures IsWhiteSpace(s[j]) {
      assert s[j] == t[j - a];
    }
  }

  /** Trimming twice is trimming once. */
  lemma TrimIdempotent(s: string)
    ensures Trim(Trim(s)) == Trim(s)
  {
    TrimKeepsMiddle(s);
    TrimOfTrimmed(Trim(s));
  }

  /** A string that is already trimmed is left alone. */
  lemma TrimOfTrimmed(s: string)
    requires IsTrimmed(s)
    ensures Trim(s) == s
  {
    assert TrimStart(s) == s;
  }

  /**
   * The column catalog of a header line: one name per comma-separated
   * field, in header order, each trimmed. It never contains a comma.
   */
  function HeaderNames(line: string): (names: seq<string>)
    ensures |names| == Occurrences(line, Comma) + 1
    ensures forall j :: 0 <= j < |names| ==> IsTrimmed(names[j]) && Comma !in names[j]
    ensures forall j :: 0 <= j < |names| ==> names[j] == HeaderNameOf(Split(line, Comma)[j])
  {
    var fields := Split(line, Comma);
    seq(|fields|, j requires 0 <= j < |fields| => HeaderNameOf(fields[j]))
  }

  /**
   * The trimmed name of one header field: the field with the white space
   * at both of its ends removed. Trimming never introduces a comma.
   */
  function HeaderNameOf(field: string): (name: string)
    requires Comma !in field
    ensures IsTrimmed(name) && Comma !in name
    ensures exists a, b :: 0 <= a <= b <= |field| && name == field[a..b]
              && (forall j :: 0 <= j < a ==> IsWhiteSpace(field[j]))
              && (forall j :: b <= j < |field| ==> IsWhiteSpace(field[j]))
  {
    TrimKeepsMiddle(field);
    Trim(field)
  }

  /**
   * Round trip of the catalog: names that are trimmed and comma-free,
   * written as a header line, read back as the same names.
   */
  lemma HeaderNamesOfJoined(names: seq<string>)
    requires |names| >= 1
    requires forall j :: 0 <= j < |names| ==> IsTrimmed(names[j]) && Comma !in names[j]
    ensures HeaderNames(Join(names, Comma)) == names
  {
    SplitJoin(names, Comma);
    forall j | 0 <= j < |names| ensures HeaderNames(Join(names, Comma))[j] == names[j] {
      TrimOfTrimmed(names[j]);
    }
  }
}
