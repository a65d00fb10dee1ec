/**
 * The JavaScript string built-ins the client relies on (`split`, `join`,
 * `trim`, `startsWith`, `+=` over a list of pieces), on strings as sequences
 * of characters.
 */
module JsString {
  import opened Sequences

  /** The characters `String.prototype.trim` removes: ECMAScript WhiteSpace and LineTerminator. */
  predicate IsWhitespace(c: char) {
    c == '\t' || c == '\n' || c == '\U{000B}' || c == '\U{000C}' || c == '\r' || c == ' '
    || c == '\U{00A0}' || c == '\U{1680}' || ('\U{2000}' <= c <= '\U{200A}')
    || c == '\U{2028}' || c == '\U{2029}' || c == '\U{202F}' || c == '\U{205F}'
    || c == '\U{3000}' || c == '\U{FEFF}'
  }

  /** `s.startsWith(prefix)`. */
  predicate StartsWith(s: string, prefix: string) {
    |prefix| <= |s| && s[..|prefix|] == prefix
  }

  /** Leading whitespace removed: a suffix of `s` that starts with a non-blank or is empty. */
  function TrimStart(s: string): (r: string)
    ensures |r| <= |s| && r == s[|s| - |r|..]
    ensures forall i :: 0 <= i < |s| - |r| ==> IsWhitespace(s[i])
    ensures r == [] || !IsWhitespace(r[0])
  {
    if |s| > 0 && IsWhitespace(s[0]) then
      var r := TrimStart(s[1..]);
      DropLeadingBlank(s, s[1..], r);
      r
    else s
  }

  /** A suffix of `t == s[1..]` after blanks is a suffix of `s` after blanks, when `s[0]` is blank. */
  lemma DropLeadingBlank(s: string, t: string, r: string)
    requires |s| > 0 && IsWhitespace(s[0]) && t == s[1..]
    requires |r| <= |t| && r == t[|t| - |r|..]
    requires forall i :: 0 <= i < |t| - |r| ==> IsWhitespace(t[i])
    ensures |r| <= |s| && r == s[|s| - |r|..]
    ensures forall i :: 0 <= i < |s| - |r| ==> IsWhitespace(s[i])
  {
    forall i | 0 < i < |s| - |r|
      ensures IsWhitespace(s[i])
    {
      assert s[i] == t[i - 1];
    }
  }

  /** Trailing whitespace removed: a prefix of `s` that ends with a non-blank or is empty. */
  function TrimEnd(s: string): (r: string)
    ensures |r| <= |s| && r == s[..|r|]
    ensures forall i :: |r| <= i < |s| ==> IsWhitespace(s[i])
    ensures r == [] || !IsWhitespace(r[|r| - 1])
  {
    if |s| > 0 && IsWhitespace(s[|s| - 1]) then TrimEnd(s[..|s| - 1]) else s
  }

  /** `s.trim()`: empty exactly when `s` is blank, otherwise bounded by non-blank characters. */
  function Trim(s: string): (r: string)
    ensures r == [] <==> forall i :: 0 <= i < |s| ==> IsWhitespace(s[i])
    ensures r != [] ==> !IsWhitespace(r[0]) && !IsWhitespace(Last(r))
    ensures exists a :: TrimmedAt(s, r, a)
  {
    TrimSlice(s);
    TrimEnds(s);
    TrimBlank(s);
    TrimEnd(TrimStart(s))
  }

  /** Trimming keeps the slice of `s` between its leading and its trailing whitespace. */
  lemma TrimSlice(s: string)
    ensures TrimmedAt(s, TrimEnd(TrimStart(s)), |s| - |TrimStart(s)|)
  {
    var t := TrimStart(s);
    SliceOfSlice(s, t, TrimEnd(t), |s| - |t|);
  }

  /** A prefix `r` of a suffix `t` of `s`, with whitespace around it, is a trim of `s`. */
  lemma SliceOfSlice(s: string, t: string, r: string, a: int)
    requires 0 <= a <= |s| && t == s[a..] && (forall i :: 0 <= i < a ==> IsWhitespace(s[i]))
    requires |r| <= |t| && r == t[..|r|] && (forall i :: |r| <= i < |t| ==> IsWhitespace(t[i]))
    ensures TrimmedAt(s, r, a)
  {
    forall i | a + |r| <= i < |s|
      ensures IsWhitespace(s[i])
    {
      assert s[i] == t[i - a];
    }
  }

  /** Both trims together leave non-blank ends. */
  lemma TrimEnds(s: string)
    ensures TrimEnd(TrimStart(s)) != [] ==> !IsWhitespace(TrimEnd(TrimStart(s))[0])
    ensures TrimEnd(TrimStart(s)) != [] ==> !IsWhitespace(Last(TrimEnd(TrimStart(s))))
  {
    NonBlankEnds(TrimStart(s), TrimEnd(TrimStart(s)));
  }

  /** A prefix of a text that starts with a non-blank, when it ends with a non-blank, has non-blank ends. */
  lemma NonBlankEnds(t: string, r: string)
    requires |r| <= |t| && r == t[..|r|]
    requires t == [] || !IsWhitespace(t[0])
    requires r == [] || !IsWhitespace(r[|r| - 1])
    ensures r != [] ==> !IsWhitespace(r[0]) && !IsWhitespace(Last(r))
  {
    if r != [] {
      assert r[0] == t[0];
    }
  }

  /** Both trims together leave nothing exactly when every character is whitespace. */
  lemma TrimBlank(s: string)
    ensures TrimEnd(TrimStart(s)) == [] <==> forall i :: 0 <= i < |s| ==> IsWhitespace(s[i])
  {
    var r := TrimEnd(TrimStart(s));
    var a := |s| - |TrimStart(s)|;
    TrimSlice(s);
    TrimEnds(s);
    if r != [] {
      assert s[a] == r[0];
    }
  }

  /** `r` is `s` with whitespace removed before index `a` and after index `a + |r|`. */
  predicate TrimmedAt(s: string, r: string, a: int) {
    0 <= a && a + |r| <= |s| && r == s[a..a + |r|]
    && (forall i :: 0 <= i < a ==> IsWhitespace(s[i]))
    && (forall i :: a + |r| <= i < |s| ==> IsWhitespace(s[i]))
  }

  /** `s.split(sep)` for a one-character separator: the pieces between separators, never an empty list. */
  function Split(s: string, sep: char): (r: seq<string>)
    ensures |r| >= 1
    ensures forall i :: 0 <= i < |r| ==> sep !in r[i]
  {
    if |s| == 0 then [""]
    else
      var rest := Split(s[1..], sep);
      if s[0] == sep then [""] + rest
      else [[s[0]] + rest[0]] + rest[1..]
  }

  /** `parts.join(sep)`. */
  function Join(parts: seq<string>, sep: string): string {
    if |parts| == 0 then ""
    else if |parts| == 1 then parts[0]
    else parts[0] + sep + Join(parts[1..], sep)
  }

  /** A join starts with its first piece, followed by the separator when there are more. */
  lemma JoinHead(parts: seq<string>, sep: string)
    ensures |parts| > 0 ==> StartsWith(Join(parts, sep), parts[0])
    ensures |parts| > 1 ==> StartsWith(Join(parts, sep), parts[0] + sep)
  {
    if |parts| > 1 {
      assert Join(parts, sep) == (parts[0] + sep) + Join(parts[1..], sep);
    }
  }

  /** The pieces glued together in order, as repeated `+=` does. */
  function Concat(pieces: seq<string>): string {
    if |pieces| == 0 then "" else pieces[0] + Concat(pieces[1..])
  }

  /** `p` is empty or ends with the separator: it is made of complete lines. */
  predicate EndsAtBoundary(p: string, sep: char) {
    p == [] || p[|p| - 1] == sep
  }

  /** Splitting then joining gives back the original string. */
  lemma {:induction false} JoinSplit(s: string, sep: char)
    ensures Join(Split(s, sep), [sep]) == s
  {
    if |s| > 0 {
      JoinSplit(s[1..], sep);
      var rest := Split(s[1..], sep);
      if s[0] == sep {
        assert Split(s, sep) == [""] + rest;
        assert ([""] + rest)[1..] == rest;
      } else if |rest| == 1 {
        assert Split(s, sep) == [[s[0]] + rest[0]];
      } else {
        var r := Split(s, sep);
        assert r[1..] == rest[1..];
        assert s == [s[0]] + s[1..];
      }
    }
  }

  /** A string free of the separator is a single piece. */
  lemma {:induction false} SplitNoSeparator(s: string, sep: char)
    requires sep !in s
    ensures Split(s, sep) == [s]
  {
    if |s| > 0 {
      SplitNoSeparator(s[1..], sep);
      assert s == [s[0]] + s[1..];
    }
  }

  /** A separator-free line followed by the separator is split off as the first piece. */
  lemma {:induction false} SplitLine(line: string, sep: char, rest: string)
    requires sep !in line
    ensures Split(line + [sep] + rest, sep) == [line] + Split(rest, sep)
  {
    var s := line + [sep] + rest;
    if |line| == 0 {
      assert s == [sep] + rest;
      assert s[1..] == rest;
    } else {
      assert s[1..] == line[1..] + [sep] + rest;
      SplitLine(line[1..], sep, rest);
      assert [s[0]] + line[1..] == line;
    }
  }

  /** Joining separator-free pieces then splitting gives back the pieces. */
  lemma {:induction false} SplitJoin(parts: seq<string>, sep: char)
    requires |parts| >= 1
    requires forall i :: 0 <= i < |parts| ==> sep !in parts[i]
    ensures Split(Join(parts, [sep]), sep) == parts
  {
    if |parts| == 1 {
      SplitNoSeparator(parts[0], sep);
    } else {
      SplitJoin(parts[1..], sep);
      SplitLine(parts[0], sep, Join(parts[1..], [sep]));
      assert parts[0] + [sep] + Join(parts[1..], [sep]) == Join(parts, [sep]);
      assert [parts[0]] + parts[1..] == parts;
    }
  }

  /** One unfolding of `Split` on a string with a known first character. */
  lemma SplitCons(c: char, t: string, sep: char)
    ensures Split([c] + t, sep)
      == if c == sep then [""] + Split(t, sep) else [[c] + Split(t, sep)[0]] + Split(t, sep)[1..]
  {
    assert ([c] + t)[0] == c && ([c] + t)[1..] == t;
  }

  /**
   * Splitting `x + y` keeps the complete pieces of `x` and re-splits its
   * unfinished last piece together with `y`: the carry-over step of a line framer.
   */
  lemma {:induction false} SplitAppend(x: string, y: string, sep: char)
    ensures Split(x + y, sep) == Init(Split(x, sep)) + Split(Last(Split(x, sep)) + y, sep)
  {
    if |x| == 0 {
      assert x + y == y;
    } else {
      var c, x' := x[0], x[1..];
      assert x == [c] + x';
      assert x + y == [c] + (x' + y);
      SplitAppend(x', y, sep);
      SplitAppendStep(c, x', y, sep);
    }
  }

  /** The inductive step of SplitAppend: one more leading character. */
  lemma SplitAppendStep(c: char, x: string, y: string, sep: char)
    requires Split(x + y, sep) == Init(Split(x, sep)) + Split(Last(Split(x, sep)) + y, sep)
    ensures Split([c] + (x + y), sep)
      == Init(Split([c] + x, sep)) + Split(Last(Split([c] + x, sep)) + y, sep)
  {
    SplitCons(c, x, sep);
    SplitCons(c, x + y, sep);
    if c == sep {
      PrependHead("", Split(x, sep), Split(Last(Split(x, sep)) + y, sep));
    } else if |Split(x, sep)| == 1 {
      SplitAppendStepSingle(c, x, y, sep);
    } else {
      SplitAppendStepMany(c, x, y, sep);
    }
  }

  /** SplitAppendStep when `x` holds no separator. */
  lemma SplitAppendStepSingle(c: char, x: string, y: string, sep: char)
    requires c != sep && |Split(x, sep)| == 1
    requires Split(x + y, sep) == Init(Split(x, sep)) + Split(Last(Split(x, sep)) + y, sep)
    ensures Split([c] + (x + y), sep)
      == Init(Split([c] + x, sep)) + Split(Last(Split([c] + x, sep)) + y, sep)
  {
    var s := Split(x, sep);
    SplitCons(c, x, sep);
    SplitCons(c, x + y, sep);
    SingleHead([c] + s[0], s, Split(Last(s) + y, sep));
    Associate3([c], s[0], y);
    SplitCons(c, s[0] + y, sep);
  }

  /** SplitAppendStep when `x` holds a separator. */
  lemma SplitAppendStepMany(c: char, x: string, y: string, sep: char)
    requires c != sep && |Split(x, sep)| > 1
    requires Split(x + y, sep) == Init(Split(x, sep)) + Split(Last(Split(x, sep)) + y, sep)
    ensures Split([c] + (x + y), sep)
      == Init(Split([c] + x, sep)) + Split(Last(Split([c] + x, sep)) + y, sep)
  {
    var s := Split(x, sep);
    SplitCons(c, x, sep);
    SplitCons(c, x + y, sep);
    ReplaceHead([c] + s[0], s, Split(Last(s) + y, sep));
  }

  /** A string made of complete lines leaves an empty unfinished piece. */
  lemma BoundaryLeavesEmptyPiece(p: string, sep: char)
    requires EndsAtBoundary(p, sep)
    ensures Last(Split(p, sep)) == ""
  {
    if p != [] {
      var q := p[..|p| - 1];
      assert p == q + [sep];
      SplitAppend(q, [sep], sep);
      var l := Last(Split(q, sep));
      assert sep !in l;
      SplitLine(l, sep, "");
      assert l + [sep] + "" == l + [sep];
    }
  }

  /** Concatenating one more piece at the end. */
  lemma {:induction false} ConcatSnoc(pieces: seq<string>, piece: string)
    ensures Concat(pieces + [piece]) == Concat(pieces) + piece
  {
    if |pieces| == 0 {
      assert pieces + [piece] == [piece];
    } else {
      assert (pieces + [piece])[1..] == pieces[1..] + [piece];
      ConcatSnoc(pieces[1..], piece);
    }
  }

  /** A single piece concatenates to itself. */
  lemma ConcatSingle(piece: string)
    ensures Concat([piece]) == piece
  {
    assert [piece][1..] == [];
  }

  /** Concatenation distributes over appending lists of pieces. */
  lemma {:induction false} ConcatAppend(a: seq<string>, b: seq<string>)
    ensures Concat(a + b) == Concat(a) + Concat(b)
  {
    if |a| == 0 {
      assert a + b == b;
    } else {
      assert (a + b)[1..] == a[1..] + b;
      ConcatAppend(a[1..], b);
    }
  }

  /** Pieces that are all non-empty concatenate to the empty string only when there are none. */
  lemma {:induction false} ConcatEmpty(pieces: seq<string>)
    requires forall i :: 0 <= i < |pieces| ==> pieces[i] != ""
    ensures Concat(pieces) == "" <==> pieces == []
  {
    if |pieces| > 0 {
      assert |Concat(pieces)| >= |pieces[0]| > 0;
    }
  }
}
