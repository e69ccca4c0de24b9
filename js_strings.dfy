/** The few ECMAScript string operations the game relies on: `\s`, `split`,
    `trim`, `toLowerCase` (ASCII letters), filtering out empty pieces. */
module JsStrings {

  /** `\s` in an ECMAScript regular expression: WhiteSpace and LineTerminator.
      `String.prototype.trim` strips exactly the same set. */
  predicate IsWhitespace(c: char)
  {
    || c == '\t' || c == '\n' || c == '\U{000B}' || c == '\U{000C}' || c == '\r' || c == ' '
    || c == '\U{00A0}' || c == '\U{1680}' || ('\U{2000}' <= c <= '\U{200A}')
    || c == '\U{2028}' || c == '\U{2029}' || c == '\U{202F}' || c == '\U{205F}'
    || c == '\U{3000}' || c == '\U{FEFF}'
  }

  /** No character of `s` satisfies `sep`. */
  predicate Free(s: string, sep: char -> bool)
  {
    forall i :: 0 <= i < |s| ==> !sep(s[i])
  }

  /** A slice of a separator-free string is separator-free. */
  lemma FreeSlice(s: string, lo: nat, hi: nat, sep: char -> bool)
    requires Free(s, sep) && lo <= hi <= |s|
    ensures Free(s[lo..hi], sep)
  {
    forall i | 0 <= i < hi - lo ensures !sep(s[lo..hi][i]) {
      assert s[lo..hi][i] == s[lo + i];
    }
  }

  // ---------------------------------------------------------------------------
  // length

  /** The UTF-16 code units of one character: two (a surrogate pair) beyond
      the Basic Multilingual Plane, one otherwise. */
  function CodeUnits(c: char): nat
  {
    if c >= '\U{10000}' then 2 else 1
  }

  /** `s.length`, which counts UTF-16 code units rather than characters. */
  function Utf16Length(s: string): (n: nat)
    ensures |s| <= n <= 2 * |s|
    ensures n == 0 <==> s == []
  {
    if s == [] then 0 else CodeUnits(s[0]) + Utf16Length(s[1..])
  }

  /** The length of a concatenation is the sum of the lengths. */
  lemma {:induction false} Utf16LengthAppend(a: string, b: string)
    ensures Utf16Length(a + b) == Utf16Length(a) + Utf16Length(b)
  {
    if a != [] {
      assert (a + b)[0] == a[0] && (a + b)[1..] == a[1..] + b;
      Utf16LengthAppend(a[1..], b);
    } else {
      assert a + b == b;
    }
  }

  /** Without characters beyond the Basic Multilingual Plane, `length` is the
      number of characters. */
  lemma {:induction false} Utf16LengthBmp(s: string)
    requires forall i :: 0 <= i < |s| ==> s[i] < '\U{10000}'
    ensures Utf16Length(s) == |s|
  {
    if s != [] {
      assert forall i :: 0 <= i < |s| - 1 ==> s[1..][i] == s[i + 1];
      Utf16LengthBmp(s[1..]);
    }
  }

  /** A character beyond the Basic Multilingual Plane counts twice. */
  lemma Utf16LengthAstral(c: char, s: string)
    requires c >= '\U{10000}'
    ensures Utf16Length([c] + s) == Utf16Length(s) + 2
  {
    assert ([c] + s)[1..] == s;
  }

  // ---------------------------------------------------------------------------
  // split

  /** `s.split(/[...]/)` with a one-character class: a piece ends at every
      separator character, so two adjacent separators give an empty piece. */
  function SplitOn(s: string, sep: char -> bool): (r: seq<string>)
    ensures |r| >= 1
  {
    if s == [] then [""]
    else
      var rest := SplitOn(s[1..], sep);
      if sep(s[0]) then [""] + rest else [[s[0]] + rest[0]] + rest[1..]
  }

  /** Drops the run of separator characters at the front of `s`. */
  function SkipRun(s: string, sep: char -> bool): (r: string)
    ensures |r| <= |s| && r == s[|s| - |r|..]
    ensures r == [] || !sep(r[0])
  {
    if s != [] && sep(s[0]) then SkipRun(s[1..], sep) else s
  }

  /** `s.split(re)` where `re` matches a maximal run of separator characters
      (`/\s+/`): one piece between two runs, an empty piece before a leading run
      and after a trailing one. */
  function SplitRuns(s: string, sep: char -> bool): (r: seq<string>)
    ensures |r| >= 1
    decreases |s|
  {
    if s == [] then [""]
    else if sep(s[0]) then [""] + SplitRuns(SkipRun(s[1..], sep), sep)
    else
      var rest := SplitRuns(s[1..], sep);
      [[s[0]] + rest[0]] + rest[1..]
  }

  /** `pieces.filter(p => p.length > 0)`. */
  function NonEmpty(pieces: seq<string>): (r: seq<string>)
    ensures |r| <= |pieces|
    ensures forall i :: 0 <= i < |r| ==> r[i] != []
  {
    if pieces == [] then []
    else if pieces[0] == [] then NonEmpty(pieces[1..])
    else [pieces[0]] + NonEmpty(pieces[1..])
  }

  /** `pieces.join(sep)`. */
  function Join(pieces: seq<string>, sep: string): string
  {
    if pieces == [] then ""
    else if |pieces| == 1 then pieces[0]
    else pieces[0] + sep + Join(pieces[1..], sep)
  }

  lemma {:induction false} SplitOnPiecesFree(s: string, sep: char -> bool)
    ensures forall i :: 0 <= i < |SplitOn(s, sep)| ==> Free(SplitOn(s, sep)[i], sep)
  {
    if s != [] {
      SplitOnPiecesFree(s[1..], sep);
    }
  }

  lemma {:induction false} SplitRunsPiecesFree(s: string, sep: char -> bool)
    ensures forall i :: 0 <= i < |SplitRuns(s, sep)| ==> Free(SplitRuns(s, sep)[i], sep)
    decreases |s|
  {
    if s != [] {
      if sep(s[0]) {
        SplitRunsPiecesFree(SkipRun(s[1..], sep), sep);
      } else {
        SplitRunsPiecesFree(s[1..], sep);
      }
    }
  }

  lemma {:induction false} NonEmptyKeeps(pieces: seq<string>, P: string -> bool)
    requires forall i :: 0 <= i < |pieces| ==> P(pieces[i])
    ensures forall i :: 0 <= i < |NonEmpty(pieces)| ==> P(NonEmpty(pieces)[i])
  {
    if pieces != [] {
      NonEmptyKeeps(pieces[1..], P);
    }
  }

  lemma {:induction false} NonEmptyOfNonEmpty(pieces: seq<string>)
    requires forall i :: 0 <= i < |pieces| ==> pieces[i] != []
    ensures NonEmpty(pieces) == pieces
  {
    if pieces != [] {
      NonEmptyOfNonEmpty(pieces[1..]);
    }
  }

  /** A separator-free string is one piece. */
  lemma {:induction false} SplitOnFree(s: string, sep: char -> bool)
    requires Free(s, sep)
    ensures SplitOn(s, sep) == [s]
  {
    if s != [] {
      SplitOnFree(s[1..], sep);
      assert [s[0]] + s[1..] == s;
    }
  }

  /** A separator-free run followed by a separator is the first piece. */
  lemma {:induction false} SplitOnFirst(a: string, c: char, rest: string, sep: char -> bool)
    requires Free(a, sep) && sep(c)
    ensures SplitOn(a + [c] + rest, sep) == [a] + SplitOn(rest, sep)
  {
    var s := a + [c] + rest;
    if a == [] {
      assert s[1..] == rest;
    } else {
      assert s[1..] == a[1..] + [c] + rest;
      SplitOnFirst(a[1..], c, rest, sep);
      assert [a[0]] + a[1..] == a;
    }
  }

  /** The last piece of a split is whatever follows the last separator. */
  lemma {:induction false} SplitOnLast(a: string, c: char, b: string, sep: char -> bool)
    requires sep(c) && Free(b, sep)
    ensures |SplitOn(a + [c] + b, sep)| >= 2
    ensures SplitOn(a + [c] + b, sep)[|SplitOn(a + [c] + b, sep)| - 1] == b
  {
    var s := a + [c] + b;
    if a == [] {
      assert s[1..] == b;
      SplitOnFree(b, sep);
    } else {
      assert s[1..] == a[1..] + [c] + b;
      SplitOnLast(a[1..], c, b, sep);
    }
  }

  /** A non-separator in front of a string joins its first piece. */
  lemma SplitRunsCons(c: char, s: string, sep: char -> bool)
    requires !sep(c)
    ensures SplitRuns([c] + s, sep) == [[c] + SplitRuns(s, sep)[0]] + SplitRuns(s, sep)[1..]
  {
    assert ([c] + s)[1..] == s;
  }

  /** A non-empty separator-free word followed by anything: the word starts the
      first piece. */
  lemma {:induction false} SplitRunsWordPrefix(w: string, s: string, sep: char -> bool)
    requires w != [] && Free(w, sep)
    ensures SplitRuns(w + s, sep)
         == [w + SplitRuns(s, sep)[0]] + SplitRuns(s, sep)[1..]
    decreases |w|
  {
    var c := w[0];
    if |w| > 1 {
      var u := w[1..] + s;
      assert w + s == [c] + u;
      SplitRunsCons(c, u, sep);
      SplitRunsWordPrefix(w[1..], s, sep);
      assert [c] + (w[1..] + SplitRuns(s, sep)[0]) == w + SplitRuns(s, sep)[0];
    } else {
      assert w + s == [c] + s;
      SplitRunsCons(c, s, sep);
      assert [c] == w;
    }
  }

  /** One separator in front of a word-start leaves an empty first piece. */
  lemma SplitRunsSeparator(c: char, rest: string, sep: char -> bool)
    requires sep(c) && (rest == [] || !sep(rest[0]))
    ensures SplitRuns([c] + rest, sep) == [""] + SplitRuns(rest, sep)
  {
    assert ([c] + rest)[1..] == rest;
    assert SkipRun(rest, sep) == rest;
  }

  /** Round trip: words joined by single separators split back into the words. */
  lemma {:induction false} SplitRunsJoin(ws: seq<string>, c: char, sep: char -> bool)
    requires sep(c)
    requires forall i :: 0 <= i < |ws| ==> ws[i] != [] && Free(ws[i], sep)
    requires ws != []
    ensures SplitRuns(Join(ws, [c]), sep) == ws
    decreases |ws|
  {
    if |ws| == 1 {
      SplitRunsWordPrefix(ws[0], "", sep);
      assert ws[0] + "" == ws[0];
    } else {
      var rest := Join(ws[1..], [c]);
      SplitRunsJoin(ws[1..], c, sep);
      assert Join(ws, [c]) == ws[0] + ([c] + rest);
      JoinStartsWithFirst(ws[1..], [c]);
      SplitRunsSeparator(c, rest, sep);
      SplitRunsWordPrefix(ws[0], [c] + rest, sep);
      assert ws[0] + "" == ws[0];
    }
  }

  lemma {:induction false} JoinStartsWithFirst(ws: seq<string>, sep: string)
    requires ws != [] && ws[0] != []
    ensures Join(ws, sep) != [] && Join(ws, sep)[0] == ws[0][0]
  {
  }

  // ---------------------------------------------------------------------------
  // trim

  /** `s.trimStart()`: drops the leading whitespace, nothing else. */
  function TrimStart(s: string): (r: string)
    ensures |r| <= |s| && r == s[|s| - |r|..]
    ensures r == [] || !IsWhitespace(r[0])
    ensures forall i :: 0 <= i < |s| - |r| ==> IsWhitespace(s[i])
  {
    if s != [] && IsWhitespace(s[0]) then TrimStart(s[1..]) else s
  }

  /** `s.trimEnd()`: drops the trailing whitespace, nothing else. */
  function TrimEnd(s: string): (r: string)
    ensures |r| <= |s| && r == s[..|r|]
    ensures r == [] || !IsWhitespace(r[|r| - 1])
    ensures forall i :: |r| <= i < |s| ==> IsWhitespace(s[i])
  {
    if s != [] && IsWhitespace(s[|s| - 1]) then TrimEnd(s[..|s| - 1]) else s
  }

  /** `s.trim()`. */
  function Trim(s: string): string
  {
    TrimEnd(TrimStart(s))
  }

  /** A trimmed string neither starts nor ends with whitespace. */
  predicate IsTrimmed(s: string)
  {
    s == [] || (!IsWhitespace(s[0]) && !IsWhitespace(s[|s| - 1]))
  }

  lemma TrimIsTrimmed(s: string)
    ensures IsTrimmed(Trim(s))
  {
    var t := TrimStart(s);
    var r := TrimEnd(t);
    if r != [] {
      assert r[0] == t[0];
    }
  }

  // ---------------------------------------------------------------------------
  // toLowerCase

  /** `toLowerCase` of one character, for the 26 ASCII capitals; other
      characters are left alone. */
  function LowerChar(c: char): char
  {
    if 'A' <= c <= 'Z' then (c as int - 'A' as int + 'a' as int) as char else c
  }

  function ToLower(s: string): (r: string)
    ensures |r| == |s|
  {
    seq(|s|, i requires 0 <= i < |s| => LowerChar(s[i]))
  }
}
