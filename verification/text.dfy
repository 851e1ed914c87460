/**
 * String primitives of the JavaScript runtime that the client relies on:
 * `split` with a one-character separator, `trim`, `toLowerCase` (ASCII part),
 * `startsWith`, and decimal rendering of a status code.
 */
module Text {

  /** Everything but the last element of a non-empty sequence. */
  function Init<T>(s: seq<T>): seq<T>
    requires |s| > 0
  {
    s[..|s| - 1]
  }

  /** The last element of a non-empty sequence (`Array.prototype.pop`'s result). */
  function Last<T>(s: seq<T>): T
    requires |s| > 0
  {
    s[|s| - 1]
  }

  /** All chunks glued together, in order. */
  function Concat(chunks: seq<string>): (s: string)
    decreases |chunks|
  {
    if |chunks| == 0 then "" else chunks[0] + Concat(chunks[1..])
  }

  lemma {:induction false} ConcatAppend(a: seq<string>, b: seq<string>)
    ensures Concat(a + b) == Concat(a) + Concat(b)
    decreases |a|
  {
    if |a| == 0 {
      assert a + b == b;
    } else {
      assert (a + b)[1..] == a[1..] + b;
      ConcatAppend(a[1..], b);
    }
  }

  // ---------------------------------------------------------------------------
  // split
  // ---------------------------------------------------------------------------

  /**
   * The pieces of `s` between occurrences of `sep`, as JavaScript's
   * `s.split(sep)` with a one-character separator: there is always at least
   * one piece, and no piece contains the separator.
   */
  function Split(s: string, sep: char): (pieces: seq<string>)
    ensures |pieces| >= 1
    ensures forall i :: 0 <= i < |pieces| ==> sep !in pieces[i]
    decreases |s|
  {
    if |s| == 0 then [""]
    else
      var rest := Split(s[1..], sep);
      if s[0] == sep then [""] + rest
      else [[s[0]] + rest[0]] + rest[1..]
  }

  /** The inverse of `Split`: pieces glued with the separator between them. */
  function Join(pieces: seq<string>, sep: char): string
    decreases |pieces|
  {
    if |pieces| == 0 then ""
    else if |pieces| == 1 then pieces[0]
    else pieces[0] + [sep] + Join(pieces[1..], sep)
  }

  /** A string without the separator is a single piece. */
  lemma {:induction false} SplitWithoutSeparator(s: string, sep: char)
    requires sep !in s
    ensures Split(s, sep) == [s]
    decreases |s|
  {
    if |s| > 0 {
      SplitWithoutSeparator(s[1..], sep);
      assert [s[0]] + s[1..] == s;
    }
  }

  /** One step of `Split`: the first character either ends a piece or joins the first one. */
  lemma SplitCons(c: char, s: string, sep: char)
    ensures Split([c] + s, sep)
         == if c == sep then [""] + Split(s, sep)
            else [[c] + Split(s, sep)[0]] + Split(s, sep)[1..]
  {
    assert ([c] + s)[1..] == s;
  }

  /** A separator splits the pieces apart exactly. */
  lemma {:induction false} SplitAtSeparator(x: string, y: string, sep: char)
    ensures Split(x + [sep] + y, sep) == Split(x, sep) + Split(y, sep)
    decreases |x|
  {
    if |x| == 0 {
      assert x + [sep] + y == [sep] + y;
      SplitCons(sep, y, sep);
    } else {
      var c, x' := x[0], x[1..];
      assert x == [c] + x';
      assert x + [sep] + y == [c] + (x' + [sep] + y);
      SplitAtSeparator(x', y, sep);
      SplitCons(c, x' + [sep] + y, sep);
      SplitCons(c, x', sep);
      ConsPieceAppend(c, Split(x', sep), Split(y, sep));
    }
  }

  /** Both ways `Split` can extend a list of pieces on the left commute with appending more pieces. */
  lemma ConsPieceAppend(c: char, a: seq<string>, b: seq<string>)
    requires |a| >= 1
    ensures [""] + (a + b) == ([""] + a) + b
    ensures [[c] + (a + b)[0]] + (a + b)[1..] == ([[c] + a[0]] + a[1..]) + b
  {
    assert (a + b)[0] == a[0];
    assert (a + b)[1..] == a[1..] + b;
  }

  /** Text without a separator extends the last piece and nothing else. */
  lemma {:induction false} SplitExtendLast(x: string, y: string, sep: char)
    requires sep !in y
    ensures Split(x + y, sep) == Init(Split(x, sep)) + [Last(Split(x, sep)) + y]
    decreases |x|
  {
    if |x| == 0 {
      assert x + y == y;
      SplitWithoutSeparator(y, sep);
    } else {
      var c, x' := x[0], x[1..];
      assert x == [c] + x';
      assert x + y == [c] + (x' + y);
      SplitExtendLast(x', y, sep);
      SplitCons(c, x' + y, sep);
      SplitCons(c, x', sep);
      ExtendLastAfterCons(c, Split(x', sep), y);
    }
  }

  /** Extending the last piece commutes with both ways `Split` extends the pieces on the left. */
  lemma ExtendLastAfterCons(c: char, a: seq<string>, y: string)
    requires |a| >= 1
    ensures var r := Init(a) + [Last(a) + y];
            && [""] + r == Init([""] + a) + [Last([""] + a) + y]
            && [[c] + r[0]] + r[1..]
               == Init([[c] + a[0]] + a[1..]) + [Last([[c] + a[0]] + a[1..]) + y]
  {
    var r := Init(a) + [Last(a) + y];
    assert Init([""] + a) == [""] + Init(a);
    var b := [[c] + a[0]] + a[1..];
    if |a| == 1 {
      assert r == [a[0] + y];
      assert b == [[c] + a[0]];
      assert [c] + (a[0] + y) == [c] + a[0] + y;
    } else {
      assert r[0] == a[0];
      assert r[1..] == Init(a)[1..] + [Last(a) + y];
      assert Init(b) == [[c] + a[0]] + Init(a)[1..];
      assert Last(b) == Last(a);
    }
  }

  /**
   * What stays after the last separator of `x` is carried over: splitting
   * `x + y` is the complete pieces of `x` followed by the split of its last
   * piece joined to `y`.  This is why a decoder that keeps only the last
   * fragment of its buffer loses nothing.
   */
  lemma {:induction false} SplitCarry(x: string, y: string, sep: char)
    ensures Split(x + y, sep) == Init(Split(x, sep)) + Split(Last(Split(x, sep)) + y, sep)
    decreases |y|
  {
    var tail := Last(Split(x, sep));
    if sep !in y {
      SplitExtendLast(x, y, sep);
      SplitWithoutSeparator(tail, sep);
      SplitExtendLast(tail, y, sep);
    } else {
      var i :| 0 <= i < |y| && y[i] == sep;
      var y1, y2 := y[..i], y[i + 1..];
      assert y == y1 + [sep] + y2;
      SplitCarry(x, y1, sep);
      SplitAround(x, y1, y2, sep);
      SplitAround(tail, y1, y2, sep);
      var pre, mid, post := Init(Split(x, sep)), Split(tail + y1, sep), Split(y2, sep);
      assert pre + mid + post == pre + (mid + post);
    }
  }

  /** `SplitAtSeparator` for a separator inside the second half of a concatenation. */
  lemma SplitAround(a: string, y1: string, y2: string, sep: char)
    ensures Split(a + (y1 + [sep] + y2), sep) == Split(a + y1, sep) + Split(y2, sep)
  {
    assert a + (y1 + [sep] + y2) == (a + y1) + [sep] + y2;
    SplitAtSeparator(a + y1, y2, sep);
  }

  /** Gluing the pieces back gives the original string. */
  lemma {:induction false} JoinSplit(s: string, sep: char)
    ensures Join(Split(s, sep), sep) == s
    decreases |s|
  {
    if |s| > 0 {
      var rest := Split(s[1..], sep);
      JoinSplit(s[1..], sep);
      if s[0] == sep {
        assert Split(s, sep) == [""] + rest;
        assert ([""] + rest)[1..] == rest;
        assert [s[0]] + s[1..] == s;
      } else {
        var p := Split(s, sep);
        assert p == [[s[0]] + rest[0]] + rest[1..];
        if |rest| == 1 {
          assert [s[0]] + s[1..] == s;
        } else {
          assert p[1..] == rest[1..];
          assert Join(rest, sep) == rest[0] + [sep] + Join(rest[1..], sep);
          assert [s[0]] + s[1..] == s;
        }
      }
    }
  }

  /** Splitting a join gives back the pieces, when none holds the separator. */
  lemma {:induction false} SplitJoin(pieces: seq<string>, sep: char)
    requires |pieces| >= 1
    requires forall i :: 0 <= i < |pieces| ==> sep !in pieces[i]
    ensures Split(Join(pieces, sep), sep) == pieces
    decreases |pieces|
  {
    if |pieces| == 1 {
      SplitWithoutSeparator(pieces[0], sep);
    } else {
      SplitJoin(pieces[1..], sep);
      SplitWithoutSeparator(pieces[0], sep);
      SplitAtSeparator(pieces[0], Join(pieces[1..], sep), sep);
      assert [pieces[0]] + pieces[1..] == pieces;
    }
  }

  // ---------------------------------------------------------------------------
  // trim
  // ---------------------------------------------------------------------------

  /**
   * The characters `String.prototype.trim` removes: ECMAScript's WhiteSpace
   * (tab, vertical tab, form feed, space, no-break space, the byte-order mark
   * and the space separators) and LineTerminator (line feed, carriage
   * return, line and paragraph separators).
   */
  predicate IsWhitespace(c: char) {
    || c == '\t' || c == '\n' || c == '\U{000B}' || c == '\U{000C}' || c == '\r' || c == ' '
    || c == '\U{00A0}' || c == '\U{1680}' || ('\U{2000}' <= c <= '\U{200A}')
    || c == '\U{2028}' || c == '\U{2029}' || c == '\U{202F}' || c == '\U{205F}' || c == '\U{3000}'
    || c == '\U{FEFF}'
  }

  /** `s` without its leading whitespace. */
  function TrimStart(s: string): string
    decreases |s|
  {
    if |s| > 0 && IsWhitespace(s[0]) then TrimStart(s[1..]) else s
  }

  /** `s` without its trailing whitespace. */
  function TrimEnd(s: string): string
    decreases |s|
  {
    if |s| > 0 && IsWhitespace(s[|s| - 1]) then TrimEnd(s[..|s| - 1]) else s
  }

  /** JavaScript's `s.trim()`. */
  function Trim(s: string): string {
    TrimEnd(TrimStart(s))
  }

  /** `TrimStart` removes a run of whitespace from the front and stops at the first other character. */
  lemma {:induction false} TrimStartSpec(s: string)
    ensures var r := TrimStart(s);
            && |r| <= |s| && r == s[|s| - |r|..]
            && (r == "" || !IsWhitespace(r[0]))
            && forall k :: 0 <= k < |s| - |r| ==> IsWhitespace(s[k])
    decreases |s|
  {
    if |s| > 0 && IsWhitespace(s[0]) {
      TrimStartSpec(s[1..]);
    }
  }

  /** `TrimEnd` removes a run of whitespace from the back and stops at the last other character. */
  lemma {:induction false} TrimEndSpec(s: string)
    ensures var r := TrimEnd(s);
            && |r| <= |s| && r == s[..|r|]
            && (r == "" || !IsWhitespace(r[|r| - 1]))
            && forall k :: |r| <= k < |s| ==> IsWhitespace(s[k])
    decreases |s|
  {
    if |s| > 0 && IsWhitespace(s[|s| - 1]) {
      TrimEndSpec(s[..|s| - 1]);
    }
  }

  /**
   * `trim` keeps the slice of `s` between its first and last
   * non-whitespace characters: the result starts and ends with one, and
   * everything removed is whitespace.  A string of whitespace trims to "".
   */
  lemma TrimSpec(s: string)
    ensures var r := Trim(s);
            && (r == "" || (!IsWhitespace(r[0]) && !IsWhitespace(r[|r| - 1])))
            && (r == "" <==> forall k :: 0 <= k < |s| ==> IsWhitespace(s[k]))
  {
    var t := TrimStart(s);
    TrimStartSpec(s);
    TrimEndSpec(t);
    var r := TrimEnd(t);
    if r == "" {
      assert |t| == 0;
    } else {
      assert r[0] == t[0];
    }
  }

  /** Trimming leaves alone a string that has no whitespace at either end. */
  lemma TrimOfTrimmed(s: string)
    requires s == "" || (!IsWhitespace(s[0]) && !IsWhitespace(s[|s| - 1]))
    ensures Trim(s) == s
  {
  }

  function StartsWith(s: string, prefix: string): bool {
    |prefix| <= |s| && s[..|prefix|] == prefix
  }

  // ---------------------------------------------------------------------------
  // lower case
  // ---------------------------------------------------------------------------

  /** `toLowerCase` on one character, for the ASCII letters. */
  function LowerChar(c: char): (d: char)
    ensures d == '.' <==> c == '.'
    ensures 'a' <= d <= 'z' || d == c
  {
    if 'A' <= c <= 'Z' then (c as int + 32) as char else c
  }

  predicate IsLower(s: string) {
    forall i :: 0 <= i < |s| ==> LowerChar(s[i]) == s[i]
  }

  /** `s.toLowerCase()` for ASCII letters; every other character is kept. */
  function Lower(s: string): (r: string)
    ensures |r| == |s|
    ensures forall i :: 0 <= i < |s| ==> r[i] == LowerChar(s[i])
  {
    seq(|s|, i requires 0 <= i < |s| => LowerChar(s[i]))
  }

  lemma LowerAppend(a: string, b: string)
    ensures Lower(a + b) == Lower(a) + Lower(b)
  {
  }

  /** Lower-casing twice is lower-casing once. */
  lemma LowerIdempotent(s: string)
    ensures IsLower(Lower(s))
    ensures Lower(Lower(s)) == Lower(s)
  {
    assert forall i :: 0 <= i < |s| ==> LowerChar(LowerChar(s[i])) == LowerChar(s[i]);
  }

  // ---------------------------------------------------------------------------
  // decimal rendering
  // ---------------------------------------------------------------------------

  function Digit(d: nat): (c: char)
    requires d < 10
    ensures '0' <= c <= '9'
  {
    ['0', '1', '2', '3', '4', '5', '6', '7', '8', '9'][d]
  }

  /** The decimal rendering of `n` that a template literal `${n}` produces. */
  function NatToString(n: nat): (s: string)
    ensures |s| >= 1
    ensures forall i :: 0 <= i < |s| ==> '0' <= s[i] <= '9'
  {
    if n < 10 then [Digit(n)] else NatToString(n / 10) + [Digit(n % 10)]
  }
}
