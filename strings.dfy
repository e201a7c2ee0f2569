/** The handful of Python string builtins the USFM core relies on: `str.isspace`
    and the `\s` class of a regular expression, `str.strip`, `re.sub(r'\s+', ' ', s)`,
    `str.replace('\r\n', '\n')`, `str.split('\n')` and `str.startswith`. */
module Strings {

  /** One whitespace predicate stands for `\s`, `str.isspace` and `str.strip`: the
      ASCII whitespace characters (tab to carriage return, and space), the information
      separators U+001C to U+001F, and the Unicode space, line and paragraph separators. */
  predicate IsWhitespace(c: char) {
    || ('\t' <= c <= '\r') || ('\U{1C}' <= c <= ' ')
    || c == '\U{85}' || c == '\U{A0}' || c == '\U{1680}'
    || ('\U{2000}' <= c <= '\U{200A}') || c == '\U{2028}' || c == '\U{2029}'
    || c == '\U{202F}' || c == '\U{205F}' || c == '\U{3000}'
  }

  predicate AllWhitespace(s: string) {
    forall i :: 0 <= i < |s| ==> IsWhitespace(s[i])
  }

  /** Neither the first nor the last character is whitespace. */
  predicate Trimmed(s: string) {
    s == [] || (!IsWhitespace(s[0]) && !IsWhitespace(s[|s| - 1]))
  }

  /** No two adjacent whitespace characters. */
  predicate SingleSpaced(s: string) {
    forall i :: 0 < i < |s| ==> !IsWhitespace(s[i - 1]) || !IsWhitespace(s[i])
  }

  /** The only whitespace character that occurs is the plain space. */
  predicate OnlyPlainSpaces(s: string) {
    forall i :: 0 <= i < |s| && IsWhitespace(s[i]) ==> s[i] == ' '
  }

  /** Length of the whitespace run that starts at index `i`. */
  function WhitespaceLength(s: string, i: nat): (n: nat)
    requires i <= |s|
    ensures i + n <= |s|
    ensures forall k :: i <= k < i + n ==> IsWhitespace(s[k])
    ensures i + n < |s| ==> !IsWhitespace(s[i + n])
    decreases |s| - i
  {
    if i < |s| && IsWhitespace(s[i]) then 1 + WhitespaceLength(s, i + 1) else 0
  }

  /** Length of the whitespace run that ends the string. */
  function TrailingWhitespace(s: string): (n: nat)
    ensures n <= |s|
    ensures forall k :: |s| - n <= k < |s| ==> IsWhitespace(s[k])
    ensures n < |s| ==> !IsWhitespace(s[|s| - n - 1])
  {
    if s != [] && IsWhitespace(s[|s| - 1]) then 1 + TrailingWhitespace(s[..|s| - 1]) else 0
  }

  /** `s` with its leading whitespace removed (the part of `s.strip()` on the left). */
  function DropWhitespace(s: string): (r: string)
    ensures r == s[WhitespaceLength(s, 0)..]
    ensures r == [] || !IsWhitespace(r[0])
  {
    s[WhitespaceLength(s, 0)..]
  }

  /** `s.strip()`: the longest middle part of `s` that starts and ends with a
      non-whitespace character; what it cuts off on either side is whitespace. */
  function Strip(s: string): (r: string)
    ensures var a := WhitespaceLength(s, 0);
      && a + |r| <= |s| && r == s[a..a + |r|]
      && (forall k :: a + |r| <= k < |s| ==> IsWhitespace(s[k]))
    ensures Trimmed(r)
    ensures r == [] <==> AllWhitespace(s)
  {
    var t := DropWhitespace(s);
    var r := t[..|t| - TrailingWhitespace(t)];
    assert r == [] ==> t == [];
    r
  }

  /** `re.sub(r'\s+', ' ', s)`: every maximal whitespace run becomes one plain space. */
  function CollapseRuns(s: string): (r: string)
    ensures |r| <= |s|
    ensures s != [] ==> r != [] && IsWhitespace(r[0]) == IsWhitespace(s[0])
    ensures SingleSpaced(r) && OnlyPlainSpaces(r)
    ensures AllWhitespace(r) <==> AllWhitespace(s)
    decreases |s|
  {
    if s == [] then []
    else if IsWhitespace(s[0]) then
      var d := DropWhitespace(s);
      var rest := CollapseRuns(d);
      assert AllWhitespace(s) <==> d == [] by {
        if !AllWhitespace(s) {
          var k :| 0 <= k < |s| && !IsWhitespace(s[k]);
          assert k >= WhitespaceLength(s, 0);
        }
      }
      assert AllWhitespace([' '] + rest) <==> rest == [] by {
        if rest != [] { assert ([' '] + rest)[1] == rest[0]; }
      }
      [' '] + rest
    else
      [s[0]] + CollapseRuns(s[1..])
  }

  /** `re.sub(r'\s+', ' ', s).strip()`, the final clean-up of every verse text. */
  function Normalize(s: string): string {
    Strip(CollapseRuns(s))
  }

  /** The cleaned-up text is trimmed, single-spaced and uses only plain spaces, and
      it is empty exactly when the text was blank. */
  lemma NormalizeShape(s: string)
    ensures var r := Normalize(s);
      && Trimmed(r) && SingleSpaced(r) && OnlyPlainSpaces(r)
      && (r == [] <==> AllWhitespace(s))
  {
    var c := CollapseRuns(s);
    var r := Strip(c);
    assert r == c[WhitespaceLength(c, 0)..WhitespaceLength(c, 0) + |r|];
  }

  /** A string that is already trimmed, single-spaced and uses only plain spaces
      is left alone by the clean-up. */
  lemma {:induction false} CollapseRunsFixed(s: string)
    requires SingleSpaced(s) && OnlyPlainSpaces(s)
    ensures CollapseRuns(s) == s
    decreases |s|
  {
    if s != [] {
      if IsWhitespace(s[0]) {
        assert WhitespaceLength(s, 0) == 1 by {
          if |s| > 1 { assert !IsWhitespace(s[1]); }
        }
        assert DropWhitespace(s) == s[1..];
      }
      CollapseRunsFixed(s[1..]);
    }
  }

  /** The verse-text clean-up is idempotent. */
  lemma NormalizeIdempotent(s: string)
    ensures Normalize(Normalize(s)) == Normalize(s)
  {
    var t := Normalize(s);
    NormalizeShape(s);
    CollapseRunsFixed(t);
    assert WhitespaceLength(t, 0) == 0;
    assert TrailingWhitespace(t) == 0;
  }

  /** Dropping the leading whitespace of `x + y`. */
  lemma {:induction false} DropWhitespaceAppend(x: string, y: string)
    ensures AllWhitespace(x) ==> DropWhitespace(x + y) == DropWhitespace(y)
    ensures !AllWhitespace(x) ==> DropWhitespace(x + y) == DropWhitespace(x) + y
    decreases |x|
  {
    if x == [] {
      assert x + y == y;
    } else if IsWhitespace(x[0]) {
      var t := x[1..];
      assert (x + y)[1..] == t + y;
      WhitespaceLengthShift(x + y);
      WhitespaceLengthShift(x);
      DropWhitespaceAppend(t, y);
      assert AllWhitespace(x) <==> AllWhitespace(t) by {
        if AllWhitespace(t) {
          forall i | 0 <= i < |x|
            ensures IsWhitespace(x[i])
          {
            if i > 0 { assert x[i] == t[i - 1]; }
          }
        }
        if AllWhitespace(x) {
          forall i | 0 <= i < |t|
            ensures IsWhitespace(t[i])
          {
            assert t[i] == x[i + 1];
          }
        }
      }
    } else {
      assert !AllWhitespace(x);
      assert WhitespaceLength(x + y, 0) == 0 && WhitespaceLength(x, 0) == 0;
    }
  }

  lemma WhitespaceLengthShift(s: string)
    requires s != [] && IsWhitespace(s[0])
    ensures WhitespaceLength(s, 0) == 1 + WhitespaceLength(s[1..], 0)
    ensures DropWhitespace(s) == DropWhitespace(s[1..])
  {
    WhitespaceLengthFrom(s, 1);
  }

  lemma {:induction false} WhitespaceLengthFrom(s: string, i: nat)
    requires 1 <= i <= |s|
    ensures WhitespaceLength(s, i) == WhitespaceLength(s[1..], i - 1)
    decreases |s| - i
  {
    if i < |s| && IsWhitespace(s[i]) {
      WhitespaceLengthFrom(s, i + 1);
    }
  }

  /** Replacing a whitespace run inside a text by any other non-empty whitespace
      run leaves the collapsed text unchanged: only the words count. */
  lemma {:induction false} CollapseRunsIgnoresRunWidth(a: string, w: string, b: string)
    requires w != [] && AllWhitespace(w)
    ensures CollapseRuns(a + w + b) == CollapseRuns(a + [' '] + b)
    decreases |a|
  {
    var x, y := a + w + b, a + [' '] + b;
    if a == [] {
      assert x == w + b && y == [' '] + b;
      DropWhitespaceAppend(w, b);
      DropWhitespaceAppend([' '], b);
    } else if !IsWhitespace(a[0]) {
      assert x[1..] == a[1..] + w + b && y[1..] == a[1..] + [' '] + b;
      CollapseRunsIgnoresRunWidth(a[1..], w, b);
    } else if AllWhitespace(a) {
      assert AllWhitespace(a + w) && AllWhitespace(a + [' ']);
      assert x == (a + w) + b && y == (a + [' ']) + b;
      DropWhitespaceAppend(a + w, b);
      DropWhitespaceAppend(a + [' '], b);
    } else {
      var d := DropWhitespace(a);
      assert |d| < |a|;
      assert x == a + (w + b) && y == a + ([' '] + b);
      DropWhitespaceAppend(a, w + b);
      DropWhitespaceAppend(a, [' '] + b);
      assert d + (w + b) == d + w + b && d + ([' '] + b) == d + [' '] + b;
      CollapseRunsIgnoresRunWidth(d, w, b);
    }
  }

  /** Extra spaces or line breaks inside a verse body do not change its cleaned-up text. */
  lemma NormalizeIgnoresRunWidth(a: string, w: string, b: string)
    requires w != [] && AllWhitespace(w)
    ensures Normalize(a + w + b) == Normalize(a + " " + b)
  {
    CollapseRunsIgnoresRunWidth(a, w, b);
  }

  /** `s.replace('\r\n', '\n')`: left to right, non-overlapping. */
  function ReplaceCrlf(s: string): (r: string)
    ensures |r| <= |s|
    ensures Count(r, '\n') == Count(s, '\n')
    ensures '\r' !in s ==> r == s
    decreases |s|
  {
    if |s| >= 2 && s[0] == '\r' && s[1] == '\n' then
      assert Count(s, '\n') == Count(s[2..], '\n') + 1 by { assert s[1..][1..] == s[2..]; }
      "\n" + ReplaceCrlf(s[2..])
    else if s == [] then []
    else [s[0]] + ReplaceCrlf(s[1..])
  }

  /** A carriage return stands directly before a line feed at `i`. */
  predicate CrlfAt(s: string, i: int) {
    0 <= i && i + 1 < |s| && s[i] == '\r' && s[i + 1] == '\n'
  }

  /** Text without a CR LF pair is left as it is, lone carriage returns included. */
  lemma {:induction false} ReplaceCrlfNoPair(s: string)
    requires forall i :: !CrlfAt(s, i)
    ensures ReplaceCrlf(s) == s
    decreases |s|
  {
    if s != [] {
      assert !CrlfAt(s, 0);
      forall i
        ensures !CrlfAt(s[1..], i)
      {
        assert !CrlfAt(s, i + 1);
      }
      ReplaceCrlfNoPair(s[1..]);
    }
  }

  /** The replacement distributes over a concatenation that does not cut a CR LF
      pair in two. */
  lemma {:induction false} ReplaceCrlfAppend(a: string, b: string)
    requires !(a != [] && b != [] && a[|a| - 1] == '\r' && b[0] == '\n')
    ensures ReplaceCrlf(a + b) == ReplaceCrlf(a) + ReplaceCrlf(b)
    decreases |a|
  {
    if a == [] {
      assert a + b == b;
    } else if |a| >= 2 && a[0] == '\r' && a[1] == '\n' {
      assert (a + b)[2..] == a[2..] + b;
      ReplaceCrlfAppend(a[2..], b);
    } else {
      assert (a + b)[1..] == a[1..] + b;
      ReplaceCrlfAppend(a[1..], b);
    }
  }

  /** Every CR LF pair becomes a single line feed, wherever it stands. */
  lemma CrlfBecomesLf(a: string, b: string)
    ensures ReplaceCrlf(a + "\r\n" + b) == ReplaceCrlf(a) + "\n" + ReplaceCrlf(b)
  {
    var t := ['\r', '\n'] + b;
    assert a + "\r\n" + b == a + t;
    assert t[2..] == b;
    assert ReplaceCrlf(t) == "\n" + ReplaceCrlf(b);
    ReplaceCrlfAppend(a, t);
  }

  /** Number of occurrences of `c` in `s`. */
  function Count(s: string, c: char): nat {
    if s == [] then 0 else (if s[0] == c then 1 else 0) + Count(s[1..], c)
  }

  /** `s.split(sep)`: always at least one piece, none of which contains `sep`;
      there is one more piece than there are separators. */
  function Split(s: string, sep: char): (r: seq<string>)
    ensures |r| == Count(s, sep) + 1
    ensures forall i :: 0 <= i < |r| ==> sep !in r[i]
    decreases |s|
  {
    if s == [] then [[]]
    else
      var rest := Split(s[1..], sep);
      if s[0] == sep then [[]] + rest
      else [[s[0]] + rest[0]] + rest[1..]
  }

  /** `sep.join(pieces)`, the inverse of `Split`. */
  function Join(pieces: seq<string>, sep: char): string
    requires pieces != []
  {
    if |pieces| == 1 then pieces[0] else pieces[0] + [sep] + Join(pieces[1..], sep)
  }

  /** Splitting loses nothing: joining the pieces gives back the text. */
  lemma {:induction false} JoinSplit(s: string, sep: char)
    ensures Join(Split(s, sep), sep) == s
    decreases |s|
  {
    if s != [] {
      JoinSplit(s[1..], sep);
      var rest := Split(s[1..], sep);
      if s[0] != sep {
        var r := Split(s, sep);
        assert r[1..] == rest[1..];
        if |rest| > 1 {
          assert Join(rest, sep) == rest[0] + [sep] + Join(rest[1..], sep);
        }
      }
    }
  }
}
