/** The line tokenizer: splits USFM text into lines and each line into text runs
    and markers, ending every line with a synthetic newline text token. */
module Tokenizer {
  import opened Wrappers
  import opened Strings

  datatype TokenKind =
    | Book | Chapter | Verse | Text | Paragraph | Character | Note | End
    | Milestone | MilestoneEnd | Attribute | Unknown

  /** One token; `line` is 1-based and `column` 0-based. */
  datatype Token = Token(
    kind: TokenKind,
    marker: Option<string>,
    text: Option<string>,
    data: Option<string>,
    line: int,
    column: int)

  function TextToken(text: string, line: int, column: int): Token {
    Token(Text, None, Some(text), None, line, column)
  }

  /** The synthetic token that ends every line. */
  function NewlineToken(line: int, column: int): Token {
    TextToken("\n", line, column)
  }

  predicate IsNewline(t: Token) {
    t.kind == Text && t.text.Some? && |t.text.value| == 1 && t.text.value[0] == '\n'
  }

  /** A character that may occur in a marker name: neither whitespace nor a backslash. */
  predicate IsNameChar(c: char) {
    !IsWhitespace(c) && c != '\\'
  }

  /** Length of the run of name characters that starts at index `i`. */
  function NameLength(line: string, i: nat): (n: nat)
    requires i <= |line|
    ensures i + n <= |line|
    ensures forall k :: i <= k < i + n ==> IsNameChar(line[k])
    ensures i + n < |line| ==> !IsNameChar(line[i + n])
    decreases |line| - i
  {
    if i < |line| && IsNameChar(line[i]) then 1 + NameLength(line, i + 1) else 0
  }

  /** Length of the run of non-whitespace characters that starts at index `i`. */
  function WordLength(line: string, i: nat): (n: nat)
    requires i <= |line|
    ensures i + n <= |line|
    ensures forall k :: i <= k < i + n ==> !IsWhitespace(line[k])
    ensures i + n < |line| ==> IsWhitespace(line[i + n])
    decreases |line| - i
  {
    if i < |line| && !IsWhitespace(line[i]) then 1 + WordLength(line, i + 1) else 0
  }

  /** A match of the marker pattern `\\([^\s\\]+)(\s+|$)|\\([*])`: where it starts
      and ends, and the marker name (`*` for the second alternative, `star`). */
  datatype Match = Match(start: nat, end: nat, marker: string, star: bool)

  /** The match of the marker pattern that starts at index `i`, if any. The first
      alternative takes the whole run of name characters and needs whitespace or
      the end of the line after it; its trailing whitespace is consumed greedily. */
  function MatchAt(line: string, i: nat): (r: Option<Match>)
    requires i < |line|
    ensures r.Some? ==> r.value.start == i && line[i] == '\\' && i + 2 <= r.value.end <= |line|
  {
    if line[i] != '\\' then None
    else
      var nameEnd := i + 1 + NameLength(line, i + 1);
      if nameEnd > i + 1 && (nameEnd == |line| || IsWhitespace(line[nameEnd])) then
        Some(Match(i, nameEnd + WhitespaceLength(line, nameEnd), line[i + 1..nameEnd], false))
      else if i + 1 < |line| && line[i + 1] == '*' then
        Some(Match(i, i + 2, "*", true))
      else None
  }

  /** What a match is: a backslash, a non-empty name run followed by whitespace or
      the end of the line, and all the whitespace after it; or a backslash-star. */
  lemma MatchAtSound(line: string, i: nat)
    requires i < |line| && MatchAt(line, i).Some?
    ensures !MatchAt(line, i).value.star ==>
      var m := MatchAt(line, i).value;
      var e := i + 1 + |m.marker|;
      && |m.marker| > 0 && e <= m.end && m.marker == line[i + 1..e]
      && (forall k :: i + 1 <= k < e ==> IsNameChar(line[k]))
      && (forall k :: e <= k < m.end ==> IsWhitespace(line[k]))
      && (e < |line| ==> IsWhitespace(line[e]))
      && (m.end < |line| ==> !IsWhitespace(line[m.end]))
    ensures MatchAt(line, i).value.star ==>
      var m := MatchAt(line, i).value;
      m.end == i + 2 && line[i + 1] == '*' && m.marker == "*"
  {
  }

  /** The pattern matches wherever a backslash is followed by a non-empty run of
      name characters that ends at whitespace or at the end of the line. */
  lemma MatchAtComplete(line: string, i: nat, e: nat)
    requires i + 1 < e <= |line| && line[i] == '\\'
    requires forall k :: i + 1 <= k < e ==> IsNameChar(line[k])
    requires e == |line| || IsWhitespace(line[e])
    ensures MatchAt(line, i).Some? && !MatchAt(line, i).value.star
    ensures MatchAt(line, i).value.marker == line[i + 1..e]
  {
    NameLengthMaximal(line, i + 1, e);
  }

  /** A backslash-star is always matched: as the closing-marker alternative, or as
      a name starting with `*` when whitespace or the end of the line follows the
      name run. */
  lemma StarAlwaysMatched(line: string, i: nat)
    requires i + 1 < |line| && line[i] == '\\' && line[i + 1] == '*'
    ensures MatchAt(line, i).Some? && MatchAt(line, i).value.marker != []
    ensures MatchAt(line, i).value.marker[0] == '*'
  {
  }

  lemma {:induction false} NameLengthMaximal(line: string, i: nat, e: nat)
    requires i <= e <= |line|
    requires forall k :: i <= k < e ==> IsNameChar(line[k])
    requires e == |line| || !IsNameChar(line[e])
    ensures i + NameLength(line, i) == e
    decreases e - i
  {
    if i < e {
      NameLengthMaximal(line, i + 1, e);
    }
  }

  /** `regex.search(line, pos)` for the marker pattern: the leftmost match at or after `pos`. */
  function FindMarker(line: string, pos: nat): (r: Option<Match>)
    requires pos <= |line|
    ensures r.Some? ==> pos <= r.value.start < |line| && MatchAt(line, r.value.start) == r
    decreases |line| - pos
  {
    if pos == |line| then None
    else if MatchAt(line, pos).Some? then MatchAt(line, pos)
    else FindMarker(line, pos + 1)
  }

  /** The search finds the leftmost match: there is none between `pos` and the one
      it returns, and none at all when it returns nothing. */
  lemma {:induction false} FindMarkerLeftmost(line: string, pos: nat)
    requires pos <= |line|
    ensures var r := FindMarker(line, pos);
      forall i :: pos <= i < (if r.Some? then r.value.start else |line|) ==> MatchAt(line, i).None?
    decreases |line| - pos
  {
    if pos < |line| && MatchAt(line, pos).None? {
      FindMarkerLeftmost(line, pos + 1);
    }
  }

  /** The token type a marker name gets: `id`, `c` and `v` first, then the paragraph
      prefixes `q`, `p`, `m`, then a closing `*`, and character style otherwise. */
  function Classify(marker: string): TokenKind {
    if marker == "id" then Book
    else if marker == "c" then Chapter
    else if marker == "v" then Verse
    else if |marker| > 0 && marker[0] in "qpm" then Paragraph
    else if |marker| > 0 && marker[|marker| - 1] == '*' then End
    else Character
  }

  /** The classification never yields an unknown or text type; book, chapter and
      verse are exactly `id`, `c` and `v`; a paragraph prefix wins over a closing
      star, which wins over character style. */
  lemma ClassifyPrecedence(marker: string)
    ensures var k := Classify(marker);
      && k in {Book, Chapter, Verse, Paragraph, End, Character}
      && (k == Book <==> marker == "id")
      && (k == Chapter <==> marker == "c")
      && (k == Verse <==> marker == "v")
      && (k == Paragraph <==> marker !in {"id", "c", "v"} && |marker| > 0 && marker[0] in "qpm")
      && (k == End <==>
            marker !in {"id", "c", "v"} && |marker| > 0 && marker[0] !in "qpm" && marker[|marker| - 1] == '*')
  {
  }

  /** Book, chapter and verse markers are the ones that capture data. */
  predicate CapturesData(k: TokenKind) {
    k == Book || k == Chapter || k == Verse
  }

  /** `regex.search(r'\S+', line[p:])`: the first run of non-whitespace characters after `p`. */
  function DataAfter(line: string, p: nat): Option<string>
    requires p <= |line|
  {
    var q := p + WhitespaceLength(line, p);
    var n := WordLength(line, q);
    if n == 0 then None else Some(line[q..q + n])
  }

  /** There is data exactly when the rest of the line is not all whitespace. */
  lemma DataAfterNone(line: string, p: nat)
    requires p <= |line|
    ensures DataAfter(line, p).None? <==> AllWhitespace(line[p..])
  {
    AllWhitespaceSuffix(line, p);
  }

  /** The data is the maximal non-whitespace run after the whitespace that follows `p`. */
  lemma DataAfterSome(line: string, p: nat)
    requires p <= |line| && DataAfter(line, p).Some?
    ensures var d := DataAfter(line, p).value;
      var q := p + WhitespaceLength(line, p);
      && |d| > 0 && q + |d| <= |line| && d == line[q..q + |d|]
      && (forall k :: p <= k < q ==> IsWhitespace(line[k]))
      && (forall k :: 0 <= k < |d| ==> !IsWhitespace(d[k]))
      && (q + |d| < |line| ==> IsWhitespace(line[q + |d|]))
  {
    var q := p + WhitespaceLength(line, p);
    var n := WordLength(line, q);
    WordSlice(line, q, n);
    assert DataAfter(line, p).value == line[q..q + n];
  }

  lemma WordSlice(line: string, q: nat, n: nat)
    requires q <= |line| && n == WordLength(line, q)
    ensures var w := line[q..q + n];
      && |w| == n
      && (forall k :: 0 <= k < n ==> !IsWhitespace(w[k]))
      && (q + n < |line| ==> IsWhitespace(line[q + n]))
  {
    var w := line[q..q + n];
    forall k | 0 <= k < n
      ensures !IsWhitespace(w[k])
    {
      assert w[k] == line[q + k];
    }
  }

  /** The rest of a line from `p` is all whitespace exactly when the whitespace
      run at `p` reaches the end of the line. */
  lemma AllWhitespaceSuffix(line: string, p: nat)
    requires p <= |line|
    ensures AllWhitespace(line[p..]) <==> p + WhitespaceLength(line, p) == |line|
  {
    var q := p + WhitespaceLength(line, p);
    if q < |line| {
      assert line[p..][q - p] == line[q];
    }
  }

  /** The token for a marker match on line `lineNumber`. */
  function MarkerToken(line: string, lineNumber: int, m: Match): (t: Token)
    requires m.end <= |line|
  {
    if m.star then Token(End, Some("*"), None, None, lineNumber, m.start)
    else
      var kind := Classify(m.marker);
      Token(kind, Some(m.marker), None, if CapturesData(kind) then DataAfter(line, m.end) else None,
            lineNumber, m.start)
  }

  /** The tokens of `line` from index `pos` on, before the closing newline token. */
  function ScanFrom(line: string, lineNumber: int, pos: nat): seq<Token>
    requires pos <= |line|
    decreases |line| - pos, 1
  {
    if pos == |line| then [] else ScanAt(line, lineNumber, pos, FindMarker(line, pos))
  }

  /** The tokens of `line` from index `pos` on, given the result of the search from
      `pos`: the text before the match, the marker token, and the scan from the end
      of the match (not from after the data the marker captured). */
  function ScanAt(line: string, lineNumber: int, pos: nat, found: Option<Match>): seq<Token>
    requires pos < |line|
    requires found.Some? ==> pos <= found.value.start && found.value.start + 2 <= found.value.end <= |line|
    decreases |line| - pos, 0
  {
    match found
    case None => [TextToken(line[pos..], lineNumber, pos)]
    case Some(m) =>
      (if m.start > pos then [TextToken(line[pos..m.start], lineNumber, pos)] else [])
      + [MarkerToken(line, lineNumber, m)]
      + ScanFrom(line, lineNumber, m.end)
  }

  /** All tokens of one line. */
  function LineTokens(line: string, lineNumber: int): seq<Token> {
    ScanFrom(line, lineNumber, 0) + [NewlineToken(lineNumber, |line|)]
  }

  /** The tokens of consecutive lines, the first of which is numbered `first`. */
  function LinesTokens(lines: seq<string>, first: int): seq<Token>
    decreases |lines|
  {
    if lines == [] then []
    else
      var n := |lines| - 1;
      LinesTokens(lines[..n], first) + LineTokens(lines[n], first + n)
  }

  /** The lines of a text: CRLF becomes LF, then the text is split at LF. */
  function Lines(text: string): seq<string> {
    Split(ReplaceCrlf(text), '\n')
  }

  /** All tokens of a text. */
  function Tokens(text: string): seq<Token> {
    LinesTokens(Lines(text), 1)
  }

  /** Tokenizes one line and appends its tokens to `tokens`. */
  method TokenizeLine(line: string, lineNumber: int, tokens: seq<Token>) returns (result: seq<Token>)
    ensures result == tokens + LineTokens(line, lineNumber)
  {
    result := tokens;
    var pos := 0;
    while pos < |line|
      invariant pos <= |line|
      invariant result + ScanFrom(line, lineNumber, pos) == tokens + ScanFrom(line, lineNumber, 0)
      decreases |line| - pos
    {
      var found := FindMarker(line, pos);
      if found.Some? {
        var m := found.value;
        ScanStepMarker(line, lineNumber, pos, result, m);
        if m.start > pos {
          result := result + [TextToken(line[pos..m.start], lineNumber, pos)];
        }
        var token := ProcessMarker(line, lineNumber, m);
        result := result + [token];
        pos := m.end;
      } else {
        ScanStepText(line, lineNumber, pos);
        result := result + [TextToken(line[pos..], lineNumber, pos)];
        pos := |line|;
      }
    }
    AppendAssoc(tokens, ScanFrom(line, lineNumber, 0), [NewlineToken(lineNumber, |line|)]);
    result := result + [NewlineToken(lineNumber, |line|)];
  }

  /** Builds the token for a marker match: an end token for `\*`, otherwise the
      marker's classified type, with the data after it for book, chapter and verse. */
  method ProcessMarker(line: string, lineNumber: int, m: Match) returns (token: Token)
    requires m.end <= |line|
    ensures token == MarkerToken(line, lineNumber, m)
    ensures token.kind != Unknown && token.kind != Text && token.column == m.start
    ensures token.data.Some? ==> CapturesData(token.kind)
  {
    if m.star {
      token := Token(End, Some("*"), None, None, lineNumber, m.start);
    } else {
      var kind := Classify(m.marker);
      var data := None;
      if CapturesData(kind) {
        data := DataAfter(line, m.end);
      }
      token := Token(kind, Some(m.marker), None, data, lineNumber, m.start);
    }
  }

  /** One step of the scan when a marker is found: the text before it, its token,
      then the scan from the end of the match. */
  lemma ScanStepMarker(line: string, lineNumber: int, pos: nat, before: seq<Token>, m: Match)
    requires pos < |line| && FindMarker(line, pos) == Some(m)
    ensures pos < m.end <= |line|
    ensures (if m.start > pos then before + [TextToken(line[pos..m.start], lineNumber, pos)] else before)
      + [MarkerToken(line, lineNumber, m)] + ScanFrom(line, lineNumber, m.end)
      == before + ScanFrom(line, lineNumber, pos)
  {
    ScanFromMarker(line, lineNumber, pos, m);
    InsertAssoc(before, m.start > pos, TextToken(line[pos..m.start], lineNumber, pos),
      MarkerToken(line, lineNumber, m), ScanFrom(line, lineNumber, m.end));
  }

  lemma ScanFromMarker(line: string, lineNumber: int, pos: nat, m: Match)
    requires pos < |line| && FindMarker(line, pos) == Some(m)
    ensures pos < m.end <= |line|
    ensures ScanFrom(line, lineNumber, pos)
      == (if m.start > pos then [TextToken(line[pos..m.start], lineNumber, pos)] else [])
         + [MarkerToken(line, lineNumber, m)] + ScanFrom(line, lineNumber, m.end)
  {
  }

  lemma InsertAssoc<T>(before: seq<T>, c: bool, x: T, t: T, rest: seq<T>)
    ensures (if c then before + [x] else before) + [t] + rest
      == before + ((if c then [x] else []) + [t] + rest)
  {
    if !c {
      assert [] + [t] + rest == [t] + rest;
    }
  }

  /** The last step of the scan when no marker follows: the rest of the line is text. */
  lemma ScanStepText(line: string, lineNumber: int, pos: nat)
    requires pos < |line| && FindMarker(line, pos).None?
    ensures ScanFrom(line, lineNumber, pos) == [TextToken(line[pos..], lineNumber, pos)]
    ensures ScanFrom(line, lineNumber, |line|) == []
  {
  }

  lemma AppendAssoc<T>(a: seq<T>, b: seq<T>, c: seq<T>)
    ensures (a + b) + c == a + (b + c)
  {
  }

  /** Tokenizes a whole text, numbering its lines from 1. */
  method Tokenize(text: string) returns (tokens: seq<Token>)
    ensures tokens == Tokens(text)
  {
    var lines := Split(ReplaceCrlf(text), '\n');
    tokens := [];
    var lineNumber := 1;
    for i := 0 to |lines|
      invariant lineNumber == i + 1
      invariant tokens == LinesTokens(lines[..i], 1)
    {
      tokens := TokenizeLine(lines[i], lineNumber, tokens);
      assert lines[..i + 1][..i] == lines[..i];
      lineNumber := lineNumber + 1;
    }
    assert lines[..|lines|] == lines;
  }

  /** What every token of a line's scan satisfies: it carries the line number, a
      known type and a column inside the line; text tokens are exactly the ones with
      text, and their text is the non-empty part of the line at their column; marker
      tokens start at a backslash and name a marker; only book, chapter and verse
      tokens carry data. */
  predicate TokenOk(line: string, lineNumber: int, t: Token) {
    && t.line == lineNumber && t.kind != Unknown
    && 0 <= t.column < |line|
    && (t.kind == Text <==> t.text.Some?)
    && (t.text.Some? ==>
          var k := |t.text.value|;
          k > 0 && t.column + k <= |line| && t.text.value == line[t.column..t.column + k])
    && (t.kind != Text ==> line[t.column] == '\\' && t.marker.Some?)
    && (t.data.Some? ==> CapturesData(t.kind))
  }

  /** All tokens are well formed, start at or after `pos` and come in strictly
      increasing column order. */
  predicate ScanOk(line: string, lineNumber: int, pos: int, toks: seq<Token>) {
    && (forall i :: 0 <= i < |toks| ==> TokenOk(line, lineNumber, toks[i]) && pos <= toks[i].column)
    && (forall i, j :: 0 <= i < j < |toks| ==> toks[i].column < toks[j].column)
  }

  /** The scan of a line from `pos` yields well-formed tokens in column order. */
  lemma {:induction false} ScanFromOk(line: string, lineNumber: int, pos: nat)
    requires pos <= |line|
    ensures ScanOk(line, lineNumber, pos, ScanFrom(line, lineNumber, pos))
    decreases |line| - pos
  {
    if pos < |line| {
      var found := FindMarker(line, pos);
      if found.None? {
        ScanStepText(line, lineNumber, pos);
      } else {
        var m := found.value;
        ScanFromMarker(line, lineNumber, pos, m);
        ScanFromOk(line, lineNumber, m.end);
        var head := (if m.start > pos then [TextToken(line[pos..m.start], lineNumber, pos)] else [])
          + [MarkerToken(line, lineNumber, m)];
        ScanHeadOk(line, lineNumber, pos, m);
        ScanOkAppend(line, lineNumber, pos, head, m.end, ScanFrom(line, lineNumber, m.end));
      }
    }
  }

  lemma ScanHeadOk(line: string, lineNumber: int, pos: nat, m: Match)
    requires pos <= m.start < |line| && MatchAt(line, m.start) == Some(m)
    ensures var head := (if m.start > pos then [TextToken(line[pos..m.start], lineNumber, pos)] else [])
      + [MarkerToken(line, lineNumber, m)];
      && ScanOk(line, lineNumber, pos, head)
      && forall i :: 0 <= i < |head| ==> head[i].column < m.end
  {
    MarkerTokenOk(line, lineNumber, m);
    TextThenTokenOk(line, lineNumber, pos, m.end, MarkerToken(line, lineNumber, m));
  }

  /** The optional text run before a well-formed token, then the token, are well
      formed and in column order. */
  lemma TextThenTokenOk(line: string, lineNumber: int, pos: nat, end: int, t: Token)
    requires TokenOk(line, lineNumber, t) && pos <= t.column < end
    ensures var head := (if t.column > pos then [TextToken(line[pos..t.column], lineNumber, pos)] else []) + [t];
      && ScanOk(line, lineNumber, pos, head)
      && forall i :: 0 <= i < |head| ==> head[i].column < end
  {
    if t.column > pos {
      var x := TextToken(line[pos..t.column], lineNumber, pos);
      assert TokenOk(line, lineNumber, x);
      ScanOkPair(line, lineNumber, pos, x, t);
      assert ([] + [x]) + [t] == [x] + [t];
    } else {
      assert [] + [t] == [t];
    }
  }

  lemma ScanOkPair(line: string, lineNumber: int, pos: int, x: Token, t: Token)
    requires TokenOk(line, lineNumber, x) && TokenOk(line, lineNumber, t)
    requires pos <= x.column < t.column
    ensures ScanOk(line, lineNumber, pos, [x] + [t])
  {
    assert ([x] + [t])[0] == x && ([x] + [t])[1] == t;
  }

  lemma MarkerTokenOk(line: string, lineNumber: int, m: Match)
    requires m.start < |line| && MatchAt(line, m.start) == Some(m)
    ensures TokenOk(line, lineNumber, MarkerToken(line, lineNumber, m))
    ensures MarkerToken(line, lineNumber, m).column == m.start
  {
  }

  lemma ScanOkAppend(line: string, lineNumber: int, pos: int, xs: seq<Token>, mid: int, ys: seq<Token>)
    requires ScanOk(line, lineNumber, pos, xs) && ScanOk(line, lineNumber, mid, ys)
    requires pos <= mid && forall i :: 0 <= i < |xs| ==> xs[i].column < mid
    ensures ScanOk(line, lineNumber, pos, xs + ys)
  {
    var zs := xs + ys;
    forall i, j | 0 <= i < j < |zs|
      ensures zs[i].column < zs[j].column
    {
      if j < |xs| {
      } else if i < |xs| {
        assert zs[j] == ys[j - |xs|];
      } else {
        assert zs[i] == ys[i - |xs|] && zs[j] == ys[j - |xs|];
      }
    }
  }

  /** The tokens of a line (one that holds no line feed) are well-formed tokens on
      that line, none of them the end-of-line token, followed by exactly one
      end-of-line token whose column is the length of the line. */
  lemma LineTokensShape(line: string, lineNumber: int)
    requires '\n' !in line
    ensures var toks := LineTokens(line, lineNumber);
      && |toks| > 0 && toks[|toks| - 1] == NewlineToken(lineNumber, |line|)
      && IsNewline(toks[|toks| - 1])
      && (forall i :: 0 <= i < |toks| - 1 ==> TokenOk(line, lineNumber, toks[i]) && !IsNewline(toks[i]))
  {
    var scan := ScanFrom(line, lineNumber, 0);
    ScanFromOk(line, lineNumber, 0);
    var toks := LineTokens(line, lineNumber);
    forall i | 0 <= i < |toks| - 1
      ensures TokenOk(line, lineNumber, toks[i]) && !IsNewline(toks[i])
    {
      var t := scan[i];
      assert toks[i] == t;
      assert t.text.Some? ==> t.text.value[0] == line[t.column] && line[t.column] in line;
    }
  }

  /** Number of end-of-line tokens in a token sequence. */
  function NewlineCount(toks: seq<Token>): nat {
    if toks == [] then 0
    else NewlineCount(toks[..|toks| - 1]) + (if IsNewline(toks[|toks| - 1]) then 1 else 0)
  }

  lemma {:induction false} NewlineCountAppend(xs: seq<Token>, ys: seq<Token>)
    ensures NewlineCount(xs + ys) == NewlineCount(xs) + NewlineCount(ys)
    decreases |ys|
  {
    if ys == [] {
      assert xs + ys == xs;
    } else {
      var n := |ys| - 1;
      assert (xs + ys)[..|xs + ys| - 1] == xs + ys[..n];
      NewlineCountAppend(xs, ys[..n]);
    }
  }

  lemma {:induction false} NewlineCountNone(toks: seq<Token>)
    requires forall i :: 0 <= i < |toks| ==> !IsNewline(toks[i])
    ensures NewlineCount(toks) == 0
    decreases |toks|
  {
    if toks != [] {
      NewlineCountNone(toks[..|toks| - 1]);
    }
  }

  /** Every line, the empty one included, contributes exactly one end-of-line token. */
  lemma LineNewlineCount(line: string, lineNumber: int)
    requires '\n' !in line
    ensures NewlineCount(LineTokens(line, lineNumber)) == 1
  {
    var toks := LineTokens(line, lineNumber);
    LineTokensShape(line, lineNumber);
    NewlineCountNone(toks[..|toks| - 1]);
  }

  lemma {:induction false} LinesNewlineCount(lines: seq<string>, first: int)
    requires forall i :: 0 <= i < |lines| ==> '\n' !in lines[i]
    ensures NewlineCount(LinesTokens(lines, first)) == |lines|
    decreases |lines|
  {
    if lines != [] {
      var n := |lines| - 1;
      var xs, ys := LinesTokens(lines[..n], first), LineTokens(lines[n], first + n);
      assert LinesTokens(lines, first) == xs + ys;
      LinesNewlineCount(lines[..n], first);
      LineNewlineCount(lines[n], first + n);
      NewlineCountAppend(xs, ys);
    }
  }

  /** A text yields one end-of-line token per line: one more than it has line feeds. */
  lemma TokensNewlineCount(text: string)
    ensures NewlineCount(Tokens(text)) == |Lines(text)| == Count(text, '\n') + 1
  {
    LinesNewlineCount(Lines(text), 1);
  }

  /** Line numbers stay within the lines given and never decrease. */
  predicate LinesOrdered(toks: seq<Token>, first: int, count: int) {
    && (forall i :: 0 <= i < |toks| ==> first <= toks[i].line < first + count)
    && (forall i, j :: 0 <= i < j < |toks| ==> toks[i].line <= toks[j].line)
  }

  lemma {:induction false} LinesTokensOrdered(lines: seq<string>, first: int)
    ensures LinesOrdered(LinesTokens(lines, first), first, |lines|)
    decreases |lines|
  {
    if lines != [] {
      var n := |lines| - 1;
      LinesTokensOrdered(lines[..n], first);
      LineTokensOnLine(lines[n], first + n);
      OrderedAppend(LinesTokens(lines[..n], first), LineTokens(lines[n], first + n), first, n);
    }
  }

  /** Every token of a line carries that line's number. */
  lemma LineTokensOnLine(line: string, lineNumber: int)
    ensures var toks := LineTokens(line, lineNumber);
      forall i :: 0 <= i < |toks| ==> toks[i].line == lineNumber
  {
    ScanFromOk(line, lineNumber, 0);
  }

  lemma OrderedAppend(xs: seq<Token>, ys: seq<Token>, first: int, count: int)
    requires count >= 0 && LinesOrdered(xs, first, count)
    requires forall i :: 0 <= i < |ys| ==> ys[i].line == first + count
    ensures LinesOrdered(xs + ys, first, count + 1)
  {
    var zs := xs + ys;
    forall i | 0 <= i < |zs|
      ensures first <= zs[i].line < first + count + 1
    {
      if i >= |xs| { assert zs[i] == ys[i - |xs|]; }
    }
    forall i, j | 0 <= i < j < |zs|
      ensures zs[i].line <= zs[j].line
    {
      if j >= |xs| { assert zs[j] == ys[j - |xs|]; }
      if i >= |xs| { assert zs[i] == ys[i - |xs|]; }
    }
  }

  /** Tokens appear in non-decreasing line order, numbered from 1. */
  lemma TokensOrdered(text: string)
    ensures LinesOrdered(Tokens(text), 1, |Lines(text)|)
  {
    LinesTokensOrdered(Lines(text), 1);
  }

  /** Scanning resumes at the end of the match, not after the captured data: when
      a marker captures data with no backslash in it, the scan after the match
      begins with a text token that starts with that data. */
  lemma DataReEmitted(line: string, lineNumber: int, m: Match)
    requires m.start < |line| && MatchAt(line, m.start) == Some(m) && !m.star
    requires MarkerToken(line, lineNumber, m).data.Some?
    requires '\\' !in MarkerToken(line, lineNumber, m).data.value
    ensures var d := MarkerToken(line, lineNumber, m).data.value;
      var rest := ScanFrom(line, lineNumber, m.end);
      && rest != [] && rest[0].kind == Text && rest[0].column == m.end
      && rest[0].text.Some? && d <= rest[0].text.value
  {
    var d := MarkerToken(line, lineNumber, m).data.value;
    DataAtMatchEnd(line, lineNumber, m);
    NoMarkerInside(line, m.end, m.end + |d|);
    var e := TextRunEnd(line, lineNumber, m.end);
    SlicePrefix(line, m.end, m.end + |d|, e);
    var rest := ScanFrom(line, lineNumber, m.end);
    assert rest[0].text.value == line[m.end..e];
    assert d == line[m.end..m.end + |d|];
    assert d <= rest[0].text.value;
  }

  /** The scan from `p` starts with a text token when no match starts at `p`; the
      token runs up to the next match, or to the end of the line. */
  lemma TextRunEnd(line: string, lineNumber: int, p: nat) returns (e: nat)
    requires p < |line| && (FindMarker(line, p).Some? ==> FindMarker(line, p).value.start > p)
    ensures e == (if FindMarker(line, p).Some? then FindMarker(line, p).value.start else |line|)
    ensures p < e <= |line|
    ensures var rest := ScanFrom(line, lineNumber, p);
      rest != [] && rest[0] == TextToken(line[p..e], lineNumber, p)
  {
    var found := FindMarker(line, p);
    if found.Some? {
      var m := found.value;
      e := m.start;
      ScanFromMarker(line, lineNumber, p, m);
      var x, t := TextToken(line[p..e], lineNumber, p), MarkerToken(line, lineNumber, m);
      assert ScanFrom(line, lineNumber, p) == [x] + [t] + ScanFrom(line, lineNumber, m.end);
      assert ([x] + [t] + ScanFrom(line, lineNumber, m.end))[0] == x;
    } else {
      e := |line|;
      ScanStepText(line, lineNumber, p);
      assert line[p..e] == line[p..];
    }
  }

  lemma SlicePrefix<T>(s: seq<T>, a: nat, b: nat, c: nat)
    requires a <= b <= c <= |s|
    ensures s[a..b] <= s[a..c]
  {
  }

  /** The data a marker captures starts right at the end of its match, since the
      match already took the whitespace after the marker name. */
  lemma DataAtMatchEnd(line: string, lineNumber: int, m: Match)
    requires m.start < |line| && MatchAt(line, m.start) == Some(m) && !m.star
    requires MarkerToken(line, lineNumber, m).data.Some?
    ensures var d := MarkerToken(line, lineNumber, m).data.value;
      && 0 < |d| && m.end + |d| <= |line| && line[m.end..m.end + |d|] == d
  {
    MatchAtSound(line, m.start);
    assert WhitespaceLength(line, m.end) == 0;
  }

  /** A search from `p` finds no match that starts inside a backslash-free stretch `[p, e)`. */
  lemma NoMarkerInside(line: string, p: nat, e: nat)
    requires p < e <= |line| && '\\' !in line[p..e]
    ensures FindMarker(line, p).Some? ==> FindMarker(line, p).value.start >= e
  {
    forall k | p <= k < e
      ensures line[k] != '\\'
    {
      assert line[k] == line[p..e][k - p];
    }
  }
}
