/** The segmentation driver: walks the token stream once, tracking the current
    book, chapter and verse and the text gathered for that verse, files each verse
    under "BOOK CHAPTER:VERSE" when the next verse starts, and finally collapses the
    whitespace of every verse text. */
module Parser {
  import opened Wrappers
  import opened Strings
  import opened Stylesheet
  import opened Tokenizer
  import opened ParserState

  /** The driver's accumulators. */
  datatype Segmenter = Segmenter(book: string, chapter: string, verse: string, buffer: string, verses: map<string, string>)

  /** Nothing seen yet. */
  function Start(): Segmenter {
    Segmenter("", "", "", "", map[])
  }

  /** A data field that Python treats as true: present and not empty. */
  predicate Truthy(d: Option<string>) {
    d.Some? && d.value != []
  }

  /** The key a verse is filed under. */
  function VerseKey(book: string, chapter: string, verse: string): string {
    book + " " + chapter + ":" + verse
  }

  ghost predicate IsVerseKey(k: string) {
    exists b, c, v :: b != [] && c != [] && v != [] && k == VerseKey(b, c, v)
  }

  /** A book, a chapter and a verse are all known. */
  predicate Complete(s: Segmenter) {
    s.book != [] && s.chapter != [] && s.verse != []
  }

  /** Files the current verse: when the book, chapter and verse are known and the
      gathered text is not blank, its stripped text goes under the verse's key,
      replacing what was there; otherwise nothing changes. */
  function SaveVerse(s: Segmenter): (r: Segmenter)
    ensures r.book == s.book && r.chapter == s.chapter && r.verse == s.verse && r.buffer == s.buffer
    ensures Complete(s) && !AllWhitespace(s.buffer) ==>
      r.verses == s.verses[VerseKey(s.book, s.chapter, s.verse) := Strip(s.buffer)]
    ensures !Complete(s) || AllWhitespace(s.buffer) ==> r.verses == s.verses
  {
    if Complete(s) && Strip(s.buffer) != [] then
      s.(verses := s.verses[VerseKey(s.book, s.chapter, s.verse) := Strip(s.buffer)])
    else s
  }

  /** A character skipped after an echoed verse number. */
  predicate IsSeparator(c: char) {
    IsWhitespace(c) || c in ".,;:"
  }

  /** The index of the first non-separator at or after `i`. */
  function SkipSeparators(t: string, i: nat): (j: nat)
    requires i <= |t|
    ensures i <= j <= |t|
    ensures forall k :: i <= k < j ==> IsSeparator(t[k])
    ensures j < |t| ==> !IsSeparator(t[j])
    decreases |t| - i
  {
    if i < |t| && IsSeparator(t[i]) then SkipSeparators(t, i + 1) else i
  }

  /** A text token that directly follows a verse token and whose stripped text
      starts with the current verse number. */
  predicate IsEcho(prev: Option<Token>, tok: Token, verse: string) {
    && prev.Some? && prev.value.kind == Verse
    && tok.text.Some? && Strip(tok.text.value) != []
    && verse <= Strip(tok.text.value)
  }

  /** The stripped text with the verse number and the separators after it removed. */
  function EchoStripped(t: string, verse: string): string
    requires verse <= t
  {
    t[SkipSeparators(t, |verse|)..]
  }

  /** What a text token adds to the gathered verse text. */
  function AddText(s: Segmenter, prev: Option<Token>, tok: Token): Segmenter {
    if IsEcho(prev, tok, s.verse) then
      s.(buffer := s.buffer + EchoStripped(Strip(tok.text.value), s.verse) + " ")
    else
      s.(buffer := s.buffer + (if tok.text.Some? then tok.text.value else ""))
  }

  /** One token's effect on the accumulators; `verseText` is the parser state's
      verdict on whether text here is verse text. */
  function Step(s: Segmenter, prev: Option<Token>, tok: Token, verseText: bool): Segmenter {
    if tok.kind == Book && Truthy(tok.data) then
      s.(book := tok.data.value)
    else if tok.kind == Chapter && Truthy(tok.data) then
      s.(chapter := tok.data.value, verse := [], buffer := [])
    else if tok.kind == Verse && Truthy(tok.data) then
      SaveVerse(s).(verse := tok.data.value, buffer := [])
    else if tok.kind == Text && verseText && Complete(s) then
      AddText(s, prev, tok)
    else s
  }

  /** The token before index `i`, if any. */
  function PrevOf(tokens: seq<Token>, i: nat): Option<Token>
    requires i <= |tokens|
  {
    if i > 0 then Some(tokens[i - 1]) else None
  }

  /** The accumulators after the first `n` tokens. Nothing is ever pushed on the
      parser state's stack, so every text token is verse text. */
  function Segment(tokens: seq<Token>, n: nat): Segmenter
    requires n <= |tokens|
  {
    if n == 0 then Start()
    else Step(Segment(tokens, n - 1), PrevOf(tokens, n - 1), tokens[n - 1], true)
  }

  /** Files the last verse and collapses the whitespace of every verse text. */
  function Finish(s: Segmenter): map<string, string> {
    MapOver(SaveVerse(s).verses, Normalize)
  }

  /** `m` with `f` applied to every value. */
  function MapOver(m: map<string, string>, f: string -> string): map<string, string> {
    map k | k in m :: f(m[k])
  }

  /** The verse dictionary of a USFM text. */
  function ParseText(text: string): map<string, string> {
    var tokens := Tokens(text);
    Finish(Segment(tokens, |tokens|))
  }

  /** What the filed verses always satisfy: every key names a known book, chapter
      and verse, and every text is stripped and not blank. */
  ghost predicate Wf(verses: map<string, string>) {
    forall k | k in verses :: IsVerseKey(k) && verses[k] != [] && Trimmed(verses[k])
  }

  lemma SaveVerseWf(s: Segmenter)
    requires Wf(s.verses)
    ensures Wf(SaveVerse(s).verses)
  {
    if Complete(s) && Strip(s.buffer) != [] {
      var k := VerseKey(s.book, s.chapter, s.verse);
      assert IsVerseKey(k);
    }
  }

  /** Only a verse marker with data files anything; every other token leaves the
      filed verses alone. */
  lemma StepVerses(s: Segmenter, prev: Option<Token>, tok: Token, verseText: bool)
    ensures tok.kind == Verse && Truthy(tok.data) ==> Step(s, prev, tok, verseText).verses == SaveVerse(s).verses
    ensures !(tok.kind == Verse && Truthy(tok.data)) ==> Step(s, prev, tok, verseText).verses == s.verses
  {
  }

  lemma {:induction false} SegmentWf(tokens: seq<Token>, n: nat)
    requires n <= |tokens|
    ensures Wf(Segment(tokens, n).verses)
  {
    if n > 0 {
      var s := Segment(tokens, n - 1);
      SegmentWf(tokens, n - 1);
      StepVerses(s, PrevOf(tokens, n - 1), tokens[n - 1], true);
      SaveVerseWf(s);
    }
  }

  /** The output: every key is "BOOK CHAPTER:VERSE" with all three parts non-empty,
      and every value is non-empty, has no leading or trailing whitespace, and has
      single plain spaces between words. */
  lemma FinishShape(s: Segmenter)
    requires Wf(s.verses)
    ensures forall k | k in Finish(s) ::
      && IsVerseKey(k)
      && Finish(s)[k] != [] && Trimmed(Finish(s)[k])
      && SingleSpaced(Finish(s)[k]) && OnlyPlainSpaces(Finish(s)[k])
  {
    SaveVerseWf(s);
    var saved := SaveVerse(s).verses;
    forall k | k in saved
      ensures var r := Normalize(saved[k]);
        r != [] && Trimmed(r) && SingleSpaced(r) && OnlyPlainSpaces(r)
    {
      NormalizeShape(saved[k]);
      assert !IsWhitespace(saved[k][0]);
    }
  }

  lemma ParseTextShape(text: string)
    ensures forall k | k in ParseText(text) ::
      && IsVerseKey(k)
      && ParseText(text)[k] != [] && Trimmed(ParseText(text)[k])
      && SingleSpaced(ParseText(text)[k]) && OnlyPlainSpaces(ParseText(text)[k])
  {
    var tokens := Tokens(text);
    SegmentWf(tokens, |tokens|);
    FinishShape(Segment(tokens, |tokens|));
  }

  /** A book, chapter or verse marker without data is ignored, and so is every
      marker that is not one of these. */
  lemma MarkersWithoutDataIgnored(s: Segmenter, prev: Option<Token>, tok: Token, verseText: bool)
    requires tok.kind != Text
    requires (tok.kind == Book || tok.kind == Chapter || tok.kind == Verse) ==> !Truthy(tok.data)
    ensures Step(s, prev, tok, verseText) == s
  {
  }

  /** A new chapter forgets the current verse and its gathered text, and files nothing. */
  lemma ChapterResets(s: Segmenter, prev: Option<Token>, tok: Token, verseText: bool)
    requires tok.kind == Chapter && Truthy(tok.data)
    ensures var r := Step(s, prev, tok, verseText);
      && r.chapter == tok.data.value && r.verse == [] && r.buffer == []
      && r.book == s.book && r.verses == s.verses
  {
  }

  /** A new verse files the previous one (when it is complete and not blank) and
      starts gathering afresh. */
  lemma VerseFinalizes(s: Segmenter, prev: Option<Token>, tok: Token, verseText: bool)
    requires tok.kind == Verse && Truthy(tok.data)
    ensures var r := Step(s, prev, tok, verseText);
      && r.verse == tok.data.value && r.buffer == []
      && r.book == s.book && r.chapter == s.chapter
      && r.verses == SaveVerse(s).verses
  {
  }

  /** A filed verse is replaced only by a non-blank text. */
  lemma BlankVerseKeepsEarlierText(s: Segmenter, prev: Option<Token>, tok: Token, verseText: bool)
    requires tok.kind == Verse && Truthy(tok.data)
    requires AllWhitespace(s.buffer)
    ensures Step(s, prev, tok, verseText).verses == s.verses
  {
  }

  /** Text is gathered only when it is verse text and the book, chapter and verse
      are all known; text after a chapter marker and before its first verse marker
      belongs to no verse. */
  lemma TextNeedsCompleteReference(s: Segmenter, prev: Option<Token>, tok: Token, verseText: bool)
    requires tok.kind == Text
    requires !verseText || !Complete(s)
    ensures Step(s, prev, tok, verseText) == s
  {
  }

  /** Gathered text only grows while the verse is unchanged: every text token
      appends to the buffer and touches nothing else. */
  lemma TextAppends(s: Segmenter, prev: Option<Token>, tok: Token)
    requires tok.kind == Text && Complete(s)
    ensures var r := Step(s, prev, tok, true);
      && s.buffer <= r.buffer
      && r.book == s.book && r.chapter == s.chapter && r.verse == s.verse && r.verses == s.verses
  {
  }

  /** Echo suppression: from the stripped text `t`, the verse number and the run
      of whitespace and `.,;:` after it are removed; what remains does not begin
      with whitespace or one of `.,;:` (it may begin with the number again), and
      nothing else is removed. */
  lemma EchoStrippedSpec(t: string, verse: string)
    requires verse <= t
    ensures var r := EchoStripped(t, verse);
      var sep := t[|verse|..|t| - |r|];
      && |verse| + |r| <= |t|
      && t == verse + sep + r
      && (forall k :: 0 <= k < |sep| ==> IsSeparator(sep[k]))
      && (r != [] ==> !IsSeparator(r[0]))
  {
    var j := SkipSeparators(t, |verse|);
    var sep := t[|verse|..j];
    assert t == t[..|verse|] + sep + t[j..];
    forall k | 0 <= k < |sep|
      ensures IsSeparator(sep[k])
    {
      assert sep[k] == t[|verse| + k];
    }
  }

  /** After `\v 12`, the tokenizer hands the driver the verse number again at the
      start of the next text token, and the echo suppression removes that copy. A
      verse whose text itself starts with its own number therefore keeps that
      number once, and a period after the number goes with it. */
  lemma RepeatedVerseNumberKept()
    ensures EchoStripped("12 12 He said", "12") == "12 He said"
    ensures EchoStripped("12. He said", "12") == "He said"
  {
    var t := "12 12 He said";
    assert SkipSeparators(t, 2) == 3 by {
      assert IsSeparator(t[2]) && !IsSeparator(t[3]);
    }
    assert t[3..] == "12 He said";
    var u := "12. He said";
    assert SkipSeparators(u, 2) == 4 by {
      assert IsSeparator(u[2]) && IsSeparator(u[3]) && !IsSeparator(u[4]);
    }
    assert u[4..] == "He said";
  }

  class UsfmParser {
    const stylesheet: UsfmStylesheet

    /** A parser with a fresh registry. */
    constructor ()
      ensures stylesheet.Valid() && stylesheet.tags == DefaultTags()
    {
      stylesheet := new UsfmStylesheet();
    }

    /** Parses a USFM text into its verse dictionary. */
    method Parse(text: string) returns (verses: map<string, string>)
      ensures verses == ParseText(text)
      ensures forall k | k in verses ::
        && IsVerseKey(k)
        && verses[k] != [] && Trimmed(verses[k])
        && SingleSpaced(verses[k]) && OnlyPlainSpaces(verses[k])
    {
      var tokens := Tokenize(text);
      var state := new UsfmParserState(stylesheet, tokens);
      var book, chapter, verse, buffer;
      book, chapter, verse, buffer, verses := Walk(state);
      ghost var walked := Segmenter(book, chapter, verse, buffer, verses);
      if book != "" && chapter != "" && verse != "" {
        var trimmed := Strip(buffer);
        if |trimmed| > 0 {
          verses := verses[VerseKey(book, chapter, verse) := trimmed];
        }
      }
      assert verses == SaveVerse(walked).verses;
      verses := MapValues(verses, Normalize);
      ParseTextShape(text);
    }
  }

  /** The token loop of the parse: visits every token of a fresh parser state in
      order and returns the accumulators it ends with. */
  method Walk(state: UsfmParserState)
    returns (book: string, chapter: string, verse: string, buffer: string, verses: map<string, string>)
    requires state.stack == []
    modifies state
    ensures Segmenter(book, chapter, verse, buffer, verses) == Segment(state.tokens, |state.tokens|)
  {
    var tokens := state.tokens;
    verses := map[];
    book, chapter, verse, buffer := "", "", "", "";
    for i := 0 to |tokens|
      invariant state.stack == []
      invariant Segmenter(book, chapter, verse, buffer, verses) == Segment(tokens, i)
    {
      state.index := i;
      EmptyStackIsVerseText(state.stylesheet.tags);
      var token := tokens[i];
      if token.kind == Book && Truthy(token.data) {
        book := token.data.value;
      } else if token.kind == Chapter && Truthy(token.data) {
        chapter := token.data.value;
        verse := "";
        buffer := "";
      } else if token.kind == Verse && Truthy(token.data) {
        if book != "" && chapter != "" && verse != "" {
          var trimmed := Strip(buffer);
          if |trimmed| > 0 {
            verses := verses[VerseKey(book, chapter, verse) := trimmed];
          }
        }
        verse := token.data.value;
        buffer := "";
      } else if token.kind == Text && IsVerseText(state.stylesheet.tags, state.stack) {
        if book != "" && chapter != "" && verse != "" {
          var prev := if i > 0 then Some(tokens[i - 1]) else None;
          if prev.Some? && prev.value.kind == Verse && token.text.Some?
            && Strip(token.text.value) != "" && verse <= Strip(token.text.value)
          {
            var t := Strip(token.text.value);
            var offset := EchoEnd(t, verse);
            buffer := buffer + t[offset..] + " ";
          } else {
            buffer := buffer + (if token.text.Some? then token.text.value else "");
          }
        }
      }
    }
  }

  /** Where the text after an echoed verse number starts: past the number and the
      whitespace and `.,;:` that follow it. */
  method EchoEnd(t: string, verse: string) returns (offset: nat)
    requires verse <= t
    ensures offset == SkipSeparators(t, |verse|)
  {
    offset := |verse|;
    while offset < |t| && (IsWhitespace(t[offset]) || t[offset] in ".,;:")
      invariant |verse| <= offset <= |t|
      invariant SkipSeparators(t, offset) == SkipSeparators(t, |verse|)
      decreases |t| - offset
    {
      offset := offset + 1;
    }
  }

  /** Replaces every value `v` of `m` by `f(v)`, one key at a time. */
  method MapValues(m: map<string, string>, f: string -> string) returns (r: map<string, string>)
    ensures r == MapOver(m, f)
  {
    r := m;
    var keys := m.Keys;
    while keys != {}
      invariant keys <= m.Keys
      invariant r == map k | k in m :: if k in keys then m[k] else f(m[k])
      decreases keys
    {
      var k :| k in keys;
      r := r[k := f(r[k])];
      keys := keys - {k};
    }
  }
}
