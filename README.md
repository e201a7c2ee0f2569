# usfm2dict in Dafny

This project models the core of `usfm2dict`, a single-pass extractor that turns a
USFM (Unified Standard Format Markers) scripture text into a dictionary from verse
references such as `GEN 1:1` to cleaned-up verse text. It has four cooperating parts:

- **Line tokenizer** (`tokenizer.dfy`, module `Tokenizer`). Text is split into
  lines after CRLF is turned into LF. Each line is scanned for the leftmost marker:
  a backslash, a maximal run of characters that are neither whitespace nor
  backslash, then whitespace or the end of the line; or the literal `\*`.
  - The text before a marker becomes a TEXT token.
  - The marker is classified by a fixed precedence.
  - `id`, `c` and `v` capture the next non-whitespace run as their data.
  - Scanning resumes right after the marker and its trailing whitespace, so the
    captured data is emitted again as the start of the next TEXT token.
  - Every line ends with a `"\n"` TEXT token.

  The pure specification is `ScanFrom`/`LineTokens`/`Tokens`; the methods
  `TokenizeLine` and `Tokenize` are the source's loops, proved against it.
- **Marker registry** (`stylesheet.dfy`, module `Stylesheet`). A class
  `UsfmStylesheet` holds a memoising `map` from marker to tag. It is seeded with
  `id`, `c` and `v`; looking up an unknown marker files a fresh tag.
- **Parser state** (`parser_state.dfy`, module `ParserState`). A class
  `UsfmParserState` holds a stack of open elements, the token sequence and the
  cursor. `push` and `pop` are methods. The derived queries `para_tag`,
  `char_tag(s)`, `note_tag`, `is_verse_para` and `is_verse_text` are pure
  functions of the registry's table and the stack.
- **Segmentation driver** (`parser.dfy`, module `Parser`).
  - `UsfmParser.Parse` tokenizes the text and walks the tokens (`Walk`), tracking
    book, chapter, verse and the gathered text.
  - It files a verse when the next verse starts and again at the end of input.
  - It suppresses the echoed verse number (`EchoEnd`).
  - Finally it collapses the whitespace of every value (`MapValues` with `Normalize`).
  - The pure specification is `Step`/`Segment`/`Finish`/`ParseText`.

`strings.dfy` (module `Strings`) models the Python string builtins the core relies
on: `\s`/`str.isspace`, `str.strip`, `re.sub(r'\s+', ' ', s)`,
`str.replace('\r\n', '\n')` and `str.split('\n')`.
`wrappers.dfy` (module `Wrappers`) holds the `Option` type that stands for Python's
`Optional` values.

Where the intended behaviour and the code differ, the model follows the code:

- **Data is a non-whitespace run, not a number.** The data capture takes any
  non-whitespace run, so on the single line `\id GEN\c 1\v 1 In the beginning.`:
  - the book is `GEN\c` and the chapter is `1\v`;
  - the only verse is filed under `GEN\c 1\v:1`, not `GEN 1:1`.
- **The echo suppression removes one copy of the number.** After `\v 12`, the
  tokenizer re-emits `12` at the start of the next TEXT token, and the suppression
  removes that copy. The input `\v 12 12 He said` therefore yields the body
  `12 He said`, not `He said`. `Parser.RepeatedVerseNumberKept` proves the
  suppression step on that text token (`12 12 He said` after verse `12`); the
  full parse of the line is not stated as a lemma.
- **Text types are compared by equality.** A text type counts as verse text only
  when it is exactly verse text or exactly unspecified, not when it merely
  includes the verse-text flag.
- **A new chapter drops the pending verse.** A `\c` with data clears the current
  verse and its gathered text without filing them, so the last verse of every
  chapter except the final one is lost (`Parser.ChapterResets`).
- **The stack is always empty during a parse.** The driver never pushes or pops,
  so every text token counts as verse text (`ParserState.EmptyStackIsVerseText`).

## Model

| member | source | states |
|---|---|---|
| Strings.Strip | usfm2dict.py:585-587 | `str.strip`: the result is the slice of the input that starts after its leading whitespace; everything after it is whitespace; it neither starts nor ends with whitespace; it is empty exactly when the input is blank |
| Strings.CollapseRuns | usfm2dict.py:633 | `re.sub(r'\s+', ' ', s)`: no two adjacent whitespace characters, only plain spaces, never longer than the input, blank exactly when the input is blank, and starts with whitespace exactly when the input does |
| Strings.NormalizeShape | usfm2dict.py:632-633 | the final clean-up gives a trimmed, single-spaced text with only plain spaces, empty exactly when the text was blank |
| Strings.NormalizeIdempotent | usfm2dict.py:632-633 | cleaning up an already cleaned-up verse changes nothing |
| Strings.CollapseRunsFixed | usfm2dict.py:633 | a single-spaced text with only plain spaces is a fixed point of the run collapse |
| Strings.CollapseRunsIgnoresRunWidth | usfm2dict.py:633 | replacing any non-empty whitespace run by a single space does not change the collapsed text |
| Strings.NormalizeIgnoresRunWidth | usfm2dict.py:633 | extra spaces, tabs or line breaks between words do not change a cleaned-up verse |
| Strings.DropWhitespaceAppend | usfm2dict.py:585 | removing the leading whitespace of a concatenation: it reaches into the second part exactly when the first is blank |
| Strings.ReplaceCrlf | usfm2dict.py:458 | CRLF→LF keeps the number of line feeds, never lengthens the text, and is the identity on text without carriage returns |
| Strings.ReplaceCrlfNoPair | usfm2dict.py:458 | text with no carriage return directly before a line feed is left unchanged, lone carriage returns included |
| Strings.ReplaceCrlfAppend | usfm2dict.py:458 | the replacement of a concatenation is the concatenation of the replacements, unless the cut falls inside a CR LF pair |
| Strings.CrlfBecomesLf | usfm2dict.py:458 | every CR LF pair, wherever it stands, becomes one line feed and the text on either side is replaced independently |
| Strings.Split | usfm2dict.py:458 | `split('\n')` gives one more piece than there are separators, and no piece contains the separator |
| Strings.JoinSplit | usfm2dict.py:458 | splitting loses nothing: joining the pieces with the separator gives back the text |
| Stylesheet.NewTag | usfm2dict.py:243-251 | a fresh tag names its marker, has unknown style and unspecified text type, and its only possible text property is publishable, which it has exactly when the marker is neither `c` nor `v` |
| Stylesheet.LookupWellFiled | usfm2dict.py:234-251 | in a table whose tags are filed under their own markers, a lookup never fails, returns a tag for the marker asked for with unspecified text type, and caching it keeps the table well filed |
| Stylesheet.UsfmStylesheet.constructor | usfm2dict.py:230-232 | a new registry holds exactly the three defaults: `id` paragraph/book, `c` paragraph/chapter, `v` character/verse |
| Stylesheet.UsfmStylesheet.GetTag | usfm2dict.py:234-241 | `get_tag` returns the cached tag or files a fresh one with unknown style; the tag names the marker; the only change to the table is that insertion, and a known marker changes nothing |
| Stylesheet.UsfmStylesheet.CreateTag | usfm2dict.py:243-251 | `_create_tag` returns the filed tag, filing a fresh one first when the marker is new |
| Stylesheet.UsfmStylesheet.CreateDefaultTags | usfm2dict.py:253-265 | `id`, `c` and `v` are filed with their fixed style and text properties, and nothing else changes |
| Stylesheet.UsfmStylesheet.FileDefault | usfm2dict.py:254-256 | one step of the defaults: create the tag if needed, then override its style and properties |
| Stylesheet.LookupCached | usfm2dict.py:234-241 | filing the tag a lookup yields changes the result of no later lookup, of that marker or of any other |
| Stylesheet.LookupTwice | usfm2dict.py:234-241 | looking a marker up twice returns the same tag, and the second lookup leaves the table as the first left it |
| Tokenizer.NameLength | usfm2dict.py:454 | the marker name is the maximal run of characters that are neither whitespace nor backslash |
| Tokenizer.WordLength | usfm2dict.py:518 | the data run is the maximal run of non-whitespace characters |
| Tokenizer.MatchAt | usfm2dict.py:454 | a match at `i` starts with a backslash there and spans at least two characters within the line |
| Tokenizer.MatchAtSound | usfm2dict.py:454 | a named match is a backslash, a non-empty maximal name, then whitespace up to its end, which is the end of the line or is followed by a non-whitespace character; a star match is exactly `\*` |
| Tokenizer.MatchAtComplete | usfm2dict.py:454 | every backslash followed by a name that ends at whitespace or the end of the line is matched with exactly that name |
| Tokenizer.StarAlwaysMatched | usfm2dict.py:454 | a backslash followed by `*` is always matched, with a marker that starts with `*` |
| Tokenizer.NameLengthMaximal | usfm2dict.py:454 | the regex cannot backtrack to a shorter name: the name always stops at the first non-name character |
| Tokenizer.FindMarker | usfm2dict.py:474 | `search(line, pos)` returns a match that starts at or after `pos` |
| Tokenizer.FindMarkerLeftmost | usfm2dict.py:474 | the match found is the leftmost one: no position between `pos` and it matches, and when none is found no position matches |
| Tokenizer.ClassifyPrecedence | usfm2dict.py:496-510 | classification by precedence: `id`→book, `c`→chapter, `v`→verse, then a `q`/`p`/`m` prefix→paragraph, then a `*` suffix→end, otherwise character; unknown is never produced |
| Tokenizer.DataAfterNone | usfm2dict.py:516-521 | no data is captured exactly when the rest of the line is blank |
| Tokenizer.DataAfterSome | usfm2dict.py:516-521 | captured data is the first non-whitespace run after the match: non-empty, whitespace-free, preceded only by whitespace and followed by whitespace or the end of the line |
| Tokenizer.AllWhitespaceSuffix | usfm2dict.py:518 | the rest of a line is blank exactly when its leading whitespace run reaches the end |
| Tokenizer.ProcessMarker | usfm2dict.py:486-529 | a marker token is never unknown or text, sits at the match start, and carries data only for book, chapter and verse |
| Tokenizer.TokenizeLine | usfm2dict.py:467-550 | `_tokenize_line` appends exactly the line's tokens: the scan from position 0 followed by the newline token |
| Tokenizer.ScanStepMarker | usfm2dict.py:474-531 | one loop step with a match: the position strictly advances, and the text token, the marker token and the rest of the scan make up the scan from the old position |
| Tokenizer.ScanFromMarker | usfm2dict.py:474-531 | the scan from a position where a marker is found is the optional text token, the marker token, then the scan from the match end |
| Tokenizer.ScanStepText | usfm2dict.py:532-542 | with no match left, the rest of the line is one text token and the scan ends |
| Tokenizer.Tokenize | usfm2dict.py:456-465 | `tokenize` returns the tokens of every line in order, numbering lines from 1 |
| Tokenizer.ScanFromOk | usfm2dict.py:471-542 | every scanned token belongs to the line, is never unknown, has a column inside the line, is text exactly when it has text, which is a non-empty slice of the line at its column, sits on a backslash when it is a marker, carries data only for book/chapter/verse, and columns strictly increase |
| Tokenizer.ScanHeadOk | usfm2dict.py:476-529 | the text token before a marker and the marker token are well formed and in column order |
| Tokenizer.MarkerTokenOk | usfm2dict.py:486-529 | a marker token is well formed and sits at the match start |
| Tokenizer.ScanOkPair | usfm2dict.py:476-529 | two well-formed tokens in column order form a well-formed scan |
| Tokenizer.ScanOkAppend | usfm2dict.py:471-542 | well-formed scans joined at a column boundary stay well formed |
| Tokenizer.LineTokensShape | usfm2dict.py:544-550 | each line's tokens end with one `"\n"` text token on that line at column `len(line)`, and no other token is a newline token |
| Tokenizer.NewlineCountAppend | usfm2dict.py:460-463 | newline tokens add up over concatenation |
| Tokenizer.NewlineCountNone | usfm2dict.py:471-542 | tokens none of which is a newline token contain no newline token |
| Tokenizer.LineNewlineCount | usfm2dict.py:544-550 | each line contributes exactly one newline token |
| Tokenizer.LinesNewlineCount | usfm2dict.py:460-463 | lines without line feeds contribute one newline token each |
| Tokenizer.TokensNewlineCount | usfm2dict.py:458-463 | a text yields exactly one newline token per line, including empty lines, and that is one more than its number of line feeds |
| Tokenizer.LineTokensOnLine | usfm2dict.py:467-550 | every token of a line carries that line's number |
| Tokenizer.OrderedAppend | usfm2dict.py:460-463 | appending the tokens of the next line keeps line numbers in range and non-decreasing |
| Tokenizer.LinesTokensOrdered | usfm2dict.py:460-463 | the tokens of consecutive lines carry line numbers in range and in non-decreasing order |
| Tokenizer.TokensOrdered | usfm2dict.py:458-463 | the tokens of a text appear in non-decreasing line order, from 1 to the number of lines |
| Tokenizer.DataReEmitted | usfm2dict.py:516-531 | since scanning resumes at the match end, captured data without a backslash also begins the next token, a text token at the match end |
| Tokenizer.DataAtMatchEnd | usfm2dict.py:512-521 | captured data starts exactly at the match end, because the match already consumed the whitespace after the marker |
| Tokenizer.TextRunEnd | usfm2dict.py:532-542 | the scan from a non-marker position starts with one text token that runs to the next marker or the end of the line |
| Tokenizer.NoMarkerInside | usfm2dict.py:474 | no match starts inside a stretch without backslashes |
| ParserState.Nearest | usfm2dict.py:386-393 | the index found is the innermost frame of one of the given kinds; none is found only when no frame has such a kind |
| ParserState.CharMarkers | usfm2dict.py:405-409 | a marker is listed exactly when some character frame on the stack names it, and there are never more markers than frames |
| ParserState.CharTags | usfm2dict.py:404-409 | `char_tags` yields, position by position, the registry's tag for each listed character marker; the order is fixed by the push lemmas below |
| ParserState.CharTag | usfm2dict.py:400-401 | `char_tag` is none exactly when no character frame names a marker, and otherwise the innermost one's tag |
| ParserState.ParaTag | usfm2dict.py:384-397 | `para_tag` is none exactly when no paragraph, book, row or sidebar frame is open, and otherwise the registry's tag for the innermost such frame's marker (see also `PushParaTag`) |
| ParserState.NoteTag | usfm2dict.py:411-414 | `note_tag` is none when no note is open, and otherwise, when present, the registry's tag for the innermost note's marker (see also `NoteTagInnermost`) |
| ParserState.IsVersePara | usfm2dict.py:416-425 | `is_verse_para` holds when no paragraph-like frame is open; otherwise it holds exactly when the innermost paragraph-like frame's tag has a text type equal to verse text or unspecified, so a type that merely includes the verse-text flag fails; under a registry whose tags leave the text type unspecified it always holds |
| ParserState.IsVerseText | usfm2dict.py:427-442 | when `is_verse_text` holds, no note or sidebar is open, `is_verse_para` holds, and every open character style's tag is verse text or unspecified (see also `EmptyStackIsVerseText`, `NoteOrSidebarIsNotVerseText`, `WellFiledVerseText`) |
| ParserState.VerseTextWhen | usfm2dict.py:427-442 | conversely, with no note or sidebar open, a verse paragraph and only verse-text character styles make `is_verse_text` hold, for any registry |
| ParserState.PushNonVerseParaIsNotVerseText | usfm2dict.py:416-434 | opening a paragraph whose tag's text type is neither exactly verse text nor unspecified makes both `is_verse_para` and `is_verse_text` false |
| ParserState.EmptyStackIsVerseText | usfm2dict.py:417-442 | with nothing open, text is verse text, which is the situation throughout a parse |
| ParserState.NoteOrSidebarIsNotVerseText | usfm2dict.py:428-431 | an open note or sidebar anywhere on the stack makes text non-verse text |
| ParserState.WellFiledVerseText | usfm2dict.py:417-442 | with a registry whose text types are unspecified, as the default one's are, text is verse text exactly when no note or sidebar is open |
| ParserState.PushParaTag | usfm2dict.py:385-398 | after pushing a paragraph, `para_tag` is its tag |
| ParserState.PushCharTags | usfm2dict.py:404-409 | pushing a character style puts its tag first in `char_tags` and leaves the paragraph and `para_tag` as they were |
| ParserState.PushOtherCharTags | usfm2dict.py:404-409 | pushing any frame other than a character style with a marker leaves the character markers and `char_tags` unchanged; with `PushCharTags` and the empty stack this fixes `char_tags` innermost first |
| ParserState.PushCharTag | usfm2dict.py:400-401 | after pushing a character style, `char_tag` is its tag |
| ParserState.NoteTagInnermost | usfm2dict.py:412-414 | `note_tag` is the tag of the innermost note, whatever non-note frames are open above it |
| ParserState.PushNoteIsNotVerseText | usfm2dict.py:428-431 | pushing a note makes text non-verse text |
| ParserState.UsfmParserState.constructor | usfm2dict.py:352-362 | a fresh state has an empty stack, its cursor before the first token, and the given registry and tokens |
| ParserState.UsfmParserState.Current | usfm2dict.py:372-374 | `token` is present exactly when the cursor is at a token, and it is the token at the cursor |
| ParserState.UsfmParserState.Previous | usfm2dict.py:376-378 | `prev_token` is present exactly when the cursor is past the first token, and it is the token just before the cursor |
| ParserState.PreviousFollowsCurrent | usfm2dict.py:372-378 | moving the cursor on by one token makes the old `token` the new `prev_token` |
| ParserState.UsfmParserState.Push | usfm2dict.py:444-445 | `push` puts the element on top and changes nothing else |
| ParserState.UsfmParserState.Pop | usfm2dict.py:447-448 | `pop` returns the top element and removes exactly it |
| ParserState.PushThenPop | usfm2dict.py:444-448 | pushing then popping returns the pushed element and restores the stack |
| Parser.SaveVerse | usfm2dict.py:583-587 | a verse is filed under `book chapter:verse` with its stripped text only when book, chapter and verse are known and the text is not blank; otherwise nothing is filed; the accumulators are untouched |
| Parser.SkipSeparators | usfm2dict.py:612-615 | the offset stops at the first character after `i` that is neither whitespace nor one of `.,;:`, and everything skipped is such a character |
| Parser.EchoStrippedSpec | usfm2dict.py:601-618 | echo suppression removes exactly the verse number and the separators after it from the stripped text; the rest does not begin with whitespace or one of `.,;:`, though it may begin with the number again |
| Parser.RepeatedVerseNumberKept | usfm2dict.py:606-618 | `12 12 He said` after verse 12 leaves `12 He said`, and `12. He said` leaves `He said` |
| Parser.SaveVerseWf | usfm2dict.py:583-587 | filing a verse keeps every key of the form `book chapter:verse` with non-empty parts and every value stripped and non-empty |
| Parser.StepVerses | usfm2dict.py:573-622 | only a verse marker with data files anything; every other token leaves the filed verses alone |
| Parser.SegmentWf | usfm2dict.py:570-622 | after any number of tokens, every filed key has the verse-key shape and every filed text is stripped and non-empty |
| Parser.FinishShape | usfm2dict.py:625-633 | after the last verse is filed and the values cleaned up, every key has the verse-key shape and every value is non-empty, trimmed, single-spaced and uses only plain spaces |
| Parser.ParseTextShape | usfm2dict.py:560-635 | the output of a parse has that shape for every input text |
| Parser.MarkersWithoutDataIgnored | usfm2dict.py:573-595 | book, chapter and verse markers without data, and all other markers, leave the accumulators unchanged |
| Parser.ChapterResets | usfm2dict.py:576-579 | a chapter marker with data sets the chapter, clears verse and gathered text, and files nothing |
| Parser.VerseFinalizes | usfm2dict.py:581-590 | a verse marker with data files the previous verse, then sets the verse and clears the gathered text |
| Parser.BlankVerseKeepsEarlierText | usfm2dict.py:584-587 | a verse whose gathered text is blank files nothing, so an earlier text under the same key survives |
| Parser.TextNeedsCompleteReference | usfm2dict.py:595-596 | text is ignored unless it is verse text and book, chapter and verse are all known |
| Parser.TextAppends | usfm2dict.py:595-622 | a text token only appends to the gathered text and changes nothing else |
| Parser.UsfmParser.constructor | usfm2dict.py:555-558 | a parser starts with a fresh registry holding the three defaults |
| Parser.UsfmParser.Parse | usfm2dict.py:560-635 | `parse` returns the specified verse dictionary, whose keys are `book chapter:verse` with non-empty parts and whose values are non-empty, trimmed, single-spaced and use only plain spaces |
| Parser.Walk | usfm2dict.py:570-622 | the token loop ends with the accumulators that the specification reaches after all the tokens |
| Parser.EchoEnd | usfm2dict.py:612-615 | the offset loop stops where the specification's separator skip does |
| Parser.MapValues | usfm2dict.py:632-633 | rewriting each value in place, key by key, gives the same keys with every value mapped |

## Left out

- `main`, `parse_usfm_file` and the command-line launcher: argument parsing, file reading, globbing, JSON output and the per-file error policy are I/O.
- Presentation fields of a tag (fonts, margins, justification, colour and so on), the attribute regexes, `UsfmAttribute`, `get_attribute` and `nestless_marker`: nothing in the core reads them. A tag is marker, style type, text type and text properties.
- `Versification`, `VerseRef` and the state fields `verse_ref`, `verse_offset`, `line_number`, `column_number` and `special_token`: the driver stores a verse reference but never reads it back. Building it can still fail, see the next two lines.
- Parser.UsfmParser.Parse: the source builds a `VerseRef` for every verse marker with data (usfm2dict.py:593), and that constructor runs `int()` on a chapter or verse label that passes `isdigit()` (usfm2dict.py:291, 296). `int()` can reject a label that `isdigit()` accepts: for example a superscript or circled digit such as `²` or `①`, or, on Python 3.11 and later, an ASCII digit string longer than 4300 digits. So for `\id GEN`, `\c ²`, `\v 1 x` the source raises `ValueError`, while the model's total `Parse` returns `{"GEN ²:1": "x"}`.
- Parser.Walk: the same `ValueError` when a `VerseRef` is built inside the token loop (usfm2dict.py:593) is not modelled; the loop always runs to the end.
- The book-ID canon table and its helpers: a static lookup with no effect on the output.
- The `end_marker` field of a token: the tokenizer never sets it.
- Strings.IsWhitespace: one predicate stands for `\s`, `str.isspace` and `str.strip`. It lists the ASCII and Unicode whitespace characters explicitly instead of using the Unicode tables. It follows `str.isspace`, which counts U+001C–U+001F as whitespace. The tokenizer's pattern (usfm2dict.py:454, 518) is compiled with the third-party `regex` module, whose `\s` is read here as Unicode White_Space, which leaves those four characters out. If so, the model differs there: for `\v<U+001C>1 x` the source sees a character marker `v<U+001C>1`, while the model sees a verse marker with data `1`.
- ParserState.ParaTag, ParserState.CharTags, ParserState.NoteTag: as functions they use the registry's lookup without filing the fresh tag that `get_tag` caches as a side effect. `Stylesheet.UsfmStylesheet.GetTag` models that insertion.
- ParserState.UsfmParserState.Current, ParserState.UsfmParserState.Previous: their `requires` on the cursor stand in for the `IndexError` that indexing past the last token raises (usfm2dict.py:374, 378). The driver's loop never moves the cursor past the last token, so that error is not reachable from `parse`, and the error path is not modelled.
- ParserState.UsfmParserState.Pop: its `requires stack != []` stands in for the `IndexError` that popping an empty list raises (usfm2dict.py:448); the error path is not modelled.
- ParserState.ParaTag: its `requires ParaMarked(stack)` stands in for the `AssertionError` that `para_tag` raises on an unmarked paragraph-like frame (usfm2dict.py:395); the same requirement on `ParserState.IsVersePara` and `ParserState.IsVerseText` comes from it.
- Parser.UsfmParser.Parse: keys are a `map`, so the insertion order of the Python dictionary is not modelled.
- Parser.Walk: the inner `if text.startswith(verse_num_str)` is always true at that point, because the enclosing condition already checked it; its dead `else` branch is not modelled.
- Tokens are the source's positions and strings; the tokenizer's regular expression is modelled by hand as `MatchAt`/`FindMarker`, not by a regex engine.
