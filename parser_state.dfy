/** The parser state: the stack of open elements (book, paragraph, character
    style, table, row, cell, note, sidebar), the token cursor, and the predicates
    that decide from the stack whether text is verse text. */
module ParserState {
  import opened Wrappers
  import opened Strings
  import opened Stylesheet
  import opened Tokenizer

  datatype ElementType = BookElement | ParaElement | CharElement | TableElement | RowElement | CellElement | NoteElement | SidebarElement

  /** One open element; attributes are not kept. */
  datatype Element = Element(kind: ElementType, marker: Option<string>)

  /** The frames `para_tag` looks for: paragraph, book, row and sidebar. */
  const ParaKinds: set<ElementType> := {ParaElement, BookElement, RowElement, SidebarElement}

  /** Index of the innermost frame whose kind is one of `kinds`, if there is one. */
  function Nearest(stack: seq<Element>, kinds: set<ElementType>): (r: Option<nat>)
    ensures r.Some? ==> r.value < |stack| && stack[r.value].kind in kinds
    ensures r.Some? ==> forall j :: r.value < j < |stack| ==> stack[j].kind !in kinds
    ensures r.None? ==> forall j :: 0 <= j < |stack| ==> stack[j].kind !in kinds
    decreases |stack|
  {
    if stack == [] then None
    else if stack[|stack| - 1].kind in kinds then Some(|stack| - 1)
    else Nearest(stack[..|stack| - 1], kinds)
  }

  function NearestPara(stack: seq<Element>): Option<nat> {
    Nearest(stack, ParaKinds)
  }

  /** The innermost paragraph-like frame names a marker; `para_tag` asserts this. */
  predicate ParaMarked(stack: seq<Element>) {
    var r := NearestPara(stack);
    r.Some? ==> stack[r.value].marker.Some?
  }

  /** `para_tag`: the tag of the innermost paragraph-like frame, or none. */
  function ParaTag(tags: map<string, Tag>, stack: seq<Element>): (r: Option<Tag>)
    requires ParaMarked(stack)
    ensures r.None? <==> forall j :: 0 <= j < |stack| ==> stack[j].kind !in ParaKinds
    ensures r.Some? ==> exists i ::
      && 0 <= i < |stack| && stack[i].kind in ParaKinds && stack[i].marker.Some?
      && (forall j :: i < j < |stack| ==> stack[j].kind !in ParaKinds)
      && r.value == Lookup(tags, stack[i].marker.value)
  {
    match NearestPara(stack)
    case None => None
    case Some(i) => Some(Lookup(tags, stack[i].marker.value))
  }

  /** Some character frame on the stack names `m`. */
  predicate HasCharMarker(stack: seq<Element>, m: string) {
    exists j :: 0 <= j < |stack| && stack[j].kind == CharElement && stack[j].marker == Some(m)
  }

  /** Markers of the character frames that name one, innermost first. */
  function CharMarkers(stack: seq<Element>): (r: seq<string>)
    ensures |r| <= |stack|
    ensures forall m :: m in r <==> HasCharMarker(stack, m)
    decreases |stack|
  {
    if stack == [] then []
    else
      var top := stack[|stack| - 1];
      var rest := CharMarkers(stack[..|stack| - 1]);
      if top.kind == CharElement && top.marker.Some? then [top.marker.value] + rest else rest
  }

  /** `char_tags`: the tags of the character frames, innermost first. */
  function CharTags(tags: map<string, Tag>, stack: seq<Element>): (r: seq<Tag>)
    ensures |r| == |CharMarkers(stack)|
    ensures forall i :: 0 <= i < |r| ==> r[i] == Lookup(tags, CharMarkers(stack)[i])
  {
    var markers := CharMarkers(stack);
    seq(|markers|, i requires 0 <= i < |markers| => Lookup(tags, markers[i]))
  }

  /** `char_tag`: the tag of the innermost character frame, or none. */
  function CharTag(tags: map<string, Tag>, stack: seq<Element>): (r: Option<Tag>)
    ensures r.None? <==> CharMarkers(stack) == []
    ensures r.Some? ==> r.value == Lookup(tags, CharMarkers(stack)[0])
  {
    var ts := CharTags(tags, stack);
    if ts == [] then None else Some(ts[0])
  }

  /** `note_tag`: the tag of the innermost note frame, or none when there is no
      note or the innermost one names no marker. */
  function NoteTag(tags: map<string, Tag>, stack: seq<Element>): (r: Option<Tag>)
    ensures (forall j :: 0 <= j < |stack| ==> stack[j].kind != NoteElement) ==> r.None?
    ensures r.Some? ==> exists i ::
      && 0 <= i < |stack| && stack[i].kind == NoteElement && stack[i].marker.Some?
      && (forall j :: i < j < |stack| ==> stack[j].kind != NoteElement)
      && r.value == Lookup(tags, stack[i].marker.value)
  {
    match Nearest(stack, {NoteElement})
    case None => None
    case Some(i) => if stack[i].marker.Some? then Some(Lookup(tags, stack[i].marker.value)) else None
  }

  /** A text type that counts as verse text: exactly verse text, or not specified.
      The comparison is by equality, so a type that merely includes the verse-text
      flag does not count. */
  predicate VerseCompatible(t: TextType) {
    t == {VerseText} || t == {}
  }

  /** `is_verse_para`. */
  predicate IsVersePara(tags: map<string, Tag>, stack: seq<Element>)
    requires ParaMarked(stack)
    ensures (forall j :: 0 <= j < |stack| ==> stack[j].kind !in ParaKinds) ==> IsVersePara(tags, stack)
    ensures WellFiled(tags) ==> IsVersePara(tags, stack)
    ensures forall i | 0 <= i < |stack| && stack[i].kind in ParaKinds && stack[i].marker.Some?
        && (forall j :: i < j < |stack| ==> stack[j].kind !in ParaKinds) ::
      IsVersePara(tags, stack) <==> VerseCompatible(Lookup(tags, stack[i].marker.value).textType)
  {
    var p := ParaTag(tags, stack);
    p.None? || VerseCompatible(p.value.textType)
  }

  predicate HasNoteOrSidebar(stack: seq<Element>) {
    exists i :: 0 <= i < |stack| && (stack[i].kind == NoteElement || stack[i].kind == SidebarElement)
  }

  /** `is_verse_text`: no note or sidebar is open, the paragraph is verse text, and
      so is every open character style. The paragraph is consulted only when no
      note or sidebar is open. */
  predicate IsVerseText(tags: map<string, Tag>, stack: seq<Element>)
    requires !HasNoteOrSidebar(stack) ==> ParaMarked(stack)
    ensures IsVerseText(tags, stack) ==> !HasNoteOrSidebar(stack) && IsVersePara(tags, stack)
    ensures IsVerseText(tags, stack) ==>
      forall m :: HasCharMarker(stack, m) ==> VerseCompatible(Lookup(tags, m).textType)
  {
    && !HasNoteOrSidebar(stack)
    && IsVersePara(tags, stack)
    && forall t | t in CharTags(tags, stack) :: VerseCompatible(t.textType)
  }

  /** With nothing open, text is verse text. */
  lemma EmptyStackIsVerseText(tags: map<string, Tag>)
    ensures IsVerseText(tags, [])
  {
    assert CharMarkers([]) == [];
  }

  /** The converse of `IsVerseText`'s contract: with no note or sidebar open, a
      verse-text paragraph and only verse-text character styles make verse text,
      whatever the registry. */
  lemma VerseTextWhen(tags: map<string, Tag>, stack: seq<Element>)
    requires !HasNoteOrSidebar(stack) && ParaMarked(stack) && IsVersePara(tags, stack)
    requires forall m :: HasCharMarker(stack, m) ==> VerseCompatible(Lookup(tags, m).textType)
    ensures IsVerseText(tags, stack)
  {
    var markers := CharMarkers(stack);
    forall t | t in CharTags(tags, stack)
      ensures VerseCompatible(t.textType)
    {
      var i :| 0 <= i < |CharTags(tags, stack)| && CharTags(tags, stack)[i] == t;
      assert markers[i] in markers;
    }
  }

  /** Opening a paragraph whose tag is not exactly verse text or unspecified (a
      title or section heading, or a type that merely includes the verse-text
      flag) makes text non-verse text. */
  lemma PushNonVerseParaIsNotVerseText(tags: map<string, Tag>, stack: seq<Element>, marker: string)
    requires !VerseCompatible(Lookup(tags, marker).textType)
    ensures var s := stack + [Element(ParaElement, Some(marker))];
      ParaMarked(s) && !IsVersePara(tags, s) && !IsVerseText(tags, s)
  {
    PushParaTag(tags, stack, marker);
  }

  /** An open note or sidebar anywhere on the stack makes text non-verse text. */
  lemma NoteOrSidebarIsNotVerseText(tags: map<string, Tag>, stack: seq<Element>, i: nat)
    requires i < |stack| && (stack[i].kind == NoteElement || stack[i].kind == SidebarElement)
    ensures !IsVerseText(tags, stack)
  {
  }

  /** With a registry whose tags leave the text type unspecified, as the default
      one does, text is verse text exactly when no note or sidebar is open. */
  lemma WellFiledVerseText(tags: map<string, Tag>, stack: seq<Element>)
    requires WellFiled(tags) && ParaMarked(stack)
    ensures IsVerseText(tags, stack) <==> !HasNoteOrSidebar(stack)
  {
    var p := ParaTag(tags, stack);
    if p.Some? {
      LookupWellFiled(tags, stack[NearestPara(stack).value].marker.value);
    }
    var ts := CharTags(tags, stack);
    forall i | 0 <= i < |ts|
      ensures VerseCompatible(ts[i].textType)
    {
      LookupWellFiled(tags, CharMarkers(stack)[i]);
    }
  }

  /** Opening a paragraph makes it the paragraph `para_tag` reports. */
  lemma PushParaTag(tags: map<string, Tag>, stack: seq<Element>, marker: string)
    ensures var s := stack + [Element(ParaElement, Some(marker))];
      ParaMarked(s) && ParaTag(tags, s) == Some(Lookup(tags, marker))
  {
  }

  /** Opening a character style puts its tag first in `char_tags` and leaves the
      paragraph alone. */
  lemma PushCharTags(tags: map<string, Tag>, stack: seq<Element>, marker: string)
    ensures var s := stack + [Element(CharElement, Some(marker))];
      && CharTags(tags, s) == [Lookup(tags, marker)] + CharTags(tags, stack)
      && NearestPara(s) == NearestPara(stack)
      && (ParaMarked(stack) ==> ParaMarked(s) && ParaTag(tags, s) == ParaTag(tags, stack))
  {
    var s := stack + [Element(CharElement, Some(marker))];
    assert s[..|s| - 1] == stack;
  }

  /** Opening anything but a character style with a marker leaves `char_tags` as
      it was. */
  lemma PushOtherCharTags(tags: map<string, Tag>, stack: seq<Element>, e: Element)
    requires !(e.kind == CharElement && e.marker.Some?)
    ensures CharMarkers(stack + [e]) == CharMarkers(stack)
    ensures CharTags(tags, stack + [e]) == CharTags(tags, stack)
  {
    assert (stack + [e])[..|stack|] == stack;
  }

  /** Opening a character style makes it the one `char_tag` reports. */
  lemma PushCharTag(tags: map<string, Tag>, stack: seq<Element>, marker: string)
    ensures CharTag(tags, stack + [Element(CharElement, Some(marker))]) == Some(Lookup(tags, marker))
  {
    PushCharTags(tags, stack, marker);
  }

  /** Opening a note makes it the one `note_tag` reports, and closing other frames
      on top of it does not hide it. */
  lemma {:induction false} NoteTagInnermost(tags: map<string, Tag>, stack: seq<Element>, marker: string, above: seq<Element>)
    requires forall j :: 0 <= j < |above| ==> above[j].kind != NoteElement
    ensures NoteTag(tags, stack + [Element(NoteElement, Some(marker))] + above) == Some(Lookup(tags, marker))
    decreases |above|
  {
    var s := stack + [Element(NoteElement, Some(marker))] + above;
    if above != [] {
      var a := above[..|above| - 1];
      assert s[..|s| - 1] == stack + [Element(NoteElement, Some(marker))] + a;
      NoteTagInnermost(tags, stack, marker, a);
    }
  }

  /** Opening a note makes text non-verse text. */
  lemma PushNoteIsNotVerseText(tags: map<string, Tag>, stack: seq<Element>, marker: Option<string>)
    ensures !IsVerseText(tags, stack + [Element(NoteElement, marker)])
  {
    NoteOrSidebarIsNotVerseText(tags, stack + [Element(NoteElement, marker)], |stack|);
  }

  class UsfmParserState {
    const stylesheet: UsfmStylesheet
    const tokens: seq<Token>
    var stack: seq<Element>
    var index: int

    /** A fresh state: nothing open and no token visited yet. */
    constructor (stylesheet: UsfmStylesheet, tokens: seq<Token>)
      ensures this.stylesheet == stylesheet && this.tokens == tokens
      ensures stack == [] && index == -1
    {
      this.stylesheet := stylesheet;
      this.tokens := tokens;
      stack := [];
      index := -1;
    }

    /** The token at the cursor, none before the first one. */
    function Current(): (t: Option<Token>)
      reads this
      requires index < |tokens|
      ensures t.Some? <==> index >= 0
      ensures t.Some? ==> t.value == tokens[index]
    {
      if index >= 0 then Some(tokens[index]) else None
    }

    /** The token before the cursor, none at or before the first one. */
    function Previous(): (t: Option<Token>)
      reads this
      requires index <= |tokens|
      ensures t.Some? <==> index >= 1
      ensures t.Some? ==> t.value == tokens[index - 1]
    {
      if index >= 1 then Some(tokens[index - 1]) else None
    }

    /** Opens an element on top of the stack. */
    method Push(e: Element)
      modifies this
      ensures stack == old(stack) + [e] && index == old(index)
    {
      stack := stack + [e];
    }

    /** Closes the innermost element and returns it. */
    method Pop() returns (e: Element)
      requires stack != []
      modifies this
      ensures e == old(stack)[|old(stack)| - 1]
      ensures stack == old(stack)[..|old(stack)| - 1] && index == old(index)
    {
      e := stack[|stack| - 1];
      stack := stack[..|stack| - 1];
    }
  }

  /** Moving the cursor on by one token makes the token that was current the
      previous one. */
  lemma PreviousFollowsCurrent(before: UsfmParserState, after: UsfmParserState)
    requires after.tokens == before.tokens
    requires after.index == before.index + 1 <= |after.tokens|
    ensures after.Previous() == before.Current()
  {
  }

  /** Closing what was just opened gives it back and restores the stack. */
  method PushThenPop(s: UsfmParserState, e: Element) returns (popped: Element)
    modifies s
    ensures popped == e && s.stack == old(s.stack) && s.index == old(s.index)
  {
    s.Push(e);
    popped := s.Pop();
    assert (old(s.stack) + [e])[..|old(s.stack)|] == old(s.stack);
  }
}
