/** The marker registry: a memoising table from marker name to tag metadata,
    seeded with the book, chapter and verse markers. */
module Stylesheet {

  datatype StyleType = Unknown | Character | Note | Paragraph | End | Milestone | MilestoneEnd

  /** One flag of a text type; a text type is a set of flags and the empty set is
      "not specified". */
  datatype TextTypeFlag = Title | Section | VerseText | NoteText | OtherText | BackTranslation | TranslationNote
  type TextType = set<TextTypeFlag>

  /** One flag of a tag's text properties; the empty set is "none". */
  datatype TextProperty =
    | VerseProperty | ChapterProperty | ParagraphProperty | Publishable | Vernacular | Poetic
    | OtherTextBegin | OtherTextEnd | Level1 | Level2 | Level3 | Level4 | Level5
    | CrossReference | Nonpublishable | Nonvernacular | BookProperty | NoteProperty

  /** The metadata of one marker (presentation attributes such as fonts and margins are not kept). */
  datatype Tag = Tag(marker: string, styleType: StyleType, textType: TextType, textProperties: set<TextProperty>)

  /** The tag the registry creates for a marker it has not seen: unknown style,
      unspecified text type, and publishable text unless it is `c` or `v`. */
  function NewTag(marker: string): (t: Tag)
    ensures t.marker == marker && t.styleType == Unknown && t.textType == {}
    ensures marker != "c" && marker != "v" <==> Publishable in t.textProperties
    ensures t.textProperties <= {Publishable}
  {
    Tag(marker, Unknown, {}, if marker != "c" && marker != "v" then {Publishable} else {})
  }

  /** What a lookup of `marker` in the table `tags` yields: the cached tag, or a new one. */
  function Lookup(tags: map<string, Tag>, marker: string): (t: Tag)
    ensures marker in tags ==> t == tags[marker]
    ensures marker !in tags ==> t == NewTag(marker)
  {
    if marker in tags then tags[marker] else NewTag(marker)
  }

  /** Filing the tag a lookup yields changes no lookup, of that marker or of any
      other: caching is invisible to later lookups. */
  lemma LookupCached(tags: map<string, Tag>, marker: string, other: string)
    ensures Lookup(tags[marker := Lookup(tags, marker)], other) == Lookup(tags, other)
  {
  }

  /** The three pre-registered tags. */
  function DefaultTags(): map<string, Tag> {
    map[
      "id" := Tag("id", Paragraph, {}, {BookProperty}),
      "c" := Tag("c", Paragraph, {}, {ChapterProperty}),
      "v" := Tag("v", Character, {}, {VerseProperty})
    ]
  }

  /** Every cached tag is filed under its own marker and leaves its text type unspecified. */
  predicate WellFiled(tags: map<string, Tag>) {
    forall m | m in tags :: tags[m].marker == m && tags[m].textType == {}
  }

  /** A lookup in a well-filed table is total and returns a tag for the marker asked for. */
  lemma LookupWellFiled(tags: map<string, Tag>, marker: string)
    requires WellFiled(tags)
    ensures Lookup(tags, marker).marker == marker
    ensures Lookup(tags, marker).textType == {}
    ensures WellFiled(tags[marker := Lookup(tags, marker)])
  {
  }

  class UsfmStylesheet {
    var tags: map<string, Tag>

    ghost predicate Valid()
      reads this
    {
      && WellFiled(tags)
      && (forall m | m in DefaultTags() :: m in tags && tags[m] == DefaultTags()[m])
    }

    /** A fresh registry holds exactly the three default tags. */
    constructor ()
      ensures Valid() && tags == DefaultTags()
    {
      tags := map[];
      new;
      CreateDefaultTags();
      assert tags.Keys == DefaultTags().Keys;
    }

    /** Returns the cached tag for `marker`, creating and caching it first if it is
        new; the only change to the table is that insertion. */
    method GetTag(marker: string) returns (tag: Tag)
      requires Valid()
      modifies this
      ensures Valid()
      ensures tag == Lookup(old(tags), marker) && tag.marker == marker
      ensures tags == old(tags)[marker := tag]
      ensures marker in old(tags) ==> tags == old(tags)
    {
      if marker in tags {
        tag := tags[marker];
        return;
      }
      tag := CreateTag(marker);
      tag := tag.(styleType := Unknown);
      tags := tags[marker := tag];
    }

    /** Returns the tag filed under `marker`, filing a new one first if there is none. */
    method CreateTag(marker: string) returns (tag: Tag)
      modifies this
      ensures tag == Lookup(old(tags), marker)
      ensures tags == old(tags)[marker := tag]
    {
      if marker in tags {
        tag := tags[marker];
      } else {
        tag := Tag(marker, Unknown, {}, {});
        if marker != "c" && marker != "v" {
          tag := tag.(textProperties := {Publishable});
        }
        tags := tags[marker := tag];
      }
    }

    /** Files the `id`, `c` and `v` tags with their fixed style and properties. */
    method CreateDefaultTags()
      modifies this
      ensures tags == old(tags)
        ["id" := Lookup(old(tags), "id").(styleType := Paragraph, textProperties := {BookProperty})]
        ["c" := Lookup(old(tags), "c").(styleType := Paragraph, textProperties := {ChapterProperty})]
        ["v" := Lookup(old(tags), "v").(styleType := Character, textProperties := {VerseProperty})]
    {
      ghost var t0 := tags;
      FileDefault("id", Paragraph, {BookProperty});
      ghost var t1 := tags;
      FileDefault("c", Paragraph, {ChapterProperty});
      ghost var t2 := tags;
      FileDefault("v", Character, {VerseProperty});
      assert Lookup(t1, "c") == Lookup(t0, "c") && Lookup(t2, "v") == Lookup(t0, "v");
    }

    /** Creates the tag for `marker` if needed and overrides its style and properties. */
    method FileDefault(marker: string, style: StyleType, props: set<TextProperty>)
      modifies this
      ensures tags == old(tags)[marker := Lookup(old(tags), marker).(styleType := style, textProperties := props)]
    {
      var tag := CreateTag(marker);
      tags := tags[marker := tag.(styleType := style, textProperties := props)];
    }
  }

  /** Looking a marker up twice gives the same tag, and the second lookup changes nothing. */
  method LookupTwice(s: UsfmStylesheet, marker: string) returns (first: Tag, second: Tag)
    requires s.Valid()
    modifies s
    ensures first == second && first.marker == marker
    ensures s.Valid() && s.tags == old(s.tags)[marker := first]
  {
    first := s.GetTag(marker);
    second := s.GetTag(marker);
  }
}
