/** What `NoteItem` shows of a note: a content excerpt and the title, with a
    placeholder for a note without one. */
module NoteView {
  import opened Wrappers

  /** How many characters of content a card shows. */
  const ExcerptLength: nat := 180
  /** The horizontal ellipsis that marks a cut. */
  const Ellipsis: char := '\U{2026}'

  /** The card's excerpt: short content as it is; longer content cut to its
      first 180 characters followed by an ellipsis. Either way the excerpt
      without a final ellipsis is a prefix of the content. */
  function Excerpt(content: string): (r: string)
    ensures |content| <= ExcerptLength ==> r == content
    ensures |content| > ExcerptLength ==> |r| == ExcerptLength + 1 && r[..ExcerptLength] <= content && r[ExcerptLength] == Ellipsis
    ensures |r| <= ExcerptLength + 1
    ensures r <= content || (r[..|r| - 1] <= content && r[|r| - 1] == Ellipsis)
  {
    if |content| > ExcerptLength then content[..ExcerptLength] + [Ellipsis] else content
  }

  /** Taking the excerpt of an excerpt changes nothing. */
  lemma ExcerptIdempotent(content: string)
    ensures Excerpt(Excerpt(content)) == Excerpt(content)
  {
    var r := Excerpt(content);
    if |content| > ExcerptLength {
      assert r[..ExcerptLength] == content[..ExcerptLength];
    }
  }

  /** The card heading: the title, or "Untitled" when it is missing or empty. */
  function DisplayTitle(title: Option<string>): (r: string)
    ensures r != ""
    ensures title.None? || title.value == "" ==> r == "Untitled"
    ensures title.Some? && title.value != "" ==> r == title.value
  {
    if title.Some? && title.value != "" then title.value else "Untitled"
  }

  /** The card's accessible name: "Note " and the title, or "untitled" in the
      case where the heading says "Untitled". */
  function AriaLabel(title: Option<string>): (r: string)
    ensures |r| >= 5 && r[..5] == "Note "
    ensures title.None? || title.value == "" ==> r[5..] == "untitled"
    ensures title.Some? && title.value != "" ==> r[5..] == title.value == DisplayTitle(title)
  {
    "Note " + (if title.Some? && title.value != "" then title.value else "untitled")
  }
}
