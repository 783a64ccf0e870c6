/** The `NoteForm` component: title, content and tag-chip editing, and
    validation on submit. The form keeps its tag list free of empty and
    repeated tags; `onSave` is modelled as the draft `HandleSubmit` returns. */
module Form {
  import opened Wrappers
  import opened Text
  import opened Lists
  import opened Store

  const MissingTextMessage: string := "Please enter a title or content for your note."

  /** `initialData?.title || ''`. */
  function InitialTitle(initial: Option<Note>): string {
    if initial.Some? then OrEmpty(initial.value.title) else ""
  }

  /** `initialData?.content || ''`. */
  function InitialContent(initial: Option<Note>): string {
    if initial.Some? then OrEmpty(initial.value.content) else ""
  }

  /** `initialData?.tags || []`. */
  function InitialTags(initial: Option<Note>): seq<string> {
    if initial.Some? then TagsOf(initial.value) else []
  }

  /** `initialData?.id`. */
  function DraftId(initial: Option<Note>): Option<string> {
    if initial.Some? then Some(initial.value.id) else None
  }

  /** What `addTag` does to the tags and the tag input: a blank input changes
      nothing; an input whose trimmed text is already a tag only clears the
      input; any other input is appended, trimmed, and the input cleared. */
  ghost predicate AddTagStep(tags: seq<string>, input: string, tags': seq<string>, input': string) {
    var t := Trim(input);
    if t == "" then tags' == tags && input' == input
    else if t in tags then tags' == tags && input' == ""
    else tags' == tags + [t] && input' == ""
  }

  /** Appending a trimmed, non-empty, new tag keeps the tag list well-formed. */
  lemma AppendTagKeepsWellFormed(tags: seq<string>, input: string)
    requires TagsWellFormed(tags)
    requires Trim(input) != "" && Trim(input) !in tags
    ensures TagsWellFormed(tags + [Trim(input)])
  {
    var r := tags + [Trim(input)];
    forall i, j | 0 <= i < j < |r| ensures r[i] != r[j] {
      if j == |tags| { assert r[i] in tags; }
    }
  }

  /** `tags.filter(tag => tag !== t)`: every occurrence of `t` removed, the
      other tags kept in order, each as often as before. */
  function Without(tags: seq<string>, t: string): (r: seq<string>)
    ensures IsSubsequence(r, tags)
    ensures forall x :: x in r <==> x in tags && x != t
    ensures forall x :: x != t ==> multiset(r)[x] == multiset(tags)[x]
    ensures t !in tags ==> r == tags
  {
    var keep := (tag: string) => tag != t;
    KeepIsSubsequence(tags, keep);
    KeepCount(tags, keep);
    if t !in tags then
      KeepAll(tags, keep);
      Keep(tags, keep)
    else
      Keep(tags, keep)
  }

  /** Removing a tag keeps the tag list well-formed. */
  lemma WithoutKeepsWellFormed(tags: seq<string>, t: string)
    requires TagsWellFormed(tags)
    ensures TagsWellFormed(Without(tags, t))
  {
    var r := Without(tags, t);
    KeepDistinct(tags, (tag: string) => tag != t);
    forall i | 0 <= i < |r| ensures ValidTag(r[i]) {
      assert r[i] in tags;
    }
  }

  /** Dropping the last tag keeps the tag list well-formed. */
  lemma DropLastKeepsWellFormed(tags: seq<string>)
    requires tags != [] && TagsWellFormed(tags)
    ensures TagsWellFormed(tags[..|tags| - 1])
  {
  }

  class NoteForm {
    /** The note being edited, or `None` for a new note. */
    var initialData: Option<Note>
    var title: string
    var content: string
    var tagInput: string
    var tags: seq<string>
    var error: string

    /** The initial state: fields copied from the note being edited, empty
        otherwise. */
    constructor (initial: Option<Note>)
      ensures initialData == initial
      ensures title == InitialTitle(initial) && content == InitialContent(initial)
      ensures tags == InitialTags(initial)
      ensures tagInput == "" && error == ""
      ensures initial.Some? && NoteWellFormed(initial.value) ==> TagsWellFormed(tags)
    {
      initialData := initial;
      title := InitialTitle(initial);
      content := InitialContent(initial);
      tagInput := "";
      tags := InitialTags(initial);
      error := "";
    }

    /** The effect on `initialData`: a new note to edit resets title, content
        and tags, and leaves the tag input and the error message alone. */
    method Reload(initial: Option<Note>)
      modifies this
      ensures initialData == initial
      ensures title == InitialTitle(initial) && content == InitialContent(initial)
      ensures tags == InitialTags(initial)
      ensures tagInput == old(tagInput) && error == old(error)
    {
      initialData := initial;
      title := InitialTitle(initial);
      content := InitialContent(initial);
      tags := InitialTags(initial);
    }

    /** The title field's `onChange`. */
    method SetTitle(s: string)
      modifies this
      ensures title == s
      ensures content == old(content) && tagInput == old(tagInput) && tags == old(tags)
      ensures error == old(error) && initialData == old(initialData)
    {
      title := s;
    }

    /** The content field's `onChange`. */
    method SetContent(s: string)
      modifies this
      ensures content == s
      ensures title == old(title) && tagInput == old(tagInput) && tags == old(tags)
      ensures error == old(error) && initialData == old(initialData)
    {
      content := s;
    }

    /** The tag field's `onChange`. */
    method SetTagInput(s: string)
      modifies this
      ensures tagInput == s
      ensures title == old(title) && content == old(content) && tags == old(tags)
      ensures error == old(error) && initialData == old(initialData)
    {
      tagInput := s;
    }

    /** `addTag`, with its two early returns. */
    method AddTag()
      modifies this
      ensures AddTagStep(old(tags), old(tagInput), tags, tagInput)
      ensures title == old(title) && content == old(content)
      ensures error == old(error) && initialData == old(initialData)
      ensures TagsWellFormed(old(tags)) ==> TagsWellFormed(tags)
    {
      var t := Trim(tagInput);
      if t == "" {
        return;
      }
      if t in tags {
        tagInput := "";
        return;
      }
      if TagsWellFormed(tags) {
        AppendTagKeepsWellFormed(tags, tagInput);
      }
      tags := tags + [t];
      tagInput := "";
    }

    /** `removeTag`: the chip's remove button. */
    method RemoveTag(t: string)
      modifies this
      ensures tags == Without(old(tags), t)
      ensures title == old(title) && content == old(content) && tagInput == old(tagInput)
      ensures error == old(error) && initialData == old(initialData)
      ensures TagsWellFormed(old(tags)) ==> TagsWellFormed(tags)
    {
      if TagsWellFormed(tags) {
        WithoutKeepsWellFormed(tags, t);
      }
      tags := Without(tags, t);
    }

    /** `handleSubmit`: with a blank title and a blank content it sets the
        error message and saves nothing; otherwise it clears the error and
        hands `onSave` the note's id, the trimmed title and content and the
        tags. A saved draft from a well-formed tag list is well-formed. */
    method HandleSubmit() returns (saved: Option<Draft>)
      modifies this
      ensures Trim(title) == "" && Trim(content) == "" ==> saved == None && error == MissingTextMessage
      ensures !(Trim(title) == "" && Trim(content) == "") ==>
                error == "" && saved == Some(Draft(DraftId(initialData), Trim(title), Trim(content), tags))
      ensures saved.Some? && TagsWellFormed(tags) ==> DraftWellFormed(saved.value)
      ensures title == old(title) && content == old(content) && tagInput == old(tagInput)
      ensures tags == old(tags) && initialData == old(initialData)
    {
      var t, c := Trim(title), Trim(content);
      if t == "" && c == "" {
        error := MissingTextMessage;
        return None;
      }
      var d := Draft(DraftId(initialData), t, c, tags);
      if TagsWellFormed(tags) {
        assert IsTrimmed(t) && IsTrimmed(c);
      }
      error := "";
      saved := Some(d);
    }

    /** `handleKeyDownTag`: Enter and comma add the typed tag; Backspace in an
        empty tag field removes the last tag; other keys change nothing. */
    method HandleKeyDownTag(key: string)
      modifies this
      ensures key == "Enter" || key == "," ==> AddTagStep(old(tags), old(tagInput), tags, tagInput)
      ensures key == "Backspace" ==>
                tagInput == old(tagInput) &&
                tags == if old(tagInput) == "" && old(tags) != [] then old(tags)[..|old(tags)| - 1] else old(tags)
      ensures key != "Enter" && key != "," && key != "Backspace" ==> tags == old(tags) && tagInput == old(tagInput)
      ensures title == old(title) && content == old(content)
      ensures error == old(error) && initialData == old(initialData)
      ensures TagsWellFormed(old(tags)) ==> TagsWellFormed(tags)
    {
      if key == "Enter" || key == "," {
        AddTag();
      }
      if key == "Backspace" && tagInput == "" && tags != [] {
        tags := tags[..|tags| - 1];
      }
    }
  }
}
