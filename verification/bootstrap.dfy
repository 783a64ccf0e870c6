/** The two state initialisers of `App.js`: the theme from the saved preference
    or the system hint, and the notes from storage or, on first load, five
    sample notes. Storage, the clock, the id generator and the system colour
    scheme are inputs. */
module Bootstrap {
  import opened Wrappers
  import opened Text
  import opened Lists
  import opened Store
  import opened Theme

  /** What reading a storage key gave: nothing stored, a stored (and, for notes,
      parsed) value, or an exception while reading or parsing. */
  datatype Stored<T> = Absent | Present(value: T) | Unreadable

  /** The initial theme: a saved "light" or "dark" wins; otherwise the system's
      dark-mode hint decides; a failure while reading gives light. */
  function InitialTheme(saved: Stored<string>, prefersDark: bool): (r: string)
    ensures ValidTheme(r)
    ensures saved.Present? && ValidTheme(saved.value) ==> r == saved.value
    ensures saved.Unreadable? ==> r == "light"
    ensures !saved.Unreadable? && !(saved.Present? && ValidTheme(saved.value)) ==>
              (r == "dark" <==> prefersDark)
  {
    match saved
    case Unreadable => "light"
    case Present(s) =>
      if s == "light" || s == "dark" then s
      else if prefersDark then "dark" else "light"
    case Absent => if prefersDark then "dark" else "light"
  }

  const MinuteMs: int := 1000 * 60
  const HourMs: int := 60 * MinuteMs
  const DayMs: int := 24 * HourMs

  /** How long before the first load each demo note was written: one day, two
      days, one week, six hours and thirty minutes. */
  function SampleAge(k: nat): (ms: int)
    requires k < 5
    ensures ms > 0
  {
    match k
    case 0 => DayMs
    case 1 => 2 * DayMs
    case 2 => 7 * DayMs
    case 3 => 6 * HourMs
    case 4 => 30 * MinuteMs
  }

  function SampleTitle(k: nat): string
    requires k < 5
  {
    match k
    case 0 => "Morning standup notes"
    case 1 => "Grocery list"
    case 2 => "Book highlights: Atomic Habits"
    case 3 => "Project X brainstorming"
    case 4 => "Workout log"
  }

  function SampleContent(k: nat): string
    requires k < 5
  {
    match k
    case 0 => "Discussed sprint progress: API integration in progress, blockers on auth flow. Follow up with backend team by EOD."
    case 1 => "- Oat milk\n- Eggs\n- Spinach\n- Coffee beans\n- Dark chocolate"
    case 2 => "Small consistent improvements compound. Design environment for success. Cue -> Craving -> Response -> Reward."
    case 3 => "Ideas: offline-first approach, optimistic updates, tagging system for quick filtering, keyboard shortcuts."
    case 4 => "5km run at easy pace. Mobility routine for hips and shoulders. Felt energized."
  }

  function SampleTags(k: nat): seq<string>
    requires k < 5
  {
    match k
    case 0 => ["work", "standup"]
    case 1 => ["personal", "shopping"]
    case 2 => ["reading", "personal-growth"]
    case 3 => ["work", "ideas"]
    case 4 => ["health", "fitness"]
  }

  /** The five demo notes of a first load, in the order listed, with ids from
      the id generator and creation times before `now`. */
  function SampleNotes(ids: seq<string>, now: int): (r: seq<Note>)
    requires |ids| == 5
    ensures |r| == 5
    ensures forall i :: 0 <= i < 5 ==> r[i].id == ids[i] && r[i].createdAt < now
  {
    seq(5, k requires 0 <= k < 5 =>
      Note(ids[k], Some(SampleTitle(k)), Some(SampleContent(k)), Some(SampleTags(k)), now - SampleAge(k)))
  }

  /** The initial notes: whatever was stored, even an empty list; the samples
      only when nothing was stored; no notes when reading or parsing failed. */
  function InitialNotes(stored: Stored<seq<Note>>, seedIds: seq<string>, now: int): (r: seq<Note>)
    requires |seedIds| == 5
    ensures stored.Present? ==> r == stored.value
    ensures stored.Absent? ==> |r| == 5 && forall i :: 0 <= i < 5 ==> r[i].id == seedIds[i] && r[i].createdAt < now
    ensures stored.Unreadable? ==> r == []
  {
    match stored
    case Present(ns) => ns
    case Absent => SampleNotes(seedIds, now)
    case Unreadable => []
  }

  /** Each demo note has a visible title. */
  lemma SampleTitleVisible(k: nat)
    requires k < 5
    ensures !Blank(SampleTitle(k))
  {
    assert !IsWhitespace(SampleTitle(k)[0]);
  }

  /** Each demo note has two different visible tags. */
  lemma SampleTagsWellFormed(k: nat)
    requires k < 5
    ensures TagsWellFormed(SampleTags(k))
  {
    var tags := SampleTags(k);
    assert |tags| == 2 && tags[0] != tags[1];
    assert ValidTag(tags[0]) && ValidTag(tags[1]);
  }

  /** With distinct ids the samples satisfy the collection invariant. */
  lemma SampleNotesWellFormed(ids: seq<string>, now: int)
    requires |ids| == 5 && Distinct(ids)
    ensures WellFormed(SampleNotes(ids, now))
  {
    var r := SampleNotes(ids, now);
    forall n | n in r ensures NoteWellFormed(n) {
      var k :| 0 <= k < 5 && r[k] == n;
      SampleTitleVisible(k);
      SampleTagsWellFormed(k);
    }
  }
}
