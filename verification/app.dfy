/** The `App` component: the note collection, the theme, the search query and
    which note the form is editing, stepped by the component's handlers. The
    confirmation dialog, the id generator and the clock are parameters. */
module Journal {
  import opened Wrappers
  import Text
  import opened Lists
  import opened Store
  import opened Search
  import opened Bootstrap
  import Theme

  class App {
    var notes: seq<Note>
    var theme: string
    var query: string
    /** The id of the note open in the form; `None` while creating a new one. */
    var editingNoteId: Option<string>
    var showForm: bool

    /** What the two persistence effects last wrote to storage. */
    ghost var savedNotes: seq<Note>
    ghost var savedTheme: string

    /** The theme is one of the two values, and both effects have persisted the
        current state. */
    ghost predicate Valid()
      reads this
    {
      Theme.ValidTheme(theme) && savedNotes == notes && savedTheme == theme
    }

    /** The first render: both state initialisers, then both effects. */
    constructor (storedNotes: Stored<seq<Note>>, storedTheme: Stored<string>, prefersDark: bool,
                 seedIds: seq<string>, now: int)
      requires |seedIds| == 5
      ensures Valid()
      ensures notes == InitialNotes(storedNotes, seedIds, now)
      ensures theme == InitialTheme(storedTheme, prefersDark)
      ensures query == "" && editingNoteId == None && !showForm
    {
      notes := InitialNotes(storedNotes, seedIds, now);
      theme := InitialTheme(storedTheme, prefersDark);
      query := "";
      editingNoteId := None;
      showForm := false;
      savedNotes := notes;
      savedTheme := theme;
    }

    /** `editingNote`: the first note whose id is `editingNoteId`, if any. */
    function EditingNote(): (r: Option<Note>)
      reads this
      ensures r.Some? ==> editingNoteId == Some(r.value.id) && r.value in notes
      ensures r.Some? ==>
                exists k :: 0 <= k < |notes| && notes[k] == r.value
                            && forall j :: 0 <= j < k ==> notes[j].id != r.value.id
      ensures r.None? <==> editingNoteId.None? || forall i :: 0 <= i < |notes| ==> notes[i].id != editingNoteId.value
    {
      if editingNoteId.None? then None else FindById(notes, editingNoteId.value)
    }

    /** `filteredNotes`: the list the page shows for the current query. */
    function FilteredNotes(): (r: seq<Note>)
      reads this
      ensures IsSubsequence(r, notes)
      ensures Text.Trim(query) == [] ==> r == notes
      ensures Text.Trim(query) != [] ==> r == Select(notes, NormalizedQuery(query))
    {
      Filter(notes, query)
    }

    /** `toggleTheme`, followed by the effect that persists the theme. */
    method ToggleTheme()
      requires Valid()
      modifies this
      ensures Valid()
      ensures theme == Theme.ToggleTheme(old(theme))
      ensures notes == old(notes) && query == old(query)
      ensures editingNoteId == old(editingNoteId) && showForm == old(showForm)
    {
      theme := Theme.ToggleTheme(theme);
      savedTheme := theme;
    }

    /** The search bar's `onChange`. */
    method SetQuery(q: string)
      requires Valid()
      modifies this
      ensures Valid()
      ensures query == q
      ensures notes == old(notes) && theme == old(theme)
      ensures editingNoteId == old(editingNoteId) && showForm == old(showForm)
    {
      query := q;
    }

    /** `handleCreate`: open an empty form. */
    method HandleCreate()
      requires Valid()
      modifies this
      ensures Valid()
      ensures editingNoteId == None && showForm
      ensures notes == old(notes) && theme == old(theme) && query == old(query)
    {
      editingNoteId := None;
      showForm := true;
    }

    /** `handleEdit`: open the form on the note with id `id`. */
    method HandleEdit(id: string)
      requires Valid()
      modifies this
      ensures Valid()
      ensures editingNoteId == Some(id) && showForm
      ensures notes == old(notes) && theme == old(theme) && query == old(query)
    {
      editingNoteId := Some(id);
      showForm := true;
    }

    /** The form's `onCancel`: close it. */
    method Cancel()
      requires Valid()
      modifies this
      ensures Valid()
      ensures editingNoteId == None && !showForm
      ensures notes == old(notes) && theme == old(theme) && query == old(query)
    {
      showForm := false;
      editingNoteId := None;
    }

    /** `handleDelete`: nothing happens unless the user confirmed; otherwise
        every note with id `id` is removed (and the notes persisted), and the
        form closes if it was editing that note. */
    method HandleDelete(id: string, confirmed: bool)
      requires Valid()
      modifies this
      ensures Valid()
      ensures !confirmed ==> notes == old(notes)
      ensures confirmed ==> notes == RemoveId(old(notes), id)
      ensures if confirmed && old(editingNoteId) == Some(id) then !showForm && editingNoteId == None
              else showForm == old(showForm) && editingNoteId == old(editingNoteId)
      ensures theme == old(theme) && query == old(query)
      ensures WellFormed(old(notes)) ==> WellFormed(notes)
    {
      if !confirmed {
        return;
      }
      notes := RemoveId(notes, id);
      savedNotes := notes;
      if editingNoteId == Some(id) {
        showForm := false;
        editingNoteId := None;
      }
      if WellFormed(old(notes)) {
        RemoveIdKeepsWellFormed(old(notes), id);
      }
    }

    /** `upsertNote`, the form's `onSave`: a draft without an id becomes a new
        note with id `freshId` and creation time `now` at the front of the list;
        a draft with an id updates the notes with that id. Either way the notes
        are persisted and the form closes. */
    method UpsertNote(d: Draft, freshId: string, now: int)
      requires Valid()
      requires IsFalsyId(d.id) ==> forall n :: n in notes ==> n.id != freshId
      modifies this
      ensures Valid()
      ensures notes == Upsert(old(notes), d, freshId, now)
      ensures !showForm && editingNoteId == None
      ensures theme == old(theme) && query == old(query)
      ensures WellFormed(old(notes)) && DraftWellFormed(d) ==> WellFormed(notes)
    {
      notes := Upsert(notes, d, freshId, now);
      savedNotes := notes;
      showForm := false;
      editingNoteId := None;
      if WellFormed(old(notes)) && DraftWellFormed(d) {
        UpsertKeepsWellFormed(old(notes), d, freshId, now);
      }
    }
  }

  /** Searching "personal" in [Standup (work), Groceries (personal)] shows
      only the groceries. */
  lemma PersonalFindsGroceries(a: Note, b: Note)
    requires a == NewNote(Draft(None, "Groceries", "", ["personal"]), a.id, a.createdAt)
    requires b == NewNote(Draft(None, "Standup", "", ["work"]), b.id, b.createdAt)
    ensures Filter([b, a], "personal") == [a]
  {
    Text.TrimOfTrimmed("personal");
    assert NormalizedQuery("personal") == "personal";
    assert Matches(a, "personal") by {
      assert Text.Contains(Text.Lower(TagsOf(a)[0]), "personal");
    }
    assert !Matches(b, "personal") by {
      Text.ContainsIff(Text.Lower("Standup"), "personal");
      Text.ContainsIff(Text.Lower(""), "personal");
      Text.ContainsIff(Text.Lower("work"), "personal");
    }
    var matching := (n: Note) => Matches(n, "personal");
    assert [b, a][1..] == [a];
    assert Keep([a], matching) == [a];
    assert Keep([b, a], matching) == [a];
  }

  /** A session as a caller sees it through the contracts alone: starting
      from an explicitly saved empty list (no samples appear), create
      "Groceries" tagged personal, then "Standup" tagged work; the newest note
      comes first, and searching "personal" shows only the groceries. */
  method GroceriesThenStandup(idA: string, idB: string, t1: int, t2: int)
    requires idA != idB
  {
    var app := new App(Present([]), Absent, false, ["s0", "s1", "s2", "s3", "s4"], t1);
    assert app.notes == [];
    var draftA := Draft(None, "Groceries", "", ["personal"]);
    var draftB := Draft(None, "Standup", "", ["work"]);
    app.UpsertNote(draftA, idA, t1);
    var a := NewNote(draftA, idA, t1);
    assert app.notes == [a];
    app.UpsertNote(draftB, idB, t2);
    var b := NewNote(draftB, idB, t2);
    assert app.notes == [b, a];
    app.SetQuery("personal");
    PersonalFindsGroceries(a, b);
    assert app.FilteredNotes() == [a];
  }
}
