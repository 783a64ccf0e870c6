# Daily Journal notes app — a Dafny model of its note logic

The app is a client-side notes journal: the user creates, edits, deletes,
tags and searches short notes, and switches between a light and a dark
theme. Everything lives in the browser and is persisted to local storage.
This project models the app's logic, which sits in three React components:

- `App.js` is the note collection and view state. It keeps `notes`, `theme`,
  `query`, `editingNoteId` and `showForm`. Its handlers step that state:
  create/update (`upsertNote`), confirmed delete, open/cancel the form, and
  toggle the theme. The new note lists are computed by pure list expressions:
  prepend, `map` merge and `filter`. Its derived values are `editingNote` and
  `filteredNotes`, the trimmed, case-insensitive search. Two initialisers
  choose the first theme and the first notes (stored, sample or none).
- `NoteForm.js` is the editing form. It handles tag chips (add, remove,
  Backspace drops the last one) and checks on submit that the title or the
  content is non-blank.
- `NoteItem.js` shows a note: a 180-character excerpt and an "Untitled"
  fallback for the title.

Files and modules:

| file | module | what it holds |
|---|---|---|
| `wrappers.dfy` | `Wrappers` | `Option`, for a missing field or a failed lookup |
| `text.dfy` | `Text` | `trim` (the exact ECMAScript whitespace set), `toLowerCase`, `includes` |
| `lists.dfy` | `Lists` | `Array.prototype.filter` (`Keep`), subsequences, duplicate-free lists |
| `store.dfy` | `Store` | `Note`, `Draft`, create/update/delete/find, and the collection invariant |
| `search.dfy` | `Search` | `filteredNotes` |
| `theme.dfy` | `Theme` | `toggleTheme` |
| `bootstrap.dfy` | `Bootstrap` | the theme and notes initialisers and the five sample notes |
| `app.dfy` | `Journal` | class `App` with the component's state and handlers, plus a client scenario |
| `note_form.dfy` | `Form` | class `NoteForm` with the form's state and handlers |
| `note_item.dfy` | `NoteView` | the excerpt and the title fallback |

Inputs the model takes as parameters:
- The new note's id (`crypto.randomUUID`), with the precondition that no
  stored note has it.
- The five sample ids and the current time (`Date.now`).
- The answer of the confirmation dialog, as a boolean.
- The system dark-mode hint (`matchMedia`), as a boolean.
- What storage returned: `Stored<T> = Absent | Present(value) | Unreadable`.

The persistence effects are modelled as two ghost fields of `App`. They hold
what was last written to storage, and `App.Valid()` says that they equal the
current notes and theme after every handler.

The collection invariant is `Store.WellFormed`:
- ids are unique;
- every note has a non-blank title or content;
- every note's tags are non-empty, trimmed and distinct.

Stored data need not satisfy it, because storage gives back whatever was saved.
So every handler promises to *preserve* it, and the lemmas prove that:
- the samples satisfy it;
- the form submits drafts that keep it whenever its tags are well-formed,
  which is always so for a new note or a well-formed edited note.

The app's code is simpler than a typical note store:
- `upsertNote` has no not-found error and no validation. An unknown id leaves
  the list unchanged. The non-blank check lives in the form's submit.
- Tags are not normalised by the store. The form trims each tag, ignores
  blank ones and skips duplicates one `addTag` at a time.
- A storage read or parse failure gives an empty list, not the samples. Also
  the notes effect then writes `[]` back, so later loads do not seed either.

## Model

| member | source | states |
|---|---|---|
| `Text.TrimStart` | journal_frontend/src/App.js:161 | removing leading whitespace gives a string no longer than the input that does not start with whitespace |
| `Text.TrimStartSplit` | journal_frontend/src/App.js:161 | what leading-whitespace removal keeps is the suffix of the input after a blank prefix |
| `Text.TrimEnd` | journal_frontend/src/App.js:161 | removing trailing whitespace gives a string no longer than the input that does not end with whitespace and starts where the input starts |
| `Text.TrimEndSplit` | journal_frontend/src/App.js:161 | what trailing-whitespace removal keeps is the prefix of the input before a blank suffix |
| `Text.Trim` | journal_frontend/src/App.js:161 | `trim()` returns a string no longer than the input with no whitespace at either end |
| `Text.TrimIsSlice` | journal_frontend/src/App.js:161 | `trim()` returns a slice of the input with blank margins on both sides |
| `Text.TrimEmptyIffBlank` | journal_frontend/src/components/NoteForm.js:42 | a string trims to empty exactly when all its characters are whitespace |
| `Text.TrimOfTrimmed` | journal_frontend/src/components/NoteForm.js:26 | a string with no whitespace at either end is unchanged by `trim()` |
| `Text.TrimIdempotent` | journal_frontend/src/components/NoteForm.js:26 | trimming twice equals trimming once |
| `Text.Lower` | journal_frontend/src/App.js:161 | `toLowerCase` keeps the length, leaves no ASCII capital, keeps every other character and maps each capital to its small letter |
| `Text.LowerCharWhitespace` | journal_frontend/src/App.js:161 | lower-casing a character neither creates nor removes whitespace |
| `Text.LowerTrimStart` | journal_frontend/src/App.js:161 | lower-casing commutes with removing leading whitespace |
| `Text.LowerTrimEnd` | journal_frontend/src/App.js:161 | lower-casing commutes with removing trailing whitespace |
| `Text.LowerTrimCommute` | journal_frontend/src/App.js:161 | `s.trim().toLowerCase()` equals `s.toLowerCase().trim()` |
| `Text.Contains` | journal_frontend/src/App.js:164-166 | `includes` holds for the empty query and never for a query longer than the string |
| `Text.ContainsIff` | journal_frontend/src/App.js:164-166 | `includes` holds exactly when the query occurs at some position of the string |
| `Lists.Keep` | journal_frontend/src/App.js:163-168 | `filter` returns no more elements than the input; an element is in the result exactly when it is in the input and satisfies the predicate |
| `Lists.KeepCount` | journal_frontend/src/App.js:163-168 | `filter` keeps each element satisfying the predicate as often as it occurs in the input, and no other element |
| `Lists.KeepIsSubsequence` | journal_frontend/src/App.js:130 | `filter` keeps the relative order of the elements it keeps |
| `Lists.KeepAll` | journal_frontend/src/App.js:130 | a `filter` whose predicate holds everywhere returns its input unchanged |
| `Lists.KeepDistinct` | journal_frontend/src/components/NoteForm.js:37 | filtering a duplicate-free list gives a duplicate-free list |
| `Lists.SubsequenceReflexive` | journal_frontend/src/App.js:162 | every list is an order-preserving subsequence of itself |
| `Store.MergeUpdate` | journal_frontend/src/App.js:149 | the update keeps the length and every id and `createdAt`; notes with another id are unchanged; notes with the id take the draft's title, content and tags; an unknown id gives back the same list |
| `Store.Upsert` | journal_frontend/src/App.js:138-150 | a draft with a falsy id gives the new note (fresh id, `createdAt` = now, the draft's fields) followed by the old list unchanged; a draft with an id keeps the length and merges into exactly the notes with that id |
| `Store.RemoveId` | journal_frontend/src/App.js:130 | delete keeps an order-preserving subsequence with no note of that id; every other note keeps its multiplicity; an unknown id gives back the same list |
| `Store.FirstIndexOf` | journal_frontend/src/App.js:156 | the position of the first note with the id, or the length when there is none |
| `Store.FindById` | journal_frontend/src/App.js:156 | `find` returns nothing exactly when no note has the id, otherwise the first note with it |
| `Store.DraftMakesWellFormedNote` | journal_frontend/src/App.js:141-149 | a note taking a well-formed draft's fields is well-formed |
| `Store.MergeUpdateKeepsWellFormed` | journal_frontend/src/App.js:149 | an update with a well-formed draft preserves the collection invariant |
| `Store.KeepUniqueIds` | journal_frontend/src/App.js:130 | filtering the notes keeps ids unique |
| `Store.RemoveIdKeepsWellFormed` | journal_frontend/src/App.js:130 | delete preserves the collection invariant |
| `Store.UpsertKeepsWellFormed` | journal_frontend/src/App.js:137-150 | create with an unused id, or update, from a well-formed draft preserves the collection invariant |
| `Search.Select` | journal_frontend/src/App.js:163-168 | the selection is an order-preserving subsequence holding exactly the notes whose lower-cased title, content or some tag contains the query, each as often as in the list; a missing field counts as empty |
| `Search.Filter` | journal_frontend/src/App.js:160-169 | a query that trims to empty gives back the note list unchanged; any other query gives the selection for the trimmed, lower-cased query |
| `Search.FilterIgnoresQueryCase` | journal_frontend/src/App.js:161 | queries that differ only in letter case select the same notes |
| `Search.FilterKeepsUniqueIds` | journal_frontend/src/App.js:160-169 | the shown list has unique ids when the collection has |
| `Search.UpperCaseQueryFindsTag` | journal_frontend/src/App.js:166 | searching "WORK" finds a note tagged "work" |
| `Theme.ToggleTheme` | journal_frontend/src/App.js:113-115 | the result is light or dark, and it is dark exactly when the old theme was light |
| `Theme.ToggleTwice` | journal_frontend/src/App.js:113-115 | toggling twice from light or dark returns to it |
| `Bootstrap.InitialTheme` | journal_frontend/src/App.js:19-28 | a saved "light"/"dark" wins; otherwise the result is dark exactly when the system prefers dark; a read failure gives light; the result is always light or dark |
| `Bootstrap.SampleAge` | journal_frontend/src/App.js:48-78 | every sample note is dated strictly before the first load |
| `Bootstrap.SampleNotes` | journal_frontend/src/App.js:36-81 | five sample notes carrying the generated ids in order, all created before now |
| `Bootstrap.InitialNotes` | journal_frontend/src/App.js:31-86 | stored notes are used whenever something is stored, even an empty list; the five samples only when nothing is stored; no notes when reading or parsing fails |
| `Bootstrap.SampleTitleVisible` | journal_frontend/src/App.js:44-75 | every sample title is non-blank |
| `Bootstrap.SampleTagsWellFormed` | journal_frontend/src/App.js:47-77 | every sample's tags are two different valid tags |
| `Bootstrap.SampleNotesWellFormed` | journal_frontend/src/App.js:36-81 | with distinct ids the samples satisfy the collection invariant |
| `Journal.App.constructor` | journal_frontend/src/App.js:19-110 | the first state is the two initialisers' choice, an empty query and a closed form, both persisted |
| `Journal.App.EditingNote` | journal_frontend/src/App.js:155-158 | `editingNote` is the first note of the list whose id is `editingNoteId`; it is missing exactly when no note is being edited or none has that id |
| `Journal.App.FilteredNotes` | journal_frontend/src/App.js:160-169 | the shown list keeps the order of the notes; it is all notes for a query that trims to empty, otherwise the selection for the trimmed, lower-cased query |
| `Journal.App.ToggleTheme` | journal_frontend/src/App.js:113-115 | the theme is toggled and persisted; nothing else changes |
| `Journal.App.SetQuery` | journal_frontend/src/App.js:195 | the query is replaced; nothing else changes |
| `Journal.App.HandleCreate` | journal_frontend/src/App.js:117-120 | the form opens with no note being edited |
| `Journal.App.HandleEdit` | journal_frontend/src/App.js:122-125 | the form opens on the given id |
| `Journal.App.Cancel` | journal_frontend/src/App.js:204-207 | the form closes and no note is being edited |
| `Journal.App.HandleDelete` | journal_frontend/src/App.js:127-135 | unconfirmed: no note changes; confirmed: the notes become `RemoveId` of the old ones, and the form closes only if it was editing that id, otherwise it is unchanged; the collection invariant is preserved |
| `Journal.App.UpsertNote` | journal_frontend/src/App.js:137-153 | the notes become `Upsert` of the old ones and are persisted; the form always ends closed with no note being edited; the invariant is preserved for a well-formed draft; only a create needs an id that no note has |
| `Journal.PersonalFindsGroceries` | journal_frontend/src/App.js:137-168 | after creating Groceries (personal) and then Standup (work), searching "personal" shows only Groceries |
| `Form.AppendTagKeepsWellFormed` | journal_frontend/src/components/NoteForm.js:32 | appending a new, non-blank trimmed tag keeps the tags distinct and valid |
| `Form.Without` | journal_frontend/src/components/NoteForm.js:37 | `removeTag` removes every occurrence of the tag and keeps every other tag in order, as often as before; an absent tag changes nothing |
| `Form.WithoutKeepsWellFormed` | journal_frontend/src/components/NoteForm.js:37 | removing a tag keeps the tags distinct and valid |
| `Form.DropLastKeepsWellFormed` | journal_frontend/src/components/NoteForm.js:62 | dropping the last tag keeps the tags distinct and valid |
| `Form.NoteForm.constructor` | journal_frontend/src/components/NoteForm.js:13-17 | the form starts with the edited note's title, content and tags, or empty ones when a field or the note is missing; the tag input and the error start empty |
| `Form.NoteForm.Reload` | journal_frontend/src/components/NoteForm.js:19-23 | a new `initialData` resets the title, content and tags the same way; the tag input and the error stay |
| `Form.NoteForm.SetTitle` | journal_frontend/src/components/NoteForm.js:76 | the title is replaced; nothing else changes |
| `Form.NoteForm.SetContent` | journal_frontend/src/components/NoteForm.js:87 | the content is replaced; nothing else changes |
| `Form.NoteForm.SetTagInput` | journal_frontend/src/components/NoteForm.js:101 | the tag input is replaced; nothing else changes |
| `Form.NoteForm.AddTag` | journal_frontend/src/components/NoteForm.js:25-34 | blank input: nothing changes; a trimmed input already present: only the input is cleared; otherwise the trimmed input is appended and the input cleared; the tags stay distinct and valid |
| `Form.NoteForm.RemoveTag` | journal_frontend/src/components/NoteForm.js:36-38 | the tags become `Without` the removed tag and stay distinct and valid |
| `Form.NoteForm.HandleSubmit` | journal_frontend/src/components/NoteForm.js:40-53 | blank title and blank content: the error is set and nothing is saved; otherwise the error is cleared and the draft is saved once, holding the note's id, the trimmed title and content and the tags; the draft is well-formed when the form's tags are (always for a new note or a well-formed edited note) |
| `Form.NoteForm.HandleKeyDownTag` | journal_frontend/src/components/NoteForm.js:55-64 | Enter or comma acts as `addTag`; Backspace with an empty input and some tags drops only the last tag; any other key changes no tag and not the input |
| `NoteView.Excerpt` | journal_frontend/src/components/NoteItem.js:15 | content of at most 180 characters is shown whole; longer content becomes its first 180 characters plus an ellipsis, 181 in all; the excerpt without a final ellipsis is always a prefix of the content |
| `NoteView.ExcerptIdempotent` | journal_frontend/src/components/NoteItem.js:15 | the excerpt of an excerpt is the same excerpt |
| `NoteView.DisplayTitle` | journal_frontend/src/components/NoteItem.js:20 | "Untitled" for a missing or empty title, the title itself otherwise; never empty |
| `NoteView.AriaLabel` | journal_frontend/src/components/NoteItem.js:18 | "Note " followed by "untitled" for a missing or empty title, otherwise by the heading's title |

## Left out

- Rendering is presentation only and not modelled. That covers JSX, CSS
  classes, aria markup other than the label text, `data-theme` on the
  document element, and the date formatting in `NoteItem`
  (`toISOString`, `toLocaleDateString`).
- `services/storage.js`, `NotesList.js` and `SearchBar.js` are not part of
  this model. They hold no logic beyond an emptiness check, and `App.js`
  does not call the storage service. The search bar appears only as
  `App.SetQuery`.
- JSON parsing and serialisation are not modelled. What a read returned is an
  input of type `Stored<T>`.
- A stored value that parses to something other than a note list is not
  represented. Neither is a stored empty string, which JavaScript treats
  like a missing one; a caller passes that as `Absent`.
- Failed storage writes are swallowed by the source. The ghost copy in `App`
  records the value the effect tried to write, as if the write succeeded.
- Several sources of randomness and environment are parameters:
  `crypto.randomUUID` and its fallback, `Date.now`, `window.confirm` and
  `matchMedia`. Distinct generated ids and a non-decreasing clock are not
  modelled. The only assumption is that a new id is not already in use.
- React's render cycle is not modelled. That covers batched state updates,
  stale closures and the `key` remount of the form. Each handler is a
  sequential step on the latest state. The `App` does not own a `NoteForm`:
  a caller opens one on `App.EditingNote()`.
- `Text.LowerChar`: lower-cases only the ASCII letters `A`–`Z`. JavaScript
  also maps other Unicode letters, so search is case-insensitive only for
  ASCII here.
- `NoteView.Excerpt`: lengths are counted in Unicode scalar values. JavaScript
  counts UTF-16 code units, so for content with characters outside the Basic
  Multilingual Plane the cut point differs, and the source can even split a
  surrogate pair.
- `NoteView.Excerpt` and the tag chips: the card assumes a note with content
  and tags. A stored note without them makes `NoteItem` throw, and the model
  does not represent that failure; the excerpt takes the content as a plain
  string.
