/** The note collection of the app (`notes` in `App.js`) and the pure list
    updates behind its handlers: create by prepending, update by merging the
    form's fields into the note with the same id, delete by filtering. */
module Store {
  import opened Wrappers
  import opened Text
  import opened Lists

  /** A stored note. `title`, `content` and `tags` are optional because notes
      read back from storage are taken as they were saved; `createdAt` is in
      milliseconds since the epoch. */
  datatype Note = Note(id: string, title: Option<string>, content: Option<string>,
                       tags: Option<seq<string>>, createdAt: int)

  /** What the form hands to `upsertNote`: the id of the note being edited, if
      any, and the fields to store. */
  datatype Draft = Draft(id: Option<string>, title: string, content: string, tags: seq<string>)

  /** `x || ''` for an optional string. */
  function OrEmpty(s: Option<string>): string {
    s.GetOr("")
  }

  /** `n.tags || []`. */
  function TagsOf(n: Note): seq<string> {
    n.tags.GetOr([])
  }

  /** `!partial.id`: no id at all, or the empty string, which JavaScript also
      treats as false. */
  predicate IsFalsyId(id: Option<string>) {
    id.None? || id.value == ""
  }

  /** A tag chip as the form makes it: non-empty and already trimmed. */
  predicate ValidTag(t: string) {
    t != "" && IsTrimmed(t)
  }

  /** The tag list of a note: valid tags, none twice. */
  predicate TagsWellFormed(tags: seq<string>) {
    Distinct(tags) && forall i :: 0 <= i < |tags| ==> ValidTag(tags[i])
  }

  /** A note as the app itself creates it: a non-blank title or content and a
      well-formed tag list. */
  predicate NoteWellFormed(n: Note) {
    && (!Blank(OrEmpty(n.title)) || !Blank(OrEmpty(n.content)))
    && n.tags.Some?
    && TagsWellFormed(n.tags.value)
  }

  /** No two notes share an id. */
  predicate UniqueIds(ns: seq<Note>) {
    forall i, j :: 0 <= i < j < |ns| ==> ns[i].id != ns[j].id
  }

  /** The collection invariant: unique ids and well-formed notes. */
  predicate WellFormed(ns: seq<Note>) {
    UniqueIds(ns) && forall n :: n in ns ==> NoteWellFormed(n)
  }

  /** A draft as a successful form submission produces it: trimmed title and
      content, not both empty, and a well-formed tag list. */
  predicate DraftWellFormed(d: Draft) {
    && (d.title != "" || d.content != "")
    && IsTrimmed(d.title)
    && IsTrimmed(d.content)
    && TagsWellFormed(d.tags)
  }

  /** `{ ...n, ...partial }`: the draft's title, content and tags over `n`. */
  function Patch(n: Note, d: Draft): Note {
    n.(title := Some(d.title), content := Some(d.content), tags := Some(d.tags))
  }

  /** `{ ...partial, id, createdAt }`: the note the create branch builds. */
  function NewNote(d: Draft, freshId: string, now: int): Note {
    Note(freshId, Some(d.title), Some(d.content), Some(d.tags), now)
  }

  /** `prev.map(n => n.id === id ? { ...n, ...partial } : n)`. */
  function MergeUpdate(ns: seq<Note>, id: string, d: Draft): (r: seq<Note>)
    ensures |r| == |ns|
    ensures forall i :: 0 <= i < |ns| ==> r[i].id == ns[i].id && r[i].createdAt == ns[i].createdAt
    ensures forall i :: 0 <= i < |ns| && ns[i].id != id ==> r[i] == ns[i]
    ensures forall i :: 0 <= i < |ns| && ns[i].id == id ==>
              r[i].title == Some(d.title) && r[i].content == Some(d.content) && r[i].tags == Some(d.tags)
    ensures (forall i :: 0 <= i < |ns| ==> ns[i].id != id) ==> r == ns
  {
    if ns == [] then []
    else [if ns[0].id == id then Patch(ns[0], d) else ns[0]] + MergeUpdate(ns[1..], id, d)
  }

  /** The new list `upsertNote` computes: a draft without an id becomes a new
      note at the front; a draft with an id is merged into the notes with that
      id. */
  function Upsert(ns: seq<Note>, d: Draft, freshId: string, now: int): (r: seq<Note>)
    ensures IsFalsyId(d.id) ==>
              && |r| == |ns| + 1 && r[1..] == ns
              && r[0].id == freshId && r[0].createdAt == now
              && r[0].title == Some(d.title) && r[0].content == Some(d.content) && r[0].tags == Some(d.tags)
    ensures !IsFalsyId(d.id) ==>
              && |r| == |ns|
              && (forall i :: 0 <= i < |ns| ==> r[i].id == ns[i].id && r[i].createdAt == ns[i].createdAt)
              && (forall i :: 0 <= i < |ns| ==> r[i] == if ns[i].id == d.id.value then Patch(ns[i], d) else ns[i])
  {
    if IsFalsyId(d.id) then [NewNote(d, freshId, now)] + ns
    else MergeUpdate(ns, d.id.value, d)
  }

  /** `prev.filter(n => n.id !== id)`: every note with that id is gone, every
      other note stays, as often as before and in the same order. */
  function RemoveId(ns: seq<Note>, id: string): (r: seq<Note>)
    ensures IsSubsequence(r, ns)
    ensures forall n :: n in r ==> n in ns && n.id != id
    ensures forall n: Note :: n.id != id ==> multiset(r)[n] == multiset(ns)[n]
    ensures (forall i :: 0 <= i < |ns| ==> ns[i].id != id) ==> r == ns
  {
    var keep := (n: Note) => n.id != id;
    KeepIsSubsequence(ns, keep);
    KeepCount(ns, keep);
    if forall i :: 0 <= i < |ns| ==> ns[i].id != id then
      KeepAll(ns, keep);
      Keep(ns, keep)
    else
      Keep(ns, keep)
  }

  /** The position of the first note with id `id`, or `|ns|` if there is none. */
  function FirstIndexOf(ns: seq<Note>, id: string): (k: nat)
    ensures k <= |ns|
    ensures forall j :: 0 <= j < k ==> ns[j].id != id
    ensures k < |ns| ==> ns[k].id == id
  {
    if ns == [] then 0
    else if ns[0].id == id then 0
    else 1 + FirstIndexOf(ns[1..], id)
  }

  /** `ns.find(n => n.id === id)`: the first note with that id, if any. */
  function FindById(ns: seq<Note>, id: string): (r: Option<Note>)
    ensures r.None? <==> forall i :: 0 <= i < |ns| ==> ns[i].id != id
    ensures r.Some? ==>
              && r.value.id == id
              && exists k :: 0 <= k < |ns| && ns[k] == r.value && forall j :: 0 <= j < k ==> ns[j].id != id
  {
    var k := FirstIndexOf(ns, id);
    if k < |ns| then Some(ns[k]) else None
  }

  /** A note built from a well-formed draft is well-formed. */
  lemma DraftMakesWellFormedNote(n: Note, d: Draft)
    requires DraftWellFormed(d)
    requires n.title == Some(d.title) && n.content == Some(d.content) && n.tags == Some(d.tags)
    ensures NoteWellFormed(n)
  {
  }

  /** Merging a well-formed draft keeps the collection invariant. */
  lemma MergeUpdateKeepsWellFormed(ns: seq<Note>, id: string, d: Draft)
    requires WellFormed(ns) && DraftWellFormed(d)
    ensures WellFormed(MergeUpdate(ns, id, d))
  {
    var r := MergeUpdate(ns, id, d);
    forall n | n in r ensures NoteWellFormed(n) {
      var i :| 0 <= i < |r| && r[i] == n;
      if ns[i].id == id {
        DraftMakesWellFormedNote(n, d);
      } else {
        assert n == ns[i];
      }
    }
  }

  /** Filtering keeps ids unique. */
  lemma {:induction false} KeepUniqueIds(ns: seq<Note>, p: Note -> bool)
    requires UniqueIds(ns)
    ensures UniqueIds(Keep(ns, p))
  {
    if ns != [] {
      var rest := Keep(ns[1..], p);
      KeepUniqueIds(ns[1..], p);
      if p(ns[0]) {
        var r := [ns[0]] + rest;
        assert Keep(ns, p) == r;
        forall m | m in rest ensures m.id != ns[0].id {
          assert m in ns[1..];
          var k :| 0 <= k < |ns| - 1 && ns[1..][k] == m;
          assert ns[k + 1] == m;
        }
        forall i, j | 0 <= i < j < |r| ensures r[i].id != r[j].id {
          assert r[j] == rest[j - 1];
          if i > 0 { assert r[i] == rest[i - 1]; }
        }
      } else {
        assert Keep(ns, p) == rest;
      }
    }
  }

  /** Deleting keeps the collection invariant. */
  lemma RemoveIdKeepsWellFormed(ns: seq<Note>, id: string)
    requires WellFormed(ns)
    ensures WellFormed(RemoveId(ns, id))
  {
    KeepUniqueIds(ns, (n: Note) => n.id != id);
  }

  /** Creating or updating from a well-formed draft, with an id no note has,
      keeps the collection invariant. */
  lemma UpsertKeepsWellFormed(ns: seq<Note>, d: Draft, freshId: string, now: int)
    requires WellFormed(ns) && DraftWellFormed(d)
    requires IsFalsyId(d.id) ==> forall n :: n in ns ==> n.id != freshId
    ensures WellFormed(Upsert(ns, d, freshId, now))
  {
    if IsFalsyId(d.id) {
      var r := Upsert(ns, d, freshId, now);
      DraftMakesWellFormedNote(r[0], d);
      forall i, j | 0 <= i < j < |r| ensures r[i].id != r[j].id {
        assert r[j] == ns[j - 1];
        if i > 0 { assert r[i] == ns[i - 1]; }
      }
    } else {
      MergeUpdateKeepsWellFormed(ns, d.id.value, d);
    }
  }
}
