/** The search box (`filteredNotes` in `App.js`): a trimmed, case-insensitive
    substring search over title, content and tags that keeps the list order. */
module Search {
  import opened Wrappers
  import opened Text
  import opened Lists
  import opened Store

  /** The query as it is compared: trimmed, then lower-cased. */
  function NormalizedQuery(query: string): string {
    Lower(Trim(query))
  }

  /** The lower-cased title, content or one of the tags of `n` contains `q`;
      a missing title, content or tag list counts as empty. */
  predicate Matches(n: Note, q: string) {
    || Contains(Lower(OrEmpty(n.title)), q)
    || Contains(Lower(OrEmpty(n.content)), q)
    || exists i :: 0 <= i < |TagsOf(n)| && Contains(Lower(TagsOf(n)[i]), q)
  }

  /** The notes matching the normalised query `q`, each as often as in `ns`
      and in the same order. */
  function Select(ns: seq<Note>, q: string): (r: seq<Note>)
    ensures IsSubsequence(r, ns)
    ensures forall n: Note :: n in r <==> n in ns && Matches(n, q)
    ensures forall n: Note :: multiset(r)[n] == if Matches(n, q) then multiset(ns)[n] else 0
  {
    var matching := (n: Note) => Matches(n, q);
    KeepIsSubsequence(ns, matching);
    KeepCount(ns, matching);
    Keep(ns, matching)
  }

  /** `filteredNotes`: all notes, in order, for a query that trims to nothing;
      otherwise the notes that match the normalised query. */
  function Filter(ns: seq<Note>, query: string): (r: seq<Note>)
    ensures Trim(query) == [] ==> r == ns
    ensures Trim(query) != [] ==> r == Select(ns, NormalizedQuery(query))
    ensures IsSubsequence(r, ns)
  {
    var q := NormalizedQuery(query);
    assert |q| == |Trim(query)|;
    if q == [] then
      SubsequenceReflexive(ns);
      ns
    else
      Select(ns, q)
  }

  /** Queries that lower-case to the same string select the same notes: the
      search ignores the case of the query. */
  lemma FilterIgnoresQueryCase(ns: seq<Note>, query1: string, query2: string)
    requires Lower(query1) == Lower(query2)
    ensures Filter(ns, query1) == Filter(ns, query2)
  {
    LowerTrimCommute(query1);
    LowerTrimCommute(query2);
  }

  /** The filtered list has unique ids when the collection has. */
  lemma FilterKeepsUniqueIds(ns: seq<Note>, query: string)
    requires UniqueIds(ns)
    ensures UniqueIds(Filter(ns, query))
  {
    var q := NormalizedQuery(query);
    if q != [] {
      KeepUniqueIds(ns, (n: Note) => Matches(n, q));
      assert Filter(ns, query) == Keep(ns, (n: Note) => Matches(n, q));
    }
  }

  /** Searching "WORK" finds a note tagged "work". */
  lemma UpperCaseQueryFindsTag(n: Note)
    requires n.tags == Some(["work"])
    ensures Filter([n], "WORK") == [n]
  {
    TrimOfTrimmed("WORK");
    assert NormalizedQuery("WORK") == "work";
    assert Contains(Lower(TagsOf(n)[0]), "work");
    assert multiset(Filter([n], "WORK"))[n] == 1;
  }
}
