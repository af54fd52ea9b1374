/** The notes page's search: a note is listed when the search term occurs,
    ignoring case, in its title, subject or description, and its category
    is the chosen one or "All" is chosen. */
module Notes {
  import opened Lists
  import opened Text

  /** The category button that turns the category test off. */
  const AllCategories: string := "All"

  datatype Note = Note(id: nat, title: string, subject: string, category: string, description: string)

  /** `matchesSearch`. */
  predicate MatchesSearch(n: Note, term: string) {
    || Includes(Lower(n.title), Lower(term))
    || Includes(Lower(n.subject), Lower(term))
    || Includes(Lower(n.description), Lower(term))
  }

  /** `matchesCategory`. */
  predicate MatchesCategory(n: Note, category: string) {
    category == AllCategories || n.category == category
  }

  function Keeps(term: string, category: string): Note -> bool {
    (n: Note) => MatchesSearch(n, term) && MatchesCategory(n, category)
  }

  /** `filteredNotes`. */
  function FilteredNotes(notes: seq<Note>, term: string, category: string): (r: seq<Note>)
    ensures |r| <= |notes|
    ensures forall n :: n in r ==> n in notes
  {
    Filter(notes, Keeps(term, category))
  }

  /** A note is listed exactly when it is one of the notes and passes both tests. */
  lemma FilteredNotesExactly(notes: seq<Note>, term: string, category: string, n: Note)
    ensures n in FilteredNotes(notes, term, category) <==>
              n in notes && MatchesSearch(n, term) && MatchesCategory(n, category)
  {
    FilterMembership(notes, Keeps(term, category), n);
  }

  /** The filter keeps the notes' relative order: it works on each part of the list separately. */
  lemma FilteredNotesKeepOrder(xs: seq<Note>, ys: seq<Note>, term: string, category: string)
    ensures FilteredNotes(xs + ys, term, category) ==
            FilteredNotes(xs, term, category) + FilteredNotes(ys, term, category)
  {
    FilterConcat(xs, ys, Keeps(term, category));
  }

  /** An empty search term matches every note, so with "All" chosen every note is listed, in order. */
  lemma EmptySearchListsAll(notes: seq<Note>)
    ensures forall n :: MatchesSearch(n, "")
    ensures FilteredNotes(notes, "", AllCategories) == notes
  {
    forall n: Note ensures MatchesSearch(n, "") {
      IncludesEmptyAndSelf(Lower(n.title));
    }
    FilterAll(notes, Keeps("", AllCategories));
  }

  /** Choosing "All" leaves only the search test; any other choice keeps only
      notes of that category, a sub-list of what "All" shows. */
  lemma CategoryAllDisablesCategory(notes: seq<Note>, term: string, category: string, n: Note)
    ensures n in FilteredNotes(notes, term, AllCategories) <==> n in notes && MatchesSearch(n, term)
    ensures category != AllCategories && n in FilteredNotes(notes, term, category) ==>
              n.category == category && n in FilteredNotes(notes, term, AllCategories)
  {
    FilteredNotesExactly(notes, term, AllCategories, n);
    FilteredNotesExactly(notes, term, category, n);
  }

  /** The search ignores the case of the term. */
  lemma SearchIgnoresCase(n: Note, term: string)
    ensures MatchesSearch(n, term) <==> MatchesSearch(n, Lower(term))
  {
    LowerIdempotent(term);
  }
}
