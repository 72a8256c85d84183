/**
 * Catalog records with the reader's state merged in, the stored reading
 * state keyed by book id, and the lookups by id the app performs.
 */
module Books {
  import opened Wrappers

  /** What the store keeps per book: `{read, rating}`; rating 0 means unrated. */
  datatype ReadingState = ReadingState(read: bool, rating: int)

  /**
   * A catalog entry of books.json with the reader's state merged in.
   * An absent `writingStyle` is `None`.
   */
  datatype Book = Book(
    id: int,
    title: string,
    author: string,
    year: int,
    description: string,
    writingStyle: Option<string>,
    themes: seq<string>,
    read: bool,
    rating: int)

  /** The reading state a book currently carries. */
  function StateOf(b: Book): ReadingState {
    ReadingState(b.read, b.rating)
  }

  /** The book with its reading state replaced (`{...book, ...state}`). */
  function WithState(b: Book, st: ReadingState): (r: Book)
    ensures StateOf(r) == st
    ensures r.id == b.id && r.title == b.title && r.author == b.author && r.year == b.year
    ensures r.description == b.description && r.writingStyle == b.writingStyle && r.themes == b.themes
  {
    b.(read := st.read, rating := st.rating)
  }

  /** `getBookData`: the stored state, or unread and unrated when nothing is stored. */
  function StoredState(store: map<int, ReadingState>, id: int): (st: ReadingState)
    ensures id !in store ==> st == ReadingState(false, 0)
    ensures id in store ==> st == store[id]
  {
    if id in store then store[id] else ReadingState(false, 0)
  }

  /**
   * `setBookData` followed by `getBookData`: the id just written reads back
   * what was written, and every other id reads what it read before.
   */
  lemma StoredStateUpdate(store: map<int, ReadingState>, id: int, st: ReadingState)
    ensures StoredState(store[id := st], id) == st
    ensures forall other :: other != id ==> StoredState(store[id := st], other) == StoredState(store, other)
  {
  }

  /** The load-time merge: every book takes its read/rating from the store or the default. */
  function Merge(catalog: seq<Book>, store: map<int, ReadingState>): (books: seq<Book>)
    ensures |books| == |catalog|
  {
    seq(|catalog|, i requires 0 <= i < |catalog| => WithState(catalog[i], StoredState(store, catalog[i].id)))
  }

  /** Every book's state agrees with what the store says for its id. */
  ghost predicate Consistent(books: seq<Book>, store: map<int, ReadingState>) {
    forall i :: 0 <= i < |books| ==> StateOf(books[i]) == StoredState(store, books[i].id)
  }

  /** No two books share an id. */
  ghost predicate UniqueIds(books: seq<Book>) {
    forall i, j :: 0 <= i < j < |books| ==> books[i].id != books[j].id
  }

  /** Every rated book is marked read (what rateBook maintains and toggleReadStatus may break). */
  ghost predicate RatedAreRead(books: seq<Book>) {
    forall i :: 0 <= i < |books| ==> books[i].rating > 0 ==> books[i].read
  }

  /**
   * The merge keeps every catalog field, overrides read and rating (even
   * where no state is stored, with the default), and leaves the books
   * consistent with the store.
   */
  lemma MergeFields(catalog: seq<Book>, store: map<int, ReadingState>)
    ensures var books := Merge(catalog, store);
      Consistent(books, store) &&
      forall i :: 0 <= i < |catalog| ==>
        StateOf(books[i]) == StoredState(store, catalog[i].id) &&
        WithState(books[i], ReadingState(false, 0)) == WithState(catalog[i], ReadingState(false, 0))
  {
  }

  /** Reloading books that already agree with the store changes nothing. */
  lemma {:induction false} MergeRestores(books: seq<Book>, store: map<int, ReadingState>)
    requires Consistent(books, store)
    ensures Merge(books, store) == books
  {
    var merged := Merge(books, store);
    forall i | 0 <= i < |books| ensures merged[i] == books[i] {
      assert StateOf(books[i]) == StoredState(store, books[i].id);
    }
  }

  /** Merging twice with the same store is merging once. */
  lemma MergeIdempotent(catalog: seq<Book>, store: map<int, ReadingState>)
    ensures Merge(Merge(catalog, store), store) == Merge(catalog, store)
  {
    MergeFields(catalog, store);
    MergeRestores(Merge(catalog, store), store);
  }

  /** With nothing stored every book loads unread and unrated. */
  lemma MergeEmptyStore(catalog: seq<Book>)
    ensures forall i :: 0 <= i < |catalog| ==>
      !Merge(catalog, map[])[i].read && Merge(catalog, map[])[i].rating == 0
  {
  }

  /** `books.findIndex(b => b.id === id)`: the first index with that id, or -1. */
  function FindIndex(books: seq<Book>, id: int): (i: int)
    ensures -1 <= i < |books|
    ensures i == -1 <==> forall k :: 0 <= k < |books| ==> books[k].id != id
    ensures i != -1 ==> books[i].id == id && forall k :: 0 <= k < i ==> books[k].id != id
    decreases |books|
  {
    if books == [] then -1
    else if books[0].id == id then 0
    else
      var j := FindIndex(books[1..], id);
      if j == -1 then -1 else j + 1
  }

  /** `books.find(b => b.id === id)`: the first book with that id, if any. */
  function Find(books: seq<Book>, id: int): (r: Option<Book>)
    ensures r.None? <==> forall k :: 0 <= k < |books| ==> books[k].id != id
    ensures r.Some? ==> r.value in books && r.value.id == id
    ensures r.Some? ==> r.value == books[FindIndex(books, id)]
  {
    var i := FindIndex(books, id);
    if i == -1 then None else Some(books[i])
  }
}
