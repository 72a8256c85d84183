/**
 * The app's mutable reading state: the merged catalog (`booksData`), the
 * persisted id -> {read, rating} store, and the book open in the detail
 * view (`currentBook`). Rating and marking read/unread update the open
 * book, persist its state and replace its entry in the catalog.
 */
module Library {
  import opened Wrappers
  import opened Books

  class Library {
    var books: seq<Book>
    var store: map<int, ReadingState>
    var current: Option<Book>

    /** Ids are unique, the catalog agrees with the store, and the open book is a catalog entry. */
    ghost predicate Valid()
      reads this
    {
      UniqueIds(books) && Consistent(books, store) && (current.Some? ==> current.value in books)
    }

    /** Page load: merge the catalog with the stored reading state; no book is open. */
    constructor (catalog: seq<Book>, stored: map<int, ReadingState>)
      requires UniqueIds(catalog)
      ensures Valid()
      ensures books == Merge(catalog, stored) && store == stored && current == None
    {
      books := Merge(catalog, stored);
      store := stored;
      current := None;
      MergeFields(catalog, stored);
    }

    /** Opening the detail view selects the first book with the id, or none. */
    method OpenBook(id: int)
      requires Valid()
      modifies this`current
      ensures Valid()
      ensures current == Find(books, id)
    {
      current := Find(books, id);
    }

    /** Closing the detail view deselects the book. */
    method CloseBook()
      requires Valid()
      modifies this`current
      ensures Valid() && current == None
    {
      current := None;
    }

    /**
     * Rating the open book sets its rating, marks it read, stores both, and
     * replaces the catalog entry with that id; with no open book nothing
     * happens.
     */
    method RateBook(rating: int)
      requires Valid()
      modifies this
      ensures Valid()
      ensures old(current).None? ==>
        books == old(books) && store == old(store) && current == old(current)
      ensures old(current).Some? ==>
        var b := old(current).value.(rating := rating, read := true);
        current == Some(b) &&
        store == old(store)[b.id := ReadingState(true, rating)] &&
        |books| == |old(books)| &&
        forall k :: 0 <= k < |books| ==> books[k] == if old(books)[k].id == b.id then b else old(books)[k]
      ensures RatedAreRead(old(books)) ==> RatedAreRead(books)
    {
      if current.None? {
        return;
      }
      var b := current.value.(rating := rating, read := true);
      current := Some(b);
      store := store[b.id := ReadingState(b.read, b.rating)];
      var bookIndex := FindIndex(books, b.id);
      if bookIndex != -1 {
        books := books[bookIndex := b];
        assert books[bookIndex] == b;
      }
    }

    /**
     * Marking the open book read or unread sets only its read flag, stores
     * its state (rating unchanged) and replaces the catalog entry with that
     * id; with no open book nothing happens.
     */
    method ToggleReadStatus(read: bool)
      requires Valid()
      modifies this
      ensures Valid()
      ensures old(current).None? ==>
        books == old(books) && store == old(store) && current == old(current)
      ensures old(current).Some? ==>
        var b := old(current).value.(read := read);
        current == Some(b) &&
        store == old(store)[b.id := ReadingState(read, b.rating)] &&
        |books| == |old(books)| &&
        forall k :: 0 <= k < |books| ==> books[k] == if old(books)[k].id == b.id then b else old(books)[k]
      ensures read && RatedAreRead(old(books)) ==> RatedAreRead(books)
    {
      if current.None? {
        return;
      }
      var b := current.value.(read := read);
      current := Some(b);
      store := store[b.id := ReadingState(b.read, b.rating)];
      var bookIndex := FindIndex(books, b.id);
      if bookIndex != -1 {
        books := books[bookIndex := b];
        assert books[bookIndex] == b;
      }
    }
  }
}
