/**
 * The catalog view (`applyFiltersAndSort`): search, status, minimum rating,
 * era and theme filters applied one after another, then a stable sort
 * chosen by the sort control. The control values are parameters.
 */
module Filters {
  import opened Wrappers
  import opened Seqs
  import opened Sorting
  import opened Text
  import opened Books

  /**
   * The values of the controls. `minRating` is `None` for "all" and
   * otherwise the chosen minimum.
   */
  datatype Controls = Controls(
    search: string,
    status: string,
    minRating: Option<int>,
    era: string,
    theme: string,
    sortBy: string)

  /** Some theme of the book contains `needle` once lowercased. */
  predicate SomeThemeContains(b: Book, needle: string) {
    exists i :: 0 <= i < |b.themes| && Contains(Lower(b.themes[i]), needle)
  }

  /** Title, author, description or a theme contains the (lowercased) search term. */
  predicate MatchesSearch(b: Book, term: string) {
    Contains(Lower(b.title), term) || Contains(Lower(b.author), term) ||
    Contains(Lower(b.description), term) || SomeThemeContains(b, term)
  }

  /** "read" keeps read books, "unread" unread ones, anything else keeps all. */
  predicate MatchesStatus(b: Book, status: string) {
    if status == "read" then b.read else if status == "unread" then !b.read else true
  }

  predicate MatchesRating(b: Book, minRating: Option<int>) {
    minRating.None? || b.rating >= minRating.value
  }

  /** The era buckets: before 1980, 1980 to 1999, 2000 and later. */
  predicate MatchesEra(b: Book, era: string) {
    if era == "classic" then b.year < 1980
    else if era == "modern" then 1980 <= b.year < 2000
    else if era == "contemporary" then b.year >= 2000
    else true
  }

  predicate MatchesTheme(b: Book, theme: string) {
    theme == "all" || SomeThemeContains(b, Lower(theme))
  }

  /** An empty search keeps everything. */
  predicate MatchesSearchControl(b: Book, search: string) {
    Lower(search) == "" || MatchesSearch(b, Lower(search))
  }

  /** A book is listed when it passes every active control. */
  predicate Matches(c: Controls, b: Book) {
    MatchesSearchControl(b, c.search) &&
    MatchesStatus(b, c.status) &&
    MatchesRating(b, c.minRating) &&
    MatchesEra(b, c.era) &&
    MatchesTheme(b, c.theme)
  }

  /** Each control as the predicate it filters by. */
  function SearchStage(search: string): Book -> bool { b => MatchesSearchControl(b, search) }
  function StatusStage(status: string): Book -> bool { b => MatchesStatus(b, status) }
  function RatingStage(minRating: Option<int>): Book -> bool { b => MatchesRating(b, minRating) }
  function EraStage(era: string): Book -> bool { b => MatchesEra(b, era) }
  function ThemeStage(theme: string): Book -> bool { b => MatchesTheme(b, theme) }

  /** Filtering by the controls one after another is filtering by all of them at once. */
  lemma FilterStages(books: seq<Book>, c: Controls)
    ensures Filter(Filter(Filter(Filter(Filter(books,
              SearchStage(c.search)), StatusStage(c.status)), RatingStage(c.minRating)),
              EraStage(c.era)), ThemeStage(c.theme))
            == Selected(books, c)
  {
    var p1 := SearchStage(c.search);
    var p2 := (b: Book) => MatchesSearchControl(b, c.search) && MatchesStatus(b, c.status);
    var p3 := (b: Book) => p2(b) && MatchesRating(b, c.minRating);
    var p4 := (b: Book) => p3(b) && MatchesEra(b, c.era);
    var p5 := (b: Book) => Matches(c, b);
    FilterTwice(books, p1, StatusStage(c.status), p2);
    FilterTwice(books, p2, RatingStage(c.minRating), p3);
    FilterTwice(books, p3, EraStage(c.era), p4);
    FilterTwice(books, p4, ThemeStage(c.theme), p5);
  }

  /** The search step: a non-empty lowercased term keeps books that mention it. */
  method NarrowBySearch(books: seq<Book>, search: string) returns (filtered: seq<Book>)
    ensures filtered == Filter(books, SearchStage(search))
  {
    filtered := books;
    var searchTerm := Lower(search);
    if searchTerm != "" {
      var q := (b: Book) => MatchesSearch(b, searchTerm);
      filtered := Filter(filtered, q);
      FilterSame(books, q, SearchStage(search));
    } else {
      FilterAll(books, SearchStage(search));
    }
  }

  /** The status step. */
  method NarrowByStatus(books: seq<Book>, status: string) returns (filtered: seq<Book>)
    ensures filtered == Filter(books, StatusStage(status))
  {
    filtered := books;
    if status == "read" {
      var q := (b: Book) => b.read;
      filtered := Filter(filtered, q);
      FilterSame(books, q, StatusStage(status));
    } else if status == "unread" {
      var q := (b: Book) => !b.read;
      filtered := Filter(filtered, q);
      FilterSame(books, q, StatusStage(status));
    } else {
      FilterAll(books, StatusStage(status));
    }
  }

  /** The minimum-rating step. */
  method NarrowByRating(books: seq<Book>, minRating: Option<int>) returns (filtered: seq<Book>)
    ensures filtered == Filter(books, RatingStage(minRating))
  {
    filtered := books;
    if minRating.Some? {
      var least := minRating.value;
      var q := (b: Book) => b.rating >= least;
      filtered := Filter(filtered, q);
      FilterSame(books, q, RatingStage(minRating));
    } else {
      FilterAll(books, RatingStage(minRating));
    }
  }

  /** The era step. */
  method NarrowByEra(books: seq<Book>, era: string) returns (filtered: seq<Book>)
    ensures filtered == Filter(books, EraStage(era))
  {
    filtered := books;
    if era == "classic" {
      var q := (b: Book) => b.year < 1980;
      filtered := Filter(filtered, q);
      FilterSame(books, q, EraStage(era));
    } else if era == "modern" {
      var q := (b: Book) => b.year >= 1980 && b.year < 2000;
      filtered := Filter(filtered, q);
      FilterSame(books, q, EraStage(era));
    } else if era == "contemporary" {
      var q := (b: Book) => b.year >= 2000;
      filtered := Filter(filtered, q);
      FilterSame(books, q, EraStage(era));
    } else {
      FilterAll(books, EraStage(era));
    }
  }

  /** The theme step: a chosen theme keeps books with a theme containing it. */
  method NarrowByTheme(books: seq<Book>, theme: string) returns (filtered: seq<Book>)
    ensures filtered == Filter(books, ThemeStage(theme))
  {
    filtered := books;
    if theme != "all" {
      var themeFilter := Lower(theme);
      var q := (b: Book) => SomeThemeContains(b, themeFilter);
      filtered := Filter(filtered, q);
      FilterSame(books, q, ThemeStage(theme));
    } else {
      FilterAll(books, ThemeStage(theme));
    }
  }

  /**
   * The comparator passed to `sort`, case by case: negative when `a` goes
   * first. `localeCompare` is the difference of the collation keys.
   */
  function Comparator(sortBy: string, collation: string -> int, a: Book, b: Book): int {
    match sortBy
    case "title" => collation(a.title) - collation(b.title)
    case "author" => collation(a.author) - collation(b.author)
    case "year-asc" => a.year - b.year
    case "year-desc" => b.year - a.year
    case "rating-desc" => b.rating - a.rating
    case "rating-asc" => a.rating - b.rating
    case _ => 0
  }

  /**
   * The sort as a key, highest first. Ascending orders negate the key;
   * `localeCompare` is the order of an abstract collation key; an unknown
   * choice compares everything equal.
   */
  function SortKey(sortBy: string, collation: string -> int): (key: Book -> real)
    ensures forall a, b {:trigger Comparator(sortBy, collation, a, b)} ::
      (Comparator(sortBy, collation, a, b) < 0 <==> key(a) > key(b)) &&
      (Comparator(sortBy, collation, a, b) == 0 <==> key(a) == key(b))
  {
    if sortBy == "title" then (b: Book) => -(collation(b.title) as real)
    else if sortBy == "author" then (b: Book) => -(collation(b.author) as real)
    else if sortBy == "year-asc" then (b: Book) => -(b.year as real)
    else if sortBy == "year-desc" then (b: Book) => b.year as real
    else if sortBy == "rating-desc" then (b: Book) => b.rating as real
    else if sortBy == "rating-asc" then (b: Book) => -(b.rating as real)
    else (b: Book) => 0.0
  }

  /** The books a set of controls lets through. */
  function Selected(books: seq<Book>, c: Controls): (r: seq<Book>)
    ensures forall b :: b in r <==> b in books && Matches(c, b)
  {
    var r := Filter(books, b => Matches(c, b));
    assert forall b :: b in r <==> b in books && Matches(c, b) by {
      forall b ensures b in r <==> b in books && Matches(c, b) {
        FilterCount(books, b => Matches(c, b), b);
        assert b in r <==> b in multiset(r);
        assert b in books <==> b in multiset(books);
      }
    }
    r
  }

  /** The catalog view as a value: filtered by all controls, then sorted. */
  function CatalogView(books: seq<Book>, c: Controls, collation: string -> int): (view: seq<Book>)
    ensures |view| <= |books|
  {
    SortDesc(Selected(books, c), SortKey(c.sortBy, collation))
  }

  /**
   * `applyFiltersAndSort`: each active control narrows the list in turn,
   * then the list is sorted. The result is the catalog filtered by all
   * controls at once, in the chosen order, ties in catalog order.
   */
  method ApplyFiltersAndSort(books: seq<Book>, c: Controls, collation: string -> int)
    returns (filtered: seq<Book>)
    ensures filtered == CatalogView(books, c, collation)
    ensures forall b :: b in filtered <==> b in books && Matches(c, b)
    ensures SortedDesc(filtered, SortKey(c.sortBy, collation))
  {
    filtered := NarrowBySearch(books, c.search);
    filtered := NarrowByStatus(filtered, c.status);
    filtered := NarrowByRating(filtered, c.minRating);
    filtered := NarrowByEra(filtered, c.era);
    filtered := NarrowByTheme(filtered, c.theme);
    FilterStages(books, c);

    var selected := filtered;
    var key := SortKey(c.sortBy, collation);
    filtered := SortDesc(selected, key);
    SortDescPermutation(selected, key);
    SortDescSorted(selected, key);
    forall b ensures b in filtered <==> b in selected {
      assert b in filtered <==> b in multiset(filtered);
      assert b in selected <==> b in multiset(selected);
    }
  }

  /** No filter active and a sort value outside the known list. */
  const Unfiltered := Controls("", "all", None, "all", "all", "default")

  /** The controls after `resetFilters`: no filter active, sorted by title. */
  const Reset := Controls("", "all", None, "all", "all", "title")

  /** With no filter active and no known sort the view is the catalog in catalog order. */
  lemma {:induction false} UnfilteredViewIsCatalog(books: seq<Book>, collation: string -> int)
    ensures CatalogView(books, Unfiltered, collation) == books
  {
    assert Lower("") == "";
    FilterAll(books, b => Matches(Unfiltered, b));
    SortConstantKey(books, SortKey("default", collation), 0.0);
  }

  /** Every year falls in exactly one of the three era buckets. */
  lemma EraBucketsPartition(b: Book)
    ensures MatchesEra(b, "classic") || MatchesEra(b, "modern") || MatchesEra(b, "contemporary")
    ensures !(MatchesEra(b, "classic") && MatchesEra(b, "modern"))
    ensures !(MatchesEra(b, "modern") && MatchesEra(b, "contemporary"))
    ensures !(MatchesEra(b, "classic") && MatchesEra(b, "contemporary"))
  {
  }

  /** How often a book is selected, in terms of how often it is in the catalog. */
  lemma SelectedCount(books: seq<Book>, c: Controls, x: Book)
    ensures multiset(Selected(books, c))[x] == if Matches(c, x) then multiset(books)[x] else 0
  {
    FilterCount(books, b => Matches(c, b), x);
  }

  /** The "read" and "unread" selections split the "all" selection between them. */
  lemma StatusSplitsSelection(books: seq<Book>, c: Controls)
    ensures multiset(Selected(books, c.(status := "read"))) +
            multiset(Selected(books, c.(status := "unread")))
            == multiset(Selected(books, c.(status := "all")))
  {
    var cr, cu, ca := c.(status := "read"), c.(status := "unread"), c.(status := "all");
    forall x: Book
      ensures multiset(Selected(books, cr))[x] + multiset(Selected(books, cu))[x]
              == multiset(Selected(books, ca))[x]
    {
      SelectedCount(books, cr, x);
      SelectedCount(books, cu, x);
      SelectedCount(books, ca, x);
    }
  }

  /** A book whose title contains the search term is listed when the other controls are at their defaults. */
  lemma TitleSearchFinds(books: seq<Book>, b: Book, search: string, collation: string -> int)
    requires b in books
    requires Contains(Lower(b.title), Lower(search))
    ensures b in CatalogView(books, Unfiltered.(search := search), collation)
  {
    var c := Unfiltered.(search := search);
    assert Matches(c, b);
    var selected := Selected(books, c);
    SortDescPermutation(selected, SortKey(c.sortBy, collation));
    assert b in multiset(selected);
  }

  /** Books the chosen order ranks equal keep their catalog order. */
  lemma ViewTiesInCatalogOrder(books: seq<Book>, c: Controls, collation: string -> int, v: real)
    ensures Filter(CatalogView(books, c, collation), KeyIs(SortKey(c.sortBy, collation), v))
            == Filter(Selected(books, c), KeyIs(SortKey(c.sortBy, collation), v))
  {
    SortDescStable(Selected(books, c), SortKey(c.sortBy, collation), v);
  }

  /** "year-asc" lists the oldest first, "rating-desc" the best rated first. */
  lemma ViewOrders(books: seq<Book>, c: Controls, collation: string -> int)
    ensures c.sortBy == "year-asc" ==> forall i, j :: 0 <= i < j < |CatalogView(books, c, collation)| ==>
      CatalogView(books, c, collation)[i].year <= CatalogView(books, c, collation)[j].year
    ensures c.sortBy == "rating-desc" ==> forall i, j :: 0 <= i < j < |CatalogView(books, c, collation)| ==>
      CatalogView(books, c, collation)[i].rating >= CatalogView(books, c, collation)[j].rating
  {
    var key := SortKey(c.sortBy, collation);
    var view := CatalogView(books, c, collation);
    SortDescSorted(Selected(books, c), key);
    assert forall i, j :: 0 <= i < j < |view| ==> key(view[i]) >= key(view[j]);
  }

  /** After a reset the view holds the whole catalog, ordered by title. */
  lemma {:induction false} ResetViewIsWholeCatalog(books: seq<Book>, collation: string -> int)
    ensures multiset(CatalogView(books, Reset, collation)) == multiset(books)
    ensures forall i, j :: 0 <= i < j < |CatalogView(books, Reset, collation)| ==>
      collation(CatalogView(books, Reset, collation)[i].title) <= collation(CatalogView(books, Reset, collation)[j].title)
  {
    assert Lower("") == "";
    FilterAll(books, b => Matches(Reset, b));
    var key := SortKey("title", collation);
    SortDescPermutation(books, key);
    SortDescSorted(books, key);
    var view := CatalogView(books, Reset, collation);
    assert forall i, j :: 0 <= i < j < |view| ==> key(view[i]) >= key(view[j]);
  }
}
