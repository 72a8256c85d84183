/**
 * The "one shelf over" recommendation engine (`generateRecommendations`).
 *
 * The seeds are the books rated 4 or 5; the candidates are the unread
 * books. Each candidate is compared with every seed in catalog order and
 * collects a theme term (only for 1 to 3 shared themes), a style term and
 * an era term; a flat diversity bonus rewards 1 to 3 distinct matched
 * themes. Candidates scoring 0 or less are dropped, the rest are sorted by
 * score, highest first and stably, and the first 12 are kept.
 *
 * Scores are exact reals: `rating / 5` is the real quotient.
 */
module Engine {
  import opened Wrappers
  import opened Seqs
  import opened Sorting
  import opened Style
  import opened Books
  import opened Shelf

  /** At most this many recommendations are shown. */
  const MaxRecommendations := 12

  /** The explanation when no theme or style reason was recorded. */
  const Fallback := "Recommended based on your tastes"

  /** A candidate with its score, its matched themes (in insertion order), its shelf and its explanation. */
  datatype Scored = Scored(
    book: Book,
    shelfScore: real,
    matchedThemes: seq<string>,
    shelfLocation: string,
    recommendationReason: string)

  /** One candidate's running totals while the seeds are visited. */
  datatype Tally = Tally(total: real, style: real, reasons: seq<string>, matched: seq<string>)

  /** A highly rated book: the basis of recommendations. */
  predicate IsSeed(b: Book) {
    b.rating >= 4
  }

  /** A book the reader has not marked read. */
  predicate IsCandidate(b: Book) {
    !b.read
  }

  function HighlyRated(books: seq<Book>): seq<Book> {
    Filter(books, IsSeed)
  }

  function Unread(books: seq<Book>): seq<Book> {
    Filter(books, IsCandidate)
  }

  function Abs(x: int): nat {
    if x < 0 then -x else x
  }

  /** `rating / 5`: how much a seed's contributions weigh. */
  function Weight(rating: int): real {
    rating as real / 5.0
  }

  /** The candidate's themes, repeats included and in order, that the seed also has. */
  function SharedThemes(cand: Book, seed: Book): seq<string> {
    Common(cand.themes, seed.themes)
  }

  /** The sweet spot: 1 to 3 shared themes. */
  predicate InSweetSpot(cand: Book, seed: Book) {
    1 <= |SharedThemes(cand, seed)| <= 3
  }

  predicate SameEra(cand: Book, seed: Book) {
    Abs(cand.year - seed.year) <= 20
  }

  /**
   * The explanation a sweet-spot seed gives. It ends with the seed's title
   * in quotes, and a single shared theme is named right after the opening
   * `Adjacent shelf: shares "`.
   */
  function ThemeReason(shared: seq<string>, title: string): (r: string)
    requires 1 <= |shared| <= 3
    ensures |r| > |title| + 1 && r[|r| - |title| - 1..] == title + "\""
    ensures |shared| == 1 ==> |r| >= 24 + |shared[0]| && r[24..24 + |shared[0]|] == shared[0]
  {
    if |shared| == 1 then "Adjacent shelf: shares \"" + shared[0] + "\" with \"" + title + "\""
    else if |shared| == 2 then "Nearby: echoes themes from \"" + title + "\""
    else "Similar territory to \"" + title + "\""
  }

  /** The explanation a seed with a shared style keyword gives: it ends with the seed's title in quotes. */
  function StyleReason(title: string): (r: string)
    ensures |r| > |title| + 1 && r[|r| - |title| - 1..] == title + "\""
  {
    "Writing style resonates with \"" + title + "\""
  }

  function DiversityBonus(distinctThemes: nat): real {
    if 1 <= distinctThemes <= 3 then 20.0 else 0.0
  }

  /** The theme term `rating / 5 * (30 + shared * 10)`. */
  function ThemeWeight(rating: int, shared: nat): real {
    Weight(rating) * (30.0 + shared as real * 10.0)
  }

  /** The style term `similarity * (rating / 5) * 15`. */
  function StyleWeight(similarity: nat, rating: int): real {
    similarity as real * Weight(rating) * 15.0
  }

  /** The era term `rating / 5 * 8`. */
  function EraWeight(rating: int): real {
    Weight(rating) * 8.0
  }

  /** The theme branch of one seed's pass: the sweet-spot term, its themes and its reason. */
  function ThemeStep(t: Tally, cand: Book, seed: Book): Tally {
    var shared := SharedThemes(cand, seed);
    if InSweetSpot(cand, seed) then
      Tally(t.total + ThemeWeight(seed.rating, |shared|), t.style,
            t.reasons + [ThemeReason(shared, seed.title)], AddAll(t.matched, shared))
    else t
  }

  /** The style branch of one seed's pass: the style subtotal and its reason. */
  function StyleStep(t: Tally, cand: Book, seed: Book): Tally {
    var sim := StyleSimilarity(cand.writingStyle, seed.writingStyle);
    if sim > 0 then
      t.(style := t.style + StyleWeight(sim, seed.rating),
         reasons := t.reasons + [StyleReason(seed.title)])
    else t
  }

  /** The era branch of one seed's pass. */
  function EraStep(t: Tally, cand: Book, seed: Book): Tally {
    if SameEra(cand, seed) then t.(total := t.total + EraWeight(seed.rating)) else t
  }

  /** One seed's pass of the comparison loop: theme, then style, then era. */
  function Step(t: Tally, cand: Book, seed: Book): Tally {
    EraStep(StyleStep(ThemeStep(t, cand, seed), cand, seed), cand, seed)
  }

  /** The totals after visiting `seeds` in order. */
  function Accumulate(cand: Book, seeds: seq<Book>): Tally
    decreases |seeds|
  {
    if seeds == [] then Tally(0.0, 0.0, [], [])
    else Step(Accumulate(cand, seeds[..|seeds| - 1]), cand, seeds[|seeds| - 1])
  }

  /**
   * The scored candidate built from its totals: the score exceeds the two
   * running totals by exactly the bonus, 20 for 1 to 3 distinct themes and
   * 0 otherwise; the explanation is the first recorded reason, or the
   * generic one when none was recorded.
   */
  function Finish(cand: Book, t: Tally): (r: Scored)
    ensures r.book == cand && r.matchedThemes == t.matched
    ensures r.shelfScore - (t.total + t.style) == (if 1 <= |t.matched| <= 3 then 20.0 else 0.0)
    ensures t.reasons != [] ==> r.recommendationReason == t.reasons[0]
    ensures t.reasons == [] ==> r.recommendationReason == Fallback
    ensures r.shelfLocation in Labels
  {
    Scored(
      cand,
      t.total + t.style + DiversityBonus(|t.matched|),
      t.matched,
      DetermineShelfLocation(|t.matched|, t.style),
      if t.reasons != [] then t.reasons[0] else Fallback)
  }

  /** The candidate scored against all seeds. */
  function Score(cand: Book, seeds: seq<Book>): Scored {
    Finish(cand, Accumulate(cand, seeds))
  }

  function ShelfScoreOf(s: Scored): real {
    s.shelfScore
  }

  predicate IsPositive(s: Scored) {
    s.shelfScore > 0.0
  }

  function ScoreAll(cands: seq<Book>, seeds: seq<Book>): (r: seq<Scored>)
    ensures |r| == |cands|
  {
    seq(|cands|, k requires 0 <= k < |cands| => Score(cands[k], seeds))
  }

  function Take<T>(s: seq<T>, n: nat): seq<T> {
    if |s| <= n then s else s[..n]
  }

  /** Drop non-positive scores, sort by score (stable, highest first), keep the first 12. */
  function TopRanked(scored: seq<Scored>): (r: seq<Scored>)
    ensures var n := |Filter(scored, IsPositive)|;
      |r| == if n <= MaxRecommendations then n else MaxRecommendations
  {
    Take(SortDesc(Filter(scored, IsPositive), ShelfScoreOf), MaxRecommendations)
  }

  /** What the engine shows for a catalog; empty when there is nothing to show. */
  function Recommendations(books: seq<Book>): (r: seq<Scored>)
    ensures HighlyRated(books) == [] ==> r == []
    ensures |r| <= MaxRecommendations && |r| <= |Unread(books)|
  {
    var seeds := HighlyRated(books);
    if seeds == [] then [] else TopRanked(ScoreAll(Unread(books), seeds))
  }

  // ---------------------------------------------------------------------
  // The engine as the app runs it

  /** The per-candidate body of the map: the forEach over the seeds, then the bonus. */
  method ScoreCandidate(book: Book, highlyRated: seq<Book>) returns (scored: Scored)
    ensures scored == Score(book, highlyRated)
  {
    var totalScore := 0.0;
    var totalStyleMatch := 0.0;
    var shelfReasons: seq<string> := [];
    var matchedThemes: seq<string> := [];
    var n := 0;
    while n < |highlyRated|
      invariant 0 <= n <= |highlyRated|
      invariant Tally(totalScore, totalStyleMatch, shelfReasons, matchedThemes) == Accumulate(book, highlyRated[..n])
    {
      totalScore, totalStyleMatch, shelfReasons, matchedThemes :=
        CompareWithRatedBook(book, highlyRated[n], totalScore, totalStyleMatch, shelfReasons, matchedThemes);
      assert highlyRated[..n + 1][..n] == highlyRated[..n];
      n := n + 1;
    }
    assert highlyRated[..n] == highlyRated;
    var diversityBonus := if 1 <= |matchedThemes| <= 3 then 20.0 else 0.0;
    scored := Scored(
      book,
      totalScore + totalStyleMatch + diversityBonus,
      matchedThemes,
      DetermineShelfLocation(|matchedThemes|, totalStyleMatch),
      if |shelfReasons| > 0 then shelfReasons[0] else Fallback);
  }

  /**
   * The forEach callback: compare the candidate with one highly rated book
   * (themes, then writing style, then era) and update the totals.
   */
  method CompareWithRatedBook(book: Book, ratedBook: Book,
                              totalScore: real, totalStyleMatch: real,
                              shelfReasons: seq<string>, matchedThemes: seq<string>)
    returns (totalScore': real, totalStyleMatch': real, shelfReasons': seq<string>, matchedThemes': seq<string>)
    ensures Tally(totalScore', totalStyleMatch', shelfReasons', matchedThemes') ==
      Step(Tally(totalScore, totalStyleMatch, shelfReasons, matchedThemes), book, ratedBook)
  {
    totalScore', shelfReasons', matchedThemes' :=
      CompareThemes(book, ratedBook, totalScore, shelfReasons, matchedThemes);
    totalStyleMatch', shelfReasons' :=
      CompareStyles(book, ratedBook, totalStyleMatch, shelfReasons');
    totalScore' := CompareEras(book, ratedBook, totalScore');
  }

  /** Theme overlap: in the sweet spot, add the theme term, the shared themes and the tiered reason. */
  method CompareThemes(book: Book, ratedBook: Book,
                       totalScore: real, shelfReasons: seq<string>, matchedThemes: seq<string>)
    returns (totalScore': real, shelfReasons': seq<string>, matchedThemes': seq<string>)
    ensures forall style: real ::
      Tally(totalScore', style, shelfReasons', matchedThemes') ==
      ThemeStep(Tally(totalScore, style, shelfReasons, matchedThemes), book, ratedBook)
  {
    totalScore', shelfReasons', matchedThemes' := totalScore, shelfReasons, matchedThemes;
    var sharedThemes := Common(book.themes, ratedBook.themes);
    if 1 <= |sharedThemes| <= 3 {
      totalScore' := totalScore' + ThemeWeight(ratedBook.rating, |sharedThemes|);
      matchedThemes' := AddEach(matchedThemes', sharedThemes);
      shelfReasons' := shelfReasons' + [ThemeReason(sharedThemes, ratedBook.title)];
    }
  }

  /** Writing style: when the styles share a keyword, add the style term and its reason. */
  method CompareStyles(book: Book, ratedBook: Book, totalStyleMatch: real, shelfReasons: seq<string>)
    returns (totalStyleMatch': real, shelfReasons': seq<string>)
    ensures forall t: Tally :: t.style == totalStyleMatch && t.reasons == shelfReasons ==>
      StyleStep(t, book, ratedBook) == t.(style := totalStyleMatch', reasons := shelfReasons')
  {
    totalStyleMatch', shelfReasons' := totalStyleMatch, shelfReasons;
    var styleSimilarity := StyleSimilarity(book.writingStyle, ratedBook.writingStyle);
    if styleSimilarity > 0 {
      totalStyleMatch' := totalStyleMatch' + StyleWeight(styleSimilarity, ratedBook.rating);
      shelfReasons' := shelfReasons' + [StyleReason(ratedBook.title)];
    }
  }

  /** Era proximity: within 20 years, add the era term. */
  method CompareEras(book: Book, ratedBook: Book, totalScore: real) returns (totalScore': real)
    ensures forall t: Tally :: t.total == totalScore ==>
      EraStep(t, book, ratedBook) == t.(total := totalScore')
  {
    totalScore' := totalScore;
    var yearDiff := Abs(book.year - ratedBook.year);
    if yearDiff <= 20 {
      totalScore' := totalScore' + EraWeight(ratedBook.rating);
    }
  }

  /** `themes.forEach(t => matchedThemes.add(t))`. */
  method AddEach(matchedThemes: seq<string>, themes: seq<string>) returns (r: seq<string>)
    ensures r == AddAll(matchedThemes, themes)
  {
    r := matchedThemes;
    var k := 0;
    while k < |themes|
      invariant 0 <= k <= |themes|
      invariant r == AddAll(matchedThemes, themes[..k])
    {
      AddAllPrefix(matchedThemes, themes, k);
      r := Add(r, themes[k]);
      k := k + 1;
    }
    assert themes[..k] == themes;
  }

  /** `unreadBooks.map(...)`: every candidate scored, in catalog order. */
  method ScoreEach(unreadBooks: seq<Book>, highlyRated: seq<Book>) returns (scoredBooks: seq<Scored>)
    ensures scoredBooks == ScoreAll(unreadBooks, highlyRated)
  {
    scoredBooks := [];
    var i := 0;
    while i < |unreadBooks|
      invariant 0 <= i <= |unreadBooks|
      invariant |scoredBooks| == i
      invariant forall k :: 0 <= k < i ==> scoredBooks[k] == Score(unreadBooks[k], highlyRated)
    {
      var scored := ScoreCandidate(unreadBooks[i], highlyRated);
      scoredBooks := scoredBooks + [scored];
      i := i + 1;
    }
  }

  /**
   * `generateRecommendations`: nothing without a seed; otherwise every
   * unread book is scored, and the positive scores are ranked and capped.
   */
  method GenerateRecommendations(books: seq<Book>) returns (recs: seq<Scored>)
    ensures recs == Recommendations(books)
    ensures |recs| <= MaxRecommendations
    ensures HighlyRated(books) == [] ==> recs == []
    ensures forall r :: r in recs ==> r.book in books && !r.book.read && r.shelfScore > 0.0
    ensures SortedDesc(recs, ShelfScoreOf)
  {
    var highlyRatedBooks := HighlyRated(books);
    if |highlyRatedBooks| == 0 {
      return [];
    }
    var unreadBooks := Unread(books);
    var scoredBooks := ScoreEach(unreadBooks, highlyRatedBooks);
    recs := TopRanked(scoredBooks);
    RecommendationsShape(books);
  }

  // ---------------------------------------------------------------------
  // Lemmas

  /** Every entry shown is a positive-scoring unread book of the catalog, at most 12, best first. */
  lemma RecommendationsShape(books: seq<Book>)
    ensures var recs := Recommendations(books);
      |recs| <= MaxRecommendations &&
      SortedDesc(recs, ShelfScoreOf) &&
      forall r :: r in recs ==>
        r.book in books && !r.book.read && r.shelfScore > 0.0 && r == Score(r.book, HighlyRated(books))
  {
    var seeds := HighlyRated(books);
    if seeds != [] {
      var scored := ScoreAll(Unread(books), seeds);
      var top := TopRanked(scored);
      TopRankedShape(scored);
      forall r: Scored | r in top
        ensures r.book in books && !r.book.read && r.shelfScore > 0.0 && r == Score(r.book, seeds)
      {
        ScoredEntry(books, r);
      }
    }
  }

  /** Every scored entry is an unread catalog book scored against the seeds. */
  lemma ScoredEntry(books: seq<Book>, r: Scored)
    requires r in ScoreAll(Unread(books), HighlyRated(books))
    ensures r.book in books && !r.book.read && r == Score(r.book, HighlyRated(books))
  {
    var unread := Unread(books);
    var scored := ScoreAll(unread, HighlyRated(books));
    var k :| 0 <= k < |scored| && scored[k] == r;
    assert r == Score(unread[k], HighlyRated(books));
    assert unread[k] in unread;
  }

  // ---------------------------------------------------------------------
  // The score as independent per-seed terms

  /** The theme term one seed contributes: only in the sweet spot. */
  function ThemeTerm(cand: Book, seed: Book): real {
    if InSweetSpot(cand, seed) then ThemeWeight(seed.rating, |SharedThemes(cand, seed)|) else 0.0
  }

  /** The style term one seed contributes (0 when the similarity is 0). */
  function StyleTerm(cand: Book, seed: Book): real {
    StyleWeight(StyleSimilarity(cand.writingStyle, seed.writingStyle), seed.rating)
  }

  /** The era term one seed contributes: only within 20 years. */
  function EraTerm(cand: Book, seed: Book): real {
    if SameEra(cand, seed) then EraWeight(seed.rating) else 0.0
  }

  /** The theme reason one seed contributes, if it is in the sweet spot. */
  function ThemeReasons(cand: Book, seed: Book): seq<string> {
    if InSweetSpot(cand, seed) then [ThemeReason(SharedThemes(cand, seed), seed.title)] else []
  }

  /** The style reason one seed contributes, if the styles share a keyword. */
  function StyleReasons(cand: Book, seed: Book): seq<string> {
    if StyleSimilarity(cand.writingStyle, seed.writingStyle) > 0 then [StyleReason(seed.title)] else []
  }

  /** The reasons one seed contributes: the theme reason, then the style reason. */
  function PairReasons(cand: Book, seed: Book): seq<string> {
    ThemeReasons(cand, seed) + StyleReasons(cand, seed)
  }

  /** The themes one seed adds to the matched set. */
  function PairThemes(cand: Book, seed: Book): seq<string> {
    if InSweetSpot(cand, seed) then SharedThemes(cand, seed) else []
  }

  /** Each seed's sweet-spot themes, seed by seed. */
  function ThemeLists(cand: Book, seeds: seq<Book>): (r: seq<seq<string>>)
    ensures |r| == |seeds|
  {
    seq(|seeds|, j requires 0 <= j < |seeds| => PairThemes(cand, seeds[j]))
  }

  /** The matched themes after visiting `seeds`: each seed's sweet-spot themes added in turn. */
  function AllThemes(cand: Book, seeds: seq<Book>): seq<string> {
    Union(ThemeLists(cand, seeds))
  }

  function ThemeEraSum(cand: Book, seeds: seq<Book>): real
    decreases |seeds|
  {
    if seeds == [] then 0.0
    else ThemeEraSum(cand, seeds[..|seeds| - 1]) + ThemeTerm(cand, seeds[|seeds| - 1]) + EraTerm(cand, seeds[|seeds| - 1])
  }

  function StyleSum(cand: Book, seeds: seq<Book>): real
    decreases |seeds|
  {
    if seeds == [] then 0.0 else StyleSum(cand, seeds[..|seeds| - 1]) + StyleTerm(cand, seeds[|seeds| - 1])
  }

  function AllReasons(cand: Book, seeds: seq<Book>): seq<string>
    decreases |seeds|
  {
    if seeds == [] then [] else AllReasons(cand, seeds[..|seeds| - 1]) + PairReasons(cand, seeds[|seeds| - 1])
  }

  lemma StepTerms(t: Tally, cand: Book, seed: Book)
    ensures Step(t, cand, seed) ==
      Tally(t.total + ThemeTerm(cand, seed) + EraTerm(cand, seed),
            t.style + StyleTerm(cand, seed),
            t.reasons + PairReasons(cand, seed),
            AddAll(t.matched, PairThemes(cand, seed)))
  {
    var t1 := ThemeStep(t, cand, seed);
    var t2 := StyleStep(t1, cand, seed);
    var t3 := EraStep(t2, cand, seed);
    assert Step(t, cand, seed) == t3;
    ThemeStepTerms(t, cand, seed);
    StyleStepTerms(t1, cand, seed);
    EraStepTerms(t2, cand, seed);
    assert t3.total == t.total + ThemeTerm(cand, seed) + EraTerm(cand, seed);
    assert t3.style == t.style + StyleTerm(cand, seed);
    assert t3.reasons == t.reasons + ThemeReasons(cand, seed) + StyleReasons(cand, seed);
    assert t3.reasons == t.reasons + PairReasons(cand, seed);
    assert t3.matched == AddAll(t.matched, PairThemes(cand, seed));
  }

  lemma ThemeStepTerms(t: Tally, cand: Book, seed: Book)
    ensures ThemeStep(t, cand, seed) ==
      Tally(t.total + ThemeTerm(cand, seed), t.style, t.reasons + ThemeReasons(cand, seed),
            AddAll(t.matched, PairThemes(cand, seed)))
  {
  }

  lemma StyleStepTerms(t: Tally, cand: Book, seed: Book)
    ensures StyleStep(t, cand, seed) ==
      t.(style := t.style + StyleTerm(cand, seed), reasons := t.reasons + StyleReasons(cand, seed))
  {
    var sim := StyleSimilarity(cand.writingStyle, seed.writingStyle);
    if sim == 0 {
      assert StyleWeight(sim, seed.rating) == 0.0;
    }
  }

  lemma EraStepTerms(t: Tally, cand: Book, seed: Book)
    ensures EraStep(t, cand, seed) == t.(total := t.total + EraTerm(cand, seed))
  {
  }

  /**
   * The loop's running totals are the per-seed terms summed in catalog
   * order, and its reasons are the per-seed reasons concatenated.
   */
  lemma {:induction false} AccumulateIsSums(cand: Book, seeds: seq<Book>)
    ensures Accumulate(cand, seeds).total == ThemeEraSum(cand, seeds)
    ensures Accumulate(cand, seeds).style == StyleSum(cand, seeds)
    ensures Accumulate(cand, seeds).reasons == AllReasons(cand, seeds)
    ensures Accumulate(cand, seeds).matched == AllThemes(cand, seeds)
    decreases |seeds|
  {
    if seeds != [] {
      AccumulateIsSums(cand, seeds[..|seeds| - 1]);
      StepTerms(Accumulate(cand, seeds[..|seeds| - 1]), cand, seeds[|seeds| - 1]);
      AllThemesSnoc(cand, seeds);
    }
  }

  /** A seed never takes score away (ratings are not negative). */
  lemma TermsNonNegative(cand: Book, seed: Book)
    requires seed.rating >= 0
    ensures ThemeTerm(cand, seed) >= 0.0 && StyleTerm(cand, seed) >= 0.0 && EraTerm(cand, seed) >= 0.0
  {
    WeightsNonNegative(seed.rating, |SharedThemes(cand, seed)|,
      StyleSimilarity(cand.writingStyle, seed.writingStyle));
  }

  /** The three weights are not negative for a rating that is not. */
  lemma WeightsNonNegative(rating: int, shared: nat, similarity: nat)
    requires rating >= 0
    ensures ThemeWeight(rating, shared) >= 0.0
    ensures StyleWeight(similarity, rating) >= 0.0
    ensures EraWeight(rating) >= 0.0
  {
  }

  /** Every seed's era term is part of the theme-and-era sum, which never decreases. */
  lemma {:induction false} ThemeEraSumCovers(cand: Book, seeds: seq<Book>, j: int)
    requires forall i :: 0 <= i < |seeds| ==> seeds[i].rating >= 0
    requires 0 <= j < |seeds|
    ensures ThemeEraSum(cand, seeds) >= EraTerm(cand, seeds[j]) >= 0.0
    decreases |seeds|
  {
    var n := |seeds| - 1;
    SumsNonNegative(cand, seeds[..n]);
    TermsNonNegative(cand, seeds[n]);
    TermsNonNegative(cand, seeds[j]);
    if j < n {
      ThemeEraSumCovers(cand, seeds[..n], j);
    }
  }

  lemma {:induction false} SumsNonNegative(cand: Book, seeds: seq<Book>)
    requires forall i :: 0 <= i < |seeds| ==> seeds[i].rating >= 0
    ensures ThemeEraSum(cand, seeds) >= 0.0 && StyleSum(cand, seeds) >= 0.0
    decreases |seeds|
  {
    if seeds != [] {
      SumsNonNegative(cand, seeds[..|seeds| - 1]);
      TermsNonNegative(cand, seeds[|seeds| - 1]);
    }
  }

  /**
   * The shelf score is the theme-and-era sum plus the style subtotal plus
   * the diversity bonus, none of them negative; the shelf is chosen from
   * the distinct theme count and the style subtotal.
   */
  lemma ScoreParts(cand: Book, seeds: seq<Book>)
    requires forall i :: 0 <= i < |seeds| ==> seeds[i].rating >= 0
    ensures var sc := Score(cand, seeds);
      sc.shelfScore == ThemeEraSum(cand, seeds) + StyleSum(cand, seeds) + DiversityBonus(|sc.matchedThemes|) &&
      ThemeEraSum(cand, seeds) >= 0.0 && StyleSum(cand, seeds) >= 0.0 &&
      (DiversityBonus(|sc.matchedThemes|) == 20.0 <==> 1 <= |sc.matchedThemes| <= 3) &&
      sc.shelfLocation == DetermineShelfLocation(|sc.matchedThemes|, StyleSum(cand, seeds)) &&
      sc.shelfScore >= 0.0
  {
    AccumulateIsSums(cand, seeds);
    SumsNonNegative(cand, seeds);
  }

  /**
   * A theme is matched exactly when some seed shares it within the sweet
   * spot; matched themes are distinct themes of the candidate.
   */
  lemma MatchedThemes(cand: Book, seeds: seq<Book>, theme: string)
    ensures var m := Score(cand, seeds).matchedThemes;
      NoDuplicates(m) &&
      (theme in m <==> exists j :: 0 <= j < |seeds| && MatchedBy(cand, seeds[j], theme)) &&
      (theme in m ==> theme in cand.themes)
  {
    AccumulateIsSums(cand, seeds);
    AllThemesMembers(cand, seeds, theme);
    if theme in AllThemes(cand, seeds) {
      var j :| 0 <= j < |seeds| && MatchedBy(cand, seeds[j], theme);
      CommonMembers(cand.themes, seeds[j].themes, theme);
    }
  }

  /** A seed in the sweet spot shares `theme` with the candidate. */
  predicate MatchedBy(cand: Book, seed: Book, theme: string) {
    InSweetSpot(cand, seed) && theme in SharedThemes(cand, seed)
  }

  lemma AllThemesMembers(cand: Book, seeds: seq<Book>, theme: string)
    ensures theme in AllThemes(cand, seeds) <==> exists j :: 0 <= j < |seeds| && MatchedBy(cand, seeds[j], theme)
  {
    var lists := ThemeLists(cand, seeds);
    UnionMembers(lists, theme);
    if theme in AllThemes(cand, seeds) {
      var j :| 0 <= j < |lists| && theme in lists[j];
      assert MatchedBy(cand, seeds[j], theme);
    } else {
      forall j | 0 <= j < |seeds| ensures !MatchedBy(cand, seeds[j], theme) {
        assert theme !in lists[j];
      }
    }
  }

  /** Visiting one more seed adds its sweet-spot themes to the matched themes. */
  lemma AllThemesSnoc(cand: Book, seeds: seq<Book>)
    requires seeds != []
    ensures AllThemes(cand, seeds) ==
      AddAll(AllThemes(cand, seeds[..|seeds| - 1]), PairThemes(cand, seeds[|seeds| - 1]))
  {
    assert ThemeLists(cand, seeds)[..|seeds| - 1] == ThemeLists(cand, seeds[..|seeds| - 1]);
  }

  // ---------------------------------------------------------------------
  // The explanation

  lemma {:induction false} AllReasonsPrefix(cand: Book, seeds: seq<Book>, n: nat)
    requires n <= |seeds|
    ensures AllReasons(cand, seeds[..n]) <= AllReasons(cand, seeds)
    decreases |seeds| - n
  {
    if n < |seeds| {
      var m := |seeds| - 1;
      assert seeds[..m][..n] == seeds[..n];
      AllReasonsPrefix(cand, seeds[..m], n);
    } else {
      assert seeds[..n] == seeds;
    }
  }

  lemma {:induction false} AllReasonsEmpty(cand: Book, seeds: seq<Book>)
    requires forall i :: 0 <= i < |seeds| ==> PairReasons(cand, seeds[i]) == []
    ensures AllReasons(cand, seeds) == []
    decreases |seeds|
  {
    if seeds != [] {
      AllReasonsEmpty(cand, seeds[..|seeds| - 1]);
    }
  }

  /**
   * The explanation is the first reason of the first seed (in catalog
   * order) that gives any: its theme reason if it is in the sweet spot,
   * otherwise its style reason.
   */
  lemma FirstReason(cand: Book, seeds: seq<Book>, j: int)
    requires 0 <= j < |seeds|
    requires PairReasons(cand, seeds[j]) != []
    requires forall i :: 0 <= i < j ==> PairReasons(cand, seeds[i]) == []
    ensures Score(cand, seeds).recommendationReason == PairReasons(cand, seeds[j])[0]
    ensures Score(cand, seeds).recommendationReason ==
      if InSweetSpot(cand, seeds[j]) then ThemeReason(SharedThemes(cand, seeds[j]), seeds[j].title)
      else StyleReason(seeds[j].title)
  {
    AccumulateIsSums(cand, seeds);
    FirstOfAllReasons(cand, seeds, j);
    FirstPairReason(cand, seeds[j]);
  }

  /** The first of all reasons is the first reason of the first seed that gives one. */
  lemma FirstOfAllReasons(cand: Book, seeds: seq<Book>, j: int)
    requires 0 <= j < |seeds|
    requires PairReasons(cand, seeds[j]) != []
    requires forall i :: 0 <= i < j ==> PairReasons(cand, seeds[i]) == []
    ensures AllReasons(cand, seeds) != []
    ensures AllReasons(cand, seeds)[0] == PairReasons(cand, seeds[j])[0]
  {
    var front := seeds[..j + 1];
    AllReasonsEmpty(cand, seeds[..j]);
    assert front[..j] == seeds[..j];
    assert AllReasons(cand, front) == AllReasons(cand, seeds[..j]) + PairReasons(cand, seeds[j]);
    AllReasonsPrefix(cand, seeds, j + 1);
  }

  /** A seed's first reason is its theme reason when it is in the sweet spot, otherwise its style reason. */
  lemma FirstPairReason(cand: Book, seed: Book)
    requires PairReasons(cand, seed) != []
    ensures PairReasons(cand, seed)[0] ==
      if InSweetSpot(cand, seed) then ThemeReason(SharedThemes(cand, seed), seed.title)
      else StyleReason(seed.title)
  {
    if !InSweetSpot(cand, seed) {
      assert ThemeReasons(cand, seed) == [];
    }
  }

  /** Without any theme or style reason the generic explanation is shown, and only then. */
  lemma FallbackReason(cand: Book, seeds: seq<Book>)
    ensures Score(cand, seeds).recommendationReason == Fallback <==>
      forall i :: 0 <= i < |seeds| ==> PairReasons(cand, seeds[i]) == []
  {
    if forall i :: 0 <= i < |seeds| ==> PairReasons(cand, seeds[i]) == [] {
      AccumulateIsSums(cand, seeds);
      AllReasonsEmpty(cand, seeds);
    } else {
      var i :| 0 <= i < |seeds| && PairReasons(cand, seeds[i]) != [];
      FirstGivingSeed(cand, seeds, i);
      var j :| 0 <= j <= i && PairReasons(cand, seeds[j]) != [] &&
        forall k :: 0 <= k < j ==> PairReasons(cand, seeds[k]) == [];
      FirstReason(cand, seeds, j);
      ReasonIsNotFallback(cand, seeds[j]);
    }
  }

  /** If some seed gives a reason, there is a first one that does. */
  lemma {:induction false} FirstGivingSeed(cand: Book, seeds: seq<Book>, i: int)
    requires 0 <= i < |seeds| && PairReasons(cand, seeds[i]) != []
    ensures exists j :: (0 <= j <= i && PairReasons(cand, seeds[j]) != [] &&
                         forall k :: 0 <= k < j ==> PairReasons(cand, seeds[k]) == [])
    decreases i
  {
    if exists k :: 0 <= k < i && PairReasons(cand, seeds[k]) != [] {
      var k :| 0 <= k < i && PairReasons(cand, seeds[k]) != [];
      FirstGivingSeed(cand, seeds, k);
    } else {
      assert forall k :: 0 <= k < i ==> PairReasons(cand, seeds[k]) == [];
    }
  }

  /** A theme or style reason never reads like the generic explanation. */
  lemma ReasonIsNotFallback(cand: Book, seed: Book)
    requires PairReasons(cand, seed) != []
    ensures PairReasons(cand, seed)[0] != Fallback
  {
    var r := PairReasons(cand, seed)[0];
    assert Fallback[0] == 'R';
    if InSweetSpot(cand, seed) {
      var shared := SharedThemes(cand, seed);
      assert r == ThemeReason(shared, seed.title);
      if |shared| == 1 {
        assert r[0] == 'A';
      } else if |shared| == 2 {
        assert r[0] == 'N';
      } else {
        assert r[0] == 'S';
      }
    } else {
      assert r == StyleReason(seed.title);
      assert r[0] == 'W';
    }
  }

  // ---------------------------------------------------------------------
  // Single candidates

  /**
   * One shared theme with a rating-5 seed, no style match and more than 20
   * years apart: 40 for the theme plus the bonus of 20, on the adjacent
   * shelf, explained by the shared theme.
   */
  lemma OneSharedThemeScoresSixty(cand: Book, seed: Book)
    requires seed.rating == 5
    requires |SharedThemes(cand, seed)| == 1
    requires StyleSimilarity(cand.writingStyle, seed.writingStyle) == 0
    requires !SameEra(cand, seed)
    ensures var sc := Score(cand, [seed]);
      sc.shelfScore == 60.0 &&
      sc.matchedThemes == SharedThemes(cand, seed) &&
      sc.shelfLocation == AdjacentShelf &&
      sc.recommendationReason ==
        "Adjacent shelf: shares \"" + SharedThemes(cand, seed)[0] + "\" with \"" + seed.title + "\""
  {
    var shared := SharedThemes(cand, seed);
    assert [seed][..0] == [];
    assert ThemeWeight(5, 1) == 40.0;
    assert AddAll([], shared) == shared;
    assert Accumulate(cand, [seed]) == Tally(40.0, 0.0, [ThemeReason(shared, seed.title)], shared);
  }

  /**
   * A candidate outside the sweet spot of every seed, with no style match
   * and outside every era window, scores 0 (four or more shared themes
   * earn nothing).
   */
  lemma {:induction false} NoAffinityScoresZero(cand: Book, seeds: seq<Book>)
    requires forall i :: 0 <= i < |seeds| ==>
      !InSweetSpot(cand, seeds[i]) &&
      StyleSimilarity(cand.writingStyle, seeds[i].writingStyle) == 0 &&
      !SameEra(cand, seeds[i])
    ensures Accumulate(cand, seeds) == Tally(0.0, 0.0, [], [])
    ensures Score(cand, seeds).shelfScore == 0.0
    decreases |seeds|
  {
    if seeds != [] {
      NoAffinityScoresZero(cand, seeds[..|seeds| - 1]);
    }
  }

  /**
   * A book rated 4 or 5 and then marked unread is both a seed and a
   * candidate; compared with itself it is in its own era, so it always
   * scores above 0 and passes the cut.
   */
  lemma UnreadSeedScoresPositive(books: seq<Book>, b: Book)
    requires b in books && IsSeed(b) && !b.read
    ensures b in HighlyRated(books) && b in Unread(books)
    ensures Score(b, HighlyRated(books)).shelfScore > 0.0
    ensures Score(b, HighlyRated(books)) in Filter(ScoreAll(Unread(books), HighlyRated(books)), IsPositive)
  {
    var seeds, unread := HighlyRated(books), Unread(books);
    FilterCount(books, IsSeed, b);
    FilterCount(books, IsCandidate, b);
    assert b in multiset(seeds) && b in multiset(unread);
    var j :| 0 <= j < |seeds| && seeds[j] == b;
    SeedsRated(books);
    ThemeEraSumCovers(b, seeds, j);
    assert EraTerm(b, b) > 0.0;
    ScoreParts(b, seeds);
    var k :| 0 <= k < |unread| && unread[k] == b;
    var scored := ScoreAll(unread, seeds);
    assert scored[k] == Score(b, seeds);
    FilterCount(scored, IsPositive, scored[k]);
    assert scored[k] in multiset(Filter(scored, IsPositive));
  }

  lemma SeedsRated(books: seq<Book>)
    ensures forall i :: 0 <= i < |HighlyRated(books)| ==> HighlyRated(books)[i].rating >= 4
  {
    var seeds := HighlyRated(books);
    forall i | 0 <= i < |seeds| ensures seeds[i].rating >= 4 {
      assert seeds[i] in seeds;
    }
  }

  // ---------------------------------------------------------------------
  // The ranked list

  /** With no book rated 4 or more there is nothing to recommend, whatever else the catalog holds. */
  lemma NoSeedsNoRecommendations(books: seq<Book>)
    requires forall i :: 0 <= i < |books| ==> books[i].rating < 4
    ensures HighlyRated(books) == []
    ensures Recommendations(books) == []
  {
    FilterNone(books, IsSeed);
  }

  /** A book that is read is never recommended, however it would score. */
  lemma ReadNeverRecommended(books: seq<Book>, b: Book)
    requires b.read
    ensures forall r :: r in Recommendations(books) ==> r.book != b
  {
    RecommendationsShape(books);
  }

  /** A candidate with no affinity to any seed is never recommended. */
  lemma NoAffinityNotRecommended(books: seq<Book>, cand: Book)
    requires forall i :: 0 <= i < |HighlyRated(books)| ==>
      !InSweetSpot(cand, HighlyRated(books)[i]) &&
      StyleSimilarity(cand.writingStyle, HighlyRated(books)[i].writingStyle) == 0 &&
      !SameEra(cand, HighlyRated(books)[i])
    ensures forall r :: r in Recommendations(books) ==> r.book != cand
  {
    RecommendationsShape(books);
    NoAffinityScoresZero(cand, HighlyRated(books));
  }

  /**
   * Ties keep catalog order: for every score, the recommended entries with
   * that score are the first ones with that score among the scored unread
   * books, in catalog order.
   */
  lemma RecommendationsStable(books: seq<Book>, v: real)
    ensures var seeds := HighlyRated(books);
      Filter(Recommendations(books), KeyIs(ShelfScoreOf, v)) <=
      Filter(ScoreAll(Unread(books), seeds), KeyIs(ShelfScoreOf, v))
  {
    var seeds := HighlyRated(books);
    if seeds == [] {
      assert Filter(Recommendations(books), KeyIs(ShelfScoreOf, v)) == [];
    } else {
      TopRankedStable(ScoreAll(Unread(books), seeds), v);
    }
  }

  /** Ranking keeps, for each score, a prefix of the entries with that score in input order. */
  lemma TopRankedStable(scored: seq<Scored>, v: real)
    ensures Filter(TopRanked(scored), KeyIs(ShelfScoreOf, v)) <= Filter(scored, KeyIs(ShelfScoreOf, v))
  {
    var p := KeyIs(ShelfScoreOf, v);
    var positive := Filter(scored, IsPositive);
    var sorted := SortDesc(positive, ShelfScoreOf);
    var top := TopRanked(scored);
    FilterPrefix(sorted, |top|, p);
    assert top == sorted[..|top|];
    SortDescStable(positive, ShelfScoreOf, v);
    if v > 0.0 {
      FilterTwice(scored, IsPositive, p, p);
    } else {
      TopRankedShape(scored);
      FilterNone(top, p);
    }
  }

  /**
   * The ranking holds at most 12 entries, best first, each taken from the
   * input with a positive score.
   */
  lemma TopRankedShape(scored: seq<Scored>)
    ensures |TopRanked(scored)| <= MaxRecommendations
    ensures SortedDesc(TopRanked(scored), ShelfScoreOf)
    ensures forall i :: 0 <= i < |TopRanked(scored)| ==>
      TopRanked(scored)[i] in scored && TopRanked(scored)[i].shelfScore > 0.0
  {
    var positive := Filter(scored, IsPositive);
    var sorted := SortDesc(positive, ShelfScoreOf);
    var top := TopRanked(scored);
    SortDescPermutation(positive, ShelfScoreOf);
    SortDescSorted(positive, ShelfScoreOf);
    assert top <= sorted;
    forall i | 0 <= i < |top| ensures top[i] in scored && top[i].shelfScore > 0.0 {
      assert top[i] == sorted[i];
      assert sorted[i] in multiset(sorted);
      assert top[i] in positive;
    }
  }

  /**
   * The list is the top of the ranking: with at most 12 positive scores it
   * holds all of them; otherwise it holds 12, and every positive score left
   * out is no higher than the last one shown.
   */
  lemma RecommendationsAreTop(books: seq<Book>)
    requires HighlyRated(books) != []
    ensures var recs := Recommendations(books);
      var pool := Filter(ScoreAll(Unread(books), HighlyRated(books)), IsPositive);
      (|pool| <= MaxRecommendations ==> multiset(recs) == multiset(pool)) &&
      (|pool| > MaxRecommendations ==>
        |recs| == MaxRecommendations &&
        multiset(recs) <= multiset(pool) &&
        forall s :: s in pool && s !in recs ==> s.shelfScore <= recs[MaxRecommendations - 1].shelfScore)
  {
    TopRankedIsTop(ScoreAll(Unread(books), HighlyRated(books)));
  }

  /** The ranking holds the best positive entries: all of them, or 12 none of the rest beats. */
  lemma TopRankedIsTop(scored: seq<Scored>)
    ensures var top := TopRanked(scored);
      var pool := Filter(scored, IsPositive);
      (|pool| <= MaxRecommendations ==> multiset(top) == multiset(pool)) &&
      (|pool| > MaxRecommendations ==>
        |top| == MaxRecommendations &&
        multiset(top) <= multiset(pool) &&
        forall s :: s in pool && s !in top ==> s.shelfScore <= top[MaxRecommendations - 1].shelfScore)
  {
    var top := TopRanked(scored);
    var pool := Filter(scored, IsPositive);
    var sorted := SortDesc(pool, ShelfScoreOf);
    SortDescPermutation(pool, ShelfScoreOf);
    SortDescSorted(pool, ShelfScoreOf);
    if |pool| > MaxRecommendations {
      assert sorted == top + sorted[MaxRecommendations..];
      forall s | s in pool && s !in top
        ensures s.shelfScore <= top[MaxRecommendations - 1].shelfScore
      {
        assert s in multiset(sorted);
        var k :| 0 <= k < |sorted| && sorted[k] == s;
        assert k >= MaxRecommendations;
      }
    }
  }
}
