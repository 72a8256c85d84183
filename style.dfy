/**
 * The style comparator (`calculateStyleSimilarity`): how many keywords of
 * the first writing-style descriptor also occur in the second.
 */
module Style {
  import opened Wrappers
  import opened Text
  import opened Seqs

  /** `!style`: the descriptor is absent or the empty string. */
  predicate Blank(style: Option<string>) {
    style.None? || style.value == ""
  }

  /** The descriptor lowercased and split on runs of white space and hyphens. */
  function Keywords(style: string): (ws: seq<string>)
    ensures |ws| >= 1
  {
    Split(Lower(style))
  }

  /**
   * Keywords of `style1`, repeats included, that occur anywhere among the
   * keywords of `style2`; 0 when either descriptor is blank.
   */
  function StyleSimilarity(style1: Option<string>, style2: Option<string>): (n: nat)
    ensures Blank(style1) || Blank(style2) ==> n == 0
    ensures !Blank(style1) ==> n <= |Keywords(style1.value)|
  {
    if Blank(style1) || Blank(style2) then 0
    else |Common(Keywords(style1.value), Keywords(style2.value))|
  }

  /**
   * The count is a multiset count: a keyword that occurs k times in the
   * first descriptor and at least once in the second contributes k.
   */
  lemma SimilarityCountsRepeats(style1: string, style2: string)
    requires style1 != "" && style2 != ""
    ensures var k1, k2 := Keywords(style1), Keywords(style2);
      StyleSimilarity(Some(style1), Some(style2)) == |multiset(Common(k1, k2))| &&
      forall w :: multiset(Common(k1, k2))[w] == if w in k2 then multiset(k1)[w] else 0
  {
    var k1, k2 := Keywords(style1), Keywords(style2);
    forall w ensures multiset(Common(k1, k2))[w] == if w in k2 then multiset(k1)[w] else 0 {
      CommonCount(k1, k2, w);
    }
  }

  /** The similarity is positive exactly when both are present and some keyword is shared. */
  lemma SimilarityPositive(style1: Option<string>, style2: Option<string>)
    ensures StyleSimilarity(style1, style2) > 0 <==>
      !Blank(style1) && !Blank(style2) &&
      exists w :: w in Keywords(style1.value) && w in Keywords(style2.value)
  {
    if !Blank(style1) && !Blank(style2) {
      var k1, k2 := Keywords(style1.value), Keywords(style2.value);
      var c := Common(k1, k2);
      if |c| > 0 {
        CommonMembers(k1, k2, c[0]);
      }
      if exists w :: w in k1 && w in k2 {
        var w :| w in k1 && w in k2;
        CommonMembers(k1, k2, w);
      }
    }
  }

  /** A present descriptor matches itself in every keyword, so at least once. */
  lemma SelfSimilarity(style: Option<string>)
    requires !Blank(style)
    ensures StyleSimilarity(style, style) == |Keywords(style.value)| >= 1
  {
    var k := Keywords(style.value);
    CommonSelf(k, k);
  }

  /** Blank descriptors give 0, and one shared keyword gives 1. */
  lemma SimilarityExamples()
    ensures StyleSimilarity(Some(""), Some("x")) == 0
    ensures StyleSimilarity(None, Some("x")) == 0
    ensures StyleSimilarity(Some("dark comic"), Some("dark")) == 1
  {
    assert Lower("dark comic") == "dark" + [' '] + "comic";
    SplitTwoWords("dark", ' ', "comic");
    assert Lower("dark") == "dark";
    SplitOneWord("dark");
  }

  /** Repeated keywords make the count asymmetric: "a a" against "a" is 2, the reverse is 1. */
  lemma SimilarityAsymmetric()
    ensures StyleSimilarity(Some("a a"), Some("a")) == 2
    ensures StyleSimilarity(Some("a"), Some("a a")) == 1
  {
    assert Lower("a a") == "a" + [' '] + "a";
    SplitTwoWords("a", ' ', "a");
    assert Lower("a") == "a";
    SplitOneWord("a");
  }

  /**
   * A leading separator yields an empty first keyword, so two descriptors
   * that each start with one match on it although they share no word.
   */
  lemma LeadingSeparatorsMatch(style1: string, style2: string, c1: char, w1: string, c2: char, w2: string)
    requires Lower(style1) == [c1] + w1 && Lower(style2) == [c2] + w2
    requires IsSeparator(c1) && IsSeparator(c2) && w1 != "" && w2 != "" && w1 != w2
    requires Word(w1)
    requires Word(w2)
    ensures StyleSimilarity(Some(style1), Some(style2)) == 1
  {
    SplitLeadingSeparator(c1, w1);
    SplitLeadingSeparator(c2, w2);
    var k1, k2 := Keywords(style1), Keywords(style2);
    assert k1 == ["", w1] && k2 == ["", w2];
    LeadingTokensCommon(w1, w2);
  }

  /** The token lists `["", w1]` and `["", w2]` of two different words share only the empty token. */
  lemma LeadingTokensCommon(w1: string, w2: string)
    requires w1 != "" && w1 != w2
    ensures |Common(["", w1], ["", w2])| == 1
  {
    var k2: seq<string> := ["", w2];
    assert w1 !in k2;
    assert Common([w1], k2) == [];
    assert ["", w1][1..] == [w1];
    assert "" in k2;
    assert Common(["", w1], k2) == [""] + Common([w1], k2);
  }

  /** " sparse" against "-lush" scores 1. */
  lemma LeadingSeparatorMatches()
    ensures StyleSimilarity(Some(" sparse"), Some("-lush")) == 1
  {
    assert Lower(" sparse") == [' '] + "sparse";
    assert Lower("-lush") == ['-'] + "lush";
    LeadingSeparatorsMatch(" sparse", "-lush", ' ', "sparse", '-', "lush");
  }
}
