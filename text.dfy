/**
 * The string primitives the app relies on: `toLowerCase`, `includes` and
 * `split(/[\s-]+/)`.
 */
module Text {

  /**
   * `toLowerCase` on the ASCII letters: no capital is left, every other
   * character is kept, and separators stay separators at the same place,
   * so lowercasing before a split never moves a cut.
   */
  function Lower(s: string): (r: string)
    ensures |r| == |s|
    ensures forall i :: 0 <= i < |r| ==> !('A' <= r[i] <= 'Z')
    ensures forall i :: 0 <= i < |s| && !('A' <= s[i] <= 'Z') ==> r[i] == s[i]
    ensures forall i :: 0 <= i < |s| ==> (IsSeparator(r[i]) <==> IsSeparator(s[i]))
  {
    seq(|s|, i requires 0 <= i < |s| => if 'A' <= s[i] <= 'Z' then (s[i] as int + 32) as char else s[i])
  }

  /** A capital becomes its own small letter: the letter at the same place in the alphabet. */
  lemma LowerCapital(s: string, i: int)
    requires 0 <= i < |s| && 'A' <= s[i] <= 'Z'
    ensures 'a' <= Lower(s)[i] <= 'z'
    ensures Lower(s)[i] as int - 'a' as int == s[i] as int - 'A' as int
  {
  }

  /** Lowercasing twice is lowercasing once. */
  lemma LowerIdempotent(s: string)
    ensures Lower(Lower(s)) == Lower(s)
  {
    var t := Lower(s);
    assert forall i :: 0 <= i < |t| ==> Lower(t)[i] == t[i];
  }

  /** A character of the class `[\s-]`: ECMAScript white space and line terminators, or a hyphen. */
  predicate IsSeparator(c: char)
    ensures c == '-' || c == ' ' || c == '\t' || c == '\n' ==> IsSeparator(c)
    ensures 'a' <= c <= 'z' || 'A' <= c <= 'Z' || '0' <= c <= '9' || c == '_' ==> !IsSeparator(c)
  {
    c == '-' || c == ' ' || c == '\t' || c == '\n' || c == '\r'
    || c as int == 0x0B || c as int == 0x0C || c as int == 0xA0 || c as int == 0x1680
    || (0x2000 <= c as int <= 0x200A) || c as int == 0x2028 || c as int == 0x2029
    || c as int == 0x202F || c as int == 0x205F || c as int == 0x3000 || c as int == 0xFEFF
  }

  /**
   * `hay.includes(needle)`: `needle` occurs in `hay` at some position. The
   * empty needle is in every string, and a needle longer than the haystack
   * is in none.
   */
  predicate Contains(hay: string, needle: string)
    ensures needle <= hay ==> Contains(hay, needle)
    ensures Contains(hay, needle) ==> |needle| <= |hay|
    decreases |hay|
  {
    needle <= hay || (hay != [] && Contains(hay[1..], needle))
  }

  /** `needle` occurs in `hay` starting at index `i`. */
  predicate OccursAt(hay: string, needle: string, i: int) {
    0 <= i <= |hay| - |needle| && hay[i..i + |needle|] == needle
  }

  /** Contains holds exactly when some slice of `hay` is `needle`. */
  lemma {:induction false} ContainsAt(hay: string, needle: string)
    ensures Contains(hay, needle) <==> exists i :: OccursAt(hay, needle, i)
  {
    if Contains(hay, needle) {
      ContainsOccurs(hay, needle);
    }
    if exists i :: OccursAt(hay, needle, i) {
      var i :| OccursAt(hay, needle, i);
      OccursContains(hay, needle, i);
    }
  }

  lemma {:induction false} ContainsOccurs(hay: string, needle: string)
    requires Contains(hay, needle)
    ensures exists i :: OccursAt(hay, needle, i)
    decreases |hay|
  {
    if needle <= hay {
      assert OccursAt(hay, needle, 0);
    } else {
      ContainsOccurs(hay[1..], needle);
      var i :| OccursAt(hay[1..], needle, i);
      assert hay[1..][i..i + |needle|] == hay[i + 1..i + 1 + |needle|];
      assert OccursAt(hay, needle, i + 1);
    }
  }

  lemma {:induction false} OccursContains(hay: string, needle: string, i: int)
    requires OccursAt(hay, needle, i)
    ensures Contains(hay, needle)
    decreases i
  {
    if i == 0 {
      assert needle <= hay;
    } else {
      assert hay[1..][i - 1..i - 1 + |needle|] == hay[i..i + |needle|];
      assert OccursAt(hay[1..], needle, i - 1);
      OccursContains(hay[1..], needle, i - 1);
    }
  }

  /** The separator run at the front of `s`, removed. */
  function DropSeparators(s: string): (r: string)
    ensures |r| <= |s|
    ensures r == [] || !IsSeparator(r[0])
    ensures r <= s[|s| - |r|..] && s[|s| - |r|..] == r
    ensures forall i :: 0 <= i < |s| - |r| ==> IsSeparator(s[i])
    decreases |s|
  {
    if s != [] && IsSeparator(s[0]) then DropSeparators(s[1..]) else s
  }

  /**
   * The tokens of `s[..]` after the token `cur` that is being built: a
   * separator run ends the token under construction and starts a new one.
   */
  function SplitFrom(s: string, cur: string): (r: seq<string>)
    ensures |r| >= 1
    decreases |s|
  {
    if s == [] then [cur]
    else if IsSeparator(s[0]) then [cur] + SplitFrom(DropSeparators(s[1..]), "")
    else SplitFrom(s[1..], cur + [s[0]])
  }

  /**
   * `s.split(/[\s-]+/)`: the pieces between maximal separator runs. A
   * leading or trailing run gives an empty first or last piece, and the
   * empty string gives one empty piece, as in JavaScript.
   */
  function Split(s: string): (r: seq<string>)
    ensures |r| >= 1
  {
    SplitFrom(s, "")
  }

  /** The characters of `s` that are not separators, in order. */
  function Letters(s: string): string
    decreases |s|
  {
    if s == [] then [] else (if IsSeparator(s[0]) then [] else [s[0]]) + Letters(s[1..])
  }

  /** Concatenation of a list of strings. */
  function Concat(ws: seq<string>): string
    decreases |ws|
  {
    if ws == [] then [] else ws[0] + Concat(ws[1..])
  }

  lemma {:induction false} LettersDropSeparators(s: string)
    ensures Letters(DropSeparators(s)) == Letters(s)
    decreases |s|
  {
    if s != [] && IsSeparator(s[0]) {
      LettersDropSeparators(s[1..]);
    }
  }

  lemma {:induction false} ConcatAppend(a: seq<string>, b: seq<string>)
    ensures Concat(a + b) == Concat(a) + Concat(b)
    decreases |a|
  {
    if a == [] {
      assert a + b == b;
    } else {
      assert (a + b)[1..] == a[1..] + b;
      ConcatAppend(a[1..], b);
    }
  }

  lemma {:induction false} SplitFromLetters(s: string, cur: string)
    ensures Concat(SplitFrom(s, cur)) == cur + Letters(s)
    decreases |s|
  {
    if s == [] {
    } else if IsSeparator(s[0]) {
      var rest := DropSeparators(s[1..]);
      SplitFromLetters(rest, "");
      LettersDropSeparators(s[1..]);
      ConcatAppend([cur], SplitFrom(rest, ""));
      assert Concat([cur]) == cur;
    } else {
      SplitFromLetters(s[1..], cur + [s[0]]);
    }
  }

  /** Splitting loses exactly the separators: the tokens put together give the rest of `s`. */
  lemma SplitKeepsLetters(s: string)
    ensures Concat(Split(s)) == Letters(s)
  {
    SplitFromLetters(s, "");
  }

  /** A string with no whitespace and no hyphen. */
  predicate Word(w: string) {
    forall i :: 0 <= i < |w| ==> !IsSeparator(w[i])
  }

  lemma {:induction false} SplitFromNoSeparators(s: string, cur: string)
    requires Word(cur)
    ensures forall k :: 0 <= k < |SplitFrom(s, cur)| ==> Word(SplitFrom(s, cur)[k])
    decreases |s|
  {
    if s == [] {
    } else if IsSeparator(s[0]) {
      var rest := SplitFrom(DropSeparators(s[1..]), "");
      SplitFromNoSeparators(DropSeparators(s[1..]), "");
      assert SplitFrom(s, cur) == [cur] + rest;
      forall k | 0 <= k < |[cur] + rest| ensures Word(([cur] + rest)[k]) {
        if k > 0 {
          assert ([cur] + rest)[k] == rest[k - 1];
        }
      }
    } else {
      var next := cur + [s[0]];
      assert Word(next) by {
        forall i | 0 <= i < |next| ensures !IsSeparator(next[i]) {
          if i < |cur| {
            assert next[i] == cur[i];
          }
        }
      }
      SplitFromNoSeparators(s[1..], next);
    }
  }

  /** No token contains a separator. */
  lemma SplitNoSeparators(s: string)
    ensures forall k :: 0 <= k < |Split(s)| ==> Word(Split(s)[k])
  {
    SplitFromNoSeparators(s, "");
  }

  /** A word (no separators) is taken into the token under construction whole. */
  lemma {:induction false} SplitFromWord(w: string, rest: string, cur: string)
    requires Word(w)
    ensures SplitFrom(w + rest, cur) == SplitFrom(rest, cur + w)
    decreases |w|
  {
    if w == [] {
      assert w + rest == rest;
      assert cur + w == cur;
    } else {
      assert (w + rest)[0] == w[0];
      assert (w + rest)[1..] == w[1..] + rest;
      assert cur + [w[0]] + w[1..] == cur + w;
      SplitFromWord(w[1..], rest, cur + [w[0]]);
    }
  }

  /** A single word splits into itself. */
  lemma SplitOneWord(w: string)
    requires Word(w)
    ensures Split(w) == [w]
  {
    SplitFromWord(w, "", "");
    assert w + "" == w;
    assert "" + w == w;
  }

  /** Two words and one separator between them split into the two words. */
  lemma SplitTwoWords(a: string, c: char, b: string)
    requires a != "" && b != "" && IsSeparator(c)
    requires Word(a)
    requires Word(b)
    ensures Split(a + [c] + b) == [a, b]
  {
    SplitFromWord(a, [c] + b, "");
    assert a + [c] + b == a + ([c] + b);
    assert "" + a == a;
    assert ([c] + b)[1..] == b;
    assert DropSeparators(b) == b;
    SplitOneWord(b);
  }

  /** A separator in front gives an empty first token. */
  lemma SplitLeadingSeparator(c: char, w: string)
    requires w != "" && IsSeparator(c)
    requires Word(w)
    ensures Split([c] + w) == ["", w]
  {
    assert ([c] + w)[1..] == w;
    assert DropSeparators(w) == w;
    SplitOneWord(w);
  }

  /** A run of separators in front of a string that starts with a non-separator is dropped whole. */
  lemma {:induction false} DropSeparatorRun(sep: string, rest: string)
    requires forall i :: 0 <= i < |sep| ==> IsSeparator(sep[i])
    requires rest == [] || !IsSeparator(rest[0])
    ensures DropSeparators(sep + rest) == rest
    decreases |sep|
  {
    if sep == [] {
      assert sep + rest == rest;
    } else {
      assert (sep + rest)[0] == sep[0];
      assert (sep + rest)[1..] == sep[1..] + rest;
      DropSeparatorRun(sep[1..], rest);
    }
  }

  /**
   * Where the cuts fall: a word followed by a whole run of separators is
   * one token, and splitting goes on with what follows the run. A run of
   * several separators makes a single cut.
   */
  lemma SplitCut(a: string, sep: string, rest: string)
    requires Word(a)
    requires sep != [] && forall i :: 0 <= i < |sep| ==> IsSeparator(sep[i])
    requires rest == [] || !IsSeparator(rest[0])
    ensures Split(a + sep + rest) == [a] + Split(rest)
  {
    SplitFromWord(a, sep + rest, "");
    assert a + sep + rest == a + (sep + rest);
    assert "" + a == a;
    assert (sep + rest)[0] == sep[0];
    assert (sep + rest)[1..] == sep[1..] + rest;
    DropSeparatorRun(sep[1..], rest);
  }

  /** "a  -b": two spaces and a hyphen make one cut. */
  lemma SplitRunExample()
    ensures Split("a  -b") == ["a", "b"]
  {
    assert "a  -b" == "a" + "  -" + "b";
    SplitCut("a", "  -", "b");
    SplitOneWord("b");
  }
}
