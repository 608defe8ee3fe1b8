/**
 What "in any case" means: texts compared letter by letter with two alphabets, without
 folding anything; and that searching in folded text finds just that.
 */
module LetterCase {
  import opened Text

  const CAPITALS := "ABCDEFGHIJKLMNOPQRSTUVWXYZ"
  const SMALL := "abcdefghijklmnopqrstuvwxyz"

  /** A letter and its capital, from the two alphabets. */
  predicate IsPair(capital: char, small: char) {
    exists k :: 0 <= k < |CAPITALS| && k < |SMALL| && CAPITALS[k] == capital && SMALL[k] == small
  }

  predicate SameChar(c: char, d: char) { c == d || IsPair(c, d) || IsPair(d, c) }

  ghost predicate SameButCase(s: string, t: string) {
    |s| == |t| && forall k :: 0 <= k < |s| ==> SameChar(s[k], t[k])
  }

  lemma AlphabetsInOrder(k: nat)
    requires k < 26
    ensures CAPITALS[k] as int == 65 + k && SMALL[k] as int == 97 + k
  {
  }

  lemma PairIsFold(c: char, d: char)
    ensures IsPair(c, d) <==> 'A' <= c <= 'Z' && d as int == c as int + 32
  {
    if IsPair(c, d) {
      var k :| 0 <= k < |CAPITALS| && k < |SMALL| && CAPITALS[k] == c && SMALL[k] == d;
      AlphabetsInOrder(k);
    }
    if 'A' <= c <= 'Z' && d as int == c as int + 32 {
      var k := c as int - 65;
      AlphabetsInOrder(k);
      assert CAPITALS[k] == c && SMALL[k] == d;
    }
  }

  lemma SameCharIsFold(c: char, d: char)
    ensures FoldChar(c) == FoldChar(d) <==> SameChar(c, d)
  {
    hide IsPair;
    PairIsFold(c, d);
    PairIsFold(d, c);
  }

  /** Two texts fold to the same exactly if they are the same but for case. */
  lemma SameFold(s: string, t: string)
    ensures Lower(s) == Lower(t) <==> SameButCase(s, t)
  {
    hide SameChar, FoldChar;
    if Lower(s) == Lower(t) {
      assert |Lower(s)| == |s| && |Lower(t)| == |t|;
      forall k | 0 <= k < |s|
        ensures SameChar(s[k], t[k])
      {
        assert Lower(s)[k] == Lower(t)[k];
        SameCharIsFold(s[k], t[k]);
      }
    }
    if SameButCase(s, t) {
      forall k | 0 <= k < |s|
        ensures FoldChar(s[k]) == FoldChar(t[k])
      {
        SameCharIsFold(s[k], t[k]);
      }
    }
  }

  /** The needle begins at `i`, in some spelling. */
  ghost predicate SpelledAt(s: string, needle: string, i: int) {
    0 <= i && i + |needle| <= |s| && SameButCase(s[i..i + |needle|], needle)
  }

  lemma SpelledIsFolded(s: string, needle: string, i: int)
    ensures SpelledAt(s, needle, i) <==> OccursAt(Lower(s), Lower(needle), i)
  {
    hide Lower, SameButCase;
    if 0 <= i && i + |needle| <= |s| {
      LowerSlice(s, i, i + |needle|);
      SameFold(s[i..i + |needle|], needle);
    }
  }

  /** The folded search finds the first spelling of the needle. */
  lemma IndexFoldFindsSpelling(s: string, needle: string)
    ensures var r := IndexFold(s, needle);
            && (r == -1 || SpelledAt(s, needle, r))
            && forall i :: SpelledAt(s, needle, i) ==> 0 <= r <= i
  {
    hide Lower, SpelledAt, OccursAt;
    var r := IndexFold(s, needle);
    SpelledIsFolded(s, needle, r);
    forall i | SpelledAt(s, needle, i)
      ensures 0 <= r <= i
    {
      SpelledIsFolded(s, needle, i);
    }
  }

  lemma ContainsFoldIsSpelled(s: string, needle: string)
    ensures ContainsFold(s, needle) <==> exists i :: SpelledAt(s, needle, i)
  {
    hide Lower, SpelledAt, OccursAt;
    if i :| OccursAt(Lower(s), Lower(needle), i) {
      SpelledIsFolded(s, needle, i);
    }
    if i :| SpelledAt(s, needle, i) {
      SpelledIsFolded(s, needle, i);
    }
  }
}
