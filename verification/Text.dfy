/**
 Byte strings and the Go `strings` operations the modelled code uses.

 A string is a sequence of characters; case folding is the ASCII fold, which keeps
 lengths, so an index found in folded text is an index into the text itself.
 */
module Text {

  function FoldChar(c: char): char {
    if 'A' <= c <= 'Z' then (c as int + 32) as char else c
  }

  /** `strings.ToLower`. */
  function Lower(s: string): (r: string)
    ensures |r| == |s|
  {
    seq(|s|, i requires 0 <= i < |s| => FoldChar(s[i]))
  }

  lemma LowerIsFixed(s: string)
    requires forall k :: 0 <= k < |s| ==> !('A' <= s[k] <= 'Z')
    ensures Lower(s) == s
  {
  }

  lemma LowerConcat(s: string, t: string)
    ensures Lower(s + t) == Lower(s) + Lower(t)
  {
  }

  lemma LowerSlice(s: string, lo: nat, hi: nat)
    requires lo <= hi <= |s|
    ensures Lower(s[lo..hi]) == Lower(s)[lo..hi]
  {
  }

  predicate OccursAt(s: string, needle: string, i: int) {
    0 <= i && i + |needle| <= |s| && s[i..i + |needle|] == needle
  }

  ghost predicate Contains(s: string, needle: string) {
    exists i :: OccursAt(s, needle, i)
  }

  function IndexFrom(s: string, needle: string, from: nat): (r: int)
    requires from <= |s|
    ensures r == -1 || (from <= r && OccursAt(s, needle, r))
    ensures forall i :: from <= i && OccursAt(s, needle, i) ==> 0 <= r <= i
    decreases |s| - from
  {
    if from + |needle| > |s| then -1
    else if OccursAt(s, needle, from) then from
    else if from == |s| then -1
    else IndexFrom(s, needle, from + 1)
  }

  /** `strings.Index`: the first occurrence, or -1. */
  function Index(s: string, needle: string): (r: int)
    ensures r == -1 || OccursAt(s, needle, r)
    ensures forall i :: OccursAt(s, needle, i) ==> 0 <= r <= i
  {
    IndexFrom(s, needle, 0)
  }

  /** The first occurrence of `needle` when case is ignored, or -1. */
  function IndexFold(s: string, needle: string): (r: int)
    ensures r == -1 || (0 <= r && r + |needle| <= |s|)
  {
    Index(Lower(s), Lower(needle))
  }

  lemma IndexFoldIsIndex(s: string, needle: string)
    ensures IndexFold(s, needle) == Index(Lower(s), Lower(needle))
  {
  }

  ghost predicate ContainsFold(s: string, needle: string) {
    Contains(Lower(s), Lower(needle))
  }

  lemma IndexFoldAbsent(s: string, needle: string)
    ensures IndexFold(s, needle) < 0 <==> !ContainsFold(s, needle)
  {
  }

  lemma SliceOfSlice<T>(s: seq<T>, lo: nat, hi: nat, i: nat, j: nat)
    requires lo <= hi <= |s| && i <= j <= hi - lo
    ensures s[lo..hi][i..j] == s[lo + i..lo + j]
  {
    assert forall k :: 0 <= k < j - i ==> s[lo..hi][i..j][k] == s[lo..hi][i + k] == s[lo + i..lo + j][k];
  }

  lemma ThreeParts<T>(s: seq<T>, i: nat, j: nat)
    requires i <= j <= |s|
    ensures s[..i] + (s[i..j] + s[j..]) == s
  {
  }

  lemma Empties<T>(s: seq<T>)
    ensures s + [] == s && [] + s == s
  {
  }

  lemma TwoParts<T>(s: seq<T>, i: nat)
    requires i <= |s|
    ensures s[..i] + s[i..] == s
  {
  }

  lemma Ends<T>(s: seq<T>)
    ensures s[..|s|] == s && s[|s|..] == []
  {
  }

  /** Cutting a concatenation inside its first or its second part. */
  lemma CutInFirst<T>(s: seq<T>, t: seq<T>, i: nat)
    requires i <= |s|
    ensures (s + t)[..i] == s[..i] && (s + t)[i..] == s[i..] + t
  {
  }

  lemma CutInSecond<T>(s: seq<T>, t: seq<T>, i: nat)
    requires i <= |t|
    ensures (s + t)[..|s| + i] == s + t[..i] && (s + t)[|s| + i..] == t[i..]
  {
  }

  lemma Regroup<T>(s: seq<T>, t: seq<T>, i: nat)
    requires i <= |s|
    ensures s[..i] + (s[i..] + t) == s + t
  {
  }

  /** Occurrences in a slice are occurrences in the whole, and the other way if they fit. */
  lemma SliceOccurrences(s: string, lo: nat, hi: nat, needle: string)
    requires lo <= hi <= |s|
    ensures forall i {:trigger OccursAt(s[lo..hi], needle, i)} ::
              OccursAt(s[lo..hi], needle, i) ==> OccursAt(s, needle, lo + i)
    ensures forall i {:trigger OccursAt(s, needle, i)} ::
              OccursAt(s, needle, i) && lo <= i && i + |needle| <= hi ==> OccursAt(s[lo..hi], needle, i - lo)
  {
    forall i | OccursAt(s[lo..hi], needle, i)
      ensures OccursAt(s, needle, lo + i)
    {
      SliceOfSlice(s, lo, hi, i, i + |needle|);
    }
    forall i | OccursAt(s, needle, i) && lo <= i && i + |needle| <= hi
      ensures OccursAt(s[lo..hi], needle, i - lo)
    {
      SliceOfSlice(s, lo, hi, i - lo, i - lo + |needle|);
    }
  }

  /** A first occurrence stays the first occurrence when text is appended. */
  lemma IndexStable(s: string, t: string, needle: string)
    requires Index(s, needle) >= 0
    ensures Index(s + t, needle) == Index(s, needle)
  {
    assert (s + t)[0..|s|] == s;
    SliceOccurrences(s + t, 0, |s|, needle);
    assert OccursAt(s + t, needle, 0 + Index(s, needle));
  }

  lemma SliceContains(s: string, lo: nat, hi: nat, needle: string)
    requires lo <= hi <= |s|
    requires Contains(s[lo..hi], needle)
    ensures Contains(s, needle)
  {
    SliceOccurrences(s, lo, hi, needle);
    var i :| OccursAt(s[lo..hi], needle, i);
    assert OccursAt(s, needle, lo + i);
  }

  /** `strings.TrimSpace` on ASCII text. */
  predicate IsSpace(c: char) {
    c == ' ' || c == '\t' || c == '\n' || c == '\r' || c == '\U{0B}' || c == '\U{0C}'
  }

  lemma SixSpaces(c: char)
    ensures IsSpace(c) <==> c in [' ', '\t', '\n', '\r', 11 as char, 12 as char]
  {
  }

  function TrimLeft(s: string): (r: string)
    ensures |r| <= |s| && r == s[|s| - |r|..]
    ensures r == "" || !IsSpace(r[0])
    ensures forall k :: 0 <= k < |s| - |r| ==> IsSpace(s[k])
  {
    if s != "" && IsSpace(s[0]) then
      var t := s[1..];
      var r := TrimLeft(t);
      TrimLeftStep(s, t, r);
      r
    else s
  }

  lemma TrimLeftStep(s: string, t: string, r: string)
    requires s != "" && IsSpace(s[0]) && t == s[1..] && |r| <= |t| && r == t[|t| - |r|..]
    requires forall k :: 0 <= k < |t| - |r| ==> IsSpace(t[k])
    ensures r == s[|s| - |r|..] && forall k :: 0 <= k < |s| - |r| ==> IsSpace(s[k])
  {
    hide IsSpace;
    forall k | 0 < k < |s| - |r|
      ensures IsSpace(s[k])
    {
      assert t[k - 1] == s[k];
    }
  }

  function TrimRight(s: string): (r: string)
    ensures |r| <= |s| && r == s[..|r|]
    ensures r == "" || !IsSpace(r[|r| - 1])
    ensures forall k :: |r| <= k < |s| ==> IsSpace(s[k])
  {
    if s != "" && IsSpace(s[|s| - 1]) then
      var t := s[..|s| - 1];
      var r := TrimRight(t);
      TrimRightStep(s, t, r);
      r
    else s
  }

  lemma TrimRightStep(s: string, t: string, r: string)
    requires s != "" && IsSpace(s[|s| - 1]) && t == s[..|s| - 1] && |r| <= |t| && r == t[..|r|]
    requires forall k :: |r| <= k < |t| ==> IsSpace(t[k])
    ensures r == s[..|r|] && forall k :: |r| <= k < |s| ==> IsSpace(s[k])
  {
    hide IsSpace;
    forall k | |r| <= k < |s| - 1
      ensures IsSpace(s[k])
    {
      assert t[k] == s[k];
    }
  }

  ghost predicate Trimmed(s: string) {
    s == "" || (!IsSpace(s[0]) && !IsSpace(s[|s| - 1]))
  }

  function TrimSpace(s: string): (r: string)
    ensures Trimmed(r)
    ensures exists lo: nat, hi: nat :: lo <= hi <= |s| && r == s[lo..hi]
  {
    var left := TrimLeft(s);
    var r := TrimRight(left);
    TrimIsSlice(s, left, r);
    r
  }

  lemma TrimIsSlice(s: string, left: string, r: string)
    requires |left| <= |s| && left == s[|s| - |left|..] && |r| <= |left| && r == left[..|r|]
    ensures r == s[|s| - |left|..|s| - |left| + |r|]
    ensures r != "" ==> r[0] == left[0]
  {
  }

  lemma TrimmedIsFixed(s: string)
    requires Trimmed(s)
    ensures TrimSpace(s) == s
  {
  }

  // ----- Text up to white space -----

  predicate AllSpace(s: string) {
    forall k :: 0 <= k < |s| ==> IsSpace(s[k])
  }

  predicate NoSpace(s: string) {
    forall k :: 0 <= k < |s| ==> !IsSpace(s[k])
  }

  /** The text without its white space. */
  function NonSpace(s: string): string {
    if s == "" then "" else (if IsSpace(s[0]) then "" else [s[0]]) + NonSpace(s[1..])
  }

  lemma {:induction false} NonSpaceConcat(s: string, t: string)
    ensures NonSpace(s + t) == NonSpace(s) + NonSpace(t)
  {
    if s == "" {
      Empties(t);
      Empties(NonSpace(t));
    } else {
      CutInFirst(s, t, 1);
      NonSpaceConcat(s[1..], t);
    }
  }

  lemma {:induction false} NonSpaceOfSpace(s: string)
    requires AllSpace(s)
    ensures NonSpace(s) == ""
  {
    if s != "" { NonSpaceOfSpace(s[1..]); }
  }

  /** Trimming cuts white space off both ends. */
  lemma TrimParts(s: string) returns (front: string, back: string)
    ensures AllSpace(front) && AllSpace(back)
    ensures s == front + (TrimSpace(s) + back)
  {
    var left := TrimLeft(s);
    var r := TrimRight(left);
    front, back := s[..|s| - |left|], left[|r|..];
    hide TrimLeft, TrimRight;
    TwoParts(left, |r|);
    TwoParts(s, |s| - |left|);
  }

  lemma NonSpaceTrim(s: string)
    ensures NonSpace(TrimSpace(s)) == NonSpace(s)
  {
    hide TrimSpace, NonSpace;
    var front, back := TrimParts(s);
    NonSpaceConcat(front, TrimSpace(s) + back);
    NonSpaceConcat(TrimSpace(s), back);
    NonSpaceOfSpace(front);
    NonSpaceOfSpace(back);
    Empties(NonSpace(TrimSpace(s)));
  }

  lemma {:induction false} NonSpaceAt(s: string, k: nat)
    requires k < |s| && !IsSpace(s[k])
    ensures NonSpace(s) != ""
  {
    if k > 0 {
      NonSpaceAt(s[1..], k - 1);
    }
  }

  // ----- Trimming ignores white space at the ends -----

  lemma {:induction false} TrimLeftSkips(front: string, s: string)
    requires AllSpace(front)
    ensures TrimLeft(front + s) == TrimLeft(s)
  {
    if front == "" {
      Empties(s);
    } else {
      CutInFirst(front, s, 1);
      TrimLeftSkips(front[1..], s);
    }
  }

  lemma {:induction false} TrimRightSkips(s: string, back: string)
    requires AllSpace(back)
    ensures TrimRight(s + back) == TrimRight(s)
    decreases |back|
  {
    if back == "" {
      Empties(s);
    } else {
      var n := |back| - 1;
      assert (s + back)[..|s + back| - 1] == s + back[..n];
      TrimRightSkips(s, back[..n]);
    }
  }

  lemma {:induction false} TrimIgnoresBack(s: string, back: string)
    requires AllSpace(back)
    ensures TrimSpace(s + back) == TrimSpace(s)
  {
    hide TrimRight;
    if s == "" {
      Empties(back);
      TrimLeftSkips(back, "");
    } else {
      CutInFirst(s, back, 1);
      if IsSpace(s[0]) {
        TrimIgnoresBack(s[1..], back);
      } else {
        TrimRightSkips(s, back);
      }
    }
  }

  lemma TrimIgnoresFront(front: string, s: string)
    requires AllSpace(front)
    ensures TrimSpace(front + s) == TrimSpace(s)
  {
    hide TrimLeft, TrimRight;
    TrimLeftSkips(front, s);
  }

  // ----- Occurrences in trimmed text -----

  lemma SliceContainsFold(s: string, lo: nat, hi: nat, needle: string)
    requires lo <= hi <= |s|
    requires ContainsFold(s[lo..hi], needle)
    ensures ContainsFold(s, needle)
  {
    LowerSlice(s, lo, hi);
    SliceContains(Lower(s), lo, hi, Lower(needle));
  }

  lemma TrimContainsFold(s: string, needle: string)
    requires ContainsFold(TrimSpace(s), needle)
    ensures ContainsFold(s, needle)
  {
    var lo: nat, hi: nat :| lo <= hi <= |s| && TrimSpace(s) == s[lo..hi];
    SliceContainsFold(s, lo, hi, needle);
  }
}
