/** Searching text for tags: the helpers the splitters and the strippers share. */
module TagSearch {
  import opened Text
  import opened LetterCase
  import opened TagStream

  /** The earliest open tag among the first `n` pairs; the first listed pair wins a tie. */
  ghost predicate IsEarliestOf(text: string, pairs: seq<Tags>, n: nat, idx: int, which: int)
    requires n <= |pairs|
  {
    if idx < 0 then
      idx == -1 && forall p :: 0 <= p < n ==> IndexFold(text, pairs[p].open) < 0
    else
      && 0 <= which < n
      && IndexFold(text, pairs[which].open) == idx
      && forall p :: 0 <= p < n && IndexFold(text, pairs[p].open) >= 0 ==>
           idx <= IndexFold(text, pairs[p].open) && (idx == IndexFold(text, pairs[p].open) ==> which <= p)
  }

  ghost predicate IsEarliest(text: string, pairs: seq<Tags>, idx: int, which: int) {
    IsEarliestOf(text, pairs, |pairs|, idx, which)
  }

  lemma EarliestIsUnique(text: string, pairs: seq<Tags>, idx: int, which: int, idx': int, which': int)
    requires IsEarliest(text, pairs, idx, which) && IsEarliest(text, pairs, idx', which')
    ensures idx == idx' && (idx >= 0 ==> which == which')
  {
  }

  method FindCaseInsensitive(haystack: string, needle: string) returns (idx: int, length: nat)
    ensures needle == "" ==> idx == -1 && length == 0
    ensures needle != "" ==> idx == IndexFold(haystack, needle)
    ensures needle != "" ==> idx == -1 || SpelledAt(haystack, needle, idx)
    ensures needle != "" ==> forall i :: SpelledAt(haystack, needle, i) ==> 0 <= idx <= i
    ensures length == if idx < 0 then 0 else |needle|
  {
    hide SpelledAt;
    if needle == "" { return -1, 0; }
    IndexFoldFindsSpelling(haystack, needle);
    var lowerHaystack := Lower(haystack);
    var lowerNeedle := Lower(needle);
    idx := Index(lowerHaystack, lowerNeedle);
    if idx < 0 { return -1, 0; }
    return idx, |needle|;
  }

  /** The scan both `findEarliestOpenTag` and the deliverable stripper make over their pairs. */
  method FindEarliestOpenTag(raw: string, pairs: seq<Tags>) returns (idx: int, openLen: nat, which: int)
    ensures IsEarliest(raw, pairs, idx, which)
    ensures idx >= 0 ==> openLen == |pairs[which].open|
  {
    hide IndexFold;
    var lower := Lower(raw);
    idx, openLen, which := -1, 0, -1;
    for p := 0 to |pairs|
      invariant IsEarliestOf(raw, pairs, p, idx, which)
      invariant idx >= 0 ==> openLen == |pairs[which].open|
    {
      var openIdx := Index(lower, Lower(pairs[p].open));
      IndexFoldIsIndex(raw, pairs[p].open);
      if openIdx >= 0 && (idx < 0 || openIdx < idx) {
        idx, openLen, which := openIdx, |pairs[p].open|, p;
      }
    }
  }

  /** The branch on `keep > 0` cuts the text at the same place as one cut would. */
  lemma KeepSplits(raw: string, keep: nat)
    requires keep <= |raw|
    ensures "" + raw[|raw| - keep..] == raw[|raw| - keep..]
    ensures keep == 0 ==> raw[..|raw| - keep] == raw && raw[|raw| - keep..] == ""
  {
    Ends(raw);
    Empties(raw[|raw| - keep..]);
  }

  lemma PartialIsShort(raw: string, tag: string)
    ensures forall m: nat :: IsPartial(raw, tag, m) ==> m <= |raw| && m < |tag|
  {
  }

  lemma SuffixIsPartial(raw: string, tag: string, size: nat)
    requires size <= |raw| && size < |tag|
    ensures IsPartial(raw, tag, size) <==> Lower(raw[|raw| - size..]) == Lower(tag)[..size]
  {
    LowerSlice(raw, |raw| - size, |raw|);
    assert raw[|raw| - size..|raw|] == raw[|raw| - size..];
    assert Lower(raw)[|raw| - size..|raw|] == Lower(raw)[|raw| - size..];
  }

  method PartialTagSuffix(raw: string, tag: string) returns (keep: nat)
    ensures tag == "" ==> keep == 0
    ensures tag != "" ==> keep == HeldBack(raw, tag)
  {
    if tag == "" || raw == "" { return 0; }
    hide IsPartial, Lower, HeldBack;
    var max := if |tag| - 1 > |raw| then |raw| else |tag| - 1;
    var size := max;
    PartialIsShort(raw, tag);
    while size > 0
      invariant 0 <= size <= max
      invariant forall m: nat :: IsPartial(raw, tag, m) ==> m <= size
    {
      var suffix := raw[|raw| - size..];
      SuffixIsPartial(raw, tag, size);
      if Lower(suffix) == Lower(tag)[..size] {
        return size;
      }
      size := size - 1;
    }
    return 0;
  }
}
