/**
 The static strippers: remove every tagged block from a complete text.

 `Strip` says what they compute; the three methods are proved against it.
 */
module TagStrippers {
  import opened Text
  import opened LetterCase
  import opened TagStream
  import opened TagSearch
  import opened ThinkTagSplitters
  import opened PriorOutputSummarySplitters

  const DELIVERABLE_TAG_PAIRS: seq<Tags> := [
    Tags("<deliverable_schema>", "</deliverable_schema>"),
    Tags("<deliverable_contract>", "</deliverable_contract>"),
    Tags("<deliverable>", "</deliverable>"),
    Tags("<findings_json>", "</findings_json>"),
    Tags("<deliverable_json>", "</deliverable_json>"),
    Tags("<p0_p1_file_line>", "</p0_p1_file_line>")
  ]

  ghost predicate AllValid(pairs: seq<Tags>) {
    forall p :: 0 <= p < |pairs| ==> pairs[p].Valid()
  }

  ghost predicate HasTag(text: string, pairs: seq<Tags>) {
    exists p :: 0 <= p < |pairs| && ContainsFold(text, pairs[p].open)
  }

  function Rejoin(prefix: string, suffix: string, sep: string): string {
    if prefix == "" then suffix
    else if suffix == "" then prefix
    else prefix + sep + suffix
  }

  /** The text without the block that opens at `i`; without a close tag the rest goes too. */
  function RemoveBlock(text: string, i: nat, pair: Tags, sep: string): (r: string)
    requires i + |pair.open| <= |text|
    requires pair.Valid()
    ensures |sep| <= 1 ==> |r| < |text|
  {
    var rest := text[i + |pair.open|..];
    var c := IndexFold(rest, pair.close);
    if c < 0 then TrimSpace(text[..i])
    else Rejoin(TrimSpace(text[..i]), TrimSpace(rest[c + |pair.close|..]), sep)
  }

  /** The earliest open tag as a function of the text; see `IsEarliest`. */
  function Earliest(text: string, pairs: seq<Tags>): (r: (int, int))
    ensures IsEarliest(text, pairs, r.0, r.1)
  {
    EarliestOf(text, pairs, |pairs|)
  }

  function EarliestOf(text: string, pairs: seq<Tags>, n: nat): (r: (int, int))
    requires n <= |pairs|
    ensures IsEarliestOf(text, pairs, n, r.0, r.1)
  {
    hide IndexFold;
    if n == 0 then (-1, -1)
    else
      var before := EarliestOf(text, pairs, n - 1);
      var idx := IndexFold(text, pairs[n - 1].open);
      EarliestNext(text, pairs, n - 1, before);
      if idx >= 0 && (before.0 < 0 || idx < before.0) then (idx, n - 1) else before
  }

  lemma EarliestNext(text: string, pairs: seq<Tags>, n: nat, before: (int, int))
    requires n < |pairs| && IsEarliestOf(text, pairs, n, before.0, before.1)
    ensures var idx := IndexFold(text, pairs[n].open);
            var r := if idx >= 0 && (before.0 < 0 || idx < before.0) then (idx, n) else before;
            IsEarliestOf(text, pairs, n + 1, r.0, r.1)
  {
    hide IndexFold;
    NotBelow(text, pairs[n].open);
  }

  lemma NotBelow(text: string, tag: string)
    ensures IndexFold(text, tag) >= -1
  {
  }

  function Strip(pairs: seq<Tags>, sep: string, text: string): string
    requires AllValid(pairs) && |sep| <= 1
    decreases |text|
  {
    var (i, p) := Earliest(text, pairs);
    if i < 0 then TrimSpace(text) else Strip(pairs, sep, RemoveBlock(text, i, pairs[p], sep))
  }

  lemma StripUnfolds(pairs: seq<Tags>, sep: string, text: string, i: int, p: int)
    requires AllValid(pairs) && |sep| <= 1
    requires IsEarliest(text, pairs, i, p)
    ensures Strip(pairs, sep, text) ==
            if i < 0 then TrimSpace(text) else Strip(pairs, sep, RemoveBlock(text, i, pairs[p], sep))
  {
    hide TrimSpace, RemoveBlock, IndexFold, Earliest;
    EarliestIsUnique(text, pairs, i, p, Earliest(text, pairs).0, Earliest(text, pairs).1);
  }

  // ----- The methods -----

  method StripOneThinkingPass(text: string) returns (r: string)
    ensures r == var (i, p) := Earliest(text, THINK_TAG_PAIRS);
                 if i < 0 then text else RemoveBlock(text, i, THINK_TAG_PAIRS[p], "")
  {
    hide TrimSpace, IndexFold, Earliest, SpelledAt;
    var bestIdx, bestOpenLen, which := FindEarliestOpenTag(text, THINK_TAG_PAIRS);
    ghost var (i, p) := Earliest(text, THINK_TAG_PAIRS);
    EarliestIsUnique(text, THINK_TAG_PAIRS, bestIdx, which, i, p);
    if bestIdx < 0 { return text; }
    var rest := text[bestIdx + bestOpenLen..];
    var closeIdx, closeLen := FindCaseInsensitive(rest, THINK_TAG_PAIRS[which].close);
    if closeIdx < 0 { return TrimSpace(text[..bestIdx]); }
    var prefix := TrimSpace(text[..bestIdx]);
    var suffix := TrimSpace(rest[closeIdx + closeLen..]);
    if prefix == "" { return suffix; }
    if suffix == "" { return prefix; }
    Empties(prefix);
    return prefix + suffix;
  }

  method StripThinkingTags(text: string) returns (r: string)
    ensures r == Strip(THINK_TAG_PAIRS, "", text)
  {
    var out := text;
    while true
      invariant Strip(THINK_TAG_PAIRS, "", out) == Strip(THINK_TAG_PAIRS, "", text)
      decreases |out|
    {
      hide Strip, TrimSpace, RemoveBlock, IndexFold, Earliest;
      var next := StripOneThinkingPass(out);
      StripUnfolds(THINK_TAG_PAIRS, "", out, Earliest(out, THINK_TAG_PAIRS).0, Earliest(out, THINK_TAG_PAIRS).1);
      if next == out { return TrimSpace(out); }
      out := next;
    }
  }

  lemma SummaryIsLower(text: string)
    ensures Index(Lower(text), SUMMARY.open) == IndexFold(text, SUMMARY.open)
  {
    hide Lower, Index;
    LowerIsFixed(SUMMARY.open);
  }

  lemma OnlyPair(text: string, pair: Tags)
    ensures IsEarliest(text, [pair], IndexFold(text, pair.open), 0)
  {
    hide IndexFold;
  }

  lemma BlockParts(text: string, i: nat, pair: Tags, sep: string)
    requires i + |pair.open| <= |text| && pair.Valid() && |sep| <= 1
    ensures var rest := text[i + |pair.open|..];
            var c := IndexFold(rest, pair.close);
            && |RemoveBlock(text, i, pair, sep)| < |text|
            && RemoveBlock(text, i, pair, sep) ==
               if c < 0 then TrimSpace(text[..i])
               else Rejoin(TrimSpace(text[..i]), TrimSpace(rest[c + |pair.close|..]), sep)
  {
    hide IndexFold, TrimSpace, Rejoin;
  }

  /** One turn of the summary stripper's loop. */
  method StripOneSummary(out: string) returns (found: bool, rebuilt: string)
    ensures !found ==> Strip([SUMMARY], "\n", out) == TrimSpace(out)
    ensures found ==> |rebuilt| < |out| && Strip([SUMMARY], "\n", out) == Strip([SUMMARY], "\n", rebuilt)
  {
    assert SUMMARY.Valid();
    hide SUMMARY, Strip, TrimSpace, IndexFold, SpelledAt, RemoveBlock;
    var lower := Lower(out);
    var openIdx := Index(lower, SUMMARY.open);
    SummaryIsLower(out);
    OnlyPair(out, SUMMARY);
    StripUnfolds([SUMMARY], "\n", out, openIdx, 0);
    if openIdx < 0 { return false, ""; }
    BlockParts(out, openIdx, SUMMARY, "\n");
    var rest := out[openIdx + |SUMMARY.open|..];
    var closeIdx, closeLen := FindCaseInsensitive(rest, SUMMARY.close);
    if closeIdx < 0 {
      rebuilt := TrimSpace(out[..openIdx]);
    } else {
      var prefix := TrimSpace(out[..openIdx]);
      var suffix := TrimSpace(rest[closeIdx + closeLen..]);
      if prefix == "" { rebuilt := suffix; }
      else if suffix == "" { rebuilt := prefix; }
      else { rebuilt := prefix + "\n" + suffix; }
    }
    return true, rebuilt;
  }

  method StripPriorOutputSummary(text: string) returns (r: string)
    ensures r == Strip([SUMMARY], "\n", text)
  {
    assert SUMMARY.Valid();
    hide SUMMARY, Strip, TrimSpace;
    var out := text;
    while true
      invariant Strip([SUMMARY], "\n", out) == Strip([SUMMARY], "\n", text)
      decreases |out|
    {
      var found, rebuilt := StripOneSummary(out);
      if !found || rebuilt == out { return TrimSpace(out); }
      out := rebuilt;
    }
  }

  /** One turn of the deliverable stripper's loop. */
  method StripOnePair(out: string, pairs: seq<Tags>) returns (found: bool, rebuilt: string)
    requires AllValid(pairs)
    ensures !found ==> Strip(pairs, "\n", out) == TrimSpace(out)
    ensures found ==> |rebuilt| < |out| && Strip(pairs, "\n", out) == Strip(pairs, "\n", rebuilt)
  {
    hide Strip, TrimSpace, IndexFold, SpelledAt, RemoveBlock;
    var earliestOpen, earliestOpenLen, earliestPair := FindEarliestOpenTag(out, pairs);
    StripUnfolds(pairs, "\n", out, earliestOpen, earliestPair);
    if earliestOpen < 0 { return false, ""; }
    BlockParts(out, earliestOpen, pairs[earliestPair], "\n");
    var rest := out[earliestOpen + earliestOpenLen..];
    var closeIdx, closeLen := FindCaseInsensitive(rest, pairs[earliestPair].close);
    if closeIdx < 0 {
      rebuilt := TrimSpace(out[..earliestOpen]);
    } else {
      var prefix := TrimSpace(out[..earliestOpen]);
      var suffix := TrimSpace(rest[closeIdx + closeLen..]);
      if prefix == "" { rebuilt := suffix; }
      else if suffix == "" { rebuilt := prefix; }
      else { rebuilt := prefix + "\n" + suffix; }
    }
    return true, rebuilt;
  }

  method StripStructuredDeliverable(text: string) returns (r: string)
    ensures r == Strip(DELIVERABLE_TAG_PAIRS, "\n", text)
  {
    assert AllValid(DELIVERABLE_TAG_PAIRS);
    hide DELIVERABLE_TAG_PAIRS, AllValid, Strip, TrimSpace;
    var out := text;
    while true
      invariant Strip(DELIVERABLE_TAG_PAIRS, "\n", out) == Strip(DELIVERABLE_TAG_PAIRS, "\n", text)
      decreases |out|
    {
      var found, rebuilt := StripOnePair(out, DELIVERABLE_TAG_PAIRS);
      if !found || rebuilt == out { return TrimSpace(out); }
      out := rebuilt;
    }
  }

  // ----- What stripping achieves -----

  lemma NoneEarliest(text: string, pairs: seq<Tags>)
    ensures Earliest(text, pairs).0 < 0 <==> !HasTag(text, pairs)
  {
    hide IndexFold, Contains;
    forall p | 0 <= p < |pairs|
      ensures IndexFold(text, pairs[p].open) < 0 <==> !ContainsFold(text, pairs[p].open)
    {
      IndexFoldAbsent(text, pairs[p].open);
    }
  }

  lemma TrimHasTag(text: string, pairs: seq<Tags>)
    requires HasTag(TrimSpace(text), pairs)
    ensures HasTag(text, pairs)
  {
    hide ContainsFold, TrimSpace;
    var p :| 0 <= p < |pairs| && ContainsFold(TrimSpace(text), pairs[p].open);
    TrimContainsFold(text, pairs[p].open);
  }

  /** The result holds none of the open tags, in any case, and no outer white space. */
  lemma {:induction false} StripLeavesNoTag(pairs: seq<Tags>, sep: string, text: string)
    requires AllValid(pairs) && |sep| <= 1
    ensures !HasTag(Strip(pairs, sep, text), pairs)
    ensures Trimmed(Strip(pairs, sep, text))
    decreases |text|
  {
    hide HasTag, RemoveBlock, Earliest;
    var (i, p) := Earliest(text, pairs);
    NoneEarliest(text, pairs);
    if i < 0 {
      if HasTag(TrimSpace(text), pairs) { TrimHasTag(text, pairs); }
    } else {
      StripLeavesNoTag(pairs, sep, RemoveBlock(text, i, pairs[p], sep));
    }
  }

  lemma StripKeepsCleanText(pairs: seq<Tags>, sep: string, text: string)
    requires AllValid(pairs) && |sep| <= 1
    requires !HasTag(text, pairs)
    ensures Strip(pairs, sep, text) == TrimSpace(text)
  {
    NoneEarliest(text, pairs);
  }

  lemma StripIsIdempotent(pairs: seq<Tags>, sep: string, text: string)
    requires AllValid(pairs) && |sep| <= 1
    ensures Strip(pairs, sep, Strip(pairs, sep, text)) == Strip(pairs, sep, text)
  {
    hide Strip, HasTag, AllValid;
    StripLeavesNoTag(pairs, sep, text);
    StripKeepsCleanText(pairs, sep, Strip(pairs, sep, text));
    TrimmedIsFixed(Strip(pairs, sep, text));
  }
}
