/** Splitters, strippers and their helpers on texts in which tags are spelled in any case. */
module Spelling {
  import opened Text
  import opened LetterCase
  import opened TagStream
  import opened TagSearch
  import opened TagStrippers
  import opened StripVersusStream
  import opened ThinkStripping
  import opened ThinkTagSplitters
  import opened PriorOutputSummarySplitters

  /** The first spelling of the awaited tag ends the piece, whatever the text is. */
  lemma SplitsAtSpelling(tags: Tags, inside: bool, text: string, i: nat)
    requires tags.Valid() && SpelledAt(text, tags.Awaited(inside), i)
    requires forall j :: SpelledAt(text, tags.Awaited(inside), j) ==> i <= j
    ensures OneShot(tags, inside, text) ==
            Split.Of(inside, text[..i]).Then(OneShot(tags, !inside, text[i + |tags.Awaited(inside)|..]))
  {
    hide IndexFold, OneShot, SpelledAt, Split.Of, Split.Then;
    IndexFoldFindsSpelling(text, tags.Awaited(inside));
    SpellingFits(text, tags.Awaited(inside), i);
    OneShotUnfolds(tags, inside, text);
  }

  lemma SpellingFits(text: string, tag: string, i: int)
    requires SpelledAt(text, tag, i)
    ensures 0 <= i && i + |tag| <= |text|
  {
  }

  /** A text without any spelling of the awaited tag is all of one kind. */
  lemma StaysWithoutSpelling(tags: Tags, inside: bool, text: string)
    requires tags.Valid() && forall j :: !SpelledAt(text, tags.Awaited(inside), j)
    ensures OneShot(tags, inside, text) == Split.Of(inside, text)
  {
    hide IndexFold, OneShot, SpelledAt, Split.Of;
    IndexFoldFindsSpelling(text, tags.Awaited(inside));
    OneShotUnfolds(tags, inside, text);
  }

  /** Text is held back exactly if it is some spelling of the beginning of the tag. */
  lemma HeldBackIsSpelled(raw: string, tag: string, n: nat)
    ensures IsPartial(raw, tag, n) <==> n < |tag| && n <= |raw| && SameButCase(raw[|raw| - n..], tag[..n])
  {
    hide Lower, SameButCase;
    if n < |tag| && n <= |raw| {
      LowerSlice(raw, |raw| - n, |raw|);
      LowerSlice(tag, 0, n);
      assert raw[|raw| - n..|raw|] == raw[|raw| - n..] && tag[0..n] == tag[..n];
      assert Lower(raw)[|raw| - n..|raw|] == Lower(raw)[|raw| - n..] && Lower(tag)[0..n] == Lower(tag)[..n];
      SameFold(raw[|raw| - n..], tag[..n]);
    }
  }

  /** A stripped text holds no spelling of any of the open tags. */
  lemma StripLeavesNoSpelling(pairs: seq<Tags>, sep: string, text: string, p: nat, i: int)
    requires AllValid(pairs) && |sep| <= 1 && p < |pairs|
    ensures !SpelledAt(Strip(pairs, sep, text), pairs[p].open, i)
  {
    hide Strip, SpelledAt, ContainsFold, AllValid;
    StripLeavesNoTag(pairs, sep, text);
    ContainsFoldIsSpelled(Strip(pairs, sep, text), pairs[p].open);
  }

  // ----- One block, in any spelling -----

  /** The first tag behind text that holds none, in any spelling. */
  lemma SpellingBehind(p: string, spelled: string, tag: string, rest: string)
    requires LeadsAlone(tag) && IndexFold(p, tag) < 0 && SameButCase(spelled, tag)
    ensures var text := p + spelled + rest;
            IndexFold(text, tag) == |p| && text[..|p|] == p && text[|p| + |tag|..] == rest
  {
    hide FoldChar, LeadsAlone;
    var text := p + spelled + rest;
    SameFold(spelled, tag);
    TagBehind(p, tag, rest);
    LowerConcat(p + spelled, rest);
    LowerConcat(p, spelled);
    LowerConcat(p + tag, rest);
    LowerConcat(p, tag);
    IndexFoldIsIndex(text, tag);
    IndexFoldIsIndex(p + tag + rest, tag);
  }

  /** Two tags that differ at some common place. */
  ghost predicate Apart(a: string, b: string) {
    exists k: nat :: k < |a| && k < |b| && FoldChar(a[k]) != FoldChar(b[k])
  }

  /** Tags that begin alike, lead alone, and of which no two could begin at the same place. */
  ghost predicate Family(pairs: seq<Tags>) {
    && (forall a :: 0 <= a < |pairs| ==> LeadsAlone(pairs[a].open) && LeadsAlone(pairs[a].close))
    && (forall a, b :: 0 <= a < |pairs| && 0 <= b < |pairs| ==>
          FoldChar(pairs[a].open[0]) == FoldChar(pairs[b].open[0]))
    && (forall a, b :: 0 <= a < |pairs| && 0 <= b < |pairs| && a != b ==> Apart(pairs[a].open, pairs[b].open))
  }

  lemma FamilyIsValid(pairs: seq<Tags>)
    requires Family(pairs)
    ensures AllValid(pairs)
  {
    hide FoldChar;
  }

  /** Another tag of the family comes only later. */
  lemma OtherTagLater(p: string, spelled: string, tag: string, other: string, rest: string)
    requires LeadsAlone(tag) && LeadsAlone(other) && FoldChar(tag[0]) == FoldChar(other[0]) && Apart(tag, other)
    requires SameButCase(spelled, tag) && IndexFold(p, other) < 0
    ensures IndexFold(p + spelled + rest, other) < 0 || IndexFold(p + spelled + rest, other) > |p|
  {
    hide FoldChar, Lower;
    var text := p + spelled + rest;
    SameFold(spelled, tag);
    Associate(p, spelled, rest);
    SpelledChar(spelled, tag, 0);
    var j := IndexFold(text, other);
    if 0 <= j < |p| {
      NoRunIntoTag(p, spelled + rest, other, j);
    } else if j == |p| {
      var k: nat :| k < |tag| && k < |other| && FoldChar(tag[k]) != FoldChar(other[k]);
      SpelledInText(p, spelled, rest, tag, k);
      FoldedChar(text, other, j, k);
    }
  }

  lemma SpelledInText(p: string, spelled: string, rest: string, tag: string, k: nat)
    requires Lower(spelled) == Lower(tag) && k < |tag|
    ensures |p| + k < |p + spelled + rest| && FoldChar((p + spelled + rest)[|p| + k]) == FoldChar(tag[k])
  {
    hide FoldChar;
    SpelledChar(spelled, tag, k);
  }

  lemma SpelledChar(spelled: string, tag: string, k: nat)
    requires Lower(spelled) == Lower(tag) && k < |tag|
    ensures |spelled| == |tag| && FoldChar(spelled[k]) == FoldChar(tag[k])
  {
    assert |Lower(spelled)| == |spelled| && |Lower(tag)| == |tag|;
    assert Lower(spelled)[k] == Lower(tag)[k];
  }

  lemma SpelledIsEarliest(pairs: seq<Tags>, which: nat, p: string, spelled: string, rest: string)
    requires Family(pairs) && which < |pairs| && SameButCase(spelled, pairs[which].open)
    requires forall a :: 0 <= a < |pairs| ==> IndexFold(p, pairs[a].open) < 0
    ensures IsEarliest(p + spelled + rest, pairs, |p|, which)
  {
    hide IndexFold, FoldChar, LeadsAlone, SameButCase, Apart;
    var text := p + spelled + rest;
    SpellingBehind(p, spelled, pairs[which].open, rest);
    forall a | 0 <= a < |pairs| && a != which
      ensures IndexFold(text, pairs[a].open) < 0 || IndexFold(text, pairs[a].open) > |p|
    {
      OtherTagLater(p, spelled, pairs[which].open, pairs[a].open, rest);
    }
  }

  /** A block in any spelling is taken out, whatever it hides, and the stripper goes on with the two sides joined. */
  lemma SpelledBlockIsRemoved(pairs: seq<Tags>, which: nat, sep: string, p: string, open: string, hidden: string,
                              close: string, q: string)
    requires Family(pairs) && which < |pairs| && |sep| <= 1
    requires SameButCase(open, pairs[which].open) && SameButCase(close, pairs[which].close)
    requires forall a :: 0 <= a < |pairs| ==> IndexFold(p, pairs[a].open) < 0
    requires IndexFold(hidden, pairs[which].close) < 0
    ensures AllValid(pairs)
    ensures Strip(pairs, sep, p + open + (hidden + close + q))
            == Strip(pairs, sep, Rejoin(TrimSpace(p), TrimSpace(q), sep))
  {
    hide IndexFold, FoldChar, LeadsAlone, SameButCase, Apart, Strip, TrimSpace, Rejoin;
    var rest := hidden + close + q;
    var text := p + open + rest;
    FamilyIsValid(pairs);
    SpelledIsEarliest(pairs, which, p, open, rest);
    StripUnfolds(pairs, sep, text, |p|, which);
    SpellingBehind(p, open, pairs[which].open, rest);
    SpellingBehind(hidden, close, pairs[which].close, q);
  }

  /** A tag without its end, in any spelling, takes the rest of the text along. */
  lemma SpelledOpenDropsRest(pairs: seq<Tags>, which: nat, sep: string, p: string, open: string, rest: string)
    requires Family(pairs) && which < |pairs| && |sep| <= 1 && SameButCase(open, pairs[which].open)
    requires forall a :: 0 <= a < |pairs| ==> IndexFold(p, pairs[a].open) < 0
    requires forall i :: !SpelledAt(rest, pairs[which].close, i)
    ensures AllValid(pairs)
    ensures Strip(pairs, sep, p + open + rest) == TrimSpace(p)
  {
    hide IndexFold, FoldChar, LeadsAlone, SameButCase, Apart, Strip, TrimSpace, Trimmed, SpelledAt;
    FamilyIsValid(pairs);
    SpelledIsEarliest(pairs, which, p, open, rest);
    StripUnfolds(pairs, sep, p + open + rest, |p|, which);
    SpellingBehind(p, open, pairs[which].open, rest);
    IndexFoldFindsSpelling(rest, pairs[which].close);
    forall a | 0 <= a < |pairs|
      ensures IndexFold(TrimSpace(p), pairs[a].open) < 0
    {
      TrimmedIsClean(p, pairs[a].open);
    }
    NoTagAnywhere(pairs, TrimSpace(p));
    StripKeepsCleanText(pairs, sep, TrimSpace(p));
    TrimmedIsFixed(TrimSpace(p));
  }

  /** If the join holds no tag, it is the result, to the character. */
  lemma SpelledBlockLeaves(pairs: seq<Tags>, which: nat, sep: string, p: string, open: string, hidden: string,
                           close: string, q: string)
    requires Family(pairs) && which < |pairs| && |sep| <= 1
    requires SameButCase(open, pairs[which].open) && SameButCase(close, pairs[which].close)
    requires forall a :: 0 <= a < |pairs| ==> IndexFold(p, pairs[a].open) < 0
    requires IndexFold(hidden, pairs[which].close) < 0
    requires Trimmed(p) && p != "" && Trimmed(q) && q != ""
    requires forall a :: 0 <= a < |pairs| ==> IndexFold(p + sep + q, pairs[a].open) < 0
    ensures AllValid(pairs)
    ensures Strip(pairs, sep, p + open + (hidden + close + q)) == p + sep + q
  {
    hide IndexFold, FoldChar, LeadsAlone, SameButCase, Apart, Strip, TrimSpace, Trimmed, Family, AllValid;
    SpelledBlockIsRemoved(pairs, which, sep, p, open, hidden, close, q);
    TrimmedIsFixed(p);
    TrimmedIsFixed(q);
    EndsTrimmed(p, sep, q);
    TrimmedIsFixed(p + sep + q);
    NoTagAnywhere(pairs, p + sep + q);
    StripKeepsCleanText(pairs, sep, p + sep + q);
  }

  lemma EndsTrimmed(p: string, sep: string, q: string)
    requires Trimmed(p) && p != "" && Trimmed(q) && q != ""
    ensures Trimmed(p + sep + q)
  {
  }

  lemma NoTagAnywhere(pairs: seq<Tags>, text: string)
    requires forall a :: 0 <= a < |pairs| ==> IndexFold(text, pairs[a].open) < 0
    ensures !HasTag(text, pairs)
  {
    hide IndexFold, ContainsFold;
    forall a | 0 <= a < |pairs|
      ensures !ContainsFold(text, pairs[a].open)
    {
      IndexFoldAbsent(text, pairs[a].open);
    }
  }

  /** The stream hides the block and shows both sides as they are. */
  lemma SpelledBlockIsSplit(tags: Tags, p: string, open: string, hidden: string, close: string, q: string)
    requires LeadsAlone(tags.open) && LeadsAlone(tags.close) && tags.Valid()
    requires SameButCase(open, tags.open) && SameButCase(close, tags.close)
    requires IndexFold(p, tags.open) < 0 && IndexFold(hidden, tags.close) < 0
    ensures OneShot(tags, false, p + open + (hidden + close + q))
            == Split(hidden, p).Then(OneShot(tags, false, q))
  {
    hide IndexFold, FoldChar, LeadsAlone, SameButCase, OneShot;
    var rest := hidden + close + q;
    SpellingBehind(p, open, tags.open, rest);
    SpellingBehind(hidden, close, tags.close, q);
    OneShotUnfolds(tags, false, p + open + rest);
    OneShotUnfolds(tags, true, rest);
    Empties(OneShot(tags, false, q).visible);
    Empties(hidden + OneShot(tags, false, q).hidden);
  }

  // ----- The tags themselves -----

  lemma ThinkFamily()
    ensures Family(THINK_TAG_PAIRS) && THINK_TAG_PAIRS == [Tags("<think>", "</think>")]
  {
    ThinkIsSolid();
  }

  lemma Short(text: string, pairs: seq<Tags>)
    requires forall a :: 0 <= a < |pairs| ==> |text| < |pairs[a].open|
    ensures forall a :: 0 <= a < |pairs| ==> IndexFold(text, pairs[a].open) < 0
  {
    hide IndexFold;
    forall a | 0 <= a < |pairs|
      ensures IndexFold(text, pairs[a].open) < 0
    {
      HeldHasNoTag(text, pairs[a].open);
    }
  }

  /** Thinking blocks, in mixed case. */
  lemma ThinkingInAnyCase()
    ensures OneShot(THINK, false, "a<THINK>b</Think>c") == Split("b", "ac")
    ensures Strip(THINK_TAG_PAIRS, "", "a<THINK>b</Think>c") == "ac"
  {
    hide OneShot, Strip, IndexFold, LeadsAlone, Family, TrimSpace;
    ThinkFamily();
    ThinkIsSolid();
    CapitalThink();
    Short("a", THINK_TAG_PAIRS);
    Short("c", THINK_TAG_PAIRS);
    Short("ac", THINK_TAG_PAIRS);
    HeldHasNoTag("b", THINK.close);
    assert "a" + "<THINK>" + ("b" + "</Think>" + "c") == "a<THINK>b</Think>c";
    assert "a" + "" + "c" == "ac";
    SpelledBlockIsSplit(THINK, "a", "<THINK>", "b", "</Think>", "c");
    OneShotUnfolds(THINK, false, "c");
    SpelledBlockLeaves(THINK_TAG_PAIRS, 0, "", "a", "<THINK>", "b", "</Think>", "c");
  }

  lemma CapitalThink()
    ensures SameButCase("<THINK>", THINK.open) && SameButCase("</Think>", THINK.close)
  {
    hide SameButCase;
    SameFold("<THINK>", THINK.open);
    SameFold("</Think>", THINK.close);
    assert Lower("<THINK>") == Lower("<think>");
    assert Lower("</Think>") == Lower("</think>");
  }

  lemma AngleFolds(c: char)
    ensures FoldChar(c) == '<' <==> c == '<'
  {
  }

  /** A tag whose only angle bracket to the left is its first character. */
  lemma LeadsByAngle(tag: string)
    requires tag != "" && tag[0] == '<' && forall k :: 0 < k < |tag| ==> tag[k] != '<'
    ensures LeadsAlone(tag) && FoldChar(tag[0]) == '<'
  {
    hide FoldChar;
    AngleFolds('<');
    forall k | 0 < k < |tag|
      ensures FoldChar(tag[k]) != '<'
    {
      AngleFolds(tag[k]);
    }
  }

  lemma SummaryLeads()
    ensures LeadsAlone(SUMMARY.open) && LeadsAlone(SUMMARY.close)
  {
    hide FoldChar, LeadsAlone;
    LeadsByAngle("<prior-output-summary>");
    LeadsByAngle("</prior-output-summary>");
  }

  lemma SummaryFamily()
    ensures Family([SUMMARY])
  {
    hide LeadsAlone, FoldChar, Apart;
    SummaryLeads();
  }

  lemma SummaryOpenSpelled()
    ensures SameButCase("<Prior-Output-Summary>", SUMMARY.open)
  {
    hide SameButCase;
    SameFold("<Prior-Output-Summary>", SUMMARY.open);
    assert Lower("<Prior-Output-Summary>") == Lower(SUMMARY.open);
  }

  lemma SummaryCloseSpelled()
    ensures SameButCase("</PRIOR-output-summary>", SUMMARY.close)
  {
    hide SameButCase;
    SameFold("</PRIOR-output-summary>", SUMMARY.close);
    assert Lower("</PRIOR-output-summary>") == Lower(SUMMARY.close);
  }

  /** Summaries: the two sides come back on two lines, and the stream shows them together. */
  lemma SummaryInAnyCase()
    ensures var text := "a" + "<Prior-Output-Summary>" + ("b" + "</PRIOR-output-summary>" + "c");
            && OneShot(SUMMARY, false, text) == Split("b", "ac")
            && Strip([SUMMARY], "\n", text) == "a\nc"
  {
    hide OneShot, Strip, IndexFold, LeadsAlone, Family, TrimSpace, SameButCase;
    var open, close := "<Prior-Output-Summary>", "</PRIOR-output-summary>";
    SummaryFamily();
    SummaryLeads();
    SummaryOpenSpelled();
    SummaryCloseSpelled();
    Short("a", [SUMMARY]);
    Short("c", [SUMMARY]);
    Short("a\nc", [SUMMARY]);
    HeldHasNoTag("b", SUMMARY.close);
    assert "a" + "\n" + "c" == "a\nc";
    SpelledBlockIsSplit(SUMMARY, "a", open, "b", close, "c");
    OneShotUnfolds(SUMMARY, false, "c");
    SpelledBlockLeaves([SUMMARY], 0, "\n", "a", open, "b", close, "c");
  }

  /** The names differ in their first letter, or behind "deliverable", or behind "deliverable_". */
  lemma DeliverablesApart(a: nat, b: nat)
    requires a < 6 && b < 6 && a != b
    ensures Apart(DELIVERABLE_TAG_PAIRS[a].open, DELIVERABLE_TAG_PAIRS[b].open)
  {
    var s, t := DELIVERABLE_TAG_PAIRS[a].open, DELIVERABLE_TAG_PAIRS[b].open;
    var k: nat := if a in {3, 5} || b in {3, 5} then 1 else if a == 2 || b == 2 then 12 else 13;
    assert FoldChar(s[k]) != FoldChar(t[k]);
  }

  lemma DeliverableOpens(a: nat)
    requires a < 6
    ensures LeadsAlone(DELIVERABLE_TAG_PAIRS[a].open) && FoldChar(DELIVERABLE_TAG_PAIRS[a].open[0]) == '<'
  {
    hide FoldChar, LeadsAlone;
    LeadsByAngle(DELIVERABLE_TAG_PAIRS[a].open);
  }

  lemma DeliverableCloses(a: nat)
    requires a < 6
    ensures LeadsAlone(DELIVERABLE_TAG_PAIRS[a].close)
  {
    hide FoldChar, LeadsAlone;
    LeadsByAngle(DELIVERABLE_TAG_PAIRS[a].close);
  }

  lemma DeliverableFamily()
    ensures Family(DELIVERABLE_TAG_PAIRS)
  {
    hide FoldChar, LeadsAlone, Apart;
    forall a: nat | a < 6
      ensures LeadsAlone(DELIVERABLE_TAG_PAIRS[a].open) && LeadsAlone(DELIVERABLE_TAG_PAIRS[a].close)
      ensures FoldChar(DELIVERABLE_TAG_PAIRS[a].open[0]) == '<'
    {
      DeliverableOpens(a);
      DeliverableCloses(a);
    }
    forall a: nat, b: nat | a < 6 && b < 6 && a != b
      ensures Apart(DELIVERABLE_TAG_PAIRS[a].open, DELIVERABLE_TAG_PAIRS[b].open)
    {
      DeliverablesApart(a, b);
    }
  }

  /** Each of the six kinds of deliverable block is taken out, and the two sides come back on two lines. */
  lemma DeliverableBlock(a: nat, text: string)
    requires a < 6
    requires var pair := DELIVERABLE_TAG_PAIRS[a]; text == "x" + pair.open + ("y" + pair.close + "z")
    ensures Strip(DELIVERABLE_TAG_PAIRS, "\n", text) == "x\nz"
  {
    hide Strip, IndexFold, LeadsAlone, Family, TrimSpace, SameButCase;
    DeliverableFamily();
    var open, close := DELIVERABLE_TAG_PAIRS[a].open, DELIVERABLE_TAG_PAIRS[a].close;
    SameFold(open, open);
    SameFold(close, close);
    Short("x", DELIVERABLE_TAG_PAIRS);
    Short("x\nz", DELIVERABLE_TAG_PAIRS);
    HeldHasNoTag("y", close);
    assert "x" + "\n" + "z" == "x\nz";
    SpelledBlockLeaves(DELIVERABLE_TAG_PAIRS, a, "\n", "x", open, "y", close, "z");
  }
}
