/**
 The static stripper and the streaming splitter agree.

 Both remove the same tagged blocks. The stripper also trims and joins with a newline,
 so the two outputs are compared up to white space, and on every text.
 */
module StripVersusStream {
  import opened Text
  import opened TagStream
  import opened TagStrippers
  import opened ThinkTagSplitters
  import opened PriorOutputSummarySplitters

  ghost predicate Solid(tags: Tags) {
    tags.Valid() && NoSpace(tags.open) && NoSpace(tags.close)
  }

  // ----- White space never touches a tag -----

  lemma LowerSpace(s: string, k: nat)
    requires k < |s|
    ensures IsSpace(Lower(s)[k]) <==> IsSpace(s[k])
  {
  }

  /** A tag never runs across white space. */
  lemma TagAvoidsSpace(s: string, tag: string, j: int, k: int)
    requires NoSpace(tag) && 0 <= k < |s| && IsSpace(s[k])
    requires OccursAt(Lower(s), Lower(tag), j)
    ensures j + |tag| <= k || k < j
  {
    LowerSpace(s, k);
    if j <= k < j + |tag| {
      assert Lower(s)[j..j + |tag|][k - j] == Lower(s)[k];
      LowerSpace(tag, k - j);
    }
  }

  /** With white space at the end of `early` and no tag in it, the search can start after it. */
  lemma SearchAfterSpace(early: string, later: string, tag: string)
    requires tag != "" && NoSpace(tag)
    requires early != "" && IsSpace(early[|early| - 1])
    requires IndexFold(early, tag) < 0
    ensures IndexFold(early + later, tag) == if IndexFold(later, tag) < 0 then -1 else |early| + IndexFold(later, tag)
  {
    hide Index, Lower;
    var l := Lower(early) + Lower(later);
    LowerConcat(early, later);
    forall j | OccursAt(l, Lower(tag), j)
      ensures j >= |early|
    {
      TagAvoidsSpace(early + later, tag, j, |early| - 1);
      OccursInFirst(Lower(early), Lower(later), Lower(tag), j);
    }
    assert l[|early|..] == Lower(later);
    IndexFromCut(l, |early|, Lower(tag));
  }

  lemma OccursInFirst(s: string, t: string, needle: string, j: int)
    requires OccursAt(s + t, needle, j)
    ensures j + |needle| <= |s| ==> OccursAt(s, needle, j)
  {
    assert (s + t)[0..|s|] == s;
    SliceOccurrences(s + t, 0, |s|, needle);
  }

  /** Trailing white space does not change where the first tag is. */
  lemma SearchBeforeSpace(text: string, space: string, tag: string)
    requires tag != "" && NoSpace(tag) && AllSpace(space)
    ensures IndexFold(text + space, tag) == IndexFold(text, tag)
  {
    hide Lower;
    LowerConcat(text, space);
    forall j | OccursAt(Lower(text) + Lower(space), Lower(tag), j)
      ensures OccursAt(Lower(text), Lower(tag), j)
    {
      if j + |tag| > |text| {
        TagAvoidsSpace(text + space, tag, j, j + |tag| - 1);
      }
      OccursInFirst(Lower(text), Lower(space), Lower(tag), j);
    }
    if Index(Lower(text), Lower(tag)) >= 0 {
      IndexStable(Lower(text), Lower(space), Lower(tag));
    }
  }

  lemma SpaceHasNoTag(space: string, tag: string)
    requires tag != "" && NoSpace(tag) && AllSpace(space)
    ensures IndexFold(space, tag) < 0
  {
    Empties(space);
    SearchBeforeSpace("", space, tag);
  }

  // ----- The stream's visible text, up to white space -----

  function VisibleText(tags: Tags, inside: bool, text: string): string
    requires tags.Valid()
  {
    NonSpace(OneShot(tags, inside, text).visible)
  }

  lemma {:induction false} VisibleIgnoresBack(tags: Tags, inside: bool, text: string, space: string)
    requires Solid(tags) && AllSpace(space)
    ensures VisibleText(tags, inside, text + space) == VisibleText(tags, inside, text)
    decreases |text|
  {
    hide IndexFold, NonSpace, OneShot, AllSpace, NoSpace;
    var tag := tags.Awaited(inside);
    var i := IndexFold(text, tag);
    SearchBeforeSpace(text, space, tag);
    OneShotUnfolds(tags, inside, text);
    OneShotUnfolds(tags, inside, text + space);
    if i < 0 {
      NonSpaceConcat(text, space);
      NonSpaceOfSpace(space);
      Empties(NonSpace(text));
    } else {
      var n := i + |tag|;
      CutInFirst(text, space, i);
      CutInFirst(text, space, n);
      VisibleIgnoresBack(tags, !inside, text[n..], space);
      var first := Split.Of(inside, text[..i]).visible;
      NonSpaceConcat(first, OneShot(tags, !inside, text[n..]).visible);
      NonSpaceConcat(first, OneShot(tags, !inside, text[n..] + space).visible);
    }
  }

  /** Text that ends in white space and holds no open tag passes through. */
  lemma VisibleAfter(tags: Tags, early: string, later: string)
    requires Solid(tags) && early != "" && IsSpace(early[|early| - 1])
    requires IndexFold(early, tags.open) < 0
    ensures VisibleText(tags, false, early + later) == NonSpace(early) + VisibleText(tags, false, later)
  {
    hide IndexFold, NonSpace, OneShot, NoSpace;
    SearchAfterSpace(early, later, tags.open);
    OneShotSkips(tags, false, early, later);
    NonSpaceConcat(early, OneShot(tags, false, later).visible);
  }

  lemma VisibleIgnoresTrim(tags: Tags, text: string)
    requires Solid(tags)
    ensures VisibleText(tags, false, TrimSpace(text)) == VisibleText(tags, false, text)
  {
    hide IndexFold, NonSpace, OneShot, TrimSpace, NoSpace;
    var front, back := TrimParts(text);
    VisibleIgnoresBack(tags, false, TrimSpace(text), back);
    if front == "" {
      Empties(TrimSpace(text) + back);
    } else {
      SpaceHasNoTag(front, tags.open);
      VisibleAfter(tags, front, TrimSpace(text) + back);
      NonSpaceOfSpace(front);
      Empties(VisibleText(tags, false, TrimSpace(text) + back));
    }
  }

  lemma VisibleOfClean(tags: Tags, text: string)
    requires tags.Valid() && IndexFold(text, tags.open) < 0
    ensures VisibleText(tags, false, text) == NonSpace(text)
  {
    hide IndexFold;
    OneShotUnfolds(tags, false, text);
  }

  lemma TrimmedIsClean(text: string, tag: string)
    requires IndexFold(text, tag) < 0
    ensures IndexFold(TrimSpace(text), tag) < 0
  {
    hide TrimSpace, IndexFold;
    IndexFoldAbsent(text, tag);
    IndexFoldAbsent(TrimSpace(text), tag);
    if ContainsFold(TrimSpace(text), tag) { TrimContainsFold(text, tag); }
  }

  /** What removing one block with a newline join does to the visible text: nothing. */
  lemma RejoinIsVisible(tags: Tags, prefix: string, suffix: string)
    requires Solid(tags) && IndexFold(prefix, tags.open) < 0
    ensures VisibleText(tags, false, Rejoin(TrimSpace(prefix), TrimSpace(suffix), "\n"))
            == NonSpace(prefix) + VisibleText(tags, false, suffix)
  {
    hide IndexFold, NonSpace, OneShot, TrimSpace, VisibleText, Trimmed;
    var p, s := TrimSpace(prefix), TrimSpace(suffix);
    NonSpaceTrim(prefix);
    VisibleIgnoresTrim(tags, suffix);
    TrimmedIsClean(prefix, tags.open);
    NonSpaceOfSpace("");
    if p == "" {
      Empties(VisibleText(tags, false, s));
    } else if s == "" {
      VisibleOfClean(tags, p);
      SpaceHasNoTag("", tags.open);
      VisibleOfClean(tags, "");
      Empties(NonSpace(p));
    } else {
      var early := p + "\n";
      assert AllSpace("\n");
      SearchBeforeSpace(p, "\n", tags.open);
      VisibleAfter(tags, early, s);
      NonSpaceConcat(p, "\n");
      NonSpaceOfSpace("\n");
      Empties(NonSpace(p));
    }
  }

  /**
   On every text the static stripper and the streaming splitter keep the same
   non-space characters, in the same order.
   */
  lemma {:induction false} StripAgreesWithStream(tags: Tags, text: string)
    requires Solid(tags)
    ensures NonSpace(Strip([tags], "\n", text)) == NonSpace(OneShot(tags, false, text).visible)
    decreases |text|
  {
    hide IndexFold, NonSpace, OneShot, TrimSpace, Strip, Rejoin, NoSpace;
    var i := IndexFold(text, tags.open);
    StripUnfolds([tags], "\n", text, i, 0);
    NonSpaceTrim(text);
    if i < 0 {
      VisibleOfClean(tags, text);
    } else {
      VisibleAtBlock(tags, text);
      StripAgreesWithStream(tags, RemoveBlock(text, i, tags, "\n"));
    }
  }

  lemma VisibleAtBlock(tags: Tags, text: string)
    requires Solid(tags) && IndexFold(text, tags.open) >= 0
    ensures VisibleText(tags, false, RemoveBlock(text, IndexFold(text, tags.open), tags, "\n"))
            == VisibleText(tags, false, text)
  {
    hide IndexFold, NonSpace, OneShot, TrimSpace, Rejoin, NoSpace, Contains, Trimmed;
    var i := IndexFold(text, tags.open);
    var prefix, rest := text[..i], text[i + |tags.open|..];
    var c := IndexFold(rest, tags.close);
    BeforeFirst(text, tags.open);
    IndexFoldAbsent(prefix, tags.open);
    OneShotUnfolds(tags, false, text);
    OneShotUnfolds(tags, true, rest);
    if c < 0 {
      TrimmedIsClean(prefix, tags.open);
      VisibleOfClean(tags, TrimSpace(prefix));
      NonSpaceTrim(prefix);
      Empties(prefix);
    } else {
      var suffix := rest[c + |tags.close|..];
      RejoinIsVisible(tags, prefix, suffix);
      NonSpaceConcat(prefix, OneShot(tags, false, suffix).visible);
      Empties(OneShot(tags, false, suffix).visible);
    }
  }

  lemma SummaryTagsAreSolid()
    ensures Solid(SUMMARY)
  {
  }

  /** For the folded summaries: the stream's visible output, whatever the deltas, is the stripper's. */
  lemma SummaryStripperAgreesWithSplitter(deltas: seq<string>)
    ensures var r := FeedAll(SUMMARY, false, deltas);
            NonSpace(Strip([SUMMARY], "\n", Concat(deltas))) == NonSpace(r.out.Then(Finish(r.state)).visible)
  {
    hide SUMMARY, FeedAll, Strip, OneShot, NonSpace, Concat;
    SummaryTagsAreSolid();
    ChunkIndependence(SUMMARY, false, deltas);
    StripAgreesWithStream(SUMMARY, Concat(deltas));
  }

  // ----- Stripping one kind of tag never re-forms another -----

  lemma RejoinLacks(prefix: string, suffix: string, tag: string)
    requires tag != "" && NoSpace(tag)
    requires !ContainsFold(prefix, tag) && !ContainsFold(suffix, tag)
    ensures !ContainsFold(Rejoin(prefix, suffix, "\n"), tag)
  {
    hide IndexFold, NoSpace, Contains;
    if prefix != "" && suffix != "" {
      IndexFoldAbsent(prefix, tag);
      IndexFoldAbsent(suffix, tag);
      assert AllSpace("\n");
      SearchBeforeSpace(prefix, "\n", tag);
      SearchAfterSpace(prefix + "\n", suffix, tag);
      IndexFoldAbsent(prefix + "\n" + suffix, tag);
    }
  }

  lemma RemoveBlockLacks(text: string, i: nat, pair: Tags, tag: string)
    requires pair.Valid() && tag != "" && NoSpace(tag) && i + |pair.open| <= |text|
    requires !ContainsFold(text, tag)
    ensures !ContainsFold(RemoveBlock(text, i, pair, "\n"), tag)
  {
    hide IndexFold, NoSpace, ContainsFold, TrimSpace, Rejoin;
    var rest := text[i + |pair.open|..];
    var c := IndexFold(rest, pair.close);
    PieceLacks(text, 0, i, tag);
    if c >= 0 {
      var k := i + |pair.open| + c + |pair.close|;
      assert rest[c + |pair.close|..] == text[k..|text|];
      PieceLacks(text, k, |text|, tag);
      RejoinLacks(TrimSpace(text[..i]), TrimSpace(text[k..|text|]), tag);
    }
  }

  lemma PieceLacks(text: string, lo: nat, hi: nat, tag: string)
    requires lo <= hi <= |text| && !ContainsFold(text, tag)
    ensures !ContainsFold(TrimSpace(text[lo..hi]), tag)
  {
    hide ContainsFold, TrimSpace;
    if ContainsFold(TrimSpace(text[lo..hi]), tag) {
      TrimContainsFold(text[lo..hi], tag);
      SliceContainsFold(text, lo, hi, tag);
    }
  }

  lemma {:induction false} StripKeepsOut(pairs: seq<Tags>, text: string, tag: string)
    requires AllValid(pairs) && tag != "" && NoSpace(tag)
    requires !ContainsFold(text, tag)
    ensures !ContainsFold(Strip(pairs, "\n", text), tag)
    decreases |text|
  {
    hide IndexFold, NoSpace, ContainsFold, TrimSpace, Strip, RemoveBlock;
    var (i, p) := Earliest(text, pairs);
    StripUnfolds(pairs, "\n", text, i, p);
    if i < 0 {
      assert text[0..|text|] == text;
      PieceLacks(text, 0, |text|, tag);
    } else {
      RemoveBlockLacks(text, i, pairs[p], tag);
      StripKeepsOut(pairs, RemoveBlock(text, i, pairs[p], "\n"), tag);
    }
  }

  /** Thinking blocks first, then summaries: the result holds neither open tag. */
  lemma BothStrippersLeaveNeither(text: string)
    ensures var r := Strip([SUMMARY], "\n", Strip(THINK_TAG_PAIRS, "", text));
            !ContainsFold(r, SUMMARY.open) && !ContainsFold(r, THINK.open)
  {
    hide Strip, ContainsFold;
    var once := Strip(THINK_TAG_PAIRS, "", text);
    StripLeavesNoTag(THINK_TAG_PAIRS, "", text);
    assert THINK_TAG_PAIRS[0] == THINK;
    StripKeepsOut([SUMMARY], once, THINK.open);
    StripLeavesNoTag([SUMMARY], "\n", once);
    assert [SUMMARY][0] == SUMMARY;
  }
}
