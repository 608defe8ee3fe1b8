/**
 The thinking stripper and the streaming splitter: when they agree, exactly.

 A tag that a join forms always costs visible text. So the stripper never keeps more than
 the stream shows, and as much only if no join forms a tag.
 */
module ThinkVersusStream {
  import opened Text
  import opened TagStream
  import opened TagStrippers
  import opened StripVersusStream
  import opened ThinkStripping
  import opened ThinkTagSplitters

  /** Two tags that begin alike, differ, and never overlap themselves or each other. */
  ghost predicate Paired(tags: Tags) {
    && Solid(tags) && LeadsAlone(tags.open) && LeadsAlone(tags.close)
    && FoldChar(tags.open[0]) == FoldChar(tags.close[0])
    && exists k: nat :: k < |tags.open| && k < |tags.close| && FoldChar(tags.open[k]) != FoldChar(tags.close[k])
  }

  lemma PairedIsValid(tags: Tags)
    requires Paired(tags)
    ensures Solid(tags) && LeadsAlone(tags.open) && LeadsAlone(tags.close) && tags.Valid()
  {
  }

  // ----- Tags never overlap -----

  lemma EndsBeforeNext(text: string, a: string, i: int, b: string, j: int)
    requires LeadsAlone(a) && b != "" && FoldChar(a[0]) == FoldChar(b[0])
    requires OccursAt(Lower(text), Lower(a), i) && OccursAt(Lower(text), Lower(b), j) && i < j
    ensures i + |a| <= j
  {
    hide FoldChar;
    FoldedChar(text, b, j, 0);
    if j < i + |a| {
      FoldedChar(text, a, i, j - i);
    }
  }

  lemma OpenIsNotClose(tags: Tags, text: string, i: int, j: int)
    requires Paired(tags)
    requires OccursAt(Lower(text), Lower(tags.open), i) && OccursAt(Lower(text), Lower(tags.close), j)
    ensures i + |tags.open| <= j || j + |tags.close| <= i
  {
    hide FoldChar, Lower;
    var k: nat :| k < |tags.open| && k < |tags.close| && FoldChar(tags.open[k]) != FoldChar(tags.close[k]);
    FoldedChar(text, tags.open, i, k);
    FoldedChar(text, tags.close, j, k);
    if i < j {
      EndsBeforeNext(text, tags.open, i, tags.close, j);
    } else if j < i {
      EndsBeforeNext(text, tags.close, j, tags.open, i);
    }
  }

  // ----- What is visible from either mode -----

  lemma VisibleShown(tags: Tags, text: string)
    requires tags.Valid()
    ensures var o := IndexFold(text, tags.open);
            VisibleText(tags, false, text) ==
            if o < 0 then NonSpace(text) else NonSpace(text[..o]) + VisibleText(tags, true, text[o + |tags.open|..])
  {
    hide IndexFold, NonSpace, OneShot;
    var o := IndexFold(text, tags.open);
    OneShotUnfolds(tags, false, text);
    if o >= 0 {
      NonSpaceConcat(text[..o], OneShot(tags, true, text[o + |tags.open|..]).visible);
    }
  }

  lemma VisibleHidden(tags: Tags, text: string)
    requires tags.Valid()
    ensures var c := IndexFold(text, tags.close);
            VisibleText(tags, true, text) == if c < 0 then "" else VisibleText(tags, false, text[c + |tags.close|..])
  {
    hide IndexFold, NonSpace, OneShot;
    var c := IndexFold(text, tags.close);
    OneShotUnfolds(tags, true, text);
    NonSpaceOfSpace("");
    if c >= 0 {
      Empties(OneShot(tags, false, text[c + |tags.close|..]).visible);
    }
  }

  lemma VisibleSkips(tags: Tags, early: string, later: string)
    requires tags.Valid() && JoinKeepsSearch(early, later, tags.open)
    ensures VisibleText(tags, false, early + later) == NonSpace(early) + VisibleText(tags, false, later)
  {
    hide IndexFold, NonSpace, OneShot;
    OneShotSkips(tags, false, early, later);
    NonSpaceConcat(early, OneShot(tags, false, later).visible);
  }

  /** Cutting a text behind a place before which no tag starts. */
  lemma SearchFrom(text: string, n: nat, tag: string)
    requires tag != "" && n <= |text|
    requires IndexFold(text, tag) < 0 || n <= IndexFold(text, tag)
    ensures JoinKeepsSearch(text[..n], text[n..], tag)
    ensures IndexFold(text, tag) >= 0 ==> IndexFold(text[n..], tag) == IndexFold(text, tag) - n
  {
    hide Lower;
    TwoParts(text, n);
    SearchAfter(text[..n], text[n..], tag);
  }

  /** Beginning inside a block never shows more than beginning outside. */
  lemma InsideShowsLess(tags: Tags, text: string)
    requires Paired(tags)
    ensures |VisibleText(tags, true, text)| <= |VisibleText(tags, false, text)|
  {
    hide IndexFold, NonSpace, VisibleText, Paired, Solid, LeadsAlone;
    PairedIsValid(tags);
    var o, c := IndexFold(text, tags.open), IndexFold(text, tags.close);
    VisibleHidden(tags, text);
    if c >= 0 {
      if o >= 0 {
        FirstTagsApart(tags, text);
      }
      var n := c + |tags.close|;
      if o < 0 || n <= o {
        SearchFrom(text, n, tags.open);
        TwoParts(text, n);
        VisibleSkips(tags, text[..n], text[n..]);
      } else {
        CloseBehindOpen(tags, text);
      }
    }
  }

  lemma FirstTagsApart(tags: Tags, text: string)
    requires Paired(tags) && IndexFold(text, tags.open) >= 0 && IndexFold(text, tags.close) >= 0
    ensures var o, c := IndexFold(text, tags.open), IndexFold(text, tags.close);
            o + |tags.open| <= c || c + |tags.close| <= o
  {
    hide Lower, Paired;
    OpenIsNotClose(tags, text, IndexFold(text, tags.open), IndexFold(text, tags.close));
  }

  /** The block that opens first is closed by the first closing tag. */
  lemma CloseBehindOpen(tags: Tags, text: string)
    requires tags.Valid()
    requires var o, c := IndexFold(text, tags.open), IndexFold(text, tags.close);
             o >= 0 && o + |tags.open| <= c
    ensures |VisibleText(tags, true, text)| <= |VisibleText(tags, false, text)|
  {
    hide IndexFold, NonSpace, VisibleText;
    var o, c := IndexFold(text, tags.open), IndexFold(text, tags.close);
    var n := o + |tags.open|;
    VisibleShown(tags, text);
    VisibleHidden(tags, text);
    VisibleHidden(tags, text[n..]);
    SearchFrom(text, n, tags.close);
    assert text[n..][c - n + |tags.close|..] == text[c + |tags.close|..];
  }

  // ----- A tag that a join forms -----

  lemma TagIsVisible(text: string, tag: string, j: int)
    requires tag != "" && NoSpace(tag) && OccursAt(Lower(text), Lower(tag), j)
    ensures 0 <= j < |text| && !IsSpace(text[j])
  {
    FoldedChar(text, tag, j, 0);
  }

  /** If a join forms a tag, less is visible than was before. */
  lemma NewTagHidesMore(tags: Tags, p: string, s: string)
    requires Paired(tags) && IndexFold(p, tags.open) < 0 && 0 <= IndexFold(p + s, tags.open) < |p|
    ensures |VisibleText(tags, false, p + s)| < |NonSpace(p)| + |VisibleText(tags, false, s)|
  {
    hide IndexFold, NonSpace, VisibleText, Paired, Solid, LeadsAlone;
    PairedIsValid(tags);
    var j := IndexFold(p + s, tags.open);
    NewTagRunsOver(tags, p, s);
    var m := j + |tags.open| - |p|;
    VisibleShown(tags, p + s);
    CutInFirst(p, s, j);
    CutInSecond(p, s, m);
    InsideShowsLess(tags, s[m..]);
    TwoParts(s, m);
    VisibleSkips(tags, s[..m], s[m..]);
    HeadIsShorter(tags, p, s);
  }

  lemma HeadIsShorter(tags: Tags, p: string, s: string)
    requires Solid(tags) && 0 <= IndexFold(p + s, tags.open) < |p|
    ensures |NonSpace(p[..IndexFold(p + s, tags.open)])| < |NonSpace(p)|
  {
    hide Lower, Index, NonSpace, NoSpace;
    var j := IndexFold(p + s, tags.open);
    TagIsVisible(p + s, tags.open, j);
    TwoParts(p, j);
    NonSpaceConcat(p[..j], p[j..]);
    NonSpaceAt(p[j..], 0);
  }

  /** The new tag ends in the second part, before any tag of that part. */
  lemma NewTagRunsOver(tags: Tags, p: string, s: string)
    requires Paired(tags) && IndexFold(p, tags.open) < 0 && 0 <= IndexFold(p + s, tags.open) < |p|
    ensures var m := IndexFold(p + s, tags.open) + |tags.open| - |p|;
            0 < m <= |s| && JoinKeepsSearch(s[..m], s[m..], tags.open)
  {
    hide Index, Lower, Paired, Solid, FoldChar, LeadsAlone;
    PairedIsValid(tags);
    NotEmptyTag(tags.open);
    var j, i := IndexFold(p + s, tags.open), IndexFold(s, tags.open);
    LowerConcat(p, s);
    OccursInFirst(Lower(p), Lower(s), Lower(tags.open), j);
    var m := j + |tags.open| - |p|;
    if i >= 0 {
      OccursInSecond(p, s, tags.open, i);
      EndsBeforeNext(p + s, tags.open, j, tags.open, |p| + i);
    }
    SearchFrom(s, m, tags.open);
  }

  lemma OccursInSecond(p: string, s: string, tag: string, i: int)
    requires OccursAt(Lower(s), Lower(tag), i)
    ensures OccursAt(Lower(p + s), Lower(tag), |p| + i)
  {
    hide Lower;
    LowerConcat(p, s);
    var all := Lower(p) + Lower(s);
    assert all[|p|..|all|] == Lower(s);
    SliceOccurrences(all, |p|, |all|, Lower(tag));
  }

  /** A join shows no more than its parts, and as much only if it keeps the pieces. */
  lemma JoinShowsLess(tags: Tags, p: string, s: string)
    requires Paired(tags) && Trimmed(p) && Trimmed(s) && p != "" && IndexFold(p, tags.open) < 0
    ensures var sum := |NonSpace(p)| + |VisibleText(tags, false, s)|;
            && |VisibleText(tags, false, p + s)| <= sum
            && (|VisibleText(tags, false, p + s)| == sum ==>
                TrimmedPieces(tags, false, p + s) == p + TrimmedPieces(tags, false, s))
  {
    hide Lower, Index, NonSpace, VisibleText, Paired, Solid, LeadsAlone, TrimmedPieces, Trimmed;
    PairedIsValid(tags);
    var j := IndexFold(p + s, tags.open);
    if 0 <= j < |p| {
      NewTagHidesMore(tags, p, s);
    } else {
      SearchFrom(p + s, |p|, tags.open);
      CutInSecond(p, s, 0);
      VisibleSkips(tags, p, s);
      PiecesOfJoin(tags, p, s);
    }
  }

  lemma RejoinShowsLess(tags: Tags, p: string, s: string)
    requires Paired(tags) && Trimmed(p) && Trimmed(s) && IndexFold(p, tags.open) < 0
    ensures var r := Rejoin(p, s, "");
            var sum := |NonSpace(p)| + |VisibleText(tags, false, s)|;
            && |VisibleText(tags, false, r)| <= sum
            && (|VisibleText(tags, false, r)| == sum ==>
                TrimmedPieces(tags, false, r) == p + TrimmedPieces(tags, false, s))
  {
    hide IndexFold, NonSpace, VisibleText, Paired, Solid, LeadsAlone, TrimmedPieces, Trimmed;
    PairedIsValid(tags);
    if p == "" {
      Empties(TrimmedPieces(tags, false, s));
    } else {
      Empties(p);
      JoinShowsLess(tags, p, s);
    }
  }

  // ----- The stripper and the stream -----

  /** What the first block does to the visible text. */
  lemma VisibleAtFirstBlock(tags: Tags, text: string)
    requires Solid(tags) && IndexFold(text, tags.open) >= 0
    ensures VisibleText(tags, false, text) ==
            match FirstBlock(tags, text)
            case Unclosed(prefix) => NonSpace(TrimSpace(prefix))
            case Closed(prefix, suffix) => NonSpace(TrimSpace(prefix)) + VisibleText(tags, false, TrimSpace(suffix))
  {
    hide IndexFold, NonSpace, VisibleText, TrimSpace, NoSpace;
    var rest := text[IndexFold(text, tags.open) + |tags.open|..];
    VisibleShown(tags, text);
    VisibleHidden(tags, rest);
    match FirstBlock(tags, text)
    case Unclosed(prefix) =>
      NonSpaceTrim(prefix);
      Empties(NonSpace(prefix));
    case Closed(prefix, suffix) =>
      NonSpaceTrim(prefix);
      VisibleIgnoresTrim(tags, suffix);
  }

  /** The stripper keeps no more than the stream shows, and as much only if it returns the trimmed pieces. */
  lemma {:induction false} StripShowsLess(tags: Tags, text: string)
    requires Paired(tags)
    ensures var r := Strip([tags], "", text);
            && |NonSpace(r)| <= |VisibleText(tags, false, text)|
            && (|NonSpace(r)| == |VisibleText(tags, false, text)| ==> r == TrimmedPieces(tags, false, text))
    decreases |text|
  {
    hide IndexFold, NonSpace, VisibleText, Paired, Solid, LeadsAlone, TrimmedPieces, TrimSpace, Trimmed, Strip, Rejoin;
    hide FirstBlock, RemoveBlock;
    PairedIsValid(tags);
    var i := IndexFold(text, tags.open);
    OnlyPair(text, tags);
    StripUnfolds([tags], "", text, i, 0);
    if i < 0 {
      VisibleShown(tags, text);
      PiecesUnfold(tags, false, text);
      NonSpaceTrim(text);
    } else {
      PrefixIsClean(tags, text);
      PiecesAtBlock(tags, text);
      VisibleAtFirstBlock(tags, text);
      BlockRemoved(tags, text);
      match FirstBlock(tags, text)
      case Unclosed(prefix) => StripOfTrimmed(tags, prefix);
      case Closed(prefix, suffix) =>
        RejoinShowsLess(tags, TrimSpace(prefix), TrimSpace(suffix));
        StripShowsLess(tags, RemoveBlock(text, i, tags, ""));
    }
  }

  /**
   Up to white space the stripper keeps what the stream shows if and only if the trimmed
   visible pieces of the text, put together, hold no opening tag.
   */
  lemma StripAgreesExactly(tags: Tags, text: string)
    requires Paired(tags)
    ensures NonSpace(Strip([tags], "", text)) == NonSpace(OneShot(tags, false, text).visible)
            <==> !ContainsFold(TrimmedPieces(tags, false, text), tags.open)
  {
    hide IndexFold, NonSpace, OneShot, Paired, Solid, LeadsAlone, TrimmedPieces, Strip, ContainsFold;
    PairedIsValid(tags);
    StripIsPiecesExactly(tags, text);
    PiecesAreVisible(tags, false, text);
    StripShowsLess(tags, text);
  }

  lemma ThinkIsPaired()
    ensures Paired(THINK)
  {
    ThinkIsSolid();
    assert FoldChar(THINK.open[1]) != FoldChar(THINK.close[1]);
  }

  /** For thinking blocks and any deltas: when stripper and splitter keep the same. */
  lemma ThinkStripperAgreesWithSplitter(deltas: seq<string>)
    ensures var r := FeedAll(THINK, false, deltas);
            NonSpace(Strip(THINK_TAG_PAIRS, "", Concat(deltas))) == NonSpace(r.out.Then(Finish(r.state)).visible)
            <==> !ContainsFold(TrimmedPieces(THINK, false, Concat(deltas)), THINK.open)
  {
    hide THINK, FeedAll, Strip, OneShot, NonSpace, Concat, TrimmedPieces, ContainsFold, Paired;
    ThinkIsPaired();
    ChunkIndependence(THINK, false, deltas);
    StripAgreesExactly(THINK, Concat(deltas));
  }
}
