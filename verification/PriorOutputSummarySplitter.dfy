/** The streaming splitter for folded summaries of earlier turns; hidden text here is dropped by the caller. */
module PriorOutputSummarySplitters {
  import opened Text
  import opened LetterCase
  import opened TagStream
  import opened TagSearch

  const SUMMARY := Tags("<prior-output-summary>", "</prior-output-summary>")

  class PriorOutputSummarySplitter {
    var buf: string
    var summaryBuf: string
    var inSummary: bool

    /** The stream since the last `Flush`: how it began, its deltas, and all it has output. */
    ghost var began: bool
    ghost var deltas: seq<string>
    ghost var emitted: Split

    ghost function Now(): State
      reads this
    {
      State(buf, summaryBuf, inSummary)
    }

    ghost predicate Valid()
      reads this
    {
      && Now().Valid(SUMMARY)
      && FeedAll(SUMMARY, began, deltas) == Step(emitted, Now())
    }

    constructor ()
      ensures Valid() && began == false && deltas == [] && emitted == Split("", "")
    {
      buf, summaryBuf, inSummary := "", "", false;
      began, deltas, emitted := false, [], Split("", "");
    }

    /** Output is final as soon as it is returned, whatever the rest of the stream is. */
    method Push(delta: string) returns (summary: string, visible: string)
      requires Valid()
      modifies this
      ensures Valid() && began == old(began) && deltas == old(deltas) + [delta]
      ensures emitted == old(emitted).Then(Split(summary, visible))
      // Hidden text is output only when its block is closed.
      ensures !ContainsFold(old(buf) + delta, SUMMARY.close) ==> summary == ""
      ensures IsFinal(SUMMARY, old(Now()), delta, Step(Split(summary, visible), Now()))
    {
      hide FeedAll, Drain, Feed, IsFinal, Split.Then;
      FeedAllUnfolds(SUMMARY, began, deltas, delta);
      FeedUnfolds(SUMMARY, Now(), delta);
      FeedIsAlwaysFinal(SUMMARY, Now(), delta);
      deltas := deltas + [delta];
      if delta == "" {
        summary, visible := "", "";
      } else {
        var raw := buf + delta;
        if !ContainsFold(raw, SUMMARY.close) {
          HiddenWaitsForClose(SUMMARY, Now().inside, Now().held, raw);
        }
        buf := "";
        summary, visible := Process(raw);
      }
      emitted := emitted.Then(Split(summary, visible));
    }

    /** The loop of `Push`, on the buffered text and the new delta together. */
    method Process(text: string) returns (summaryOut: string, visibleOut: string)
      requires text != "" && buf == ""
      requires !inSummary ==> summaryBuf == ""
      modifies `buf, `summaryBuf, `inSummary
      ensures Step(Split(summaryOut, visibleOut), Now()) == Drain(SUMMARY, old(inSummary), old(summaryBuf), text)
    {
      hide HeldBack, Drain, Pending, Split.Then, IsPartial, State.Valid, IndexFrom, Lower, SpelledAt;
      ghost var goal := Drain(SUMMARY, inSummary, summaryBuf, text);
      PendingStarts(SUMMARY, inSummary, summaryBuf, text);
      var raw := text;
      summaryOut, visibleOut := "", "";
      while |raw| > 0
        invariant buf == ""
        invariant !inSummary ==> summaryBuf == ""
        invariant Pending(SUMMARY, goal, Split(summaryOut, visibleOut), inSummary, summaryBuf, raw)
      {
        ghost var out := Split(summaryOut, visibleOut);
        if inSummary {
          var closeIdx, closeLen := FindCaseInsensitive(raw, SUMMARY.close);
          if closeIdx >= 0 {
            PendingFound(SUMMARY, goal, out, inSummary, summaryBuf, raw);
            Empties(summaryOut);
            summaryBuf := summaryBuf + raw[..closeIdx];
            if |summaryBuf| > 0 {
              summaryOut := summaryOut + summaryBuf;
              summaryBuf := "";
            }
            raw := raw[closeIdx + closeLen..];
            inSummary := false;
            continue;
          }
          PendingLast(SUMMARY, goal, out, inSummary, summaryBuf, raw);
          var keep := PartialTagSuffix(raw, SUMMARY.close);
          if keep > 0 {
            summaryBuf := summaryBuf + raw[..|raw| - keep];
            buf := buf + raw[|raw| - keep..];
          } else {
            summaryBuf := summaryBuf + raw;
          }
          KeepSplits(raw, keep);
          return;
        }
        var openIdx := Index(Lower(raw), Lower(SUMMARY.open));
        assert openIdx == IndexFold(raw, SUMMARY.open);
        if openIdx >= 0 {
          PendingFound(SUMMARY, goal, out, inSummary, summaryBuf, raw);
          visibleOut := visibleOut + raw[..openIdx];
          raw := raw[openIdx + |SUMMARY.open|..];
          inSummary := true;
          continue;
        }
        PendingLast(SUMMARY, goal, out, inSummary, summaryBuf, raw);
        var keep := PartialTagSuffix(raw, SUMMARY.open);
        if keep > 0 {
          visibleOut := visibleOut + raw[..|raw| - keep];
          buf := buf + raw[|raw| - keep..];
        } else {
          visibleOut := visibleOut + raw;
        }
        KeepSplits(raw, keep);
        return;
      }
      PendingDone(SUMMARY, goal, Split(summaryOut, visibleOut), inSummary, summaryBuf);
    }

    /** Everything pending is released; output and input of the whole stream now agree. */
    method Flush() returns (summary: string, visible: string)
      requires Valid()
      modifies this
      ensures Valid() && deltas == [] && emitted == Split("", "")
      ensures old(emitted).Then(Split(summary, visible)) == OneShot(SUMMARY, old(began), Concat(old(deltas)))
      // Only a block that is still empty stays open for a stream that follows.
      ensures began == inSummary == old(inSummary && summaryBuf == "" && buf == "")
    {
      hide OneShot, Concat, Drain, IndexFold, FeedAll, Split.Then, IsPartial;
      ChunkIndependence(SUMMARY, began, deltas);
      summary, visible := Release();
      began, deltas, emitted := inSummary, [], Split("", "");
      FeedNothing(SUMMARY, began);
    }

    method Release() returns (summary: string, visible: string)
      requires !inSummary ==> summaryBuf == ""
      modifies `buf, `summaryBuf, `inSummary
      ensures Split(summary, visible) == Finish(old(Now()))
      ensures Now() == Start(old(inSummary && summaryBuf == "" && buf == ""))
    {
      Empties(summaryBuf);
      summary, visible := "", "";
      var raw := buf;
      buf := "";
      if raw == "" {
        if inSummary && |summaryBuf| > 0 {
          summary := summaryBuf;
          summaryBuf := "";
          inSummary := false;
        }
        return summary, "";
      }
      if inSummary {
        summaryBuf := summaryBuf + raw;
        summary := summaryBuf;
        summaryBuf := "";
        inSummary := false;
        return summary, "";
      }
      return "", raw;
    }
  }
}
