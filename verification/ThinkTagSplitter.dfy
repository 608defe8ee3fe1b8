/** The streaming splitter for thinking blocks. */
module ThinkTagSplitters {
  import opened Text
  import opened LetterCase
  import opened TagStream
  import opened TagSearch

  const THINK := Tags("<think>", "</think>")
  const THINK_TAG_PAIRS: seq<Tags> := [THINK]

  method PartialOpenTagSuffix(raw: string) returns (maxKeep: nat)
    ensures maxKeep == HeldBack(raw, THINK.open)
  {
    maxKeep := 0;
    for p := 0 to |THINK_TAG_PAIRS|
      invariant maxKeep == if p == 0 then 0 else HeldBack(raw, THINK.open)
    {
      var keep := PartialTagSuffix(raw, THINK_TAG_PAIRS[p].open);
      if keep > maxKeep { maxKeep := keep; }
    }
  }

  class ThinkTagSplitter {
    var buf: string
    var thinkBuf: string
    var inThink: bool
    var closeTag: string

    /** The stream since the last `Flush`: how it began, its deltas, and all it has output. */
    ghost var began: bool
    ghost var deltas: seq<string>
    ghost var emitted: Split

    ghost function Now(): State
      reads this
    {
      State(buf, thinkBuf, inThink)
    }

    ghost predicate Valid()
      reads this
    {
      && Now().Valid(THINK)
      && closeTag == (if inThink then THINK.close else "")
      && FeedAll(THINK, began, deltas) == Step(emitted, Now())
    }

    constructor ()
      ensures Valid() && began == false && deltas == [] && emitted == Split("", "")
    {
      buf, thinkBuf, inThink, closeTag := "", "", false, "";
      began, deltas, emitted := false, [], Split("", "");
    }

    /** Output is final as soon as it is returned, whatever the rest of the stream is. */
    method Push(delta: string) returns (thinking: string, content: string)
      requires Valid()
      modifies this
      ensures Valid() && began == old(began) && deltas == old(deltas) + [delta]
      ensures emitted == old(emitted).Then(Split(thinking, content))
      // Hidden text is output only when its block is closed.
      ensures !ContainsFold(old(buf) + delta, THINK.close) ==> thinking == ""
      ensures IsFinal(THINK, old(Now()), delta, Step(Split(thinking, content), Now()))
    {
      hide FeedAll, Drain, Feed, IsFinal, Split.Then;
      FeedAllUnfolds(THINK, began, deltas, delta);
      FeedUnfolds(THINK, Now(), delta);
      FeedIsAlwaysFinal(THINK, Now(), delta);
      deltas := deltas + [delta];
      if delta == "" {
        thinking, content := "", "";
      } else {
        var raw := buf + delta;
        if !ContainsFold(raw, THINK.close) {
          HiddenWaitsForClose(THINK, Now().inside, Now().held, raw);
        }
        buf := "";
        thinking, content := Process(raw);
      }
      emitted := emitted.Then(Split(thinking, content));
    }

    /** The loop of `Push`, on the buffered text and the new delta together. */
    method Process(text: string) returns (thinkOut: string, contentOut: string)
      requires text != "" && buf == ""
      requires !inThink ==> thinkBuf == ""
      requires closeTag == if inThink then THINK.close else ""
      modifies `buf, `thinkBuf, `inThink, `closeTag
      ensures Step(Split(thinkOut, contentOut), Now()) == Drain(THINK, old(inThink), old(thinkBuf), text)
      ensures closeTag == if inThink then THINK.close else ""
    {
      hide IndexFold, HeldBack, Drain, Pending, Split.Then, IsPartial, State.Valid, SpelledAt;
      ghost var goal := Drain(THINK, inThink, thinkBuf, text);
      PendingStarts(THINK, inThink, thinkBuf, text);
      var raw := text;
      thinkOut, contentOut := "", "";
      while |raw| > 0
        invariant buf == ""
        invariant !inThink ==> thinkBuf == ""
        invariant closeTag == if inThink then THINK.close else ""
        invariant Pending(THINK, goal, Split(thinkOut, contentOut), inThink, thinkBuf, raw)
      {
        ghost var out := Split(thinkOut, contentOut);
        if inThink {
          var closeIdx, closeLen := FindCaseInsensitive(raw, closeTag);
          if closeIdx >= 0 {
            PendingFound(THINK, goal, out, inThink, thinkBuf, raw);
            Empties(thinkOut);
            thinkBuf := thinkBuf + raw[..closeIdx];
            if |thinkBuf| > 0 {
              thinkOut := thinkOut + thinkBuf;
              thinkBuf := "";
            }
            raw := raw[closeIdx + closeLen..];
            inThink := false;
            closeTag := "";
            continue;
          }
          PendingLast(THINK, goal, out, inThink, thinkBuf, raw);
          var keep := PartialTagSuffix(raw, closeTag);
          if keep > 0 {
            thinkBuf := thinkBuf + raw[..|raw| - keep];
            buf := buf + raw[|raw| - keep..];
          } else {
            thinkBuf := thinkBuf + raw;
          }
          KeepSplits(raw, keep);
          return;
        }
        assert THINK_TAG_PAIRS[0] == THINK;
        var openIdx, openLen, which := FindEarliestOpenTag(raw, THINK_TAG_PAIRS);
        if openIdx >= 0 {
          PendingFound(THINK, goal, out, inThink, thinkBuf, raw);
          contentOut := contentOut + raw[..openIdx];
          raw := raw[openIdx + openLen..];
          inThink := true;
          closeTag := THINK_TAG_PAIRS[which].close;
          continue;
        }
        PendingLast(THINK, goal, out, inThink, thinkBuf, raw);
        var keep := PartialOpenTagSuffix(raw);
        if keep > 0 {
          contentOut := contentOut + raw[..|raw| - keep];
          buf := buf + raw[|raw| - keep..];
        } else {
          contentOut := contentOut + raw;
        }
        KeepSplits(raw, keep);
        return;
      }
      PendingDone(THINK, goal, Split(thinkOut, contentOut), inThink, thinkBuf);
    }

    /** Everything pending is released; output and input of the whole stream now agree. */
    method Flush() returns (thinking: string, content: string)
      requires Valid()
      modifies this
      ensures Valid() && deltas == [] && emitted == Split("", "")
      ensures old(emitted).Then(Split(thinking, content)) == OneShot(THINK, old(began), Concat(old(deltas)))
      // Only a block that is still empty stays open for a stream that follows.
      ensures began == inThink == old(inThink && thinkBuf == "" && buf == "")
    {
      hide OneShot, Concat, Drain, IndexFold, FeedAll, Split.Then, IsPartial;
      ChunkIndependence(THINK, began, deltas);
      thinking, content := Release();
      began, deltas, emitted := inThink, [], Split("", "");
      FeedNothing(THINK, began);
    }

    method Release() returns (thinking: string, content: string)
      requires !inThink ==> thinkBuf == ""
      requires closeTag == if inThink then THINK.close else ""
      modifies `buf, `thinkBuf, `inThink, `closeTag
      ensures Split(thinking, content) == Finish(old(Now()))
      ensures Now() == Start(old(inThink && thinkBuf == "" && buf == ""))
      ensures closeTag == if inThink then THINK.close else ""
    {
      Empties(thinkBuf);
      thinking, content := "", "";
      var raw := buf;
      buf := "";
      if raw == "" {
        if inThink && |thinkBuf| > 0 {
          thinking := thinkBuf;
          thinkBuf := "";
          inThink := false;
          closeTag := "";
        }
        return thinking, "";
      }
      if inThink {
        thinkBuf := thinkBuf + raw;
        thinking := thinkBuf;
        thinkBuf := "";
        inThink := false;
        closeTag := "";
        return thinking, "";
      }
      return "", raw;
    }
  }
}
