/**
 What the thinking stripper returns.

 It joins without a separator, so taking out one block can form a new opening tag out of
 what stood on both sides of it. It returns the trimmed visible pieces of the text exactly
 if these, put together, hold no opening tag.
 */
module ThinkStripping {
  import opened Text
  import opened TagStream
  import opened TagStrippers
  import opened StripVersusStream
  import opened ThinkTagSplitters

  /** The visible pieces of a text, each trimmed, put together. */
  function TrimmedPieces(tags: Tags, inside: bool, text: string): string
    requires tags.Valid()
    decreases |text|
  {
    var tag := tags.Awaited(inside);
    var i := IndexFold(text, tag);
    if i < 0 then if inside then "" else TrimSpace(text)
    else (if inside then "" else TrimSpace(text[..i])) + TrimmedPieces(tags, !inside, text[i + |tag|..])
  }

  lemma PiecesUnfold(tags: Tags, inside: bool, text: string)
    requires tags.Valid()
    ensures var tag := tags.Awaited(inside);
            var i := IndexFold(text, tag);
            TrimmedPieces(tags, inside, text) ==
            if i < 0 then if inside then "" else TrimSpace(text)
            else (if inside then "" else TrimSpace(text[..i])) + TrimmedPieces(tags, !inside, text[i + |tag|..])
  {
    hide IndexFold, TrimSpace;
  }

  /** Up to white space they are the visible output of the stream. */
  lemma {:induction false} PiecesAreVisible(tags: Tags, inside: bool, text: string)
    requires tags.Valid()
    ensures NonSpace(TrimmedPieces(tags, inside, text)) == NonSpace(OneShot(tags, inside, text).visible)
    decreases |text|
  {
    hide IndexFold, TrimSpace, NonSpace, OneShot, TrimmedPieces;
    var tag := tags.Awaited(inside);
    var i := IndexFold(text, tag);
    PiecesUnfold(tags, inside, text);
    OneShotUnfolds(tags, inside, text);
    if i < 0 {
      NonSpaceTrim(text);
    } else {
      var rest := text[i + |tag|..];
      PiecesAreVisible(tags, !inside, rest);
      NonSpaceTrim(text[..i]);
      NonSpaceConcat(if inside then "" else TrimSpace(text[..i]), TrimmedPieces(tags, !inside, rest));
      NonSpaceConcat(if inside then "" else text[..i], OneShot(tags, !inside, rest).visible);
    }
  }

  // ----- Trimming -----

  lemma NothingInFront(front: string, rest: string, v: string)
    requires AllSpace(front) && v == front + rest && (v == "" || !IsSpace(v[0]))
    ensures front == ""
  {
  }

  /** Text that is trimmed at the left keeps its beginning. */
  lemma TrimBehind(p: string, v: string)
    requires Trimmed(p) && p != "" && (v == "" || !IsSpace(v[0]))
    ensures TrimSpace(p + v) == p + TrimSpace(v)
    ensures exists back :: AllSpace(back) && v == TrimSpace(v) + back
  {
    hide TrimSpace, TrimLeft, TrimRight;
    var front, back := TrimParts(v);
    NothingInFront(front, TrimSpace(v) + back, v);
    Empties(TrimSpace(v) + back);
    assert p + v == (p + TrimSpace(v)) + back;
    TrimIgnoresBack(p + TrimSpace(v), back);
    BothTrimmed(p, TrimSpace(v));
    TrimmedIsFixed(p + TrimSpace(v));
  }

  lemma BothTrimmed(p: string, q: string)
    requires Trimmed(p) && Trimmed(q)
    ensures Trimmed(p + q)
  {
    Empties(p);
    Empties(q);
  }

  lemma {:induction false} PiecesIgnoreBack(tags: Tags, inside: bool, text: string, space: string)
    requires Solid(tags) && AllSpace(space)
    ensures TrimmedPieces(tags, inside, text + space) == TrimmedPieces(tags, inside, text)
    decreases |text|
  {
    hide IndexFold, TrimSpace, TrimmedPieces, NoSpace, AllSpace;
    var tag := tags.Awaited(inside);
    var i := IndexFold(text, tag);
    SearchBeforeSpace(text, space, tag);
    PiecesUnfold(tags, inside, text);
    PiecesUnfold(tags, inside, text + space);
    if i < 0 {
      TrimIgnoresBack(text, space);
    } else {
      CutInFirst(text, space, i);
      CutInFirst(text, space, i + |tag|);
      PiecesIgnoreBack(tags, !inside, text[i + |tag|..], space);
    }
  }

  /** The visible piece that a text begins with. */
  function FirstPiece(tag: string, text: string): (v: string)
    ensures |v| <= |text| && v == text[..|v|]
  {
    var o := IndexFold(text, tag);
    if o < 0 then text else text[..o]
  }

  /** The trimmed pieces behind the first. */
  function LaterPieces(tags: Tags, text: string): string
    requires tags.Valid()
  {
    var i := IndexFold(text, tags.open);
    if i < 0 then "" else TrimmedPieces(tags, true, text[i + |tags.open|..])
  }

  lemma FirstAndLater(tags: Tags, text: string)
    requires tags.Valid()
    ensures TrimmedPieces(tags, false, text) == TrimSpace(FirstPiece(tags.open, text)) + LaterPieces(tags, text)
  {
    hide IndexFold, TrimSpace, TrimmedPieces;
    PiecesUnfold(tags, false, text);
    Empties(TrimSpace(text));
  }

  /** Text in front that moves the first tag along becomes part of the first piece. */
  lemma PiecesBehind(tags: Tags, early: string, later: string)
    requires tags.Valid()
    requires var i := IndexFold(later, tags.open);
             IndexFold(early + later, tags.open) == if i < 0 then -1 else |early| + i
    ensures FirstPiece(tags.open, early + later) == early + FirstPiece(tags.open, later)
    ensures LaterPieces(tags, early + later) == LaterPieces(tags, later)
  {
    hide IndexFold, TrimmedPieces;
    var i := IndexFold(later, tags.open);
    if i >= 0 {
      CutInSecond(early, later, i);
      CutInSecond(early, later, i + |tags.open|);
    }
  }

  lemma LastIsSpace(space: string)
    requires AllSpace(space) && space != ""
    ensures IsSpace(space[|space| - 1])
  {
  }

  lemma PiecesIgnoreFront(tags: Tags, space: string, text: string)
    requires Solid(tags) && AllSpace(space)
    ensures TrimmedPieces(tags, false, space + text) == TrimmedPieces(tags, false, text)
  {
    hide IndexFold, TrimSpace, TrimmedPieces, FirstPiece, LaterPieces, NoSpace, AllSpace;
    if space == "" {
      Empties(text);
    } else {
      LastIsSpace(space);
      SpaceHasNoTag(space, tags.open);
      SearchAfterSpace(space, text, tags.open);
      PiecesBehind(tags, space, text);
      FirstAndLater(tags, text);
      FirstAndLater(tags, space + text);
      TrimIgnoresFront(space, FirstPiece(tags.open, text));
    }
  }

  lemma PiecesIgnoreTrim(tags: Tags, text: string)
    requires Solid(tags)
    ensures TrimmedPieces(tags, false, TrimSpace(text)) == TrimmedPieces(tags, false, text)
  {
    hide TrimSpace, TrimmedPieces, NoSpace, AllSpace;
    var front, back := TrimParts(text);
    PiecesIgnoreBack(tags, false, TrimSpace(text), back);
    PiecesIgnoreFront(tags, front, TrimSpace(text) + back);
  }

  // ----- Joining two trimmed texts -----

  /** The tag's first character comes nowhere else in it, so two occurrences never overlap. */
  predicate LeadsAlone(tag: string) {
    tag != "" && forall k :: 0 < k < |tag| ==> FoldChar(tag[k]) != FoldChar(tag[0])
  }

  lemma FoldedChar(s: string, tag: string, j: int, k: nat)
    requires OccursAt(Lower(s), Lower(tag), j) && k < |tag|
    ensures FoldChar(s[j + k]) == FoldChar(tag[k])
  {
    assert Lower(s)[j..j + |tag|][k] == Lower(s)[j + k];
  }

  /** A tag that begins in `a` ends in it, if the next character is one that only begins tags. */
  lemma NoRunIntoTag(a: string, rest: string, tag: string, j: int)
    requires LeadsAlone(tag) && (rest == "" || FoldChar(rest[0]) == FoldChar(tag[0]))
    requires j < |a| && OccursAt(Lower(a + rest), Lower(tag), j)
    ensures OccursAt(Lower(a), Lower(tag), j)
  {
    hide FoldChar;
    if j + |tag| > |a| {
      FoldedChar(a + rest, tag, j, |a| - j);
    }
    LowerConcat(a, rest);
    OccursInFirst(Lower(a), Lower(rest), Lower(tag), j);
  }

  /** The first tag of a joined text is the first of its second part. */
  ghost predicate JoinKeepsSearch(p: string, s: string, tag: string) {
    IndexFold(p + s, tag) == if IndexFold(s, tag) < 0 then -1 else |p| + IndexFold(s, tag)
  }

  /** If `early` holds no tag and none runs over its end, the search can start after it. */
  lemma SearchAfter(early: string, later: string, tag: string)
    requires tag != ""
    requires forall j :: OccursAt(Lower(early + later), Lower(tag), j) ==> j >= |early|
    ensures JoinKeepsSearch(early, later, tag)
  {
    hide Index, Lower, OccursAt;
    LowerConcat(early, later);
    assert Lower(early + later)[|early|..] == Lower(later);
    IndexFromCut(Lower(early + later), |early|, Lower(tag));
  }

  /** A text that `p + FirstPiece(s)` does not hold is not formed by joining `p` and `s` either. */
  lemma JoinFormsNoTag(p: string, s: string, tag: string)
    requires LeadsAlone(tag) && IndexFold(p + FirstPiece(tag, s), tag) < 0
    ensures JoinKeepsSearch(p, s, tag)
  {
    hide FoldChar, LeadsAlone;
    var v := FirstPiece(tag, s);
    var rest := s[|v|..];
    TwoParts(s, |v|);
    assert p + s == (p + v) + rest;
    RestBeginsWithTag(s, tag);
    forall j | OccursAt(Lower(p + s), Lower(tag), j)
      ensures j >= |p|
    {
      if j < |p| {
        NoRunIntoTag(p + v, rest, tag, j);
      }
    }
    NotEmptyTag(tag);
    SearchAfter(p, s, tag);
  }

  lemma NotEmptyTag(tag: string)
    requires LeadsAlone(tag)
    ensures tag != ""
  {
  }

  lemma RestBeginsWithTag(s: string, tag: string)
    requires LeadsAlone(tag)
    ensures var rest := s[|FirstPiece(tag, s)|..];
            rest == "" || FoldChar(rest[0]) == FoldChar(tag[0])
  {
    hide FoldChar;
    var o := IndexFold(s, tag);
    if o >= 0 {
      FoldedChar(s, tag, o, 0);
    }
  }

  /** Joining trimmed texts keeps the pieces, if it forms no tag. */
  lemma PiecesOfJoin(tags: Tags, p: string, s: string)
    requires tags.Valid() && Trimmed(p) && Trimmed(s) && p != ""
    requires JoinKeepsSearch(p, s, tags.open)
    ensures TrimmedPieces(tags, false, p + s) == p + TrimmedPieces(tags, false, s)
  {
    hide IndexFold, TrimSpace, TrimmedPieces, FirstPiece, LaterPieces;
    var v, later := FirstPiece(tags.open, s), LaterPieces(tags, s);
    FirstAndLater(tags, s);
    FirstAndLater(tags, p + s);
    FirstPieceBegins(tags.open, s);
    TrimBehind(p, v);
    Associate(p, TrimSpace(v), later);
    PiecesBehind(tags, p, s);
  }

  /** It forms none if the pieces themselves spell none. */
  lemma JoinKeepsPieces(tags: Tags, p: string, s: string)
    requires Solid(tags) && LeadsAlone(tags.open) && Trimmed(p) && Trimmed(s) && p != "" && s != ""
    requires IndexFold(p + TrimmedPieces(tags, false, s), tags.open) < 0
    ensures TrimmedPieces(tags, false, p + s) == p + TrimmedPieces(tags, false, s)
  {
    hide IndexFold, TrimSpace, TrimmedPieces, FirstPiece, LaterPieces, NoSpace, LeadsAlone;
    var v, later := FirstPiece(tags.open, s), LaterPieces(tags, s);
    FirstAndLater(tags, s);
    FirstPieceBegins(tags.open, s);
    Associate(p, TrimSpace(v), later);
    LacksInFirst(p + TrimSpace(v), later, tags.open);
    SearchIgnoresTrim(p, v, tags.open);
    JoinFormsNoTag(p, s, tags.open);
    PiecesOfJoin(tags, p, s);
  }

  lemma FirstPieceBegins(tag: string, s: string)
    requires Trimmed(s)
    ensures var v := FirstPiece(tag, s); v == "" || !IsSpace(v[0])
  {
  }

  lemma Associate(a: string, b: string, c: string)
    ensures (a + b) + c == a + (b + c)
  {
  }

  lemma SearchIgnoresTrim(p: string, v: string, tag: string)
    requires tag != "" && NoSpace(tag) && Trimmed(p) && p != "" && (v == "" || !IsSpace(v[0]))
    ensures IndexFold(p + v, tag) == IndexFold(p + TrimSpace(v), tag)
  {
    hide IndexFold, TrimSpace, NoSpace, AllSpace;
    TrimBehind(p, v);
    var back :| AllSpace(back) && v == TrimSpace(v) + back;
    Associate(p, TrimSpace(v), back);
    SearchBeforeSpace(p + TrimSpace(v), back, tag);
  }

  lemma LacksInFirst(a: string, b: string, tag: string)
    requires IndexFold(a + b, tag) < 0
    ensures IndexFold(a, tag) < 0
  {
    hide Lower, Index;
    LowerConcat(a, b);
    if IndexFold(a, tag) >= 0 {
      IndexStable(Lower(a), Lower(b), Lower(tag));
    }
  }

  // ----- The first block -----

  /** The text before the first block, the text behind it, and whether it is closed. */
  datatype Parts = Closed(prefix: string, suffix: string) | Unclosed(prefix: string)

  function FirstBlock(tags: Tags, text: string): Parts
    requires tags.Valid() && IndexFold(text, tags.open) >= 0
  {
    var i := IndexFold(text, tags.open);
    var rest := text[i + |tags.open|..];
    var c := IndexFold(rest, tags.close);
    if c < 0 then Unclosed(text[..i]) else Closed(text[..i], rest[c + |tags.close|..])
  }

  lemma PrefixIsClean(tags: Tags, text: string)
    requires tags.Valid() && IndexFold(text, tags.open) >= 0
    ensures IndexFold(TrimSpace(FirstBlock(tags, text).prefix), tags.open) < 0
  {
    hide IndexFold, TrimSpace;
    var prefix := text[..IndexFold(text, tags.open)];
    BeforeFirst(text, tags.open);
    IndexFoldAbsent(prefix, tags.open);
    TrimmedIsClean(prefix, tags.open);
  }

  lemma PiecesInside(tags: Tags, text: string)
    requires tags.Valid()
    ensures var c := IndexFold(text, tags.close);
            TrimmedPieces(tags, true, text) ==
            if c < 0 then "" else TrimmedPieces(tags, false, text[c + |tags.close|..])
  {
    hide IndexFold, TrimmedPieces;
    PiecesUnfold(tags, true, text);
    var c := IndexFold(text, tags.close);
    if c >= 0 {
      Empties(TrimmedPieces(tags, false, text[c + |tags.close|..]));
    }
  }

  /** What the first block does to the pieces. */
  lemma PiecesAtBlock(tags: Tags, text: string)
    requires Solid(tags) && IndexFold(text, tags.open) >= 0
    ensures TrimmedPieces(tags, false, text) ==
            match FirstBlock(tags, text)
            case Unclosed(prefix) => TrimSpace(prefix)
            case Closed(prefix, suffix) => TrimSpace(prefix) + TrimmedPieces(tags, false, TrimSpace(suffix))
  {
    hide IndexFold, TrimmedPieces, TrimSpace, Trimmed, NoSpace;
    PiecesInParts(tags, text);
    match FirstBlock(tags, text)
    case Unclosed(prefix) => Empties(TrimSpace(prefix));
    case Closed(_, suffix) => PiecesIgnoreTrim(tags, suffix);
  }

  lemma PiecesInParts(tags: Tags, text: string)
    requires tags.Valid() && IndexFold(text, tags.open) >= 0
    ensures var b := FirstBlock(tags, text);
            TrimmedPieces(tags, false, text) ==
            TrimSpace(b.prefix) + if b.Unclosed? then "" else TrimmedPieces(tags, false, b.suffix)
  {
    hide IndexFold, TrimmedPieces, TrimSpace, Trimmed;
    PiecesUnfold(tags, false, text);
    PiecesInside(tags, text[IndexFold(text, tags.open) + |tags.open|..]);
  }

  /** What the stripper goes on with. */
  lemma BlockRemoved(tags: Tags, text: string)
    requires tags.Valid() && IndexFold(text, tags.open) >= 0
    ensures RemoveBlock(text, IndexFold(text, tags.open), tags, "") ==
            match FirstBlock(tags, text)
            case Unclosed(prefix) => TrimSpace(prefix)
            case Closed(prefix, suffix) => Rejoin(TrimSpace(prefix), TrimSpace(suffix), "")
  {
    hide IndexFold, TrimSpace, Rejoin;
  }

  // ----- When the thinking stripper agrees with the stream -----

  /** The stripper without a separator, on one text: exact. */
  lemma {:induction false} StripIsPieces(tags: Tags, text: string)
    requires Solid(tags) && LeadsAlone(tags.open)
    requires IndexFold(TrimmedPieces(tags, false, text), tags.open) < 0
    ensures Strip([tags], "", text) == TrimmedPieces(tags, false, text)
    decreases |text|
  {
    hide IndexFold, TrimSpace, TrimmedPieces, NoSpace, LeadsAlone, Strip, Rejoin, Trimmed, FirstBlock, RemoveBlock;
    var i := IndexFold(text, tags.open);
    OnlyPair(text, tags);
    StripUnfolds([tags], "", text, i, 0);
    PiecesUnfold(tags, false, text);
    if i >= 0 {
      PrefixIsClean(tags, text);
      PiecesAtBlock(tags, text);
      BlockRemoved(tags, text);
      match FirstBlock(tags, text)
      case Unclosed(prefix) => StripOfTrimmed(tags, prefix);
      case Closed(prefix, suffix) =>
        RejoinKeepsPieces(tags, TrimSpace(prefix), TrimSpace(suffix));
        StripIsPieces(tags, RemoveBlock(text, i, tags, ""));
    }
  }

  lemma StripOfTrimmed(tags: Tags, text: string)
    requires tags.Valid() && IndexFold(TrimSpace(text), tags.open) < 0
    ensures Strip([tags], "", TrimSpace(text)) == TrimSpace(text)
  {
    hide IndexFold, TrimSpace, Strip;
    OnlyPair(TrimSpace(text), tags);
    StripUnfolds([tags], "", TrimSpace(text), -1, 0);
    TrimmedIsFixed(TrimSpace(text));
  }

  lemma RejoinKeepsPieces(tags: Tags, p: string, s: string)
    requires Solid(tags) && LeadsAlone(tags.open) && Trimmed(p) && Trimmed(s)
    requires IndexFold(p, tags.open) < 0
    requires IndexFold(p + TrimmedPieces(tags, false, s), tags.open) < 0
    ensures TrimmedPieces(tags, false, Rejoin(p, s, "")) == p + TrimmedPieces(tags, false, s)
  {
    hide IndexFold, TrimSpace, TrimmedPieces, NoSpace, LeadsAlone, Trimmed;
    Empties(p);
    if p == "" {
      Empties(TrimmedPieces(tags, false, s));
    } else if s == "" {
      SpaceHasNoTag("", tags.open);
      PiecesUnfold(tags, false, "");
      PiecesUnfold(tags, false, p);
      TrimmedIsFixed(p);
      TrimmedIsFixed("");
    } else {
      JoinKeepsPieces(tags, p, s);
    }
  }

  /**
   What the stripper returns is the trimmed visible pieces of the text, put together, if and
   only if these hold no opening tag. Otherwise it goes on and takes out more.
   */
  lemma StripIsPiecesExactly(tags: Tags, text: string)
    requires Solid(tags) && LeadsAlone(tags.open)
    ensures Strip([tags], "", text) == TrimmedPieces(tags, false, text)
            <==> !ContainsFold(TrimmedPieces(tags, false, text), tags.open)
  {
    hide IndexFold, TrimmedPieces, Strip, NoSpace, LeadsAlone;
    IndexFoldAbsent(TrimmedPieces(tags, false, text), tags.open);
    StripLeavesNoTag([tags], "", text);
    assert [tags][0] == tags;
    if !ContainsFold(TrimmedPieces(tags, false, text), tags.open) {
      StripIsPieces(tags, text);
    }
  }

  lemma ThinkIsSolid()
    ensures Solid(THINK) && LeadsAlone(THINK.open) && LeadsAlone(THINK.close)
  {
  }

  // ----- A text on which they differ -----

  /** The first tag behind text that holds none. */
  lemma TagBehind(p: string, tag: string, rest: string)
    requires LeadsAlone(tag) && IndexFold(p, tag) < 0
    ensures var text := p + tag + rest;
            IndexFold(text, tag) == |p| && text[..|p|] == p && text[|p| + |tag|..] == rest
  {
    hide FoldChar;
    var text := p + tag + rest;
    Associate(p, tag, rest);
    LowerConcat(p, tag + rest);
    forall j | OccursAt(Lower(p + (tag + rest)), Lower(tag), j)
      ensures j >= |p|
    {
      if j < |p| {
        NoRunIntoTag(p, tag + rest, tag, j);
      }
    }
    LowerConcat(tag, rest);
    assert Lower(tag + rest)[..|tag|] == Lower(tag);
    assert OccursAt(Lower(tag + rest), Lower(tag), 0);
    SearchAfter(p, tag + rest, tag);
  }

  /** One block between two texts that hold no tag of their own. */
  lemma OneBlock(tags: Tags, p: string, hidden: string, q: string)
    requires tags.Valid() && LeadsAlone(tags.open) && LeadsAlone(tags.close)
    requires IndexFold(p, tags.open) < 0 && IndexFold(hidden, tags.close) < 0
    requires Trimmed(p) && p != "" && Trimmed(q) && q != ""
    ensures var text := p + tags.open + (hidden + tags.close + q);
            && OneShot(tags, false, text).visible == p + OneShot(tags, false, q).visible
            && Strip([tags], "", text) == Strip([tags], "", p + q)
  {
    hide IndexFold, TrimSpace, Strip, OneShot, LeadsAlone;
    var rest := hidden + tags.close + q;
    var text := p + tags.open + rest;
    TagBehind(p, tags.open, rest);
    TagBehind(hidden, tags.close, q);
    OneShotUnfolds(tags, false, text);
    OneShotUnfolds(tags, true, rest);
    Empties(OneShot(tags, false, q).visible);
    OnlyPair(text, tags);
    StripUnfolds([tags], "", text, |p|, 0);
    TrimmedIsFixed(p);
    TrimmedIsFixed(q);
    Empties(p);
  }

  /** A tag without its end takes the rest along. */
  lemma UnclosedIsDropped(tags: Tags, q: string)
    requires tags.Valid() && LeadsAlone(tags.open) && IndexFold(q, tags.close) < 0
    ensures Strip([tags], "", tags.open + q) == ""
  {
    hide IndexFold, TrimSpace, Strip, LeadsAlone;
    Empties(tags.open);
    NotEmptyTag(tags.open);
    HeldHasNoTag("", tags.open);
    TagBehind("", tags.open, q);
    OnlyPair(tags.open + q, tags);
    StripUnfolds([tags], "", tags.open + q, 0, 0);
    TrimmedIsFixed("");
    OnlyPair("", tags);
    StripUnfolds([tags], "", "", -1, 0);
  }

  const REFORMING := "<th<think>x</think>ink>y"

  /** Here the stream shows a text and the stripper leaves nothing: the two ends spell a new opening tag. */
  lemma ThinkStripperCanRemoveMore()
    ensures OneShot(THINK, false, REFORMING).visible == "<think>y"
    ensures Strip(THINK_TAG_PAIRS, "", REFORMING) == ""
  {
    hide OneShot, Strip, LeadsAlone, Solid;
    ThinkIsSolid();
    HeldHasNoTag("<th", THINK.open);
    HeldHasNoTag("x", THINK.close);
    HeldHasNoTag("ink>y", THINK.open);
    HeldHasNoTag("y", THINK.close);
    OneBlock(THINK, "<th", "x", "ink>y");
    assert "<th" + THINK.open + ("x" + THINK.close + "ink>y") == REFORMING;
    OneShotUnfolds(THINK, false, "ink>y");
    assert "<th" + "ink>y" == THINK.open + "y" == "<think>y";
    UnclosedIsDropped(THINK, "y");
  }
}
