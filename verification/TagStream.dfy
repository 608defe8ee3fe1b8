/**
 What splitting a text into hidden blocks and visible text means, and why doing it
 chunk by chunk gives the same answer as doing it once on the whole text.

 `OneShot` is the reference: a left-to-right split of a complete text. `Drain` is the
 state change that one streaming step makes. Both stream splitters are proved against
 `Feed` and `Finish` below, each with its own pair of tags.
 */
module TagStream {
  import opened Text

  datatype Tags = Tags(open: string, close: string) {
    predicate Valid() { open != "" && close != "" }

    function Awaited(inside: bool): string { if inside then close else open }
  }

  /** The two outputs: text between tags, and text outside them. */
  datatype Split = Split(hidden: string, visible: string) {
    function Then(next: Split): Split { Split(hidden + next.hidden, visible + next.visible) }

    static function Of(inside: bool, text: string): Split {
      if inside then Split(text, "") else Split("", text)
    }
  }

  /** The split of a complete text; an unclosed block is hidden to the end. */
  function OneShot(tags: Tags, inside: bool, text: string): Split
    requires tags.Valid()
    decreases |text|
  {
    var tag := tags.Awaited(inside);
    var i := IndexFold(text, tag);
    if i < 0 then Split.Of(inside, text)
    else Split.Of(inside, text[..i]).Then(OneShot(tags, !inside, text[i + |tag|..]))
  }

  // ----- An independent account of the one-shot split -----

  /** A text cut at its tags. */
  datatype Piece = Visible(text: string) | Hidden(text: string) | Tag(text: string) {
    static function Of(inside: bool, text: string): Piece {
      if inside then Hidden(text) else Visible(text)
    }
  }

  function Cut(tags: Tags, inside: bool, text: string): seq<Piece>
    requires tags.Valid()
    decreases |text|
  {
    var tag := tags.Awaited(inside);
    var i := IndexFold(text, tag);
    if i < 0 then [Piece.Of(inside, text)]
    else [Piece.Of(inside, text[..i])]
         + ([Tag(text[i..i + |tag|])] + Cut(tags, !inside, text[i + |tag|..]))
  }

  function Glue(pieces: seq<Piece>): string {
    if pieces == [] then "" else pieces[0].text + Glue(pieces[1..])
  }

  function HiddenOf(pieces: seq<Piece>): string {
    if pieces == [] then ""
    else (if pieces[0].Hidden? then pieces[0].text else "") + HiddenOf(pieces[1..])
  }

  function VisibleOf(pieces: seq<Piece>): string {
    if pieces == [] then ""
    else (if pieces[0].Visible? then pieces[0].text else "") + VisibleOf(pieces[1..])
  }

  function TagBytes(pieces: seq<Piece>): nat {
    if pieces == [] then 0
    else (if pieces[0].Tag? then |pieces[0].text| else 0) + TagBytes(pieces[1..])
  }

  /** A visible piece holds no open tag, a hidden piece no close tag, a tag piece is a tag. */
  ghost predicate Clean(tags: Tags, piece: Piece) {
    match piece
    case Visible(t) => !ContainsFold(t, tags.open)
    case Hidden(t) => !ContainsFold(t, tags.close)
    case Tag(t) => Lower(t) == Lower(tags.open) || Lower(t) == Lower(tags.close)
  }

  lemma ViewsOfCons(p: Piece, rest: seq<Piece>)
    ensures Glue([p] + rest) == p.text + Glue(rest)
    ensures HiddenOf([p] + rest) == (if p.Hidden? then p.text + HiddenOf(rest) else HiddenOf(rest))
    ensures VisibleOf([p] + rest) == (if p.Visible? then p.text + VisibleOf(rest) else VisibleOf(rest))
  {
    assert ([p] + rest)[1..] == rest;
    Empties(HiddenOf(rest));
    Empties(VisibleOf(rest));
  }

  lemma ViewsOfOne(p: Piece)
    ensures Glue([p]) == p.text
    ensures HiddenOf([p]) == (if p.Hidden? then p.text else "")
    ensures VisibleOf([p]) == (if p.Visible? then p.text else "")
  {
    assert [p] + [] == [p];
    ViewsOfCons(p, []);
    Empties(p.text);
  }

  lemma CutUnfolds(tags: Tags, inside: bool, text: string)
    requires tags.Valid()
    ensures var tag := tags.Awaited(inside);
            var i := IndexFold(text, tag);
            Cut(tags, inside, text) ==
            if i < 0 then [Piece.Of(inside, text)]
            else [Piece.Of(inside, text[..i])] + ([Tag(text[i..i + |tag|])] + Cut(tags, !inside, text[i + |tag|..]))
  {
    hide IndexFold;
  }

  lemma PieceText(inside: bool, text: string)
    ensures Piece.Of(inside, text).text == text
  {
  }

  /** The pieces are the whole text in order. */
  lemma {:induction false} CutIsWhole(tags: Tags, inside: bool, text: string)
    requires tags.Valid()
    ensures Glue(Cut(tags, inside, text)) == text
    decreases |text|
  {
    hide IndexFold, Cut, Glue, HiddenOf, VisibleOf, Piece.Of;
    var tag := tags.Awaited(inside);
    var i := IndexFold(text, tag);
    CutUnfolds(tags, inside, text);
    if i < 0 {
      PieceText(inside, text);
      ViewsOfOne(Piece.Of(inside, text));
    } else {
      var rest := Cut(tags, !inside, text[i + |tag|..]);
      PieceText(inside, text[..i]);
      CutIsWhole(tags, !inside, text[i + |tag|..]);
      ViewsOfCons(Tag(text[i..i + |tag|]), rest);
      ViewsOfCons(Piece.Of(inside, text[..i]), [Tag(text[i..i + |tag|])] + rest);
      ThreeParts(text, i, i + |tag|);
    }
  }

  /** No piece holds the tag that would have ended it. */
  lemma {:induction false} CutIsClean(tags: Tags, inside: bool, text: string)
    requires tags.Valid()
    ensures forall p :: p in Cut(tags, inside, text) ==> Clean(tags, p)
    decreases |text|
  {
    hide IndexFold, Contains;
    var tag := tags.Awaited(inside);
    var i := IndexFold(text, tag);
    if i < 0 {
      IndexFoldAbsent(text, tag);
    } else {
      CutIsClean(tags, !inside, text[i + |tag|..]);
      BeforeFirst(text, tag);
    }
  }

  /** The one-shot split is what the hidden and the visible pieces spell. */
  lemma {:induction false} OneShotIsCut(tags: Tags, inside: bool, text: string)
    requires tags.Valid()
    ensures OneShot(tags, inside, text).hidden == HiddenOf(Cut(tags, inside, text))
    ensures OneShot(tags, inside, text).visible == VisibleOf(Cut(tags, inside, text))
    decreases |text|
  {
    hide IndexFold, Cut, Glue, HiddenOf, VisibleOf, OneShot, Split.Then;
    var tag := tags.Awaited(inside);
    var i := IndexFold(text, tag);
    CutUnfolds(tags, inside, text);
    OneShotUnfolds(tags, inside, text);
    if i < 0 {
      ViewsOfOne(Piece.Of(inside, text));
    } else {
      var rest := Cut(tags, !inside, text[i + |tag|..]);
      OneShotIsCut(tags, !inside, text[i + |tag|..]);
      ViewsOfCons(Tag(text[i..i + |tag|]), rest);
      ViewsOfCons(Piece.Of(inside, text[..i]), [Tag(text[i..i + |tag|])] + rest);
      ThenOf(inside, text[..i], OneShot(tags, !inside, text[i + |tag|..]));
    }
  }

  lemma ThenOf(inside: bool, text: string, rest: Split)
    ensures Split.Of(inside, text).Then(rest) ==
            if inside then Split(text + rest.hidden, rest.visible) else Split(rest.hidden, text + rest.visible)
  {
    Empties(rest.hidden);
    Empties(rest.visible);
  }

  lemma BeforeFirst(text: string, tag: string)
    requires tag != "" && IndexFold(text, tag) >= 0
    ensures !ContainsFold(text[..IndexFold(text, tag)], tag)
    ensures Lower(text[IndexFold(text, tag)..IndexFold(text, tag) + |tag|]) == Lower(tag)
  {
    var i := IndexFold(text, tag);
    LowerSlice(text, i, i + |tag|);
    LowerSlice(text, 0, i);
    SliceOccurrences(Lower(text), 0, i, Lower(tag));
  }

  lemma {:induction false} PiecesWeigh(pieces: seq<Piece>)
    ensures |Glue(pieces)| == |HiddenOf(pieces)| + |VisibleOf(pieces)| + TagBytes(pieces)
  {
    if pieces != [] { PiecesWeigh(pieces[1..]); }
  }

  // ----- Holding back a tag that may be cut by a chunk boundary -----

  /** The last `n` characters of `raw` are a proper prefix of `tag`, case ignored. */
  predicate IsPartial(raw: string, tag: string, n: nat) {
    n < |tag| && n <= |raw| && Lower(raw)[|raw| - n..] == Lower(tag)[..n]
  }

  function LongestPartial(raw: string, tag: string, limit: nat): (n: nat)
    requires tag != ""
    ensures IsPartial(raw, tag, n) && n <= limit
    ensures forall m: nat :: m <= limit && IsPartial(raw, tag, m) ==> m <= n
  {
    if limit == 0 || IsPartial(raw, tag, limit) then limit else LongestPartial(raw, tag, limit - 1)
  }

  /** How many trailing characters a splitter must keep: the longest proper prefix of the tag. */
  function HeldBack(raw: string, tag: string): (n: nat)
    requires tag != ""
    ensures n < |tag| && n <= |raw|
    ensures IsPartial(raw, tag, n)
    ensures forall m: nat :: IsPartial(raw, tag, m) ==> m <= n
  {
    LongestPartial(raw, tag, |tag|)
  }

  /** Held-back text alone contains no whole tag. */
  lemma HeldHasNoTag(held: string, tag: string)
    requires |held| < |tag|
    ensures IndexFold(held, tag) == -1
  {
  }

  /**
   Once `raw` holds no tag, whatever follows, the first tag starts in the held-back
   part or later: everything before it is final.
   */
  lemma HoldIsEnough(raw: string, more: string, tag: string)
    requires tag != "" && IndexFold(raw, tag) < 0
    ensures var a := |raw| - HeldBack(raw, tag);
            IndexFold(raw + more, tag) == if IndexFold(raw[a..] + more, tag) < 0 then -1
                                          else a + IndexFold(raw[a..] + more, tag)
  {
    hide HeldBack, Index, Lower;
    var a := |raw| - HeldBack(raw, tag);
    LowerConcat(raw, more);
    CutInFirst(raw, more, a);
    LowerSlice(raw + more, a, |raw + more|);
    assert (raw + more)[a..|raw + more|] == (raw + more)[a..];
    assert Lower(raw + more)[a..|raw + more|] == Lower(raw + more)[a..];
    forall j | OccursAt(Lower(raw + more), Lower(tag), j)
      ensures j >= a
    {
      NoTagStartsEarly(raw, more, tag, j);
    }
    IndexFromCut(Lower(raw + more), a, Lower(tag));
  }

  /** If nothing starts before `a`, searching can start at `a`. */
  lemma IndexFromCut(s: string, a: nat, needle: string)
    requires a <= |s|
    requires forall j :: OccursAt(s, needle, j) ==> j >= a
    ensures Index(s, needle) == if Index(s[a..], needle) < 0 then -1 else a + Index(s[a..], needle)
  {
    hide IndexFrom, Index;
    var i, k := Index(s, needle), Index(s[a..], needle);
    assert s[a..|s|] == s[a..];
    SliceOccurrences(s, a, |s|, needle);
    assert k >= 0 ==> OccursAt(s, needle, a + k);
    assert i >= 0 ==> OccursAt(s[a..], needle, i - a);
  }

  /** A tag that starts in `raw` and runs past its end starts inside the held-back part. */
  lemma NoTagStartsEarly(raw: string, more: string, tag: string, j: int)
    requires tag != "" && IndexFold(raw, tag) < 0
    requires OccursAt(Lower(raw) + Lower(more), Lower(tag), j)
    ensures j >= |raw| - HeldBack(raw, tag)
  {
    var l := Lower(raw);
    assert (l + Lower(more))[0..|raw|] == l;
    SliceOccurrences(l + Lower(more), 0, |raw|, Lower(tag));
    if |raw| - |tag| < j < |raw| {
      var m := |raw| - j;
      assert l[j..] == (l + Lower(more))[j..j + |tag|][..m] == Lower(tag)[..m];
      assert IsPartial(raw, tag, m);
    }
  }

  /** Holding it back is also necessary: some continuation makes the held text part of a tag. */
  lemma HoldIsNeeded(raw: string, tag: string)
    requires tag != ""
    ensures var n := HeldBack(raw, tag);
            IndexFold(raw[|raw| - n..] + tag[n..], tag) == 0
  {
    var n := HeldBack(raw, tag);
    var held := raw[|raw| - n..];
    LowerSlice(raw, |raw| - n, |raw|);
    LowerConcat(held, tag[n..]);
    LowerSlice(tag, n, |tag|);
    assert Lower(held + tag[n..]) == Lower(tag);
    assert OccursAt(Lower(tag), Lower(tag), 0);
  }

  // ----- One streaming step -----

  /** Between calls: text not yet decided, hidden text of an open block, and the mode. */
  datatype State = State(buf: string, held: string, inside: bool) {
    ghost predicate Valid(tags: Tags) {
      && |buf| < |tags.Awaited(inside)|
      && IsPartial(buf, tags.Awaited(inside), |buf|)
      && (!inside ==> held == "")
    }
  }

  /** Where a stream starts: nothing pending. A new splitter starts outside a block. */
  function Start(inside: bool): State { State("", "", inside) }

  datatype Step = Step(out: Split, state: State)

  /** Process `raw` until it is used up; `held` is the hidden text of the current block. */
  function Drain(tags: Tags, inside: bool, held: string, raw: string): (r: Step)
    requires tags.Valid()
    requires !inside ==> held == ""
    ensures r.state.Valid(tags)
    decreases |raw|
  {
    var tag := tags.Awaited(inside);
    var i := IndexFold(raw, tag);
    if raw == "" then Step(Split("", ""), State("", held, inside))
    else if i >= 0 then
      var rest := Drain(tags, !inside, "", raw[i + |tag|..]);
      Step(Split.Of(inside, held + raw[..i]).Then(rest.out), rest.state)
    else
      var a := |raw| - HeldBack(raw, tag);
      assert Lower(raw[a..]) == Lower(raw)[a..];
      if inside then Step(Split("", ""), State(raw[a..], held + raw[..a], true))
      else Step(Split("", raw[..a]), State(raw[a..], "", false))
  }

  lemma DrainUnfolds(tags: Tags, inside: bool, held: string, raw: string)
    requires tags.Valid() && (!inside ==> held == "")
    ensures var tag := tags.Awaited(inside);
            var i := IndexFold(raw, tag);
            var a := |raw| - HeldBack(raw, tag);
            var r := Drain(tags, inside, held, raw);
            && (i >= 0 ==>
                var rest := Drain(tags, !inside, "", raw[i + |tag|..]);
                r == Step(Split.Of(inside, held + raw[..i]).Then(rest.out), rest.state))
            && (i < 0 && inside ==> r == Step(Split("", ""), State(raw[a..], held + raw[..a], true)))
            && (i < 0 && !inside ==> r == Step(Split("", raw[..a]), State(raw[a..], "", false)))
  {
    hide IndexFold, HeldBack, Split.Then, Split.Of, IsPartial;
    Empties(held);
    if raw == "" {
      HeldHasNoTag(raw, tags.Awaited(inside));
    }
  }

  /** Part-way through a step: with `out` done, draining `raw` completes `goal`. */
  ghost predicate Pending(tags: Tags, goal: Step, out: Split, inside: bool, held: string, raw: string)
    requires tags.Valid()
  {
    && (!inside ==> held == "")
    && var r := Drain(tags, inside, held, raw);
       goal == Step(out.Then(r.out), r.state)
  }

  lemma PendingFound(tags: Tags, goal: Step, out: Split, inside: bool, held: string, raw: string)
    requires tags.Valid() && Pending(tags, goal, out, inside, held, raw)
    requires IndexFold(raw, tags.Awaited(inside)) >= 0
    ensures var i := IndexFold(raw, tags.Awaited(inside));
            var out' := if inside then Split(out.hidden + (held + raw[..i]), out.visible)
                        else Split(out.hidden, out.visible + raw[..i]);
            Pending(tags, goal, out', !inside, "", raw[i + |tags.Awaited(inside)|..])
  {
    hide IndexFold, Drain;
    DrainUnfolds(tags, inside, held, raw);
    var i := IndexFold(raw, tags.Awaited(inside));
    var rest := Drain(tags, !inside, "", raw[i + |tags.Awaited(inside)|..]);
    ThenAssociates(out, Split.Of(inside, held + raw[..i]), rest.out);
    Empties(out.hidden);
    Empties(out.visible);
    Empties(raw[..i]);
  }

  lemma PendingLast(tags: Tags, goal: Step, out: Split, inside: bool, held: string, raw: string)
    requires tags.Valid() && Pending(tags, goal, out, inside, held, raw)
    requires IndexFold(raw, tags.Awaited(inside)) < 0
    ensures var a := |raw| - HeldBack(raw, tags.Awaited(inside));
            goal == if inside then Step(out, State(raw[a..], held + raw[..a], true))
                    else Step(Split(out.hidden, out.visible + raw[..a]), State(raw[a..], "", false))
  {
    hide IndexFold, Drain, HeldBack;
    DrainUnfolds(tags, inside, held, raw);
    Empties(out.hidden);
    Empties(out.visible);
  }

  lemma PendingDone(tags: Tags, goal: Step, out: Split, inside: bool, held: string)
    requires tags.Valid() && Pending(tags, goal, out, inside, held, "")
    ensures goal == Step(out, State("", held, inside))
  {
    Empties(out.hidden);
    Empties(out.visible);
  }

  lemma PendingStarts(tags: Tags, inside: bool, held: string, raw: string)
    requires tags.Valid() && (!inside ==> held == "")
    ensures Pending(tags, Drain(tags, inside, held, raw), Split("", ""), inside, held, raw)
  {
    hide Drain;
    ThenUnit(Drain(tags, inside, held, raw).out);
  }

  function Feed(tags: Tags, s: State, delta: string): (r: Step)
    requires tags.Valid() && s.Valid(tags)
    ensures r.state.Valid(tags)
  {
    if delta == "" then Step(Split("", ""), s) else Drain(tags, s.inside, s.held, s.buf + delta)
  }

  /** What the end of the stream releases. */
  function Finish(s: State): Split {
    if s.inside then Split(s.held + s.buf, "") else Split("", s.buf)
  }

  /** The outputs still to come from `s` if `more` is the rest of the stream. */
  function Resume(tags: Tags, s: State, more: string): Split
    requires tags.Valid()
  {
    Split(s.held, "").Then(OneShot(tags, s.inside, s.buf + more))
  }

  /** Emitted text is final: output so far and output to come always make the one-shot split. */
  lemma {:induction false} DrainIsFinal(tags: Tags, inside: bool, held: string, raw: string, more: string)
    requires tags.Valid()
    requires !inside ==> held == ""
    ensures var r := Drain(tags, inside, held, raw);
            r.out.Then(Resume(tags, r.state, more)) == Resume(tags, State(raw, held, inside), more)
    decreases |raw|
  {
    hide IndexFold, HeldBack, OneShot, Split.Then;
    var tag := tags.Awaited(inside);
    var i := IndexFold(raw, tag);
    if raw == "" {
      ThenUnit(Resume(tags, State("", held, inside), more));
    } else if i >= 0 {
      var rest := raw[i + |tag|..];
      var r := Drain(tags, !inside, "", rest);
      var first := Split.Of(inside, held + raw[..i]);
      var future := OneShot(tags, !inside, rest + more);
      calc {
        first.Then(r.out).Then(Resume(tags, r.state, more));
        { ThenAssociates(first, r.out, Resume(tags, r.state, more)); }
        first.Then(r.out.Then(Resume(tags, r.state, more)));
        { DrainIsFinal(tags, !inside, "", rest, more); }
        first.Then(Split("", "").Then(future));
        { ThenUnit(future); HeldThenOf(inside, held, raw[..i]); }
        Split(held, "").Then(Split.Of(inside, raw[..i])).Then(future);
        { ThenAssociates(Split(held, ""), Split.Of(inside, raw[..i]), future); }
        Split(held, "").Then(Split.Of(inside, raw[..i]).Then(future));
        { OneShotFound(tags, inside, raw, more); }
        Split(held, "").Then(OneShot(tags, inside, raw + more));
      }
    } else {
      var a := |raw| - HeldBack(raw, tag);
      var future := OneShot(tags, inside, raw[a..] + more);
      OneShotNotYet(tags, inside, raw, a, more);
      ThenAssociates(Split(held, ""), Split.Of(inside, raw[..a]), future);
      HeldThenOf(inside, held, raw[..a]);
      Empties(raw[..a]);
      ThenUnit(Split.Of(inside, held + raw[..a]).Then(future));
      ThenUnit(future);
    }
  }

  lemma HeldThenOf(inside: bool, held: string, text: string)
    requires !inside ==> held == ""
    ensures Split(held, "").Then(Split.Of(inside, text)) == Split.Of(inside, held + text)
  {
    Empties(text);
    Empties("");
  }

  lemma OneShotFound(tags: Tags, inside: bool, raw: string, more: string)
    requires tags.Valid() && IndexFold(raw, tags.Awaited(inside)) >= 0
    ensures var i := IndexFold(raw, tags.Awaited(inside));
            OneShot(tags, inside, raw + more) ==
            Split.Of(inside, raw[..i]).Then(OneShot(tags, !inside, raw[i + |tags.Awaited(inside)|..] + more))
  {
    hide IndexFold, Split.Then;
    var tag := tags.Awaited(inside);
    var i := IndexFold(raw, tag);
    IndexFoldStable(raw, more, tag);
    CutInFirst(raw, more, i);
    CutInFirst(raw, more, i + |tag|);
  }

  lemma IndexFoldStable(raw: string, more: string, tag: string)
    requires IndexFold(raw, tag) >= 0
    ensures IndexFold(raw + more, tag) == IndexFold(raw, tag)
  {
    LowerConcat(raw, more);
    IndexStable(Lower(raw), Lower(more), Lower(tag));
  }

  lemma OneShotNotYet(tags: Tags, inside: bool, raw: string, a: nat, more: string)
    requires tags.Valid() && IndexFold(raw, tags.Awaited(inside)) < 0
    requires a == |raw| - HeldBack(raw, tags.Awaited(inside))
    ensures OneShot(tags, inside, raw + more) ==
            Split.Of(inside, raw[..a]).Then(OneShot(tags, inside, raw[a..] + more))
  {
    hide IndexFold, HeldBack, Split.Then, OneShot;
    HoldIsEnough(raw, more, tags.Awaited(inside));
    Regroup(raw, more, a);
    OneShotSkips(tags, inside, raw[..a], raw[a..] + more);
  }

  /** If no tag starts in `early`, the split can start after it. */
  lemma OneShotSkips(tags: Tags, inside: bool, early: string, later: string)
    requires tags.Valid()
    requires var j := IndexFold(later, tags.Awaited(inside));
             IndexFold(early + later, tags.Awaited(inside)) == if j < 0 then -1 else |early| + j
    ensures OneShot(tags, inside, early + later) == Split.Of(inside, early).Then(OneShot(tags, inside, later))
  {
    hide IndexFold, Split.Then, OneShot, Split.Of;
    var tag := tags.Awaited(inside);
    var j := IndexFold(later, tag);
    OneShotUnfolds(tags, inside, early + later);
    OneShotUnfolds(tags, inside, later);
    if j < 0 {
      OfConcat(inside, early, later);
    } else {
      CutInSecond(early, later, j);
      CutInSecond(early, later, j + |tag|);
      OfConcat(inside, early, later[..j]);
      ThenAssociates(Split.Of(inside, early), Split.Of(inside, later[..j]), OneShot(tags, !inside, later[j + |tag|..]));
    }
  }

  lemma OneShotUnfolds(tags: Tags, inside: bool, text: string)
    requires tags.Valid()
    ensures var tag := tags.Awaited(inside);
            var i := IndexFold(text, tag);
            OneShot(tags, inside, text) ==
            if i < 0 then Split.Of(inside, text)
            else Split.Of(inside, text[..i]).Then(OneShot(tags, !inside, text[i + |tag|..]))
  {
    hide IndexFold, Split.Then, Split.Of;
  }

  lemma OfConcat(inside: bool, a: string, b: string)
    ensures Split.Of(inside, a + b) == Split.Of(inside, a).Then(Split.Of(inside, b))
  {
  }

  lemma ThenUnit(s: Split)
    ensures Split("", "").Then(s) == s
  {
    assert "" + s.hidden == s.hidden && "" + s.visible == s.visible;
  }

  // ----- Whole streams -----

  function Concat(deltas: seq<string>): string {
    if deltas == [] then "" else Concat(deltas[..|deltas| - 1]) + deltas[|deltas| - 1]
  }

  /** All outputs of feeding the deltas in turn, and the state reached. */
  function FeedAll(tags: Tags, inside: bool, deltas: seq<string>): (r: Step)
    requires tags.Valid()
    ensures r.state.Valid(tags)
  {
    if deltas == [] then Step(Split("", ""), Start(inside))
    else
      var before := FeedAll(tags, inside, deltas[..|deltas| - 1]);
      var last := Feed(tags, before.state, deltas[|deltas| - 1]);
      Step(before.out.Then(last.out), last.state)
  }

  lemma FeedNothing(tags: Tags, inside: bool)
    requires tags.Valid()
    ensures FeedAll(tags, inside, []) == Step(Split("", ""), Start(inside)) && Start(inside).Valid(tags)
  {
  }

  lemma FeedUnfolds(tags: Tags, s: State, delta: string)
    requires tags.Valid() && s.Valid(tags)
    ensures Feed(tags, s, delta) ==
            if delta == "" then Step(Split("", ""), s) else Drain(tags, s.inside, s.held, s.buf + delta)
  {
    hide Drain;
  }

  lemma FeedAllUnfolds(tags: Tags, inside: bool, deltas: seq<string>, delta: string)
    requires tags.Valid()
    ensures var before := FeedAll(tags, inside, deltas);
            var last := Feed(tags, before.state, delta);
            FeedAll(tags, inside, deltas + [delta]) == Step(before.out.Then(last.out), last.state)
  {
    hide Feed, Split.Then;
    assert (deltas + [delta])[..|deltas + [delta]| - 1] == deltas;
  }

  /** At every point of a stream: output so far, then the rest, is the one-shot split. */
  lemma {:induction false} StreamInvariant(tags: Tags, inside: bool, deltas: seq<string>, more: string)
    requires tags.Valid()
    ensures var r := FeedAll(tags, inside, deltas);
            r.out.Then(Resume(tags, r.state, more)) == OneShot(tags, inside, Concat(deltas) + more)
    decreases |deltas|
  {
    hide OneShot, Resume, Feed, FeedAll, Concat, Split.Then;
    if deltas == [] {
      FeedNothing(tags, inside);
      ConcatUnfolds(deltas);
      ResumeAtStart(tags, inside, more);
      ThenUnit(OneShot(tags, inside, "" + more));
    } else {
      var init, last := deltas[..|deltas| - 1], deltas[|deltas| - 1];
      var before := FeedAll(tags, inside, init);
      var f := Feed(tags, before.state, last);
      assert deltas == init + [last];
      FeedAllUnfolds(tags, inside, init, last);
      ConcatUnfolds(deltas);
      calc {
        before.out.Then(f.out).Then(Resume(tags, f.state, more));
        { ThenAssociates(before.out, f.out, Resume(tags, f.state, more)); }
        before.out.Then(f.out.Then(Resume(tags, f.state, more)));
        { FeedIsFinal(tags, before.state, last, more); }
        before.out.Then(Resume(tags, before.state, last + more));
        { StreamInvariant(tags, inside, init, last + more); }
        OneShot(tags, inside, Concat(init) + (last + more));
        { assert Concat(init) + (last + more) == (Concat(init) + last) + more; }
        OneShot(tags, inside, Concat(deltas) + more);
      }
    }
  }

  lemma ConcatUnfolds(deltas: seq<string>)
    ensures Concat(deltas) == if deltas == [] then "" else Concat(deltas[..|deltas| - 1]) + deltas[|deltas| - 1]
  {
  }

  lemma ResumeAtStart(tags: Tags, inside: bool, more: string)
    requires tags.Valid()
    ensures Resume(tags, Start(inside), more) == OneShot(tags, inside, "" + more)
  {
    hide OneShot;
    ThenUnit(OneShot(tags, inside, "" + more));
  }

  lemma FeedIsFinal(tags: Tags, s: State, delta: string, more: string)
    requires tags.Valid() && s.Valid(tags)
    ensures var f := Feed(tags, s, delta);
            f.out.Then(Resume(tags, f.state, more)) == Resume(tags, s, delta + more)
  {
    assert s.buf + (delta + more) == (s.buf + delta) + more;
    if delta == "" {
      assert delta + more == more;
      ThenUnit(Resume(tags, s, more));
    } else {
      DrainIsFinal(tags, s.inside, s.held, s.buf + delta, more);
    }
  }

  /** A step is final for every continuation of the stream. */
  ghost predicate IsFinal(tags: Tags, s: State, delta: string, r: Step)
    requires tags.Valid() && s.Valid(tags) && r.state.Valid(tags)
  {
    forall more :: r.out.Then(Resume(tags, r.state, more)) == Resume(tags, s, delta + more)
  }

  lemma FeedIsAlwaysFinal(tags: Tags, s: State, delta: string)
    requires tags.Valid() && s.Valid(tags)
    ensures IsFinal(tags, s, delta, Feed(tags, s, delta))
  {
    hide Feed, Resume, Split.Then;
    forall more
      ensures var r := Feed(tags, s, delta);
              r.out.Then(Resume(tags, r.state, more)) == Resume(tags, s, delta + more)
    {
      FeedIsFinal(tags, s, delta, more);
    }
  }

  /** Hidden text comes whole: without a closing tag in the text at hand none is output. */
  lemma {:induction false} HiddenWaitsForClose(tags: Tags, inside: bool, held: string, raw: string)
    requires tags.Valid() && (!inside ==> held == "") && !ContainsFold(raw, tags.close)
    ensures Drain(tags, inside, held, raw).out.hidden == ""
    decreases |raw|
  {
    hide IndexFold, HeldBack, Drain, ContainsFold;
    var i := IndexFold(raw, tags.Awaited(inside));
    DrainUnfolds(tags, inside, held, raw);
    if i >= 0 {
      if inside {
        IndexFoldAbsent(raw, tags.close);
      } else {
        RestLacks(raw, i + |tags.open|, tags.close);
        HiddenWaitsForClose(tags, true, "", raw[i + |tags.open|..]);
      }
    }
  }

  lemma RestLacks(raw: string, n: nat, tag: string)
    requires n <= |raw| && !ContainsFold(raw, tag)
    ensures !ContainsFold(raw[n..], tag)
  {
    hide ContainsFold;
    assert raw[n..|raw|] == raw[n..];
    if ContainsFold(raw[n..], tag) {
      SliceContainsFold(raw, n, |raw|, tag);
    }
  }

  lemma ThenAssociates(a: Split, b: Split, c: Split)
    ensures a.Then(b).Then(c) == a.Then(b.Then(c))
  {
    assert (a.hidden + b.hidden) + c.hidden == a.hidden + (b.hidden + c.hidden);
    assert (a.visible + b.visible) + c.visible == a.visible + (b.visible + c.visible);
  }

  lemma FinishIsResume(tags: Tags, s: State)
    requires tags.Valid() && s.Valid(tags)
    ensures Finish(s) == Resume(tags, s, "")
  {
    assert s.buf + "" == s.buf;
    HeldHasNoTag(s.buf, tags.Awaited(s.inside));
  }

  /**
   However a text is cut into deltas, the stream ends with the one-shot split of the text;
   so two ways to cut the same text never differ in what they output.
   */
  lemma ChunkIndependence(tags: Tags, inside: bool, deltas: seq<string>)
    requires tags.Valid()
    ensures var r := FeedAll(tags, inside, deltas);
            r.out.Then(Finish(r.state)) == OneShot(tags, inside, Concat(deltas))
  {
    StreamInvariant(tags, inside, deltas, "");
    FinishIsResume(tags, FeedAll(tags, inside, deltas).state);
    assert Concat(deltas) + "" == Concat(deltas);
  }

  /** At every point of a stream no byte is lost: pushed = emitted + held + matched tags. */
  lemma NothingLost(tags: Tags, inside: bool, deltas: seq<string>)
    requires tags.Valid()
    ensures var r := FeedAll(tags, inside, deltas);
            |Concat(deltas)| == |r.out.hidden| + |r.out.visible| + |r.state.buf| + |r.state.held|
                              + TagBytes(Cut(tags, inside, Concat(deltas)))
  {
    hide OneShot, Cut, Glue, HiddenOf, VisibleOf, TagBytes, FeedAll, Concat;
    var r := FeedAll(tags, inside, deltas);
    assert |r.out.Then(Finish(r.state)).hidden| + |r.out.Then(Finish(r.state)).visible| ==
           |r.out.hidden| + |r.out.visible| + |r.state.buf| + |r.state.held|;
    ChunkIndependence(tags, inside, deltas);
    OneShotIsCut(tags, inside, Concat(deltas));
    CutIsWhole(tags, inside, Concat(deltas));
    PiecesWeigh(Cut(tags, inside, Concat(deltas)));
  }

  /**
   Nothing is emitted too early and nothing too late: for the text held in the buffer
   there is a continuation in which every one of its bytes belongs to a tag.
   */
  lemma HeldTextIsUndecided(tags: Tags, inside: bool, deltas: seq<string>)
    requires tags.Valid()
    ensures var r := FeedAll(tags, inside, deltas);
            var tag := tags.Awaited(r.state.inside);
            var more := tag[|r.state.buf|..];
            && |r.state.buf| < |tag|
            && OneShot(tags, inside, Concat(deltas) + more) == r.out.Then(Split(r.state.held, ""))
  {
    hide IndexFold, HeldBack, OneShot;
    var r := FeedAll(tags, inside, deltas);
    var tag := tags.Awaited(r.state.inside);
    var more := tag[|r.state.buf|..];
    StreamInvariant(tags, inside, deltas, more);
    OneTagVanishes(tags, r.state);
  }

  lemma OneTagVanishes(tags: Tags, s: State)
    requires tags.Valid() && s.Valid(tags)
    ensures Resume(tags, s, tags.Awaited(s.inside)[|s.buf|..]) == Split(s.held, "")
  {
    hide IndexFold, OneShot, HeldBack;
    var tag := tags.Awaited(s.inside);
    var n := |s.buf|;
    assert HeldBack(s.buf, tag) == n;
    HoldIsNeeded(s.buf, tag);
    assert s.buf[n - n..] == s.buf;
    var whole := s.buf + tag[n..];
    assert |whole| == |tag|;
    assert whole[..0] == "" && whole[|tag|..] == "";
    OneShotUnfolds(tags, s.inside, whole);
    OneShotUnfolds(tags, !s.inside, "");
  }
}
