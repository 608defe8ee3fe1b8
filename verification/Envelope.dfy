/**
 Envelope tags: a printer, a parser, and exactly when they are inverse.

 A payload is printed between `<name>` and `</name>` inside free text and is read back
 from the leftmost opening tag up to the first closing tag behind it.
 */
module Envelopes {
  import opened Text

  datatype Option<T> = None | Some(value: T)

  // ----- The registry -----

  datatype Profile = Envelope | LineField | LineFrame | WholeBody

  const REGISTERED: set<string> :=
    {"scope_contract", "deliverable_contract", "deliverable_schema", "prior_verify_reason", "open_questions"}

  function Lookup(name: string): Option<Profile> {
    if name !in REGISTERED then None
    else if name == "open_questions" then Some(LineField)
    else Some(Envelope)
  }

  predicate TagAppliesToPhase(name: string, phase: string) {
    phase == "" || (name in REGISTERED && (phase == "execute" || (phase == "verify" && name == "prior_verify_reason")))
  }

  function Open(name: string): string { "<" + name + ">" }

  function Close(name: string): string { "</" + name + ">" }

  // ----- Lines -----

  /** `strings.Join(lines, "\n")`. */
  function JoinLines(lines: seq<string>): string {
    if lines == [] then "" else if |lines| == 1 then lines[0] else lines[0] + "\n" + JoinLines(lines[1..])
  }

  /** `strings.Split(s, "\n")`. */
  function Split(s: string): (pieces: seq<string>)
    ensures pieces != []
    decreases |s|
  {
    var i := Index(s, "\n");
    if i < 0 then [s] else [s[..i]] + Split(s[i + 1..])
  }

  /** The lines that are not blank, trimmed, in order. */
  function NonBlank(lines: seq<string>): seq<string> {
    if lines == [] then []
    else
      var last := TrimSpace(lines[|lines| - 1]);
      NonBlank(lines[..|lines| - 1]) + if last == "" then [] else [last]
  }

  lemma NothingIsNonBlank()
    ensures NonBlank([]) == []
  {
  }

  lemma NonBlankNext(lines: seq<string>, i: nat)
    requires i < |lines|
    ensures lines[..0] == []
    ensures var s := TrimSpace(lines[i]); NonBlank(lines[..i + 1]) == NonBlank(lines[..i]) + if s == "" then [] else [s]
  {
    assert lines[..i + 1][..i] == lines[..i];
  }

  /** `splitNonEmptyLines`. */
  method SplitNonEmptyLines(raw: string) returns (out: seq<string>)
    ensures out == NonBlank(Split(raw))
  {
    hide Split, NonBlank, TrimSpace;
    NothingIsNonBlank();
    var lines := Split(raw);
    out := [];
    assert lines[..0] == [];
    for i := 0 to |lines|
      invariant out == NonBlank(lines[..i])
    {
      NonBlankNext(lines, i);
      var s := TrimSpace(lines[i]);
      if s != "" {
        out := out + [s];
      }
    }
    Ends(lines);
  }

  // ----- Printing -----

  /** What can be printed; `Record` stands for a value of any other type, in some canonical form. */
  datatype Value = Lines(lines: seq<string>) | Text(text: string) | Record(content: string)

  /** What the caller of `ExtractOne` asks for. */
  datatype Want = WantLines | WantText | WantRecord

  /** `json.Marshal` and `json.Unmarshal`; `None` is an error. */
  datatype Json = Json(marshal: Value -> Option<string>, unmarshal: (Want, string) -> Option<Value>)

  function Encoded(json: Json, profile: Profile, v: Value): Option<string> {
    match (profile, v)
    case (LineField, Lines(lines)) => if NonBlank(lines) == [] then None else Some(JoinLines(NonBlank(lines)))
    case (Envelope, Text(text)) => if TrimSpace(text) == "" then None else Some(TrimSpace(text))
    case (Envelope, _) => if json.marshal(v) == Some("null") then None else json.marshal(v)
    case _ => None
  }

  /** `encodePayload`. */
  method EncodePayload(json: Json, profile: Profile, v: Value) returns (payload: Option<string>)
    ensures payload == Encoded(json, profile, v)
  {
    hide NonBlank, JoinLines, TrimSpace, Trimmed;
    NothingIsNonBlank();
    match profile
    case LineField =>
      if !v.Lines? { return None; }
      var lines := v.lines;
      var trimmed: seq<string> := [];
      assert lines[..0] == [];
      for i := 0 to |lines|
        invariant trimmed == NonBlank(lines[..i])
      {
        NonBlankNext(lines, i);
        var s := TrimSpace(lines[i]);
        if s != "" {
          trimmed := trimmed + [s];
        }
      }
      Ends(lines);
      if |trimmed| == 0 { return None; }
      return Some(JoinLines(trimmed));
    case Envelope =>
      if v.Text? {
        var s := TrimSpace(v.text);
        if s == "" { return None; }
        return Some(s);
      }
      var b := json.marshal(v);
      if b.None? { return None; }
      if b.value == "null" { return None; }
      return b;
    case _ =>
      return None;
  }

  function Wrapped(json: Json, name: string, v: Value): string {
    var profile := Lookup(name);
    if profile.None? then ""
    else
      var payload := Encoded(json, profile.value, v);
      if payload.None? || payload.value == "" then "" else Open(name) + payload.value + Close(name)
  }

  method Wrap(json: Json, name: string, v: Value) returns (block: string)
    ensures block == Wrapped(json, name, v)
  {
    var profile := Lookup(name);
    if profile.None? || profile.value == WholeBody { return ""; }
    var payload := EncodePayload(json, profile.value, v);
    if payload.None? || payload.value == "" { return ""; }
    return Open(name) + payload.value + Close(name);
  }

  // ----- Parsing -----

  datatype Span = Span(open: int, close: int)

  /** A match of the tag's pattern: an opening tag, any text, a closing tag. */
  ghost predicate IsMatch(name: string, content: string, m: Span) {
    OccursAt(content, Open(name), m.open) && m.open + |Open(name)| <= m.close && OccursAt(content, Close(name), m.close)
  }

  /** The pattern match of `extractRawEnvelope`: the leftmost opening tag, then the shortest text. */
  function FindEnvelope(name: string, content: string): (m: Option<Span>)
    ensures m.None? <==> forall n :: !IsMatch(name, content, n)
    ensures m.Some? ==> IsMatch(name, content, m.value)
    ensures m.Some? ==> forall n :: IsMatch(name, content, n) ==>
                          m.value.open < n.open || (m.value.open == n.open && m.value.close <= n.close)
  {
    var o := Index(content, Open(name));
    if o < 0 then None
    else
      var c := IndexFrom(content, Close(name), o + |Open(name)|);
      if c < 0 then None
      else
        assert IsMatch(name, content, Span(o, c));
        Some(Span(o, c))
  }

  /** `extractRawEnvelope`. */
  function RawEnvelope(name: string, content: string): Option<string> {
    var m := FindEnvelope(name, content);
    if m.None? then None
    else
      var raw := TrimSpace(content[m.value.open + |Open(name)|..m.value.close]);
      if raw == "" then None else Some(raw)
  }

  function Decoded(json: Json, profile: Profile, want: Want, raw: string): Option<Value> {
    var text := TrimSpace(raw);
    if text == "" then None
    else
      match (profile, want)
      case (LineField, WantLines) => if NonBlank(Split(text)) == [] then None else Some(Lines(NonBlank(Split(text))))
      case (Envelope, WantText) => Some(Text(text))
      case (Envelope, _) => json.unmarshal(want, text)
      case _ => None
  }

  /** `decodePayload`. */
  method DecodePayload(json: Json, profile: Profile, want: Want, raw: string) returns (v: Option<Value>)
    ensures v == Decoded(json, profile, want, raw)
  {
    var text := TrimSpace(raw);
    if text == "" { return None; }
    match profile
    case LineField =>
      var lines := SplitNonEmptyLines(text);
      if |lines| == 0 { return None; }
      return if want == WantLines then Some(Lines(lines)) else None;
    case Envelope =>
      return if want == WantText then Some(Text(text)) else json.unmarshal(want, text);
    case _ =>
      return None;
  }

  function Extracted(json: Json, name: string, want: Want, content: string): Option<Value> {
    var profile := Lookup(name);
    if profile.None? then None
    else
      var raw := RawEnvelope(name, content);
      if raw.None? then None else Decoded(json, profile.value, want, raw.value)
  }

  method ExtractOne(json: Json, name: string, want: Want, content: string) returns (v: Option<Value>)
    ensures v == Extracted(json, name, want, content)
  {
    var profile := Lookup(name);
    if profile.None? { return None; }
    var raw := RawEnvelope(name, content);
    if raw.None? { return None; }
    v := DecodePayload(json, profile.value, want, raw.value);
  }

  /** Every registered tag that applies to the phase and is in the text, in any order of the walk. */
  method ExtractAll(content: string, phase: string) returns (out: map<string, string>)
    ensures forall name ::
              name in out <==> name in REGISTERED && TagAppliesToPhase(name, phase) && RawEnvelope(name, content).Some?
    ensures forall name :: name in out ==> RawEnvelope(name, content) == Some(out[name])
  {
    hide REGISTERED, TagAppliesToPhase, RawEnvelope;
    out := map[];
    var rest := REGISTERED;
    while rest != {}
      invariant rest <= REGISTERED
      invariant forall name ::
                  name in out <==>
                  name in REGISTERED - rest && TagAppliesToPhase(name, phase) && RawEnvelope(name, content).Some?
      invariant forall name :: name in out ==> RawEnvelope(name, content) == Some(out[name])
      decreases rest
    {
      var name :| name in rest;
      rest := rest - {name};
      if TagAppliesToPhase(name, phase) {
        var raw := RawEnvelope(name, content);
        if raw.Some? {
          out := out[name := raw.value];
        }
      }
    }
  }

  // ----- Where the tags are found again -----

  /** Its only `<` is in front, so a tag cannot begin in one piece of text and end in a next that starts with `<`. */
  predicate LeadsWithAngle(tag: string) {
    |tag| > 0 && tag[0] == '<' && forall k :: 1 <= k < |tag| ==> tag[k] != '<'
  }

  lemma TagsLead(name: string)
    requires name in REGISTERED
    ensures LeadsWithAngle(Open(name)) && LeadsWithAngle(Close(name))
    ensures forall k :: 0 <= k < |Close(name)| ==> Close(name)[k] != '\n'
  {
    assert forall k :: 0 <= k < |name| ==> name[k] != '<' && name[k] != '\n';
  }

  lemma OccurrenceChar(s: string, tag: string, i: nat, k: nat)
    requires OccursAt(s, tag, i) && k < |tag|
    ensures s[i + k] == tag[k]
  {
    assert s[i..i + |tag|][k] == s[i + k];
  }

  lemma NoStraddling(a: string, b: string, tag: string, i: nat)
    requires LeadsWithAngle(tag) && b != "" && b[0] == '<'
    requires OccursAt(a + b, tag, i) && i < |a|
    ensures i + |tag| <= |a| && OccursAt(a, tag, i)
  {
    var s := a + b;
    if i + |tag| > |a| {
      OccurrenceChar(s, tag, i, |a| - i);
    }
    assert s[i..i + |tag|] == a[i..i + |tag|];
  }

  /** How much of a payload is read back: all of it, unless it contains the closing tag. */
  function ReadBack(payload: string, close: string): (c: nat)
    requires LeadsWithAngle(close)
    ensures c <= |payload|
    ensures c == |payload| <==> !Contains(payload, close)
  {
    var c := Index(payload, close);
    if c < 0 then |payload| else c
  }

  lemma FirstOpen(prefix: string, open: string, rest: string)
    requires LeadsWithAngle(open) && !Contains(prefix, open)
    ensures Index(prefix + (open + rest), open) == |prefix|
  {
    var s := prefix + (open + rest);
    assert OccursAt(s, open, |prefix|) by { assert s[|prefix|..|prefix| + |open|] == open; }
    var i := Index(s, open);
    if i < |prefix| {
      NoStraddling(prefix, open + rest, open, i);
    }
  }

  lemma FirstClose(payload: string, close: string, suffix: string)
    requires LeadsWithAngle(close)
    ensures Index(payload + (close + suffix), close) == ReadBack(payload, close)
  {
    var s := payload + (close + suffix);
    assert OccursAt(s, close, |payload|) by { assert s[|payload|..|payload| + |close|] == close; }
    if Contains(payload, close) {
      IndexStable(payload, close + suffix, close);
    } else {
      var i := Index(s, close);
      if i < |payload| {
        NoStraddling(payload, close + suffix, close, i);
      }
    }
  }

  lemma OccurrencesBehind(head: string, tail: string, needle: string)
    ensures forall i {:trigger OccursAt(tail, needle, i)} ::
              OccursAt(tail, needle, i) ==> OccursAt(head + tail, needle, |head| + i)
    ensures forall i {:trigger OccursAt(head + tail, needle, i)} ::
              |head| <= i && OccursAt(head + tail, needle, i) ==> OccursAt(tail, needle, i - |head|)
  {
    hide OccursAt;
    var s := head + tail;
    assert s[|head|..|s|] == tail;
    SliceOccurrences(s, |head|, |s|, needle);
    assert forall i :: OccursAt(s, needle, i) ==> i + |needle| <= |s| by { OccurrencesFit(s, needle); }
  }

  lemma OccurrencesFit(s: string, needle: string)
    ensures forall i :: OccursAt(s, needle, i) ==> i + |needle| <= |s|
  {
  }

  lemma IndexBehind(head: string, tail: string, needle: string)
    requires Index(tail, needle) >= 0
    ensures IndexFrom(head + tail, needle, |head|) == |head| + Index(tail, needle)
  {
    hide OccursAt, Index, IndexFrom;
    OccurrencesBehind(head, tail, needle);
    assert OccursAt(head + tail, needle, |head| + Index(tail, needle));
  }

  function Content(name: string, prefix: string, payload: string, suffix: string): string {
    prefix + (Open(name) + (payload + (Close(name) + suffix)))
  }

  lemma BlockIsFound(name: string, prefix: string, payload: string, suffix: string)
    requires LeadsWithAngle(Open(name)) && LeadsWithAngle(Close(name)) && !Contains(prefix, Open(name))
    ensures var start := |prefix| + |Open(name)|;
            FindEnvelope(name, Content(name, prefix, payload, suffix))
            == Some(Span(|prefix|, start + ReadBack(payload, Close(name))))
  {
    hide LeadsWithAngle, Index, IndexFrom, ReadBack, Open, Close, Contains, OccursAt;
    var open, close := Open(name), Close(name);
    var tail := payload + (close + suffix);
    FirstOpen(prefix, open, tail);
    FirstClose(payload, close, suffix);
    assert Content(name, prefix, payload, suffix) == (prefix + open) + tail;
    IndexBehind(prefix + open, tail, close);
  }

  lemma SliceOfThree(a: string, b: string, c: string, d: string, n: nat)
    requires n <= |c|
    ensures (a + (b + (c + d)))[|a| + |b|..|a| + |b| + n] == c[..n]
  {
  }

  /** The block that is read is the one that was printed, up to a closing tag inside its payload. */
  lemma RawIsPayload(name: string, prefix: string, payload: string, suffix: string)
    requires name in REGISTERED && !Contains(prefix, Open(name))
    ensures LeadsWithAngle(Close(name))
    ensures var raw := TrimSpace(payload[..ReadBack(payload, Close(name))]);
            RawEnvelope(name, Content(name, prefix, payload, suffix)) == if raw == "" then None else Some(raw)
  {
    hide REGISTERED, LeadsWithAngle, ReadBack, FindEnvelope, TrimSpace, Open, Close;
    TagsLead(name);
    BlockIsFound(name, prefix, payload, suffix);
    SliceOfThree(prefix, Open(name), payload, Close(name) + suffix, ReadBack(payload, Close(name)));
  }

  // ----- Trimming and splitting lose only white space -----

  function NonSpaceOf(lines: seq<string>): string {
    if lines == [] then "" else NonSpace(lines[0]) + NonSpaceOf(lines[1..])
  }

  lemma {:induction false} NonSpaceOfConcat(a: seq<string>, b: seq<string>)
    ensures NonSpaceOf(a + b) == NonSpaceOf(a) + NonSpaceOf(b)
  {
    if a == [] {
      Empties(b);
      Empties(NonSpaceOf(b));
    } else {
      assert (a + b)[1..] == a[1..] + b;
      NonSpaceOfConcat(a[1..], b);
    }
  }

  lemma NonSpaceOfOne(line: string)
    ensures NonSpaceOf([line]) == NonSpace(line) && NonSpaceOf([]) == ""
  {
    Empties(NonSpace(line));
  }

  /** The non-blank lines hold the same visible characters, in the same order. */
  lemma {:induction false} NonBlankKeepsText(lines: seq<string>)
    ensures NonSpaceOf(NonBlank(lines)) == NonSpaceOf(lines)
  {
    hide NonBlank, TrimSpace, NonSpace, NonSpaceOf;
    NothingIsNonBlank();
    if lines != [] {
      var n := |lines| - 1;
      var last := TrimSpace(lines[n]);
      TwoParts(lines, n);
      assert lines[n..] == [lines[n]];
      Ends(lines);
      NonBlankNext(lines, n);
      NonSpaceOfConcat(lines[..n], [lines[n]]);
      NonSpaceOfConcat(NonBlank(lines[..n]), if last == "" then [] else [last]);
      NonBlankKeepsText(lines[..n]);
      NonSpaceTrim(lines[n]);
      NonSpaceOfOne(lines[n]);
      NonSpaceOfOne(last);
      NonSpaceOfSpace("");
    }
  }

  lemma {:induction false} SplitKeepsText(s: string)
    ensures NonSpaceOf(Split(s)) == NonSpace(s)
    decreases |s|
  {
    hide Split, Index, NonSpace, NonSpaceOf;
    var i := Index(s, "\n");
    SplitUnfolds(s);
    NoNewline(s);
    if i < 0 {
      NonSpaceOfOne(s);
    } else {
      var rest := s[i + 1..];
      SplitKeepsText(rest);
      NonSpaceOfConcat([s[..i]], Split(rest));
      NonSpaceOfOne(s[..i]);
      NewlineParts(s);
      NonSpaceConcat(s[..i], "\n" + rest);
      NonSpaceConcat("\n", rest);
      NonSpaceOfSpace("\n");
      Empties(NonSpace(rest));
    }
  }

  lemma {:induction false} JoinKeepsText(lines: seq<string>)
    ensures NonSpace(JoinLines(lines)) == NonSpaceOf(lines)
  {
    hide NonSpace, NonSpaceOf;
    if lines == [] {
      NonSpaceOfSpace("");
      NonSpaceOfOne("");
    } else if |lines| == 1 {
      assert lines == [lines[0]];
      NonSpaceOfOne(lines[0]);
    } else {
      var rest := lines[1..];
      JoinKeepsText(rest);
      JoinFirst(lines);
      NonSpaceConcat(lines[0], "\n" + JoinLines(rest));
      NonSpaceConcat("\n", JoinLines(rest));
      NonSpaceOfSpace("\n");
      Empties(NonSpaceOf(rest));
      NonSpaceOfConcat([lines[0]], rest);
      NonSpaceOfOne(lines[0]);
      assert lines == [lines[0]] + rest;
    }
  }

  // ----- Lines are found again -----

  lemma {:induction false} NonBlankConcat(a: seq<string>, b: seq<string>)
    ensures NonBlank(a + b) == NonBlank(a) + NonBlank(b)
    decreases |b|
  {
    hide NonBlank, TrimSpace;
    NothingIsNonBlank();
    if b == [] {
      Empties(a);
      Empties(NonBlank(a));
    } else {
      var n := |b| - 1;
      NonBlankConcat(a, b[..n]);
      NonBlankNext(b, n);
      NonBlankNext(a + b, |a| + n);
      CutInSecond(a, b, n);
      Ends(b);
      Ends(a + b);
    }
  }

  lemma NoNewline(s: string)
    ensures Index(s, "\n") < |s|
    ensures Index(s, "\n") < 0 <==> !Contains(s, "\n")
  {
  }

  lemma NewlineParts(s: string)
    requires Index(s, "\n") >= 0
    ensures var i := Index(s, "\n"); i < |s| && s == s[..i] + ("\n" + s[i + 1..])
  {
  }

  lemma NewlineAt(s: string, t: string)
    requires !Contains(s, "\n")
    ensures Index(s + ("\n" + t), "\n") == |s|
  {
    var all := s + ("\n" + t);
    assert OccursAt(all, "\n", |s|);
    var i := Index(all, "\n");
    assert i < |s| ==> OccursAt(s, "\n", i);
  }

  lemma SplitUnfolds(s: string)
    ensures var i := Index(s, "\n"); Split(s) == if i < 0 then [s] else [s[..i]] + Split(s[i + 1..])
  {
  }

  lemma {:induction false} SplitConcat(s: string, t: string)
    ensures Split(s + ("\n" + t)) == Split(s) + Split(t)
    decreases |s|
  {
    hide Split, Index, OccursAt, Contains;
    var all := s + ("\n" + t);
    var i := Index(s, "\n");
    NoNewline(s);
    SplitUnfolds(s);
    SplitUnfolds(all);
    if i < 0 {
      NewlineAt(s, t);
      assert all[..|s|] == s && all[|s| + 1..] == t;
    } else {
      IndexStable(s, "\n" + t, "\n");
      assert all[..i] == s[..i] && all[i + 1..] == s[i + 1..] + ("\n" + t);
      SplitConcat(s[i + 1..], t);
    }
  }

  function LinesOf(s: string): seq<string> { NonBlank(Split(s)) }

  /** A trimmed line comes back as itself, or in at least two pieces if it has a newline inside. */
  lemma PiecesOfLine(line: string)
    requires Trimmed(line) && line != ""
    ensures !Contains(line, "\n") ==> LinesOf(line) == [line]
    ensures Contains(line, "\n") ==> |LinesOf(line)| >= 2
  {
    hide Index, NonSpace, TrimSpace, Contains;
    var i := Index(line, "\n");
    NoNewline(line);
    SplitUnfolds(line);
    if i < 0 {
      TrimmedIsFixed(line);
      assert NonBlank([line]) == [line];
    } else {
      var first, rest := line[..i], line[i + 1..];
      NewlineParts(line);
      NonSpaceAt(first, 0);
      NonSpaceAt(rest, |rest| - 1);
      SomeLines([first]);
      NonSpaceOfOne(first);
      SplitKeepsText(rest);
      SomeLines(Split(rest));
      NonBlankConcat([first], Split(rest));
    }
  }

  lemma SomeLines(lines: seq<string>)
    ensures NonBlank(lines) == [] ==> NonSpaceOf(lines) == ""
  {
    NonBlankKeepsText(lines);
  }

  ghost predicate NoneContains(lines: seq<string>, needle: string) {
    forall k :: 0 <= k < |lines| ==> !Contains(lines[k], needle)
  }

  ghost predicate Proper(lines: seq<string>) {
    forall k :: 0 <= k < |lines| ==> Trimmed(lines[k]) && lines[k] != ""
  }

  lemma {:induction false} NonBlankIsProper(lines: seq<string>)
    ensures Proper(NonBlank(lines))
  {
    if lines != [] {
      NonBlankIsProper(lines[..|lines| - 1]);
    }
  }

  lemma NoneContainsFirst(lines: seq<string>, needle: string)
    requires lines != []
    ensures NoneContains(lines, needle) <==> !Contains(lines[0], needle) && NoneContains(lines[1..], needle)
  {
    hide Contains;
    assert lines == [lines[0]] + lines[1..];
  }

  lemma JoinFirst(lines: seq<string>)
    requires |lines| > 1
    ensures JoinLines(lines) == lines[0] + ("\n" + JoinLines(lines[1..]))
  {
  }

  lemma LinesOfTwo(s: string, t: string)
    ensures LinesOf(s + ("\n" + t)) == LinesOf(s) + LinesOf(t)
  {
    SplitConcat(s, t);
    NonBlankConcat(Split(s), Split(t));
  }

  /** Joined lines come back exactly if none has a newline inside; otherwise there are more of them. */
  lemma {:induction false} PiecesOfJoin(lines: seq<string>)
    requires Proper(lines) && lines != []
    ensures NoneContains(lines, "\n") ==> LinesOf(JoinLines(lines)) == lines
    ensures |LinesOf(JoinLines(lines))| >= |lines|
    ensures !NoneContains(lines, "\n") ==> |LinesOf(JoinLines(lines))| > |lines|
  {
    hide LinesOf, NoneContains, Contains, Trimmed;
    PiecesOfLine(lines[0]);
    NoneContainsFirst(lines, "\n");
    assert lines == [lines[0]] + lines[1..];
    if |lines| == 1 {
      NoLinesContainNothing("\n");
    } else {
      PiecesOfJoin(lines[1..]);
      JoinFirst(lines);
      LinesOfTwo(lines[0], JoinLines(lines[1..]));
    }
  }

  lemma NoLinesContainNothing(needle: string)
    ensures NoneContains([], needle)
  {
  }

  lemma {:induction false} JoinIsTrimmed(lines: seq<string>)
    requires Proper(lines) && lines != []
    ensures Trimmed(JoinLines(lines)) && JoinLines(lines) != ""
  {
    if |lines| > 1 {
      JoinIsTrimmed(lines[1..]);
    }
  }

  lemma ContainsAcrossNewline(a: string, b: string, needle: string)
    requires needle != "" && !Contains(needle, "\n")
    ensures Contains(a + ("\n" + b), needle) <==> Contains(a, needle) || Contains(b, needle)
  {
    hide OccursAt;
    var s := a + ("\n" + b);
    assert s[0..|a|] == a;
    assert s == (a + "\n") + b;
    SliceOccurrences(s, 0, |a|, needle);
    OccurrencesBehind(a + "\n", b, needle);
    if i :| OccursAt(a, needle, i) {
      assert OccursAt(s, needle, 0 + i);
    }
    if i :| OccursAt(b, needle, i) {
      assert OccursAt(s, needle, |a| + 1 + i);
    }
    if i :| OccursAt(s, needle, i) {
      NotAcross(a, b, needle, i);
      if i <= |a| {
        assert OccursAt(a, needle, i - 0);
      } else {
        assert OccursAt(b, needle, i - (|a| + 1));
      }
    }
  }

  lemma NotAcross(a: string, b: string, needle: string, i: int)
    requires needle != "" && !Contains(needle, "\n") && OccursAt(a + ("\n" + b), needle, i)
    ensures 0 <= i && (i + |needle| <= |a| || |a| < i)
  {
    if i <= |a| < i + |needle| {
      OccurrenceChar(a + ("\n" + b), needle, i, |a| - i);
      NewlineInside(needle, |a| - i);
    }
  }

  lemma NewlineInside(s: string, k: nat)
    requires k < |s| && s[k] == '\n'
    ensures Contains(s, "\n")
  {
    assert OccursAt(s, "\n", k);
  }

  lemma {:induction false} JoinContains(lines: seq<string>, needle: string)
    requires needle != "" && !Contains(needle, "\n") && lines != []
    ensures Contains(JoinLines(lines), needle) <==> !NoneContains(lines, needle)
  {
    hide Contains, NoneContains;
    NoneContainsFirst(lines, needle);
    if |lines| == 1 {
      NoLinesContainNothing(needle);
      assert lines[1..] == [];
    } else {
      JoinFirst(lines);
      JoinContains(lines[1..], needle);
      ContainsAcrossNewline(lines[0], JoinLines(lines[1..]), needle);
    }
  }

  // ----- Round trips -----

  /** The lines of a cut payload, if the cut loses something visible. */
  lemma CutLosesText(payload: string, c: nat)
    requires c < |payload| && !IsSpace(payload[c])
    ensures |NonSpaceOf(LinesOf(TrimSpace(payload[..c])))| < |NonSpace(payload)|
  {
    hide NonSpace, NonSpaceOf, TrimSpace, Split, NonBlank;
    TwoParts(payload, c);
    NonSpaceConcat(payload[..c], payload[c..]);
    NonSpaceAt(payload[c..], 0);
    var text := TrimSpace(payload[..c]);
    NonSpaceTrim(payload[..c]);
    SplitKeepsText(text);
    NonBlankKeepsText(Split(text));
  }

  /** What is read from a payload of trimmed lines. */
  function LinesRead(payload: string, close: string): Option<Value>
    requires LeadsWithAngle(close)
  {
    var raw := TrimSpace(payload[..ReadBack(payload, close)]);
    if raw == "" || LinesOf(raw) == [] then None else Some(Lines(LinesOf(raw)))
  }

  lemma LinesReadExactly(lines: seq<string>, close: string)
    requires Proper(lines) && lines != [] && LeadsWithAngle(close) && !Contains(close, "\n")
    ensures LinesRead(JoinLines(lines), close) == Some(Lines(lines))
            <==> NoneContains(lines, "\n") && NoneContains(lines, close)
  {
    hide Contains, NoneContains, Trimmed, JoinLines, LinesOf, TrimSpace, NonSpaceOf, NonSpace;
    var payload := JoinLines(lines);
    JoinContains(lines, close);
    JoinKeepsText(lines);
    JoinIsTrimmed(lines);
    PiecesOfJoin(lines);
    var c := ReadBack(payload, close);
    if Contains(payload, close) {
      CloseIsVisible(payload, close);
      CutLosesText(payload, c);
    } else {
      Ends(payload);
      TrimmedIsFixed(payload);
    }
  }

  lemma CloseIsVisible(payload: string, close: string)
    requires LeadsWithAngle(close) && Contains(payload, close)
    ensures var c := ReadBack(payload, close); c < |payload| && !IsSpace(payload[c])
  {
    var c := ReadBack(payload, close);
    OccurrenceChar(payload, close, c, 0);
  }

  /**
   Lines come back, trimmed and without the blank ones, exactly if none of them contains a
   newline or the closing tag, whatever follows the block.
   */
  lemma LinesRoundTrip(json: Json, name: string, lines: seq<string>, prefix: string, suffix: string)
    requires Lookup(name) == Some(LineField) && !Contains(prefix, Open(name))
    requires NonBlank(lines) != []
    ensures var content := prefix + (Wrapped(json, name, Lines(lines)) + suffix);
            var kept := NonBlank(lines);
            Extracted(json, name, WantLines, content) == Some(Lines(kept))
            <==> NoneContains(kept, "\n") && NoneContains(kept, Close(name))
  {
    hide Lookup, LeadsWithAngle, Contains, NoneContains, JoinLines, NonBlank, Trimmed, TrimSpace;
    hide Wrapped, Extracted, LinesRead, Close, Open;
    var kept := NonBlank(lines);
    NonBlankIsProper(lines);
    WrappedLines(json, name, lines);
    var payload := JoinLines(kept);
    assert prefix + (Wrapped(json, name, Lines(lines)) + suffix) == Content(name, prefix, payload, suffix);
    ExtractedLines(json, name, prefix, payload, suffix);
    NamesAreSimple(name);
    LinesReadExactly(kept, Close(name));
  }

  lemma WrappedLines(json: Json, name: string, lines: seq<string>)
    requires Lookup(name) == Some(LineField) && NonBlank(lines) != []
    ensures name in REGISTERED
    ensures Wrapped(json, name, Lines(lines)) == Open(name) + JoinLines(NonBlank(lines)) + Close(name)
  {
    hide REGISTERED, Open, Close, Trimmed, JoinLines;
    NonBlankIsProper(lines);
    JoinIsTrimmed(NonBlank(lines));
  }

  lemma ExtractedLines(json: Json, name: string, prefix: string, payload: string, suffix: string)
    requires Lookup(name) == Some(LineField) && !Contains(prefix, Open(name))
    ensures LeadsWithAngle(Close(name))
    ensures Extracted(json, name, WantLines, Content(name, prefix, payload, suffix)) == LinesRead(payload, Close(name))
  {
    hide REGISTERED, LeadsWithAngle, RawEnvelope, Content, Open, Close, Contains, NonBlank, Split, TrimSpace, Trimmed;
    RawIsPayload(name, prefix, payload, suffix);
    TrimmedIsFixed(TrimSpace(payload[..ReadBack(payload, Close(name))]));
  }

  lemma NamesAreSimple(name: string)
    requires name in REGISTERED
    ensures LeadsWithAngle(Close(name)) && !Contains(Close(name), "\n")
  {
    hide REGISTERED;
    TagsLead(name);
    WithoutNewline(Close(name));
  }

  lemma WithoutNewline(s: string)
    requires forall k :: 0 <= k < |s| ==> s[k] != '\n'
    ensures !Contains(s, "\n")
  {
    var i := Index(s, "\n");
    if i >= 0 {
      OccurrenceChar(s, "\n", i, 0);
    }
  }

  /** A text comes back trimmed exactly if it does not contain the closing tag, whatever follows the block. */
  lemma TextRoundTrip(json: Json, name: string, text: string, prefix: string, suffix: string)
    requires Lookup(name) == Some(Envelope) && !Contains(prefix, Open(name))
    requires TrimSpace(text) != ""
    ensures var content := prefix + (Wrapped(json, name, Text(text)) + suffix);
            Extracted(json, name, WantText, content) == Some(Text(TrimSpace(text)))
            <==> !Contains(TrimSpace(text), Close(name))
  {
    hide REGISTERED, LeadsWithAngle, Contains, TrimSpace, Trimmed, RawEnvelope;
    var payload := TrimSpace(text);
    assert prefix + (Wrapped(json, name, Text(text)) + suffix) == Content(name, prefix, payload, suffix);
    RawIsPayload(name, prefix, payload, suffix);
    var c := ReadBack(payload, Close(name));
    var raw := TrimSpace(payload[..c]);
    TrimmedIsFixed(raw);
    if c == |payload| {
      Ends(payload);
      TrimmedIsFixed(payload);
    } else {
      TrimIsNoLonger(payload[..c]);
    }
  }

  /** Written without an angle bracket, which `encoding/json` escapes, and read back as itself. */
  ghost predicate JsonFits(json: Json, v: Value, want: Want) {
    var b := json.marshal(v);
    && b.Some? && b.value != "" && b.value != "null" && Trimmed(b.value) && '<' !in b.value
    && json.unmarshal(want, b.value) == Some(v)
  }

  /** A value that JSON reads back always comes back behind such a prefix: its own text cannot contain a tag. */
  lemma JsonRoundTrip(json: Json, name: string, v: Value, want: Want, prefix: string, suffix: string, content: string)
    requires Lookup(name) == Some(Envelope) && !Contains(prefix, Open(name))
    requires !v.Text? && want != WantText && JsonFits(json, v, want)
    requires content == prefix + (Wrapped(json, name, v) + suffix)
    ensures Extracted(json, name, want, content) == Some(v)
  {
    hide REGISTERED, LeadsWithAngle, Contains, TrimSpace, Trimmed, RawEnvelope;
    var payload := json.marshal(v).value;
    assert content == Content(name, prefix, payload, suffix);
    RawIsPayload(name, prefix, payload, suffix);
    NoTagWithoutAngle(payload, Close(name));
    Ends(payload);
    TrimmedIsFixed(payload);
  }

  lemma NoTagWithoutAngle(s: string, tag: string)
    requires LeadsWithAngle(tag) && '<' !in s
    ensures !Contains(s, tag)
  {
    var i := Index(s, tag);
    if i >= 0 {
      OccurrenceChar(s, tag, i, 0);
    }
  }

  lemma TrimIsNoLonger(s: string)
    ensures |TrimSpace(s)| <= |s|
  {
  }

  // ----- What is printed and read at all -----

  /** The registry: one tag of lines, four of a single payload, and no other. */
  lemma RegisteredTags(name: string)
    ensures Lookup("open_questions") == Some(LineField)
    ensures Lookup("scope_contract") == Lookup("deliverable_contract") == Some(Envelope)
    ensures Lookup("deliverable_schema") == Lookup("prior_verify_reason") == Some(Envelope)
    ensures Lookup(name).Some? ==>
              name in ["open_questions", "scope_contract", "deliverable_contract", "deliverable_schema",
                       "prior_verify_reason"]
  {
  }

  /** Where the tags may appear: all in execution, the reason of an earlier check in verification too. */
  lemma PhasesOfTags(name: string, phase: string)
    ensures TagAppliesToPhase(name, "")
    ensures TagAppliesToPhase(name, "execute") <==> Lookup(name).Some?
    ensures TagAppliesToPhase(name, "verify") <==> name == "prior_verify_reason"
    ensures phase !in ["", "execute", "verify"] ==> !TagAppliesToPhase(name, phase)
  {
  }

  /** A text as it is printed, to the character. */
  lemma TextAsWritten(json: Json)
    ensures Wrapped(json, "deliverable_schema", Text(" " + "p0" + "\n"))
            == "<" + "deliverable_schema" + ">" + "p0" + ("</" + "deliverable_schema" + ">")
  {
    hide TrimSpace, REGISTERED, Lookup, Open, Close;
    RegisteredTags("");
    TagsAsWritten("deliverable_schema");
    TrimBoth(" ", "p0", "\n");
  }

  /** Lines as they are printed. */
  lemma LinesAsWritten(json: Json)
    ensures Wrapped(json, "open_questions", Lines(["Who?", "  ", " " + "Why?" + " "]))
            == "<" + "open_questions" + ">" + ("Who?" + "\n" + "Why?") + ("</" + "open_questions" + ">")
  {
    hide TrimSpace, NonBlank, REGISTERED, Lookup, Open, Close;
    RegisteredTags("");
    TagsAsWritten("open_questions");
    NonBlankOfThree("Who?", "  ", " " + "Why?" + " ");
    TrimmedIsFixed("Who?");
    TrimIgnoresFront("  ", "");
    TrimmedIsFixed("");
    assert "  " + "" == "  ";
    TrimBoth(" ", "Why?", " ");
    TwoLines("Who?", "Why?");
  }

  lemma TwoLines(a: string, b: string)
    ensures [a] + [] + [b] == [a, b] && JoinLines([a, b]) == a + "\n" + b
  {
    assert [a, b][1..] == [b];
  }

  lemma TagsAsWritten(name: string)
    ensures Open(name) == "<" + name + ">" && Close(name) == "</" + name + ">"
  {
  }

  lemma TrimBoth(front: string, text: string, back: string)
    requires AllSpace(front) && AllSpace(back) && Trimmed(text)
    ensures TrimSpace(front + text + back) == text
  {
    hide TrimSpace;
    TrimIgnoresBack(front + text, back);
    TrimIgnoresFront(front, text);
    TrimmedIsFixed(text);
  }

  lemma NonBlankOfThree(a: string, b: string, c: string)
    ensures NonBlank([a, b, c]) == Kept(a) + Kept(b) + Kept(c)
  {
    hide NonBlank, Kept;
    NothingIsNonBlank();
    var lines := [a, b, c];
    KeptNext(lines, 0);
    KeptNext(lines, 1);
    KeptNext(lines, 2);
    Empties(Kept(a));
    assert lines[..0] == [] && lines[..3] == lines;
  }

  lemma KeptNext(lines: seq<string>, i: nat)
    requires i < |lines|
    ensures NonBlank(lines[..i + 1]) == NonBlank(lines[..i]) + Kept(lines[i])
  {
    hide NonBlank, TrimSpace;
    NonBlankNext(lines, i);
  }

  function Kept(line: string): seq<string> { if TrimSpace(line) == "" then [] else [TrimSpace(line)] }

  /** When nothing is printed. */
  lemma PrintsNothing(json: Json, name: string, v: Value)
    ensures Lookup(name).None? ==> Wrapped(json, name, v) == ""
    ensures Lookup(name) == Some(LineField) ==>
              (Wrapped(json, name, v) == "" <==> !v.Lines? || NonBlank(v.lines) == [])
    ensures Lookup(name) == Some(Envelope) && v.Text? ==>
              (Wrapped(json, name, v) == "" <==> forall k :: 0 <= k < |v.text| ==> IsSpace(v.text[k]))
    ensures Lookup(name) == Some(Envelope) && !v.Text? ==>
              (Wrapped(json, name, v) == "" <==> json.marshal(v) in {None, Some(""), Some("null")})
  {
    hide REGISTERED, NonBlank, TrimSpace, JoinLines, Trimmed;
    match v
    case Lines(lines) =>
      NonBlankIsProper(lines);
      if NonBlank(lines) != [] {
        JoinIsTrimmed(NonBlank(lines));
      }
    case Text(text) => BlankTrimsAway(text);
    case Record(_) =>
  }

  lemma BlankTrimsAway(text: string)
    ensures TrimSpace(text) == "" <==> forall k :: 0 <= k < |text| ==> IsSpace(text[k])
  {
    hide TrimSpace;
    NonSpaceTrim(text);
    if forall k :: 0 <= k < |text| ==> IsSpace(text[k]) {
      NonSpaceOfSpace(text);
      TrimmedHasEnds(TrimSpace(text));
    }
    if TrimSpace(text) == "" {
      forall k | 0 <= k < |text|
        ensures IsSpace(text[k])
      {
        if !IsSpace(text[k]) {
          NonSpaceAt(text, k);
        }
      }
    }
  }

  lemma TrimmedHasEnds(text: string)
    requires Trimmed(text)
    ensures NonSpace(text) == "" ==> text == ""
  {
  }

  /** When nothing is read, whatever the text. */
  lemma ReadsNothing(json: Json, name: string, want: Want, content: string)
    ensures Lookup(name).None? || RawEnvelope(name, content).None? ==> Extracted(json, name, want, content) == None
    ensures Lookup(name) == Some(LineField) && want != WantLines ==> Extracted(json, name, want, content) == None
  {
    hide REGISTERED, NonBlank, TrimSpace, Split, RawEnvelope;
  }

  // ----- Several blocks in one text -----

  /** Some free text, then a block. */
  datatype Block = Block(gap: string, name: string, payload: string)

  function Document(blocks: seq<Block>, tail: string): string {
    if blocks == [] then tail
    else
      var b := blocks[0];
      b.gap + (Open(b.name) + (b.payload + (Close(b.name) + Document(blocks[1..], tail))))
  }

  ghost predicate NoOpenTag(text: string) {
    forall name :: name in REGISTERED ==> !Contains(text, Open(name))
  }

  /** Blocks of different registered tags, with no opening tag anywhere else. */
  ghost predicate Separate(blocks: seq<Block>) {
    && (forall k :: 0 <= k < |blocks| ==>
          && blocks[k].name in REGISTERED && NoOpenTag(blocks[k].gap) && NoOpenTag(blocks[k].payload)
          && !Contains(blocks[k].payload, Close(blocks[k].name)) && TrimSpace(blocks[k].payload) != "")
    && (forall i, j :: 0 <= i < j < |blocks| ==> blocks[i].name != blocks[j].name)
  }

  lemma StillAbsent(head: string, rest: string, tag: string)
    requires LeadsWithAngle(tag) && !Contains(head, tag) && !Contains(rest, tag)
    requires rest != "" && rest[0] == '<'
    ensures !Contains(head + rest, tag)
  {
    var i := Index(head + rest, tag);
    if 0 <= i < |head| {
      NoStraddling(head, rest, tag, i);
    }
    OccurrencesBehind(head, rest, tag);
  }

  /** Another tag in front, which differs from `tag` at some place, adds no occurrence. */
  lemma StillAbsentBehindTag(head: string, rest: string, tag: string, k: nat)
    requires LeadsWithAngle(tag) && LeadsWithAngle(head) && !Contains(rest, tag)
    requires k < |head| && k < |tag| && head[k] != tag[k]
    ensures !Contains(head + rest, tag)
  {
    var i := Index(head + rest, tag);
    if 0 <= i < |head| {
      OccurrenceChar(head + rest, tag, i, 0);
      OccurrenceChar(head + rest, tag, i, k);
    }
    OccurrencesBehind(head, rest, tag);
  }

  /** The registered names differ in their first letter or behind "deliverable_". */
  lemma TagsDiffer(name: string, other: string) returns (k: nat)
    requires name in REGISTERED && other in REGISTERED && name != other
    ensures k < |Open(name)| && k < |Open(other)| && Open(other)[k] != Open(name)[k]
    ensures |Close(other)| > 1 && |Open(name)| > 1 && Close(other)[1] != Open(name)[1]
  {
    k := if name[0] != other[0] then 1 else 13;
  }

  lemma SeparateParts(blocks: seq<Block>, k: nat)
    requires Separate(blocks) && k < |blocks|
    ensures Separate(blocks[1..]) && Separate(blocks[..k])
    ensures var b := blocks[k];
            b.name in REGISTERED && NoOpenTag(b.gap) && NoOpenTag(b.payload)
            && !Contains(b.payload, Close(b.name)) && TrimSpace(b.payload) != ""
    ensures forall j :: 0 <= j < k ==> blocks[..k][j].name != blocks[k].name
  {
    hide REGISTERED, Contains, NoOpenTag, Close, TrimSpace;
  }

  lemma {:induction false} TagIsAbsent(blocks: seq<Block>, tail: string, name: string)
    requires Separate(blocks) && NoOpenTag(tail) && name in REGISTERED
    requires forall k :: 0 <= k < |blocks| ==> blocks[k].name != name
    ensures !Contains(Document(blocks, tail), Open(name))
  {
    hide REGISTERED, Contains, Open, Close, Separate;
    if blocks != [] {
      var b := blocks[0];
      SeparateParts(blocks, 0);
      TagIsAbsent(blocks[1..], tail, name);
      BlockAddsNone(b, Document(blocks[1..], tail), name);
    }
  }

  lemma BlockAddsNone(b: Block, rest: string, name: string)
    requires b.name in REGISTERED && name in REGISTERED && b.name != name
    requires NoOpenTag(b.gap) && NoOpenTag(b.payload) && !Contains(rest, Open(name))
    ensures !Contains(b.gap + (Open(b.name) + (b.payload + (Close(b.name) + rest))), Open(name))
  {
    hide REGISTERED, Contains, Open, Close;
    var tag, open, close := Open(name), Open(b.name), Close(b.name);
    TagsLead(name);
    TagsLead(b.name);
    var k := TagsDiffer(name, b.name);
    StillAbsentBehindTag(close, rest, tag, 1);
    StillAbsent(b.payload, close + rest, tag);
    StillAbsentBehindTag(open, b.payload + (close + rest), tag, k);
    StillAbsent(b.gap, open + (b.payload + (close + rest)), tag);
  }

  lemma Regroup5(a: string, b: string, c: string, d: string, e: string, f: string)
    ensures (a + (b + (c + (d + e)))) + f == a + (b + (c + (d + (e + f))))
  {
  }

  lemma {:induction false} DocumentAt(blocks: seq<Block>, tail: string, k: nat)
    requires k < |blocks|
    ensures Document(blocks, tail)
            == Content(blocks[k].name, Document(blocks[..k], blocks[k].gap), blocks[k].payload,
                       Document(blocks[k + 1..], tail))
  {
    hide Open, Close;
    if k == 0 {
      assert blocks[..0] == [];
    } else {
      var rest, gap := blocks[1..], blocks[k].gap;
      DocumentAt(rest, tail, k - 1);
      assert blocks[..k][1..] == rest[..k - 1] && rest[k..] == blocks[k + 1..];
      Regroup5(blocks[0].gap, Open(blocks[0].name), blocks[0].payload, Close(blocks[0].name),
               Document(rest[..k - 1], gap),
               Open(blocks[k].name) + (blocks[k].payload + (Close(blocks[k].name) + Document(blocks[k + 1..], tail))));
    }
  }

  /**
   Each block of a text is read from it whatever its place, and no other tag is: so
   `ExtractAll` collects just what was printed.
   */
  lemma EveryBlockIsRead(blocks: seq<Block>, tail: string, name: string)
    requires Separate(blocks) && NoOpenTag(tail) && name in REGISTERED
    ensures forall k :: 0 <= k < |blocks| && blocks[k].name == name ==>
              RawEnvelope(name, Document(blocks, tail)) == Some(TrimSpace(blocks[k].payload))
    ensures (forall k :: 0 <= k < |blocks| ==> blocks[k].name != name) ==>
              RawEnvelope(name, Document(blocks, tail)) == None
  {
    hide REGISTERED, RawEnvelope, Contains, Document, Separate, NoOpenTag, Open, Close;
    forall k | 0 <= k < |blocks| && blocks[k].name == name
      ensures RawEnvelope(name, Document(blocks, tail)) == Some(TrimSpace(blocks[k].payload))
    {
      BlockIsRead(blocks, tail, k);
    }
    if forall k :: 0 <= k < |blocks| ==> blocks[k].name != name {
      TagIsAbsent(blocks, tail, name);
      NoTagNoBlock(name, Document(blocks, tail));
    }
  }

  lemma BlockIsRead(blocks: seq<Block>, tail: string, k: nat)
    requires Separate(blocks) && k < |blocks|
    ensures RawEnvelope(blocks[k].name, Document(blocks, tail)) == Some(TrimSpace(blocks[k].payload))
  {
    hide REGISTERED, RawEnvelope, Contains, Document, Separate, NoOpenTag, Open, Close, ReadBack, Content;
    var b := blocks[k];
    var front := Document(blocks[..k], b.gap);
    SeparateParts(blocks, k);
    TagIsAbsent(blocks[..k], b.gap, b.name);
    DocumentAt(blocks, tail, k);
    RawIsPayload(b.name, front, b.payload, Document(blocks[k + 1..], tail));
    Ends(b.payload);
  }

  lemma NoTagNoBlock(name: string, content: string)
    requires !Contains(content, Open(name))
    ensures RawEnvelope(name, content) == None
  {
  }
}
