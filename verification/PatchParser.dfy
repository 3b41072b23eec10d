/**
 Hunk bodies of a unified diff (the body loop of `parse_patch` and `strip_last_line_ending` of
 crates/capability-coding/src/patch.rs), given the two counts of the hunk header.
 */
module PatchParser {
  import opened Prelude
  import opened Patch

  const NO_NEWLINE_MARKER := "\\ No newline at end of file"

  /** `SplitsCharacter` is the panic of splitting a line at byte 1 inside its first character. */
  datatype ParseError = InvalidText | SplitsCharacter | TooManyLines | ParseCancelled

  /** What is left of a hunk's lines once its body is parsed. */
  datatype Body = Body(lines: seq<PatchLine>, rest: seq<string>)

  predicate IsMarker(line: string) {
    NO_NEWLINE_MARKER <= line
  }

  function StripEnding(text: string): string {
    if text == "" || text[|text| - 1] != '\n' then text else StripReturn(text[..|text| - 1])
  }

  function StripReturn(text: string): string {
    if text == "" || text[|text| - 1] != '\r' then text else text[..|text| - 1]
  }

  function WithText(line: PatchLine, text: string): PatchLine {
    match line
    case Context(_) => Context(text)
    case Remove(_) => Remove(text)
    case Add(_) => Add(text)
  }

  /** `strip_last_line_ending`; without a line before it the marker is an error. */
  function StripLast(lines: seq<PatchLine>): Result<seq<PatchLine>, ParseError> {
    if lines == [] then Failure(InvalidText)
    else
      var last := lines[|lines| - 1];
      Success(lines[..|lines| - 1] + [WithText(last, StripEnding(last.text))])
  }

  /** A hunk line by its first character. */
  function ReadLine(line: string): Option<PatchLine>
    requires line != ""
  {
    match line[0]
    case ' ' => Some(Context(line[1..]))
    case '-' => Some(Remove(line[1..]))
    case '+' => Some(Add(line[1..]))
    case _ => None
  }

  predicate NonEmptyLines(lines: seq<string>) {
    forall i :: 0 <= i < |lines| ==> lines[i] != ""
  }

  /** Do the declared counts ask for more lines? */
  predicate WantsMore(parsed: seq<PatchLine>, oldCount: nat, newCount: nat) {
    |OldSide(parsed)| < oldCount || |NewSide(parsed)| < newCount
  }

  predicate Exceeds(parsed: seq<PatchLine>, oldCount: nat, newCount: nat) {
    |OldSide(parsed)| > oldCount || |NewSide(parsed)| > newCount
  }

  /** The rest of a hunk body, after `parsed`. */
  function ParseRest(lines: seq<string>, parsed: seq<PatchLine>, oldCount: nat, newCount: nat): Result<Body, ParseError>
    requires NonEmptyLines(lines)
    decreases |lines|, 1
  {
    if lines != [] then ParseLine(lines[0], lines[1..], parsed, oldCount, newCount)
    else if WantsMore(parsed, oldCount, newCount) then Failure(InvalidText)
    else Success(Body(parsed, []))
  }

  function ParseLine(line: string, rest: seq<string>, parsed: seq<PatchLine>, oldCount: nat, newCount: nat): Result<Body, ParseError>
    requires line != "" && NonEmptyLines(rest)
    decreases |rest| + 1, 0
  {
    if IsMarker(line) then
      match StripLast(parsed)
      case Failure(error) => Failure(error)
      case Success(stripped) =>
        if WantsMore(parsed, oldCount, newCount) then ParseRest(rest, stripped, oldCount, newCount)
        else Success(Body(stripped, rest))
    else if !WantsMore(parsed, oldCount, newCount) then Success(Body(parsed, [line] + rest))
    else if line[0] >= 128 as char then Failure(SplitsCharacter)
    else
      match ReadLine(line)
      case None => Failure(InvalidText)
      case Some(read) =>
        if Exceeds(parsed + [read], oldCount, newCount) then Failure(InvalidText)
        else ParseRest(rest, parsed + [read], oldCount, newCount)
  }

  /** Parsing from an index goes on with the line there. */
  lemma ParseAt(lines: seq<string>, index: nat, parsed: seq<PatchLine>, oldCount: nat, newCount: nat)
    requires NonEmptyLines(lines) && index < |lines|
    ensures ParseRest(lines[index..], parsed, oldCount, newCount) == ParseLine(lines[index], lines[index + 1..], parsed, oldCount, newCount)
    ensures [lines[index]] + lines[index + 1..] == lines[index..]
  {
    assert lines[index..][1..] == lines[index + 1..];
  }

  lemma ParseCons(line: string, rest: seq<string>, parsed: seq<PatchLine>, oldCount: nat, newCount: nat)
    requires line != "" && NonEmptyLines(rest)
    ensures NonEmptyLines([line] + rest)
    ensures ParseRest([line] + rest, parsed, oldCount, newCount) == ParseLine(line, rest, parsed, oldCount, newCount)
  {
    assert ([line] + rest)[1..] == rest;
  }

  lemma StripKeepsSides(lines: seq<PatchLine>)
    requires lines != []
    ensures |OldSide(StripLast(lines).value)| == |OldSide(lines)|
    ensures |NewSide(StripLast(lines).value)| == |NewSide(lines)|
  {
    var front, last := lines[..|lines| - 1], lines[|lines| - 1];
    assert lines == front + [last];
    SidesSnoc(front, last);
    SidesSnoc(front, WithText(last, StripEnding(last.text)));
  }

  /** One line inside the body loop, counted as it is read. */
  method ParseBodyLine(line: string, parsed: seq<PatchLine>, oldSeen: nat, newSeen: nat, oldCount: nat, newCount: nat, ghost rest: seq<string>)
    returns (next: Result<seq<PatchLine>, ParseError>, oldNext: nat, newNext: nat)
    requires line != "" && NonEmptyLines(rest) && WantsMore(parsed, oldCount, newCount)
    requires oldSeen == |OldSide(parsed)| && newSeen == |NewSide(parsed)| && !Exceeds(parsed, oldCount, newCount)
    ensures next.Failure? ==> next.error != ParseCancelled && ParseLine(line, rest, parsed, oldCount, newCount) == Failure(next.error)
    ensures next.Success? ==>
      && ParseLine(line, rest, parsed, oldCount, newCount) == ParseRest(rest, next.value, oldCount, newCount)
      && oldNext == |OldSide(next.value)| && newNext == |NewSide(next.value)| && !Exceeds(next.value, oldCount, newCount)
  {
    oldNext, newNext := oldSeen, newSeen;
    if IsMarker(line) {
      next := StripLast(parsed);
      if parsed != [] { StripKeepsSides(parsed); }
      return;
    }
    if line[0] >= 128 as char { return Failure(SplitsCharacter), oldNext, newNext; }
    var read := ReadLine(line);
    if read.None? { return Failure(InvalidText), oldNext, newNext; }
    SidesSnoc(parsed, read.value);
    oldNext := oldNext + if read.value.Add? then 0 else 1;
    newNext := newNext + if read.value.Remove? then 0 else 1;
    if oldNext > oldCount || newNext > newCount { return Failure(InvalidText), oldNext, newNext; }
    next := Success(parsed + [read.value]);
  }

  /** The body loop of `parse_patch`. Like the code it counts what it has seen. */
  method ParseHunkBody(lines: seq<string>, from: nat, oldCount: nat, newCount: nat)
    returns (result: Result<seq<PatchLine>, ParseError>, index: nat)
    requires from <= |lines| && NonEmptyLines(lines)
    ensures result != Failure(ParseCancelled) ==>
      match ParseRest(lines[from..], [], oldCount, newCount)
      case Failure(error) => result == Failure(error)
      case Success(body) => result == Success(body.lines) && index <= |lines| && body.rest == lines[index..]
  {
    index := from;
    var oldSeen, newSeen := 0, 0;
    var parsed: seq<PatchLine> := [];
    ghost var whole := ParseRest(lines[from..], [], oldCount, newCount);
    while oldSeen < oldCount || newSeen < newCount
      invariant from <= index <= |lines|
      invariant oldSeen == |OldSide(parsed)| <= oldCount && newSeen == |NewSide(parsed)| <= newCount
      invariant ParseRest(lines[index..], parsed, oldCount, newCount) == whole
      decreases |lines| - index
    {
      var cancelled: bool := *;
      if cancelled { return Failure(ParseCancelled), index; }
      if index == |lines| { return Failure(InvalidText), index; }
      ParseAt(lines, index, parsed, oldCount, newCount);
      var next;
      next, oldSeen, newSeen := ParseBodyLine(lines[index], parsed, oldSeen, newSeen, oldCount, newCount, lines[index + 1..]);
      if next.Failure? { return Failure(next.error), index; }
      parsed, index := next.value, index + 1;
    }
    if index < |lines| { ParseAt(lines, index, parsed, oldCount, newCount); }
    if index < |lines| && IsMarker(lines[index]) {
      if parsed == [] { return Failure(InvalidText), index; }
      parsed := StripLast(parsed).value;
      index := index + 1;
    }
    return Success(parsed), index;
  }

  // ---- a parsed hunk has its declared counts ----------------------------------------------------

  lemma {:induction false} ParsedCounts(lines: seq<string>, parsed: seq<PatchLine>, oldCount: nat, newCount: nat)
    requires NonEmptyLines(lines) && !Exceeds(parsed, oldCount, newCount)
    requires ParseRest(lines, parsed, oldCount, newCount).Success?
    ensures var body := ParseRest(lines, parsed, oldCount, newCount).value;
      |OldSide(body.lines)| == oldCount && |NewSide(body.lines)| == newCount
    decreases |lines|
  {
    if lines != [] {
      var line, rest := lines[0], lines[1..];
      if parsed != [] { StripKeepsSides(parsed); }
      assert ParseRest(lines, parsed, oldCount, newCount) == ParseLine(line, rest, parsed, oldCount, newCount);
      if WantsMore(parsed, oldCount, newCount) {
        ParsedCounts(rest, if IsMarker(line) then StripLast(parsed).value else parsed + [ReadLine(line).value], oldCount, newCount);
      }
    }
  }

  /** The count check of `apply_hunks` never fails on hunks that were parsed. */
  method ApplyParsed(original: string, hunks: seq<Hunk>, bodies: seq<seq<string>>) returns (result: Result<string, PatchError>)
    requires |bodies| == |hunks|
    requires forall i :: 0 <= i < |hunks| ==>
      && NonEmptyLines(bodies[i])
      && ParseRest(bodies[i], [], hunks[i].oldCount, hunks[i].newCount).Success?
      && hunks[i].lines == ParseRest(bodies[i], [], hunks[i].oldCount, hunks[i].newCount).value.lines
    ensures result != Failure(InvalidPatch)
    ensures result.Success? ==>
      Spliced(SplitLines(original), 0, hunks).Some? && result.value == Join(Spliced(SplitLines(original), 0, hunks).value)
    ensures result == Failure(Conflict) ==> Spliced(SplitLines(original), 0, hunks).None?
  {
    forall i | 0 <= i < |hunks|
      ensures CountsMatch(hunks[i])
    {
      ParsedCounts(bodies[i], [], hunks[i].oldCount, hunks[i].newCount);
    }
    result := ApplyHunks(original, hunks);
  }

  // ---- rendering and parsing ------------------------------------------------------------------

  function Prefix(line: PatchLine): char {
    match line
    case Context(_) => ' '
    case Remove(_) => '-'
    case Add(_) => '+'
  }

  /** One text line, with or without its newline. */
  predicate OneLine(text: string) {
    Terminated(text) || NoNewline(text)
  }

  /** A hunk line as a diff prints it: a line without its newline is followed by the marker. */
  function RenderLine(line: PatchLine): seq<string> {
    if Terminated(line.text) then [[Prefix(line)] + line.text]
    else [[Prefix(line)] + (line.text + "\n"), NO_NEWLINE_MARKER + "\n"]
  }

  function Render(lines: seq<PatchLine>): seq<string> {
    if lines == [] then [] else RenderLine(lines[0]) + Render(lines[1..])
  }

  /** The marker also takes a carriage return off. */
  function AsParsed(line: PatchLine): PatchLine {
    if Terminated(line.text) then line else WithText(line, StripReturn(line.text))
  }

  function AllAsParsed(lines: seq<PatchLine>): seq<PatchLine> {
    if lines == [] then [] else [AsParsed(lines[0])] + AllAsParsed(lines[1..])
  }

  lemma {:induction false} RenderNonEmpty(lines: seq<PatchLine>, rest: seq<string>)
    requires NonEmptyLines(rest)
    ensures NonEmptyLines(Render(lines) + rest)
  {
    if lines != [] {
      RenderNonEmpty(lines[1..], rest);
      assert Render(lines) + rest == RenderLine(lines[0]) + (Render(lines[1..]) + rest);
    }
  }

  lemma PrefixedLine(line: PatchLine, text: string)
    ensures var shown := [Prefix(line)] + text;
      !IsMarker(shown) && ReadLine(shown) == Some(WithText(line, text))
  {
    var shown := [Prefix(line)] + text;
    assert shown[1..] == text;
    assert NO_NEWLINE_MARKER[0] != shown[0];
  }

  /** One line of text, when the counts leave room for it. */
  lemma ParseText(line: PatchLine, shown: string, rest: seq<string>, parsed: seq<PatchLine>, oldCount: nat, newCount: nat)
    requires shown != "" && !IsMarker(shown) && ReadLine(shown) == Some(line) && NonEmptyLines(rest)
    requires !Exceeds(parsed + [line], oldCount, newCount)
    ensures ParseLine(shown, rest, parsed, oldCount, newCount) == ParseRest(rest, parsed + [line], oldCount, newCount)
  {
    SidesSnoc(parsed, line);
  }

  /** A marker line, in the loop or just after it. */
  lemma ParseMarker(marker: string, rest: seq<string>, parsed: seq<PatchLine>, oldCount: nat, newCount: nat)
    requires IsMarker(marker) && parsed != [] && NonEmptyLines(rest) && (rest != [] ==> !IsMarker(rest[0]))
    ensures ParseLine(marker, rest, parsed, oldCount, newCount) == ParseRest(rest, StripLast(parsed).value, oldCount, newCount)
  {
    StripKeepsSides(parsed);
    if rest != [] {
      assert rest == [rest[0]] + rest[1..];
      assert ParseRest(rest, StripLast(parsed).value, oldCount, newCount) == ParseLine(rest[0], rest[1..], StripLast(parsed).value, oldCount, newCount);
    }
  }

  /** Nothing more is wanted, and no marker follows. */
  lemma ParseEnds(rest: seq<string>, parsed: seq<PatchLine>, oldCount: nat, newCount: nat)
    requires NonEmptyLines(rest) && (rest != [] ==> !IsMarker(rest[0])) && !WantsMore(parsed, oldCount, newCount)
    ensures ParseRest(rest, parsed, oldCount, newCount) == Success(Body(parsed, rest))
  {
    if rest != [] {
      assert rest == [rest[0]] + rest[1..];
      assert ParseRest(rest, parsed, oldCount, newCount) == ParseLine(rest[0], rest[1..], parsed, oldCount, newCount);
    }
  }

  lemma StripOfRaw(line: PatchLine, parsed: seq<PatchLine>)
    requires !Terminated(line.text)
    ensures StripLast(parsed + [WithText(line, line.text + "\n")]) == Success(parsed + [AsParsed(line)])
  {
    var raw := WithText(line, line.text + "\n");
    assert (line.text + "\n")[..|line.text|] == line.text;
    assert (parsed + [raw])[..|parsed|] == parsed;
  }

  /** Parsing one rendered line. */
  lemma ParseOne(line: PatchLine, rest: seq<string>, parsed: seq<PatchLine>, oldCount: nat, newCount: nat)
    requires NonEmptyLines(rest) && (rest != [] ==> !IsMarker(rest[0]))
    requires !Exceeds(parsed + [line], oldCount, newCount)
    ensures NonEmptyLines(RenderLine(line) + rest)
    ensures ParseRest(RenderLine(line) + rest, parsed, oldCount, newCount) == ParseRest(rest, parsed + [AsParsed(line)], oldCount, newCount)
  {
    if Terminated(line.text) {
      PrefixedLine(line, line.text);
      ParseCons([Prefix(line)] + line.text, rest, parsed, oldCount, newCount);
      ParseText(line, [Prefix(line)] + line.text, rest, parsed, oldCount, newCount);
    } else {
      ParseUnterminated(line, rest, parsed, oldCount, newCount);
    }
  }

  lemma ParseUnterminated(line: PatchLine, rest: seq<string>, parsed: seq<PatchLine>, oldCount: nat, newCount: nat)
    requires NonEmptyLines(rest) && (rest != [] ==> !IsMarker(rest[0])) && !Terminated(line.text)
    requires !Exceeds(parsed + [line], oldCount, newCount)
    ensures NonEmptyLines(RenderLine(line) + rest)
    ensures ParseRest(RenderLine(line) + rest, parsed, oldCount, newCount) == ParseRest(rest, parsed + [AsParsed(line)], oldCount, newCount)
  {
    var raw, marker := WithText(line, line.text + "\n"), NO_NEWLINE_MARKER + "\n";
    var shown := [Prefix(line)] + (line.text + "\n");
    PrefixedLine(line, line.text + "\n");
    SidesSnoc(parsed, line);
    SidesSnoc(parsed, raw);
    ParseCons(marker, rest, parsed + [raw], oldCount, newCount);
    ParseCons(shown, [marker] + rest, parsed, oldCount, newCount);
    ParseText(raw, shown, [marker] + rest, parsed, oldCount, newCount);
    ParseMarker(marker, rest, parsed + [raw], oldCount, newCount);
    StripOfRaw(line, parsed);
    assert [shown] + ([marker] + rest) == [shown, marker] + rest;
  }

  lemma {:induction false} ParseRendered(lines: seq<PatchLine>, rest: seq<string>, parsed: seq<PatchLine>, oldCount: nat, newCount: nat)
    requires NonEmptyLines(rest) && (rest != [] ==> !IsMarker(rest[0]))
    requires oldCount == |OldSide(parsed)| + |OldSide(lines)| && newCount == |NewSide(parsed)| + |NewSide(lines)|
    ensures NonEmptyLines(Render(lines) + rest)
    ensures ParseRest(Render(lines) + rest, parsed, oldCount, newCount) == Success(Body(parsed + AllAsParsed(lines), rest))
    decreases |lines|
  {
    if lines == [] {
      assert Render(lines) + rest == rest && parsed + [] == parsed;
      ParseEnds(rest, parsed, oldCount, newCount);
    } else {
      var line, more := lines[0], lines[1..];
      assert lines == [line] + more;
      RenderedStep(line, more, rest, parsed, oldCount, newCount);
      var longer := parsed + [AsParsed(line)];
      ParseRendered(more, rest, longer, oldCount, newCount);
      AsParsedStep(lines, parsed);
    }
  }

  lemma AsParsedStep(lines: seq<PatchLine>, parsed: seq<PatchLine>)
    requires lines != []
    ensures (parsed + [AsParsed(lines[0])]) + AllAsParsed(lines[1..]) == parsed + AllAsParsed(lines)
  {
  }

  lemma RenderCons(line: PatchLine, more: seq<PatchLine>, rest: seq<string>)
    ensures Render([line] + more) + rest == RenderLine(line) + (Render(more) + rest)
  {
    assert ([line] + more)[1..] == more;
  }

  lemma RenderedStep(line: PatchLine, more: seq<PatchLine>, rest: seq<string>, parsed: seq<PatchLine>, oldCount: nat, newCount: nat)
    requires NonEmptyLines(rest) && (rest != [] ==> !IsMarker(rest[0]))
    requires oldCount == |OldSide(parsed)| + |OldSide([line] + more)| && newCount == |NewSide(parsed)| + |NewSide([line] + more)|
    ensures NonEmptyLines(Render(more) + rest) && NonEmptyLines(Render([line] + more) + rest)
    ensures oldCount == |OldSide(parsed + [AsParsed(line)])| + |OldSide(more)|
    ensures newCount == |NewSide(parsed + [AsParsed(line)])| + |NewSide(more)|
    ensures ParseRest(Render([line] + more) + rest, parsed, oldCount, newCount)
         == ParseRest(Render(more) + rest, parsed + [AsParsed(line)], oldCount, newCount)
  {
    RenderNonEmpty(more, rest);
    NoMarkerFirst(more, rest);
    SidesSnoc(parsed, line);
    SidesSnoc(parsed, AsParsed(line));
    SidesCons(line, more);
    RenderCons(line, more, rest);
    ParseOne(line, Render(more) + rest, parsed, oldCount, newCount);
  }

  lemma NoMarkerFirst(lines: seq<PatchLine>, rest: seq<string>)
    requires rest != [] ==> !IsMarker(rest[0])
    ensures Render(lines) + rest != [] ==> !IsMarker((Render(lines) + rest)[0])
  {
    if lines != [] {
      PrefixedLine(lines[0], lines[0].text);
      PrefixedLine(lines[0], lines[0].text + "\n");
      assert (Render(lines) + rest)[0] == RenderLine(lines[0])[0];
    } else {
      assert Render(lines) + rest == rest;
    }
  }

  predicate KeepsText(line: PatchLine) {
    Terminated(line.text) || line.text == "" || line.text[|line.text| - 1] != '\r'
  }

  lemma KeptText(line: PatchLine)
    ensures AsParsed(line) == line <==> KeepsText(line)
  {
  }

  lemma {:induction false} AllAsParsedAt(lines: seq<PatchLine>, i: nat)
    requires i < |lines|
    ensures |AllAsParsed(lines)| == |lines| && AllAsParsed(lines)[i] == AsParsed(lines[i])
  {
    if |lines| > 1 { AllAsParsedAt(lines[1..], if i == 0 then 0 else i - 1); }
  }

  lemma AllKept(lines: seq<PatchLine>)
    ensures AllAsParsed(lines) == lines <==> forall i :: 0 <= i < |lines| ==> KeepsText(lines[i])
  {
    forall i | 0 <= i < |lines|
      ensures |AllAsParsed(lines)| == |lines| && (AllAsParsed(lines)[i] == lines[i] <==> KeepsText(lines[i]))
    {
      AllAsParsedAt(lines, i);
      KeptText(lines[i]);
    }
  }

  lemma RenderedLine(line: PatchLine, i: nat)
    requires OneLine(line.text) && i < |RenderLine(line)|
    ensures Terminated(RenderLine(line)[i])
  {
    if Terminated(line.text) {
      assert ([Prefix(line)] + line.text)[..|line.text|] == [Prefix(line)] + line.text[..|line.text| - 1];
    } else if i == 0 {
      var shown := [Prefix(line)] + (line.text + "\n");
      assert shown[..|shown| - 1] == [Prefix(line)] + line.text;
    } else {
      var marker := NO_NEWLINE_MARKER + "\n";
      assert marker[..|marker| - 1] == NO_NEWLINE_MARKER;
    }
  }

  lemma {:induction false} RenderedText(lines: seq<PatchLine>, i: nat)
    requires (forall j :: 0 <= j < |lines| ==> OneLine(lines[j].text)) && i < |Render(lines)|
    ensures Terminated(Render(lines)[i])
    decreases |lines|
  {
    var first := RenderLine(lines[0]);
    if i < |first| {
      RenderedLine(lines[0], i);
    } else {
      RenderedText(lines[1..], i - |first|);
    }
  }

  /**
   Printing hunk lines as text and parsing that text gives the same lines back, exactly when no
   line without a newline ends in a carriage return.
   */
  lemma BodyRoundTrip(lines: seq<PatchLine>)
    requires forall i :: 0 <= i < |lines| ==> OneLine(lines[i].text)
    ensures NonEmptyLines(SplitLines(Join(Render(lines))))
    ensures ParseRest(SplitLines(Join(Render(lines))), [], |OldSide(lines)|, |NewSide(lines)|) == Success(Body(AllAsParsed(lines), []))
    ensures AllAsParsed(lines) == lines <==> forall i :: 0 <= i < |lines| ==> KeepsText(lines[i])
  {
    forall i | 0 <= i < |Render(lines)|
      ensures Terminated(Render(lines)[i])
    {
      RenderedText(lines, i);
    }
    SplitOfText(Render(lines));
    assert Render(lines) + [] == Render(lines);
    assert [] + AllAsParsed(lines) == AllAsParsed(lines);
    ParseRendered(lines, [], [], |OldSide(lines)|, |NewSide(lines)|);
    AllKept(lines);
  }

  /** A line that is lost in the round trip: its final carriage return goes with the marker. */
  lemma ReturnLost() returns (lines: seq<PatchLine>)
    ensures forall i :: 0 <= i < |lines| ==> OneLine(lines[i].text)
    ensures NonEmptyLines(SplitLines(Join(Render(lines))))
    ensures ParseRest(SplitLines(Join(Render(lines))), [], |OldSide(lines)|, |NewSide(lines)|) == Success(Body([Add("x")], []))
    ensures lines == [Add("x\r")]
  {
    hide ParseRest, Render, SplitLines, Join, OldSide, NewSide;
    lines := [Add("x\r")];
    BodyRoundTrip(lines);
    assert lines[1..] == [] && AsParsed(lines[0]) == Add("x");
    assert AllAsParsed(lines) == [Add("x")];
  }
}
