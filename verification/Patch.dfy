/**
 Hunk application and hunk bodies of a unified diff (crates/capability-coding/src/patch.rs).
 Positions follow the code: a hunk starts at old line `old_start - 1`, or at 0 when `old_start`
 is 0, whatever its old count. Cancellation may be observed at every check.
 */
module Patch {
  import opened Prelude

  datatype PatchLine = Context(text: string) | Remove(text: string) | Add(text: string)

  datatype Hunk = Hunk(oldStart: nat, oldCount: nat, newCount: nat, lines: seq<PatchLine>)

  datatype PatchError = InvalidPatch | Conflict | Cancelled

  // ---- text and lines --------------------------------------------------------------------

  function Join(lines: seq<string>): string {
    if lines == [] then "" else lines[0] + Join(lines[1..])
  }

  lemma {:induction false} JoinAppend(a: seq<string>, b: seq<string>)
    ensures Join(a + b) == Join(a) + Join(b)
  {
    if a == [] {
      assert a + b == b;
    } else {
      assert (a + b)[1..] == a[1..] + b;
      JoinAppend(a[1..], b);
    }
  }

  predicate NoNewline(s: string) {
    forall i :: 0 <= i < |s| ==> s[i] != '\n'
  }

  /** One line with its newline. */
  predicate Terminated(s: string) {
    s != "" && s[|s| - 1] == '\n' && NoNewline(s[..|s| - 1])
  }

  /** Lines as `split_inclusive('\n')` yields them: all but the last are terminated, none is empty. */
  predicate TextLines(lines: seq<string>) {
    forall i :: 0 <= i < |lines| ==>
      Terminated(lines[i]) || (i == |lines| - 1 && lines[i] != "" && NoNewline(lines[i]))
  }

  function LineEnd(s: string): (n: nat)
    ensures n <= |s| && (s != "" ==> n > 0)
    ensures s != "" ==> Terminated(s[..n]) || (n == |s| && NoNewline(s))
  {
    if s == "" then 0
    else if s[0] == '\n' then 1
    else
      var n := LineEnd(s[1..]);
      assert s[1..] != "" ==> s[..1 + n] == [s[0]] + s[1..][..n];
      1 + n
  }

  /** `split_inclusive('\n')`. */
  function SplitLines(s: string): (lines: seq<string>)
    decreases |s|
  {
    if s == "" then [] else [s[..LineEnd(s)]] + SplitLines(s[LineEnd(s)..])
  }

  lemma SplitStep(s: string) returns (first: string, rest: string)
    requires s != ""
    ensures s == first + rest && |rest| < |s| && SplitLines(s) == [first] + SplitLines(rest)
    ensures first != "" && (Terminated(first) || (rest == "" && NoNewline(first)))
  {
    var n := LineEnd(s);
    first, rest := s[..n], s[n..];
  }

  lemma JoinCons(first: string, lines: seq<string>)
    ensures Join([first] + lines) == first + Join(lines)
  {
    assert ([first] + lines)[1..] == lines;
  }

  lemma TextLinesCons(first: string, lines: seq<string>)
    requires TextLines(lines) && first != "" && (Terminated(first) || (lines == [] && NoNewline(first)))
    ensures TextLines([first] + lines)
  {
    var all := [first] + lines;
    assert forall i :: 1 <= i < |all| ==> all[i] == lines[i - 1];
  }

  lemma {:induction false} SplitLinesAreText(s: string)
    ensures TextLines(SplitLines(s)) && Join(SplitLines(s)) == s
    decreases |s|
  {
    if s != "" {
      var first, rest := SplitStep(s);
      SplitLinesAreText(rest);
      JoinCons(first, SplitLines(rest));
      TextLinesCons(first, SplitLines(rest));
    }
  }

  lemma FirstLineEnds(line: string, rest: string)
    requires Terminated(line) || (line != "" && NoNewline(line) && rest == "")
    ensures LineEnd(line + rest) == |line|
  {
    var s := line + rest;
    var n := LineEnd(s);
    assert s[..n][..n - 1] == s[..n - 1];
    assert forall i :: 0 <= i < |line| ==> s[i] == line[i];
    assert forall i :: 0 <= i < |line| - 1 ==> line[i] == line[..|line| - 1][i];
    assert forall i :: 0 <= i < n - 1 ==> s[i] == s[..n - 1][i];
  }

  /** Splitting a concatenation gives the lines back exactly when they are lines of a text. */
  lemma {:induction false} SplitJoin(lines: seq<string>)
    ensures SplitLines(Join(lines)) == lines <==> TextLines(lines)
  {
    SplitLinesAreText(Join(lines));
    if TextLines(lines) { SplitOfText(lines); }
  }

  lemma {:induction false} SplitOfText(lines: seq<string>)
    requires TextLines(lines)
    ensures SplitLines(Join(lines)) == lines
  {
    if lines != [] {
      var rest := Join(lines[1..]);
      SplitOfText(lines[1..]);
      FirstLineEnds(lines[0], rest);
      assert Join(lines)[|lines[0]|..] == rest;
    }
  }

  // ---- hunks --------------------------------------------------------------------------------

  function OldSide(lines: seq<PatchLine>): seq<string> {
    if lines == [] then []
    else (if lines[0].Add? then [] else [lines[0].text]) + OldSide(lines[1..])
  }

  function NewSide(lines: seq<PatchLine>): seq<string> {
    if lines == [] then []
    else (if lines[0].Remove? then [] else [lines[0].text]) + NewSide(lines[1..])
  }

  lemma SidesCons(line: PatchLine, lines: seq<PatchLine>)
    ensures OldSide([line] + lines) == (if line.Add? then [] else [line.text]) + OldSide(lines)
    ensures NewSide([line] + lines) == (if line.Remove? then [] else [line.text]) + NewSide(lines)
  {
    assert ([line] + lines)[1..] == lines;
  }

  lemma AssocLines(a: seq<string>, b: seq<string>, c: seq<string>)
    ensures (a + b) + c == a + (b + c)
  {
  }

  lemma {:induction false} SidesAppend(a: seq<PatchLine>, b: seq<PatchLine>)
    ensures OldSide(a + b) == OldSide(a) + OldSide(b)
    ensures NewSide(a + b) == NewSide(a) + NewSide(b)
    decreases |a|
  {
    if a == [] {
      assert a + b == b;
    } else {
      var line, rest := a[0], a[1..];
      SidesAppend(rest, b);
      SidesCons(line, rest);
      SidesCons(line, rest + b);
      AssocLines(if line.Add? then [] else [line.text], OldSide(rest), OldSide(b));
      AssocLines(if line.Remove? then [] else [line.text], NewSide(rest), NewSide(b));
      assert a == [line] + rest;
      assert a + b == [line] + (rest + b);
    }
  }

  function Start(hunk: Hunk): nat {
    if hunk.oldStart == 0 then 0 else hunk.oldStart - 1
  }

  /** The declared counts are those of the lines. */
  predicate CountsMatch(hunk: Hunk) {
    |OldSide(hunk.lines)| == hunk.oldCount && |NewSide(hunk.lines)| == hunk.newCount
  }

  /** A text seen as gaps with an old and a new side between them. */
  datatype Splice = End(gap: seq<string>) | Part(gap: seq<string>, was: seq<string>, now: seq<string>, rest: Splice)

  function OldLines(s: Splice): seq<string> {
    match s
    case End(gap) => gap
    case Part(gap, was, _, rest) => gap + was + OldLines(rest)
  }

  function NewLines(s: Splice): seq<string> {
    match s
    case End(gap) => gap
    case Part(gap, _, now, rest) => gap + now + NewLines(rest)
  }

  /** From line number `at` on, every hunk stands at its declared position with its declared counts. */
  ghost predicate Places(hunks: seq<Hunk>, s: Splice, at: nat) {
    match s
    case End(_) => hunks == []
    case Part(gap, was, now, rest) =>
      && hunks != [] && CountsMatch(hunks[0])
      && was == OldSide(hunks[0].lines) && now == NewSide(hunks[0].lines)
      && Start(hunks[0]) == at + |gap|
      && Places(hunks[1..], rest, at + |gap| + |was|)
  }

  // ---- apply_hunks ------------------------------------------------------------------------------

  /** The lines the hunks turn `lines` (from line number `at`) into, if they apply. */
  function Spliced(lines: seq<string>, at: nat, hunks: seq<Hunk>): Option<seq<string>>
    decreases |hunks|, 1
  {
    if hunks == [] then Some(lines) else SplicedHunk(lines, at, hunks[0], hunks[1..])
  }

  function SplicedHunk(lines: seq<string>, at: nat, hunk: Hunk, more: seq<Hunk>): Option<seq<string>>
    decreases |more| + 1, 0
  {
    var was := OldSide(hunk.lines);
    var start := Start(hunk);
    if start < at || start - at > |lines| || !(was <= lines[start - at..]) || !CountsMatch(hunk) then None
    else Onto(lines[..start - at] + NewSide(hunk.lines), Spliced(lines[start - at + |was|..], start + |was|, more))
  }

  /** Prepends what is already decided. */
  function Onto(front: seq<string>, rest: Option<seq<string>>): Option<seq<string>> {
    if rest.None? then None else Some(front + rest.value)
  }

  lemma ThreeParts(a: seq<string>, b: seq<string>, c: seq<string>)
    ensures var whole := a + b + c;
      whole[..|a|] == a && whole[|a|..][..|b|] == b && whole[|a| + |b|..] == c
  {
  }

  lemma PlacedHunk(hunk: Hunk, more: seq<Hunk>, gap: seq<string>, was: seq<string>, rest: seq<string>, at: nat)
    requires was == OldSide(hunk.lines) && Start(hunk) == at + |gap| && CountsMatch(hunk)
    ensures SplicedHunk(gap + was + rest, at, hunk, more)
         == Onto(gap + NewSide(hunk.lines), Spliced(rest, at + |gap| + |was|, more))
  {
    ThreeParts(gap, was, rest);
  }

  lemma {:induction false} PlacedSplices(hunks: seq<Hunk>, s: Splice, at: nat)
    requires Places(hunks, s, at)
    ensures Spliced(OldLines(s), at, hunks) == Some(NewLines(s))
    decreases s
  {
    if s.Part? {
      PlacedHunk(hunks[0], hunks[1..], s.gap, s.was, OldLines(s.rest), at);
      PlacedSplices(hunks[1..], s.rest, at + |s.gap| + |s.was|);
    }
  }

  lemma Pieces(lines: seq<string>, n: nat, was: seq<string>)
    requires n <= |lines| && was <= lines[n..]
    ensures lines[..n] + was + lines[n + |was|..] == lines
  {
  }

  lemma {:induction false} SplicedPlaces(lines: seq<string>, at: nat, hunks: seq<Hunk>) returns (s: Splice)
    requires Spliced(lines, at, hunks).Some?
    ensures Places(hunks, s, at) && OldLines(s) == lines
  {
    if hunks == [] {
      s := End(lines);
    } else {
      var was := OldSide(hunks[0].lines);
      var n, m := Start(hunks[0]) - at, |was|;
      var rest := SplicedPlaces(lines[n + m..], Start(hunks[0]) + m, hunks[1..]);
      s := Part(lines[..n], was, NewSide(hunks[0].lines), rest);
      Pieces(lines, n, was);
    }
  }

  /** Hunk application is a splice: it succeeds exactly when the hunks can be placed, and keeps the gaps. */
  lemma SplicedIffPlaced(lines: seq<string>, at: nat, hunks: seq<Hunk>, result: seq<string>)
    ensures Spliced(lines, at, hunks) == Some(result) <==>
      exists s :: Places(hunks, s, at) && OldLines(s) == lines && NewLines(s) == result
  {
    if Spliced(lines, at, hunks) == Some(result) {
      var s := SplicedPlaces(lines, at, hunks);
      PlacedSplices(hunks, s, at);
    }
    forall s | Places(hunks, s, at) && OldLines(s) == lines
      ensures Spliced(lines, at, hunks) == Some(NewLines(s))
    {
      PlacedSplices(hunks, s, at);
    }
  }

  lemma JoinTake(lines: seq<string>, from: nat, i: nat)
    requires from <= i < |lines|
    ensures Join(lines[from..i + 1]) == Join(lines[from..i]) + lines[i]
  {
    assert lines[from..i + 1] == lines[from..i] + [lines[i]];
    JoinAppend(lines[from..i], [lines[i]]);
    assert Join([lines[i]]) == lines[i] + "";
  }

  /** Copies original lines up to `to`; false when cancelled. */
  method CopyLines(lines: seq<string>, from: nat, to: nat, output: string) returns (ok: bool, copied: string)
    requires from <= to <= |lines|
    ensures ok ==> copied == output + Join(lines[from..to])
  {
    copied := output;
    for i := from to to
      invariant copied == output + Join(lines[from..i])
    {
      var cancelled: bool := *;
      if (i - from) % 1024 == 0 && cancelled { return false, copied; }
      JoinTake(lines, from, i);
      copied := copied + lines[i];
    }
    return true, copied;
  }

  /** `require_original_line`. */
  function RequireOriginalLine(lines: seq<string>, index: nat, expected: string): Option<PatchError> {
    if index < |lines| && lines[index] == expected then None else Some(Conflict)
  }

  lemma SidesSnoc(front: seq<PatchLine>, line: PatchLine)
    ensures OldSide(front + [line]) == if line.Add? then OldSide(front) else OldSide(front) + [line.text]
    ensures NewSide(front + [line]) == if line.Remove? then NewSide(front) else NewSide(front) + [line.text]
  {
    SidesAppend(front, [line]);
    assert [line][1..] == [];
  }

  lemma SidePrefix(lines: seq<PatchLine>, front: seq<PatchLine>)
    requires front <= lines
    ensures OldSide(front) <= OldSide(lines)
  {
    assert lines == front + lines[|front|..];
    SidesAppend(front, lines[|front|..]);
  }

  lemma TakeSnoc(lines: seq<PatchLine>, i: nat)
    requires i < |lines|
    ensures lines[..i + 1] == lines[..i] + [lines[i]]
  {
  }

  lemma JoinSnoc(a: seq<string>, line: string)
    ensures Join(a + [line]) == Join(a) + line
  {
    JoinAppend(a, [line]);
    assert Join([line]) == line + "";
  }

  /** One line of a hunk at the cursor. */
  method ApplyLine(lines: seq<string>, cursor: nat, line: PatchLine, output: string)
    returns (error: Option<PatchError>, next: nat, applied: string)
    requires cursor <= |lines|
    ensures error.None? <==> line.Add? || (cursor < |lines| && lines[cursor] == line.text)
    ensures error.Some? ==> error.value == Conflict
    ensures error.None? ==>
      && next == cursor + (if line.Add? then 0 else 1)
      && applied == output + (if line.Remove? then "" else line.text)
  {
    next, applied := cursor, output;
    match line
    case Context(expected) =>
      error := RequireOriginalLine(lines, cursor, expected);
      applied := applied + expected;
      next := next + 1;
    case Remove(expected) =>
      error := RequireOriginalLine(lines, cursor, expected);
      next := next + 1;
    case Add(added) =>
      error := None;
      applied := applied + added;
  }

  /** The lines of one hunk against the file from `from`. */
  method ApplyLines(lines: seq<string>, from: nat, hunk: Hunk, output: string)
    returns (error: Option<PatchError>, cursor: nat, applied: string)
    requires from <= |lines|
    ensures error.None? ==>
      && OldSide(hunk.lines) <= lines[from..] && CountsMatch(hunk)
      && cursor == from + |OldSide(hunk.lines)|
      && applied == output + Join(NewSide(hunk.lines))
    ensures error == Some(Conflict) ==> !(OldSide(hunk.lines) <= lines[from..])
    ensures error == Some(InvalidPatch) ==> !CountsMatch(hunk)
  {
    cursor, applied, error := from, output, None;
    var oldSeen, newSeen := 0, 0;
    ghost var front: seq<PatchLine> := [];
    for i := 0 to |hunk.lines|
      invariant from <= cursor <= |lines|
      invariant front == hunk.lines[..i]
      invariant OldSide(front) == lines[from..cursor] && oldSeen == cursor - from
      invariant newSeen == |NewSide(front)|
      invariant applied == output + Join(NewSide(front))
    {
      var cancelled: bool := *;
      if cancelled { return Some(Cancelled), cursor, applied; }
      var line := hunk.lines[i];
      TakeSnoc(hunk.lines, i);
      SidesSnoc(front, line);
      JoinSnoc(NewSide(front), line.text);
      var next;
      error, next, applied := ApplyLine(lines, cursor, line, applied);
      if error.Some? {
        SidePrefix(hunk.lines, front + [line]);
        Mismatch(lines, from, cursor, line.text, OldSide(hunk.lines));
        return;
      }
      Pushed(output, Join(NewSide(front)), if line.Remove? then "" else line.text);
      oldSeen := oldSeen + if line.Add? then 0 else 1;
      newSeen := newSeen + if line.Remove? then 0 else 1;
      cursor, front := next, front + [line];
    }
    assert front == hunk.lines;
    error := if oldSeen != hunk.oldCount || newSeen != hunk.newCount then Some(InvalidPatch) else None;
  }

  lemma Pushed(output: string, a: string, b: string)
    ensures (output + a) + b == output + (a + b) && output + (a + "") == output + a
  {
    assert a + "" == a;
  }

  lemma Mismatch(lines: seq<string>, from: nat, cursor: nat, expected: string, side: seq<string>)
    requires from <= cursor <= |lines| && lines[from..cursor] + [expected] <= side
    requires cursor < |lines| ==> lines[cursor] != expected
    ensures !(side <= lines[from..])
  {
    assert side[cursor - from] == expected;
  }

  lemma SlicesFrom(lines: seq<string>, at: nat, start: nat, next: nat)
    requires at <= start <= next <= |lines|
    ensures lines[at..][start - at..] == lines[start..]
    ensures lines[at..][..start - at] == lines[at..start]
    ensures lines[at..][next - at..] == lines[next..]
  {
  }

  lemma SplicedStep(lines: seq<string>, at: nat, hunk: Hunk, more: seq<Hunk>, start: nat, next: nat)
    requires start == Start(hunk) && at <= start <= |lines|
    requires OldSide(hunk.lines) <= lines[start..] && CountsMatch(hunk)
    requires next == start + |OldSide(hunk.lines)|
    ensures SplicedHunk(lines[at..], at, hunk, more)
         == Onto(lines[at..start] + NewSide(hunk.lines), Spliced(lines[next..], next, more))
  {
    SlicesFrom(lines, at, start, next);
  }

  /** The hunk at the cursor does not apply. */
  lemma SplicedStops(lines: seq<string>, at: nat, hunk: Hunk, more: seq<Hunk>)
    requires at <= |lines|
    requires at <= Start(hunk) <= |lines| ==> !(OldSide(hunk.lines) <= lines[Start(hunk)..]) || !CountsMatch(hunk)
    ensures SplicedHunk(lines[at..], at, hunk, more).None?
  {
    var start := Start(hunk);
    if at <= start <= |lines| {
      SlicesFrom(lines, at, start, start);
    }
  }

  lemma NextHunk(lines: seq<string>, at: nat, hunks: seq<Hunk>, i: nat)
    requires i < |hunks|
    ensures Spliced(lines, at, hunks[i..]) == SplicedHunk(lines, at, hunks[i], hunks[i + 1..])
  {
    assert hunks[i..][1..] == hunks[i + 1..];
  }

  /** One hunk: the gap before it is copied, then its lines are applied. */
  method ApplyHunk(lines: seq<string>, cursor: nat, hunk: Hunk, output: string, ghost more: seq<Hunk>)
    returns (error: Option<PatchError>, next: nat, applied: string, ghost added: seq<string>)
    requires cursor <= |lines|
    ensures error.None? ==>
      && next <= |lines| && applied == output + Join(added)
      && SplicedHunk(lines[cursor..], cursor, hunk, more) == Onto(added, Spliced(lines[next..], next, more))
    ensures error.Some? && error.value != Cancelled ==> SplicedHunk(lines[cursor..], cursor, hunk, more).None?
    ensures error == Some(InvalidPatch) ==> !CountsMatch(hunk)
  {
    next, applied, added := cursor, output, [];
    var start := Start(hunk);
    if start < cursor || start > |lines| {
      SplicedStops(lines, cursor, hunk, more);
      return Some(Conflict), next, applied, added;
    }
    var ok;
    ok, applied := CopyLines(lines, cursor, start, output);
    if !ok { return Some(Cancelled), next, applied, added; }
    error, next, applied := ApplyLines(lines, start, hunk, applied);
    if error.Some? {
      if error.value != Cancelled { SplicedStops(lines, cursor, hunk, more); }
      return;
    }
    SplicedStep(lines, cursor, hunk, more, start, next);
    added := lines[cursor..start] + NewSide(hunk.lines);
    JoinThree(output, lines[cursor..start], NewSide(hunk.lines));
  }

  /** `apply_hunks`: the splice of the lines of `original`, or the reason it cannot be made. */
  method ApplyHunks(original: string, hunks: seq<Hunk>) returns (result: Result<string, PatchError>)
    ensures result.Success? ==>
      Spliced(SplitLines(original), 0, hunks).Some? && result.value == Join(Spliced(SplitLines(original), 0, hunks).value)
    ensures result == Failure(Conflict) ==> Spliced(SplitLines(original), 0, hunks).None?
    ensures result == Failure(InvalidPatch) ==>
      Spliced(SplitLines(original), 0, hunks).None? && exists i :: 0 <= i < |hunks| && !CountsMatch(hunks[i])
  {
    var lines := SplitLines(original);
    var output, cursor := "", 0;
    ghost var done: seq<string> := [];
    ghost var whole := Spliced(lines, 0, hunks);
    assert lines[0..] == lines && hunks[0..] == hunks;
    OntoNothing(whole);
    for i := 0 to |hunks|
      invariant cursor <= |lines| && output == Join(done)
      invariant whole == Onto(done, Spliced(lines[cursor..], cursor, hunks[i..]))
    {
      var cancelled: bool := *;
      if cancelled { return Failure(Cancelled); }
      NextHunk(lines[cursor..], cursor, hunks, i);
      var error;
      ghost var added;
      error, cursor, output, added := ApplyHunk(lines, cursor, hunks[i], output, hunks[i + 1..]);
      if error.Some? { return Failure(error.value); }
      OntoOnto(done, added, Spliced(lines[cursor..], cursor, hunks[i + 1..]));
      JoinAppend(done, added);
      done := done + added;
    }
    var ok;
    assert hunks[|hunks|..] == [] && lines[cursor..|lines|] == lines[cursor..];
    ok, output := CopyLines(lines, cursor, |lines|, output);
    if !ok { return Failure(Cancelled); }
    JoinAppend(done, lines[cursor..]);
    return Success(output);
  }

  lemma OntoNothing(rest: Option<seq<string>>)
    ensures Onto([], rest) == rest
  {
    if rest.Some? { assert [] + rest.value == rest.value; }
  }

  lemma OntoOnto(done: seq<string>, more: seq<string>, rest: Option<seq<string>>)
    ensures Onto(done, Onto(more, rest)) == Onto(done + more, rest)
  {
    if rest.Some? { assert done + (more + rest.value) == (done + more) + rest.value; }
  }

  lemma JoinThree(output: string, gap: seq<string>, side: seq<string>)
    ensures output + Join(gap + side) == (output + Join(gap)) + Join(side)
  {
    JoinAppend(gap, side);
  }

  // ---- reversing a patch --------------------------------------------------------------------------

  function Flip(line: PatchLine): PatchLine {
    match line
    case Context(text) => Context(text)
    case Remove(text) => Add(text)
    case Add(text) => Remove(text)
  }

  function FlipAll(lines: seq<PatchLine>): seq<PatchLine> {
    if lines == [] then [] else [Flip(lines[0])] + FlipAll(lines[1..])
  }

  lemma {:induction false} FlippedSides(lines: seq<PatchLine>)
    ensures OldSide(FlipAll(lines)) == NewSide(lines) && NewSide(FlipAll(lines)) == OldSide(lines)
  {
    if lines != [] {
      FlippedSides(lines[1..]);
      assert FlipAll(lines)[1..] == FlipAll(lines[1..]);
    }
  }

  /** The hunks that undo `hunks`, at the positions their new sides have from line number `at` on. */
  ghost function Reversed(hunks: seq<Hunk>, s: Splice, at: nat): seq<Hunk>
    decreases s
  {
    if s.End? || hunks == [] then []
    else
      [Hunk(at + |s.gap| + 1, hunks[0].newCount, hunks[0].oldCount, FlipAll(hunks[0].lines))]
      + Reversed(hunks[1..], s.rest, at + |s.gap| + |s.now|)
  }

  function Swap(s: Splice): Splice {
    match s
    case End(gap) => End(gap)
    case Part(gap, was, now, rest) => Part(gap, now, was, Swap(rest))
  }

  lemma {:induction false} SwapSides(s: Splice)
    ensures OldLines(Swap(s)) == NewLines(s) && NewLines(Swap(s)) == OldLines(s) && Swap(Swap(s)) == s
  {
    if s.Part? { SwapSides(s.rest); }
  }

  /** The reversed hunks are placed on the patched lines, between the same gaps. */
  lemma {:induction false} ReversedPlaces(hunks: seq<Hunk>, s: Splice, at: nat, to: nat)
    requires Places(hunks, s, at)
    ensures Places(Reversed(hunks, s, to), Swap(s), to)
    decreases s
  {
    if s.Part? {
      FlippedSides(hunks[0].lines);
      ReversedPlaces(hunks[1..], s.rest, at + |s.gap| + |s.was|, to + |s.gap| + |s.now|);
      assert Reversed(hunks, s, to)[1..] == Reversed(hunks[1..], s.rest, to + |s.gap| + |s.now|);
    }
  }

  /** Splices that differ in the text of their gaps only, and in the length of the last one. */
  predicate SameShape(a: Splice, b: Splice) {
    match (a, b)
    case (End(_), End(_)) => true
    case (Part(gapA, wasA, nowA, restA), Part(gapB, wasB, nowB, restB)) =>
      |gapA| == |gapB| && wasA == wasB && nowA == nowB && SameShape(restA, restB)
    case _ => false
  }

  lemma {:induction false} PlacedShape(hunks: seq<Hunk>, s: Splice, at: nat, to: nat, found: Splice)
    requires Places(hunks, s, at) && Places(Reversed(hunks, s, to), found, to)
    ensures SameShape(s, Swap(found))
    decreases s
  {
    if s.Part? {
      FlippedSides(hunks[0].lines);
      assert Reversed(hunks, s, to)[1..] == Reversed(hunks[1..], s.rest, to + |s.gap| + |s.now|);
      PlacedShape(hunks[1..], s.rest, at + |s.gap| + |s.was|, to + |s.gap| + |s.now|, found.rest);
    }
  }

  lemma TextLinesTail(lines: seq<string>, k: nat)
    requires TextLines(lines) && k <= |lines|
    ensures TextLines(lines[k..])
  {
    assert forall i :: 0 <= i < |lines[k..]| ==> lines[k..][i] == lines[i + k];
  }

  /** A line that begins a text which begins with another line: same newline, same line. */
  lemma SameFirstLine(x: string, xs: string, y: string, ys: string)
    requires Terminated(x) || (x != "" && NoNewline(x) && xs == "")
    requires Terminated(y) || (y != "" && NoNewline(y) && ys == "")
    requires x <= y + ys && y <= x + xs
    ensures x == y
  {
    FirstLineEnds(x, xs);
    FirstLineEnds(y, ys);
    assert forall i :: 0 <= i < |x| && i < |y| ==> x[i] == (y + ys)[i] == y[i];
    assert forall i :: 0 <= i < |x| - 1 ==> x[i] == x[..|x| - 1][i];
    assert forall i :: 0 <= i < |y| - 1 ==> y[i] == y[..|y| - 1][i];
  }

  lemma {:induction false} SamePrefix(xs: seq<string>, ys: seq<string>, k: nat)
    requires TextLines(xs) && TextLines(ys) && k <= |xs| && k <= |ys|
    requires Join(xs[..k]) <= Join(ys) && Join(ys[..k]) <= Join(xs)
    ensures xs[..k] == ys[..k]
  {
    if k > 0 {
      var x, y := xs[0], ys[0];
      assert xs[..k][1..] == xs[1..][..k - 1] && ys[..k][1..] == ys[1..][..k - 1];
      Begins(x, Join(xs[1..][..k - 1]), Join(ys));
      Begins(y, Join(ys[1..][..k - 1]), Join(xs));
      SameFirstLine(x, Join(xs[1..]), y, Join(ys[1..]));
      TextLinesTail(xs, 1);
      TextLinesTail(ys, 1);
      CancelPrefix(x, Join(xs[1..][..k - 1]), Join(ys[1..]));
      CancelPrefix(x, Join(ys[1..][..k - 1]), Join(xs[1..]));
      SamePrefix(xs[1..], ys[1..], k - 1);
      assert xs[..k] == [x] + xs[1..][..k - 1] && ys[..k] == [y] + ys[1..][..k - 1];
    }
  }

  lemma Begins(x: string, rest: string, whole: string)
    requires x + rest <= whole
    ensures x <= whole
  {
    assert x == (x + rest)[..|x|];
  }

  lemma CancelPrefix(x: string, a: string, b: string)
    ensures x + a <= x + b ==> a <= b
    ensures x + a == x + b ==> a == b
  {
    assert a == (x + a)[|x|..] && b == (x + b)[|x|..];
    if x + a <= x + b {
      assert forall i :: 0 <= i < |a| ==> a[i] == (x + a)[|x| + i] == (x + b)[|x| + i] == b[i];
    }
  }

  lemma JoinParts(a: seq<string>, b: seq<string>, c: seq<string>)
    ensures Join(a + b + c) == (Join(a) + Join(b)) + Join(c)
    ensures Join(a) <= Join(a + b + c)
  {
    JoinAppend(a + b, c);
    JoinAppend(a, b);
  }

  lemma CancelParts(a: seq<string>, b: seq<string>, c: seq<string>, d: seq<string>)
    requires Join(a + b + c) == Join(a + b + d)
    ensures Join(c) == Join(d)
  {
    JoinParts(a, b, c);
    JoinParts(a, b, d);
    CancelPrefix(Join(a) + Join(b), Join(c), Join(d));
  }

  lemma FrontPart(a: seq<string>, b: seq<string>, c: seq<string>)
    ensures (a + b + c)[..|a|] == a
  {
  }

  /** `ys` re-splits a text that begins with `gap`, and `xs` one that begins with `found`. */
  lemma GapStep(xs: seq<string>, ys: seq<string>, gap: seq<string>, was: seq<string>, now: seq<string>, found: seq<string>,
                xRest: seq<string>, yRest: seq<string>, moreNew: seq<string>, moreOld: seq<string>)
    requires TextLines(xs) && TextLines(ys) && |gap| == |found|
    requires xs == gap + was + xRest && ys == found + now + yRest
    requires Join(ys) == Join(gap + now + moreNew) && Join(xs) == Join(found + was + moreOld)
    ensures gap == found
  {
    FrontPart(gap, was, xRest);
    FrontPart(found, now, yRest);
    JoinParts(gap, now, moreNew);
    JoinParts(found, was, moreOld);
    SamePrefix(xs, ys, |gap|);
  }

  /** Two texts of one shape that agree after undoing and redoing the changes have the same gaps. */
  lemma {:induction false} SameGaps(a: Splice, b: Splice)
    requires SameShape(a, b) && TextLines(OldLines(a)) && TextLines(NewLines(b))
    requires Join(NewLines(b)) == Join(NewLines(a)) && Join(OldLines(a)) == Join(OldLines(b))
    ensures a == b
    decreases a
  {
    var xs, ys := OldLines(a), NewLines(b);
    if a.End? {
      SplitOfText(xs);
      SplitOfText(ys);
    } else {
      var xRest, yRest := OldLines(a.rest), NewLines(b.rest);
      var moreNew, moreOld := NewLines(a.rest), OldLines(b.rest);
      GapStep(xs, ys, a.gap, a.was, a.now, b.gap, xRest, yRest, moreNew, moreOld);
      CancelParts(a.gap, a.now, yRest, moreNew);
      CancelParts(a.gap, a.was, xRest, moreOld);
      ThreeParts(a.gap, a.was, xRest);
      ThreeParts(b.gap, b.now, yRest);
      TextLinesTail(xs, |a.gap| + |a.was|);
      TextLinesTail(ys, |b.gap| + |b.now|);
      SameGaps(a.rest, b.rest);
    }
  }

  /**
   Reversing a patch restores the original exactly when the patched lines are lines of a text:
   none empty, and all but the last ended by their only newline.
   */
  lemma ReversalRestores(original: string, hunks: seq<Hunk>, s: Splice)
    requires Places(hunks, s, 0) && OldLines(s) == SplitLines(original)
    ensures var undone := Spliced(SplitLines(Join(NewLines(s))), 0, Reversed(hunks, s, 0));
      TextLines(NewLines(s)) <==> undone.Some? && Join(undone.value) == original
  {
    var patched, back := NewLines(s), Reversed(hunks, s, 0);
    var again := SplitLines(Join(patched));
    SplitLinesAreText(original);
    SplitLinesAreText(Join(patched));
    SwapSides(s);
    ReversedPlaces(hunks, s, 0, 0);
    PlacedSplices(back, Swap(s), 0);
    if TextLines(patched) { SplitOfText(patched); }
    var undone := Spliced(again, 0, back);
    if undone.Some? && Join(undone.value) == original {
      var found := SplicedPlaces(again, 0, back);
      PlacedSplices(back, found, 0);
      PlacedShape(hunks, s, 0, 0, found);
      SwapSides(found);
      SameGaps(s, Swap(found));
    }
  }

  /** A reversal that fails: a line added without a newline before another line melts into it. */
  lemma ReversalLosesText() returns (original: string, hunks: seq<Hunk>, s: Splice)
    ensures Places(hunks, s, 0) && OldLines(s) == SplitLines(original) && !TextLines(NewLines(s))
    ensures var undone := Spliced(SplitLines(Join(NewLines(s))), 0, Reversed(hunks, s, 0));
      !(undone.Some? && Join(undone.value) == original)
  {
    original := "a\n";
    hunks, s := [Hunk(1, 1, 2, [Add("b"), Context("a\n")])], Part([], ["a\n"], ["b", "a\n"], End([]));
    MeltingSides();
    OneTextLine("a\n");
    assert NewLines(s) == ["b", "a\n"] && NewLines(s)[0] == "b";
    ReversalRestores(original, hunks, s);
  }

  lemma MeltingSides()
    ensures OldSide([Add("b"), Context("a\n")]) == ["a\n"] && NewSide([Add("b"), Context("a\n")]) == ["b", "a\n"]
  {
    SidesCons(Add("b"), [Context("a\n")]);
    SidesCons(Context("a\n"), []);
  }

  lemma OneTextLine(line: string)
    requires Terminated(line)
    ensures SplitLines(line) == [line]
  {
    hide Terminated, SplitLines;
    assert Join([line]) == line by {
      JoinCons(line, []);
      assert [line] + [] == [line];
    }
    SplitOfText([line]);
  }
}
