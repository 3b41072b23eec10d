/**
 The streaming file search of crates/capability-coding/src/search.rs: chunked reads,
 line assembly, per-file rollback and budgets, against a whole-file scan.
 The serialized size of a match is a parameter.
 */
module FileSearch {
  import opened Prelude
  import opened Utf8
  import opened LiteralSearch

  const MAX_SEARCH_MATCHES: nat := 200
  const MAX_TOOL_CONTENT_SERIALIZED_BYTES: nat := 48 * 1024
  const MAX_SEARCH_BYTES: nat := 256 * 1024 * 1024
  const MAX_SEARCH_FILES: nat := 100_000
  const BUFFER_SIZE: nat := 8 * 1024
  const CARRIAGE_RETURN: byte := 13

  datatype Match = Match(path: string, line: nat, text: seq<byte>)

  /** One file being searched; `size` is the serialized size of a match. */
  datatype Scan = Scan(needle: seq<byte>, path: string, size: Match -> nat)

  /** What a file may change and a rollback restores. */
  datatype Tally = Tally(
    matches: seq<Match>,
    serializedBytes: nat,
    linesTruncated: nat,
    truncated: bool,
    limitReached: bool)

  datatype SearchError = Cancelled | IoError | ValidationDrifted

  // ---- the whole-file scan ------------------------------------------------------------

  function Visible(line: seq<byte>): seq<byte> {
    line[..if |line| < MAX_SEARCH_LINE_BYTES then |line| else MAX_SEARCH_LINE_BYTES]
  }

  function StripReturn(text: seq<byte>): seq<byte> {
    if text != [] && text[|text| - 1] == CARRIAGE_RETURN then text[..|text| - 1] else text
  }

  /** The complete characters of what is shown of a line, without a final carriage return. */
  function ShownText(line: seq<byte>): seq<byte> {
    var visible := Visible(line);
    var check := FromUtf8(visible);
    StripReturn(if check.Valid? then visible else visible[..check.validUpTo])
  }

  /** One line of a file. */
  ghost function TallyLine(t: Tally, scan: Scan, number: nat, line: seq<byte>): Tally {
    if !Occurs(scan.needle, line) || t.limitReached then t
    else
      var m := Match(scan.path, number, ShownText(line));
      var shown := if |line| > MAX_SEARCH_LINE_BYTES
        then t.(linesTruncated := t.linesTruncated + 1, truncated := true) else t;
      if |t.matches| == MAX_SEARCH_MATCHES || t.serializedBytes + scan.size(m) > MAX_TOOL_CONTENT_SERIALIZED_BYTES then
        shown.(truncated := true, limitReached := true)
      else
        shown.(matches := t.matches + [m], serializedBytes := t.serializedBytes + scan.size(m))
  }

  predicate NoNewline(text: seq<byte>) {
    forall i :: 0 <= i < |text| ==> text[i] != NEWLINE
  }

  function FirstNewline(text: seq<byte>): (n: nat)
    ensures n <= |text| && NoNewline(text[..n])
    ensures n < |text| ==> text[n] == NEWLINE
  {
    if text == [] || text[0] == NEWLINE then 0 else 1 + FirstNewline(text[1..])
  }

  /** All lines of `text`, numbered from `number`; an unterminated last line counts when it is not empty. */
  ghost function TallyText(t: Tally, scan: Scan, number: nat, text: seq<byte>): Tally
    decreases |text|
  {
    var n := FirstNewline(text);
    if n < |text| then TallyText(TallyLine(t, scan, number, text[..n]), scan, number + 1, text[n + 1..])
    else if text == [] then t
    else TallyLine(t, scan, number, text)
  }

  lemma NewlineAfter(line: seq<byte>, more: seq<byte>)
    requires NoNewline(line)
    ensures FirstNewline(line + ([NEWLINE] + more)) == |line|
  {
    var text := line + ([NEWLINE] + more);
    var n := FirstNewline(text);
    assert forall i :: 0 <= i < |line| ==> text[i] == line[i];
    assert text[|line|] == NEWLINE;
    assert forall i :: 0 <= i < n ==> text[i] == text[..n][i];
  }

  lemma TallyAfterNewline(t: Tally, scan: Scan, number: nat, line: seq<byte>, more: seq<byte>)
    requires NoNewline(line)
    ensures TallyText(t, scan, number, line + ([NEWLINE] + more))
         == TallyText(TallyLine(t, scan, number, line), scan, number + 1, more)
  {
    NewlineAfter(line, more);
    var text := line + ([NEWLINE] + more);
    assert text[..|line|] == line;
    assert text[|line| + 1..] == more;
  }

  lemma NoNewlineAtAll(line: seq<byte>)
    requires NoNewline(line)
    ensures FirstNewline(line) == |line|
  {
  }

  lemma TallyLastLine(t: Tally, scan: Scan, number: nat, line: seq<byte>)
    requires NoNewline(line)
    ensures TallyText(t, scan, number, line) == if line == [] then t else TallyLine(t, scan, number, line)
  {
    NoNewlineAtAll(line);
  }

  // ---- what the scan means -----------------------------------------------------------------

  function LineMatch(scan: Scan, number: nat, line: seq<byte>): Match {
    Match(scan.path, number, ShownText(line))
  }

  /** The matches of `text` if nothing limited them, in line order. */
  ghost function AllMatches(scan: Scan, number: nat, text: seq<byte>): seq<Match>
    decreases |text|
  {
    var n := FirstNewline(text);
    if n < |text| then
      (if Occurs(scan.needle, text[..n]) then [LineMatch(scan, number, text[..n])] else [])
      + AllMatches(scan, number + 1, text[n + 1..])
    else if text != [] && Occurs(scan.needle, text) then [LineMatch(scan, number, text)]
    else []
  }

  lemma LineMatches(t: Tally, scan: Scan, number: nat, line: seq<byte>)
    requires !t.limitReached
    ensures var t' := TallyLine(t, scan, number, line);
      if !Occurs(scan.needle, line) then t' == t
      else if t'.limitReached then t'.matches == t.matches
      else t'.matches == t.matches + [LineMatch(scan, number, line)]
  {
  }

  lemma {:induction false} LimitIsFinal(t: Tally, scan: Scan, number: nat, text: seq<byte>)
    requires t.limitReached
    ensures TallyText(t, scan, number, text) == t
    decreases |text|
  {
    var n := FirstNewline(text);
    if n < |text| {
      LimitIsFinal(t, scan, number + 1, text[n + 1..]);
    }
  }

  /** The matches a file commits are an in-order prefix of its matching lines, and all of them unless a limit was hit. */
  lemma {:induction false} CommittedMatches(t: Tally, scan: Scan, number: nat, text: seq<byte>) returns (committed: seq<Match>)
    requires !t.limitReached
    ensures TallyText(t, scan, number, text).matches == t.matches + committed
    ensures committed <= AllMatches(scan, number, text)
    ensures !TallyText(t, scan, number, text).limitReached ==> committed == AllMatches(scan, number, text)
    decreases |text|
  {
    hide TallyLine, Occurs, LineMatch;
    var n := FirstNewline(text);
    if n < |text| {
      var line, more := text[..n], text[n + 1..];
      var t1 := TallyLine(t, scan, number, line);
      var here := if Occurs(scan.needle, line) then [LineMatch(scan, number, line)] else [];
      assert TallyText(t, scan, number, text) == TallyText(t1, scan, number + 1, more);
      assert AllMatches(scan, number, text) == here + AllMatches(scan, number + 1, more);
      hide TallyText, AllMatches;
      LineMatches(t, scan, number, line);
      if t1.limitReached {
        LimitIsFinal(t1, scan, number + 1, more);
        committed := [];
      } else {
        var rest := CommittedMatches(t1, scan, number + 1, more);
        committed := here + rest;
      }
    } else {
      LineMatches(t, scan, number, text);
      var t' := TallyText(t, scan, number, text);
      committed := if text != [] && Occurs(scan.needle, text) && !t'.limitReached then [LineMatch(scan, number, text)] else [];
    }
  }

  /** Both budgets hold after any file. */
  ghost predicate WithinLimits(t: Tally) {
    |t.matches| <= MAX_SEARCH_MATCHES && t.serializedBytes <= MAX_TOOL_CONTENT_SERIALIZED_BYTES
  }

  lemma {:induction false} BudgetsKept(t: Tally, scan: Scan, number: nat, text: seq<byte>)
    requires WithinLimits(t)
    ensures WithinLimits(TallyText(t, scan, number, text))
    decreases |text|
  {
    var n := FirstNewline(text);
    if n < |text| {
      BudgetsKept(TallyLine(t, scan, number, text[..n]), scan, number + 1, text[n + 1..]);
    }
  }

  // ---- the streaming search ---------------------------------------------------------------------

  /** A file being read: what it still delivers. Read sizes and failures are the environment's choice. */
  class FileReader {
    ghost var rest: seq<byte>
    var source: seq<byte>

    ghost predicate Valid()
      reads this
    {
      source == rest
    }

    constructor (bytes: seq<byte>)
      ensures Valid() && rest == bytes
    {
      source, rest := bytes, bytes;
    }

    /** Up to `limit` bytes; none only at the end of the file. `None` is an I/O error. */
    method Read(limit: nat) returns (bytes: Option<seq<byte>>)
      requires Valid() && limit > 0
      modifies this
      ensures Valid()
      ensures bytes.Some? ==>
        && old(rest) == bytes.value + rest
        && |bytes.value| <= limit
        && (bytes.value == [] ==> old(rest) == [])
    {
      var fails: bool := *;
      if fails { return None; }
      var n: int := *;
      if n < 1 || n > limit { n := 1; }
      if n > |source| { n := |source|; }
      bytes := Some(source[..n]);
      source, rest := source[n..], rest[n..];
    }
  }

  /** The fields of `SearchResults` a file search touches. */
  class SearchResults {
    var matches: seq<Match>
    var serializedBytes: nat
    var bytesSearched: nat
    var filesSearched: nat
    var binaryFilesSkipped: nat
    var linesTruncated: nat
    var truncated: bool
    var limitReached: bool

    ghost function Tallied(): Tally
      reads this
    {
      Tally(matches, serializedBytes, linesTruncated, truncated, limitReached)
    }

    constructor ()
      ensures Tallied() == Tally([], 0, 0, false, false)
      ensures bytesSearched == 0 && filesSearched == 0 && binaryFilesSkipped == 0
    {
      matches, serializedBytes, linesTruncated, truncated, limitReached := [], 0, 0, false, false;
      bytesSearched, filesSearched, binaryFilesSkipped := 0, 0, 0;
    }

    /** Restores the checkpoint, given that matches were only appended since. */
    method DiscardBinaryFile(checkpoint: Checkpoint, ghost before: Tally)
      requires checkpoint.Of(before) && before.matches <= matches
      modifies `matches, `serializedBytes, `linesTruncated, `truncated, `limitReached, `binaryFilesSkipped
      ensures Tallied() == before && binaryFilesSkipped == old(binaryFilesSkipped) + 1
    {
      matches := matches[..checkpoint.matchesLen];
      serializedBytes, linesTruncated := checkpoint.serializedBytes, checkpoint.linesTruncated;
      truncated, limitReached := checkpoint.truncated, checkpoint.limitReached;
      binaryFilesSkipped := binaryFilesSkipped + 1;
    }

    method DiscardIncompleteFile(checkpoint: Checkpoint, ghost before: Tally)
      requires checkpoint.Of(before) && before.matches <= matches
      modifies `matches, `serializedBytes, `linesTruncated, `truncated, `limitReached
      ensures Tallied() == before.(truncated := true, limitReached := true)
    {
      matches := matches[..checkpoint.matchesLen];
      serializedBytes, linesTruncated := checkpoint.serializedBytes, checkpoint.linesTruncated;
      truncated, limitReached := true, true;
    }
  }

  datatype Checkpoint = Checkpoint(
    matchesLen: nat,
    serializedBytes: nat,
    linesTruncated: nat,
    truncated: bool,
    limitReached: bool)
  {
    predicate Of(t: Tally) {
      this == Checkpoint(|t.matches|, t.serializedBytes, t.linesTruncated, t.truncated, t.limitReached)
    }
  }

  /** Two-stage decoding of what is shown of a line; `None` only for malformed bytes. */
  method VisibleUtf8Prefix(bytes: seq<byte>) returns (text: Option<seq<byte>>)
    ensures text.Some? <==> !FromUtf8(bytes).Invalid?
    ensures text.Some? ==> text.value == if FromUtf8(bytes).Valid? then bytes else bytes[..FromUtf8(bytes).validUpTo]
  {
    match FromUtf8(bytes)
    case Valid => return Some(bytes);
    case Invalid(_) => return None;
    case Truncated(k) =>
      ValidUpTo(bytes, k);
      match FromUtf8(bytes[..k])
      case Valid => return Some(bytes[..k]);
      case _ => return None;
  }

  /** What is shown of a well-formed line never fails to decode. */
  lemma VisibleDecodes(line: seq<byte>)
    requires !FromUtf8(line).Invalid?
    ensures !FromUtf8(Visible(line)).Invalid?
  {
    var visible := Visible(line);
    assert line == visible + line[|visible|..];
    PrefixNotInvalid(visible, line[|visible|..]);
  }

  /** Records a finished line; on text that is not malformed it cannot fail. */
  method FinishLine(scan: Scan, number: nat, line: LineState, results: SearchResults) returns (error: Option<SearchError>)
    requires line.Valid(scan.needle)
    modifies results`matches, results`serializedBytes, results`linesTruncated, results`truncated, results`limitReached
    ensures error.Some? ==> error.value == ValidationDrifted && FromUtf8(line.text).Invalid?
    ensures error.None? ==> results.Tallied() == TallyLine(old(results.Tallied()), scan, number, line.text)
    ensures old(results.matches) <= results.matches
  {
    hide FromUtf8;
    if !line.matched || results.limitReached { return None; }
    var text := VisibleUtf8Prefix(line.visible);
    if text.None? {
      assert !FromUtf8(line.text).Invalid? ==> text.Some? by {
        if !FromUtf8(line.text).Invalid? { VisibleDecodes(line.text); }
      }
      return Some(ValidationDrifted);
    }
    if line.truncated {
      results.linesTruncated := results.linesTruncated + 1;
      results.truncated := true;
    }
    var value := Match(scan.path, number, StripReturn(text.value));
    if |results.matches| == MAX_SEARCH_MATCHES
       || results.serializedBytes + scan.size(value) > MAX_TOOL_CONTENT_SERIALIZED_BYTES {
      results.truncated, results.limitReached := true, true;
      return None;
    }
    results.serializedBytes := results.serializedBytes + scan.size(value);
    results.matches := results.matches + [value];
    return None;
  }

  lemma SplitChunk(open: seq<byte>, rest: seq<byte>, head: seq<byte>, tail: seq<byte>, after: seq<byte>)
    requires rest == head + ([NEWLINE] + tail)
    ensures open + (rest + after) == (open + head) + ([NEWLINE] + (tail + after))
    ensures open + rest == (open + head) + ([NEWLINE] + tail)
  {
  }

  /** Taking one line off the text that is still to be scanned. */
  lemma ScanStep(t: Tally, scan: Scan, number: nat, open: seq<byte>, rest: seq<byte>, head: seq<byte>, tail: seq<byte>, after: seq<byte>)
    requires rest == head + ([NEWLINE] + tail) && NoNewline(open) && NoNewline(head)
    ensures TallyText(t, scan, number, open + (rest + after))
         == TallyText(TallyLine(t, scan, number, open + head), scan, number + 1, tail + after)
  {
    SplitChunk(open, rest, head, tail, after);
    TallyAfterNewline(t, scan, number, open + head, tail + after);
  }

  lemma JoinPast(past: seq<byte>, line: seq<byte>, tail: seq<byte>)
    ensures (past + (line + [NEWLINE])) + tail == past + (line + ([NEWLINE] + tail))
  {
  }

  /** A finished line is complete text, and so is everything up to it. */
  lemma LineIsComplete(past: seq<byte>, line: seq<byte>, tail: seq<byte>)
    requires FromUtf8(past).Valid? && !FromUtf8(past + (line + ([NEWLINE] + tail))).Invalid?
    ensures FromUtf8(line).Valid? && FromUtf8(past + (line + [NEWLINE])).Valid?
  {
    var more := [NEWLINE] + tail;
    FromUtf8Extends(past, line + more);
    NewlineEndsCharacters(line, more);
    AfterNewline([]);
    assert [NEWLINE] + [] == [NEWLINE];
    FromUtf8Extends(line, [NEWLINE]);
    FromUtf8Extends(past, line + [NEWLINE]);
  }

  /**
   The text before the current line is complete, and the current line with what follows is not malformed.
   */
  ghost predicate Reading(past: seq<byte>, line: seq<byte>, rest: seq<byte>) {
    FromUtf8(past).Valid? && NoNewline(line) && !FromUtf8(past + (line + rest)).Invalid?
  }

  /** One iteration of the newline loop. It cannot fail, and scans exactly one line. */
  method ScanLine(scan: Scan, pattern: LiteralPattern, line: LineState, results: SearchResults, number: nat,
                  head: seq<byte>, tail: seq<byte>, ghost past: seq<byte>, ghost after: seq<byte>)
    returns (error: Option<SearchError>, ghost newPast: seq<byte>)
    requires pattern.Valid() && pattern.needle == scan.needle != [] && line.Valid(scan.needle)
    requires NoNewline(head) && Reading(past, line.text, head + ([NEWLINE] + tail))
    modifies line
    modifies results`matches, results`serializedBytes, results`linesTruncated, results`truncated, results`limitReached
    ensures error.None? && line.Valid(scan.needle) && line.text == []
    ensures Reading(newPast, [], tail)
    ensures newPast + tail == past + (old(line.text) + (head + ([NEWLINE] + tail)))
    ensures TallyText(results.Tallied(), scan, number + 1, tail + after)
         == TallyText(old(results.Tallied()), scan, number, old(line.text) + ((head + ([NEWLINE] + tail)) + after))
    ensures old(results.matches) <= results.matches
  {
    ghost var open := line.text;
    ghost var rest := head + ([NEWLINE] + tail);
    ScanStep(results.Tallied(), scan, number, open, rest, head, tail, after);
    SplitChunk(open, rest, head, tail, []);
    LineIsComplete(past, open + head, tail);
    ghost var steps := line.Feed(head, pattern);
    error := FinishLine(scan, number, line, results);
    line.ResetForNextLine(scan.needle);
    JoinPast(past, open + head, tail);
    newPast := past + ((open + head) + [NEWLINE]);
    assert [] + tail == tail;
  }

  lemma EmptyLine(line: seq<byte>, tail: seq<byte>, after: seq<byte>)
    requires line == []
    ensures line + tail == tail && line + (tail + after) == tail + after
  {
  }

  /** The newline loop over one buffer. */
  method ScanChunk(scan: Scan, pattern: LiteralPattern, line: LineState, results: SearchResults, number: nat,
                   chunk: seq<byte>, ghost past: seq<byte>, ghost after: seq<byte>)
    returns (error: Option<SearchError>, next: nat, ghost newPast: seq<byte>)
    requires pattern.Valid() && pattern.needle == scan.needle != [] && line.Valid(scan.needle)
    requires Reading(past, line.text, chunk)
    modifies line
    modifies results`matches, results`serializedBytes, results`linesTruncated, results`truncated, results`limitReached
    ensures error.None? && line.Valid(scan.needle) && Reading(newPast, line.text, [])
    ensures newPast + line.text == past + (old(line.text) + chunk)
    ensures TallyText(results.Tallied(), scan, next, line.text + after)
         == TallyText(old(results.Tallied()), scan, number, old(line.text) + (chunk + after))
    ensures old(results.matches) <= results.matches
  {
    hide TallyText;
    next, newPast, error := number, past, None;
    ghost var whole := past + (line.text + chunk);
    ghost var goal := TallyText(results.Tallied(), scan, number, line.text + (chunk + after));
    var rest := chunk;
    var n := FirstNewline(rest);
    while n < |rest|
      invariant error.None? && line.Valid(scan.needle) && Reading(newPast, line.text, rest)
      invariant n == FirstNewline(rest)
      invariant newPast + (line.text + rest) == whole
      invariant TallyText(results.Tallied(), scan, next, line.text + (rest + after)) == goal
      invariant old(results.matches) <= results.matches
      decreases |rest|
    {
      var head, tail := rest[..n], rest[n + 1..];
      assert rest == head + ([NEWLINE] + tail);
      error, newPast := ScanLine(scan, pattern, line, results, next, head, tail, newPast, after);
      if error.Some? { return; }
      EmptyLine(line.text, tail, after);
      next := next + 1;
      rest := tail;
      n := FirstNewline(rest);
    }
    assert rest[..n] == rest;
    Assoc(line.text, rest, after);
    ghost var steps := line.Feed(rest, pattern);
    assert line.text + [] == line.text;
  }

  // ---- one whole file -----------------------------------------------------------------------

  /**
   What searching `file` with `budget` bytes left does to the tally: all of its lines when it is
   UTF-8 and fits; nothing, with the file counted as binary, when it is seen not to be UTF-8; and
   nothing but the limit flags when the budget ends first.
   */
  ghost predicate Outcome(before: Tally, after: Tally, skipped: bool, scan: Scan, file: seq<byte>, budget: nat) {
    var text := if |file| <= budget then FromUtf8(file).Valid? else !FromUtf8(file[..budget]).Invalid?;
    && (skipped <==> !text)
    && after ==
       if !text then before
       else if |file| <= budget then TallyText(before, scan, 1, file)
       else before.(truncated := true, limitReached := true)
  }

  /** Malformed bytes among those read decide the outcome, however many follow. */
  lemma MalformedSeen(before: Tally, scan: Scan, seen: seq<byte>, rest: seq<byte>, budget: nat)
    requires FromUtf8(seen).Invalid? && |seen| <= budget
    ensures Outcome(before, before, true, scan, seen + rest, budget)
  {
    var file := seen + rest;
    if |file| <= budget {
      FromUtf8Extends(seen, rest);
    } else {
      assert file[..budget] == seen + rest[..budget - |seen|];
      FromUtf8Extends(seen, rest[..budget - |seen|]);
    }
  }

  /** Bytes left when the budget is spent. */
  lemma BudgetSpent(before: Tally, scan: Scan, seen: seq<byte>, rest: seq<byte>)
    requires !FromUtf8(seen).Invalid? && rest != []
    ensures Outcome(before, before.(truncated := true, limitReached := true), false, scan, seen + rest, |seen|)
  {
    assert (seen + rest)[..|seen|] == seen;
  }

  /** The end of the file: an incomplete last character makes it binary, else the last line is recorded. */
  method FinishSearchFile(scan: Scan, number: nat, line: LineState, utf8: Utf8Validator, checkpoint: Checkpoint,
                          results: SearchResults, ghost before: Tally, ghost budget: nat)
    returns (error: Option<SearchError>, ghost skipped: bool)
    requires line.Valid(scan.needle) && utf8.Valid() && NoNewline(line.text)
    requires !FromUtf8(line.text).Invalid?
    requires checkpoint.Of(before) && before.matches <= results.matches
    requires |utf8.text| <= budget
    requires TallyText(results.Tallied(), scan, number, line.text) == TallyText(before, scan, 1, utf8.text)
    modifies results`matches, results`serializedBytes, results`linesTruncated, results`truncated, results`limitReached, results`binaryFilesSkipped
    ensures error.None? && Outcome(before, results.Tallied(), skipped, scan, utf8.text, budget)
    ensures results.binaryFilesSkipped == old(results.binaryFilesSkipped) + if skipped then 1 else 0
  {
    skipped, error := false, None;
    TallyLastLine(results.Tallied(), scan, number, line.text);
    var complete := utf8.Finish();
    if !complete {
      results.DiscardBinaryFile(checkpoint, before);
      skipped := true;
      return;
    }
    if line.bytesSeen > 0 {
      error := FinishLine(scan, number, line, results);
    }
  }

  /** Where a file search stands: `text` read so far, ending with the unfinished `line`. */
  ghost predicate Scanning(before: Tally, scan: Scan, file: seq<byte>, now: Tally, number: nat,
                           text: seq<byte>, past: seq<byte>, line: seq<byte>, rest: seq<byte>) {
    && text + rest == file && past + line == text
    && Reading(past, line, [])
    && before.matches <= now.matches
    && TallyText(now, scan, number, line + rest) == TallyText(before, scan, 1, file)
  }

  lemma ScanningNotMalformed(before: Tally, scan: Scan, file: seq<byte>, now: Tally, number: nat,
                             text: seq<byte>, past: seq<byte>, line: seq<byte>, rest: seq<byte>)
    requires Scanning(before, scan, file, now, number, text, past, line, rest)
    ensures !FromUtf8(text).Invalid? && !FromUtf8(line).Invalid? && NoNewline(line)
    ensures |text| + |rest| == |file|
    ensures rest == [] ==> text == file && TallyText(now, scan, number, line) == TallyText(before, scan, 1, text)
  {
    assert line + [] == line && text + [] == text;
    FromUtf8Extends(past, line);
  }

  /** More bytes that are not malformed may be scanned. */
  lemma MoreBytes(before: Tally, scan: Scan, file: seq<byte>, now: Tally, number: nat,
                  text: seq<byte>, past: seq<byte>, line: seq<byte>, bytes: seq<byte>, rest: seq<byte>)
    requires Scanning(before, scan, file, now, number, text, past, line, bytes + rest)
    requires !FromUtf8(text + bytes).Invalid?
    ensures Reading(past, line, bytes)
    ensures past + (line + bytes) == text + bytes && (text + bytes) + rest == file
    ensures |text| + |bytes| + |rest| == |file|
  {
    Assoc(past, line, bytes);
    Assoc(text, bytes, rest);
  }

  /** One non-empty buffer. */
  method ConsumeBytes(scan: Scan, pattern: LiteralPattern, checkpoint: Checkpoint, results: SearchResults,
                      line: LineState, utf8: Utf8Validator, number: nat, bytes: seq<byte>,
                      ghost before: Tally, ghost file: seq<byte>, ghost past: seq<byte>, ghost rest: seq<byte>, ghost budget: nat)
    returns (error: Option<SearchError>, skipped: bool, next: nat, ghost newPast: seq<byte>)
    requires pattern.Valid() && pattern.needle == scan.needle != []
    requires line.Valid(scan.needle) && utf8.Valid() && checkpoint.Of(before)
    requires Scanning(before, scan, file, results.Tallied(), number, utf8.text, past, line.text, bytes + rest)
    requires |utf8.text| + |bytes| <= budget
    modifies line, utf8, results`matches, results`serializedBytes, results`linesTruncated, results`truncated,
             results`limitReached, results`binaryFilesSkipped
    ensures error.None?
    ensures |utf8.text| == |old(utf8.text)| + |bytes| <= |file|
    ensures skipped ==> Outcome(before, results.Tallied(), true, scan, file, budget)
    ensures results.binaryFilesSkipped == old(results.binaryFilesSkipped) + if skipped then 1 else 0
    ensures !skipped ==>
      && line.Valid(scan.needle) && utf8.Valid()
      && Scanning(before, scan, file, results.Tallied(), next, utf8.text, newPast, line.text, rest)
  {
    error, skipped, next, newPast := None, false, number, past;
    ghost var seen := utf8.text;
    Assoc(seen, bytes, rest);
    assert file == (seen + bytes) + rest;
    var ok := utf8.Feed(bytes);
    if !ok {
      MalformedSeen(before, scan, utf8.text, rest, budget);
      results.DiscardBinaryFile(checkpoint, before);
      skipped := true;
      return;
    }
    MoreBytes(before, scan, file, results.Tallied(), number, seen, past, line.text, bytes, rest);
    error, next, newPast := ScanChunk(scan, pattern, line, results, number, bytes, past, rest);
  }

  /** Bytes counted against the budget: all of a searched file that fits, never more than there are. */
  ghost predicate Counted(before: nat, after: nat, skipped: bool, length: nat) {
    && before <= after <= before + length
    && after <= MAX_SEARCH_BYTES
    && (!skipped && before + length <= MAX_SEARCH_BYTES ==> after == before + length)
  }

  /** The two ways reading stops: the end of the file, or more bytes than the budget allows. */
  method StopReading(atEnd: bool, scan: Scan, number: nat, line: LineState, utf8: Utf8Validator, checkpoint: Checkpoint,
                     results: SearchResults, ghost before: Tally, ghost file: seq<byte>, ghost past: seq<byte>,
                     ghost rest: seq<byte>, ghost budget: nat)
    returns (error: Option<SearchError>, ghost skipped: bool)
    requires line.Valid(scan.needle) && utf8.Valid() && checkpoint.Of(before)
    requires Scanning(before, scan, file, results.Tallied(), number, utf8.text, past, line.text, rest)
    requires atEnd <==> rest == []
    requires if atEnd then |utf8.text| <= budget else |utf8.text| == budget
    modifies results`matches, results`serializedBytes, results`linesTruncated, results`truncated, results`limitReached, results`binaryFilesSkipped
    ensures error.None? && Outcome(before, results.Tallied(), skipped, scan, file, budget)
    ensures results.binaryFilesSkipped == old(results.binaryFilesSkipped) + if skipped then 1 else 0
  {
    ScanningNotMalformed(before, scan, file, results.Tallied(), number, utf8.text, past, line.text, rest);
    if atEnd {
      error, skipped := FinishSearchFile(scan, number, line, utf8, checkpoint, results, before, budget);
    } else {
      BudgetSpent(before, scan, utf8.text, rest);
      results.DiscardIncompleteFile(checkpoint, before);
      return None, false;
    }
  }

  /** The cancellation check and the read, of one probing byte when the budget is spent. */
  method NextBytes(reader: FileReader, remaining: nat) returns (bytes: Result<seq<byte>, SearchError>)
    requires reader.Valid()
    modifies reader
    ensures reader.Valid()
    ensures bytes.Failure? ==> bytes.error != ValidationDrifted
    ensures bytes.Success? ==>
      && old(reader.rest) == bytes.value + reader.rest
      && (bytes.value == [] <==> old(reader.rest) == [])
      && (remaining > 0 ==> |bytes.value| <= remaining)
  {
    var cancelled: bool := *;
    if cancelled { return Failure(Cancelled); }
    var limit := if remaining == 0 then 1 else if remaining < BUFFER_SIZE then remaining else BUFFER_SIZE;
    var read := reader.Read(limit);
    return if read.None? then Failure(IoError) else Success(read.value);
  }

  /** One turn of the read loop; `done` when the file is finished or the search has failed. */
  method ReadOnce(reader: FileReader, scan: Scan, pattern: LiteralPattern, checkpoint: Checkpoint, results: SearchResults,
                  line: LineState, utf8: Utf8Validator, number: nat,
                  ghost before: Tally, ghost file: seq<byte>, ghost past: seq<byte>, ghost budget: nat)
    returns (error: Option<SearchError>, done: bool, next: nat, ghost skipped: bool, ghost newPast: seq<byte>)
    requires reader.Valid() && pattern.Valid() && pattern.needle == scan.needle != []
    requires line.Valid(scan.needle) && utf8.Valid() && checkpoint.Of(before)
    requires Scanning(before, scan, file, results.Tallied(), number, utf8.text, past, line.text, reader.rest)
    requires results.bytesSearched + budget == MAX_SEARCH_BYTES + |utf8.text| && |utf8.text| <= budget
    modifies reader, line, utf8, results`matches, results`serializedBytes, results`linesTruncated, results`truncated,
             results`limitReached, results`bytesSearched, results`binaryFilesSkipped
    ensures error.Some? ==> done && error != Some(ValidationDrifted)
    ensures results.bytesSearched - old(results.bytesSearched) == |utf8.text| - |old(utf8.text)|
    ensures |utf8.text| <= budget && |utf8.text| <= |file|
    ensures results.binaryFilesSkipped == old(results.binaryFilesSkipped) + if skipped then 1 else 0
    ensures done && error.None? ==> Outcome(before, results.Tallied(), skipped, scan, file, budget)
    ensures done && error.None? && !skipped && |file| <= budget ==> |utf8.text| == |file|
    ensures !done ==>
      && !skipped && reader.Valid() && line.Valid(scan.needle) && utf8.Valid()
      && Scanning(before, scan, file, results.Tallied(), next, utf8.text, newPast, line.text, reader.rest)
      && |reader.rest| < |old(reader.rest)|
  {
    error, done, next, skipped, newPast := None, true, number, false, past;
    var remaining := MAX_SEARCH_BYTES - results.bytesSearched;
    ghost var rest := reader.rest;
    ScanningNotMalformed(before, scan, file, results.Tallied(), number, utf8.text, past, line.text, rest);
    var bytes := NextBytes(reader, remaining);
    if bytes.Failure? { return Some(bytes.error), true, next, false, past; }
    if bytes.value == [] || remaining == 0 {
      error, skipped := StopReading(bytes.value == [], scan, number, line, utf8, checkpoint, results, before, file, past, rest, budget);
      return;
    }
    results.bytesSearched := results.bytesSearched + |bytes.value|;
    error, done, next, newPast := ConsumeBytes(scan, pattern, checkpoint, results, line, utf8, number, bytes.value,
                                               before, file, past, reader.rest, budget);
    skipped := done;
  }

  lemma StartScanning(before: Tally, scan: Scan, file: seq<byte>)
    ensures Scanning(before, scan, file, before, 1, [], [], [], file)
  {
    assert [] + file == file;
  }

  /**
   `search_reader`: for every choice of read sizes the outcome is that of the whole-file scan;
   it fails only when cancelled or by an I/O error.
   */
  method SearchReader(reader: FileReader, scan: Scan, pattern: LiteralPattern, checkpoint: Checkpoint, results: SearchResults)
    returns (error: Option<SearchError>, ghost skipped: bool)
    requires reader.Valid() && pattern.Valid() && pattern.needle == scan.needle != []
    requires checkpoint.Of(results.Tallied()) && results.bytesSearched <= MAX_SEARCH_BYTES
    modifies reader, results`matches, results`serializedBytes, results`linesTruncated, results`truncated,
             results`limitReached, results`bytesSearched, results`binaryFilesSkipped
    ensures error != Some(ValidationDrifted)
    ensures error.None? ==>
      && Outcome(old(results.Tallied()), results.Tallied(), skipped, scan, old(reader.rest), MAX_SEARCH_BYTES - old(results.bytesSearched))
      && results.binaryFilesSkipped == old(results.binaryFilesSkipped) + (if skipped then 1 else 0)
      && Counted(old(results.bytesSearched), results.bytesSearched, skipped, |old(reader.rest)|)
  {
    ghost var before, file := results.Tallied(), reader.rest;
    ghost var bytesBefore, skippedBefore := results.bytesSearched, results.binaryFilesSkipped;
    ghost var budget := MAX_SEARCH_BYTES - bytesBefore;
    var line := new LineState(scan.needle);
    var utf8 := new Utf8Validator();
    var number, done := 1, false;
    ghost var past: seq<byte> := [];
    error, skipped := None, false;
    StartScanning(before, scan, file);
    while !done
      invariant fresh(line) && fresh(utf8)
      invariant error.Some? ==> done && error != Some(ValidationDrifted)
      invariant results.bytesSearched == bytesBefore + |utf8.text|
      invariant |utf8.text| <= budget && |utf8.text| <= |file|
      invariant results.binaryFilesSkipped == skippedBefore + if skipped then 1 else 0
      invariant done && error.None? ==> Outcome(before, results.Tallied(), skipped, scan, file, budget)
      invariant done && error.None? && !skipped && |file| <= budget ==> |utf8.text| == |file|
      invariant !done ==> !skipped && reader.Valid() && line.Valid(scan.needle) && utf8.Valid()
      invariant !done ==> Scanning(before, scan, file, results.Tallied(), number, utf8.text, past, line.text, reader.rest)
      decreases !done, |reader.rest|
    {
      error, done, number, skipped, past :=
        ReadOnce(reader, scan, pattern, checkpoint, results, line, utf8, number, before, file, past, budget);
    }
  }

  /** `search_file`: the checkpoint is taken before the first byte is read. */
  method SearchFile(reader: FileReader, scan: Scan, pattern: LiteralPattern, results: SearchResults)
    returns (error: Option<SearchError>, ghost skipped: bool)
    requires reader.Valid() && pattern.Valid() && pattern.needle == scan.needle != []
    requires results.bytesSearched <= MAX_SEARCH_BYTES && results.filesSearched <= MAX_SEARCH_FILES
    modifies reader, results
    ensures error != Some(ValidationDrifted)
    ensures old(results.filesSearched) == MAX_SEARCH_FILES ==>
      && error.None? && reader.rest == old(reader.rest)
      && results.Tallied() == old(results.Tallied()).(truncated := true, limitReached := true)
      && results.bytesSearched == old(results.bytesSearched)
    ensures old(results.filesSearched) < MAX_SEARCH_FILES && error.None? ==>
      && results.filesSearched == old(results.filesSearched) + 1
      && results.binaryFilesSkipped == old(results.binaryFilesSkipped) + (if skipped then 1 else 0)
      && Outcome(old(results.Tallied()), results.Tallied(), skipped, scan, old(reader.rest), MAX_SEARCH_BYTES - old(results.bytesSearched))
      && Counted(old(results.bytesSearched), results.bytesSearched, skipped, |old(reader.rest)|)
    ensures error.None? && old(WithinLimits(results.Tallied())) ==> WithinLimits(results.Tallied())
  {
    skipped := false;
    if results.filesSearched == MAX_SEARCH_FILES {
      results.truncated, results.limitReached := true, true;
      return None, false;
    }
    results.filesSearched := results.filesSearched + 1;
    var checkpoint := Checkpoint(|results.matches|, results.serializedBytes, results.linesTruncated, results.truncated, results.limitReached);
    if WithinLimits(results.Tallied()) { BudgetsKept(results.Tallied(), scan, 1, reader.rest); }
    error, skipped := SearchReader(reader, scan, pattern, checkpoint, results);
  }

  // ---- the number of matches that fits ------------------------------------------------------------

  ghost function Pow2(n: nat): (p: nat)
    ensures p >= 1
  {
    if n == 0 then 1 else 2 * Pow2(n - 1)
  }

  lemma HalvingStep(width: nat, rest: nat, probes: nat, total: nat)
    requires 2 * rest <= width && width * Pow2(probes) <= total && 1 <= width
    ensures rest * Pow2(probes + 1) <= total && Pow2(probes + 1) <= 2 * total
  {
    var p := Pow2(probes);
    assert rest * (2 * p) == (2 * rest) * p <= width * p;
    assert p <= width * p;
  }

  /**
   `largest_fitting_prefix`: a count that fits while the next does not, which is the largest
   when fitting is downward closed; the number of probes is logarithmic.
   */
  method LargestFittingPrefix(total: nat, fits: nat -> bool) returns (largest: Option<nat>, ghost probes: nat)
    ensures largest.None? <==> !fits(0)
    ensures largest.Some? ==>
      && largest.value <= total && fits(largest.value)
      && (largest.value < total ==> !fits(largest.value + 1))
    ensures largest.Some? && (forall i, j :: 0 <= i <= j && fits(j) ==> fits(i)) ==>
      forall j :: 0 <= j <= total ==> (fits(j) <==> j <= largest.value)
    ensures probes <= 1 || Pow2(probes - 1) <= 2 * total
  {
    probes := 1;
    if !fits(0) { return None, probes; }
    var low, high := 0, total;
    while low < high
      invariant 0 <= low <= high <= total && fits(low) && probes >= 1
      invariant high < total ==> !fits(high + 1)
      invariant (high - low) * Pow2(probes - 1) <= total
      invariant probes == 1 || Pow2(probes - 1) <= 2 * total
    {
      var middle := low + (high - low + 1) / 2;
      HalvingStep(high - low, if fits(middle) then high - middle else middle - 1 - low, probes - 1, total);
      if fits(middle) {
        low := middle;
      } else {
        high := middle - 1;
      }
      probes := probes + 1;
    }
    return Some(low), probes;
  }
}
