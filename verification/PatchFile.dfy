/**
 Whole unified diffs: file headers, hunk headers and hunks (`parse_patch`, `parse_header_path`,
 `parse_hunk_header` and `parse_range` of crates/capability-coding/src/patch.rs), against printed patches.
 Paths are strings.
 */
module PatchFile {
  import opened Prelude
  import opened Patch
  import opened PatchParser
  import Ids

  const MAX_PATCH_LINES: nat := 200_000
  const USIZE_MAX: nat := 0xFFFF_FFFF_FFFF_FFFF

  datatype FilePatch = FilePatch(oldPath: Option<string>, newPath: Option<string>, hunks: seq<Hunk>)

  // ---- strings -----------------------------------------------------------------------------------

  /** `trim_end_matches(['\r', '\n'])`. */
  function TrimLineEnd(s: string): string {
    if s == "" || (s[|s| - 1] != '\r' && s[|s| - 1] != '\n') then s else TrimLineEnd(s[..|s| - 1])
  }

  /** Where the text first holds `sought`. */
  function Find(s: string, sought: string): (at: Option<nat>)
    ensures at.Some? ==> at.value + |sought| <= |s| && sought <= s[at.value..]
  {
    if sought <= s then Some(0)
    else if s == "" then None
    else
      match Find(s[1..], sought)
      case None => None
      case Some(at) =>
        assert s[1..][at..] == s[at + 1..];
        Some(at + 1)
  }

  /** `char::is_whitespace`. */
  predicate IsSpace(c: char) {
    || c == ' ' || '\t' <= c <= '\r' || c == '\U{85}' || c == '\U{A0}' || c == '\U{1680}'
    || '\U{2000}' <= c <= '\U{200A}' || c == '\U{2028}' || c == '\U{2029}' || c == '\U{202F}'
    || c == '\U{205F}' || c == '\U{3000}'
  }

  function WordEnd(s: string): (n: nat)
    ensures n <= |s| && (forall i :: 0 <= i < n ==> !IsSpace(s[i])) && (n < |s| ==> IsSpace(s[n]))
  {
    if s == "" || IsSpace(s[0]) then 0
    else
      var n := WordEnd(s[1..]);
      assert forall i :: 1 <= i <= n && i < |s| ==> s[i] == s[1..][i - 1];
      n + 1
  }

  /** `split_whitespace`. */
  function Words(s: string): seq<string>
    decreases |s|
  {
    if s == "" then []
    else if IsSpace(s[0]) then Words(s[1..])
    else [s[..WordEnd(s)]] + Words(s[WordEnd(s)..])
  }

  // ---- headers -------------------------------------------------------------------------------------

  predicate Digits(s: string) {
    s != "" && forall i :: 0 <= i < |s| ==> '0' <= s[i] <= '9'
  }

  lemma {:induction false} DigitsValue(s: string)
    requires forall i :: 0 <= i < |s| ==> '0' <= s[i] <= '9'
    ensures Ids.Value(s) >= 0
  {
    if s != "" { DigitsValue(s[..|s| - 1]); }
  }

  /** `str::parse::<usize>`, which takes a plus sign. */
  function ParseUsize(s: string): Option<nat> {
    var digits := if "+" <= s then s[1..] else s;
    if Digits(digits) && Ids.Value(digits) <= USIZE_MAX then
      DigitsValue(digits);
      Some(Ids.Value(digits))
    else None
  }

  function ParseRange(range: string): Option<(nat, nat)> {
    var comma := Find(range, ",");
    var start := ParseUsize(if comma.Some? then range[..comma.value] else range);
    var count := ParseUsize(if comma.Some? then range[comma.value + 1..] else "1");
    if start.Some? && count.Some? then Some((start.value, count.value)) else None
  }

  /** The old start and the two counts of a hunk header. */
  function ParseHunkHeader(line: string): Option<(nat, nat, nat)> {
    var text := TrimLineEnd(line);
    if !("@@" <= text) then None
    else
      match Find(text[2..], "@@")
      case None => None
      case Some(end) =>
        var words := Words(text[2..][..end]);
        if |words| != 2 || !("-" <= words[0]) || !("+" <= words[1]) then None
        else
          match (ParseRange(words[0][1..]), ParseRange(words[1][1..]))
          case (Some(was), Some(now)) => Some((was.0, was.1, now.1))
          case _ => None
  }

  /** The path of a file header; `/dev/null` is none. */
  function ParseHeaderPath(line: string, prefix: string): Option<Option<string>> {
    if !(prefix <= line) then None
    else
      var text := TrimLineEnd(line[|prefix|..]);
      var tab := Find(text, "\t");
      var raw := if tab.Some? then text[..tab.value] else text;
      if raw == "/dev/null" then Some(None)
      else
        var path := if "a/" <= raw || "b/" <= raw then raw[2..] else raw;
        if path == "" then None else Some(Some(path))
  }

  predicate IsDiffMetadata(line: string) {
    || "diff --git " <= line || "index " <= line || "new file mode " <= line
    || "deleted file mode " <= line || "old mode " <= line || "new mode " <= line
  }

  // ---- files -----------------------------------------------------------------------------------------

  /** A parsed body leaves a later part of the lines. */
  lemma {:induction false} RestIsSuffix(lines: seq<string>, parsed: seq<PatchLine>, oldCount: nat, newCount: nat)
    requires NonEmptyLines(lines) && ParseRest(lines, parsed, oldCount, newCount).Success?
    ensures var rest := ParseRest(lines, parsed, oldCount, newCount).value.rest;
      |rest| <= |lines| && NonEmptyLines(rest)
    decreases |lines|
  {
    if lines != [] {
      assert ParseRest(lines, parsed, oldCount, newCount) == ParseLine(lines[0], lines[1..], parsed, oldCount, newCount);
      if WantsMore(parsed, oldCount, newCount) {
        RestIsSuffix(lines[1..], if IsMarker(lines[0]) then StripLast(parsed).value else parsed + [ReadLine(lines[0]).value], oldCount, newCount);
      }
    }
  }

  /** The hunks at the front of the lines, and what follows them. */
  function ParseHunks(lines: seq<string>): (r: Result<(seq<Hunk>, seq<string>), ParseError>)
    requires NonEmptyLines(lines)
    ensures r.Success? ==> |r.value.1| <= |lines| && NonEmptyLines(r.value.1)
    decreases |lines|
  {
    if lines == [] || !("@@" <= lines[0]) then Success(([], lines))
    else
      match ParseHunkHeader(lines[0])
      case None => Failure(InvalidText)
      case Some((start, oldCount, newCount)) =>
        match ParseRest(lines[1..], [], oldCount, newCount)
        case Failure(error) => Failure(error)
        case Success(body) =>
          RestIsSuffix(lines[1..], [], oldCount, newCount);
          match ParseHunks(body.rest)
          case Failure(error) => Failure(error)
          case Success((more, rest)) => Success(([Hunk(start, oldCount, newCount, body.lines)] + more, rest))
  }

  function SkipToFile(lines: seq<string>): (rest: seq<string>)
    ensures |rest| <= |lines| && (NonEmptyLines(lines) ==> NonEmptyLines(rest)) && (rest != [] ==> "--- " <= rest[0])
  {
    if lines == [] || "--- " <= lines[0] then lines else SkipToFile(lines[1..])
  }

  /** One file, from its two headers on, and what follows it. */
  function ParseFile(lines: seq<string>): (r: Result<(FilePatch, seq<string>), ParseError>)
    requires NonEmptyLines(lines) && lines != []
    ensures r.Success? ==> |r.value.1| < |lines| && NonEmptyLines(r.value.1)
  {
    var oldPath := ParseHeaderPath(lines[0], "--- ");
    if oldPath.None? || |lines| < 2 then Failure(InvalidText)
    else
      var newPath := ParseHeaderPath(lines[1], "+++ ");
      if newPath.None? then Failure(InvalidText)
      else
        match ParseHunks(lines[2..])
        case Failure(error) => Failure(error)
        case Success((hunks, rest)) =>
          if hunks == [] || (rest != [] && !("--- " <= rest[0]) && !IsDiffMetadata(rest[0])) then Failure(InvalidText)
          else Success((FilePatch(oldPath.value, newPath.value, hunks), rest))
  }

  function ParseFiles(lines: seq<string>): Result<seq<FilePatch>, ParseError>
    requires NonEmptyLines(lines)
    decreases |lines|
  {
    var at := SkipToFile(lines);
    if at == [] then Success([])
    else
      match ParseFile(at)
      case Failure(error) => Failure(error)
      case Success((file, rest)) =>
        match ParseFiles(rest)
        case Failure(error) => Failure(error)
        case Success(more) => Success([file] + more)
  }

  lemma SplitNonEmpty(s: string)
    ensures NonEmptyLines(SplitLines(s))
  {
    SplitLinesAreText(s);
  }

  /** `parse_patch`, but for cancellation. */
  function ParsePatch(patch: string): Result<seq<FilePatch>, ParseError> {
    SplitNonEmpty(patch);
    if patch == "" then Failure(InvalidText)
    else if |SplitLines(patch)| > MAX_PATCH_LINES then Failure(TooManyLines)
    else
      match ParseFiles(SplitLines(patch))
      case Failure(error) => Failure(error)
      case Success(files) => if files == [] then Failure(InvalidText) else Success(files)
  }

  // ---- the loops ---------------------------------------------------------------------------------------

  /** Puts the hunks already parsed in front of the outcome of the rest. */
  function MoreHunks(hunks: seq<Hunk>, r: Result<(seq<Hunk>, seq<string>), ParseError>): Result<(seq<Hunk>, seq<string>), ParseError> {
    match r
    case Failure(error) => Failure(error)
    case Success((more, rest)) => Success((hunks + more, rest))
  }

  lemma MoreHunksOne(hunks: seq<Hunk>, hunk: Hunk, r: Result<(seq<Hunk>, seq<string>), ParseError>)
    ensures MoreHunks(hunks, MoreHunks([hunk], r)) == MoreHunks(hunks + [hunk], r)
  {
    if r.Success? { assert hunks + ([hunk] + r.value.0) == hunks + [hunk] + r.value.0; }
  }

  lemma HunksFrom(lines: seq<string>, index: nat)
    requires NonEmptyLines(lines) && index < |lines| && "@@" <= lines[index]
    ensures var header := ParseHunkHeader(lines[index]);
      && (header.None? ==> ParseHunks(lines[index..]) == Failure(InvalidText))
      && (header.Some? ==>
           var body := ParseRest(lines[index + 1..], [], header.value.1, header.value.2);
           && (body.Failure? ==> ParseHunks(lines[index..]) == Failure(body.error))
           && (body.Failure? || NonEmptyLines(body.value.rest))
           && (body.Success? ==>
                ParseHunks(lines[index..])
                == MoreHunks([Hunk(header.value.0, header.value.1, header.value.2, body.value.lines)], ParseHunks(body.value.rest))))
  {
    assert lines[index..][1..] == lines[index + 1..];
    var header := ParseHunkHeader(lines[index]);
    if header.Some? && ParseRest(lines[index + 1..], [], header.value.1, header.value.2).Success? {
      RestIsSuffix(lines[index + 1..], [], header.value.1, header.value.2);
    }
  }

  /** The hunk loop of `parse_patch`. */
  method ParseHunksAt(lines: seq<string>, from: nat) returns (result: Result<seq<Hunk>, ParseError>, index: nat)
    requires from <= |lines| && NonEmptyLines(lines)
    ensures result != Failure(ParseCancelled) ==>
      match ParseHunks(lines[from..])
      case Failure(error) => result == Failure(error)
      case Success((hunks, rest)) => result == Success(hunks) && index <= |lines| && rest == lines[index..]
  {
    hide ParseHunks, ParseRest, ParseHunkHeader;
    index := from;
    var hunks: seq<Hunk> := [];
    NoMoreHunks(ParseHunks(lines[from..]));
    while index < |lines| && "@@" <= lines[index]
      invariant from <= index <= |lines|
      invariant ParseHunks(lines[from..]) == MoreHunks(hunks, ParseHunks(lines[index..]))
      decreases |lines| - index
    {
      HunksFrom(lines, index);
      var header := ParseHunkHeader(lines[index]);
      if header.None? { return Failure(InvalidText), index; }
      var (start, oldCount, newCount) := header.value;
      var body, next := ParseHunkBody(lines, index + 1, oldCount, newCount);
      if body.Failure? { return Failure(body.error), index; }
      var hunk := Hunk(start, oldCount, newCount, body.value);
      RestLater(lines, index + 1, next, oldCount, newCount);
      MoreHunksOne(hunks, hunk, ParseHunks(lines[next..]));
      hunks, index := hunks + [hunk], next;
    }
    HunksEnd(lines[index..]);
    assert hunks + [] == hunks;
    return Success(hunks), index;
  }

  lemma NoMoreHunks(r: Result<(seq<Hunk>, seq<string>), ParseError>)
    ensures MoreHunks([], r) == r
  {
    if r.Success? { assert [] + r.value.0 == r.value.0; }
  }

  lemma HunksEnd(lines: seq<string>)
    requires NonEmptyLines(lines) && (lines == [] || !("@@" <= lines[0]))
    ensures ParseHunks(lines) == Success(([], lines))
  {
  }

  /** Where the rest of a body begins is not before the body. */
  lemma RestLater(lines: seq<string>, from: nat, next: nat, oldCount: nat, newCount: nat)
    requires NonEmptyLines(lines) && from <= |lines| && next <= |lines|
    requires ParseRest(lines[from..], [], oldCount, newCount).Success?
    requires ParseRest(lines[from..], [], oldCount, newCount).value.rest == lines[next..]
    ensures from <= next
  {
    RestIsSuffix(lines[from..], [], oldCount, newCount);
  }

  /** Puts the files already parsed in front of the outcome of the rest. */
  function MoreFiles(files: seq<FilePatch>, r: Result<seq<FilePatch>, ParseError>): Result<seq<FilePatch>, ParseError> {
    match r
    case Failure(error) => Failure(error)
    case Success(more) => Success(files + more)
  }

  lemma MoreFilesOne(files: seq<FilePatch>, file: FilePatch, r: Result<seq<FilePatch>, ParseError>)
    ensures MoreFiles(files, MoreFiles([file], r)) == MoreFiles(files + [file], r)
  {
    if r.Success? { assert files + ([file] + r.value) == files + [file] + r.value; }
  }

  /** One file of the outer loop: its headers, its hunks, and a check of what follows. */
  method ParseFileAt(lines: seq<string>, from: nat) returns (result: Result<FilePatch, ParseError>, index: nat)
    requires from < |lines| && NonEmptyLines(lines)
    ensures result != Failure(ParseCancelled) ==>
      match ParseFile(lines[from..])
      case Failure(error) => result == Failure(error)
      case Success((file, rest)) => result == Success(file) && from < index <= |lines| && rest == lines[index..]
  {
    hide ParseHunks, ParseHeaderPath, IsDiffMetadata;
    index := from;
    var oldPath := ParseHeaderPath(lines[index], "--- ");
    if oldPath.None? { return Failure(InvalidText), index; }
    index := index + 1;
    if index == |lines| { return Failure(InvalidText), index; }
    assert lines[from..][1] == lines[index];
    var newPath := ParseHeaderPath(lines[index], "+++ ");
    if newPath.None? { return Failure(InvalidText), index; }
    index := index + 1;
    assert lines[from..][2..] == lines[index..];
    var hunks;
    hunks, index := ParseHunksAt(lines, index);
    if hunks.Failure? { return Failure(hunks.error), index; }
    if hunks.value == [] { return Failure(InvalidText), index; }
    if index < |lines| && !("--- " <= lines[index]) && !IsDiffMetadata(lines[index]) { return Failure(InvalidText), index; }
    return Success(FilePatch(oldPath.value, newPath.value, hunks.value)), index;
  }

  /** The outer loop of `parse_patch`. */
  method ParseFilesLoop(lines: seq<string>) returns (result: Result<seq<FilePatch>, ParseError>)
    requires NonEmptyLines(lines)
    ensures result != Failure(ParseCancelled) ==> result == ParseFiles(lines)
  {
    hide ParseFile;
    var index := 0;
    var files: seq<FilePatch> := [];
    assert lines[0..] == lines && MoreFiles([], ParseFiles(lines)) == ParseFiles(lines) by {
      if ParseFiles(lines).Success? { assert [] + ParseFiles(lines).value == ParseFiles(lines).value; }
    }
    while index < |lines|
      invariant index <= |lines|
      invariant ParseFiles(lines) == MoreFiles(files, ParseFiles(lines[index..]))
      decreases |lines| - index
    {
      var cancelled: bool := *;
      if cancelled { return Failure(ParseCancelled); }
      index := SkipHeaderless(lines, index);
      if index == |lines| { break; }
      var file, next := ParseFileAt(lines, index);
      if file.Failure? { return Failure(file.error); }
      MoreFilesOne(files, file.value, ParseFiles(lines[next..]));
      files, index := files + [file.value], next;
    }
    assert lines[index..] == [] && files + [] == files;
    return Success(files);
  }

  method SkipHeaderless(lines: seq<string>, from: nat) returns (index: nat)
    requires from <= |lines| && NonEmptyLines(lines)
    ensures from <= index <= |lines| && (index < |lines| ==> "--- " <= lines[index])
    ensures SkipToFile(lines[from..]) == lines[index..] == SkipToFile(lines[index..])
    ensures ParseFiles(lines[from..]) == ParseFiles(lines[index..])
  {
    index := from;
    while index < |lines| && !("--- " <= lines[index])
      invariant from <= index <= |lines|
      invariant SkipToFile(lines[from..]) == SkipToFile(lines[index..])
    {
      assert lines[index..][1..] == lines[index + 1..];
      index := index + 1;
    }
    SameFiles(lines[from..], lines[index..]);
  }

  lemma SameFiles(a: seq<string>, b: seq<string>)
    requires NonEmptyLines(a) && NonEmptyLines(b) && SkipToFile(a) == SkipToFile(b)
    ensures ParseFiles(a) == ParseFiles(b)
  {
  }

  /** `parse_patch`: as the specification says, unless cancelled. */
  method ParsePatchText(patch: string) returns (result: Result<seq<FilePatch>, ParseError>)
    ensures result != Failure(ParseCancelled) ==> result == ParsePatch(patch)
  {
    SplitNonEmpty(patch);
    if patch == "" { return Failure(InvalidText); }
    var cancelled: bool := *;
    if cancelled { return Failure(ParseCancelled); }
    var lines := SplitLines(patch);
    if |lines| > MAX_PATCH_LINES { return Failure(TooManyLines); }
    var files := ParseFilesLoop(lines);
    if files.Failure? { return Failure(files.error); }
    if files.value == [] { return Failure(InvalidText); }
    return Success(files.value);
  }

  // ---- printed patches -----------------------------------------------------------------------------------

  function PrintPath(prefix: string, side: string, path: Option<string>): string {
    prefix + (if path.Some? then side + path.value else "/dev/null") + "\n"
  }

  function PrintRange(start: nat, count: nat): string {
    Ids.Decimal(start) + "," + Ids.Decimal(count)
  }

  /** A hunk header; the new start is printed and never read. */
  function PrintHeader(hunk: Hunk, newStart: nat): string {
    "@@ -" + PrintRange(hunk.oldStart, hunk.oldCount) + " +" + PrintRange(newStart, hunk.newCount) + " @@\n"
  }

  /** Hunks with the new starts to print. */
  function PrintHunks(hunks: seq<(Hunk, nat)>): seq<string> {
    if hunks == [] then [] else [PrintHeader(hunks[0].0, hunks[0].1)] + Render(hunks[0].0.lines) + PrintHunks(hunks[1..])
  }

  datatype PrintedFile = PrintedFile(oldPath: Option<string>, newPath: Option<string>, hunks: seq<(Hunk, nat)>)

  function PrintFiles(files: seq<PrintedFile>): seq<string> {
    if files == [] then []
    else
      [PrintPath("--- ", "a/", files[0].oldPath), PrintPath("+++ ", "b/", files[0].newPath)]
      + PrintHunks(files[0].hunks) + PrintFiles(files[1..])
  }

  /** A path that a header line can carry. */
  predicate PrintablePath(path: Option<string>) {
    path.Some? ==>
      && path.value != "" && path.value[|path.value| - 1] != '\r'
      && forall i :: 0 <= i < |path.value| ==> path.value[i] != '\n' && path.value[i] != '\t'
  }

  predicate PrintableHunk(hunk: Hunk, newStart: nat) {
    && CountsMatch(hunk)
    && hunk.oldStart <= USIZE_MAX && hunk.oldCount <= USIZE_MAX && newStart <= USIZE_MAX && hunk.newCount <= USIZE_MAX
    && forall i :: 0 <= i < |hunk.lines| ==> OneLine(hunk.lines[i].text)
  }

  predicate PrintableHunks(hunks: seq<(Hunk, nat)>) {
    forall i :: 0 <= i < |hunks| ==> PrintableHunk(hunks[i].0, hunks[i].1)
  }

  predicate PrintableFile(file: PrintedFile) {
    PrintablePath(file.oldPath) && PrintablePath(file.newPath) && file.hunks != [] && PrintableHunks(file.hunks)
  }

  /** What the parser makes of printed hunks: the same, but for carriage returns before a missing newline. */
  function HunksAsParsed(hunks: seq<(Hunk, nat)>): seq<Hunk> {
    if hunks == [] then []
    else [hunks[0].0.(lines := AllAsParsed(hunks[0].0.lines))] + HunksAsParsed(hunks[1..])
  }

  function FilesAsParsed(files: seq<PrintedFile>): seq<FilePatch> {
    if files == [] then []
    else [FilePatch(files[0].oldPath, files[0].newPath, HunksAsParsed(files[0].hunks))] + FilesAsParsed(files[1..])
  }

  // ---- numbers and words ------------------------------------------------------------------------------------

  lemma {:induction false} DecimalDigits(n: nat)
    ensures Digits(Ids.Decimal(n))
  {
    if n >= 10 { DecimalDigits(n / 10); }
  }

  lemma ParsePrinted(n: nat)
    requires n <= USIZE_MAX
    ensures ParseUsize(Ids.Decimal(n)) == Some(n)
  {
    DecimalDigits(n);
    Ids.ValueOfDecimal(n);
    assert Ids.Decimal(n)[0] != '+';
  }

  predicate Avoids(s: string, c: char) {
    forall i :: 0 <= i < |s| ==> s[i] != c
  }

  lemma StartsOtherwise(line: string, prefix: string)
    requires line != "" && prefix != "" && line[0] != prefix[0]
    ensures !(prefix <= line)
  {
  }

  lemma FindLater(first: char, s: string, sought: string)
    requires sought != "" && first != sought[0]
    ensures Find([first] + s, sought) == match Find(s, sought) case None => None case Some(at) => Some(at + 1)
  {
    StartsOtherwise([first] + s, sought);
    assert ([first] + s)[1..] == s;
  }

  lemma {:induction false} FindFirst(s: string, sought: string, rest: string)
    requires sought != "" && Avoids(s, sought[0])
    ensures Find(s + sought + rest, sought) == Some(|s|)
  {
    hide Find;
    if s == "" {
      FindHere(sought, rest);
      assert s + sought + rest == sought + rest;
    } else {
      FindFirst(s[1..], sought, rest);
      FindLater(s[0], s[1..] + sought + rest, sought);
      assert [s[0]] + (s[1..] + sought + rest) == s + sought + rest;
    }
  }

  lemma FindHere(sought: string, rest: string)
    ensures Find(sought + rest, sought) == Some(0)
  {
  }

  lemma {:induction false} FindNone(s: string, sought: string)
    requires sought != "" && Avoids(s, sought[0])
    ensures Find(s, sought).None?
  {
    if s != "" { FindNone(s[1..], sought); }
  }

  lemma RangeAvoids(start: nat, count: nat)
    ensures var range := PrintRange(start, count);
      range != "" && Avoids(range, '@') && forall i :: 0 <= i < |range| ==> !IsSpace(range[i])
  {
    DecimalDigits(start);
    DecimalDigits(count);
  }

  lemma ParsePrintedRange(start: nat, count: nat)
    requires start <= USIZE_MAX && count <= USIZE_MAX
    ensures ParseRange(PrintRange(start, count)) == Some((start, count))
  {
    var range := PrintRange(start, count);
    DecimalDigits(start);
    FindFirst(Ids.Decimal(start), ",", Ids.Decimal(count));
    assert range[..|Ids.Decimal(start)|] == Ids.Decimal(start);
    assert range[|Ids.Decimal(start)| + 1..] == Ids.Decimal(count);
    ParsePrinted(start);
    ParsePrinted(count);
  }

  lemma {:induction false} WordEndIs(word: string, rest: string)
    requires (forall i :: 0 <= i < |word| ==> !IsSpace(word[i])) && (rest == "" || IsSpace(rest[0]))
    ensures WordEnd(word + rest) == |word|
  {
    var s := word + rest;
    assert forall i :: 0 <= i < |word| ==> s[i] == word[i];
    assert rest != "" ==> s[|word|] == rest[0];
  }

  lemma WordsCons(word: string, rest: string)
    requires word != "" && (forall i :: 0 <= i < |word| ==> !IsSpace(word[i])) && (rest == "" || IsSpace(rest[0]))
    ensures Words(word + rest) == [word] + Words(rest)
  {
    WordEndIs(word, rest);
    assert (word + rest)[..|word|] == word && (word + rest)[|word|..] == rest;
  }

  lemma WordsSpace(rest: string)
    ensures Words(" " + rest) == Words(rest)
  {
    assert (" " + rest)[1..] == rest;
  }

  /** The two ranges of a printed header are its two words. */
  lemma TwoWords(a: string, b: string)
    requires a != "" && b != ""
    requires (forall i :: 0 <= i < |a| ==> !IsSpace(a[i])) && forall i :: 0 <= i < |b| ==> !IsSpace(b[i])
    ensures Words(" " + (a + (" " + (b + " ")))) == [a, b]
  {
    WordsSpace(a + (" " + (b + " ")));
    WordsCons(a, " " + (b + " "));
    WordsSpace(b + " ");
    WordsCons(b, " ");
    WordsSpace("");
    assert " " + "" == " ";
  }

  lemma TrimPrinted(s: string)
    requires s == "" || (s[|s| - 1] != '\r' && s[|s| - 1] != '\n')
    ensures TrimLineEnd(s + "\n") == s
  {
    assert (s + "\n")[..|s|] == s;
  }

  // ---- headers, printed and parsed -----------------------------------------------------------------------------

  lemma HeaderParts(a: string, b: string)
    ensures "@@ -" + a + " +" + b + " @@\n" == ("@@" + ((" " + (("-" + a) + (" " + (("+" + b) + " ")))) + "@@")) + "\n"
  {
  }

  lemma SpacedAvoids(a: string, b: string)
    requires Avoids(a, '@') && Avoids(b, '@')
    ensures Avoids(" " + (a + (" " + (b + " "))), '@')
  {
  }

  lemma SignedWord(sign: char, range: string)
    requires range != "" && Avoids(range, '@') && forall i :: 0 <= i < |range| ==> !IsSpace(range[i])
    requires sign != '@' && !IsSpace(sign)
    ensures var word := [sign] + range;
      word[1..] == range && Avoids(word, '@') && forall i :: 0 <= i < |word| ==> !IsSpace(word[i])
  {
  }

  lemma ParsePrintedHeader(hunk: Hunk, newStart: nat)
    requires PrintableHunk(hunk, newStart)
    ensures ParseHunkHeader(PrintHeader(hunk, newStart)) == Some((hunk.oldStart, hunk.oldCount, hunk.newCount))
  {
    hide ParseRange, PrintRange, Find, Words, TrimLineEnd, IsSpace;
    var a, b := PrintRange(hunk.oldStart, hunk.oldCount), PrintRange(newStart, hunk.newCount);
    RangeAvoids(hunk.oldStart, hunk.oldCount);
    RangeAvoids(newStart, hunk.newCount);
    NotSpaces();
    SignedWord('-', a);
    SignedWord('+', b);
    var was, now := "-" + a, "+" + b;
    var middle := " " + (was + (" " + (now + " ")));
    HeaderParts(a, b);
    var text := "@@" + (middle + "@@");
    TrimPrinted(text);
    SpacedAvoids(was, now);
    FindFirst(middle, "@@", "");
    assert text[2..] == middle + "@@" + "" && (middle + "@@")[..|middle|] == middle;
    TwoWords(was, now);
    ParsePrintedRange(hunk.oldStart, hunk.oldCount);
    ParsePrintedRange(newStart, hunk.newCount);
  }

  lemma NotSpaces()
    ensures !IsSpace('-') && !IsSpace('+') && !IsSpace('@')
  {
  }

  lemma ParsePrintedPath(prefix: string, side: string, path: Option<string>)
    requires PrintablePath(path) && (side == "a/" || side == "b/")
    ensures ParseHeaderPath(PrintPath(prefix, side, path), prefix) == Some(path)
  {
    hide Find, TrimLineEnd;
    var raw := if path.Some? then side + path.value else "/dev/null";
    var line := PrintPath(prefix, side, path);
    assert line[|prefix|..] == raw + "\n";
    TrimPrinted(raw);
    FindNone(raw, "\t");
    if path.Some? { assert raw[2..] == path.value && raw[0] != '/'; }
  }

  // ---- the round trip --------------------------------------------------------------------------------------------

  /** What may follow printed hunks: nothing, or the next file. */
  predicate Follows(rest: seq<string>) {
    NonEmptyLines(rest) && (rest != [] ==> "--- " <= rest[0] && rest[0][0] == '-')
  }

  lemma PrintedHunksStart(hunks: seq<(Hunk, nat)>, rest: seq<string>)
    requires Follows(rest)
    ensures var lines := PrintHunks(hunks) + rest;
      lines != [] ==> lines[0] != "" && !IsMarker(lines[0]) && (hunks == [] ==> !("@@" <= lines[0])) && (hunks != [] ==> "@@" <= lines[0])
  {
    if hunks == [] {
      assert PrintHunks(hunks) + rest == rest;
      if rest != [] {
        StartsOtherwise(rest[0], "@@");
        StartsOtherwise(rest[0], NO_NEWLINE_MARKER);
      }
    } else {
      var header := PrintHeader(hunks[0].0, hunks[0].1);
      assert (PrintHunks(hunks) + rest)[0] == header && header[0] == '@' && header[1] == '@';
      StartsOtherwise(header, NO_NEWLINE_MARKER);
    }
  }

  lemma OneThenRest(a: string, b: seq<string>, c: seq<string>, d: seq<string>)
    ensures [a] + b + c + d == [a] + (b + (c + d))
  {
  }

  lemma PrintHunksCons(hunks: seq<(Hunk, nat)>, rest: seq<string>)
    requires hunks != []
    ensures PrintHunks(hunks) + rest ==
      [PrintHeader(hunks[0].0, hunks[0].1)] + (Render(hunks[0].0.lines) + (PrintHunks(hunks[1..]) + rest))
  {
    hide PrintHeader, Render;
    OneThenRest(PrintHeader(hunks[0].0, hunks[0].1), Render(hunks[0].0.lines), PrintHunks(hunks[1..]), rest);
  }

  /** One printed hunk parses back, and the parser goes on after it. */
  lemma OneHunkRoundTrip(hunk: Hunk, newStart: nat, more: seq<string>)
    requires PrintableHunk(hunk, newStart) && NonEmptyLines(more) && (more != [] ==> !IsMarker(more[0]))
    ensures NonEmptyLines(Render(hunk.lines) + more)
    ensures var lines := [PrintHeader(hunk, newStart)] + (Render(hunk.lines) + more);
      NonEmptyLines(lines) && ParseHunks(lines) == MoreHunks([hunk.(lines := AllAsParsed(hunk.lines))], ParseHunks(more))
  {
    hide ParseHunks, ParseRest, ParseHunkHeader, PrintRange, Render;
    var body := Render(hunk.lines) + more;
    var lines := [PrintHeader(hunk, newStart)] + body;
    ParseRendered(hunk.lines, more, [], hunk.oldCount, hunk.newCount);
    assert [] + AllAsParsed(hunk.lines) == AllAsParsed(hunk.lines);
    ParsePrintedHeader(hunk, newStart);
    assert "@@" <= lines[0];
    assert lines[0..] == lines && lines[1..] == body;
    HunksFrom(lines, 0);
  }

  lemma {:induction false} HunksRoundTrip(hunks: seq<(Hunk, nat)>, rest: seq<string>)
    requires PrintableHunks(hunks) && Follows(rest)
    ensures NonEmptyLines(PrintHunks(hunks) + rest)
    ensures ParseHunks(PrintHunks(hunks) + rest) == Success((HunksAsParsed(hunks), rest))
  {
    PrintedHunksStart(hunks, rest);
    if hunks == [] {
      assert PrintHunks(hunks) + rest == rest;
      HunksEnd(rest);
    } else {
      HunksRoundTrip(hunks[1..], rest);
      PrintedHunksStart(hunks[1..], rest);
      PrintHunksCons(hunks, rest);
      OneHunkRoundTrip(hunks[0].0, hunks[0].1, PrintHunks(hunks[1..]) + rest);
    }
  }

  lemma PathPrefix(prefix: string, side: string, path: Option<string>)
    ensures prefix <= PrintPath(prefix, side, path)
  {
  }

  lemma PrintedFilesFollow(files: seq<PrintedFile>)
    requires NonEmptyLines(PrintFiles(files))
    ensures Follows(PrintFiles(files))
  {
  }

  lemma TwoThenRest(a: string, b: string, c: seq<string>, d: seq<string>)
    ensures [a, b] + c + d == [a] + ([b] + (c + d))
  {
  }

  lemma PrintFilesCons(files: seq<PrintedFile>)
    requires files != []
    ensures PrintFiles(files) ==
      [PrintPath("--- ", "a/", files[0].oldPath)] + ([PrintPath("+++ ", "b/", files[0].newPath)] + (PrintHunks(files[0].hunks) + PrintFiles(files[1..])))
  {
    hide PrintPath, PrintHunks;
    TwoThenRest(PrintPath("--- ", "a/", files[0].oldPath), PrintPath("+++ ", "b/", files[0].newPath), PrintHunks(files[0].hunks), PrintFiles(files[1..]));
  }

  /** One printed file parses back, and the parser goes on after it. */
  lemma OneFileRoundTrip(file: PrintedFile, rest: seq<string>)
    requires PrintableFile(file) && Follows(rest)
    ensures var lines := [PrintPath("--- ", "a/", file.oldPath)] + ([PrintPath("+++ ", "b/", file.newPath)] + (PrintHunks(file.hunks) + rest));
      && NonEmptyLines(lines)
      && ParseFile(lines) == Success((FilePatch(file.oldPath, file.newPath, HunksAsParsed(file.hunks)), rest))
  {
    hide ParseHunks, ParseHeaderPath, PrintHunks, PrintableHunks;
    var body := PrintHunks(file.hunks) + rest;
    var lines := [PrintPath("--- ", "a/", file.oldPath)] + ([PrintPath("+++ ", "b/", file.newPath)] + body);
    HunksRoundTrip(file.hunks, rest);
    assert lines[2..] == body && lines[1] == PrintPath("+++ ", "b/", file.newPath);
    ParsePrintedPath("--- ", "a/", file.oldPath);
    ParsePrintedPath("+++ ", "b/", file.newPath);
  }

  lemma {:induction false} FilesRoundTrip(files: seq<PrintedFile>)
    requires forall i :: 0 <= i < |files| ==> PrintableFile(files[i])
    ensures NonEmptyLines(PrintFiles(files))
    ensures ParseFiles(PrintFiles(files)) == Success(FilesAsParsed(files))
  {
    hide PrintableFile, ParseFile, PrintHunks, PrintPath;
    if files != [] {
      FilesRoundTrip(files[1..]);
      PrintedFilesFollow(files[1..]);
      OneFileRoundTrip(files[0], PrintFiles(files[1..]));
      PrintFilesCons(files);
      PathPrefix("--- ", "a/", files[0].oldPath);
      FilesFrom(PrintFiles(files), FilePatch(files[0].oldPath, files[0].newPath, HunksAsParsed(files[0].hunks)), PrintFiles(files[1..]), PrintPath("--- ", "a/", files[0].oldPath));
    }
  }

  lemma FilesFrom(lines: seq<string>, file: FilePatch, rest: seq<string>, header: string)
    requires NonEmptyLines(lines) && lines != [] && lines[0] == header && "--- " <= header
    requires ParseFile(lines) == Success((file, rest))
    ensures ParseFiles(lines) == MoreFiles([file], ParseFiles(rest))
  {
  }

  // ---- from text to text ---------------------------------------------------------------------------------------------

  predicate AllTerminated(lines: seq<string>) {
    forall i :: 0 <= i < |lines| ==> Terminated(lines[i])
  }

  lemma TerminatedJoin(a: seq<string>, b: seq<string>)
    requires AllTerminated(a) && AllTerminated(b)
    ensures AllTerminated(a + b)
  {
  }

  lemma NewlineLast(s: string)
    requires NoNewline(s)
    ensures Terminated(s + "\n")
  {
    assert (s + "\n")[..|s|] == s;
  }

  lemma HeaderTerminated(hunk: Hunk, newStart: nat)
    ensures Terminated(PrintHeader(hunk, newStart))
  {
    DecimalDigits(hunk.oldStart);
    DecimalDigits(hunk.oldCount);
    DecimalDigits(newStart);
    DecimalDigits(hunk.newCount);
    var a, b := PrintRange(hunk.oldStart, hunk.oldCount), PrintRange(newStart, hunk.newCount);
    var text := "@@ -" + a + " +" + b + " @@";
    NewlineLast(text);
    assert PrintHeader(hunk, newStart) == text + "\n";
  }

  lemma PathTerminated(prefix: string, side: string, path: Option<string>)
    requires PrintablePath(path) && NoNewline(prefix) && NoNewline(side)
    ensures Terminated(PrintPath(prefix, side, path))
  {
    NewlineLast(prefix + (if path.Some? then side + path.value else "/dev/null"));
  }

  lemma {:induction false} HunksTerminated(hunks: seq<(Hunk, nat)>)
    requires PrintableHunks(hunks)
    ensures AllTerminated(PrintHunks(hunks))
  {
    if hunks != [] {
      var lines := hunks[0].0.lines;
      HeaderTerminated(hunks[0].0, hunks[0].1);
      forall i | 0 <= i < |Render(lines)|
        ensures Terminated(Render(lines)[i])
      {
        RenderedText(lines, i);
      }
      HunksTerminated(hunks[1..]);
      TerminatedJoin([PrintHeader(hunks[0].0, hunks[0].1)], Render(lines));
      TerminatedJoin([PrintHeader(hunks[0].0, hunks[0].1)] + Render(lines), PrintHunks(hunks[1..]));
    }
  }

  lemma {:induction false} FilesTerminated(files: seq<PrintedFile>)
    requires forall i :: 0 <= i < |files| ==> PrintableFile(files[i])
    ensures AllTerminated(PrintFiles(files))
  {
    if files != [] {
      PathTerminated("--- ", "a/", files[0].oldPath);
      PathTerminated("+++ ", "b/", files[0].newPath);
      HunksTerminated(files[0].hunks);
      FilesTerminated(files[1..]);
      var headers := [PrintPath("--- ", "a/", files[0].oldPath), PrintPath("+++ ", "b/", files[0].newPath)];
      TerminatedJoin(headers, PrintHunks(files[0].hunks));
      TerminatedJoin(headers + PrintHunks(files[0].hunks), PrintFiles(files[1..]));
    }
  }

  /**
   Printing file patches as a unified diff and parsing that text gives them back, whatever their
   paths, numbers and contents, up to the carriage returns `BodyRoundTrip` is about; only a text over
   the line limit is refused.
   */
  lemma PatchRoundTrip(files: seq<PrintedFile>)
    requires files != [] && forall i :: 0 <= i < |files| ==> PrintableFile(files[i])
    ensures ParsePatch(Join(PrintFiles(files))) ==
      if |PrintFiles(files)| > MAX_PATCH_LINES then Failure(TooManyLines) else Success(FilesAsParsed(files))
  {
    hide ParseFiles, PrintableFile;
    FilesTerminated(files);
    FilesRoundTrip(files);
    var lines := PrintFiles(files);
    SplitOfText(lines);
    PrintFilesCons(files);
    JoinNonEmpty(lines);
  }

  lemma JoinNonEmpty(lines: seq<string>)
    requires lines != [] && AllTerminated(lines)
    ensures Join(lines) != ""
  {
    assert Terminated(lines[0]);
  }

  function Bare(hunks: seq<(Hunk, nat)>): seq<Hunk> {
    if hunks == [] then [] else [hunks[0].0] + Bare(hunks[1..])
  }

  predicate AllKeepText(hunks: seq<(Hunk, nat)>) {
    forall i, j :: 0 <= i < |hunks| && 0 <= j < |hunks[i].0.lines| ==> KeepsText(hunks[i].0.lines[j])
  }

  lemma SameHunks(a: Hunk, more: seq<Hunk>, b: Hunk, rest: seq<Hunk>)
    ensures [a] + more == [b] + rest <==> a == b && more == rest
  {
    assert ([a] + more)[0] == a && ([a] + more)[1..] == more;
    assert ([b] + rest)[0] == b && ([b] + rest)[1..] == rest;
  }

  /** Nothing is lost exactly when no line without a newline ends in a carriage return. */
  lemma {:induction false} HunksKept(hunks: seq<(Hunk, nat)>)
    ensures HunksAsParsed(hunks) == Bare(hunks) <==> AllKeepText(hunks)
  {
    hide AllAsParsed, KeepsText, AllKeepText;
    if hunks == [] {
      NothingToKeep();
    } else {
      var hunk := hunks[0].0;
      AllKept(hunk.lines);
      HunksKept(hunks[1..]);
      KeptSplit(hunks);
      SameHunks(hunk.(lines := AllAsParsed(hunk.lines)), HunksAsParsed(hunks[1..]), hunk, Bare(hunks[1..]));
    }
  }

  lemma NothingToKeep()
    ensures AllKeepText([])
  {
  }

  lemma KeptSplit(hunks: seq<(Hunk, nat)>)
    requires hunks != []
    ensures AllKeepText(hunks) <==>
      (forall j :: 0 <= j < |hunks[0].0.lines| ==> KeepsText(hunks[0].0.lines[j])) && AllKeepText(hunks[1..])
  {
    assert forall i :: 1 <= i < |hunks| ==> hunks[i] == hunks[1..][i - 1];
  }

  lemma OneFileAsParsed(file: PrintedFile)
    ensures FilesAsParsed([file]) == [FilePatch(file.oldPath, file.newPath, HunksAsParsed(file.hunks))]
  {
    assert [file][1..] == [];
  }

  /**
   A patch as text does what it says: hunks that can be placed on the original, printed under any path
   and parsed again, turn the original into its new side.
   */
  lemma PrintedPatchApplies(path: string, hunks: seq<(Hunk, nat)>, original: string, s: Splice)
    requires PrintableFile(PrintedFile(Some(path), Some(path), hunks)) && AllKeepText(hunks)
    requires |PrintFiles([PrintedFile(Some(path), Some(path), hunks)])| <= MAX_PATCH_LINES
    requires Places(Bare(hunks), s, 0) && OldLines(s) == SplitLines(original)
    ensures var parsed := ParsePatch(Join(PrintFiles([PrintedFile(Some(path), Some(path), hunks)])));
      && parsed == Success([FilePatch(Some(path), Some(path), Bare(hunks))])
      && Spliced(SplitLines(original), 0, parsed.value[0].hunks) == Some(NewLines(s))
  {
    hide PrintFiles, ParsePatch, PrintableFile, HunksAsParsed, Places, Spliced;
    var file := PrintedFile(Some(path), Some(path), hunks);
    PatchRoundTrip([file]);
    HunksKept(hunks);
    OneFileAsParsed(file);
    PlacedSplices(Bare(hunks), s, 0);
  }
}
