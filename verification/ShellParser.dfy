/**
 The shell tokenizer of the command policy (`ParsedShellCommand::parse`, `push_word` and
 `push_command` of crates/capability-coding/src/command_policy.rs).
 */
module ShellParser {
  import opened Prelude

  const MAX_SIMPLE_COMMANDS: nat := 32
  const MAX_POLICY_WORDS: nat := 256

  datatype Parsed = Parsed(
    commands: seq<seq<string>>,
    background: bool,
    redirection: bool,
    dynamicExpansion: bool,
    pathnameExpansion: bool,
    comment: bool,
    unclassified: bool)

  datatype Quoting = Unquoted | SingleQuoted | DoubleQuoted

  datatype ShellParseError = Malformed | TooComplex

  /** The variables of the parsing loop. */
  datatype State = State(
    parsed: Parsed,
    words: seq<string>,
    wordCount: nat,
    word: string,
    wordStarted: bool,
    quote: Quoting,
    needsCommand: bool)

  const NO_FLAGS := Parsed([], false, false, false, false, false, false)
  const START := State(NO_FLAGS, [], 0, "", false, Unquoted, false)

  function Count(commands: seq<seq<string>>): nat {
    if commands == [] then 0 else |commands[0]| + Count(commands[1..])
  }

  lemma {:induction false} CountAppend(a: seq<seq<string>>, b: seq<seq<string>>)
    ensures Count(a + b) == Count(a) + Count(b)
  {
    if a == [] {
      assert a + b == b;
    } else {
      assert (a + b)[1..] == a[1..] + b;
      CountAppend(a[1..], b);
    }
  }

  /** What every successful parse guarantees of its commands. */
  predicate WithinLimits(commands: seq<seq<string>>) {
    && |commands| <= MAX_SIMPLE_COMMANDS && Count(commands) <= MAX_POLICY_WORDS
    && forall i :: 0 <= i < |commands| ==> commands[i] != []
  }

  predicate Valid(s: State) {
    && WithinLimits(s.parsed.commands)
    && s.wordCount == Count(s.parsed.commands) + |s.words| <= MAX_POLICY_WORDS
  }

  // ---- transitions -----------------------------------------------------------------------

  function PushWord(s: State): (r: Result<State, ShellParseError>)
    ensures Valid(s) && r.Success? ==> Valid(r.value)
  {
    if !s.wordStarted then Success(s)
    else if s.wordCount >= MAX_POLICY_WORDS then Failure(TooComplex)
    else Success(s.(words := s.words + [s.word], word := "", wordStarted := false, wordCount := s.wordCount + 1))
  }

  function PushCommand(s: State): (r: Result<State, ShellParseError>)
    ensures Valid(s) && r.Success? ==> Valid(r.value)
  {
    if s.words == [] then Failure(Malformed)
    else if |s.parsed.commands| >= MAX_SIMPLE_COMMANDS then Failure(TooComplex)
    else
      CountAppend(s.parsed.commands, [s.words]);
      Success(s.(parsed := s.parsed.(commands := s.parsed.commands + [s.words]), words := []))
  }

  /** Ends the command in progress, if there is one. */
  function PushOptionalCommand(s: State): (r: Result<State, ShellParseError>)
    ensures Valid(s) && r.Success? ==> Valid(r.value)
  {
    if s.words == [] then Success(s)
    else
      match PushCommand(s)
      case Failure(error) => Failure(error)
      case Success(next) => Success(next.(needsCommand := false))
  }

  function PushWordAndCommand(s: State): (r: Result<State, ShellParseError>)
    ensures Valid(s) && r.Success? ==> Valid(r.value)
  {
    match PushWord(s)
    case Failure(error) => Failure(error)
    case Success(next) => PushCommand(next)
  }

  function Put(s: State, text: string): State {
    s.(word := s.word + text, wordStarted := true)
  }

  datatype Progress = Progress(state: State, rest: string)

  /** One turn of the loop inside double quotes, on a non-empty input. */
  function StepDoubleQuoted(s: State, input: string): (p: Progress)
    requires input != ""
    ensures |p.rest| < |input|
    ensures Valid(s) ==> Valid(p.state)
  {
    var c, rest := input[0], input[1..];
    if c == '"' then Progress(s.(quote := Unquoted), rest)
    else if c == '\\' then
      if rest == "" then Progress(Put(s, "\\").(parsed := s.parsed.(unclassified := true)), "")
      else if rest[0] == '$' || rest[0] == '`' || rest[0] == '"' || rest[0] == '\\' then Progress(Put(s, [rest[0]]), rest[1..])
      else if rest[0] == '\n' then Progress(s, rest[1..])
      else Progress(Put(s, ['\\', rest[0]]), rest[1..])
    else if c == '$' || c == '`' then Progress(Put(s, [c]).(parsed := s.parsed.(dynamicExpansion := true)), rest)
    else Progress(Put(s, [c]), rest)
  }

  /** What follows the first newline of a comment; `None` when the comment runs to the end. */
  function AfterComment(input: string): (rest: Option<string>)
    ensures rest.Some? ==> |rest.value| < |input|
  {
    if input == "" then None
    else if input[0] == '\n' then Some(input[1..])
    else AfterComment(input[1..])
  }

  function Continue(next: Result<State, ShellParseError>, rest: string): Result<Progress, ShellParseError> {
    match next
    case Failure(error) => Failure(error)
    case Success(s) => Success(Progress(s, rest))
  }

  /** `&`, `&&`, `|` and `||`. */
  function StepOperator(s: State, input: string): (p: Result<Progress, ShellParseError>)
    requires input != "" && (input[0] == '&' || input[0] == '|')
    ensures p.Success? ==> |p.value.rest| < |input|
    ensures Valid(s) && p.Success? ==> Valid(p.value.state)
  {
    var doubled := |input| > 1 && input[1] == input[0];
    var rest := if doubled then input[2..] else input[1..];
    match PushWordAndCommand(s)
    case Failure(error) => Failure(error)
    case Success(next) =>
      if input[0] == '&' && !doubled
      then Success(Progress(next.(parsed := next.parsed.(background := true), needsCommand := false), rest))
      else Success(Progress(next.(needsCommand := true), rest))
  }

  predicate IsExpansion(c: char) {
    c == '$' || c == '`' || c == '(' || c == ')' || c == '{' || c == '}'
  }

  predicate IsPattern(c: char) {
    c == '*' || c == '?' || c == '['
  }

  /** A comment outside quotes, after its `#`. */
  function StepComment(s: State, input: string): (p: Result<Progress, ShellParseError>)
    ensures p.Success? ==> |p.value.rest| <= |input|
    ensures Valid(s) && p.Success? ==> Valid(p.value.state)
  {
    var commented := s.(parsed := s.parsed.(comment := true));
    match AfterComment(input)
    case None => Success(Progress(commented, ""))
    case Some(after) =>
      match PushWord(commented)
      case Failure(error) => Failure(error)
      case Success(next) => Continue(PushOptionalCommand(next), after)
  }

  /** `>`, `<`, `;`, a newline or a blank outside quotes. */
  function StepSeparator(s: State, c: char, rest: string): (p: Result<Progress, ShellParseError>)
    requires c == '>' || c == '<' || c == ';' || c == '\n' || c == ' ' || c == '\t'
    ensures p.Success? ==> p.value.rest == rest
    ensures Valid(s) && p.Success? ==> Valid(p.value.state)
  {
    match PushWord(s)
    case Failure(error) => Failure(error)
    case Success(next) =>
      if c == '>' || c == '<' then Success(Progress(next.(parsed := next.parsed.(redirection := true)), rest))
      else if c == ';' then
        match PushCommand(next)
        case Failure(error) => Failure(error)
        case Success(last) => Success(Progress(last.(needsCommand := false), rest))
      else if c == '\n' then Continue(PushOptionalCommand(next), rest)
      else Success(Progress(next, rest))
  }

  /** One turn of the loop outside quotes, on a non-empty input. */
  function StepUnquoted(s: State, input: string): (p: Result<Progress, ShellParseError>)
    requires input != ""
    ensures p.Success? ==> |p.value.rest| < |input|
    ensures Valid(s) && p.Success? ==> Valid(p.value.state)
  {
    var c, rest := input[0], input[1..];
    if c == '\'' then Success(Progress(s.(quote := SingleQuoted, wordStarted := true), rest))
    else if c == '"' then Success(Progress(s.(quote := DoubleQuoted, wordStarted := true), rest))
    else if c == '\\' then
      if rest == "" then Success(Progress(Put(s, "\\").(parsed := s.parsed.(unclassified := true)), ""))
      else if rest[0] == '\n' then Success(Progress(s, rest[1..]))
      else Success(Progress(Put(s, [rest[0]]), rest[1..]))
    else if IsExpansion(c) then Success(Progress(Put(s, [c]).(parsed := s.parsed.(dynamicExpansion := true)), rest))
    else if IsPattern(c) then Success(Progress(Put(s, [c]).(parsed := s.parsed.(pathnameExpansion := true)), rest))
    else if c == '#' && !s.wordStarted then StepComment(s, rest)
    else if c == '&' || c == '|' then StepOperator(s, input)
    else if c == '>' || c == '<' || c == ';' || c == '\n' || c == ' ' || c == '\t' then StepSeparator(s, c, rest)
    else Success(Progress(Put(s, [c]), rest))
  }

  function Step(s: State, input: string): (p: Result<Progress, ShellParseError>)
    requires input != ""
    ensures p.Success? ==> |p.value.rest| < |input|
    ensures Valid(s) && p.Success? ==> Valid(p.value.state)
  {
    match s.quote
    case SingleQuoted =>
      if input[0] == '\'' then Success(Progress(s.(quote := Unquoted, wordStarted := true), input[1..]))
      else Success(Progress(Put(s, [input[0]]), input[1..]))
    case DoubleQuoted => Success(StepDoubleQuoted(s, input))
    case Unquoted => StepUnquoted(s, input)
  }

  /** The end of the input. */
  function Finish(s: State): Result<Parsed, ShellParseError> {
    if s.quote != Unquoted then Failure(Malformed)
    else
      match PushWord(s)
      case Failure(error) => Failure(error)
      case Success(next) =>
        match PushOptionalCommand(next)
        case Failure(error) => Failure(error)
        case Success(last) =>
          if last.parsed.commands == [] || last.needsCommand then Failure(Malformed) else Success(last.parsed)
  }

  /** The whole loop. */
  function Run(s: State, input: string): Result<Parsed, ShellParseError>
    decreases |input|, 1
  {
    if input == "" then Finish(s) else RunOn(s, input)
  }

  function RunOn(s: State, input: string): Result<Parsed, ShellParseError>
    requires input != ""
    decreases |input|, 0
  {
    match Step(s, input)
    case Failure(error) => Failure(error)
    case Success(p) => Run(p.state, p.rest)
  }

  /** `ParsedShellCommand::parse`: a success holds only non-empty commands within both limits. */
  method Parse(command: string) returns (result: Result<Parsed, ShellParseError>)
    ensures result == Run(START, command)
    ensures result.Success? ==> result.value.commands != [] && WithinLimits(result.value.commands)
  {
    var state, rest := START, command;
    while rest != ""
      invariant Valid(state) && Run(state, rest) == Run(START, command)
      decreases |rest|
    {
      var step := Step(state, rest);
      if step.Failure? { return Failure(step.error); }
      state, rest := step.value.state, step.value.rest;
    }
    return Finish(state);
  }

  lemma {:induction false} ParsedWithinLimits(s: State, input: string)
    requires Valid(s) && Run(s, input).Success?
    ensures Run(s, input).value.commands != [] && WithinLimits(Run(s, input).value.commands)
    decreases |input|
  {
    if input != "" {
      var p := Step(s, input).value;
      ParsedWithinLimits(p.state, p.rest);
    }
  }

  // ---- quoting -------------------------------------------------------------------------------

  /** The inside of POSIX single quotes; an embedded quote ends them, is escaped, and reopens them. */
  function Escaped(word: string): string {
    if word == "" then ""
    else (if word[0] == '\'' then "'\\''" else [word[0]]) + Escaped(word[1..])
  }

  function Quoted(word: string): string {
    "'" + Escaped(word) + "'"
  }

  function RenderWords(words: seq<string>): string
    requires words != []
  {
    Quoted(words[0]) + if |words| == 1 then "" else " " + RenderWords(words[1..])
  }

  function Render(commands: seq<seq<string>>): string
    requires commands != [] && forall i :: 0 <= i < |commands| ==> commands[i] != []
  {
    RenderWords(commands[0]) + if |commands| == 1 then "" else ";" + Render(commands[1..])
  }

  /** No flag set, outside quotes, with at most one word in progress. */
  function Quiet(commands: seq<seq<string>>, words: seq<string>, count: nat, pending: Option<string>): State {
    State(NO_FLAGS.(commands := commands), words, count, if pending.Some? then pending.value else "", pending.Some?, Unquoted, false)
  }

  lemma Tail(c: char, rest: string)
    ensures ([c] + rest)[0] == c && ([c] + rest)[1..] == rest
  {
  }

  lemma SingleQuotedChar(s: State, c: char, rest: string)
    requires s.quote == SingleQuoted && s.wordStarted && c != '\''
    ensures Run(s, [c] + rest) == Run(Put(s, [c]), rest)
  {
    Tail(c, rest);
    assert Run(s, [c] + rest) == RunOn(s, [c] + rest);
  }

  lemma ClosingQuote(s: State, rest: string)
    requires s.quote == SingleQuoted && s.wordStarted
    ensures Run(s, ['\''] + rest) == Run(s.(quote := Unquoted), rest)
  {
    Tail('\'', rest);
    assert Run(s, ['\''] + rest) == RunOn(s, ['\''] + rest);
  }

  lemma OpeningQuote(s: State, rest: string)
    requires s.quote == Unquoted
    ensures Run(s, ['\''] + rest) == Run(s.(quote := SingleQuoted, wordStarted := true), rest)
  {
    Tail('\'', rest);
    assert Run(s, ['\''] + rest) == RunOn(s, ['\''] + rest);
  }

  lemma EscapedChar(s: State, c: char, rest: string)
    requires s.quote == Unquoted && c != '\n'
    ensures Run(s, ['\\'] + ([c] + rest)) == Run(Put(s, [c]), rest)
  {
    Tail('\\', [c] + rest);
    Tail(c, rest);
    assert Run(s, ['\\'] + ([c] + rest)) == RunOn(s, ['\\'] + ([c] + rest));
  }

  lemma CloseAndReopen(s: State, rest: string)
    requires s.quote == SingleQuoted && s.wordStarted
    ensures Run(s, "'\\''" + rest) == Run(Put(s, "'"), rest)
  {
    var s1 := s.(quote := Unquoted);
    ClosingQuote(s, ['\\'] + (['\''] + (['\''] + rest)));
    EscapedChar(s1, '\'', ['\''] + rest);
    OpeningQuote(Put(s1, "'"), rest);
    assert "'\\''" + rest == ['\''] + (['\\'] + (['\''] + (['\''] + rest)));
  }

  /** What a word leaves once its closing quote is read. */
  function Unquote(s: State, word: string): State {
    s.(word := s.word + word, quote := Unquoted)
  }

  lemma EscapedStep(word: string, rest: string)
    requires word != ""
    ensures Escaped(word) + rest == (if word[0] == '\'' then "'\\''" else [word[0]]) + (Escaped(word[1..]) + rest)
  {
  }

  lemma UnquoteStep(s: State, word: string)
    requires word != "" && s.wordStarted
    ensures Unquote(Put(s, [word[0]]), word[1..]) == Unquote(s, word)
  {
    assert (s.word + [word[0]]) + word[1..] == s.word + word;
  }

  lemma {:induction false} InsideQuotes(s: State, word: string, rest: string)
    requires s.quote == SingleQuoted && s.wordStarted
    ensures Run(s, Escaped(word) + ("'" + rest)) == Run(Unquote(s, word), rest)
    decreases |word|
  {
    if word == "" {
      assert Escaped(word) + ("'" + rest) == ['\''] + rest;
      assert Unquote(s, word) == s.(quote := Unquoted);
      ClosingQuote(s, rest);
    } else {
      var c, more := word[0], Escaped(word[1..]) + ("'" + rest);
      EscapedStep(word, "'" + rest);
      if c == '\'' { CloseAndReopen(s, more); } else { SingleQuotedChar(s, c, more); }
      InsideQuotes(Put(s, [c]), word[1..], rest);
      UnquoteStep(s, word);
    }
  }

  lemma QuotedWord(commands: seq<seq<string>>, words: seq<string>, count: nat, word: string, rest: string)
    ensures Run(Quiet(commands, words, count, None), Quoted(word) + rest) == Run(Quiet(commands, words, count, Some(word)), rest)
  {
    var s := Quiet(commands, words, count, None);
    var inner := Escaped(word) + ("'" + rest);
    assert Quoted(word) + rest == ['\''] + inner;
    OpeningQuote(s, inner);
    InsideQuotes(s.(quote := SingleQuoted, wordStarted := true), word, rest);
    assert "" + word == word;
  }

  lemma AfterSpace(commands: seq<seq<string>>, words: seq<string>, count: nat, word: string, rest: string)
    ensures Run(Quiet(commands, words, count, Some(word)), " " + rest) ==
            if count >= MAX_POLICY_WORDS then Failure(TooComplex)
            else Run(Quiet(commands, words + [word], count + 1, None), rest)
  {
    Tail(' ', rest);
    var s := Quiet(commands, words, count, Some(word));
    assert Run(s, " " + rest) == RunOn(s, " " + rest);
  }

  lemma AfterSemicolon(commands: seq<seq<string>>, words: seq<string>, count: nat, word: string, rest: string)
    ensures Run(Quiet(commands, words, count, Some(word)), ";" + rest) ==
            if count >= MAX_POLICY_WORDS || |commands| >= MAX_SIMPLE_COMMANDS then Failure(TooComplex)
            else Run(Quiet(commands + [words + [word]], [], count + 1, None), rest)
  {
    Tail(';', rest);
    var s := Quiet(commands, words, count, Some(word));
    assert Run(s, ";" + rest) == RunOn(s, ";" + rest);
  }

  lemma AtEnd(commands: seq<seq<string>>, words: seq<string>, count: nat, word: string)
    ensures Run(Quiet(commands, words, count, Some(word)), "") ==
            if count >= MAX_POLICY_WORDS || |commands| >= MAX_SIMPLE_COMMANDS then Failure(TooComplex)
            else Success(NO_FLAGS.(commands := commands + [words + [word]]))
  {
  }

  lemma MoreWords(words: seq<string>, rest: string)
    requires |words| > 1
    ensures RenderWords(words) + rest == Quoted(words[0]) + (" " + (RenderWords(words[1..]) + rest))
  {
  }

  lemma Regroup(before: seq<string>, words: seq<string>)
    requires words != []
    ensures (before + [words[0]]) + words[1..] == before + words
  {
  }

  lemma WordStep(commands: seq<seq<string>>, words: seq<string>, count: nat, word: string, more: string)
    ensures Run(Quiet(commands, words, count, None), Quoted(word) + (" " + more)) ==
            if count >= MAX_POLICY_WORDS then Failure(TooComplex)
            else Run(Quiet(commands, words + [word], count + 1, None), more)
  {
    QuotedWord(commands, words, count, word, " " + more);
    AfterSpace(commands, words, count, word, more);
  }

  lemma LastWordStep(commands: seq<seq<string>>, words: seq<string>, count: nat, word: string, more: string)
    ensures Run(Quiet(commands, words, count, None), Quoted(word) + (";" + more)) ==
            if count >= MAX_POLICY_WORDS || |commands| >= MAX_SIMPLE_COMMANDS then Failure(TooComplex)
            else Run(Quiet(commands + [words + [word]], [], count + 1, None), more)
  {
    QuotedWord(commands, words, count, word, ";" + more);
    AfterSemicolon(commands, words, count, word, more);
  }

  lemma FinalWordStep(commands: seq<seq<string>>, words: seq<string>, count: nat, word: string)
    ensures Run(Quiet(commands, words, count, None), Quoted(word) + "") ==
            if count >= MAX_POLICY_WORDS || |commands| >= MAX_SIMPLE_COMMANDS then Failure(TooComplex)
            else Success(NO_FLAGS.(commands := commands + [words + [word]]))
  {
    QuotedWord(commands, words, count, word, "");
    AtEnd(commands, words, count, word);
  }

  /** One whole command and its `;`. */
  lemma {:induction false} CommandStep(done: seq<seq<string>>, before: seq<string>, count: nat, words: seq<string>, more: string)
    requires words != []
    ensures Run(Quiet(done, before, count, None), RenderWords(words) + (";" + more)) ==
            if count + |words| > MAX_POLICY_WORDS || |done| >= MAX_SIMPLE_COMMANDS then Failure(TooComplex)
            else Run(Quiet(done + [before + words], [], count + |words|, None), more)
    decreases |words|
  {
    if |words| == 1 {
      assert RenderWords(words) == Quoted(words[0]) && words == [words[0]];
      LastWordStep(done, before, count, words[0], more);
    } else {
      MoreWords(words, ";" + more);
      WordStep(done, before, count, words[0], RenderWords(words[1..]) + (";" + more));
      if count < MAX_POLICY_WORDS {
        CommandStep(done, before + [words[0]], count + 1, words[1..], more);
        Regroup(before, words);
      }
    }
  }

  /** The last command ends with the input. */
  lemma {:induction false} LastCommand(done: seq<seq<string>>, before: seq<string>, count: nat, words: seq<string>)
    requires words != []
    ensures Run(Quiet(done, before, count, None), RenderWords(words) + "") ==
            if count + |words| > MAX_POLICY_WORDS || |done| >= MAX_SIMPLE_COMMANDS then Failure(TooComplex)
            else Success(NO_FLAGS.(commands := done + [before + words]))
    decreases |words|
  {
    if |words| == 1 {
      assert RenderWords(words) == Quoted(words[0]) && words == [words[0]];
      FinalWordStep(done, before, count, words[0]);
    } else {
      MoreWords(words, "");
      WordStep(done, before, count, words[0], RenderWords(words[1..]) + "");
      if count < MAX_POLICY_WORDS {
        LastCommand(done, before + [words[0]], count + 1, words[1..]);
        Regroup(before, words);
      }
    }
  }

  lemma {:induction false} CommandsRun(done: seq<seq<string>>, count: nat, commands: seq<seq<string>>)
    requires commands != [] && forall i :: 0 <= i < |commands| ==> commands[i] != []
    ensures Run(Quiet(done, [], count, None), Render(commands)) ==
            if count + Count(commands) > MAX_POLICY_WORDS || |done| + |commands| > MAX_SIMPLE_COMMANDS then Failure(TooComplex)
            else Success(NO_FLAGS.(commands := done + commands))
    decreases |commands|
  {
    var words, later := commands[0], commands[1..];
    assert [] + words == words;
    if |commands| == 1 {
      assert Render(commands) == RenderWords(words) + "" && commands == [words] && Count(later) == 0;
      LastCommand(done, [], count, words);
    } else {
      assert Render(commands) == RenderWords(words) + (";" + Render(later));
      CommandStep(done, [], count, words, Render(later));
      if count + |words| <= MAX_POLICY_WORDS && |done| < MAX_SIMPLE_COMMANDS {
        CommandsRun(done + [words], count + |words|, later);
        assert (done + [words]) + later == done + commands;
      }
    }
  }

  /**
   Quoting round trip: any non-empty commands, single-quoted and separated by spaces and `;`, parse
   back to exactly themselves with no flag set, or are too complex when they exceed a limit.
   */
  lemma QuotingRoundTrip(commands: seq<seq<string>>)
    requires commands != [] && forall i :: 0 <= i < |commands| ==> commands[i] != []
    ensures Run(START, Render(commands)) ==
            if WithinLimits(commands) then Success(NO_FLAGS.(commands := commands)) else Failure(TooComplex)
  {
    CommandsRun([], 0, commands);
    assert [] + commands == commands;
  }
}
