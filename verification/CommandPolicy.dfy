/**
 The command approval policy (crates/capability-coding/src/command_policy.rs): path probes with a
 cache and two budgets, and the classification of a parsed command. The per-program option tables
 are parameters; the file system does not change during one classification.
 */
module CommandPolicy {
  import opened Prelude
  import opened ShellParser

  const MAX_PATH_PROBE_CANDIDATES: nat := 256
  const MAX_WORKSPACE_PATH_INSPECTIONS: nat := 256

  // ---- the file system ----------------------------------------------------------------------

  datatype Component = Normal(name: string) | CurDir | ParentDir

  datatype CandidatePath = CandidatePath(absolute: bool, components: seq<Component>)

  /** `Unresolvable` is a symbolic link that cannot be followed to a canonical path. */
  datatype Inspection = Missing | Existing | Symlink(target: seq<string>) | Unresolvable | Inaccessible

  /** An absolute path is its normal components; `inspect` follows a symbolic link to its canonical target. */
  datatype Host = Host(root: seq<string>, parse: string -> CandidatePath, inspect: seq<string> -> Inspection)

  function Names(path: seq<string>): seq<Component> {
    seq(|path|, i requires 0 <= i < |path| => Normal(path[i]))
  }

  /** What one inspection takes from the budget: a symbolic link is inspected, and then resolved or not. */
  function InspectionCost(i: Inspection): nat {
    if i.Symlink? || i.Unresolvable? then 2 else 1
  }

  // ---- the walk without a budget -------------------------------------------------------------

  /** Does the path leave the workspace when it is followed component by component? */
  function WalkEscapes(host: Host, current: seq<string>, components: seq<Component>): bool
    decreases |components|
  {
    if components == [] then false
    else if components[0].CurDir? then WalkEscapes(host, current, components[1..])
    else if components[0].ParentDir? then true
    else
      var next := current + [components[0].name];
      match host.inspect(next)
      case Missing => false
      case Unresolvable => true
      case Inaccessible => true
      case Existing => WalkEscapes(host, next, components[1..])
      case Symlink(target) => if host.root <= target then WalkEscapes(host, target, components[1..]) else true
  }

  /** The inspections that walk makes. */
  function WalkCost(host: Host, current: seq<string>, components: seq<Component>): nat
    decreases |components|
  {
    if components == [] || components[0].ParentDir? then 0
    else if components[0].CurDir? then WalkCost(host, current, components[1..])
    else
      var next := current + [components[0].name];
      var found := host.inspect(next);
      InspectionCost(found) +
      match found
      case Missing => 0
      case Unresolvable => 0
      case Inaccessible => 0
      case Existing => WalkCost(host, next, components[1..])
      case Symlink(target) => if host.root <= target then WalkCost(host, target, components[1..]) else 0
  }

  predicate EscapesAtOnce(host: Host, candidate: string) {
    var path := host.parse(candidate);
    || "~" <= candidate
    || ParentDir in path.components
    || (path.absolute && !(Names(host.root) <= path.components))
  }

  /** The components below the root. */
  function Relative(host: Host, candidate: string): seq<Component>
    requires !EscapesAtOnce(host, candidate)
  {
    var path := host.parse(candidate);
    if path.absolute then path.components[|host.root|..] else path.components
  }

  predicate Escapes(host: Host, candidate: string) {
    EscapesAtOnce(host, candidate) || WalkEscapes(host, host.root, Relative(host, candidate))
  }

  function ProbeCost(host: Host, candidate: string): nat {
    if EscapesAtOnce(host, candidate) then 0 else WalkCost(host, host.root, Relative(host, candidate))
  }

  // ---- the walk with a budget ------------------------------------------------------------------

  /** `inspect_workspace_path`: nothing when the budget ends first. */
  method InspectWorkspacePath(host: Host, path: seq<string>, remaining: nat) returns (found: Option<Inspection>, left: nat)
    ensures found.Some? <==> InspectionCost(host.inspect(path)) <= remaining
    ensures found.Some? ==> found.value == host.inspect(path) && left == remaining - InspectionCost(host.inspect(path))
  {
    left := remaining;
    if left == 0 { return None, left; }
    left := left - 1;
    var inspection := host.inspect(path);
    if inspection.Symlink? || inspection.Unresolvable? {
      if left == 0 { return None, left; }
      left := left - 1;
    }
    return Some(inspection), left;
  }

  /** `path_escapes_workspace_with`: the verdict of the unlimited walk, when the budget covers it. */
  method PathEscapesWorkspaceWith(host: Host, relative: seq<Component>, remaining: nat) returns (escapes: Option<bool>, left: nat)
    ensures escapes.Some? <==> WalkCost(host, host.root, relative) <= remaining
    ensures escapes.Some? ==>
      escapes.value == WalkEscapes(host, host.root, relative) && left == remaining - WalkCost(host, host.root, relative)
  {
    var current := host.root;
    left := remaining;
    for i := 0 to |relative|
      invariant WalkEscapes(host, host.root, relative) == WalkEscapes(host, current, relative[i..])
      invariant left + WalkCost(host, host.root, relative) == remaining + WalkCost(host, current, relative[i..])
    {
      assert relative[i..][1..] == relative[i + 1..];
      var component := relative[i];
      if component.ParentDir? { return Some(true), left; }
      if component.Normal? {
        current := current + [component.name];
        var found;
        found, left := InspectWorkspacePath(host, current, left);
        if found.None? { return None, left; }
        match found.value
        case Missing => return Some(false), left;
        case Existing =>
        case Symlink(target) =>
          if !(host.root <= target) { return Some(true), left; }
          current := target;
        case Unresolvable => return Some(true), left;
        case Inaccessible => return Some(true), left;
      }
    }
    return Some(false), left;
  }

  method EscapesWorkspace(host: Host, candidate: string, remaining: nat) returns (escapes: Option<bool>, left: nat)
    ensures escapes.Some? <==> ProbeCost(host, candidate) <= remaining
    ensures escapes.Some? ==> escapes.value == Escapes(host, candidate) && left == remaining - ProbeCost(host, candidate)
  {
    if "~" <= candidate { return Some(true), remaining; }
    var path := host.parse(candidate);
    if ParentDir in path.components { return Some(true), remaining; }
    if path.absolute && !(Names(host.root) <= path.components) { return Some(true), remaining; }
    escapes, left := PathEscapesWorkspaceWith(host, Relative(host, candidate), remaining);
  }

  // ---- sets of candidates -----------------------------------------------------------------------

  /** The inspections needed to probe every candidate once. */
  ghost function SetCost(host: Host, candidates: set<string>): nat {
    if candidates == {} then 0
    else
      var c :| c in candidates;
      ProbeCost(host, c) + SetCost(host, candidates - {c})
  }

  lemma {:induction false} SetCostWithout(host: Host, candidates: set<string>, c: string)
    requires c in candidates
    ensures SetCost(host, candidates) == ProbeCost(host, c) + SetCost(host, candidates - {c})
    decreases candidates
  {
    var first :| first in candidates
      && SetCost(host, candidates) == ProbeCost(host, first) + SetCost(host, candidates - {first});
    if first != c {
      SetCostWithout(host, candidates - {first}, c);
      SetCostWithout(host, candidates - {c}, first);
      assert candidates - {first} - {c} == candidates - {c} - {first};
    }
  }

  lemma SetCostWith(host: Host, candidates: set<string>, c: string)
    requires c !in candidates
    ensures SetCost(host, candidates + {c}) == SetCost(host, candidates) + ProbeCost(host, c)
  {
    SetCostWithout(host, candidates + {c}, c);
    assert candidates + {c} - {c} == candidates;
  }

  /** Both budgets cover probing every candidate once. */
  ghost predicate Affordable(host: Host, candidates: set<string>) {
    |candidates| <= MAX_PATH_PROBE_CANDIDATES && SetCost(host, candidates) <= MAX_WORKSPACE_PATH_INSPECTIONS
  }

  lemma {:induction false} AffordableSubset(host: Host, few: set<string>, many: set<string>)
    requires few <= many && Affordable(host, many)
    ensures Affordable(host, few)
    decreases many - few
  {
    if c :| c in many && c !in few {
      SetCostWith(host, few, c);
      AffordableSubset(host, few + {c}, many);
    } else {
      assert few == many;
    }
  }

  // ---- PathProbeBudget ------------------------------------------------------------------------------

  datatype PathClassification = WithinWorkspace | EscapesTheWorkspace | BudgetExceeded

  ghost predicate AllWithin(host: Host, candidates: set<string>) {
    forall c :: c in candidates ==> !Escapes(host, c)
  }

  class PathProbeBudget {
    var remainingCandidates: nat
    var remainingInspections: nat
    var cached: map<string, bool>

    /** The cache agrees with the uncached walk, and the budgets with what it holds. */
    ghost predicate Valid(host: Host)
      reads this
    {
      && (forall c :: c in cached ==> cached[c] == Escapes(host, c))
      && remainingCandidates + |cached.Keys| == MAX_PATH_PROBE_CANDIDATES
      && remainingInspections + SetCost(host, cached.Keys) == MAX_WORKSPACE_PATH_INSPECTIONS
    }

    constructor (ghost host: Host)
      ensures Valid(host) && cached == map[]
    {
      remainingCandidates, remainingInspections, cached := MAX_PATH_PROBE_CANDIDATES, MAX_WORKSPACE_PATH_INSPECTIONS, map[];
    }

    method Classify(host: Host, candidate: string) returns (c: PathClassification)
      requires Valid(host)
      modifies this
      ensures c.WithinWorkspace? <==> !Escapes(host, candidate) && Affordable(host, old(cached.Keys) + {candidate})
      ensures c.WithinWorkspace? ==> Valid(host) && cached.Keys == old(cached.Keys) + {candidate}
      ensures c.EscapesTheWorkspace? ==> Escapes(host, candidate)
      ensures c.BudgetExceeded? ==> !Affordable(host, old(cached.Keys) + {candidate})
    {
      if candidate in cached {
        assert cached.Keys + {candidate} == cached.Keys;
        return if cached[candidate] then EscapesTheWorkspace else WithinWorkspace;
      }
      SetCostWith(host, cached.Keys, candidate);
      if remainingCandidates == 0 { return BudgetExceeded; }
      remainingCandidates := remainingCandidates - 1;
      var escapes;
      escapes, remainingInspections := EscapesWorkspace(host, candidate, remainingInspections);
      if escapes.None? { return BudgetExceeded; }
      cached := cached[candidate := escapes.value];
      assert cached.Keys == old(cached.Keys) + {candidate};
      return if escapes.value then EscapesTheWorkspace else WithinWorkspace;
    }

    /** The next of the candidates `all`, of which `seen` are already cached beside `before`. */
    method ClassifyNext(host: Host, candidate: string, ghost before: set<string>, ghost seen: set<string>, ghost all: set<string>)
      returns (c: PathClassification)
      requires Valid(host) && cached.Keys == before + seen && candidate in all && seen <= all && AllWithin(host, seen)
      modifies this
      ensures c.WithinWorkspace? ==>
        Valid(host) && cached.Keys == before + (seen + {candidate}) && AllWithin(host, seen + {candidate})
      ensures !c.WithinWorkspace? ==> !(AllWithin(host, all) && Affordable(host, before + all))
    {
      assert cached.Keys + {candidate} == before + (seen + {candidate});
      c := Classify(host, candidate);
      if c != WithinWorkspace && Affordable(host, before + all) {
        AffordableSubset(host, before + (seen + {candidate}), before + all);
      }
    }

    /** Candidates in order, until one is not within the workspace. */
    method ClassifyAll(host: Host, candidates: seq<string>) returns (c: PathClassification)
      requires Valid(host)
      modifies this
      ensures c.WithinWorkspace? <==>
        AllWithin(host, Elements(candidates)) && Affordable(host, old(cached.Keys) + Elements(candidates))
      ensures c.WithinWorkspace? ==> Valid(host) && cached.Keys == old(cached.Keys) + Elements(candidates)
    {
      ghost var before, seen := cached.Keys, {};
      ValidAffordable(host, this);
      for i := 0 to |candidates|
        invariant Valid(host) && cached.Keys == before + seen && AllWithin(host, seen)
        invariant Elements(candidates) == seen + Elements(candidates[i..])
      {
        assert candidates[i..][1..] == candidates[i + 1..];
        SeeNext(Elements(candidates), seen, candidates[i], Elements(candidates[i + 1..]));
        c := ClassifyNext(host, candidates[i], before, seen, Elements(candidates));
        if c != WithinWorkspace { return; }
        seen := seen + {candidates[i]};
      }
      ValidAffordable(host, this);
      return WithinWorkspace;
    }
  }

  lemma ValidAffordable(host: Host, probes: PathProbeBudget)
    requires probes.Valid(host)
    ensures Affordable(host, probes.cached.Keys)
  {
  }

  function Elements(s: seq<string>): set<string> {
    if s == [] then {} else {s[0]} + Elements(s[1..])
  }

  /** One more element of `all` is seen. */
  lemma SeeNext(all: set<string>, seen: set<string>, next: string, rest: set<string>)
    requires all == seen + ({next} + rest)
    ensures next in all && seen <= all && all == (seen + {next}) + rest
  {
  }

  // ---- the decision ------------------------------------------------------------------------------------

  datatype Decision = Allow | RequiresApproval | Reject

  /** The tables and checks on the words of one command; none of them looks at the file system. */
  datatype Rules = Rules(
    rejectedOutright: seq<string> -> bool,
    changesDirectoryTo: seq<string> -> Option<string>,
    clearedBeforePaths: seq<string> -> bool,
    optionPaths: seq<string> -> seq<string>,
    clearedAfterPaths: seq<string> -> bool)

  /** `path_candidate`. */
  function PathCandidate(word: string): Option<string> {
    var candidate := if "--" <= word then AfterEquals(word, word) else word;
    if candidate == "" || candidate == "." || "-" <= candidate then None else Some(candidate)
  }

  function AfterEquals(word: string, otherwise: string): string {
    if word == "" then otherwise else if word[0] == '=' then word[1..] else AfterEquals(word[1..], otherwise)
  }

  /** The candidates of `classify_argument_paths`, in order. */
  function ArgumentPaths(arguments: seq<string>, positionalOnly: bool): seq<string> {
    if arguments == [] then []
    else if arguments[0] == "--" && !positionalOnly then ArgumentPaths(arguments[1..], true)
    else
      var candidate := Candidate(arguments[0], positionalOnly);
      (if candidate.Some? then [candidate.value] else []) + ArgumentPaths(arguments[1..], positionalOnly)
  }

  function DirectoryPaths(rules: Rules, words: seq<string>): seq<string> {
    match rules.changesDirectoryTo(words)
    case Some(path) => [path]
    case None => []
  }

  function Candidate(argument: string, positionalOnly: bool): Option<string> {
    if positionalOnly then Some(argument) else PathCandidate(argument)
  }

  lemma ArgumentElements(arguments: seq<string>, i: nat, positionalOnly: bool)
    requires i < |arguments|
    ensures var argument, rest := arguments[i], arguments[i + 1..];
      Elements(ArgumentPaths(arguments[i..], positionalOnly)) ==
      if argument == "--" && !positionalOnly then Elements(ArgumentPaths(rest, true))
      else if Candidate(argument, positionalOnly).None? then Elements(ArgumentPaths(rest, positionalOnly))
      else {Candidate(argument, positionalOnly).value} + Elements(ArgumentPaths(rest, positionalOnly))
  {
    var argument, rest := arguments[i], arguments[i + 1..];
    assert arguments[i..][1..] == rest;
    var candidate, paths := Candidate(argument, positionalOnly), ArgumentPaths(rest, positionalOnly);
    if candidate.Some? {
      assert ([candidate.value] + paths)[1..] == paths;
    } else {
      assert [] + paths == paths;
    }
  }

  method ClassifyArgumentPaths(host: Host, arguments: seq<string>, probes: PathProbeBudget) returns (c: PathClassification)
    requires probes.Valid(host)
    modifies probes
    ensures c.WithinWorkspace? <==>
      && AllWithin(host, Elements(ArgumentPaths(arguments, false)))
      && Affordable(host, old(probes.cached.Keys) + Elements(ArgumentPaths(arguments, false)))
    ensures c.WithinWorkspace? ==>
      probes.Valid(host) && probes.cached.Keys == old(probes.cached.Keys) + Elements(ArgumentPaths(arguments, false))
  {
    hide SetCost, Escapes;
    ghost var before, seen := probes.cached.Keys, {};
    ghost var all := Elements(ArgumentPaths(arguments, false));
    var positionalOnly := false;
    for i := 0 to |arguments|
      invariant probes.Valid(host) && probes.cached.Keys == before + seen && AllWithin(host, seen)
      invariant all == seen + Elements(ArgumentPaths(arguments[i..], positionalOnly))
    {
      ArgumentElements(arguments, i, positionalOnly);
      var argument := arguments[i];
      if argument == "--" && !positionalOnly {
        positionalOnly := true;
        continue;
      }
      var candidate := Candidate(argument, positionalOnly);
      if candidate.Some? {
        SeeNext(all, seen, candidate.value, Elements(ArgumentPaths(arguments[i + 1..], positionalOnly)));
        c := probes.ClassifyNext(host, candidate.value, before, seen, all);
        if c != WithinWorkspace { return; }
        seen := seen + {candidate.value};
      }
    }
    ValidAffordable(host, probes);
    return WithinWorkspace;
  }

  // ---- allowed commands ---------------------------------------------------------------------------------

  ghost function HardCandidates(rules: Rules, words: seq<string>): set<string> {
    Elements(DirectoryPaths(rules, words))
  }

  function Arguments(words: seq<string>): seq<string> {
    if words == [] then [] else words[1..]
  }

  ghost function SimpleCandidates(rules: Rules, words: seq<string>): set<string> {
    Elements(rules.optionPaths(words)) + Elements(ArgumentPaths(Arguments(words), false))
  }

  predicate NonEmpty(commands: seq<seq<string>>) {
    forall i :: 0 <= i < |commands| ==> commands[i] != []
  }

  ghost function AllHard(rules: Rules, commands: seq<seq<string>>): set<string> {
    if commands == [] then {} else HardCandidates(rules, commands[0]) + AllHard(rules, commands[1..])
  }

  ghost function AllSimple(rules: Rules, commands: seq<seq<string>>): set<string> {
    if commands == [] then {} else SimpleCandidates(rules, commands[0]) + AllSimple(rules, commands[1..])
  }

  predicate Flagless(parsed: Parsed) {
    && !parsed.background && !parsed.redirection && !parsed.dynamicExpansion && !parsed.pathnameExpansion
    && !parsed.comment && !parsed.unclassified
  }

  predicate Unremarkable(rules: Rules, words: seq<string>) {
    rules.clearedBeforePaths(words) && rules.clearedAfterPaths(words)
  }

  predicate Cleared(rules: Rules, words: seq<string>) {
    !rules.rejectedOutright(words) && Unremarkable(rules, words)
  }

  /**
   A command is allowed when no shell syntax is flagged, every simple command passes the checks on
   its words, and all paths together stay in the workspace and within both budgets, each counted once.
   */
  ghost predicate Allowed(host: Host, rules: Rules, parsed: Parsed) {
    var candidates := AllHard(rules, parsed.commands) + AllSimple(rules, parsed.commands);
    && Flagless(parsed)
    && (forall i :: 0 <= i < |parsed.commands| ==> Cleared(rules, parsed.commands[i]))
    && AllWithin(host, candidates) && Affordable(host, candidates)
  }

  method ClassifyHardRejection(host: Host, rules: Rules, words: seq<string>, probes: PathProbeBudget)
    returns (rejection: Option<Decision>)
    requires probes.Valid(host)
    modifies probes
    ensures rejection != Some(Allow)
    ensures rejection.None? <==>
      && !rules.rejectedOutright(words)
      && AllWithin(host, HardCandidates(rules, words))
      && Affordable(host, old(probes.cached.Keys) + HardCandidates(rules, words))
    ensures rejection.None? ==>
      probes.Valid(host) && probes.cached.Keys == old(probes.cached.Keys) + HardCandidates(rules, words)
  {
    if rules.rejectedOutright(words) { return Some(Reject); }
    var c := probes.ClassifyAll(host, DirectoryPaths(rules, words));
    match c
    case WithinWorkspace => return None;
    case EscapesTheWorkspace => return Some(Reject);
    case BudgetExceeded => return Some(RequiresApproval);
  }

  method ClassifySimpleCommand(host: Host, rules: Rules, words: seq<string>, probes: PathProbeBudget) returns (decision: Decision)
    requires words != [] && probes.Valid(host)
    modifies probes
    ensures decision.Allow? <==>
      && Unremarkable(rules, words)
      && AllWithin(host, SimpleCandidates(rules, words))
      && Affordable(host, old(probes.cached.Keys) + SimpleCandidates(rules, words))
    ensures decision.Allow? ==>
      probes.Valid(host) && probes.cached.Keys == old(probes.cached.Keys) + SimpleCandidates(rules, words)
  {
    if !rules.clearedBeforePaths(words) { return RequiresApproval; }
    ghost var before := probes.cached.Keys;
    ghost var options, arguments := Elements(rules.optionPaths(words)), Elements(ArgumentPaths(Arguments(words), false));
    assert before + (options + arguments) == (before + options) + arguments;
    if Affordable(host, before + (options + arguments)) {
      AffordableSubset(host, before + options, before + (options + arguments));
    }
    var c := probes.ClassifyAll(host, rules.optionPaths(words));
    if c != WithinWorkspace { return RequiresApproval; }
    c := ClassifyArgumentPaths(host, words[1..], probes);
    if c != WithinWorkspace { return RequiresApproval; }
    return if rules.clearedAfterPaths(words) then Allow else RequiresApproval;
  }

  /** Some of the candidates `all` are cached beside `before`; the next ones must not be beyond `all`. */
  lemma NextAffordable(host: Host, before: set<string>, seen: set<string>, next: set<string>, rest: set<string>, all: set<string>)
    requires all == seen + (next + rest)
    ensures all == (seen + next) + rest && before + (seen + next) == (before + seen) + next
    ensures Affordable(host, before + all) ==> Affordable(host, (before + seen) + next)
    ensures AllWithin(host, all) ==> AllWithin(host, next)
  {
    if Affordable(host, before + all) {
      AffordableSubset(host, (before + seen) + next, before + all);
    }
  }

  /** The first pass: hard rejections. */
  method RejectionPass(host: Host, rules: Rules, commands: seq<seq<string>>, probes: PathProbeBudget)
    returns (rejection: Option<Decision>)
    requires probes.Valid(host)
    modifies probes
    ensures rejection != Some(Allow)
    ensures rejection.None? <==>
      && (forall i :: 0 <= i < |commands| ==> !rules.rejectedOutright(commands[i]))
      && AllWithin(host, AllHard(rules, commands))
      && Affordable(host, old(probes.cached.Keys) + AllHard(rules, commands))
    ensures rejection.None? ==>
      probes.Valid(host) && probes.cached.Keys == old(probes.cached.Keys) + AllHard(rules, commands)
  {
    ghost var before, seen, all := probes.cached.Keys, {}, AllHard(rules, commands);
    assert commands[0..] == commands && before + seen == before;
    for i := 0 to |commands|
      invariant probes.Valid(host) && probes.cached.Keys == before + seen && AllWithin(host, seen)
      invariant all == seen + AllHard(rules, commands[i..])
      invariant forall j :: 0 <= j < i ==> !rules.rejectedOutright(commands[j])
    {
      assert commands[i..][1..] == commands[i + 1..];
      NextAffordable(host, before, seen, HardCandidates(rules, commands[i]), AllHard(rules, commands[i + 1..]), all);
      rejection := ClassifyHardRejection(host, rules, commands[i], probes);
      if rejection.Some? { return; }
      seen := seen + HardCandidates(rules, commands[i]);
    }
    ValidAffordable(host, probes);
    return None;
  }

  /** The second pass: simple commands. */
  method AllowPass(host: Host, rules: Rules, commands: seq<seq<string>>, probes: PathProbeBudget) returns (decision: Decision)
    requires probes.Valid(host) && NonEmpty(commands)
    modifies probes
    ensures decision.Allow? <==>
      && (forall i :: 0 <= i < |commands| ==> Unremarkable(rules, commands[i]))
      && AllWithin(host, AllSimple(rules, commands))
      && Affordable(host, old(probes.cached.Keys) + AllSimple(rules, commands))
  {
    ghost var before, seen, all := probes.cached.Keys, {}, AllSimple(rules, commands);
    assert commands[0..] == commands && before + seen == before;
    for i := 0 to |commands|
      invariant probes.Valid(host) && probes.cached.Keys == before + seen && AllWithin(host, seen)
      invariant all == seen + AllSimple(rules, commands[i..])
      invariant forall j :: 0 <= j < i ==> Unremarkable(rules, commands[j])
    {
      assert commands[i..][1..] == commands[i + 1..];
      NextAffordable(host, before, seen, SimpleCandidates(rules, commands[i]), AllSimple(rules, commands[i + 1..]), all);
      decision := ClassifySimpleCommand(host, rules, commands[i], probes);
      if decision != Allow {
        assert !(Unremarkable(rules, commands[i]) && AllWithin(host, all) && Affordable(host, before + all));
        return;
      }
      seen := seen + SimpleCandidates(rules, commands[i]);
    }
    ValidAffordable(host, probes);
    return Allow;
  }

  lemma ClearedInTwoPasses(rules: Rules, commands: seq<seq<string>>)
    ensures (forall i :: 0 <= i < |commands| ==> Cleared(rules, commands[i])) <==>
            (forall i :: 0 <= i < |commands| ==> !rules.rejectedOutright(commands[i])) && (forall i :: 0 <= i < |commands| ==> Unremarkable(rules, commands[i]))
  {
    if forall i :: 0 <= i < |commands| ==> Cleared(rules, commands[i]) {
      forall i | 0 <= i < |commands|
        ensures !rules.rejectedOutright(commands[i])
      {
        assert Cleared(rules, commands[i]);
      }
    }
  }

  lemma ProbedInTwoPasses(host: Host, none: set<string>, hard: set<string>, simple: set<string>)
    requires none == {}
    ensures AllWithin(host, hard + simple) && Affordable(host, hard + simple) <==>
            (AllWithin(host, hard) && Affordable(host, none + hard)) && (AllWithin(host, simple) && Affordable(host, (none + hard) + simple))
  {
    assert none + hard == hard;
    if Affordable(host, hard + simple) { AffordableSubset(host, hard, hard + simple); }
  }

  method ClassifyParsed(host: Host, rules: Rules, parsed: Parsed) returns (decision: Decision)
    requires NonEmpty(parsed.commands)
    ensures decision.Allow? <==> Allowed(host, rules, parsed)
  {
    var probes := new PathProbeBudget(host);
    ClearedInTwoPasses(rules, parsed.commands);
    ProbedInTwoPasses(host, probes.cached.Keys, AllHard(rules, parsed.commands), AllSimple(rules, parsed.commands));
    var rejection := RejectionPass(host, rules, parsed.commands, probes);
    if rejection.Some? { return rejection.value; }
    if !Flagless(parsed) { return RequiresApproval; }
    decision := AllowPass(host, rules, parsed.commands, probes);
  }

  /** `classify_validated`: allowed exactly when the command parses and is `Allowed`. */
  method Classify(host: Host, rules: Rules, command: string) returns (decision: Decision)
    ensures decision.Allow? <==>
      && Run(START, command).Success?
      && Allowed(host, rules, Run(START, command).value)
    ensures Run(START, command).Failure? ==> decision.Reject?
  {
    var parsed := Parse(command);
    if parsed.Failure? { return Reject; }
    decision := ClassifyParsed(host, rules, parsed.value);
  }

  // ---- decomposition --------------------------------------------------------------------------------------

  lemma {:induction false} CommandCandidates(rules: Rules, commands: seq<seq<string>>, i: nat)
    requires i < |commands|
    ensures HardCandidates(rules, commands[i]) <= AllHard(rules, commands)
    ensures SimpleCandidates(rules, commands[i]) <= AllSimple(rules, commands)
  {
    if i > 0 { CommandCandidates(rules, commands[1..], i - 1); }
  }

  lemma OneCommand(rules: Rules, words: seq<string>)
    ensures AllHard(rules, [words]) == HardCandidates(rules, words) && AllSimple(rules, [words]) == SimpleCandidates(rules, words)
  {
    assert [words][1..] == [];
  }

  /**
   If a command is allowed, each of its simple commands, quoted and classified alone with fresh
   budgets, is allowed too.
   */
  lemma AllowedAlone(host: Host, rules: Rules, command: string, parsed: Parsed, i: nat) returns (alone: Parsed)
    requires Run(START, command) == Success(parsed) && Allowed(host, rules, parsed)
    requires i < |parsed.commands|
    ensures parsed.commands[i] != [] && Run(START, Render([parsed.commands[i]])) == Success(alone)
    ensures alone.commands == [parsed.commands[i]] && Allowed(host, rules, alone)
  {
    ParsedWithinLimits(START, command);
    alone := AllowedQuoted(host, rules, parsed, i);
  }

  lemma AllowedQuoted(host: Host, rules: Rules, parsed: Parsed, i: nat) returns (alone: Parsed)
    requires WithinLimits(parsed.commands) && Allowed(host, rules, parsed)
    requires i < |parsed.commands|
    ensures Run(START, Render([parsed.commands[i]])) == Success(alone)
    ensures alone.commands == [parsed.commands[i]] && Allowed(host, rules, alone)
  {
    var words := parsed.commands[i];
    CountOne(parsed.commands, i);
    assert Count([words]) == |words|;
    QuotingRoundTrip([words]);
    alone := NO_FLAGS.(commands := [words]);
    CommandCandidates(rules, parsed.commands, i);
    OneCommand(rules, words);
    AffordableSubset(host, HardCandidates(rules, words) + SimpleCandidates(rules, words), AllHard(rules, parsed.commands) + AllSimple(rules, parsed.commands));
  }

  lemma {:induction false} CountOne(commands: seq<seq<string>>, i: nat)
    requires i < |commands|
    ensures |commands[i]| <= Count(commands)
  {
    if i > 0 { CountOne(commands[1..], i - 1); }
  }
}
