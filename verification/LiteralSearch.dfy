/**
 Knuth-Morris-Pratt matching fed in chunks (`LiteralPattern` and `LineState` of
 crates/capability-coding/src/search.rs).
 */
module LiteralSearch {
  import opened Prelude

  const MAX_SEARCH_LINE_BYTES: nat := 8 * 1024

  // ---- what a match is -------------------------------------------------------------

  predicate EndsWith(text: seq<byte>, s: seq<byte>) {
    |s| <= |text| && text[|text| - |s|..] == s
  }

  ghost predicate Occurs(needle: seq<byte>, text: seq<byte>) {
    exists i :: 0 <= i <= |text| && EndsWith(text[..i], needle)
  }

  /** The first `m` bytes of the needle are a suffix of the text. */
  predicate Holds(needle: seq<byte>, text: seq<byte>, m: nat) {
    m <= |needle| && EndsWith(text, needle[..m])
  }

  /** ... and no longer needle prefix is. */
  ghost predicate Longest(needle: seq<byte>, text: seq<byte>, m: nat) {
    Holds(needle, text, m) && forall j :: m < j <= |needle| ==> !Holds(needle, text, j)
  }

  /** `m` is the longest proper border of the first `k` needle bytes. */
  ghost predicate IsBorder(needle: seq<byte>, k: nat, m: nat)
    requires 0 < k <= |needle|
  {
    m < k && Holds(needle, needle[..k], m) && forall j :: m < j < k ==> !Holds(needle, needle[..k], j)
  }

  datatype LiteralPattern = LiteralPattern(needle: seq<byte>, fallback: seq<nat>)
  {
    /** The fallback table is the border function. */
    ghost predicate Valid() {
      |fallback| == |needle| && forall i :: 0 <= i < |needle| ==> IsBorder(needle, i + 1, fallback[i])
    }
  }

  // ---- suffix calculus ----------------------------------------------------------------

  /** A needle prefix that ends the text ends every longer matching prefix too, and conversely. */
  lemma BorderOfMatch(needle: seq<byte>, text: seq<byte>, m: nat, j: nat)
    requires Holds(needle, text, m) && j <= m
    ensures Holds(needle, text, j) <==> Holds(needle, needle[..m], j)
  {
    var t := text[|text| - m..];
    assert t == needle[..m];
    assert text[|text| - j..] == t[m - j..];
    assert needle[..m][m - j..] == t[m - j..];
  }

  /** Extending the text by `b` extends a match by one byte exactly when the needle continues with `b`. */
  lemma HoldsSnoc(needle: seq<byte>, text: seq<byte>, b: byte, j: nat)
    requires j < |needle|
    ensures Holds(needle, text + [b], j + 1) <==> Holds(needle, text, j) && needle[j] == b
  {
    var longer := text + [b];
    assert needle[..j + 1] == needle[..j] + [needle[j]];
    if j + 1 <= |longer| {
      assert longer[|longer| - (j + 1)..] == text[|text| - j..] + [b];
      if Holds(needle, longer, j + 1) {
        assert text[|text| - j..] == (text[|text| - j..] + [b])[..j] == needle[..j];
        assert needle[j] == (text[|text| - j..] + [b])[j] == b;
      }
    }
  }

  lemma OccursSnoc(needle: seq<byte>, text: seq<byte>, b: byte)
    ensures Occurs(needle, text + [b]) <==> Occurs(needle, text) || EndsWith(text + [b], needle)
  {
    var longer := text + [b];
    if Occurs(needle, longer) {
      var i :| 0 <= i <= |longer| && EndsWith(longer[..i], needle);
      if i == |longer| {
        assert longer[..i] == longer;
      } else {
        assert longer[..i] == text[..i];
      }
    }
    if Occurs(needle, text) {
      var i :| 0 <= i <= |text| && EndsWith(text[..i], needle);
      assert longer[..i] == text[..i];
    }
    if EndsWith(longer, needle) {
      assert longer[..|longer|] == longer;
    }
  }

  lemma {:induction false} OccursAppend(needle: seq<byte>, a: seq<byte>, b: seq<byte>)
    requires Occurs(needle, a)
    ensures Occurs(needle, a + b)
  {
    var i :| 0 <= i <= |a| && EndsWith(a[..i], needle);
    assert (a + b)[..i] == a[..i];
  }

  lemma FullMatch(needle: seq<byte>, text: seq<byte>, m: nat)
    requires Longest(needle, text, m)
    ensures m == |needle| <==> EndsWith(text, needle)
  {
    assert needle[..|needle|] == needle;
    assert Holds(needle, text, |needle|) <==> EndsWith(text, needle);
  }

  // ---- the automaton --------------------------------------------------------------------

  /** Candidates above `m` are already ruled out for the next byte `b`. */
  ghost predicate Tried(needle: seq<byte>, text: seq<byte>, b: byte, m: nat) {
    forall j :: m < j < |needle| && Holds(needle, text, j) ==> needle[j] != b
  }

  /** The fallback walk shared by `new` and `advance`, with the number of fallback steps it took. */
  method Advance(needle: seq<byte>, fallback: seq<nat>, matched: nat, b: byte, ghost text: seq<byte>)
    returns (next: nat, ghost steps: nat)
    requires matched < |needle| && matched <= |fallback| <= |needle|
    requires forall i :: 0 <= i < |fallback| ==> IsBorder(needle, i + 1, fallback[i])
    requires Holds(needle, text, matched) && Tried(needle, text, b, matched)
    ensures next <= |needle| && Longest(needle, text + [b], next)
    ensures next + steps <= matched + 1
  {
    var m := matched;
    steps := 0;
    while m > 0 && b != needle[m]
      invariant 0 <= m <= matched
      invariant Holds(needle, text, m) && Tried(needle, text, b, m)
      invariant m + steps <= matched
    {
      var shorter := fallback[m - 1];
      assert IsBorder(needle, m, shorter);
      forall j | shorter < j < |needle| && Holds(needle, text, j)
        ensures needle[j] != b
      {
        if j < m { BorderOfMatch(needle, text, m, j); }
      }
      BorderOfMatch(needle, text, m, shorter);
      m := shorter;
      steps := steps + 1;
    }
    var longer := text + [b];
    HoldsSnoc(needle, text, b, m);
    next := if b == needle[m] then m + 1 else m;
    if b != needle[m] {
      assert needle[..0] == [] && longer[|longer|..] == [];
    }
    forall j | next < j <= |needle|
      ensures !Holds(needle, longer, j)
    {
      HoldsSnoc(needle, text, b, j - 1);
    }
  }

  lemma FirstBorder(needle: seq<byte>)
    requires needle != []
    ensures IsBorder(needle, 1, 0)
  {
    assert needle[..1][1..] == [] == needle[..0];
  }

  /** `LiteralPattern::new`: the table of borders, built by matching the needle against itself. */
  method NewPattern(needle: seq<byte>) returns (pattern: LiteralPattern, ghost steps: nat)
    ensures pattern.Valid() && pattern.needle == needle
    ensures steps <= |needle|
  {
    hide IsBorder, Longest;
    steps := 0;
    if needle == [] { return LiteralPattern([], []), 0; }
    var fallback: seq<nat> := [0];
    var matched := 0;
    FirstBorder(needle);
    for index := 1 to |needle|
      invariant |fallback| == index
      invariant forall i :: 0 <= i < index ==> IsBorder(needle, i + 1, fallback[i])
      invariant matched == fallback[index - 1]
      invariant matched + steps < index
    {
      var inner := needle[1..index];
      BorderIsInnerMatch(needle, index, matched);
      ghost var taken;
      matched, taken := Advance(needle, fallback, matched, needle[index], inner);
      assert inner + [needle[index]] == needle[1..index + 1];
      InnerMatchIsBorder(needle, index + 1, matched);
      fallback := fallback + [matched];
      steps := steps + taken;
    }
    return LiteralPattern(needle, fallback), steps;
  }

  /** A proper border of a prefix is a match of the needle against that prefix without its first byte. */
  lemma InnerMatch(needle: seq<byte>, k: nat, j: nat)
    requires 0 < k <= |needle| && j < k
    ensures Holds(needle, needle[..k], j) <==> Holds(needle, needle[1..k], j)
  {
    assert needle[..k][k - j..] == needle[1..k][k - 1 - j..];
  }

  lemma BorderIsInnerMatch(needle: seq<byte>, k: nat, m: nat)
    requires 0 < k <= |needle| && IsBorder(needle, k, m)
    ensures Longest(needle, needle[1..k], m)
  {
    forall j | m <= j < k
      ensures Holds(needle, needle[..k], j) <==> Holds(needle, needle[1..k], j)
    {
      InnerMatch(needle, k, j);
    }
  }

  lemma InnerMatchIsBorder(needle: seq<byte>, k: nat, m: nat)
    requires 0 < k <= |needle| && Longest(needle, needle[1..k], m)
    ensures IsBorder(needle, k, m)
  {
    forall j | m <= j < k
      ensures Holds(needle, needle[..k], j) <==> Holds(needle, needle[1..k], j)
    {
      InnerMatch(needle, k, j);
    }
  }

  // ---- one line, fed in chunks -------------------------------------------------------------

  class LineState {
    var visible: seq<byte>
    var bytesSeen: nat
    var matcherState: nat
    var matched: bool
    var truncated: bool
    /** Everything fed since the last reset. */
    ghost var text: seq<byte>

    ghost predicate Valid(needle: seq<byte>)
      reads this
    {
      && bytesSeen == |text|
      && visible == text[..if |text| < MAX_SEARCH_LINE_BYTES then |text| else MAX_SEARCH_LINE_BYTES]
      && (truncated <==> |text| > MAX_SEARCH_LINE_BYTES)
      && (matched <==> Occurs(needle, text))
      && (!matched ==> matcherState < |needle| && Longest(needle, text, matcherState))
    }

    constructor (ghost needle: seq<byte>)
      requires needle != []
      ensures Valid(needle) && text == []
    {
      visible, bytesSeen, matcherState, matched, truncated, text := [], 0, 0, false, false, [];
    }

    method ResetForNextLine(ghost needle: seq<byte>)
      requires needle != []
      modifies this
      ensures Valid(needle) && text == []
    {
      visible, bytesSeen, matcherState, matched, truncated, text := [], 0, 0, false, false, [];
    }

    /** However a line is cut into chunks, `matched` says whether the needle occurs in what was fed. */
    method Feed(bytes: seq<byte>, pattern: LiteralPattern) returns (ghost steps: nat)
      requires pattern.Valid() && pattern.needle != [] && Valid(pattern.needle)
      modifies this
      ensures Valid(pattern.needle) && text == old(text) + bytes
      ensures matcherState + steps <= old(matcherState) + |bytes|
    {
      bytesSeen := bytesSeen + |bytes|;
      var remaining := MAX_SEARCH_LINE_BYTES - |visible|;
      var retained := if remaining < |bytes| then remaining else |bytes|;
      visible := visible + bytes[..retained];
      truncated := truncated || retained < |bytes|;
      text := text + bytes;
      assert visible == text[..if |text| < MAX_SEARCH_LINE_BYTES then |text| else MAX_SEARCH_LINE_BYTES];
      steps := 0;
      if matched {
        OccursAppend(pattern.needle, old(text), bytes);
      } else {
        matcherState, matched, steps := MatchBytes(pattern, matcherState, bytes, old(text));
      }
    }
  }

  /** The matching loop of `feed`: stops at the first full match. */
  method MatchBytes(pattern: LiteralPattern, state: nat, bytes: seq<byte>, ghost before: seq<byte>)
    returns (next: nat, matched: bool, ghost steps: nat)
    requires pattern.Valid() && pattern.needle != []
    requires state < |pattern.needle| && Longest(pattern.needle, before, state) && !Occurs(pattern.needle, before)
    ensures matched <==> Occurs(pattern.needle, before + bytes)
    ensures !matched ==> next < |pattern.needle| && Longest(pattern.needle, before + bytes, next)
    ensures next + steps <= state + |bytes|
  {
    var needle := pattern.needle;
    next, steps := state, 0;
    assert before + bytes[..0] == before;
    for i := 0 to |bytes|
      invariant !Occurs(needle, before + bytes[..i])
      invariant next < |needle| && Longest(needle, before + bytes[..i], next)
      invariant next + steps <= state + i
    {
      ghost var seen := before + bytes[..i];
      ghost var longer := before + bytes[..i + 1];
      assert longer == seen + [bytes[i]];
      ghost var taken;
      next, taken := Advance(needle, pattern.fallback, next, bytes[i], seen);
      steps := steps + taken;
      OccursSnoc(needle, seen, bytes[i]);
      FullMatch(needle, longer, next);
      if next == |needle| {
        OccursAppend(needle, longer, bytes[i + 1..]);
        assert longer + bytes[i + 1..] == before + bytes;
        return next, true, steps;
      }
    }
    assert bytes[..|bytes|] == bytes;
    return next, false, steps;
  }
}
