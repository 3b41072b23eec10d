/** The identifiers an Agent Run mints: `{:03}` formatting and why it never repeats. */
module Ids {

  function Digit(d: nat): char
    requires d < 10
  {
    ('0' as int + d) as char
  }

  function Decimal(n: nat): string {
    if n < 10 then [Digit(n)] else Decimal(n / 10) + [Digit(n % 10)]
  }

  /** Rust's `{:03}` for an unsigned number. */
  function Pad3(n: nat): string {
    var s := Decimal(n);
    if |s| == 1 then "00" + s else if |s| == 2 then "0" + s else s
  }

  function DigitValue(c: char): int {
    c as int - '0' as int
  }

  function Value(s: string): int {
    if s == [] then 0 else 10 * Value(s[..|s| - 1]) + DigitValue(s[|s| - 1])
  }

  lemma {:induction false} ValueOfDecimal(n: nat)
    ensures Value(Decimal(n)) == n
    ensures Decimal(n) != []
  {
    if n < 10 {
      assert Decimal(n)[..0] == [];
    } else {
      ValueOfDecimal(n / 10);
      assert Decimal(n)[..|Decimal(n)| - 1] == Decimal(n / 10);
    }
  }

  lemma {:induction false} LeadingZero(s: string)
    ensures Value("0" + s) == Value(s)
  {
    if s == [] {
      assert ("0" + s)[..0] == [];
    } else {
      assert ("0" + s)[..|s|] == "0" + s[..|s| - 1];
      LeadingZero(s[..|s| - 1]);
    }
  }

  lemma Pad3Injective(m: nat, n: nat)
    requires Pad3(m) == Pad3(n)
    ensures m == n
  {
    ValueOfPad3(m);
    ValueOfPad3(n);
  }

  lemma ValueOfPad3(n: nat)
    ensures Value(Pad3(n)) == n
  {
    var s := Decimal(n);
    ValueOfDecimal(n);
    LeadingZero(s);
    LeadingZero("0" + s);
    assert "00" + s == "0" + ("0" + s);
  }

  function TurnIdAt(k: nat): string {
    "turn-" + Pad3(k)
  }

  function ToolIdAt(run: string, k: nat): string {
    run + "-tool-" + Pad3(k)
  }

  function ApprovalIdAt(run: string, k: nat): string {
    run + "-approval-" + Pad3(k)
  }

  /** Distinct counters give distinct identifiers, for every run id. */
  lemma IdsInjective(run: string, j: nat, k: nat)
    ensures TurnIdAt(j) == TurnIdAt(k) ==> j == k
    ensures ToolIdAt(run, j) == ToolIdAt(run, k) ==> j == k
    ensures ApprovalIdAt(run, j) == ApprovalIdAt(run, k) ==> j == k
  {
    SuffixUnique("turn-", Pad3(j), Pad3(k));
    SuffixUnique(run + "-tool-", Pad3(j), Pad3(k));
    SuffixUnique(run + "-approval-", Pad3(j), Pad3(k));
    if Pad3(j) == Pad3(k) {
      Pad3Injective(j, k);
    }
  }

  lemma SuffixUnique(prefix: string, a: string, b: string)
    ensures prefix + a == prefix + b ==> a == b
  {
    assert (prefix + a)[|prefix|..] == a;
    assert (prefix + b)[|prefix|..] == b;
  }
}
