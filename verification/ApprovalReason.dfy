/**
 Bounding of user- and policy-provided reasons before they are persisted
 (crates/tool-runtime/src/execution.rs), and the truncation helper that must agree
 with it (crates/capability-coding/src/tool_support.rs). Sizes are those of the
 serialized JSON string, computed here against an explicit escaper (RFC 8259 section 7).
 */
module ApprovalReason {
  import opened Prelude
  import Utf8

  const MAX_APPROVAL_REASON_SERIALIZED_BYTES: nat := 8 * 1024
  const TRUNCATED_SUFFIX := "\U{2026} [truncated]"

  // ---- the serialized text ------------------------------------------------------

  function HexDigit(d: nat): byte
    requires d < 16
  {
    if d < 10 then 48 + d else 87 + d
  }

  function EscapeChar(c: char): seq<byte> {
    var u := c as int;
    if u == 0x22 then [92, 34]
    else if u == 0x5C then [92, 92]
    else if u == 0x08 then [92, 98]
    else if u == 0x09 then [92, 116]
    else if u == 0x0A then [92, 110]
    else if u == 0x0C then [92, 102]
    else if u == 0x0D then [92, 114]
    else if u < 0x20 then [92, 117, 48, 48, HexDigit(u / 16), HexDigit(u % 16)]
    else Utf8.Encode(c)
  }

  function Escape(s: string): seq<byte> {
    if s == [] then [] else Escape(s[..|s| - 1]) + EscapeChar(s[|s| - 1])
  }

  /** The JSON string token for `s`, quotes included. */
  function JsonString(s: string): seq<byte> {
    [34] + Escape(s) + [34]
  }

  // ---- the size functions of the source --------------------------------------------

  function LenUtf8(c: char): nat {
    var u := c as int;
    if u < 0x80 then 1 else if u < 0x800 then 2 else if u < 0x10000 then 3 else 4
  }

  function CharacterBytes(c: char): nat {
    if c in {'\"', '\\', '\U{0008}', '\U{000c}', '\n', '\r', '\t'} then 2
    else if c as int <= 0x1F then 6
    else LenUtf8(c)
  }

  /** The left fold over the characters. */
  function ContentBytes(s: string): nat {
    if s == [] then 0 else ContentBytes(s[..|s| - 1]) + CharacterBytes(s[|s| - 1])
  }

  function StringBytes(s: string): nat {
    2 + ContentBytes(s)
  }

  function RawBytes(s: string): nat {
    if s == [] then 0 else RawBytes(s[..|s| - 1]) + LenUtf8(s[|s| - 1])
  }

  /** The size fold is the length of the escaped text. */
  lemma {:induction false} SizeIsLength(s: string)
    ensures StringBytes(s) == |JsonString(s)|
    ensures RawBytes(s) <= ContentBytes(s)
  {
    if s != [] {
      SizeIsLength(s[..|s| - 1]);
      var c := s[|s| - 1];
      assert |EscapeChar(c)| == CharacterBytes(c);
    }
  }

  lemma {:induction false} ContentBytesAppend(a: string, b: string)
    ensures ContentBytes(a + b) == ContentBytes(a) + ContentBytes(b)
  {
    if b == [] {
      assert a + b == a;
    } else {
      assert (a + b)[..|a + b| - 1] == a + b[..|b| - 1];
      ContentBytesAppend(a, b[..|b| - 1]);
    }
  }

  /** How many leading characters fit into `budget` bytes. */
  function FitLength(s: string, budget: nat): (n: nat)
    ensures n <= |s|
    ensures ContentBytes(s[..n]) <= budget
    ensures forall k :: n < k <= |s| ==> ContentBytes(s[..k]) > budget
  {
    if s == [] then 0
    else
      assert s[..0] == [];
      assert s[..1] == [s[0]] && [s[0]][..0] == [];
      assert forall k :: 1 <= k <= |s| ==> s[..k] == [s[0]] + s[1..][..k - 1] && ContentBytes(s[..k]) == CharacterBytes(s[0]) + ContentBytes(s[1..][..k - 1]) by {
        forall k | 1 <= k <= |s|
          ensures s[..k] == [s[0]] + s[1..][..k - 1] && ContentBytes(s[..k]) == CharacterBytes(s[0]) + ContentBytes(s[1..][..k - 1])
        {
          assert s[..k] == [s[0]] + s[1..][..k - 1];
          ContentBytesAppend([s[0]], s[1..][..k - 1]);
        }
      }
      if CharacterBytes(s[0]) > budget then 0
      else 1 + FitLength(s[1..], budget - CharacterBytes(s[0]))
  }

  /** White_Space of the Unicode standard, as `char::is_whitespace`. */
  predicate IsWhitespace(c: char) {
    var u := c as int;
    || 0x09 <= u <= 0x0D || u == 0x20 || u == 0x85 || u == 0xA0 || u == 0x1680 || 0x2000 <= u <= 0x200A
    || u == 0x2028 || u == 0x2029 || u == 0x202F || u == 0x205F || u == 0x3000
  }

  /** `trim().is_empty()`. */
  predicate Blank(s: string) {
    forall i :: 0 <= i < |s| ==> IsWhitespace(s[i])
  }

  const CONTENT_BUDGET: nat := MAX_APPROVAL_REASON_SERIALIZED_BYTES - 2 - 15

  lemma {:induction false} PlainBytes(s: string)
    requires forall i :: 0 <= i < |s| ==> 0x20 <= s[i] as int < 0x80 && s[i] != '\"' && s[i] != '\\'
    ensures ContentBytes(s) == |s|
  {
    if s != [] {
      PlainBytes(s[..|s| - 1]);
    }
  }

  lemma SuffixBytes()
    ensures ContentBytes(TRUNCATED_SUFFIX) == 15
  {
    var plain := " [truncated]";
    PlainBytes(plain);
    assert TRUNCATED_SUFFIX == ['\U{2026}'] + plain;
    ContentBytesAppend(['\U{2026}'], plain);
    assert ['\U{2026}'][..0] == [];
  }

  function Bound(reason: string): string {
    if StringBytes(reason) <= MAX_APPROVAL_REASON_SERIALIZED_BYTES then reason
    else
      var prefix := reason[..FitLength(reason, CONTENT_BUDGET)];
      if Blank(prefix) then prefix else prefix + TRUNCATED_SUFFIX
  }

  lemma {:induction false} ContentBytesMonotone(s: string, k: nat)
    requires k <= |s|
    ensures ContentBytes(s[..k]) <= ContentBytes(s)
  {
    assert s == s[..k] + s[k..];
    ContentBytesAppend(s[..k], s[k..]);
  }

  /** The bounded text always fits, keeps a prefix that could not be longer, and is a fixed point. */
  lemma BoundCorrect(reason: string)
    ensures |JsonString(Bound(reason))| <= MAX_APPROVAL_REASON_SERIALIZED_BYTES
    ensures Bound(Bound(reason)) == Bound(reason)
    ensures |JsonString(reason)| <= MAX_APPROVAL_REASON_SERIALIZED_BYTES <==> Bound(reason) == reason
    ensures Bound(reason) != reason ==>
              exists n :: 0 <= n < |reason|
                && (Bound(reason) == reason[..n] || Bound(reason) == reason[..n] + TRUNCATED_SUFFIX)
                && ContentBytes(reason[..n]) <= CONTENT_BUDGET < ContentBytes(reason[..n + 1])
  {
    SizeIsLength(reason);
    SizeIsLength(Bound(reason));
    SuffixBytes();
    if StringBytes(reason) > MAX_APPROVAL_REASON_SERIALIZED_BYTES {
      var n := FitLength(reason, CONTENT_BUDGET);
      assert reason[..|reason|] == reason;
      ContentBytesAppend(reason[..n], TRUNCATED_SUFFIX);
      assert n < |reason|;
      assert ContentBytes(reason[..n]) <= CONTENT_BUDGET < ContentBytes(reason[..n + 1]);
    }
  }

  /** The source's loop over `char_indices`. */
  method BoundApprovalReason(reason: string) returns (bounded: string)
    ensures bounded == Bound(reason)
  {
    SizeIsLength(reason);
    if RawBytes(reason) + 2 <= MAX_APPROVAL_REASON_SERIALIZED_BYTES
      && StringBytes(reason) <= MAX_APPROVAL_REASON_SERIALIZED_BYTES
    {
      return reason;
    }
    SuffixBytes();
    var contentBudget := MAX_APPROVAL_REASON_SERIALIZED_BYTES - 2 - ContentBytes(TRUNCATED_SUFFIX);
    var contentBytes, end := 0, 0;
    while end < |reason|
      invariant end <= |reason|
      invariant contentBytes == ContentBytes(reason[..end]) <= contentBudget
    {
      assert reason[..end + 1][..end] == reason[..end];
      var characterBytes := CharacterBytes(reason[end]);
      if contentBytes + characterBytes > contentBudget { break; }
      contentBytes := contentBytes + characterBytes;
      end := end + 1;
    }
    FitLengthIs(reason, CONTENT_BUDGET, end);
    var prefix := reason[..end];
    if Blank(prefix) { return prefix; }
    return prefix + TRUNCATED_SUFFIX;
  }

  /** The fitting length is determined by its two neighbours' sizes. */
  lemma FitLengthIs(s: string, budget: nat, n: nat)
    requires n <= |s| && ContentBytes(s[..n]) <= budget
    requires n < |s| ==> ContentBytes(s[..n + 1]) > budget
    ensures n == FitLength(s, budget)
  {
    var m := FitLength(s, budget);
    if n < m {
      assert s[..m][..n + 1] == s[..n + 1];
      ContentBytesMonotone(s[..m], n + 1);
    }
  }

  /** The longest prefix whose JSON token stays within `maxSerializedBytes`. */
  function Truncation(value: string, maxSerializedBytes: nat): string {
    value[..FitLength(value, if maxSerializedBytes < 2 then 0 else maxSerializedBytes - 2)]
  }

  method TruncateJsonString(value: string, maxSerializedBytes: nat) returns (kept: string, truncated: bool)
    ensures kept == Truncation(value, maxSerializedBytes)
    ensures truncated <==> kept != value
    ensures maxSerializedBytes >= 2 ==> (truncated <==> |JsonString(value)| > maxSerializedBytes)
  {
    SizeIsLength(value);
    var budget := if maxSerializedBytes < 2 then 0 else maxSerializedBytes - 2;
    var serializedBytes, boundary := 2, 0;
    while boundary < |value|
      invariant boundary <= |value|
      invariant serializedBytes == 2 + ContentBytes(value[..boundary])
      invariant ContentBytes(value[..boundary]) <= budget
    {
      assert value[..boundary + 1][..boundary] == value[..boundary];
      var characterBytes := CharacterBytes(value[boundary]);
      if serializedBytes + characterBytes > maxSerializedBytes {
        FitLengthIs(value, budget, boundary);
        ContentBytesMonotone(value, boundary + 1);
        return value[..boundary], true;
      }
      serializedBytes := serializedBytes + characterBytes;
      boundary := boundary + 1;
    }
    assert value[..|value|] == value;
    FitLengthIs(value, budget, |value|);
    return value, false;
  }

  /** Both helpers measure alike: bounding is truncation at the budget, plus the suffix on visible text. */
  lemma BoundIsTruncation(reason: string)
    ensures Bound(reason) == reason <==> Truncation(reason, MAX_APPROVAL_REASON_SERIALIZED_BYTES) == reason
    ensures Bound(reason) != reason ==>
              var prefix := Truncation(reason, CONTENT_BUDGET + 2);
              Bound(reason) == if Blank(prefix) then prefix else prefix + TRUNCATED_SUFFIX
  {
    SizeIsLength(reason);
    BoundCorrect(reason);
    assert reason[..|reason|] == reason;
  }
}
