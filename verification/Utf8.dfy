/**
 UTF-8 (RFC 3629 section 4): an encoder, the incremental check that
 `std::str::from_utf8` performs, and the chunked validator of
 crates/capability-coding/src/search.rs.
 */
module Utf8 {
  import opened Prelude

  /** The encoding of one scalar value (section 3). */
  function Encode(c: char): (bytes: seq<byte>)
    ensures 1 <= |bytes| <= 4
  {
    var u := c as int;
    if u < 0x80 then [u]
    else if u < 0x800 then [0xC0 + u / 0x40, 0x80 + u % 0x40]
    else if u < 0x10000 then [0xE0 + u / 0x1000, 0x80 + u / 0x40 % 0x40, 0x80 + u % 0x40]
    else [0xF0 + u / 0x40000, 0x80 + u / 0x1000 % 0x40, 0x80 + u / 0x40 % 0x40, 0x80 + u % 0x40]
  }

  function EncodeAll(s: string): seq<byte> {
    if s == [] then [] else Encode(s[0]) + EncodeAll(s[1..])
  }

  // ---- one character -----------------------------------------------------------------

  predicate IsTail(b: byte) {
    0x80 <= b <= 0xBF
  }

  /** Length announced by a leading byte; 0 when no character starts with it. */
  function Width(lead: byte): nat {
    if lead <= 0x7F then 1
    else if 0xC2 <= lead <= 0xDF then 2
    else if 0xE0 <= lead <= 0xEF then 3
    else if 0xF0 <= lead <= 0xF4 then 4
    else 0
  }

  predicate SecondOk(lead: byte, b: byte) {
    if lead == 0xE0 then 0xA0 <= b <= 0xBF
    else if lead == 0xED then 0x80 <= b <= 0x9F
    else if lead == 0xF0 then 0x90 <= b <= 0xBF
    else if lead == 0xF4 then 0x80 <= b <= 0x8F
    else IsTail(b)
  }

  /** Byte `i` may stand in a character led by `lead`. */
  predicate ByteOk(lead: byte, i: nat, b: byte) {
    if i == 1 then SecondOk(lead, b) else IsTail(b)
  }

  datatype Lead = Complete(n: nat) | Incomplete | Malformed

  /** The first `n` bytes may start a character led by `bytes[0]`. */
  predicate StartsWell(bytes: seq<byte>, n: nat)
    requires 0 < |bytes|
  {
    forall i :: 1 <= i < n && i < |bytes| ==> ByteOk(bytes[0], i, bytes[i])
  }

  /** The first character of non-empty bytes. */
  function FirstChar(bytes: seq<byte>): (l: Lead)
    requires bytes != []
    ensures l.Complete? ==> 1 <= l.n <= 4 && l.n <= |bytes|
    ensures l.Incomplete? ==> |bytes| <= 3
  {
    var w := Width(bytes[0]);
    if w == 0 || !StartsWell(bytes, w) then Malformed
    else if |bytes| < w then Incomplete
    else Complete(w)
  }

  // ---- whole input ---------------------------------------------------------------------

  /** `Ok`, or `valid_up_to` with (`Invalid`) or without (`Truncated`) an `error_len`. */
  datatype Check = Valid | Truncated(validUpTo: nat) | Invalid(validUpTo: nat)

  function Shift(check: Check, n: nat): Check {
    match check
    case Valid => Valid
    case Truncated(k) => Truncated(n + k)
    case Invalid(k) => Invalid(n + k)
  }

  function FromUtf8(bytes: seq<byte>): (check: Check)
    ensures !check.Valid? ==> check.validUpTo < |bytes|
    ensures check.Truncated? ==> |bytes| - check.validUpTo <= 3
  {
    if bytes == [] then Valid
    else
      match FirstChar(bytes)
      case Malformed => Invalid(0)
      case Incomplete => Truncated(0)
      case Complete(n) => Shift(FromUtf8(bytes[n..]), n)
  }

  /** A later byte cannot change a decision already made about the first character. */
  lemma FirstCharExtends(a: seq<byte>, b: seq<byte>)
    requires a != []
    ensures !FirstChar(a).Incomplete? ==> FirstChar(a + b) == FirstChar(a)
  {
    assert forall i :: 0 <= i < |a| ==> (a + b)[i] == a[i];
  }

  lemma {:induction false} FromUtf8Extends(a: seq<byte>, b: seq<byte>)
    ensures FromUtf8(a).Valid? ==> FromUtf8(a + b) == Shift(FromUtf8(b), |a|)
    ensures FromUtf8(a).Invalid? ==> FromUtf8(a + b) == FromUtf8(a)
    decreases |a|
  {
    if a == [] {
      assert a + b == b;
    } else {
      FirstCharExtends(a, b);
      if FirstChar(a).Complete? {
        var n := FirstChar(a).n;
        assert (a + b)[n..] == a[n..] + b;
        FromUtf8Extends(a[n..], b);
      }
    }
  }

  lemma FirstCharTake(bytes: seq<byte>, n: nat)
    requires bytes != [] && FirstChar(bytes) == Complete(n)
    ensures FirstChar(bytes[..n]) == Complete(n)
    ensures FromUtf8(bytes[..n]).Valid?
  {
    assert forall i :: 0 <= i < n ==> bytes[..n][i] == bytes[i];
    assert bytes[..n][n..] == [];
  }

  /** The first character off text that begins with a complete one. */
  lemma TakeCharacter(bytes: seq<byte>) returns (first: seq<byte>, rest: seq<byte>)
    requires bytes != [] && FirstChar(bytes).Complete?
    ensures bytes == first + rest && |first| == FirstChar(bytes).n && |rest| < |bytes|
    ensures first != [] && FirstChar(first) == Complete(|first|) && FromUtf8(first).Valid?
    ensures FromUtf8(bytes) == Shift(FromUtf8(rest), |first|)
  {
    var n := FirstChar(bytes).n;
    first, rest := bytes[..n], bytes[n..];
    FirstCharTake(bytes, n);
  }

  lemma CutAt(first: seq<byte>, rest: seq<byte>, k: nat)
    requires |first| <= k <= |first| + |rest|
    ensures (first + rest)[..k] == first + rest[..k - |first|]
    ensures (first + rest)[k..] == rest[k - |first|..]
  {
  }

  /** What precedes `valid_up_to` is valid, and a truncated rest is the start of one character. */
  lemma {:induction false} ValidUpTo(bytes: seq<byte>, k: nat)
    requires FromUtf8(bytes) == Truncated(k) || FromUtf8(bytes) == Invalid(k)
    ensures FromUtf8(bytes[..k]).Valid?
    ensures FromUtf8(bytes).Truncated? ==> FromUtf8(bytes[k..]) == Truncated(0)
    decreases |bytes|
  {
    if k == 0 {
      assert bytes[..0] == [] && bytes[0..] == bytes;
    } else {
      var first, rest := TakeCharacter(bytes);
      var j := k - |first|;
      ValidUpTo(rest, j);
      FromUtf8Extends(first, rest[..j]);
      CutAt(first, rest, k);
    }
  }

  /** A prefix of text that is not malformed is not malformed either. */
  lemma PrefixNotInvalid(a: seq<byte>, b: seq<byte>)
    requires !FromUtf8(a + b).Invalid?
    ensures !FromUtf8(a).Invalid?
  {
    FromUtf8Extends(a, b);
  }

  lemma NewlineStopsCharacter(a: seq<byte>, rest: seq<byte>)
    requires a != [] && FirstChar(a).Incomplete? && rest != [] && rest[0] == NEWLINE
    ensures FirstChar(a + rest).Malformed?
  {
    var bytes := a + rest;
    assert forall i :: 0 <= i < |a| ==> bytes[i] == a[i];
    assert bytes[|a|] == NEWLINE;
  }

  lemma BrokenByNewline(front: seq<byte>, start: seq<byte>, rest: seq<byte>)
    requires FromUtf8(front).Valid? && start != [] && FirstChar(start).Incomplete?
    requires rest != [] && rest[0] == NEWLINE
    ensures FromUtf8(front + (start + rest)).Invalid?
  {
    NewlineStopsCharacter(start, rest);
    FromUtf8Extends(front, start + rest);
  }

  lemma Assoc(a: seq<byte>, b: seq<byte>, c: seq<byte>)
    ensures a + (b + c) == (a + b) + c
  {
  }

  /** A newline never sits inside a character, so text before one is complete. */
  lemma NewlineEndsCharacters(a: seq<byte>, rest: seq<byte>)
    requires rest != [] && rest[0] == NEWLINE && !FromUtf8(a + rest).Invalid?
    ensures FromUtf8(a).Valid?
  {
    var check := FromUtf8(a);
    PrefixNotInvalid(a, rest);
    if check.Truncated? {
      ValidUpTo(a, check.validUpTo);
      var front, start := a[..check.validUpTo], a[check.validUpTo..];
      assert front + start == a;
      Assoc(front, start, rest);
      BrokenByNewline(front, start, rest);
    }
  }

  lemma AfterNewline(b: seq<byte>)
    ensures FromUtf8([NEWLINE] + b) == Shift(FromUtf8(b), 1)
  {
    var bytes := [NEWLINE] + b;
    assert bytes[1..] == b;
    assert FirstChar(bytes) == Complete(1);
  }

  // ---- the check accepts exactly the encodings --------------------------------------------

  lemma EncodedFirst(c: char, rest: seq<byte>)
    ensures FirstChar(Encode(c) + rest) == Complete(|Encode(c)|)
  {
    var u := c as int;
    var bytes := Encode(c);
    assert forall i :: 0 <= i < |bytes| ==> (bytes + rest)[i] == bytes[i];
  }

  lemma {:induction false} EncodingsAccepted(s: string)
    ensures FromUtf8(EncodeAll(s)).Valid?
  {
    if s != [] {
      EncodedFirst(s[0], EncodeAll(s[1..]));
      assert EncodeAll(s)[|Encode(s[0])|..] == EncodeAll(s[1..]);
      EncodingsAccepted(s[1..]);
    }
  }

  lemma Split(q: nat, r: nat, m: nat)
    requires r < m
    ensures (q * m + r) / m == q && (q * m + r) % m == r
  {
    var d := (q * m + r) / m - q;
    assert m * d + (q * m + r) % m == r;
    assert d >= 1 ==> m * d >= m;
    assert d <= -1 ==> m * d + m <= 0;
  }

  lemma CharacterDecodes(bytes: seq<byte>) returns (c: char)
    requires bytes != [] && FirstChar(bytes) == Complete(|bytes|)
    ensures Encode(c) == bytes
  {
    var b0: int := bytes[0];
    if |bytes| == 1 {
      c := b0 as char;
    } else if |bytes| == 2 {
      var b1: int := bytes[1];
      Split(b0 - 0xC0, b1 - 0x80, 0x40);
      c := ((b0 - 0xC0) * 0x40 + (b1 - 0x80)) as char;
    } else if |bytes| == 3 {
      c := DecodeThree(bytes);
    } else {
      c := DecodeFour(bytes);
    }
  }

  lemma DecodeThree(bytes: seq<byte>) returns (c: char)
    requires |bytes| == 3 && FirstChar(bytes) == Complete(3)
    ensures Encode(c) == bytes
  {
    var b0: int, b1: int, b2: int := bytes[0], bytes[1], bytes[2];
    var high := (b0 - 0xE0) * 0x40 + (b1 - 0x80);
    var u := high * 0x40 + (b2 - 0x80);
    Split(high, b2 - 0x80, 0x40);
    Split(b0 - 0xE0, b1 - 0x80, 0x40);
    Split(b0 - 0xE0, (b1 - 0x80) * 0x40 + (b2 - 0x80), 0x1000);
    assert 0x800 <= u < 0x10000 && !(0xD800 <= u < 0xE000);
    c := u as char;
  }

  lemma DecodeFour(bytes: seq<byte>) returns (c: char)
    requires |bytes| == 4 && FirstChar(bytes) == Complete(4)
    ensures Encode(c) == bytes
  {
    var b0: int, b1: int, b2: int, b3: int := bytes[0], bytes[1], bytes[2], bytes[3];
    var top := (b0 - 0xF0) * 0x40 + (b1 - 0x80);
    var high := top * 0x40 + (b2 - 0x80);
    var u := high * 0x40 + (b3 - 0x80);
    Split(high, b3 - 0x80, 0x40);
    Split(top, b2 - 0x80, 0x40);
    Split(b0 - 0xF0, b1 - 0x80, 0x40);
    Split(top, (b2 - 0x80) * 0x40 + (b3 - 0x80), 0x1000);
    Split(b0 - 0xF0, (b1 - 0x80) * 0x1000 + (b2 - 0x80) * 0x40 + (b3 - 0x80), 0x40000);
    assert 0x10000 <= u < 0x11_0000;
    c := u as char;
  }

  lemma EncodeAllStep(c: char, s: string)
    ensures EncodeAll([c] + s) == Encode(c) + EncodeAll(s)
  {
    assert ([c] + s)[1..] == s;
  }

  lemma {:induction false} AcceptedDecodes(bytes: seq<byte>) returns (s: string)
    requires FromUtf8(bytes).Valid?
    ensures EncodeAll(s) == bytes
    decreases |bytes|
  {
    if bytes == [] {
      s := [];
    } else {
      var first, more := TakeCharacter(bytes);
      var c := CharacterDecodes(first);
      var rest := AcceptedDecodes(more);
      s := [c] + rest;
      EncodeAllStep(c, rest);
    }
  }

  /** `from_utf8` succeeds exactly on the encodings of scalar value sequences. */
  lemma ValidIffEncoding(bytes: seq<byte>)
    ensures FromUtf8(bytes).Valid? <==> exists s: string :: EncodeAll(s) == bytes
  {
    if FromUtf8(bytes).Valid? {
      var s := AcceptedDecodes(bytes);
    }
    forall s: string | EncodeAll(s) == bytes
      ensures FromUtf8(bytes).Valid?
    {
      EncodingsAccepted(s);
    }
  }

  /** Text and pending bytes after a buffer whose last character is still incomplete. */
  lemma BufferTruncated(done: seq<byte>, buffer: seq<byte>, k: nat)
    requires FromUtf8(done).Valid? && FromUtf8(buffer) == Truncated(k)
    ensures FromUtf8(done + buffer[..k]).Valid? && FromUtf8(buffer[k..]) == Truncated(0)
    ensures (done + buffer[..k]) + buffer[k..] == done + buffer
  {
    hide FromUtf8;
    ValidUpTo(buffer, k);
    FromUtf8Extends(done, buffer[..k]);
  }

  // ---- the chunked validator -------------------------------------------------------------------

  class Utf8Validator {
    var pending: seq<byte>
    var validationBuffer: seq<byte>
    /** Everything fed so far, split at the last complete character. */
    ghost var text: seq<byte>
    ghost var done: seq<byte>

    /** All of the text is valid but for a pending start of one character. */
    ghost predicate Valid()
      reads this
    {
      && text == done + pending
      && FromUtf8(done).Valid?
      && |pending| <= 3
      && (pending != [] ==> FromUtf8(pending) == Truncated(0))
    }

    constructor ()
      ensures Valid() && text == []
    {
      pending, validationBuffer, text, done := [], [], [], [];
    }

    /** True as long as what was fed can still be continued to valid UTF-8. */
    method Feed(bytes: seq<byte>) returns (ok: bool)
      requires Valid()
      modifies this
      ensures text == old(text) + bytes
      ensures ok <==> !FromUtf8(text).Invalid?
      ensures ok ==> Valid()
    {
      validationBuffer := pending + bytes;
      Assoc(done, pending, bytes);
      FromUtf8Extends(done, validationBuffer);
      text := text + bytes;
      var check := FromUtf8(validationBuffer);
      ok := !check.Invalid?;
      if check.Truncated? {
        BufferTruncated(done, validationBuffer, check.validUpTo);
        pending := validationBuffer[check.validUpTo..];
        done := done + validationBuffer[..check.validUpTo];
      } else {
        pending := [];
        done := text;
      }
    }

    /** True exactly when everything fed is valid UTF-8. */
    method Finish() returns (ok: bool)
      requires Valid()
      ensures ok <==> FromUtf8(text).Valid?
    {
      FromUtf8Extends(done, pending);
      return pending == [];
    }
  }
}
