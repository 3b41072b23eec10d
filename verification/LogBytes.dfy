/**
 The on-disk form of an Event Log (crates/event-store/src/jsonl.rs): one encoded
 event per line, the newline being the commit marker. JSON encoding is a parameter,
 an injective pair whose output holds no raw newline.
 */
module LogBytes {
  import opened Prelude
  import opened Events

  const U64_MAX: nat := 0xFFFF_FFFF_FFFF_FFFF

  datatype Codec = Codec(encode: AgentEvent -> seq<byte>, decode: seq<byte> -> Option<AgentEvent>)
  {
    ghost predicate Lawful() {
      forall e :: decode(encode(e)) == Some(e) && NEWLINE !in encode(e)
    }
  }

  function Frame(c: Codec, e: AgentEvent): seq<byte> {
    c.encode(e) + [NEWLINE]
  }

  function FrameAll(c: Codec, log: Log): seq<byte> {
    if log == [] then [] else FrameAll(c, log[..|log| - 1]) + Frame(c, log[|log| - 1])
  }

  /** `saturating_add(1)` on a u64 sequence. */
  function Successor(sequence: nat): nat {
    if sequence < U64_MAX then sequence + 1 else U64_MAX
  }

  /** The sequence record `i` (zero-based) of a sequenced log must carry. */
  function SequenceAt(i: nat): nat {
    if i < U64_MAX then i + 1 else U64_MAX
  }

  ghost predicate Unsequenced(log: Log) {
    forall i :: 0 <= i < |log| ==> log[i].sequence == None
  }

  ghost predicate Sequenced(log: Log) {
    forall i :: 0 <= i < |log| ==> log[i].sequence == Some(SequenceAt(i))
  }

  ghost predicate Homogeneous(log: Log) {
    Unsequenced(log) || Sequenced(log)
  }

  /** A homogeneous log followed by at most one unterminated record. */
  ghost predicate Holds(c: Codec, bytes: seq<byte>, log: Log, tail: seq<byte>) {
    bytes == FrameAll(c, log) + tail && NEWLINE !in tail && Homogeneous(log)
  }

  // ---- line structure ----------------------------------------------------------

  /** Length up to and including the last newline. */
  function CommittedLength(bytes: seq<byte>): (n: nat)
    ensures n <= |bytes|
    ensures forall i :: n <= i < |bytes| ==> bytes[i] != NEWLINE
    ensures n > 0 ==> bytes[n - 1] == NEWLINE
  {
    if bytes == [] then 0
    else if bytes[|bytes| - 1] == NEWLINE then |bytes|
    else CommittedLength(bytes[..|bytes| - 1])
  }

  lemma CommittedLengthIs(bytes: seq<byte>, n: nat)
    requires n <= |bytes| && (forall i :: n <= i < |bytes| ==> bytes[i] != NEWLINE)
    requires n > 0 ==> bytes[n - 1] == NEWLINE
    ensures n == CommittedLength(bytes)
  {
  }

  /** Length of the first line including its newline, or everything. */
  function FirstLine(bytes: seq<byte>): (n: nat)
    requires bytes != []
    ensures 0 < n <= |bytes|
    ensures forall i :: 0 <= i < n - 1 ==> bytes[i] != NEWLINE
    ensures n < |bytes| ==> bytes[n - 1] == NEWLINE
  {
    if bytes[0] == NEWLINE || |bytes| == 1 then 1
    else
      var n := 1 + FirstLine(bytes[1..]);
      assert forall i :: 1 <= i < |bytes| ==> bytes[i] == bytes[1..][i - 1];
      n
  }

  // ---- reading -------------------------------------------------------------------

  datatype ReadError =
    | DecodeRecord(line: nat)
    | InvalidEventSequence(line: nat, expected: Option<nat>, found: Option<nat>)
    | TruncatedRecord(line: nat)

  /** The sequence check of one record; `expected` is None before the first record. */
  function CheckSequence(expected: Option<Option<nat>>, found: Option<nat>, line: nat): Option<ReadError> {
    match expected
    case None => if found.Some? && found.value != 1 then Some(InvalidEventSequence(line, Some(1), found)) else None
    case Some(want) => if found != want then Some(InvalidEventSequence(line, want, found)) else None
  }

  function NextExpected(found: Option<nat>): Option<nat> {
    if found.Some? then Some(Successor(found.value)) else None
  }

  /** What a reader makes of the bytes that follow `before` already accepted records. */
  function ReadFrom(c: Codec, bytes: seq<byte>, before: nat, expected: Option<Option<nat>>): Result<Log, ReadError>
    decreases |bytes|
  {
    if bytes == [] then Success([])
    else
      var n := FirstLine(bytes);
      var terminated := bytes[n - 1] == NEWLINE;
      var record := if terminated then bytes[..n - 1] else bytes[..n];
      match c.decode(record)
      case None => Failure(DecodeRecord(before + 1))
      case Some(event) =>
        var bad := CheckSequence(expected, event.sequence, before + 1);
        if bad.Some? then Failure(bad.value)
        else if !terminated then Failure(TruncatedRecord(before + 1))
        else
          match ReadFrom(c, bytes[n..], before + 1, Some(NextExpected(event.sequence)))
          case Failure(e) => Failure(e)
          case Success(rest) => Success([event] + rest)
  }

  function ReadLog(c: Codec, bytes: seq<byte>): Result<Log, ReadError> {
    ReadFrom(c, bytes, 0, None)
  }

  // ---- framing is a faithful representation ----------------------------------------

  lemma {:induction false} FrameAllSnoc(c: Codec, log: Log, e: AgentEvent)
    ensures FrameAll(c, log + [e]) == FrameAll(c, log) + Frame(c, e)
  {
    assert (log + [e])[..|log|] == log;
  }

  lemma {:induction false} FrameAllAppend(c: Codec, a: Log, b: Log)
    ensures FrameAll(c, a + b) == FrameAll(c, a) + FrameAll(c, b)
  {
    if b == [] {
      assert a + b == a;
    } else {
      var front := b[..|b| - 1];
      assert (a + b)[..|a + b| - 1] == a + front;
      FrameAllAppend(c, a, front);
    }
  }

  lemma FrameAllTerminated(c: Codec, log: Log)
    ensures log != [] ==> FrameAll(c, log) != [] && FrameAll(c, log)[|FrameAll(c, log)| - 1] == NEWLINE
  {
  }

  lemma HoldsCommitted(c: Codec, bytes: seq<byte>, log: Log, tail: seq<byte>)
    requires Holds(c, bytes, log, tail)
    ensures CommittedLength(bytes) == |FrameAll(c, log)|
    ensures bytes[..CommittedLength(bytes)] == FrameAll(c, log)
  {
    FrameAllTerminated(c, log);
    var n := |FrameAll(c, log)|;
    assert forall i :: n <= i < |bytes| ==> bytes[i] == tail[i - n];
    assert n > 0 ==> bytes[n - 1] == NEWLINE;
  }

  /** Record `i` passes the reader's sequence check. */
  ghost predicate SequenceFits(log: Log, expected: Option<Option<nat>>, i: nat)
    requires i < |log|
  {
    CheckSequence(if i == 0 then expected else Some(NextExpected(log[i - 1].sequence)), log[i].sequence, i).None?
  }

  lemma ReadFirst(c: Codec, e: AgentEvent, more: seq<byte>, before: nat, expected: Option<Option<nat>>)
    requires c.Lawful() && CheckSequence(expected, e.sequence, before + 1).None?
    ensures ReadFrom(c, Frame(c, e) + more, before, expected) ==
            match ReadFrom(c, more, before + 1, Some(NextExpected(e.sequence)))
            case Failure(x) => Failure(x)
            case Success(rest) => Success([e] + rest)
  {
    var bytes := Frame(c, e) + more;
    var n := |Frame(c, e)|;
    assert forall i :: 0 <= i < n - 1 ==> bytes[i] == c.encode(e)[i];
    assert bytes[n - 1] == NEWLINE;
    assert FirstLine(bytes) == n;
    assert bytes[..n - 1] == c.encode(e);
    assert bytes[n..] == more;
  }

  lemma ReadTail(c: Codec, tail: seq<byte>, before: nat, expected: Option<Option<nat>>)
    requires NEWLINE !in tail
    ensures tail != [] ==> ReadFrom(c, tail, before, expected).Failure?
    ensures tail == [] ==> ReadFrom(c, tail, before, expected) == Success([])
  {
    if tail != [] {
      assert tail[FirstLine(tail) - 1] in tail;
    }
  }

  lemma FrameAllHead(c: Codec, log: Log)
    requires log != []
    ensures FrameAll(c, log) == Frame(c, log[0]) + FrameAll(c, log[1..])
  {
    assert log == [log[0]] + log[1..];
    FrameAllAppend(c, [log[0]], log[1..]);
    assert [log[0]][..0] == [];
  }

  /** Reading what was framed gives it back; an unterminated tail is always refused. */
  lemma {:induction false} ReadFramed(c: Codec, log: Log, tail: seq<byte>, before: nat, expected: Option<Option<nat>>)
    requires c.Lawful() && NEWLINE !in tail
    requires forall i :: 0 <= i < |log| ==> SequenceFits(log, expected, i)
    ensures tail == [] ==> ReadFrom(c, FrameAll(c, log) + tail, before, expected) == Success(log)
    ensures tail != [] ==> ReadFrom(c, FrameAll(c, log) + tail, before, expected).Failure?
    decreases |log|
  {
    hide ReadFrom, Codec.Lawful;
    if log == [] {
      assert FrameAll(c, log) + tail == tail;
      ReadTail(c, tail, before, expected);
    } else {
      var rest := log[1..];
      FrameAllHead(c, log);
      assert FrameAll(c, log) + tail == Frame(c, log[0]) + (FrameAll(c, rest) + tail);
      assert SequenceFits(log, expected, 0);
      ReadFirst(c, log[0], FrameAll(c, rest) + tail, before, expected);
      var next := Some(NextExpected(log[0].sequence));
      forall i | 0 <= i < |rest|
        ensures SequenceFits(rest, next, i)
      {
        assert SequenceFits(log, expected, i + 1);
      }
      ReadFramed(c, rest, tail, before + 1, next);
      assert [log[0]] + rest == log;
    }
  }

  lemma ReadBack(c: Codec, bytes: seq<byte>, log: Log, tail: seq<byte>)
    requires c.Lawful() && Holds(c, bytes, log, tail)
    ensures tail == [] ==> ReadLog(c, bytes) == Success(log)
    ensures tail != [] ==> ReadLog(c, bytes).Failure?
  {
    forall i | 0 <= i < |log|
      ensures SequenceFits(log, None, i)
    {
      if i > 0 { assert log[i - 1].sequence.Some? <==> log[i].sequence.Some?; }
    }
    ReadFramed(c, log, tail, 0, None);
  }

  /** The bytes determine the log and the tail. */
  lemma HoldsUnique(c: Codec, bytes: seq<byte>, log: Log, tail: seq<byte>, log': Log, tail': seq<byte>)
    requires c.Lawful() && Holds(c, bytes, log, tail) && Holds(c, bytes, log', tail')
    ensures log == log' && tail == tail'
  {
    HoldsCommitted(c, bytes, log, tail);
    HoldsCommitted(c, bytes, log', tail');
    assert bytes[|FrameAll(c, log)|..] == tail;
    assert bytes[|FrameAll(c, log')|..] == tail';
    assert FrameAll(c, log) + [] == FrameAll(c, log);
    ReadBack(c, FrameAll(c, log), log, []);
    ReadBack(c, FrameAll(c, log'), log', []);
  }

  // ---- crashes ----------------------------------------------------------------------

  /** Every byte prefix of a framed log is a framed prefix of the log plus one torn record. */
  lemma {:induction false} TornPrefix(c: Codec, log: Log, tail: seq<byte>, n: nat) returns (k: nat, torn: seq<byte>)
    requires c.Lawful() && NEWLINE !in tail && n <= |FrameAll(c, log) + tail|
    ensures k <= |log| && NEWLINE !in torn
    ensures (FrameAll(c, log) + tail)[..n] == FrameAll(c, log[..k]) + torn
    ensures forall d: nat :: d <= |log| && |FrameAll(c, log[..d])| <= n ==> d <= k
  {
    var bytes := FrameAll(c, log) + tail;
    if n >= |FrameAll(c, log)| {
      k, torn := |log|, tail[..n - |FrameAll(c, log)|];
      assert log[..k] == log;
      assert bytes[..n] == FrameAll(c, log) + torn;
    } else {
      var last := log[|log| - 1];
      var front := log[..|log| - 1];
      if n == |FrameAll(c, log)| - 1 {
        k, torn := |front|, c.encode(last);
        assert bytes[..n] == FrameAll(c, front) + torn;
      } else {
        assert n <= |FrameAll(c, front) + c.encode(last)|;
        k, torn := TornPrefix(c, front, c.encode(last), n);
        assert bytes[..n] == (FrameAll(c, front) + c.encode(last))[..n];
        assert front[..k] == log[..k];
      }
      forall d: nat | d <= |log| && |FrameAll(c, log[..d])| <= n
        ensures d <= k
      {
        assert d < |log| by { assert log[..|log|] == log; }
        assert front[..d] == log[..d];
      }
    }
  }

  // ---- where the next record may go -------------------------------------------------

  /** The last line of terminated bytes, without its newline. */
  function LastRecord(bytes: seq<byte>): seq<byte>
    requires bytes != []
  {
    var n := |bytes| - 1;
    bytes[CommittedLength(bytes[..n])..n]
  }

  datatype Position = EmptyLog | LegacyLog | SequencedLog(next: nat)

  function PositionAfter(last: AgentEvent): Position {
    if last.sequence.Some? then SequencedLog(Successor(last.sequence.value)) else LegacyLog
  }

  predicate Accepts(position: Position, found: Option<nat>) {
    match position
    case EmptyLog => found == None || found == Some(1)
    case LegacyLog => found == None
    case SequencedLog(next) => found == Some(next)
  }

  /** The append position of bytes whose last line is committed and decodes. */
  function PositionOf(c: Codec, bytes: seq<byte>): Option<Position> {
    if bytes == [] then Some(EmptyLog)
    else if bytes[|bytes| - 1] != NEWLINE then None
    else
      match c.decode(LastRecord(bytes))
      case None => None
      case Some(last) => Some(PositionAfter(last))
  }

  predicate MayAppend(c: Codec, bytes: seq<byte>, sequence: Option<nat>) {
    var p := PositionOf(c, bytes);
    p.Some? && Accepts(p.value, sequence)
  }

  lemma CommittedLengthAppend(a: seq<byte>, b: seq<byte>)
    requires a != [] ==> a[|a| - 1] == NEWLINE
    ensures CommittedLength(a + b) == |a| + CommittedLength(b)
  {
    CommittedLengthIs(a + b, |a| + CommittedLength(b));
  }

  lemma LastRecordDrops(a: seq<byte>, b: seq<byte>)
    requires b != [] && (a != [] ==> a[|a| - 1] == NEWLINE)
    ensures LastRecord(a + b) == LastRecord(b)
  {
    var inner := b[..|b| - 1];
    assert (a + b)[..|a + b| - 1] == a + inner;
    CommittedLengthAppend(a, inner);
  }

  /** A successful scan takes a terminated first line and scans the rest. */
  lemma ScanStep(c: Codec, bytes: seq<byte>, before: nat, expected: Option<Option<nat>>) returns (n: nat, event: AgentEvent, rest: Log)
    requires bytes != [] && ReadFrom(c, bytes, before, expected).Success?
    ensures 0 < n <= |bytes| && bytes[n - 1] == NEWLINE && c.decode(bytes[..n - 1]) == Some(event)
    ensures forall i :: 0 <= i < n - 1 ==> bytes[i] != NEWLINE
    ensures ReadFrom(c, bytes[n..], before + 1, Some(NextExpected(event.sequence))) == Success(rest)
    ensures ReadFrom(c, bytes, before, expected) == Success([event] + rest)
    ensures n == |bytes| ==> rest == []
  {
    n := FirstLine(bytes);
    event := c.decode(bytes[..n - 1]).value;
    rest := ReadFrom(c, bytes[n..], before + 1, Some(NextExpected(event.sequence))).value;
  }

  /** A single line is its own last record. */
  lemma LastRecordOfLine(bytes: seq<byte>)
    requires bytes != [] && forall i :: 0 <= i < |bytes| - 1 ==> bytes[i] != NEWLINE
    ensures LastRecord(bytes) == bytes[..|bytes| - 1]
  {
    var inner := bytes[..|bytes| - 1];
    CommittedLengthIs(inner, 0);
  }

  lemma LastRecordOfRest(bytes: seq<byte>, n: nat)
    requires 0 < n < |bytes| && bytes[n - 1] == NEWLINE
    ensures LastRecord(bytes) == LastRecord(bytes[n..]) && bytes[|bytes| - 1] == bytes[n..][|bytes| - n - 1]
  {
    var first, rest := bytes[..n], bytes[n..];
    LastRecordDrops(first, rest);
    assert first + rest == bytes;
  }

  /** Whenever a full scan succeeds, the last line decodes to the last event of the scan. */
  lemma {:induction false} ScanEndsAtLastRecord(c: Codec, bytes: seq<byte>, before: nat, expected: Option<Option<nat>>)
    requires bytes != [] && ReadFrom(c, bytes, before, expected).Success?
    ensures var log := ReadFrom(c, bytes, before, expected).value;
      && log != []
      && bytes[|bytes| - 1] == NEWLINE
      && c.decode(LastRecord(bytes)) == Some(log[|log| - 1])
    decreases |bytes|
  {
    var n, event, rest := ScanStep(c, bytes, before, expected);
    if n == |bytes| {
      LastRecordOfLine(bytes);
    } else {
      var more := bytes[n..];
      ScanEndsAtLastRecord(c, more, before + 1, Some(NextExpected(event.sequence)));
      LastRecordOfRest(bytes, n);
    }
  }

  /** The fast path over the last record finds the position a full scan finds. */
  lemma FastPathAgrees(c: Codec, bytes: seq<byte>)
    requires ReadLog(c, bytes).Success?
    ensures var log := ReadLog(c, bytes).value;
      PositionOf(c, bytes) == Some(if log == [] then EmptyLog else PositionAfter(log[|log| - 1]))
  {
    if bytes != [] {
      ScanEndsAtLastRecord(c, bytes, 0, None);
    }
  }

  lemma {:induction false} HomogeneousSnoc(log: Log, e: AgentEvent)
    requires Homogeneous(log)
    requires if log == [] then Accepts(EmptyLog, e.sequence) else Accepts(PositionAfter(log[|log| - 1]), e.sequence)
    ensures Homogeneous(log + [e])
  {
    if e.sequence.None? {
      assert log != [] ==> log[|log| - 1].sequence == None;
      assert Unsequenced(log + [e]);
    } else {
      assert log != [] ==> log[|log| - 1].sequence.Some?;
      assert Sequenced(log + [e]);
    }
  }

  /** An accepted append extends the log by one record and keeps it homogeneous; a torn tail accepts nothing. */
  lemma AppendKeepsLog(c: Codec, bytes: seq<byte>, log: Log, tail: seq<byte>, e: AgentEvent, k: nat)
    requires c.Lawful() && Holds(c, bytes, log, tail) && MayAppend(c, bytes, e.sequence) && k <= |Frame(c, e)|
    ensures tail == []
    ensures k == |Frame(c, e)| ==> Holds(c, bytes + Frame(c, e)[..k], log + [e], [])
    ensures k < |Frame(c, e)| ==> Holds(c, bytes + Frame(c, e)[..k], log, Frame(c, e)[..k])
  {
    HoldsCommitted(c, bytes, log, tail);
    assert CommittedLength(bytes) == |bytes|;
    ReadBack(c, bytes, log, tail);
    FastPathAgrees(c, bytes);
    if k == |Frame(c, e)| {
      assert Frame(c, e)[..k] == Frame(c, e);
      HomogeneousSnoc(log, e);
      FrameAllSnoc(c, log, e);
    } else {
      assert Frame(c, e)[..k] == c.encode(e)[..k];
    }
  }
}
