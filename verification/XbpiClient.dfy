/** The xBPI client's exchange: write, read the length byte, read that many bytes, validate. */
module XbpiClient {
  import opened Bytes
  import opened Line
  import opened XbpiFraming
  import opened Serial

  const ERROR_SUBTYPE: byte := 0x01

  datatype RefusalKind =
    | ValueOutOfRange | Unsupported | NotApplicable | MissingArgs | IndexOutOfRange | Rejected

  datatype Exchange =
    | Delivered(frame: XbpiFrame)
    | Refusal(kind: RefusalKind, frame: XbpiFrame)
    | BadErrorBody(frame: XbpiFrame)
    | Corrupt(error: FrameError)
    | ReadFailed(reply: Reply)
    | WriteFailed(outcome: WriteOutcome)
    | Disposed

  function KindOf(code: byte): RefusalKind {
    if code == 0x03 then ValueOutOfRange
    else if code == 0x04 then Unsupported
    else if code == 0x06 then NotApplicable
    else if code == 0x07 then MissingArgs
    else if code == 0x10 || code == 0x11 then IndexOutOfRange
    else Rejected
  }

  /** What a well-formed reply means to the caller. */
  function Classify(frame: XbpiFrame): (r: Exchange)
    ensures r.Delivered? || r.Refusal? || r.BadErrorBody?
  {
    if frame.subtype != ERROR_SUBTYPE then Delivered(frame)
    else if |frame.body| != 1 then BadErrorBody(frame)
    else Refusal(KindOf(frame.body[0]), frame)
  }

  /** The read half of an exchange, before any draining. */
  function ExchangeOn(line: Line): (Exchange, Line) {
    var (r1, line1) := ReadExactOn(line, 1);
    if !r1.Got? then (ReadFailed(r1), line1)
    else
      var (r2, line2) := ReadExactOn(line1, r1.data[0]);
      if !r2.Got? then (ReadFailed(r2), line2)
      else match ParseFrame(r1.data + r2.data)
        case Malformed(e) => (Corrupt(e), line2)
        case Frame(f) => (Classify(f), line2)
  }

  function ExchangeRun(line: Line, n: nat): (seq<Exchange>, Line)
    decreases n
  {
    if n == 0 then ([], line)
    else
      var (r, next) := ExchangeOn(line);
      var (rs, last) := ExchangeRun(next, n - 1);
      ([r] + rs, last)
  }

  class XbpiProtocolClient {
    const transport: SerialTransport
    var disposed: bool

    constructor (transport: SerialTransport)
      ensures this.transport == transport && !disposed
    {
      this.transport, disposed := transport, false;
    }

    method Dispose()
      modifies this
      ensures disposed
    {
      disposed := true;
    }

    /** Runs with the client's lock held. Only a malformed frame drains the input: refusals,
        timeouts and faults leave the line as the reads left it. */
    method ExecuteLocked(request: bytes, arrived: nat) returns (r: Exchange)
      modifies transport`pushback, transport.port
      ensures disposed ==> r == Disposed && transport.pushback == old(transport.pushback)
      ensures disposed && transport.port != null ==>
        transport.port.sent == old(transport.port.sent) && transport.port.events == old(transport.port.events)
      ensures !disposed && transport.port == null ==> r == WriteFailed(WriteNotOpen)
      ensures !disposed && transport.port != null ==> (r.WriteFailed? <==> transport.port.sent == old(transport.port.sent))
      ensures !disposed && transport.port != null && !r.WriteFailed? ==> transport.port.sent == old(transport.port.sent) + [request]
      ensures !disposed && transport.port != null && r.WriteFailed? ==> transport.Line() == old(transport.Line())
      ensures !disposed && transport.port != null && !r.WriteFailed? ==> r == ExchangeOn(old(transport.Line())).0
      ensures !disposed && transport.port != null && !r.WriteFailed? && !r.Corrupt? ==>
        transport.Line() == ExchangeOn(old(transport.Line())).1
      ensures !disposed && transport.port != null ==>
        (r.WriteFailed? <==> old(transport.port.writes) != [] && old(transport.port.writes)[0] != Sent)
      ensures r.Corrupt? ==> transport.pushback == []
      ensures r.Corrupt? && transport.port != null ==>
        Drained(old(transport.port.events), ExchangeOn(old(transport.Line())).1, arrived, transport.port.events)
    {
      hide ParseFrame, Classify, Suffix, Drained, View;
      if disposed { return Disposed; }
      var w := transport.Write(request);
      if !w.Sent? { return WriteFailed(w); }
      var lengthByte := transport.ReadExact(1);
      if !lengthByte.Got? { return ReadFailed(lengthByte); }
      assert |lengthByte.data| == 1;
      hide ReadExactOn;
      ghost var between := transport.port.events;
      var rest := transport.ReadExact(lengthByte.data[0]);
      if !rest.Got? { return ReadFailed(rest); }
      match ParseFrame(lengthByte.data + rest.data)
      case Malformed(e) =>
        ghost var held := transport.pushback;
        ghost var left := transport.port.events;
        transport.DrainInput(arrived);
        SuffixTransitive(left, between, old(transport.port.events));
        DrainedFrom(old(transport.port.events), held, left, arrived);
        r := Corrupt(e);
      case Frame(frame) =>
        r := Classify(frame);
    }
  }

  // ------------------------------------------------------------------ frame recovery

  predicate WellFormed(frames: seq<bytes>) {
    forall i :: 0 <= i < |frames| ==> ParseFrame(frames[i]).Frame?
  }

  function Meaning(raw: bytes): Exchange
    requires ParseFrame(raw).Frame?
  {
    Classify(ParseFrame(raw).frame)
  }

  function Meanings(frames: seq<bytes>): seq<Exchange>
    requires WellFormed(frames)
  {
    seq(|frames|, i requires 0 <= i < |frames| => Meaning(frames[i]))
  }

  lemma ExchangeReadsOneFrame(line: Line, raw: bytes, rest: bytes)
    requires ParseFrame(raw).Frame? && line.ready == raw + rest
    ensures ExchangeOn(line) == (Meaning(raw), Line(rest, line.later))
  {
    assert line.ready[..1] == raw[..1];
    var line1 := ReadExactOn(line, 1).1;
    assert line1.ready == raw[1..] + rest;
    assert line1.ready[..raw[0]] == raw[1..];
    assert raw[..1] + raw[1..] == raw;
    assert line1.ready[raw[0]..] == rest;
  }

  /** Whatever the chunks were: a stream that starts with n well-formed frames, refusals included,
      yields exactly their meanings in order and stops on the frame boundary. */
  lemma {:induction false} FramesRecovered(line: Line, frames: seq<bytes>, rest: bytes)
    requires WellFormed(frames) && line.ready == Concat(frames) + rest
    ensures ExchangeRun(line, |frames|) == (Meanings(frames), Line(rest, line.later))
    decreases |frames|
  {
    hide ExchangeOn, ParseFrame, Classify;
    if frames == [] {
      assert [] + rest == rest;
    } else {
      var tail := Concat(frames[1..]) + rest;
      assert line.ready == frames[0] + tail;
      ExchangeReadsOneFrame(line, frames[0], tail);
      FramesRecovered(Line(tail, line.later), frames[1..], rest);
      var all := Meanings(frames);
      var more := seq(|frames| - 1, i requires 0 <= i < |frames| - 1 => Meaning(frames[1..][i]));
      assert all == [Meaning(frames[0])] + more;
    }
  }

  lemma FramesRecoveredFromChunks(frames: seq<bytes>, chunks: seq<bytes>, events: seq<Event>)
    requires WellFormed(frames)
    requires |events| == |chunks| && forall i :: 0 <= i < |chunks| ==> events[i] == Chunk(chunks[i])
    requires Concat(chunks) == Concat(frames)
    ensures ExchangeRun(View([], events), |frames|)
      == (Meanings(frames), Line([], []))
  {
    ChunksDeliverConcat(chunks, events);
    assert View([], events) == Line(Concat(frames), []);
    FramesRecovered(View([], events), frames, []);
  }

  // ------------------------------------------------------------------ timeouts and frame boundaries

  /** What each reply on the wire comes to, code by code. */
  lemma RepliesMean(subtype: byte, body: bytes, rest: bytes, line: Line)
    requires |body| <= 252 && line.ready == BuildReply(subtype, body).value + rest
    ensures var (r, next) := ExchangeOn(line);
      && next == Line(rest, line.later)
      && (r.Delivered? <==> subtype != 0x01)
      && (r.Delivered? ==> r.frame.subtype == subtype && r.frame.body == body)
      && (r.BadErrorBody? <==> subtype == 0x01 && |body| != 1)
      && (r.Refusal? <==> subtype == 0x01 && |body| == 1)
      && (r.Refusal? ==>
            && (r.kind == ValueOutOfRange <==> body[0] == 0x03)
            && (r.kind == Unsupported <==> body[0] == 0x04)
            && (r.kind == NotApplicable <==> body[0] == 0x06)
            && (r.kind == MissingArgs <==> body[0] == 0x07)
            && (r.kind == IndexOutOfRange <==> body[0] == 0x10 || body[0] == 0x11)
            && (r.kind == Rejected <==> body[0] !in {0x03, 0x04, 0x06, 0x07, 0x10, 0x11}))
  {
    var raw := BuildReply(subtype, body).value;
    ParseInvertsBuild(subtype, body);
    ExchangeReadsOneFrame(line, raw, rest);
    hide ExchangeOn, ParseFrame, BuildReply;
  }

  /** Exactly when an exchange delivers data: the buffered bytes start with a well-formed reply that is
      no error. */
  lemma DeliversIff(line: Line)
    ensures ExchangeOn(line).0.Delivered? <==>
      exists raw :: raw <= line.ready && ParseFrame(raw).Frame? && raw[2] != 0x01
  {
    forall raw | raw <= line.ready && ParseFrame(raw).Frame? && raw[2] != 0x01 ensures ExchangeOn(line).0.Delivered? {
      assert line.ready == raw + line.ready[|raw|..];
      ExchangeReadsOneFrame(line, raw, line.ready[|raw|..]);
    }
    if ExchangeOn(line).0.Delivered? {
      var raw := DeliveredFrame(line);
      assert raw <= line.ready && ParseFrame(raw).Frame? && raw[2] != 0x01;
    }
  }

  lemma DeliveredFrame(line: Line) returns (raw: bytes)
    requires ExchangeOn(line).0.Delivered?
    ensures raw <= line.ready && ParseFrame(raw).Frame? && raw[2] != 0x01
  {
    hide ParseFrame;
    var n := line.ready[0] as int;
    raw := line.ready[..n + 1];
    assert line.ready[..1] == [line.ready[0]];
    assert line.ready[1..][..n] == line.ready[1..n + 1];
    assert raw == line.ready[..1] + line.ready[1..][..n];
    SubtypeAt(raw);
  }

  lemma SubtypeAt(raw: bytes)
    requires ParseFrame(raw).Frame?
    ensures |raw| >= 4 && ParseFrame(raw).frame.subtype == raw[2]
  {
  }

  /** The reply `raw` is cut by a deadline after its first `k` bytes and completed later. The
      exchange fails, and what the next one finds is the whole reply exactly when the deadline
      struck before its first byte: otherwise the length byte has been consumed and the stream is
      out of step by one. */
  lemma TimeoutKeepsBoundaryIff(raw: bytes, k: nat, after: bytes, later: seq<Gap>)
    requires ParseFrame(raw).Frame? && k < |raw|
    ensures var line := Line(raw[..k], [Gap(Deadline, raw[k..] + after)] + later);
      && ExchangeOn(line).0 == ReadFailed(if k <= 1 then Transient else TimedOut)
      && ExchangeOn(line).1 == Line((if k == 0 then raw else raw[1..]) + after, later)
      && (ExchangeOn(line).1 == Line(raw + after, later) <==> k == 0)
  {
  }

  /** The shift persists: after one timeout whose replies come late, each of the next n requests is
      answered by the reply of the request before it. */
  lemma ShiftPersists(frames: seq<bytes>, rest: bytes, later: seq<Gap>)
    requires WellFormed(frames)
    ensures ExchangeRun(Line([], [Gap(Deadline, Concat(frames) + rest)] + later), |frames| + 1)
      == ([ReadFailed(Transient)] + Meanings(frames), Line(rest, later))
  {
    var line := Line([], [Gap(Deadline, Concat(frames) + rest)] + later);
    var next := Line(Concat(frames) + rest, later);
    assert ExchangeOn(line) == (ReadFailed(Transient), next) by {
      assert line.later[1..] == later;
      assert [] + line.later[0].data == next.ready;
    }
    FramesRecovered(next, frames, rest);
    hide ExchangeOn;
  }

  /** Nothing is drained after such a timeout, so the late reply answers the next request. */
  lemma LateReplyAnswersNextRequest(raw: bytes, after: bytes, later: seq<Gap>)
    requires ParseFrame(raw).Frame?
    ensures ExchangeRun(Line([], [Gap(Deadline, raw + after)] + later), 2)
      == ([ReadFailed(Transient), Meaning(raw)], Line(after, later))
  {
    hide ExchangeRun, Meaning;
    ShiftPersists([raw], after, later);
    assert Concat([raw]) == raw + [] == raw;
    assert Meanings([raw]) == [Meaning(raw)] && |[raw]| + 1 == 2;
    assert [ReadFailed(Transient)] + [Meaning(raw)] == [ReadFailed(Transient), Meaning(raw)];
  }
}
