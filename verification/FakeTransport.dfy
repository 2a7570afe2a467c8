/** `FakeTransport`: the flat read buffer, and the proof that `SerialTransport` refines it. */
module Fake {
  import opened Bytes
  import opened Line
  import opened Serial

  /** Python's `buf[:k]`, where a negative `k` counts from the end. */
  function SliceEnd(buf: bytes, k: int): (e: nat)
    ensures e <= |buf|
  {
    if k >= 0 then Min(k, |buf|) else if |buf| + k >= 0 then |buf| + k else 0
  }

  function FakeStep(buf: bytes, op: Op): (Reply, bytes) {
    match op
    case Exact(n) =>
      if |buf| < n then (TimedOut, buf) else (Got(buf[..SliceEnd(buf, n)]), buf[SliceEnd(buf, n)..])
    case Until(sep) =>
      (match Find(buf, sep)
       case None => (TimedOut, buf)
       case Some(i) => assert OccursAt(buf, sep, i); (Got(buf[..i + |sep|]), buf[i + |sep|..]))
    case Available(cap) =>
      if cap.None? || cap.value >= |buf| then (Got(buf), [])
      else (Got(buf[..SliceEnd(buf, cap.value)]), buf[SliceEnd(buf, cap.value)..])
  }

  function FakeRun(buf: bytes, ops: seq<Op>): (seq<Reply>, bytes)
    decreases |ops|
  {
    if ops == [] then ([], buf)
    else
      var (reply, next) := FakeStep(buf, ops[0]);
      var (replies, last) := FakeRun(next, ops[1..]);
      ([reply] + replies, last)
  }

  datatype Scripted = Fixed(reply: bytes) | Callable

  class FakeTransport {
    var isOpen: bool
    var readBuffer: bytes
    var forceReadTimeout: bool
    var forceWriteTimeout: bool
    var script: map<bytes, Scripted>
    var writes: seq<bytes>

    constructor (script: map<bytes, Scripted>)
      ensures !isOpen && readBuffer == [] && !forceReadTimeout && !forceWriteTimeout && this.script == script && writes == []
    {
      isOpen, readBuffer, forceReadTimeout, forceWriteTimeout, this.script, writes := false, [], false, false, script, [];
    }

    /** A scripted write queues its reply; an unknown one queues nothing. `computed` is what the reply
        would be if the script holds a callable. */
    method Write(data: bytes, computed: bytes) returns (w: WriteOutcome)
      modifies this`readBuffer, this`writes
      ensures w == if !isOpen then WriteNotOpen else if forceWriteTimeout then WriteTimedOut(0) else Sent
      ensures writes == old(writes) + (if w.Sent? then [data] else [])
      ensures w.Sent? && data in script ==>
        readBuffer == old(readBuffer) + (match script[data] case Fixed(reply) => reply case Callable => computed)
      ensures !(w.Sent? && data in script) ==> readBuffer == old(readBuffer)
    {
      if !isOpen { return WriteNotOpen; }
      if forceWriteTimeout { return WriteTimedOut(0); }
      writes := writes + [data];
      if data in script {
        readBuffer := readBuffer + match script[data] case Fixed(reply) => reply case Callable => computed;
      }
      w := Sent;
    }

    method Read(op: Op) returns (r: Reply)
      modifies this`readBuffer
      ensures !isOpen ==> r == NotOpen && readBuffer == old(readBuffer)
      ensures isOpen && forceReadTimeout && !op.Available? ==> r == TimedOut && readBuffer == old(readBuffer)
      ensures isOpen && (!forceReadTimeout || op.Available?) ==> (r, readBuffer) == FakeStep(old(readBuffer), op)
    {
      if !isOpen { return NotOpen; }
      if forceReadTimeout && !op.Available? { return TimedOut; }
      var end: nat;
      match op {
        case Exact(n) =>
          if |readBuffer| < n { return TimedOut; }
          end := SliceEnd(readBuffer, n);
        case Until(sep) =>
          var found := Find(readBuffer, sep);
          if found.None? { return TimedOut; }
          assert OccursAt(readBuffer, sep, found.value);
          end := found.value + |sep|;
        case Available(cap) =>
          end := if cap.None? || cap.value >= |readBuffer| then |readBuffer| else SliceEnd(readBuffer, cap.value);
          assert readBuffer[|readBuffer|..] == [] && readBuffer[..|readBuffer|] == readBuffer;
      }
      r := Got(readBuffer[..end]);
      readBuffer := readBuffer[end..];
    }
  }

  // ------------------------------------------------------------------ refinement

  /** The serial transport has a second timeout class, for a deadline that saw no byte. */
  predicate SameReply(serial: Reply, fake: Reply) {
    serial == fake || (serial == Transient && fake == TimedOut)
  }

  predicate SameReplies(serial: seq<Reply>, fake: seq<Reply>) {
    |serial| == |fake| && forall i :: 0 <= i < |serial| ==> SameReply(serial[i], fake[i])
  }

  /** Arguments on which the two implementations are meant to agree. */
  predicate Sensible(op: Op) {
    match op
    case Exact(n) => n >= 0
    case Until(sep) => true
    case Available(cap) => cap.None? || cap.value > 0
  }

  /** When one read agrees on a line without interruptions, exactly: a cap of zero means "no
      cap" to one and "no bytes" to the other, and negative arguments slice from the end of the
      fake's buffer. */
  lemma StepRefinesIff(buf: bytes, op: Op)
    ensures (SameReply(Step(Line(buf, []), op).0, FakeStep(buf, op).0)
             && Step(Line(buf, []), op).1 == Line(FakeStep(buf, op).1, []))
        <==> match op
             case Exact(n) => n >= 0 || |buf| <= -n
             case Until(sep) => true
             case Available(cap) => cap.None? || cap.value > 0 || buf == []
  {
  }

  /** Over any run of sensible reads on uninterrupted input, the serial transport answers like
      the flat buffer and leaves the same bytes behind. */
  lemma {:induction false} RunRefines(buf: bytes, ops: seq<Op>)
    requires forall i :: 0 <= i < |ops| ==> Sensible(ops[i])
    ensures SameReplies(Run(Line(buf, []), ops).0, FakeRun(buf, ops).0)
    ensures Run(Line(buf, []), ops).1 == Line(FakeRun(buf, ops).1, [])
    decreases |ops|
  {
    if ops != [] {
      StepRefinesIff(buf, ops[0]);
      RunRefines(FakeStep(buf, ops[0]).1, ops[1..]);
    }
  }

  /** The same, from the chunks themselves: how the kernel cut the bytes up does not matter. */
  lemma SerialRefinesFlat(pushback: bytes, chunks: seq<bytes>, events: seq<Event>, ops: seq<Op>)
    requires |events| == |chunks| && forall i :: 0 <= i < |chunks| ==> events[i] == Chunk(chunks[i])
    requires forall i :: 0 <= i < |ops| ==> Sensible(ops[i])
    ensures SameReplies(Run(View(pushback, events), ops).0, FakeRun(pushback + Concat(chunks), ops).0)
    ensures Run(View(pushback, events), ops).1 == Line(FakeRun(pushback + Concat(chunks), ops).1, [])
  {
    ChunksDeliverConcat(chunks, events);
    RunRefines(pushback + Concat(chunks), ops);
  }
}
