/** What the wire delivers, and the chunk-independent view of it that the reads are specified on.

    The operating system hands the driver an adversarial list of events: chunks of bytes
    (possibly empty), silences long enough for the current deadline to expire, and faults.
    `Line` forgets the chunk boundaries and keeps only the bytes and the interruptions. */
module Line {
  import opened Bytes

  datatype Fault = Gone | Backend

  datatype Event =
    | Chunk(data: bytes)
    | Silence
    | Broken(fault: Fault)

  datatype Stop = Deadline | Failure(fault: Fault)

  /** An interruption and the bytes that arrive after it, up to the next one. */
  datatype Gap = Gap(stop: Stop, data: bytes)

  datatype Line = Line(ready: bytes, later: seq<Gap>)

  /** Errors of the read side, with the exception class the transport raises. */
  datatype Reply =
    | Got(data: bytes)
    | TimedOut          // SartoriusTimeoutError
    | Transient         // SartoriusTransientTransportError: deadline with no byte at all
    | Lost(fault: Fault) // SartoriusConnectionError (Gone) or SartoriusTransportError (Backend)
    | NotOpen           // SartoriusConnectionError raised before any I/O

  function Canonical(events: seq<Event>): Line {
    if events == [] then Line([], [])
    else
      var rest := Canonical(events[1..]);
      match events[0]
      case Chunk(data) => Line(data + rest.ready, rest.later)
      case Silence => Line([], [Gap(Deadline, rest.ready)] + rest.later)
      case Broken(fault) => Line([], [Gap(Failure(fault), rest.ready)] + rest.later)
  }

  /** The line as seen by a reader that already holds `held`. */
  function View(held: bytes, events: seq<Event>): Line {
    var line := Canonical(events);
    Line(held + line.ready, line.later)
  }

  /** Taking the first `k` held bytes off a reader takes them off its line. */
  lemma ViewAdvance(held: bytes, events: seq<Event>, k: nat)
    requires k <= |held|
    ensures View(held[k..], events) == Line(View(held, events).ready[k..], View(held, events).later)
    ensures View(held, events).ready[..k] == held[..k]
  {
  }

  /** Every byte still to be read, whatever interrupts it. */
  function Flat(line: Line): bytes { line.ready + FlatGaps(line.later) }

  function FlatGaps(gaps: seq<Gap>): bytes {
    if gaps == [] then [] else gaps[0].data + FlatGaps(gaps[1..])
  }

  // ------------------------------------------------------------------ the reads

  datatype Op =
    | Exact(n: int)
    | Until(sep: bytes)
    | Available(cap: Option<int>)

  /** The interruption at the head of `later` strikes while `line.ready` is buffered. Past the
      end of the script the line stays silent. */
  function Interrupt(line: Line, timeout: Reply): (Reply, Line) {
    if line.later == [] then (timeout, line)
    else match line.later[0].stop
      case Deadline => (timeout, Line(line.ready + line.later[0].data, line.later[1..]))
      case Failure(fault) => (Lost(fault), Line(line.later[0].data, line.later[1..]))
  }

  function ReadExactOn(line: Line, n: int): (Reply, Line) {
    if n <= 0 then (Got([]), line)
    else if n <= |line.ready| then (Got(line.ready[..n]), Line(line.ready[n..], line.later))
    else Interrupt(line, if line.ready == [] then Transient else TimedOut)
  }

  function ReadUntilOn(line: Line, sep: bytes): (Reply, Line) {
    match Find(line.ready, sep)
    case Some(i) =>
      assert OccursAt(line.ready, sep, i);
      (Got(line.ready[..i + |sep|]), Line(line.ready[i + |sep|..], line.later))
    case None => Interrupt(line, TimedOut)
  }

  /** `max_bytes` of zero or below means "no cap". A fault ends the read like an idle line does. */
  function ReadAvailableOn(line: Line, cap: Option<int>): (Reply, Line) {
    if cap.Some? && 0 < cap.value <= |line.ready| then
      (Got(line.ready[..cap.value]), Line(line.ready[cap.value..], line.later))
    else if line.later == [] then (Got(line.ready), Line([], []))
    else (Got(line.ready), Line(line.later[0].data, line.later[1..]))
  }

  function Step(line: Line, op: Op): (Reply, Line) {
    match op
    case Exact(n) => ReadExactOn(line, n)
    case Until(sep) => ReadUntilOn(line, sep)
    case Available(cap) => ReadAvailableOn(line, cap)
  }

  function Run(line: Line, ops: seq<Op>): (seq<Reply>, Line)
    decreases |ops|
  {
    if ops == [] then ([], line)
    else
      var (reply, next) := Step(line, ops[0]);
      var (replies, last) := Run(next, ops[1..]);
      ([reply] + replies, last)
  }

  function Payload(replies: seq<Reply>): bytes {
    if replies == [] then []
    else (if replies[0].Got? then replies[0].data else []) + Payload(replies[1..])
  }

  function Rest(events: seq<Event>): seq<Event> { if events == [] then [] else events[1..] }

  /** A reader holding `held` meets a silence (or the end of the script) or a fault. */
  lemma ViewInterrupted(held: bytes, events: seq<Event>, timeout: Reply)
    requires events == [] || !events[0].Chunk?
    ensures View(held, events).ready == held
    ensures events == [] || events[0].Silence? ==>
      Interrupt(View(held, events), timeout) == (timeout, View(held, Rest(events)))
    ensures events != [] && events[0].Broken? ==>
      Interrupt(View(held, events), timeout) == (Lost(events[0].fault), View([], Rest(events)))
    ensures ReadAvailableOn(View(held, events), None) == (Got(held), View([], Rest(events)))
  {
    var line := Canonical(events);
    assert held + [] == held;
    assert View(held, events).ready == held;
    if events != [] {
      var rest := Canonical(events[1..]);
      assert line.later[1..] == rest.later;
      assert [] + rest.ready == rest.ready;
      assert View(held, Rest(events)) == Line(held + rest.ready, rest.later);
      assert View([], Rest(events)) == Line(rest.ready, rest.later);
    } else {
      assert View([], Rest(events)) == Line([], []);
    }
  }

  // ------------------------------------------------------------------ chunk boundaries

  lemma ChunkSplits(a: bytes, b: bytes, after: seq<Event>)
    ensures Canonical([Chunk(a)] + ([Chunk(b)] + after)) == Canonical([Chunk(a + b)] + after)
  {
    var rest := Canonical(after);
    assert ([Chunk(b)] + after)[1..] == after && ([Chunk(a + b)] + after)[1..] == after;
    assert ([Chunk(a)] + ([Chunk(b)] + after))[1..] == [Chunk(b)] + after;
    assert (a + b) + rest.ready == a + (b + rest.ready);
  }

  lemma EmptyChunk(after: seq<Event>)
    ensures Canonical([Chunk([])] + after) == Canonical(after)
  {
    assert ([Chunk([])] + after)[1..] == after;
    assert [] + Canonical(after).ready == Canonical(after).ready;
  }

  lemma SameAhead(e: Event, a: seq<Event>, b: seq<Event>)
    requires Canonical(a) == Canonical(b)
    ensures Canonical([e] + a) == Canonical([e] + b)
  {
    assert ([e] + a)[1..] == a && ([e] + b)[1..] == b;
  }

  lemma {:induction false} SameBehind(before: seq<Event>, a: seq<Event>, b: seq<Event>)
    requires Canonical(a) == Canonical(b)
    ensures Canonical(before + a) == Canonical(before + b)
  {
    hide Canonical;
    if before == [] {
      assert before + a == a && before + b == b;
    } else {
      SameBehind(before[1..], a, b);
      SameAhead(before[0], before[1..] + a, before[1..] + b);
      assert before + a == [before[0]] + (before[1..] + a);
      assert before + b == [before[0]] + (before[1..] + b);
    }
  }

  /** Splitting one chunk in two anywhere, or slipping in an empty chunk, is invisible. */
  lemma ChunkBoundariesInvisible(before: seq<Event>, a: bytes, b: bytes, after: seq<Event>)
    ensures Canonical(before + [Chunk(a), Chunk(b)] + after) == Canonical(before + [Chunk(a + b)] + after)
    ensures Canonical(before + [Chunk([])] + after) == Canonical(before + after)
  {
    hide Canonical;
    ChunkSplits(a, b, after);
    EmptyChunk(after);
    SameBehind(before, [Chunk(a)] + ([Chunk(b)] + after), [Chunk(a + b)] + after);
    SameBehind(before, [Chunk([])] + after, after);
    assert before + [Chunk(a), Chunk(b)] + after == before + ([Chunk(a)] + ([Chunk(b)] + after));
    assert before + [Chunk(a + b)] + after == before + ([Chunk(a + b)] + after);
    assert before + [Chunk([])] + after == before + ([Chunk([])] + after);
  }

  /** Chunks alone deliver their concatenation and nothing else. */
  lemma {:induction false} ChunksDeliverConcat(chunks: seq<bytes>, events: seq<Event>)
    requires |events| == |chunks| && forall i :: 0 <= i < |chunks| ==> events[i] == Chunk(chunks[i])
    ensures Canonical(events) == Line(Concat(chunks), [])
  {
    if chunks != [] { ChunksDeliverConcat(chunks[1..], events[1..]); }
  }

  // ------------------------------------------------------------------ conservation

  /** One read, any outcome: bytes returned, then bytes still to come, are the bytes there were,
      except that a fault in a counted or delimited read drops exactly what was buffered. */
  predicate Conserves(line: Line, reply: Reply, next: Line) {
    && (reply.Lost? ==> Flat(line) == line.ready + Flat(next))
    && (reply.Got? ==> Flat(line) == reply.data + Flat(next))
    && (!reply.Lost? && !reply.Got? ==> Flat(line) == Flat(next))
  }

  lemma GapConserves(ready: bytes, later: seq<Gap>)
    requires later != []
    ensures Flat(Line(ready, later)) == ready + Flat(Line(later[0].data, later[1..]))
    ensures Flat(Line(ready, later)) == Flat(Line(ready + later[0].data, later[1..]))
  {
    assert ready + (later[0].data + FlatGaps(later[1..])) == (ready + later[0].data) + FlatGaps(later[1..]);
  }

  lemma TakeConserves(line: Line, n: nat)
    requires n <= |line.ready|
    ensures Flat(line) == line.ready[..n] + Flat(Line(line.ready[n..], line.later))
  {
    assert line.ready == line.ready[..n] + line.ready[n..];
  }

  lemma StepConserves(line: Line, op: Op)
    ensures Conserves(line, Step(line, op).0, Step(line, op).1)
  {
    hide Flat;
    if line.later != [] { GapConserves(line.ready, line.later); }
    match op
    case Exact(n) => if 0 <= n <= |line.ready| { TakeConserves(line, n); } else if n < 0 { TakeConserves(line, 0); }
    case Until(sep) =>
      if Find(line.ready, sep).Some? {
        assert OccursAt(line.ready, sep, Find(line.ready, sep).value);
        TakeConserves(line, Find(line.ready, sep).value + |sep|);
      }
    case Available(cap) =>
      assert line.ready[..|line.ready|] == line.ready && line.ready[|line.ready|..] == [];
      TakeConserves(line, if cap.Some? && 0 < cap.value <= |line.ready| then cap.value else |line.ready|);
  }

  predicate FaultFree(line: Line) {
    forall i :: 0 <= i < |line.later| ==> line.later[i].stop.Deadline?
  }

  lemma StepStaysFaultFree(line: Line, op: Op)
    requires FaultFree(line)
    ensures FaultFree(Step(line, op).1) && !Step(line, op).0.Lost?
  {
  }

  lemma PayloadCons(reply: Reply, replies: seq<Reply>)
    ensures Payload([reply] + replies) == (if reply.Got? then reply.data else []) + Payload(replies)
  {
  }

  lemma NoPayload(line: Line)
    ensures Payload([]) + Flat(line) == Flat(line)
  {
  }

  /** No byte is lost, duplicated or reordered by any run of reads, timeouts included. */
  lemma {:induction false} RunConserves(line: Line, ops: seq<Op>)
    requires FaultFree(line)
    ensures var (replies, last) := Run(line, ops);
      Payload(replies) + Flat(last) == Flat(line) && FaultFree(last)
    decreases |ops|
  {
    hide Step, Flat, FaultFree, Payload;
    if ops == [] {
      NoPayload(line);
    } else {
      var (reply, next) := Step(line, ops[0]);
      StepConserves(line, ops[0]);
      StepStaysFaultFree(line, ops[0]);
      RunConserves(next, ops[1..]);
      PayloadCons(reply, Run(next, ops[1..]).0);
    }
  }

  /** A delimited read ends at the first separator of everything that is still to come. */
  lemma UntilStopsAtFirst(line: Line, sep: bytes)
    requires Step(line, Until(sep)).0.Got?
    ensures var data := Step(line, Until(sep)).0.data;
      && |sep| <= |data| && data[|data| - |sep|..] == sep
      && Find(Flat(line), sep) == Some(|data| - |sep|)
      && data == Flat(line)[..|data|]
  {
    FindStable(line.ready, FlatGaps(line.later), sep);
    var i := Find(line.ready, sep).value;
    assert line.ready[..i + |sep|][i..] == line.ready[i..i + |sep|];
    assert Flat(line)[..i + |sep|] == line.ready[..i + |sep|];
  }
}
