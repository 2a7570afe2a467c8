/** `SerialTransport`: exact-count, delimited and idle-bounded reads over chunked kernel reads. */
module Serial {
  import opened Bytes
  import opened Line
  import opened Settings

  /** `partial`: how many bytes of the request had gone out when a write failed. */
  datatype WriteOutcome = Sent | WriteTimedOut(partial: nat) | WriteLost(fault: Fault, partial: nat) | WriteNotOpen

  /** The bytes of `data` that reach the wire. */
  function Transmitted(data: bytes, w: WriteOutcome): bytes {
    match w
    case Sent => data
    case WriteTimedOut(partial) => data[..Min(partial, |data|)]
    case WriteLost(_, partial) => data[..Min(partial, |data|)]
    case WriteNotOpen => []
  }

  datatype OpenOutcome =
    | Opens(events: seq<Event>, writes: seq<WriteOutcome>)
    | Refuses(fault: Fault)

  datatype OpenResult = Opened | AlreadyOpen | Refused(fault: Fault)

  /** What is left of a script of events after some of them happened. */
  predicate Suffix(now: seq<Event>, was: seq<Event>) {
    |now| <= |was| && now == was[|was| - |now|..]
  }

  lemma SuffixTransitive(a: seq<Event>, b: seq<Event>, c: seq<Event>)
    requires Suffix(a, b) && Suffix(b, c)
    ensures Suffix(a, c)
  {
  }

  /** Reading left `line` of the script `was`; then the first `arrived` of the remaining events were
      dropped, together with what the reader held. */
  ghost predicate Drained(was: seq<Event>, line: Line, arrived: nat, now: seq<Event>) {
    exists held: bytes, k: nat ::
      k <= |was| && View(held, was[k..]) == line && now == was[k..][Min(arrived, |was| - k)..]
  }

  lemma DrainedFrom(was: seq<Event>, held: bytes, left: seq<Event>, arrived: nat)
    requires Suffix(left, was)
    ensures Drained(was, View(held, left), arrived, left[Min(arrived, |left|)..])
  {
    var k := |was| - |left|;
    assert was[k..] == left;
  }

  /** One open operating-system port. `events` and `writes` script what it will do; `sent` are the
      requests written completely, `wire` every byte that went out. */
  class Port {
    var events: seq<Event>
    var writes: seq<WriteOutcome>
    var sent: seq<bytes>
    var wire: bytes

    constructor (events: seq<Event>, writes: seq<WriteOutcome>)
      ensures this.events == events && this.writes == writes && sent == [] && wire == []
    {
      this.events, this.writes, sent, wire := events, writes, [], [];
    }

    method Receive() returns (e: Event)
      modifies this`events
      ensures old(events) == [] ==> e == Silence && events == []
      ensures old(events) != [] ==> e == old(events)[0] && events == old(events)[1..]
    {
      if events == [] {
        e := Silence;
      } else {
        e, events := events[0], events[1..];
      }
    }

    method Send(data: bytes) returns (w: WriteOutcome)
      modifies this`writes, this`sent, this`wire
      ensures old(writes) == [] ==> w == Sent && writes == []
      ensures old(writes) != [] ==> w == old(writes)[0] && writes == old(writes)[1..]
      ensures sent == old(sent) + (if w.Sent? then [data] else [])
      ensures wire == old(wire) + Transmitted(data, w)
    {
      w := Sent;
      if writes != [] { w, writes := writes[0], writes[1..]; }
      wire := wire + Transmitted(data, w);
      if w.Sent? { sent := sent + [data]; }
    }
  }

  class SerialTransport {
    var settings: SerialSettings
    var port: Port?
    var pushback: bytes
    /** What the operating system answers to the next attempts to open the port. */
    var attempts: seq<OpenOutcome>

    constructor (settings: SerialSettings, attempts: seq<OpenOutcome>)
      ensures this.settings == settings && port == null && pushback == [] && this.attempts == attempts
    {
      this.settings, port, pushback, this.attempts := settings, null, [], attempts;
    }

    /** The line as the next read will see it. */
    ghost function Line(): Line
      reads this, port
      requires port != null
    {
      View(pushback, port.events)
    }

    // ---------------------------------------------------------------- lifecycle

    method Open() returns (r: OpenResult)
      modifies this`port, this`attempts
      ensures old(port) != null ==> r == AlreadyOpen && port == old(port) && attempts == old(attempts)
      ensures old(port) == null ==> attempts == (if old(attempts) == [] then [] else old(attempts)[1..])
      ensures old(port) == null ==> (r.Opened? <==> old(attempts) != [] && old(attempts)[0].Opens?)
      ensures old(port) == null ==> (r.Opened? <==> port != null) && r != AlreadyOpen
      ensures old(port) == null && r.Opened? ==>
        fresh(port) && port.events == old(attempts)[0].events && port.writes == old(attempts)[0].writes && port.sent == []
    {
      if port != null { return AlreadyOpen; }
      if attempts == [] { return Refused(Gone); }
      var first := attempts[0];
      attempts := attempts[1..];
      match first
      case Refuses(fault) =>
        r := Refused(fault);
      case Opens(events, writes) =>
        port := new Port(events, writes);
        r := Opened;
    }

    method Close()
      modifies this`port, this`pushback
      ensures port == null
      ensures old(port) != null ==> pushback == []
      ensures old(port) == null ==> pushback == old(pushback)
    {
      if port == null { return; }
      port := null;
      pushback := [];
    }

    /** Either fully reopened at the overlaid framing or clearly closed; the new framing is
        remembered in both cases. */
    method Reopen(framing: Framing) returns (r: OpenResult)
      modifies this
      ensures settings == Overlay(old(settings), framing)
      ensures r.Opened? <==> old(attempts) != [] && old(attempts)[0].Opens?
      ensures r.Opened? <==> port != null
      ensures r != AlreadyOpen
      ensures r.Opened? ==> fresh(port) && port.events == old(attempts)[0].events && port.writes == old(attempts)[0].writes
      ensures pushback == if old(port) != null then [] else old(pushback)
      ensures attempts == (if old(attempts) == [] then [] else old(attempts)[1..])
    {
      Close();
      settings := Overlay(settings, framing);
      r := Open();
    }

    // ---------------------------------------------------------------- I/O

    method Write(data: bytes) returns (w: WriteOutcome)
      modifies if port == null then {} else {port}
      ensures port == null ==> w == WriteNotOpen
      ensures port != null ==> port.events == old(port.events)
      ensures port != null ==> (w.Sent? ==> port.sent == old(port.sent) + [data]) && (!w.Sent? ==> port.sent == old(port.sent))
      ensures port != null ==> port.wire == old(port.wire) + Transmitted(data, w)
      ensures port != null && old(port.writes) == [] ==> w == Sent
      ensures port != null && old(port.writes) != [] ==> w == old(port.writes)[0]
    {
      if port == null { return WriteNotOpen; }
      w := port.Send(data);
    }

    method ReadExact(n: int) returns (r: Reply)
      modifies this`pushback, port
      ensures port == null ==> r == NotOpen && pushback == old(pushback)
      ensures port != null ==> (r, Line()) == ReadExactOn(old(Line()), n)
      ensures port != null ==> Suffix(port.events, old(port.events))
      ensures port != null ==> port.sent == old(port.sent) && port.writes == old(port.writes)
    {
      if port == null { return NotOpen; }
      if n <= 0 { return Got([]); }
      var buf := pushback;
      pushback := [];
      while |buf| < n
        invariant pushback == []
        invariant View(buf, port.events) == old(Line()) && Suffix(port.events, old(port.events))
        invariant port.sent == old(port.sent) && port.writes == old(port.writes)
        decreases |port.events|
      {
        ghost var before := port.events;
        var e := port.Receive();
        if !e.Chunk? { ViewInterrupted(buf, before, if buf == [] then Transient else TimedOut); }
        match e
        case Chunk(data) =>
          assert buf + (data + Canonical(port.events).ready) == (buf + data) + Canonical(port.events).ready;
          buf := buf + data;
        case Silence =>
          pushback := buf;
          return if |buf| == 0 then Transient else TimedOut;
        case Broken(fault) =>
          return Lost(fault);
      }
      ViewAdvance(buf, port.events, n);
      pushback := buf[n..];
      r := Got(buf[..n]);
    }

    method ReadUntil(sep: bytes) returns (r: Reply)
      modifies this`pushback, port
      ensures port == null ==> r == NotOpen && pushback == old(pushback)
      ensures port != null ==> (r, Line()) == ReadUntilOn(old(Line()), sep)
      ensures port != null ==> Suffix(port.events, old(port.events))
      ensures port != null ==> port.sent == old(port.sent) && port.writes == old(port.writes)
    {
      if port == null { return NotOpen; }
      var buf := pushback;
      pushback := [];
      var found := Find(buf, sep);
      while found.None?
        invariant pushback == [] && found == Find(buf, sep)
        invariant View(buf, port.events) == old(Line()) && Suffix(port.events, old(port.events))
        invariant port.sent == old(port.sent) && port.writes == old(port.writes)
        decreases |port.events| + (if found.None? then 1 else 0)
      {
        ghost var before := port.events;
        var e := port.Receive();
        if !e.Chunk? { ViewInterrupted(buf, before, TimedOut); }
        match e
        case Chunk(data) =>
          assert buf + (data + Canonical(port.events).ready) == (buf + data) + Canonical(port.events).ready;
          buf := buf + data;
          found := Find(buf, sep);
        case Silence =>
          pushback := buf;
          return TimedOut;
        case Broken(fault) =>
          return Lost(fault);
      }
      var end := found.value + |sep|;
      FindStable(buf, Canonical(port.events).ready, sep);
      assert OccursAt(buf, sep, found.value);
      ViewAdvance(buf, port.events, end);
      pushback := buf[end..];
      r := Got(buf[..end]);
    }

    method ReadAvailable(maxBytes: Option<int>) returns (r: Reply)
      modifies this`pushback, port
      ensures port == null ==> r == NotOpen && pushback == old(pushback)
      ensures port != null ==> (r, Line()) == ReadAvailableOn(old(Line()), maxBytes)
      ensures port != null ==> port.sent == old(port.sent) && port.writes == old(port.writes)
    {
      if port == null { return NotOpen; }
      var buf := pushback;
      pushback := [];
      var cap := if maxBytes.Some? && maxBytes.value > 0 then maxBytes else None;
      var idle := false;
      while !idle && !(cap.Some? && |buf| >= cap.value)
        invariant pushback == []
        invariant !idle ==> View(buf, port.events) == old(Line())
        invariant idle ==> old(Line()).ready == buf
        invariant idle ==> (cap.Some? ==> |buf| < cap.value)
        invariant idle ==> View([], port.events) == ReadAvailableOn(old(Line()), maxBytes).1
        invariant port.sent == old(port.sent) && port.writes == old(port.writes)
        decreases |port.events| + (if idle then 0 else 1)
      {
        ghost var before := port.events;
        var e := port.Receive();
        if !e.Chunk? { ViewInterrupted(buf, before, TimedOut); }
        match e
        case Chunk(data) =>
          assert buf + (data + Canonical(port.events).ready) == (buf + data) + Canonical(port.events).ready;
          buf := buf + data;
        case Silence =>
          idle := true;
        case Broken(fault) =>
          idle := true;
      }
      if cap.Some? && |buf| > cap.value {
        ViewAdvance(buf, port.events, cap.value);
        pushback := buf[cap.value..];
        return Got(buf[..cap.value]);
      }
      if !idle {
        ViewAdvance(buf, port.events, cap.value);
        assert buf[cap.value..] == [] && buf[..cap.value] == buf;
      }
      r := Got(buf);
    }

    /** `arrived` is how many of the scripted events the kernel had already buffered. */
    method DrainInput(arrived: nat)
      modifies this`pushback, port
      ensures pushback == []
      ensures port != null ==> port.events == old(port.events)[Min(arrived, |old(port.events)|)..]
      ensures port != null ==> port.sent == old(port.sent) && port.writes == old(port.writes)
    {
      pushback := [];
      if port == null { return; }
      port.events := port.events[Min(arrived, |port.events|)..];
    }
  }
}
