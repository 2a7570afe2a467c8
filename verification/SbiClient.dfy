/** The SBI line client: pending lines in front of the transport, detection, replies, requeueing. */
module SbiClient {
  import opened Bytes
  import opened Line
  import opened Serial
  import opened SbiText
  import opened SbiClassifier

  // ------------------------------------------------------------------ split_lines

  /** The newline-terminated pieces of `raw`, or None when it does not end in a newline. */
  function Lines(raw: bytes): Option<seq<bytes>>
    decreases |raw|
  {
    if raw == [] then Some([])
    else match Find(raw, [LF])
      case None => None
      case Some(i) =>
        assert OccursAt(raw, [LF], i);
        match Lines(raw[i + 1..])
        case None => None
        case Some(rest) => Some([raw[..i + 1]] + rest)
  }

  function After(out: seq<bytes>, rest: Option<seq<bytes>>): Option<seq<bytes>> {
    match rest case None => None case Some(pieces) => Some(out + pieces)
  }

  method SplitLines(raw: bytes) returns (r: Option<seq<bytes>>)
    ensures r == Lines(raw)
  {
    if raw == [] { return Some([]); }
    var out: seq<bytes> := [];
    var start := 0;
    assert raw[0..] == raw;
    AfterNothing(Lines(raw));
    while start < |raw|
      invariant start <= |raw| && Lines(raw) == After(out, Lines(raw[start..]))
      decreases |raw| - start
    {
      LinesFrom(raw, start);
      var idx := FindFrom(raw, [LF], start);
      if idx.None? { return None; }
      AfterMore(out, raw[start..idx.value + 1], Lines(raw[idx.value + 1..]));
      out := out + [raw[start..idx.value + 1]];
      start := idx.value + 1;
    }
    assert raw[start..] == [];
    assert out + [] == out;
    r := Some(out);
  }

  lemma AfterNothing(rest: Option<seq<bytes>>)
    ensures After([], rest) == rest
  {
    if rest.Some? { assert [] + rest.value == rest.value; }
  }

  lemma AfterMore(out: seq<bytes>, piece: bytes, rest: Option<seq<bytes>>)
    ensures After(out, After([piece], rest)) == After(out + [piece], rest)
  {
    if rest.Some? { assert out + ([piece] + rest.value) == (out + [piece]) + rest.value; }
  }

  lemma LinesFrom(raw: bytes, start: nat)
    requires start < |raw|
    ensures var idx := FindFrom(raw, [LF], start);
      && (idx.Some? ==> idx.value < |raw|)
      && Lines(raw[start..]) == (if idx.None? then None else After([raw[start..idx.value + 1]], Lines(raw[idx.value + 1..])))
  {
    var idx := FindFrom(raw, [LF], start);
    FindFromShift(raw, [LF], start);
    if idx.Some? {
      assert OccursAt(raw, [LF], idx.value);
      assert raw[start..][..idx.value - start + 1] == raw[start..idx.value + 1];
      assert raw[start..][idx.value - start + 1..] == raw[idx.value + 1..];
    }
  }

  lemma {:induction false} FindFromShift(buf: bytes, sep: bytes, start: nat)
    requires start <= |buf|
    ensures Find(buf[start..], sep) == match FindFrom(buf, sep, start) case None => None case Some(i) => Some(i - start)
  {
    hide OccursAt;
    forall j | 0 <= j ensures OccursAt(buf[start..], sep, j) <==> OccursAt(buf, sep, start + j) {
      OccursShift(buf, sep, start, j);
    }
    var a, b := Find(buf[start..], sep), FindFrom(buf, sep, start);
    if a.Some? { assert OccursAt(buf, sep, start + a.value); }
    if b.Some? { assert OccursAt(buf[start..], sep, b.value - start); }
  }

  lemma OccursShift(buf: bytes, sep: bytes, start: nat, j: nat)
    requires start <= |buf|
    ensures OccursAt(buf[start..], sep, j) <==> OccursAt(buf, sep, start + j)
  {
  }

  ghost predicate IsOneLine(piece: bytes) {
    piece != [] && forall j :: 0 <= j < |piece| ==> (piece[j] == LF <==> j == |piece| - 1)
  }

  lemma FirstNewline(raw: bytes)
    ensures Find(raw, [LF]).None? <==> LF !in raw
    ensures Find(raw, [LF]).Some? ==> IsOneLine(raw[..Find(raw, [LF]).value + 1]) && Find(raw, [LF]).value < |raw|
  {
    assert forall j :: 0 <= j < |raw| && raw[j] == LF ==> raw[j..j + 1] == [LF] && OccursAt(raw, [LF], j);
    match Find(raw, [LF])
    case None =>
    case Some(i) =>
      assert OccursAt(raw, [LF], i) && raw[i..i + 1][0] == raw[i];
  }

  ghost predicate ArePieces(raw: bytes, pieces: seq<bytes>) {
    Concat(pieces) == raw && forall i :: 0 <= i < |pieces| ==> IsOneLine(pieces[i])
  }

  lemma PieceAhead(first: bytes, raw: bytes, pieces: seq<bytes>)
    requires IsOneLine(first) && ArePieces(raw, pieces)
    ensures ArePieces(first + raw, [first] + pieces)
  {
    hide IsOneLine;
    assert ([first] + pieces)[1..] == pieces;
  }

  lemma NoPieces()
    ensures ArePieces([], [])
  {
  }

  /** The pieces concatenate to the payload, hold one newline each, at their end, and exist exactly
      when the payload is empty or ends in a newline. */
  lemma {:induction false} LinesPartition(raw: bytes)
    ensures Lines(raw).Some? <==> raw == [] || raw[|raw| - 1] == LF
    ensures Lines(raw).Some? ==>
      Concat(Lines(raw).value) == raw && forall i :: 0 <= i < |Lines(raw).value| ==> IsOneLine(Lines(raw).value[i])
    decreases |raw|
  {
    hide IsOneLine, Find, Concat;
    if raw == [] {
      NoPieces();
    } else {
      FirstNewline(raw);
      LinesFrom(raw, 0);
      assert raw[0..] == raw;
      var found := Find(raw, [LF]);
      if found.Some? {
        var tail := raw[found.value + 1..];
        LinesPartition(tail);
        assert raw == raw[..found.value + 1] + tail;
        if tail != [] { assert tail[|tail| - 1] == raw[|raw| - 1]; } else { NewlineEnds(raw, found.value); }
        if Lines(tail).Some? { PieceAhead(raw[..found.value + 1], tail, Lines(tail).value); }
      }
    }
  }

  lemma NewlineEnds(raw: bytes, i: nat)
    requires i < |raw| && IsOneLine(raw[..i + 1])
    ensures raw[i] == LF
  {
    assert raw[..i + 1][i] == raw[i];
  }

  // ------------------------------------------------------------------ parsing a reply

  datatype Reading =
    | Lined(raw: bytes, kinds: seq<Kind>)  // a parsed reply
    | RefusedLine(raw: bytes)             // SartoriusCommandRejectedError
    | Malformed                           // frame or parse error; the input was drained
    | Failed(reply: Reply)                // the transport raised
    | NotSent(outcome: WriteOutcome)
    | Retired                             // the client was disposed

  function Kinds(pieces: seq<bytes>): Option<seq<Kind>> {
    if pieces == [] then Some([])
    else match (ParseKind(pieces[0]), Kinds(pieces[1..]))
      case (Some(k), Some(ks)) => Some([k] + ks)
      case _ => None
  }

  /** `parse_reply` and the refusal scan of `_parse_or_drain`. */
  function Parse(raw: bytes): Reading {
    match Lines(raw)
    case None => Malformed
    case Some(pieces) =>
      match Kinds(pieces)
      case None => Malformed
      case Some(kinds) => if Refusal in kinds then RefusedLine(raw) else Lined(raw, kinds)
  }

  /** How sniffing ends; what it saw is in the client's flag. */
  datatype Sniffed = Looked | SniffFailed(reply: Reply) | SniffRetired | BadMaxLines

  /** Everything the client will still hand out: lines already read, then the transport. */
  datatype State = State(pending: seq<bytes>, line: Line)

  function ReadLineOn(s: State): (Reading, State) {
    if s.pending != [] then (Parse(s.pending[0]), s.(pending := s.pending[1..]))
    else
      var (reply, next) := ReadUntilOn(s.line, LINE_TERMINATOR);
      if !reply.Got? then (Failed(reply), s.(line := next)) else (Parse(reply.data), s.(line := next))
  }

  /** Sniffing: `looks` bounds how many times the loop still finds time left. A timeout ends it
      quietly, a fault is raised. */
  function DetectOn(s: State, maxLines: nat, looks: nat): (Option<Reply>, bool, State)
    decreases looks
  {
    if |s.pending| >= maxLines || looks == 0 then (None, false, s)
    else
      var (reply, next) := ReadUntilOn(s.line, LINE_TERMINATOR);
      if reply.TimedOut? then (None, false, s.(line := next))
      else if !reply.Got? then (Some(reply), false, s.(line := next))
      else
        var s' := State(s.pending + [reply.data], next);
        if IsAutoprintLine(reply.data) then (None, true, s') else DetectOn(s', maxLines, looks - 1)
  }

  /** The reply lines of a command: they are read past the pending ones. */
  function ReadLinesOn(line: Line, n: nat): (Option<Reply>, bytes, Line)
    decreases n
  {
    if n == 0 then (None, [], line)
    else
      var (reply, next) := ReadUntilOn(line, LINE_TERMINATOR);
      if !reply.Got? then (Some(reply), [], next)
      else
        var (failure, more, last) := ReadLinesOn(next, n - 1);
        (failure, reply.data + more, last)
  }

  class SbiProtocolClient {
    const transport: SerialTransport
    var pendingLines: seq<bytes>
    var autoprintActive: bool
    var disposed: bool

    constructor (transport: SerialTransport)
      ensures this.transport == transport && pendingLines == [] && !autoprintActive && !disposed
    {
      this.transport := transport;
      pendingLines, autoprintActive, disposed := [], false, false;
    }

    ghost function Now(): State
      reads this, transport, transport.port
      requires transport.port != null
    {
      State(pendingLines, transport.Line())
    }

    method Dispose()
      modifies this`disposed
      ensures disposed
    {
      disposed := true;
    }

    method ParseOrDrain(raw: bytes, arrived: nat) returns (r: Reading)
      modifies transport`pushback, transport.port
      ensures r == Parse(raw) && (r.Lined? || r.RefusedLine? || r.Malformed?)
      ensures !r.Malformed? ==> transport.pushback == old(transport.pushback)
      ensures !r.Malformed? && transport.port != null ==> transport.port.events == old(transport.port.events)
      ensures r.Malformed? ==> transport.pushback == []
      ensures r.Malformed? && transport.port != null ==>
        transport.port.events == old(transport.port.events)[Min(arrived, |old(transport.port.events)|)..]
      ensures transport.port != null ==> transport.port.sent == old(transport.port.sent)
    {
      r := Parse(raw);
      if r.Malformed? { transport.DrainInput(arrived); }
    }

    method ReadLine(arrived: nat) returns (r: Reading)
      modifies this`pendingLines, transport`pushback, transport.port
      ensures disposed ==> r == Retired && pendingLines == old(pendingLines) && transport.pushback == old(transport.pushback)
      ensures !disposed && transport.port != null ==>
        r == ReadLineOn(old(Now())).0 && pendingLines == ReadLineOn(old(Now())).1.pending
      ensures disposed && transport.port != null ==> transport.port.events == old(transport.port.events)
      ensures !disposed && transport.port != null && !r.Malformed? ==> Now() == ReadLineOn(old(Now())).1
      ensures r.Malformed? && transport.port != null ==>
        && transport.pushback == []
        && Drained(old(transport.port.events), ReadLineOn(old(Now())).1.line, arrived, transport.port.events)
      ensures transport.port != null ==> transport.port.sent == old(transport.port.sent)
    {
      if disposed { return Retired; }
      var raw: bytes;
      if pendingLines != [] {
        raw, pendingLines := pendingLines[0], pendingLines[1..];
      } else {
        var reply := transport.ReadUntil(LINE_TERMINATOR);
        if !reply.Got? { return Failed(reply); }
        raw := reply.data;
      }
      if transport.port != null { DrainedFrom(old(transport.port.events), transport.pushback, transport.port.events, arrived); }
      r := ParseOrDrain(raw, arrived);
    }

    /** `detect_autoprint`, and with `refresh` `refresh_autoprint_state`, which first forgets what was
        pending. */
    method Sniff(maxLines: int, looks: nat, refresh: bool) returns (r: Sniffed)
      modifies this`pendingLines, this`autoprintActive, transport`pushback, transport.port
      ensures r == BadMaxLines <==> maxLines <= 0
      ensures r == SniffRetired <==> maxLines > 0 && disposed
      ensures maxLines <= 0 || disposed ==>
        && pendingLines == old(pendingLines) && autoprintActive == old(autoprintActive) && transport.pushback == old(transport.pushback)
        && (transport.port != null ==> transport.port.events == old(transport.port.events))
      ensures maxLines > 0 && !disposed && transport.port == null ==>
        && pendingLines == (if refresh then [] else old(pendingLines)) && autoprintActive == (!refresh && old(autoprintActive))
        && r == if |pendingLines| < maxLines && looks > 0 then SniffFailed(NotOpen) else Looked
      ensures maxLines > 0 && !disposed && transport.port != null ==>
        var start := if refresh then old(Now()).(pending := []) else old(Now());
        var (failure, seen, s) := DetectOn(start, maxLines, looks);
        && r == (if failure.Some? then SniffFailed(failure.value) else Looked)
        && Now() == s && autoprintActive == ((!refresh && old(autoprintActive)) || seen)
      ensures transport.port != null ==> transport.port.sent == old(transport.port.sent) && transport.port.writes == old(transport.port.writes)
    {
      hide DetectOn;
      if maxLines <= 0 { return BadMaxLines; }
      if disposed { return SniffRetired; }
      if refresh { pendingLines, autoprintActive := [], false; }
      if transport.port == null {
        return if |pendingLines| < maxLines && looks > 0 then SniffFailed(NotOpen) else Looked;
      }
      var failure := SniffLoop(maxLines, looks);
      r := if failure.Some? then SniffFailed(failure.value) else Looked;
    }

    method SniffLoop(maxLines: nat, looks: nat) returns (failure: Option<Reply>)
      requires transport.port != null
      modifies this`pendingLines, this`autoprintActive, transport`pushback, transport.port
      ensures failure == DetectOn(old(Now()), maxLines, looks).0
      ensures Now() == DetectOn(old(Now()), maxLines, looks).2
      ensures autoprintActive == (old(autoprintActive) || DetectOn(old(Now()), maxLines, looks).1)
      ensures transport.port.sent == old(transport.port.sent) && transport.port.writes == old(transport.port.writes)
    {
      hide IsAutoprintLine, ReadUntilOn, Suffix;
      var left := looks;
      while |pendingLines| < maxLines && left > 0
        invariant autoprintActive == old(autoprintActive)
        invariant DetectOn(old(Now()), maxLines, looks) == DetectOn(Now(), maxLines, left)
        invariant transport.port == old(transport.port) && transport.port.sent == old(transport.port.sent)
        invariant transport.port.writes == old(transport.port.writes)
        decreases left
      {
        var raw := transport.ReadUntil(LINE_TERMINATOR);
        if raw.TimedOut? { return None; }
        if !raw.Got? { return Some(raw); }
        pendingLines := pendingLines + [raw.data];
        left := left - 1;
        if IsAutoprintLine(raw.data) {
          autoprintActive := true;
          return None;
        }
      }
      failure := None;
    }

    /** Writes, then reads `expectLines` lines straight from the transport. */
    method ExecuteLocked(request: bytes, expectLines: nat, arrived: nat) returns (r: Reading)
      modifies transport`pushback, transport.port
      ensures disposed ==> r == Retired && transport.pushback == old(transport.pushback)
      ensures disposed && transport.port != null ==>
        transport.port.sent == old(transport.port.sent) && transport.port.events == old(transport.port.events)
      ensures !disposed && transport.port != null ==>
        (r.NotSent? <==> old(transport.port.writes) != [] && old(transport.port.writes)[0] != Sent)
      ensures !disposed && transport.port != null && !r.NotSent? ==> transport.port.sent == old(transport.port.sent) + [request]
      ensures !disposed && transport.port != null && !r.NotSent? && expectLines == 0 ==>
        r == Lined([], []) && transport.Line() == old(transport.Line())
      ensures !disposed && transport.port != null && !r.NotSent? && expectLines > 0 ==>
        var (failure, raw, next) := ReadLinesOn(old(transport.Line()), expectLines);
        && (failure.Some? ==> r == Failed(failure.value) && transport.Line() == next)
        && (failure.None? ==> r == Parse(raw) && (!r.Malformed? ==> transport.Line() == next))
        && (r.Malformed? ==> transport.pushback == [] && Drained(old(transport.port.events), next, arrived, transport.port.events))
    {
      hide ReadUntilOn, Parse;
      if disposed { return Retired; }
      var w := transport.Write(request);
      if !w.Sent? { return NotSent(w); }
      if expectLines == 0 { return Lined([], []); }
      ghost var start := transport.Line();
      var raw: bytes := [];
      var left := expectLines;
      assert raw + ReadLinesOn(start, left).1 == ReadLinesOn(start, left).1;
      while left > 0
        invariant transport.port == old(transport.port) && transport.port.sent == old(transport.port.sent) + [request]
        invariant Suffix(transport.port.events, old(transport.port.events))
        invariant var rest := ReadLinesOn(transport.Line(), left);
          ReadLinesOn(start, expectLines) == (rest.0, raw + rest.1, rest.2)
        decreases left
      {
        ghost var before := ReadLinesOn(transport.Line(), left);
        var chunk := transport.ReadUntil(LINE_TERMINATOR);
        if !chunk.Got? { return Failed(chunk); }
        ghost var after := ReadLinesOn(transport.Line(), left - 1);
        assert before.1 == chunk.data + after.1;
        assert raw + (chunk.data + after.1) == (raw + chunk.data) + after.1;
        raw := raw + chunk.data;
        left := left - 1;
      }
      assert raw + [] == raw;
      DrainedFrom(old(transport.port.events), transport.pushback, transport.port.events, arrived);
      r := ParseOrDrain(raw, arrived);
    }

    method MarkAutoprintActive(pending: bytes)
      modifies this`pendingLines, this`autoprintActive
      ensures autoprintActive
      ensures pendingLines == Requeued(pending) + old(pendingLines)
    {
      autoprintActive := true;
      if pending == [] { return; }
      assert Lines(pending).Some? <==> pending[|pending| - 1] == LF by { LinesPartition(pending); }
      hide Lines;
      if pending[|pending| - 1] != LF {
        pendingLines := [pending] + pendingLines;
        return;
      }
      var split := SplitLines(pending);
      PushFront(split.value);
    }

    method PushFront(pieces: seq<bytes>)
      modifies this`pendingLines
      ensures pendingLines == pieces + old(pendingLines)
    {
      var i := |pieces|;
      while i > 0
        invariant 0 <= i <= |pieces| && pendingLines == pieces[i..] + old(pendingLines)
      {
        i := i - 1;
        assert [pieces[i]] + (pieces[i + 1..] + old(pendingLines)) == pieces[i..] + old(pendingLines);
        pendingLines := [pieces[i]] + pendingLines;
      }
    }
  }

  /** The lines put back in front of the pending ones. */
  function Requeued(raw: bytes): seq<bytes> {
    if raw == [] then []
    else match Lines(raw) case None => [raw] case Some(pieces) => pieces
  }

  // ------------------------------------------------------------------ conservation

  /** The CRLF-terminated lines of a byte stream, in order. */
  function Crlf(stream: bytes): seq<bytes>
    decreases |stream|
  {
    match Find(stream, LINE_TERMINATOR)
    case None => []
    case Some(i) =>
      assert OccursAt(stream, LINE_TERMINATOR, i);
      [stream[..i + 2]] + Crlf(stream[i + 2..])
  }

  datatype Op = Detect(maxLines: nat, looks: nat) | Next

  function StepOn(s: State, op: Op): (seq<Reading>, State) {
    match op
    case Detect(maxLines, looks) => ([], DetectOn(s, maxLines, looks).2)
    case Next => ([ReadLineOn(s).0], ReadLineOn(s).1)
  }

  function RunOn(s: State, ops: seq<Op>): (seq<Reading>, State)
    decreases |ops|
  {
    if ops == [] then ([], s)
    else
      var (out, next) := StepOn(s, ops[0]);
      var (more, last) := RunOn(next, ops[1..]);
      (out + more, last)
  }

  /** The lines a caller was given, as a reply or inside a refusal. */
  function Given(readings: seq<Reading>): seq<bytes> {
    if readings == [] then []
    else (match readings[0] case Lined(raw, _) => [raw] case RefusedLine(raw) => [raw] case _ => []) + Given(readings[1..])
  }

  predicate Clean(s: State) {
    && FaultFree(s.line)
    && IsAscii(Flat(s.line))
    && forall i :: 0 <= i < |s.pending| ==> IsAscii(s.pending[i]) && Lines(s.pending[i]).Some?
  }

  /** The lines still to be handed out, in order. */
  function Owed(s: State): seq<bytes> { s.pending + Crlf(Flat(s.line)) }

  lemma {:induction false} AsciiLinesParse(raw: bytes)
    requires IsAscii(raw) && Lines(raw).Some?
    ensures Parse(raw).Lined? || Parse(raw).RefusedLine?
    ensures Given([Parse(raw)]) == [raw]
  {
    hide ParseKind;
    LinesPartition(raw);
    AsciiPieces(Lines(raw).value);
  }

  lemma AsciiPieceParses(piece: bytes)
    requires IsAscii(piece)
    ensures ParseKind(piece).Some?
  {
  }

  lemma {:induction false} AsciiPieces(pieces: seq<bytes>)
    requires IsAscii(Concat(pieces))
    ensures Kinds(pieces).Some?
  {
    hide ParseKind, IsAscii;
    if pieces != [] {
      AsciiParts(pieces[0], Concat(pieces[1..]));
      AsciiPieceParses(pieces[0]);
      AsciiPieces(pieces[1..]);
    }
  }

  /** A delimited read takes the first CRLF line off the stream, or nothing. */
  lemma UntilTakesFirstLine(line: Line)
    requires FaultFree(line) && IsAscii(Flat(line))
    ensures var (reply, next) := ReadUntilOn(line, LINE_TERMINATOR);
      && FaultFree(next) && IsAscii(Flat(next)) && (reply.Got? || reply == TimedOut)
      && (reply.Got? ==> Crlf(Flat(line)) == [reply.data] + Crlf(Flat(next)) && IsAscii(reply.data) && Lines(reply.data).Some?)
      && (!reply.Got? ==> Flat(next) == Flat(line))
  {
    hide Flat, Lines;
    var (reply, next) := ReadUntilOn(line, LINE_TERMINATOR);
    StepConserves(line, Until(LINE_TERMINATOR));
    StepStaysFaultFree(line, Until(LINE_TERMINATOR));
    if reply.Got? {
      UntilStopsAtFirst(line, LINE_TERMINATOR);
      var flat := Flat(line);
      assert flat[|reply.data|..] == Flat(next) && flat[..|reply.data|] == reply.data;
      AsciiParts(reply.data, Flat(next));
      assert reply.data[|reply.data| - 2..][1] == LF;
      LinesPartition(reply.data);
    }
  }

  lemma AsciiParts(a: bytes, b: bytes)
    ensures IsAscii(a + b) <==> IsAscii(a) && IsAscii(b)
  {
    assert forall i :: 0 <= i < |a| ==> (a + b)[i] == a[i];
    assert forall i :: 0 <= i < |b| ==> (a + b)[|a| + i] == b[i];
  }

  lemma {:induction false} DetectConserves(s: State, maxLines: nat, looks: nat)
    requires Clean(s)
    ensures var (failure, seen, s') := DetectOn(s, maxLines, looks);
      failure.None? && Clean(s') && Owed(s') == Owed(s)
    decreases looks
  {
    hide Flat, Lines, IsAutoprintLine, ReadUntilOn, Crlf;
    if |s.pending| < maxLines && looks > 0 {
      UntilTakesFirstLine(s.line);
      var (reply, next) := ReadUntilOn(s.line, LINE_TERMINATOR);
      if reply.Got? {
        var s' := State(s.pending + [reply.data], next);
        assert s.pending + ([reply.data] + Crlf(Flat(next))) == (s.pending + [reply.data]) + Crlf(Flat(next));
        DetectConserves(s', maxLines, looks - 1);
      }
    }
  }

  lemma StepConservesLines(s: State, op: Op)
    requires Clean(s)
    ensures var (out, s') := StepOn(s, op); Clean(s') && Given(out) + Owed(s') == Owed(s)
  {
    hide Flat, Lines, IsAutoprintLine, ReadUntilOn, Crlf, Parse, DetectOn;
    match op
    case Detect(maxLines, looks) =>
      DetectConserves(s, maxLines, looks);
      assert [] + Owed(s) == Owed(s);
    case Next =>
      if s.pending != [] {
        AsciiLinesParse(s.pending[0]);
        assert s.pending == [s.pending[0]] + s.pending[1..];
      } else {
        UntilTakesFirstLine(s.line);
        var reply := ReadUntilOn(s.line, LINE_TERMINATOR).0;
        if reply.Got? { AsciiLinesParse(reply.data); }
      }
  }

  lemma {:induction false} GivenAppend(a: seq<Reading>, b: seq<Reading>)
    ensures Given(a + b) == Given(a) + Given(b)
  {
    if a == [] {
      assert a + b == b;
    } else {
      assert (a + b)[1..] == a[1..] + b && (a + b)[0] == a[0];
      GivenAppend(a[1..], b);
    }
  }

  lemma EmptyGiven(s: State)
    ensures Given([]) + Owed(s) == Owed(s)
  {
  }

  /** Over any run of sniffing and reading, timeouts included: the lines handed out, then the
      pending ones, then those still unread are the original line sequence. */
  lemma {:induction false} RunConservesLines(s: State, ops: seq<Op>)
    requires Clean(s)
    ensures var (out, s') := RunOn(s, ops); Clean(s') && Given(out) + Owed(s') == Owed(s)
    decreases |ops|
  {
    hide StepOn, Owed, Clean, Given;
    if ops == [] {
      EmptyGiven(s);
    } else {
      var (out, next) := StepOn(s, ops[0]);
      StepConservesLines(s, ops[0]);
      RunConservesLines(next, ops[1..]);
      var (more, last) := RunOn(next, ops[1..]);
      GivenAppend(out, more);
      assert (Given(out) + Given(more)) + Owed(last) == Given(out) + (Given(more) + Owed(last));
    }
  }

  /** A command reply is read past the pending lines. It is complete exactly when its `n` lines are
      buffered before the line falls silent. Otherwise the lines that were buffered have been taken
      and are dropped, so that bytes are lost exactly when there was one, and never for replies of
      at most one line. */
  lemma {:induction false} ReplyLossOnTimeout(line: Line, n: nat)
    requires FaultFree(line)
    ensures var (failure, raw, next) := ReadLinesOn(line, n);
      var buffered := Crlf(line.ready);
      && (failure.None? <==> n <= |buffered|)
      && Flat(line) == raw + Flat(next)
      && (failure.None? ==> raw == Concat(buffered[..n]))
      && (failure.Some? ==> raw == Concat(buffered))
      && (failure.Some? ==> (Flat(next) == Flat(line) <==> Find(line.ready, LINE_TERMINATOR).None?))
      && (failure.Some? && n <= 1 ==> Flat(next) == Flat(line))
    decreases n
  {
    hide Flat, Find, Crlf, Concat, ReadUntilOn, FaultFree;
    var buffered := Crlf(line.ready);
    ConcatCons([], []);
    if n > 0 {
      var (reply, next) := ReadUntilOn(line, LINE_TERMINATOR);
      FirstBufferedLine(line);
      StepConserves(line, Until(LINE_TERMINATOR));
      StepStaysFaultFree(line, Until(LINE_TERMINATOR));
      if reply.Got? {
        ReplyLossOnTimeout(next, n - 1);
        var (failure, more, last) := ReadLinesOn(next, n - 1);
        assert reply.data + (more + Flat(last)) == (reply.data + more) + Flat(last);
        ConcatCons(reply.data, Crlf(next.ready));
        if n <= |buffered| {
          assert buffered[..n] == [reply.data] + Crlf(next.ready)[..n - 1];
          ConcatCons(reply.data, Crlf(next.ready)[..n - 1]);
        }
      }
    }
  }

  lemma ConcatCons(first: bytes, rest: seq<bytes>)
    ensures Concat([first] + rest) == first + Concat(rest)
    ensures Concat<byte>([]) == []
  {
    assert ([first] + rest)[1..] == rest;
  }

  lemma FirstBufferedLine(line: Line)
    ensures var (reply, next) := ReadUntilOn(line, LINE_TERMINATOR);
      && (reply.Got? <==> Find(line.ready, LINE_TERMINATOR).Some?)
      && (reply.Got? ==> Crlf(line.ready) == [reply.data] + Crlf(next.ready) && reply.data != [])
      && (!reply.Got? ==> Crlf(line.ready) == [])
  {
  }

  /** A surprise reply is put back whole and in its own order, but in front of lines that arrived
      before it: arrival order survives every such reply exactly when nothing was pending. */
  lemma RequeueOrder(pending: seq<bytes>)
    ensures forall raw :: Concat(Requeued(raw)) == raw
    ensures (forall raw: bytes :: Requeued(raw) + pending == pending + Requeued(raw)) <==> pending == []
  {
    forall raw ensures Concat(Requeued(raw)) == raw {
      LinesPartition(raw);
    }
    if pending == [] {
      forall raw: bytes ensures Requeued(raw) + pending == pending + Requeued(raw) {}
    } else {
      var raw: bytes := if pending[0] == [65] then [66] else [65];
      LinesPartition(raw);
      assert Requeued(raw) == [raw];
      assert (Requeued(raw) + pending)[0] != (pending + Requeued(raw))[0];
    }
  }
}
