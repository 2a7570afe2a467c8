/** What a freshly opened port must deliver for the probe of a reconfiguration to succeed, in terms of
    the scripted events alone. */
module Probes {
  import opened Bytes
  import opened Line
  import opened SbiText
  import opened SbiClassifier
  import opened SbiClient
  import opened XbpiFraming
  import XbpiClient

  /** The bytes buffered before the first interruption. */
  function Leading(events: seq<Event>): bytes {
    if events == [] || !events[0].Chunk? then [] else events[0].data + Leading(events[1..])
  }

  /** From the first interruption on. */
  function AfterLeading(events: seq<Event>): seq<Event> {
    if events == [] || !events[0].Chunk? then events else AfterLeading(events[1..])
  }

  lemma {:induction false} LeadingIsReady(events: seq<Event>)
    ensures Canonical(events).ready == Leading(events)
    ensures var rest := AfterLeading(events);
      if rest == [] then Canonical(events).later == []
      else !rest[0].Chunk? && Canonical(events).later == Canonical(rest).later
  {
    if events != [] && events[0].Chunk? { LeadingIsReady(events[1..]); }
  }

  // ------------------------------------------------------------------ lines of a growing buffer

  /** The bytes after the last complete line. */
  function Leftover(stream: bytes): bytes
    decreases |stream|
  {
    match Find(stream, LINE_TERMINATOR)
    case None => stream
    case Some(i) =>
      assert OccursAt(stream, LINE_TERMINATOR, i);
      Leftover(stream[i + 2..])
  }

  lemma FirstLineOff(s: bytes, i: nat)
    requires Find(s, LINE_TERMINATOR) == Some(i)
    ensures i + 2 <= |s| && Crlf(s) == [s[..i + 2]] + Crlf(s[i + 2..]) && Leftover(s) == Leftover(s[i + 2..])
  {
    TerminatorFits(s, i);
  }

  lemma NoLines(s: bytes)
    requires Find(s, LINE_TERMINATOR).None?
    ensures Crlf(s) == [] && Leftover(s) == s
  {
  }

  lemma {:induction false} CrlfAppend(a: bytes, b: bytes)
    ensures Crlf(a + b) == Crlf(a) + Crlf(Leftover(a) + b)
    decreases |a|
  {
    hide Find, Crlf, Leftover;
    var found := Find(a, LINE_TERMINATOR);
    if found.None? {
      NoLines(a);
      assert [] + Crlf(a + b) == Crlf(a + b);
    } else {
      var i := found.value;
      FindStable(a, b, LINE_TERMINATOR);
      FirstLineOff(a, i);
      FirstLineOff(a + b, i);
      assert (a + b)[..i + 2] == a[..i + 2] && (a + b)[i + 2..] == a[i + 2..] + b;
      CrlfAppend(a[i + 2..], b);
      assert [a[..i + 2]] + (Crlf(a[i + 2..]) + Crlf(Leftover(a) + b)) == ([a[..i + 2]] + Crlf(a[i + 2..])) + Crlf(Leftover(a) + b);
    }
  }

  lemma TerminatorFits(a: bytes, i: nat)
    requires OccursAt(a, LINE_TERMINATOR, i)
    ensures i + 2 <= |a|
  {
  }

  // ------------------------------------------------------------------ sniffing

  /** Among the first `k` buffered lines one looks like autoprint output. */
  predicate AutoprintAmong(lines: seq<bytes>, k: nat) {
    exists m :: 0 <= m < k && m < |lines| && IsAutoprintLine(lines[m])
  }

  /** A read of one line: the first buffered one, or the interruption. */
  lemma LineRead(line: Line)
    ensures var (reply, next) := ReadUntilOn(line, LINE_TERMINATOR);
      var lines := Crlf(line.ready);
      && (reply.Got? <==> lines != [])
      && (reply.Got? ==> reply.data == lines[0] && next.later == line.later)
      && (reply.Got? ==> Crlf(next.ready) == lines[1..] && Leftover(next.ready) == Leftover(line.ready))
      && (!reply.Got? ==> Leftover(line.ready) == line.ready && (reply, next) == Interrupt(line, TimedOut))
  {
    FirstBufferedLine(line);
  }

  lemma AutoprintHere(lines: seq<bytes>, k: nat)
    requires k > 0 && lines != []
    ensures AutoprintAmong(lines, k) <==> IsAutoprintLine(lines[0]) || AutoprintAmong(lines[1..], k - 1)
  {
    hide IsAutoprintLine;
    if AutoprintAmong(lines, k) {
      var m :| 0 <= m < k && m < |lines| && IsAutoprintLine(lines[m]);
      if m > 0 { assert IsAutoprintLine(lines[1..][m - 1]); }
    }
    if AutoprintAmong(lines[1..], k - 1) {
      var m :| 0 <= m < k - 1 && m < |lines[1..]| && IsAutoprintLine(lines[1..][m]);
      assert IsAutoprintLine(lines[m + 1]);
    }
  }

  /** What sniffing sees and where it leaves the line: it stops at the first autoprint line, or after
      the lines it may look at, or, when fewer are buffered, at the interruption, which it swallows
      unless it is a fault. */
  lemma {:induction false} SniffFinds(s: State, maxLines: nat, looks: nat, k: nat)
    requires k == Min(looks, if |s.pending| >= maxLines then 0 else maxLines - |s.pending|)
    ensures var (failure, seen, s') := DetectOn(s, maxLines, looks);
      var lines := Crlf(s.line.ready);
      && (seen <==> AutoprintAmong(lines, k))
      && (seen ==> failure.None?)
      && (!seen && |lines| >= k ==> failure.None? && s'.line.later == s.line.later && Crlf(s'.line.ready) == lines[k..])
      && (!seen && |lines| < k ==>
            var held := Line(Leftover(s.line.ready), s.line.later);
            var (reply, next) := Interrupt(held, TimedOut);
            (failure.Some? <==> !reply.TimedOut?) && s'.line == next)
    decreases looks
  {
    hide IsAutoprintLine, Crlf, Leftover, ReadUntilOn;
    if k > 0 {
      LineRead(s.line);
      var lines := Crlf(s.line.ready);
      var (reply, next) := ReadUntilOn(s.line, LINE_TERMINATOR);
      if reply.Got? {
        AutoprintHere(lines, k);
        if !IsAutoprintLine(reply.data) {
          SniffFinds(State(s.pending + [reply.data], next), maxLines, looks - 1, k - 1);
        }
      }
    }
  }

  // ------------------------------------------------------------------ the two probes

  /** The bytes that answer the xBPI probe. */
  ghost predicate XbpiAnswers(events: seq<Event>) {
    exists raw :: raw <= Leading(events) && ParseFrame(raw).Frame? && raw[2] != 0x01
  }

  lemma XbpiAnswersIff(events: seq<Event>)
    ensures XbpiClient.ExchangeOn(View([], events)).0.Delivered? <==> XbpiAnswers(events)
  {
    hide ParseFrame, XbpiClient.ExchangeOn;
    LeadingIsReady(events);
    assert View([], events).ready == Leading(events);
    XbpiClient.DeliversIff(View([], events));
  }

  /** The line that answers the SBI probe when `k` lines are sniffed first: the next buffered one, or,
      when sniffing ran into a silence, the first to be completed after it. */
  function AnswerLine(events: seq<Event>, k: nat): Option<bytes> {
    var lines := Crlf(Leading(events));
    var rest := AfterLeading(events);
    if |lines| > k then Some(lines[k])
    else if |lines| == k || rest == [] || !rest[0].Silence? then None
    else
      var more := Crlf(Leading(events) + Leading(rest[1..]));
      if |more| > |lines| then Some(more[|lines|]) else None
  }

  predicate SbiAnswers(events: seq<Event>, k: nat) {
    AnswerLine(events, k).Some? && Parse(AnswerLine(events, k).value).Lined?
  }

  predicate Answered(line: Line) {
    var (lost, raw, _) := ReadLinesOn(line, 1);
    lost.None? && Parse(raw).Lined?
  }

  /** The one-line reply read that follows the sniffing. */
  lemma OneLineReply(line: Line)
    ensures var (lost, raw, _) := ReadLinesOn(line, 1);
      (lost.None? <==> Crlf(line.ready) != []) && (lost.None? ==> raw == Crlf(line.ready)[0])
  {
    hide Crlf, ReadUntilOn;
    LineRead(line);
    var (reply, next) := ReadUntilOn(line, LINE_TERMINATOR);
    assert ReadLinesOn(next, 0) == (None, [], next);
    if reply.Got? { assert reply.data + [] == reply.data; }
  }

  lemma SbiProbeIff(events: seq<Event>, maxLines: nat, looks: nat)
    ensures var k := Min(looks, maxLines);
      var (failure, seen, sniffed) := DetectOn(State([], View([], events)), maxLines, looks);
      && (seen <==> AutoprintAmong(Crlf(Leading(events)), k)) && (seen ==> failure.None?)
      && (!seen ==> (failure.None? && Answered(sniffed.line) <==> SbiAnswers(events, k)))
  {
    hide Crlf, Leftover, Parse, IsAutoprintLine, DetectOn, ReadLinesOn, Canonical;
    var k := Min(looks, maxLines);
    var line := View([], events);
    LeadingIsReady(events);
    assert [] + Canonical(events).ready == Leading(events);
    SniffFinds(State([], line), maxLines, looks, k);
    var (failure, seen, sniffed) := DetectOn(State([], line), maxLines, looks);
    OneLineReply(sniffed.line);
    if !seen && |Crlf(line.ready)| < k { AfterSilence(events, sniffed.line, failure); }
  }

  /** Sniffing ran into the interruption: what is buffered then. */
  lemma AfterSilence(events: seq<Event>, next: Line, failure: Option<Reply>)
    requires var held := Line(Leftover(Leading(events)), Canonical(events).later);
      var r := Interrupt(held, TimedOut);
      (failure.Some? <==> !r.0.TimedOut?) && next == r.1
    ensures var rest := AfterLeading(events);
      && (failure.Some? <==> rest != [] && rest[0].Broken?)
      && (rest == [] ==> Crlf(next.ready) == [])
      && (rest != [] && rest[0].Silence? ==>
            Crlf(Leading(events) + Leading(rest[1..])) == Crlf(Leading(events)) + Crlf(next.ready))
  {
    LeadingIsReady(events);
    var rest := AfterLeading(events);
    var a := Leading(events);
    if rest == [] {
      CrlfAppend(a, []);
      assert a + [] == a && Leftover(a) + [] == Leftover(a);
    } else {
      LeadingIsReady(rest[1..]);
      CrlfAppend(a, Leading(rest[1..]));
    }
  }

  // ------------------------------------------------------------------ every read

  predicate Within(have: bytes, sep: bytes, i: nat) { i + |sep| <= |have| && have[i..i + |sep|] == sep }

  lemma ViewIs(held: bytes, events: seq<Event>)
    ensures var line, rest := View(held, events), AfterLeading(events);
      && line.ready == held + Leading(events)
      && (if rest == [] then line.later == []
          else !rest[0].Chunk? && line.later != []
               && line.later[0].stop == if rest[0].Silence? then Deadline else Failure(rest[0].fault))
  {
    LeadingIsReady(events);
    var rest := AfterLeading(events);
    if rest != [] { LeadingIsReady(rest); }
  }

  /** What a counted read answers, from the bytes held back and the events alone: only what precedes the
      first interruption counts. */
  lemma ExactAnswers(held: bytes, events: seq<Event>, n: int)
    ensures var have, rest := held + Leading(events), AfterLeading(events);
      var r := Step(View(held, events), Exact(n)).0;
      var broken := rest != [] && rest[0].Broken?;
      && (r.Got? <==> n <= |have|)
      && (r.Got? ==> r.data == have[..if n <= 0 then 0 else n])
      && (n > |have| && broken ==> r == Lost(rest[0].fault))
      && (n > |have| && !broken ==> r == if have == [] then Transient else TimedOut)
  {
    ViewIs(held, events);
    hide View, Leading;
  }

  /** The same for a delimited read. */
  lemma UntilAnswers(held: bytes, events: seq<Event>, sep: bytes)
    ensures var have, rest := held + Leading(events), AfterLeading(events);
      var r := Step(View(held, events), Until(sep)).0;
      && (r.Got? <==> exists i: nat :: Within(have, sep, i))
      && (r.Got? ==> r.data <= have && |sep| <= |r.data| && Within(have, sep, |r.data| - |sep|))
      && (r.Got? ==> forall i: nat :: i < |r.data| - |sep| ==> !Within(have, sep, i))
      && (!r.Got? ==> r == if rest != [] && rest[0].Broken? then Lost(rest[0].fault) else TimedOut)
  {
    ViewIs(held, events);
    hide View, Leading;
    var have := held + Leading(events);
    forall i: nat ensures Within(have, sep, i) <==> OccursAt(have, sep, i) {}
    if Find(have, sep).Some? { assert Within(have, sep, Find(have, sep).value); }
  }

  /** The same for an idle-bounded read, which never fails. */
  lemma AvailableAnswers(held: bytes, events: seq<Event>, cap: Option<int>)
    ensures var have := held + Leading(events);
      Step(View(held, events), Available(cap)).0 == Got(have[..if cap.Some? && 0 < cap.value <= |have| then cap.value else |have|])
  {
    ViewIs(held, events);
    hide View, Leading;
    var have := held + Leading(events);
    assert have[..|have|] == have;
  }
}
