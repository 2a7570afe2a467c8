/** The recorder's producer: absolute-target slots, skipped-slot accounting, overflow policies. */
module Recorder {
  import opened Bytes

  /** A monotone clock. `advances` scripts how much time passes before each reading. */
  class Clock {
    var now: real
    var advances: seq<real>
    var readings: seq<real> // every reading taken so far

    constructor (now: real, advances: seq<real>)
      ensures this.now == now && this.advances == advances && readings == []
    {
      this.now, this.advances, readings := now, advances, [];
    }

    method Read() returns (t: real)
      modifies this
      ensures t == now && now >= old(now) && readings == old(readings) + [t]
    {
      if advances != [] {
        if advances[0] > 0.0 { now := now + advances[0]; }
        advances := advances[1..];
      }
      t := now;
      readings := readings + [t];
    }

    /** Wakes at or after `target`. */
    method SleepUntil(target: real)
      modifies this
      ensures now >= target && now >= old(now) && old(readings) <= readings
    {
      if now < target { now := target; }
      var t := Read();
    }
  }

  datatype Overflow = Block | DropNewest

  datatype PollEnd = Answered | Raised | PollCancelled
  datatype SendEnd = Accepted | BufferFull | SendCancelled

  /** What one iteration meets: cancellation while sleeping, the poll, the send. A blocking send
      waits a full buffer out. */
  datatype Tick = Tick(sleepCancelled: bool, poll: PollEnd, send: SendEnd)

  datatype End = Completed | Cancelled | SourceFailed

  /** One poll: its slot, the two clock readings before it, when it started and its drift. */
  datatype Poll = Poll(slot: nat, head: real, check: real, slept: bool, begun: real, drift: real, emitted: bool)

  class AcquisitionSummary {
    var emitted: nat
    var late: nat
    var maxDrift: real

    constructor ()
      ensures emitted == 0 && late == 0 && maxDrift == 0.0
    {
      emitted, late, maxDrift := 0, 0, 0.0;
    }
  }

  function Target(start: real, slot: nat, period: real): real { start + slot as real * period }

  /** `round`: to the nearest integer, ties to even. */
  function RoundHalfEven(x: real): int {
    var f := x.Floor;
    var frac := x - f as real;
    if frac < 0.5 then f else if frac > 0.5 then f + 1 else if f % 2 == 0 then f else f + 1
  }

  function TotalTicks(duration: real, rate: real): nat
    requires duration > 0.0 && rate > 0.0
  {
    var n := RoundHalfEven(duration * rate);
    if n < 1 then 1 else n
  }

  /** A finite run schedules the nearest whole number of slots, at least one. */
  lemma TotalTicksIsNearest(duration: real, rate: real)
    requires duration > 0.0 && rate > 0.0
    ensures var n := TotalTicks(duration, rate);
      && n >= 1
      && (duration * rate >= 0.5 ==> n as real - 0.5 <= duration * rate <= n as real + 0.5)
      && (duration * rate < 0.5 ==> n == 1)
      && (n > 1 && (duration * rate == n as real - 0.5 || duration * rate == n as real + 0.5) ==> n % 2 == 0)
  {
  }

  /** Skipping whole periods lands in the slot that contains the present. */
  lemma SkipLands(late: real, period: real)
    requires period > 0.0 && late > period
    ensures (late / period).Floor >= 1
    ensures (late / period).Floor as real * period <= late < (late / period).Floor as real * period + period
  {
    assert late / period * period == late;
    SkipLandsAt(late / period, (late / period).Floor as real, late, period);
  }

  lemma SkipLandsAt(q: real, m: real, late: real, period: real)
    requires period > 0.0 && q * period == late && m <= q < m + 1.0
    ensures m * period <= late < m * period + period
    ensures late > period ==> q > 1.0
  {
    var rest := q - m;
    assert rest * period == late - m * period;
    assert (1.0 - rest) * period == period - rest * period;
    assert rest * period >= 0.0 && (1.0 - rest) * period > 0.0;
  }

  function Missed(head: real, target: real, period: real): int
    requires period > 0.0
  {
    ((head - target) / period).Floor
  }

  lemma TargetAfterSkip(start: real, slot: nat, head: real, period: real)
    requires period > 0.0 && head > Target(start, slot, period) + period
    ensures var missed := Missed(head, Target(start, slot, period), period);
      missed >= 1 && 0.0 <= head - Target(start, slot + missed, period) < period
  {
    var target := Target(start, slot, period);
    SkipLands(head - target, period);
    var missed := Missed(head, target, period);
    assert (slot + missed) as real * period == slot as real * period + missed as real * period;
  }

  /** On schedule: not before its slot's target, and not later than one period (plus the time
      between the two clock readings) or the overshoot of the sleep. */
  predicate OnSchedule(p: Poll, start: real, period: real) {
    var target := start + p.slot as real * period;
    && p.begun >= target
    && p.head <= p.check <= p.begun
    && (!p.slept ==> p.begun == p.check && p.head - target <= period && p.begun - target <= period + (p.check - p.head))
    && (p.slept ==> p.check < target)
    && p.drift >= p.begun - target
  }

  predicate Increasing(polls: seq<Poll>) {
    forall i, j :: 0 <= i < j < |polls| ==> polls[i].slot < polls[j].slot
  }

  function Emitted(polls: seq<Poll>): nat {
    if polls == [] then 0 else Emitted(polls[..|polls| - 1]) + (if polls[|polls| - 1].emitted then 1 else 0)
  }

  /** What the polls so far have in common. */
  ghost predicate Good(polls: seq<Poll>, tick: nat, start: real, period: real, maxDrift: real) {
    Increasing(polls) && forall i :: 0 <= i < |polls| ==>
      polls[i].slot < tick && OnSchedule(polls[i], start, period) && polls[i].drift * 1000.0 <= maxDrift
  }

  lemma GoodGrows(polls: seq<Poll>, tick: nat, start: real, period: real, maxDrift: real, p: Poll, maxDrift': real)
    requires Good(polls, tick, start, period, maxDrift) && maxDrift' >= maxDrift
    requires p.slot >= tick && OnSchedule(p, start, period) && p.drift * 1000.0 <= maxDrift'
    ensures Good(polls + [p], p.slot + 1, start, period, maxDrift')
    ensures Emitted(polls + [p]) == Emitted(polls) + (if p.emitted then 1 else 0)
  {
  }

  lemma GoodLater(polls: seq<Poll>, tick: nat, start: real, period: real, maxDrift: real, tick': nat, maxDrift': real)
    requires Good(polls, tick, start, period, maxDrift) && tick' >= tick && maxDrift' >= maxDrift
    ensures Good(polls, tick', start, period, maxDrift')
  {
  }

  method Publish(summary: AcquisitionSummary, overflow: Overflow, send: SendEnd) returns (cancelled: bool, sent: bool)
    modifies summary
    ensures summary.maxDrift == old(summary.maxDrift)
    ensures cancelled <==> send.SendCancelled? && overflow.Block?
    ensures cancelled ==> !sent && summary.emitted == old(summary.emitted) && summary.late == old(summary.late)
    ensures !cancelled ==> (sent <==> overflow.Block? || send != BufferFull)
    ensures !cancelled && sent ==> summary.emitted == old(summary.emitted) + 1 && summary.late == old(summary.late)
    ensures !cancelled && !sent ==> summary.late == old(summary.late) + 1 && summary.emitted == old(summary.emitted)
  {
    match overflow
    case Block =>
      if send.SendCancelled? { return true, false; }
      summary.emitted := summary.emitted + 1;
      return false, true;
    case DropNewest =>
      if send.BufferFull? {
        summary.late := summary.late + 1;
        return false, false;
      }
      summary.emitted := summary.emitted + 1;
      return false, true;
  }

  // ------------------------------------------------------------------ what becomes of each slot

  /** A reading at the head of an iteration, and the slot that was due. */
  datatype Head = Head(slot: nat, reading: real)

  datatype Fate = Polled(p: Poll) | Skipped(head: Head)

  /** The reading is past the due slot's target by more than a period. */
  predicate Overruns(h: Head, start: real, period: real) { h.reading > start + h.slot as real * period + period }

  /** A slot is polled on schedule, or skipped by a reading that overran and lies at least one period
      past the slot's own target. */
  predicate FateOk(f: Fate, slot: nat, start: real, period: real, heads: seq<Head>) {
    match f
    case Polled(p) => p.slot == slot && OnSchedule(p, start, period) && exists i :: 0 <= i < |heads| && heads[i].reading == p.head
    case Skipped(h) => h in heads && h.slot <= slot && Overruns(h, start, period) && h.reading >= start + slot as real * period + period
  }

  ghost predicate Told(fates: seq<Fate>, start: real, period: real, heads: seq<Head>) {
    forall k :: 0 <= k < |fates| ==> FateOk(fates[k], k, start, period, heads)
  }

  function PolledOf(fates: seq<Fate>): seq<Poll> {
    if fates == [] then []
    else PolledOf(fates[..|fates| - 1]) + (match fates[|fates| - 1] case Polled(p) => [p] case Skipped(_) => [])
  }

  /** The skipped slots, and the polls that were dropped. */
  function LateOf(fates: seq<Fate>): nat {
    if fates == [] then 0
    else LateOf(fates[..|fates| - 1]) + (match fates[|fates| - 1] case Polled(p) => if p.emitted then 0 else 1 case Skipped(_) => 1)
  }

  function Skips(h: Head, n: nat): seq<Fate> { seq(n, _ => Skipped(h)) }

  lemma FateAdded(fates: seq<Fate>, f: Fate)
    ensures PolledOf(fates + [f]) == PolledOf(fates) + (match f case Polled(p) => [p] case Skipped(_) => [])
    ensures LateOf(fates + [f]) == LateOf(fates) + (match f case Polled(p) => if p.emitted then 0 else 1 case Skipped(_) => 1)
  {
    assert (fates + [f])[..|fates|] == fates;
  }

  lemma {:induction false} SkipsAdded(fates: seq<Fate>, h: Head, n: nat)
    ensures PolledOf(fates + Skips(h, n)) == PolledOf(fates) && LateOf(fates + Skips(h, n)) == LateOf(fates) + n
    decreases n
  {
    if n == 0 {
      assert fates + Skips(h, 0) == fates;
    } else {
      SkipsAdded(fates, h, n - 1);
      FateAdded(fates + Skips(h, n - 1), Skipped(h));
      assert fates + Skips(h, n) == (fates + Skips(h, n - 1)) + [Skipped(h)];
      assert PolledOf(fates) + [] == PolledOf(fates);
    }
  }

  lemma HeadsGrow(fates: seq<Fate>, start: real, period: real, heads: seq<Head>, h: Head)
    requires Told(fates, start, period, heads)
    ensures Told(fates, start, period, heads + [h])
  {
    var more := heads + [h];
    forall k | 0 <= k < |fates| ensures FateOk(fates[k], k, start, period, more) {
      assert FateOk(fates[k], k, start, period, heads);
      if fates[k].Polled? {
        var i :| 0 <= i < |heads| && heads[i].reading == fates[k].p.head;
        assert more[i] == heads[i];
      }
    }
  }

  lemma SkipsAreTold(fates: seq<Fate>, start: real, period: real, heads: seq<Head>, h: Head, n: nat)
    requires Told(fates, start, period, heads) && h in heads && h.slot == |fates| && period > 0.0
    requires Overruns(h, start, period) && h.reading >= start + (h.slot + n) as real * period
    ensures Told(fates + Skips(h, n), start, period, heads)
  {
    var all := fates + Skips(h, n);
    forall k | 0 <= k < |all| ensures FateOk(all[k], k, start, period, heads) {
      if k < |fates| {
        assert FateOk(fates[k], k, start, period, heads);
      } else {
        Multiples(k + 1, h.slot + n, period);
        assert (k + 1) as real * period == k as real * period + period;
      }
    }
  }

  lemma Multiples(a: nat, b: nat, period: real)
    requires a <= b && period > 0.0
    ensures a as real * period <= b as real * period
  {
    var d := (b - a) as real;
    assert d * period >= 0.0;
    assert b as real * period == a as real * period + d * period;
  }

  lemma PollIsTold(fates: seq<Fate>, start: real, period: real, heads: seq<Head>, p: Poll)
    requires Told(fates, start, period, heads) && p.slot == |fates| && OnSchedule(p, start, period)
    requires heads != [] && heads[|heads| - 1].reading == p.head
    ensures Told(fates + [Polled(p)], start, period, heads)
  {
    hide OnSchedule;
    var all := fates + [Polled(p)];
    forall k | 0 <= k < |all| ensures FateOk(all[k], k, start, period, heads) {
      if k < |fates| { assert FateOk(fates[k], k, start, period, heads); }
    }
  }

  /** No reading overran and nothing was dropped: every slot was polled and emitted. */
  lemma {:induction false} AllEmitted(fates: seq<Fate>, start: real, period: real, heads: seq<Head>)
    requires Told(fates, start, period, heads)
    requires forall h :: h in heads ==> !Overruns(h, start, period)
    requires forall p :: p in PolledOf(fates) ==> p.emitted
    ensures LateOf(fates) == 0 && forall k :: 0 <= k < |fates| ==> fates[k].Polled? && fates[k].p.emitted
  {
    hide OnSchedule, Overruns;
    if fates != [] {
      var front, f := fates[..|fates| - 1], fates[|fates| - 1];
      assert FateOk(f, |fates| - 1, start, period, heads);
      forall k | 0 <= k < |front| ensures FateOk(front[k], k, start, period, heads) {
        assert front[k] == fates[k] && FateOk(fates[k], k, start, period, heads);
      }
      assert fates == front + [f];
      FateAdded(front, f);
      AllEmitted(front, start, period, heads);
      assert f.p in PolledOf(fates);
    }
  }

  predicate Disturbing(tick: Tick, overflow: Overflow) {
    tick.sleepCancelled || tick.poll != Answered || (tick.send.SendCancelled? && overflow == Block)
  }

  /** One slot: wait for its target, poll, note the drift, publish. A run that stops here has counted
      nothing for the slot. */
  method PollSlot(clock: Clock, tick: Tick, slot: nat, target: real, head: real, start: real, period: real,
                  overflow: Overflow, summary: AcquisitionSummary)
    returns (stopped: Option<End>, p: Poll)
    requires target == Target(start, slot, period) && head - target <= period && head <= clock.now
    modifies clock, summary
    ensures clock.now >= old(clock.now) && old(clock.readings) <= clock.readings
    ensures summary.maxDrift >= old(summary.maxDrift)
    ensures stopped.Some? ==> Disturbing(tick, overflow) && stopped.value != Completed
    ensures stopped == Some(SourceFailed) <==> !(p.slept && tick.sleepCancelled) && tick.poll == Raised
    ensures stopped == Some(Cancelled) <==>
      || (p.slept && tick.sleepCancelled) || tick.poll == PollCancelled
      || (tick.poll == Answered && tick.send == SendCancelled && overflow == Block)
    ensures stopped.None? ==> p.head == head && (p.emitted <==> overflow == Block || tick.send != BufferFull)
    ensures stopped.Some? ==> summary.emitted == old(summary.emitted) && summary.late == old(summary.late)
    ensures stopped.None? ==> p.slot == slot && OnSchedule(p, start, period) && p.drift * 1000.0 <= summary.maxDrift
    ensures stopped.None? ==> summary.emitted == old(summary.emitted) + (if p.emitted then 1 else 0)
    ensures stopped.None? ==> summary.late == old(summary.late) + (if p.emitted then 0 else 1)
  {
    assert target == start + slot as real * period;
    hide Target;
    var check := clock.Read();
    var slept := check < target;
    p := Poll(slot, head, check, slept, check, 0.0, false);
    if slept {
      if tick.sleepCancelled { return Some(Cancelled), p; }
      clock.SleepUntil(target);
    }
    var begun := clock.now;
    if tick.poll == Raised { return Some(SourceFailed), p; }
    if tick.poll == PollCancelled { return Some(Cancelled), p; }
    var done := clock.Read();
    var drift := done - target;
    if drift * 1000.0 > summary.maxDrift { summary.maxDrift := drift * 1000.0; }
    var cancelled, sent := Publish(summary, overflow, tick.send);
    if cancelled { return Some(Cancelled), p; }
    stopped, p := None, Poll(slot, head, check, slept, begun, drift, sent);
  }

  ghost predicate Taken(heads: seq<Head>, readings: seq<real>) {
    forall i :: 0 <= i < |heads| ==> heads[i].reading in readings
  }

  lemma TakenLater(heads: seq<Head>, before: seq<real>, after: seq<real>)
    requires Taken(heads, before) && before <= after
    ensures Taken(heads, after)
  {
    forall i | 0 <= i < |heads| ensures heads[i].reading in after {
      var j :| 0 <= j < |before| && before[j] == heads[i].reading;
      assert after[j] == before[j];
    }
  }

  lemma TakenNow(heads: seq<Head>, before: seq<real>, h: Head)
    requires Taken(heads, before)
    ensures Taken(heads + [h], before + [h.reading])
  {
    TakenLater(heads, before, before + [h.reading]);
    assert (before + [h.reading])[|before|] == h.reading;
  }

  /** What may cancel the run in an iteration. */
  predicate Cancelling(tick: Tick, overflow: Overflow) {
    tick.sleepCancelled || tick.poll == PollCancelled || (tick.send == SendCancelled && overflow == Block)
  }

  /** The slots a reading skips: none unless it overran, and no more than the run has left. */
  function MissedSlots(start: real, slot: nat, head: real, period: real, total: Option<nat>): nat
    requires period > 0.0 && (total.Some? ==> slot < total.value)
  {
    if head > Target(start, slot, period) + period then
      TargetAfterSkip(start, slot, head, period);
      var missed := Missed(head, Target(start, slot, period), period);
      if total.Some? && missed > total.value - slot then total.value - slot else missed
    else 0
  }

  lemma MissedIs(start: real, slot: nat, head: real, period: real, total: Option<nat>)
    requires period > 0.0 && (total.Some? ==> slot < total.value)
    ensures var n := MissedSlots(start, slot, head, period, total);
      && (n > 0 <==> Overruns(Head(slot, head), start, period))
      && (n > 0 ==> head >= start + (slot + n) as real * period)
      && (total.Some? ==> slot + n <= total.value)
      && ((total.Some? && slot + n == total.value) || head - Target(start, slot + n, period) <= period)
  {
    var target := Target(start, slot, period);
    if head > target + period {
      TargetAfterSkip(start, slot, head, period);
      var missed, n := Missed(head, target, period), MissedSlots(start, slot, head, period, total);
      assert 1 <= n <= missed;
      Multiples(slot + n, slot + missed, period);
      assert head >= Target(start, slot + missed, period) >= Target(start, slot + n, period);
    }
  }

  /** What a run has recorded so far. */
  datatype Book = Book(fates: seq<Fate>, heads: seq<Head>, polls: seq<Poll>, emitted: nat, late: nat, maxDrift: real)

  ghost predicate Balanced(b: Book, start: real, period: real, overflow: Overflow) {
    && b.emitted + b.late == |b.fates| && b.emitted == Emitted(b.polls) && b.late == LateOf(b.fates)
    && Told(b.fates, start, period, b.heads) && b.polls == PolledOf(b.fates)
    && (overflow == Block ==> forall p :: p in b.polls ==> p.emitted)
    && Good(b.polls, |b.fates|, start, period, b.maxDrift)
  }

  lemma BookHead(b: Book, start: real, period: real, overflow: Overflow, h: Head)
    requires Balanced(b, start, period, overflow)
    ensures Balanced(b.(heads := b.heads + [h]), start, period, overflow)
  {
    HeadsGrow(b.fates, start, period, b.heads, h);
    hide Told, Good, Emitted, LateOf, PolledOf;
  }

  lemma BookSkips(b: Book, start: real, period: real, overflow: Overflow, h: Head, n: nat)
    requires Balanced(b, start, period, overflow) && h in b.heads && h.slot == |b.fates| && period > 0.0
    requires Overruns(h, start, period) && h.reading >= start + (h.slot + n) as real * period
    ensures Balanced(b.(fates := b.fates + Skips(h, n), late := b.late + n), start, period, overflow)
  {
    hide Told, Good, Emitted, LateOf, PolledOf, Overruns;
    SkipsAdded(b.fates, h, n);
    SkipsAreTold(b.fates, start, period, b.heads, h, n);
    GoodLater(b.polls, |b.fates|, start, period, b.maxDrift, |b.fates| + n, b.maxDrift);
  }

  lemma BookPoll(b: Book, start: real, period: real, overflow: Overflow, p: Poll, maxDrift: real)
    requires Balanced(b, start, period, overflow) && p.slot == |b.fates| && OnSchedule(p, start, period)
    requires b.heads != [] && b.heads[|b.heads| - 1].reading == p.head
    requires maxDrift >= b.maxDrift && p.drift * 1000.0 <= maxDrift && (overflow == Block ==> p.emitted)
    ensures Balanced(b.(fates := b.fates + [Polled(p)], polls := b.polls + [p], maxDrift := maxDrift,
                        emitted := b.emitted + (if p.emitted then 1 else 0), late := b.late + (if p.emitted then 0 else 1)),
                     start, period, overflow)
  {
    hide Told, Good, Emitted, LateOf, PolledOf, OnSchedule;
    GoodGrows(b.polls, |b.fates|, start, period, b.maxDrift, p, maxDrift);
    PollIsTold(b.fates, start, period, b.heads, p);
    FateAdded(b.fates, Polled(p));
  }

  lemma BookDrift(b: Book, start: real, period: real, overflow: Overflow, maxDrift: real)
    requires Balanced(b, start, period, overflow) && maxDrift >= b.maxDrift
    ensures Balanced(b.(maxDrift := maxDrift), start, period, overflow)
  {
    GoodLater(b.polls, |b.fates|, start, period, b.maxDrift, |b.fates|, maxDrift);
    hide Told, Good, Emitted, LateOf, PolledOf;
  }

  lemma EmptyBook(start: real, period: real, overflow: Overflow, maxDrift: real)
    ensures Balanced(Book([], [], [], 0, 0, maxDrift), start, period, overflow) && Taken([], [start])
  {
  }

  /** Nothing cancels the run and the source never raises. */
  predicate Undisturbed(script: seq<Tick>, overflow: Overflow) {
    forall i :: 0 <= i < |script| ==> !Disturbing(script[i], overflow)
  }

  /** `script` has one entry per iteration the consumer lets happen. However the run ends, every slot
      passed has its fate: polled on schedule, or skipped because a reading overran; and is counted
      once, as emitted or as late. Each iteration passes at least one slot, so a finite run that nothing
      disturbs completes within as many iterations as it has slots. */
  method RunProducer(clock: Clock, script: seq<Tick>, period: real, total: Option<nat>, overflow: Overflow,
                     summary: AcquisitionSummary)
    returns (end: End, start: real, tick: nat, polls: seq<Poll>, ghost fates: seq<Fate>, ghost heads: seq<Head>)
    requires period > 0.0 && summary.emitted == 0 && summary.late == 0
    modifies clock, summary
    ensures summary.emitted + summary.late == tick
    ensures total.Some? ==> tick <= total.value
    ensures end == Completed ==> total.Some? && tick == total.value
    ensures end != Completed ==> total.Some? ==> tick < total.value
    ensures total.Some? && |script| >= total.value && Undisturbed(script, overflow) ==> end == Completed
    ensures end == SourceFailed ==> exists i :: 0 <= i < |script| && script[i].poll == Raised
    ensures end == Cancelled ==> |heads| == |script| || exists i :: 0 <= i < |script| && Cancelling(script[i], overflow)
    // each slot passed was polled, or skipped by a reading that overran
    ensures |fates| == tick && Told(fates, start, period, heads) && polls == PolledOf(fates)
    ensures Taken(heads, clock.readings)
    ensures summary.late == LateOf(fates) && summary.emitted == Emitted(polls)
    ensures overflow == Block ==> forall p :: p in polls ==> p.emitted
    ensures overflow == Block && (forall h :: h in heads ==> !Overruns(h, start, period)) ==>
      summary.late == 0 && summary.emitted == tick && forall k :: 0 <= k < tick ==> fates[k].Polled? && fates[k].p.emitted
    ensures summary.maxDrift >= old(summary.maxDrift)
    ensures Good(polls, tick, start, period, summary.maxDrift)
  {
    hide Balanced, Good, Emitted, Told, PolledOf, LateOf, OnSchedule, Disturbing, Cancelling, Taken, Overruns, MissedSlots, Target, Skips;
    var done: Option<End> := None;
    start := clock.Read();
    tick, polls := 0, [];
    ghost var book := Book([], [], [], 0, 0, summary.maxDrift);
    EmptyBook(start, period, overflow, summary.maxDrift);
    TakenLater([], [], clock.readings);
    for i := 0 to |script|
      invariant done.None? && (total.Some? ==> tick <= total.value) && tick >= i
      invariant Balanced(book, start, period, overflow) && Taken(book.heads, clock.readings) && |book.heads| == i
      invariant tick == |book.fates| && polls == book.polls
      invariant summary.emitted == book.emitted && summary.late == book.late && summary.maxDrift == book.maxDrift
      invariant summary.maxDrift >= old(summary.maxDrift)
    {
      if total.Some? && tick >= total.value {
        done := Some(Completed);
        break;
      }
      ghost var before := clock.readings;
      var head := clock.Read();
      ghost var h := Head(tick, head);
      TakenNow(book.heads, before, h);
      before := clock.readings;
      var missed := MissedSlots(start, tick, head, period, total);
      book := BookIteration(book, start, period, overflow, h, total);
      if missed > 0 {
        summary.late := summary.late + missed;
        tick := tick + missed;
        if total.Some? && tick >= total.value {
          done := Some(Completed);
          break;
        }
      }
      var stopped, p := PollSlot(clock, script[i], tick, Target(start, tick, period), head, start, period, overflow, summary);
      TakenLater(book.heads, before, clock.readings);
      if stopped.Some? {
        BookDrift(book, start, period, overflow, summary.maxDrift);
        book := book.(maxDrift := summary.maxDrift);
        CancelledBy(script, i, overflow, stopped.value, p);
        done := stopped;
        break;
      }
      BookPoll(book, start, period, overflow, p, summary.maxDrift);
      book := book.(fates := book.fates + [Polled(p)], polls := book.polls + [p], maxDrift := summary.maxDrift,
                    emitted := summary.emitted, late := summary.late);
      polls := polls + [p];
      tick := tick + 1;
    }
    end := if done.Some? then done.value else if total.Some? && tick >= total.value then Completed else Cancelled;
    fates, heads := book.fates, book.heads;
    BookCloses(book, start, period, overflow);
  }

  /** The reading of an iteration, and the slots it skips. */
  lemma BookIteration(b: Book, start: real, period: real, overflow: Overflow, h: Head, total: Option<nat>) returns (b': Book)
    requires Balanced(b, start, period, overflow) && h.slot == |b.fates| && period > 0.0
    requires total.Some? ==> h.slot < total.value
    ensures Balanced(b', start, period, overflow)
    ensures var n := MissedSlots(start, h.slot, h.reading, period, total);
      && |b'.fates| == |b.fates| + n && b'.late == b.late + n
      && b'.heads == b.heads + [h] && b'.polls == b.polls && b'.emitted == b.emitted && b'.maxDrift == b.maxDrift
      && (total.Some? ==> h.slot + n <= total.value)
      && ((total.Some? && h.slot + n == total.value) || h.reading - Target(start, h.slot + n, period) <= period)
  {
    hide Balanced, MissedSlots, Target, Overruns;
    var n := MissedSlots(start, h.slot, h.reading, period, total);
    MissedIs(start, h.slot, h.reading, period, total);
    BookHead(b, start, period, overflow, h);
    b' := b.(heads := b.heads + [h]);
    if n > 0 {
      BookSkips(b', start, period, overflow, h, n);
      b' := b'.(fates := b'.fates + Skips(h, n), late := b'.late + n);
    }
  }

  /** What the book says of the whole run. */
  lemma BookCloses(b: Book, start: real, period: real, overflow: Overflow)
    requires Balanced(b, start, period, overflow)
    ensures b.emitted + b.late == |b.fates| && b.emitted == Emitted(b.polls) && b.late == LateOf(b.fates)
    ensures Told(b.fates, start, period, b.heads) && b.polls == PolledOf(b.fates)
    ensures overflow == Block ==> forall p :: p in b.polls ==> p.emitted
    ensures Good(b.polls, |b.fates|, start, period, b.maxDrift)
    ensures overflow == Block && (forall h :: h in b.heads ==> !Overruns(h, start, period)) ==>
      b.late == 0 && forall k :: 0 <= k < |b.fates| ==> b.fates[k].Polled? && b.fates[k].p.emitted
  {
    hide Told, Good, Emitted, LateOf, PolledOf, Overruns;
    if overflow == Block && forall h :: h in b.heads ==> !Overruns(h, start, period) {
      AllEmitted(b.fates, start, period, b.heads);
    }
  }

  lemma CancelledBy(script: seq<Tick>, i: nat, overflow: Overflow, end: End, p: Poll)
    requires i < |script|
    requires end == Cancelled ==>
      || (p.slept && script[i].sleepCancelled) || script[i].poll == PollCancelled
      || (script[i].poll == Answered && script[i].send == SendCancelled && overflow == Block)
    ensures end == Cancelled ==> Cancelling(script[i], overflow)
  {
  }
}
