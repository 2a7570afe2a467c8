/** `pipe`: buffered delivery of recorder batches to a sink, and its synchronous twin. */
module Pipe {
  import opened Bytes

  type Sample = nat

  /** A Python list: the driver hands the same one to every write and clears it afterwards. */
  class SampleList {
    var items: seq<Sample>

    constructor ()
      ensures items == []
    {
      items := [];
    }

    method Extend(more: seq<Sample>)
      modifies this
      ensures items == old(items) + more
    {
      items := items + more;
    }

    method Clear()
      modifies this
      ensures items == []
    {
      items := [];
    }
  }

  /** A sink that copies what it is given; once `budget` writes have succeeded it raises. */
  class Sink {
    var writes: seq<seq<Sample>>
    var budget: Option<nat>

    constructor (budget: Option<nat>)
      ensures writes == [] && this.budget == budget
    {
      writes, this.budget := [], budget;
    }

    predicate Accepts()
      reads this
    {
      budget.None? || |writes| < budget.value
    }

    method WriteMany(samples: SampleList) returns (ok: bool)
      modifies this`writes
      ensures ok == old(Accepts())
      ensures writes == if ok then old(writes) + [samples.items] else old(writes)
    {
      ok := budget.None? || |writes| < budget.value;
      if ok { writes := writes + [samples.items]; }
    }
  }

  /** Where a run stands between two batches. */
  datatype Stage = Stage(buffer: seq<Sample>, lastFlush: real, calls: seq<seq<Sample>>)

  /** One batch. The synchronous driver calls the sink on a timed flush even with an empty
      buffer; the asynchronous one does not. */
  function Take(s: Stage, batch: seq<Sample>, now: real, size: nat, interval: real, sync: bool): Stage {
    var b := s.buffer + batch;
    if |b| >= size || now - s.lastFlush >= interval then
      Stage([], now, s.calls + (if sync || b != [] then [b] else []))
    else s.(buffer := b)
  }

  function TakeAll(s: Stage, batches: seq<seq<Sample>>, times: seq<real>, size: nat, interval: real, sync: bool): Stage
    requires |times| == |batches|
    decreases |batches|
  {
    if batches == [] then s
    else TakeAll(Take(s, batches[0], times[0], size, interval, sync), batches[1..], times[1..], size, interval, sync)
  }

  function Finish(s: Stage): seq<seq<Sample>> { if s.buffer == [] then s.calls else s.calls + [s.buffer] }

  /** The arguments of every `write_many` call of a run in which all of them succeed. */
  function Calls(batches: seq<seq<Sample>>, start: real, times: seq<real>, size: nat, interval: real, sync: bool): seq<seq<Sample>>
    requires |times| == |batches|
  {
    Finish(TakeAll(Stage([], start, []), batches, times, size, interval, sync))
  }

  lemma {:induction false} TakeAllSplit(s: Stage, batches: seq<seq<Sample>>, times: seq<real>, size: nat, interval: real, sync: bool, i: nat)
    requires |times| == |batches| && i < |batches|
    ensures TakeAll(s, batches[..i + 1], times[..i + 1], size, interval, sync)
      == Take(TakeAll(s, batches[..i], times[..i], size, interval, sync), batches[i], times[i], size, interval, sync)
    decreases i
  {
    var next := Take(s, batches[0], times[0], size, interval, sync);
    assert batches[..i + 1][1..] == batches[1..][..i] && times[..i + 1][1..] == times[1..][..i];
    if i > 0 {
      assert batches[..i][1..] == batches[1..][..i - 1] && times[..i][1..] == times[1..][..i - 1];
      TakeAllSplit(next, batches[1..], times[1..], size, interval, sync, i - 1);
    } else {
      assert batches[1..][..0] == [];
    }
  }

  /** Calls already made are never undone by later batches. */
  lemma {:induction false} CallsGrow(s: Stage, batches: seq<seq<Sample>>, times: seq<real>, size: nat, interval: real, sync: bool)
    requires |times| == |batches|
    ensures s.calls <= TakeAll(s, batches, times, size, interval, sync).calls
    decreases |batches|
  {
    if batches != [] { CallsGrow(Take(s, batches[0], times[0], size, interval, sync), batches[1..], times[1..], size, interval, sync); }
  }

  lemma {:induction false} TakeAllSuffix(s: Stage, batches: seq<seq<Sample>>, times: seq<real>, size: nat, interval: real, sync: bool, i: nat)
    requires |times| == |batches| && i <= |batches|
    ensures TakeAll(s, batches, times, size, interval, sync)
      == TakeAll(TakeAll(s, batches[..i], times[..i], size, interval, sync), batches[i..], times[i..], size, interval, sync)
    decreases i
  {
    if i == 0 {
      assert batches[0..] == batches && times[0..] == times;
    } else {
      assert batches[..i][1..] == batches[1..][..i - 1] && times[..i][1..] == times[1..][..i - 1];
      assert batches[1..][i - 1..] == batches[i..] && times[1..][i - 1..] == times[i..];
      TakeAllSuffix(Take(s, batches[0], times[0], size, interval, sync), batches[1..], times[1..], size, interval, sync, i - 1);
    }
  }

  /** A step that calls the sink is visible in the calls of the whole run. */
  lemma CallHappens(batches: seq<seq<Sample>>, start: real, times: seq<real>, size: nat, interval: real, sync: bool, i: nat)
    requires |times| == |batches| && i < |batches|
    ensures var here := TakeAll(Stage([], start, []), batches[..i], times[..i], size, interval, sync);
      Take(here, batches[i], times[i], size, interval, sync).calls <= Calls(batches, start, times, size, interval, sync)
  {
    var s0 := Stage([], start, []);
    TakeAllSplit(s0, batches, times, size, interval, sync, i);
    TakeAllSuffix(s0, batches, times, size, interval, sync, i + 1);
    CallsGrow(TakeAll(s0, batches[..i + 1], times[..i + 1], size, interval, sync), batches[i + 1..], times[i + 1..], size, interval, sync);
  }

  // ------------------------------------------------------------------ when the buffer is flushed

  /** Where the buffer starts after `cuts`, and when it was last flushed. */
  function From(cuts: seq<nat>): nat { if cuts == [] then 0 else cuts[|cuts| - 1] + 1 }

  function Since(cuts: seq<nat>, start: real, times: seq<real>): real
    requires forall k :: 0 <= k < |cuts| ==> cuts[k] < |times|
  {
    if cuts == [] then start else times[cuts[|cuts| - 1]]
  }

  /** Batch `i` completes `size` samples since the flushes at `cuts`, or comes an interval after the
      last of them. */
  ghost predicate Due(batches: seq<seq<Sample>>, start: real, times: seq<real>, size: nat, interval: real, cuts: seq<nat>, i: nat)
    requires |times| == |batches| && i < |batches| && From(cuts) <= i
    requires forall k :: 0 <= k < |cuts| ==> cuts[k] < |times|
  {
    |Concat(batches[From(cuts)..i + 1])| >= size || times[i] - Since(cuts, start, times) >= interval
  }

  /** After the flushes at `cuts`, batch `c` is the first one due. */
  ghost predicate FirstDue(batches: seq<seq<Sample>>, start: real, times: seq<real>, size: nat, interval: real, cuts: seq<nat>, c: nat)
    requires |times| == |batches| && c < |batches|
    requires forall k :: 0 <= k < |cuts| ==> cuts[k] < |times|
  {
    && From(cuts) <= c && Due(batches, start, times, size, interval, cuts, c)
    && forall i :: From(cuts) <= i < c ==> !Due(batches, start, times, size, interval, cuts, i)
  }

  /** Of the first `n` batches, those at `cuts` are followed by a flush: each is the first one due after
      those before it, and none after the last is due. */
  ghost predicate Flushes(batches: seq<seq<Sample>>, start: real, times: seq<real>, size: nat, interval: real, cuts: seq<nat>, n: nat)
    requires |times| == |batches| && n <= |batches|
  {
    && (forall k :: 0 <= k < |cuts| ==> cuts[k] < n)
    && (forall k :: 0 <= k < |cuts| ==> FirstDue(batches, start, times, size, interval, cuts[..k], cuts[k]))
    && (forall i :: From(cuts) <= i < n ==> !Due(batches, start, times, size, interval, cuts, i))
  }

  /** The flushes come one after the other. */
  predicate InOrder(cuts: seq<nat>, n: nat) { forall k :: 0 <= k < |cuts| ==> From(cuts[..k]) <= cuts[k] < n }

  /** The batch values between the flushes. */
  function Cut(batches: seq<seq<Sample>>, cuts: seq<nat>): seq<seq<Sample>>
    requires InOrder(cuts, |batches|)
  {
    seq(|cuts|, k requires 0 <= k < |cuts| => Concat(batches[From(cuts[..k])..cuts[k] + 1]))
  }

  // ------------------------------------------------------------------ the two drivers

  method Flush(buffer: SampleList, sink: Sink, emitted: nat) returns (ok: bool, emitted': nat)
    modifies buffer, sink`writes
    ensures old(buffer.items) == [] ==> ok && sink.writes == old(sink.writes) && buffer.items == [] && emitted' == emitted
    ensures old(buffer.items) != [] ==> ok == old(sink.Accepts())
    ensures old(buffer.items) != [] && ok ==>
      sink.writes == old(sink.writes) + [old(buffer.items)] && buffer.items == [] && emitted' == emitted + |old(buffer.items)|
    ensures !ok ==> sink.writes == old(sink.writes) && emitted' == emitted
  {
    if buffer.items == [] { return true, emitted; }
    ok := sink.WriteMany(buffer);
    if !ok { return false, emitted; }
    emitted' := emitted + |buffer.items|;
    buffer.Clear();
  }

  /** The asynchronous driver. On success the sink got exactly the calls of the specification; when
      a write raises, exactly those before it. */
  method PipeAsync(batches: seq<seq<Sample>>, start: real, times: seq<real>, sink: Sink, size: nat, interval: real)
    returns (ok: bool, emitted: nat)
    requires |times| == |batches| && size >= 1 && interval > 0.0 && sink.writes == []
    modifies sink`writes
    ensures ok ==> sink.writes == Calls(batches, start, times, size, interval, false)
    ensures !ok ==> sink.writes < Calls(batches, start, times, size, interval, false)
    ensures emitted == |Concat(sink.writes)|
  {
    hide Concat;
    var buffer := new SampleList();
    var lastFlush := start;
    emitted := 0;
    ConcatGrows([], []);
    ghost var stage := Stage([], start, []);
    for i := 0 to |batches|
      invariant stage == TakeAll(Stage([], start, []), batches[..i], times[..i], size, interval, false)
      invariant fresh(buffer) && Stage(buffer.items, lastFlush, sink.writes) == stage && |buffer.items| < size
      invariant emitted == |Concat(sink.writes)|
    {
      TakeAllSplit(Stage([], start, []), batches, times, size, interval, false, i);
      CallHappens(batches, start, times, size, interval, false, i);
      ConcatGrows(sink.writes, buffer.items + batches[i]);
      stage := Take(stage, batches[i], times[i], size, interval, false);
      buffer.Extend(batches[i]);
      var now := times[i];
      if |buffer.items| >= size || now - lastFlush >= interval {
        ok, emitted := Flush(buffer, sink, emitted);
        if !ok { return; }
        lastFlush := now;
      }
    }
    assert batches[..|batches|] == batches && times[..|batches|] == times;
    ConcatGrows(sink.writes, buffer.items);
    ok, emitted := Flush(buffer, sink, emitted);
  }

  /** The synchronous driver: written out separately, with its own flush. */
  method PipeSync(batches: seq<seq<Sample>>, start: real, times: seq<real>, sink: Sink, size: nat, interval: real)
    returns (ok: bool, emitted: nat)
    requires |times| == |batches| && size >= 1 && interval > 0.0 && sink.writes == []
    modifies sink`writes
    ensures ok ==> sink.writes == Calls(batches, start, times, size, interval, true)
    ensures !ok ==> sink.writes < Calls(batches, start, times, size, interval, true)
    ensures emitted == |Concat(sink.writes)|
  {
    hide Concat;
    var buffer := new SampleList();
    var lastFlush := start;
    ok, emitted := true, 0;
    ConcatGrows([], []);
    ghost var stage := Stage([], start, []);
    for i := 0 to |batches|
      invariant stage == TakeAll(Stage([], start, []), batches[..i], times[..i], size, interval, true)
      invariant fresh(buffer) && Stage(buffer.items, lastFlush, sink.writes) == stage && |buffer.items| < size
      invariant ok && emitted == |Concat(sink.writes)|
    {
      TakeAllSplit(Stage([], start, []), batches, times, size, interval, true, i);
      CallHappens(batches, start, times, size, interval, true, i);
      ConcatGrows(sink.writes, buffer.items + batches[i]);
      stage := Take(stage, batches[i], times[i], size, interval, true);
      buffer.Extend(batches[i]);
      var now := times[i];
      if |buffer.items| >= size || now - lastFlush >= interval {
        ok := sink.WriteMany(buffer);
        if !ok { return; }
        emitted := emitted + |buffer.items|;
        buffer.Clear();
        lastFlush := now;
      }
    }
    assert batches[..|batches|] == batches && times[..|batches|] == times;
    ConcatGrows(sink.writes, buffer.items);
    if buffer.items != [] {
      ok := sink.WriteMany(buffer);
      if !ok { return; }
      emitted := emitted + |buffer.items|;
      buffer.Clear();
    }
  }

  lemma ConcatGrows(calls: seq<seq<Sample>>, b: seq<Sample>)
    ensures Concat(calls + [b]) == Concat(calls) + b
    ensures Concat<Sample>([]) == []
  {
    ConcatAppend(calls, [b]);
    assert Concat([b]) == b + Concat([]);
  }

  // ------------------------------------------------------------------ exactly once

  lemma {:induction false} TakeAllConserves(s: Stage, batches: seq<seq<Sample>>, times: seq<real>, size: nat, interval: real, sync: bool)
    requires |times| == |batches|
    ensures var t := TakeAll(s, batches, times, size, interval, sync);
      Concat(t.calls) + t.buffer == Concat(s.calls) + s.buffer + Concat(batches)
    decreases |batches|
  {
    if batches == [] {
      assert Concat(s.calls) + s.buffer + [] == Concat(s.calls) + s.buffer;
    } else {
      var next := Take(s, batches[0], times[0], size, interval, sync);
      var b := s.buffer + batches[0];
      ConcatGrows(s.calls, b);
      assert s.calls + [] == s.calls;
      assert Concat(next.calls) + next.buffer == Concat(s.calls) + b;
      TakeAllConserves(next, batches[1..], times[1..], size, interval, sync);
      assert Concat(s.calls) + b + Concat(batches[1..]) == Concat(s.calls) + s.buffer + (batches[0] + Concat(batches[1..]));
    }
  }

  /** Whatever the batches, the clock and the thresholds: the arguments of the sink's calls,
      concatenated, are the batch values, concatenated; both drivers. */
  lemma ExactlyOnce(batches: seq<seq<Sample>>, start: real, times: seq<real>, size: nat, interval: real, sync: bool)
    requires |times| == |batches|
    ensures Concat(Calls(batches, start, times, size, interval, sync)) == Concat(batches)
  {
    var s0 := Stage([], start, []);
    TakeAllConserves(s0, batches, times, size, interval, sync);
    var t := TakeAll(s0, batches, times, size, interval, sync);
    ConcatGrows(t.calls, t.buffer);
    assert [] + Concat(batches) == Concat(batches);
  }

  function NonEmpty(calls: seq<seq<Sample>>): seq<seq<Sample>> {
    if calls == [] then [] else (if calls[0] == [] then [] else [calls[0]]) + NonEmpty(calls[1..])
  }

  lemma {:induction false} NonEmptyAppend(a: seq<seq<Sample>>, b: seq<seq<Sample>>)
    ensures NonEmpty(a + b) == NonEmpty(a) + NonEmpty(b)
  {
    if a == [] {
      assert a + b == b;
    } else {
      assert (a + b)[1..] == a[1..] + b;
      NonEmptyAppend(a[1..], b);
    }
  }

  lemma {:induction false} TwinsInStep(a: Stage, b: Stage, batches: seq<seq<Sample>>, times: seq<real>, size: nat, interval: real)
    requires |times| == |batches| && a == b.(calls := NonEmpty(b.calls))
    ensures var x, y := TakeAll(a, batches, times, size, interval, false), TakeAll(b, batches, times, size, interval, true);
      x == y.(calls := NonEmpty(y.calls))
    decreases |batches|
  {
    if batches != [] {
      NonEmptyAppend(b.calls, [b.buffer + batches[0]]);
      assert NonEmpty([b.buffer + batches[0]]) == if b.buffer + batches[0] == [] then [] else [b.buffer + batches[0]];
      assert a.calls + [] == a.calls;
      TwinsInStep(Take(a, batches[0], times[0], size, interval, false), Take(b, batches[0], times[0], size, interval, true),
                  batches[1..], times[1..], size, interval);
    }
  }

  /** The synchronous driver makes the same calls as the asynchronous one, plus calls with nothing
      in them. */
  lemma TwinsAgree(batches: seq<seq<Sample>>, start: real, times: seq<real>, size: nat, interval: real)
    requires |times| == |batches|
    ensures Calls(batches, start, times, size, interval, false) == NonEmpty(Calls(batches, start, times, size, interval, true))
  {
    var s0 := Stage([], start, []);
    TwinsInStep(s0, s0, batches, times, size, interval);
    var y := TakeAll(s0, batches, times, size, interval, true);
    NonEmptyAppend(y.calls, [y.buffer]);
    assert NonEmpty([y.buffer]) == if y.buffer == [] then [] else [y.buffer];
  }

  lemma {:induction false} SameStages(s: Stage, batches: seq<seq<Sample>>, times: seq<real>, size: nat, interval: real)
    requires |times| == |batches| && forall i :: 0 <= i < |batches| ==> batches[i] != []
    ensures TakeAll(s, batches, times, size, interval, false) == TakeAll(s, batches, times, size, interval, true)
    decreases |batches|
  {
    if batches != [] {
      assert s.buffer + batches[0] != [];
      SameStages(Take(s, batches[0], times[0], size, interval, true), batches[1..], times[1..], size, interval);
    }
  }

  /** A batch that is due closes the run of batches before it. */
  lemma FlushesMore(batches: seq<seq<Sample>>, start: real, times: seq<real>, size: nat, interval: real, cuts: seq<nat>, n: nat)
    requires |times| == |batches| && n < |batches| && Flushes(batches, start, times, size, interval, cuts, n) && From(cuts) <= n
    requires Due(batches, start, times, size, interval, cuts, n)
    ensures Flushes(batches, start, times, size, interval, cuts + [n], n + 1) && From(cuts + [n]) == n + 1
  {
    var more := cuts + [n];
    assert From(more) == n + 1;
    hide Due, From;
    assert FirstDue(batches, start, times, size, interval, cuts, n);
    hide FirstDue;
    forall k | 0 <= k < |more| ensures FirstDue(batches, start, times, size, interval, more[..k], more[k]) {
      if k == |cuts| { assert more[..k] == cuts; } else { assert more[..k] == cuts[..k]; }
    }
  }

  lemma CutMore(batches: seq<seq<Sample>>, cuts: seq<nat>, n: nat)
    requires n < |batches| && From(cuts) <= n && InOrder(cuts, n)
    ensures InOrder(cuts + [n], n + 1)
    ensures Cut(batches, cuts + [n]) == Cut(batches, cuts) + [Concat(batches[From(cuts)..n + 1])]
  {
    hide Concat, From;
    var more := cuts + [n];
    assert forall k :: 0 <= k < |cuts| ==> more[..k] == cuts[..k];
    assert more[..|cuts|] == cuts;
  }

  /** Where a run stands after the flushes at `cuts`, `n` batches in. */
  function StageAt(batches: seq<seq<Sample>>, start: real, times: seq<real>, cuts: seq<nat>, n: nat): Stage
    requires |times| == |batches| && From(cuts) <= n <= |batches| && InOrder(cuts, n)
  {
    Stage(Concat(batches[From(cuts)..n]), Since(cuts, start, times), Cut(batches, cuts))
  }

  lemma StageKept(batches: seq<seq<Sample>>, start: real, times: seq<real>, cuts: seq<nat>, n: nat)
    requires |times| == |batches| && n < |batches| && From(cuts) <= n && InOrder(cuts, n)
    ensures StageAt(batches, start, times, cuts, n).buffer + batches[n] == Concat(batches[From(cuts)..n + 1])
    ensures StageAt(batches, start, times, cuts, n + 1)
      == StageAt(batches, start, times, cuts, n).(buffer := Concat(batches[From(cuts)..n + 1]))
  {
    hide Concat, Cut, Since;
    var from := From(cuts);
    assert batches[from..n + 1] == batches[from..n] + [batches[n]];
    ConcatGrows(batches[from..n], batches[n]);
  }

  lemma StageCut(batches: seq<seq<Sample>>, start: real, times: seq<real>, cuts: seq<nat>, n: nat)
    requires |times| == |batches| && n < |batches| && From(cuts) <= n && InOrder(cuts, n)
    ensures InOrder(cuts + [n], n + 1) && From(cuts + [n]) == n + 1
    ensures StageAt(batches, start, times, cuts + [n], n + 1)
      == Stage([], times[n], Cut(batches, cuts) + [Concat(batches[From(cuts)..n + 1])])
  {
    CutMore(batches, cuts, n);
    assert batches[n + 1..n + 1] == [];
    ConcatGrows([], []);
    hide Concat, Cut, InOrder;
  }

  lemma StageMore(batches: seq<seq<Sample>>, start: real, times: seq<real>, size: nat, interval: real, cuts: seq<nat>, n: nat)
    returns (more: seq<nat>)
    requires |times| == |batches| && n < |batches| && Flushes(batches, start, times, size, interval, cuts, n)
    requires InOrder(cuts, n) && From(cuts) <= n
    ensures Flushes(batches, start, times, size, interval, more, n + 1) && InOrder(more, n + 1) && From(more) <= n + 1
    ensures Take(StageAt(batches, start, times, cuts, n), batches[n], times[n], size, interval, true)
      == StageAt(batches, start, times, more, n + 1)
  {
    hide Concat, Cut, From, FirstDue;
    StageKept(batches, start, times, cuts, n);
    if Due(batches, start, times, size, interval, cuts, n) {
      more := cuts + [n];
      FlushesMore(batches, start, times, size, interval, cuts, n);
      StageCut(batches, start, times, cuts, n);
    } else {
      more := cuts;
    }
  }

  lemma LeftBelowSize(batches: seq<seq<Sample>>, start: real, times: seq<real>, size: nat, interval: real, cuts: seq<nat>)
    requires |times| == |batches| && Flushes(batches, start, times, size, interval, cuts, |batches|) && From(cuts) <= |batches|
    ensures size >= 1 ==> |Concat(batches[From(cuts)..])| < size
  {
    hide Concat;
    ConcatGrows([], []);
    if From(cuts) < |batches| {
      assert !Due(batches, start, times, size, interval, cuts, |batches| - 1);
      assert batches[From(cuts)..|batches|] == batches[From(cuts)..];
    } else {
      assert batches[From(cuts)..] == [];
    }
  }

  /** The calls of a run in which all succeed: the values between the flushes, and at the end what is
      left if there is any. A flush comes exactly where the buffer reaches `size` or the interval has
      passed, so between two batches the buffer is below `size`. */
  lemma FlushesWhenDue(batches: seq<seq<Sample>>, start: real, times: seq<real>, size: nat, interval: real) returns (cuts: seq<nat>)
    requires |times| == |batches|
    ensures Flushes(batches, start, times, size, interval, cuts, |batches|) && InOrder(cuts, |batches|) && From(cuts) <= |batches|
    ensures var rest := Concat(batches[From(cuts)..]);
      var all := Cut(batches, cuts) + (if rest == [] then [] else [rest]);
      && Calls(batches, start, times, size, interval, true) == all
      && Calls(batches, start, times, size, interval, false) == NonEmpty(all)
      && (size >= 1 ==> |rest| < size)
  {
    hide Concat, Cut, Due, TakeAll, Take;
    var s0 := Stage([], start, []);
    cuts := [];
    StartsEmpty(batches, start, times, size, interval);
    for n := 0 to |batches|
      invariant Flushes(batches, start, times, size, interval, cuts, n) && InOrder(cuts, n) && From(cuts) <= n
      invariant TakeAll(s0, batches[..n], times[..n], size, interval, true) == StageAt(batches, start, times, cuts, n)
    {
      TakeAllSplit(s0, batches, times, size, interval, true, n);
      cuts := StageMore(batches, start, times, size, interval, cuts, n);
    }
    assert batches[..|batches|] == batches && times[..|batches|] == times;
    assert batches[From(cuts)..|batches|] == batches[From(cuts)..];
    LeftBelowSize(batches, start, times, size, interval, cuts);
    TwinsAgree(batches, start, times, size, interval);
    assert Cut(batches, cuts) + [] == Cut(batches, cuts);
  }

  lemma StartsEmpty(batches: seq<seq<Sample>>, start: real, times: seq<real>, size: nat, interval: real)
    requires |times| == |batches|
    ensures TakeAll(Stage([], start, []), batches[..0], times[..0], size, interval, true) == StageAt(batches, start, times, [], 0)
  {
    assert batches[..0] == [] && batches[0..0] == [];
  }

  /** `n` clock readings, one interval apart. */
  function Ticks(start: real, interval: real, n: nat): (times: seq<real>)
    ensures |times| == n
    decreases n
  {
    if n == 0 then [] else [start + interval] + Ticks(start + interval, interval, n - 1)
  }

  ghost predicate Ascending(start: real, times: seq<real>) {
    (forall i :: 0 <= i < |times| ==> start <= times[i]) && forall i, j :: 0 <= i < j < |times| ==> times[i] <= times[j]
  }

  lemma {:induction false} TicksAscend(start: real, interval: real, n: nat)
    requires interval >= 0.0
    ensures Ascending(start, Ticks(start, interval, n))
    decreases n
  {
    if n > 0 { TicksAscend(start + interval, interval, n - 1); }
  }

  /** At that pace the synchronous driver flushes after every batch. */
  lemma {:induction false} EveryBatchFlushed(s: Stage, batches: seq<seq<Sample>>, size: nat, interval: real)
    requires s.buffer == []
    ensures var t := TakeAll(s, batches, Ticks(s.lastFlush, interval, |batches|), size, interval, true);
      t.buffer == [] && t.calls == s.calls + batches
    decreases |batches|
  {
    if batches != [] {
      var times := Ticks(s.lastFlush, interval, |batches|);
      assert times[1..] == Ticks(s.lastFlush + interval, interval, |batches| - 1);
      assert s.buffer + batches[0] == batches[0];
      var next := Take(s, batches[0], times[0], size, interval, true);
      EveryBatchFlushed(next, batches[1..], size, interval);
      assert (s.calls + [batches[0]]) + batches[1..] == s.calls + batches;
    } else {
      assert s.calls + [] == s.calls;
    }
  }

  lemma {:induction false} NonEmptyShrinks(calls: seq<seq<Sample>>)
    ensures |NonEmpty(calls)| <= |calls|
    ensures NonEmpty(calls) == calls ==> forall i :: 0 <= i < |calls| ==> calls[i] != []
  {
    if calls != [] {
      NonEmptyShrinks(calls[1..]);
      if NonEmpty(calls) == calls {
        assert NonEmpty(calls[1..]) == calls[1..];
        assert forall i :: 1 <= i < |calls| ==> calls[i] == calls[1..][i - 1];
      }
    }
  }

  /** The two drivers make the same calls whatever the clock says, monotone or not, exactly when no
      batch is empty. */
  lemma TwinsIdenticalIff(batches: seq<seq<Sample>>, start: real, size: nat, interval: real)
    ensures (forall times: seq<real> :: |times| == |batches| ==>
              Calls(batches, start, times, size, interval, false) == Calls(batches, start, times, size, interval, true))
      <==> forall i :: 0 <= i < |batches| ==> batches[i] != []
    ensures interval >= 0.0 ==>
      ((forall times: seq<real> :: |times| == |batches| && Ascending(start, times) ==>
              Calls(batches, start, times, size, interval, false) == Calls(batches, start, times, size, interval, true))
      <==> forall i :: 0 <= i < |batches| ==> batches[i] != [])
  {
    if forall i :: 0 <= i < |batches| ==> batches[i] != [] {
      forall times: seq<real> | |times| == |batches|
        ensures Calls(batches, start, times, size, interval, false) == Calls(batches, start, times, size, interval, true)
      {
        SameStages(Stage([], start, []), batches, times, size, interval);
      }
    } else {
      var times := Ticks(start, interval, |batches|);
      if interval >= 0.0 { TicksAscend(start, interval, |batches|); }
      EveryBatchFlushed(Stage([], start, []), batches, size, interval);
      assert Calls(batches, start, times, size, interval, true) == batches;
      TwinsAgree(batches, start, times, size, interval);
      NonEmptyShrinks(batches);
    }
  }

  /** An empty batch whose turn comes once the interval has passed, with nothing buffered, is where
      they differ: the synchronous driver writes an empty list. */
  lemma EmptyFlushDiffers(start: real, now: real, size: nat, interval: real)
    requires now - start >= interval && size >= 1
    ensures Calls([[]], start, [now], size, interval, true) == [[]]
    ensures Calls([[]], start, [now], size, interval, false) == []
  {
  }
}
