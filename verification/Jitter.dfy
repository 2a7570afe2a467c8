/** The jitter diagnostic: sequence gaps from a one-byte counter, and interpolated percentiles. */
module Jitter {
  import opened Bytes

  // ------------------------------------------------------------------ sequence gaps

  function Present<T>(cells: seq<Option<T>>): seq<T> {
    if cells == [] then []
    else Present(cells[..|cells| - 1]) + Opt(cells[|cells| - 1])
  }

  function Diff(current: int, previous: int): byte { (current - previous) % 256 }

  lemma Shift(x: int, k: int)
    ensures (x + 256 * k) % 256 == x % 256
  {
  }

  lemma DiffsAdd(a: int, b: int, c: int, sum: int)
    requires sum % 256 == Diff(b, a)
    ensures (sum + Diff(c, b)) % 256 == Diff(c, a)
  {
    Shift(sum + Diff(c, b), (c - b) / 256 + (b - a) / 256 - sum / 256);
  }

  function SequenceDelta(current: Option<byte>, previous: Option<byte>): Option<byte> {
    if current.None? || previous.None? then None else Some(Diff(current.value, previous.value))
  }

  /** The differences of neighbours, modulo 256. */
  function Steps(seen: seq<byte>): seq<byte> {
    if |seen| < 2 then []
    else Steps(seen[..|seen| - 1]) + [Diff(seen[|seen| - 1], seen[|seen| - 2])]
  }

  function LastOf(seen: seq<byte>): Option<byte> { if seen == [] then None else Some(seen[|seen| - 1]) }

  lemma PresentSnoc<T>(cells: seq<Option<T>>, cell: Option<T>)
    ensures Present(cells + [cell]) == Present(cells) + Opt(cell)
  {
  }

  /** One cell a sample; `samples[i]` is None for an error and for a frame without a sequence number. */
  predicate AreRows(samples: seq<Option<byte>>, deltas: seq<Option<byte>>) {
    |deltas| == |samples| && forall i :: 0 <= i < |samples| ==> deltas[i] == SequenceDelta(samples[i], LastOf(Present(samples[..i])))
  }

  method Rows(samples: seq<Option<byte>>) returns (deltas: seq<Option<byte>>)
    ensures AreRows(samples, deltas)
  {
    hide Present, SequenceDelta;
    deltas := [];
    PresentNone(samples);
    var previous: Option<byte> := None;
    for i := 0 to |samples|
      invariant |deltas| == i
      invariant previous == LastOf(Present(samples[..i]))
      invariant forall k :: 0 <= k < i ==> deltas[k] == SequenceDelta(samples[k], LastOf(Present(samples[..k])))
    {
      deltas := deltas + [SequenceDelta(samples[i], previous)];
      assert samples[..i + 1] == samples[..i] + [samples[i]];
      PresentSnoc(samples[..i], samples[i]);
      if samples[i].Some? { previous := samples[i]; }
    }
  }

  lemma PresentNone(samples: seq<Option<byte>>)
    ensures Present(samples[..0]) == []
  {
  }

  /** Errors between two sequenced samples drop out: the deltas are the steps of the sequence numbers seen. */
  lemma {:induction false} RowsAreSteps(samples: seq<Option<byte>>, deltas: seq<Option<byte>>)
    requires AreRows(samples, deltas)
    ensures Present(deltas) == Steps(Present(samples))
  {
    hide Present, Steps, SequenceDelta, LastOf, Opt;
    if samples == [] {
      NoneSeen();
    } else {
      var n := |samples| - 1;
      var front, rows := samples[..n], deltas[..n];
      assert samples == front + [samples[n]] && deltas == rows + [deltas[n]];
      assert forall i :: 0 <= i < n ==> front[..i] == samples[..i];
      RowsAreSteps(front, rows);
      PresentSnoc(front, samples[n]);
      PresentSnoc(rows, deltas[n]);
      StepsSnoc(Present(front), samples[n], deltas[n]);
    }
  }

  lemma NoneSeen()
    ensures Present<byte>([]) == [] && Steps([]) == []
  {
  }

  function Opt<T>(cell: Option<T>): seq<T> { match cell case None => [] case Some(v) => [v] }

  lemma StepsSnoc(seen: seq<byte>, cell: Option<byte>, delta: Option<byte>)
    requires delta == SequenceDelta(cell, LastOf(seen))
    ensures Steps(seen + Opt(cell)) == Steps(seen) + Opt(delta)
  {
    if cell.Some? {
      assert (seen + [cell.value])[..|seen|] == seen;
    } else {
      assert seen + [] == seen;
    }
  }

  function Sum(xs: seq<int>): int {
    if xs == [] then 0 else Sum(xs[..|xs| - 1]) + xs[|xs| - 1]
  }

  /** `sequence_gaps` and `duplicate_sequences`. */
  function Gaps(deltas: seq<byte>): nat {
    if deltas == [] then 0
    else
      var delta := deltas[|deltas| - 1];
      Gaps(deltas[..|deltas| - 1]) + GapOf(delta)
  }

  function Duplicates(deltas: seq<byte>): nat {
    if deltas == [] then 0
    else Duplicates(deltas[..|deltas| - 1]) + (if deltas[|deltas| - 1] == 0 then 1 else 0)
  }

  lemma {:induction false} DeltasTelescope(seen: seq<byte>)
    requires seen != []
    ensures Sum(Steps(seen)) % 256 == Diff(seen[|seen| - 1], seen[0])
  {
    if |seen| > 1 {
      var front := seen[..|seen| - 1];
      DeltasTelescope(front);
      var step := Diff(seen[|seen| - 1], seen[|seen| - 2]);
      assert (Steps(front) + [step])[..|Steps(front)|] == Steps(front);
      hide Diff, Steps;
      DiffsAdd(seen[0], seen[|seen| - 2], seen[|seen| - 1], Sum(Steps(front)));
    }
  }

  /** What a one-byte field shows of the device's frame counter. */
  function Shown(counters: seq<nat>): seq<byte> {
    seq(|counters|, i requires 0 <= i < |counters| => counters[i] % 256)
  }

  predicate Ascending(counters: seq<nat>) { forall i, j :: 0 <= i < j < |counters| ==> counters[i] <= counters[j] }

  /** The frames the device produced between the first and the last sampled one that no sample shows. */
  function Missed(counters: seq<nat>): set<nat> {
    if counters == [] then {} else set f: nat | counters[0] <= f < counters[|counters| - 1] && f !in counters
  }

  function Range(lo: nat, hi: nat): (r: set<nat>)
    requires lo <= hi
    ensures forall f :: f in r <==> lo <= f < hi
    ensures |r| == hi - lo
    decreases hi - lo
  {
    if lo == hi then {} else Range(lo, hi - 1) + {hi - 1}
  }

  /** One more sample misses the frames strictly between it and the one before. */
  lemma MissedStep(counters: seq<nat>, next: nat)
    requires counters != [] && Ascending(counters + [next])
    ensures var last := counters[|counters| - 1];
      |Missed(counters + [next])| == |Missed(counters)| + GapOf(next - last)
  {
    var last, all := counters[|counters| - 1], counters + [next];
    assert all[0] == counters[0] && all[|counters|] == next && all[|counters| - 1] == last;
    forall i | 0 <= i < |counters| ensures counters[i] <= last { assert all[i] == counters[i]; }
    forall f ensures f in all <==> f in counters || f == next { assert all[|counters|] == next; assert f in counters ==> f in all; }
    if next > last {
      var between := Range(last + 1, next);
      assert Missed(all) == Missed(counters) + between;
      assert Missed(counters) !! between;
    } else {
      assert Missed(all) == Missed(counters);
    }
  }

  predicate SlowerThanWrap(counters: seq<nat>) { forall i :: 1 <= i < |counters| ==> counters[i] < counters[i - 1] + 256 }

  function GapOf(delta: int): nat { if delta > 1 then delta - 1 else 0 }

  lemma SlowerStep(front: seq<nat>, next: nat)
    requires front != []
    ensures SlowerThanWrap(front + [next]) <==> SlowerThanWrap(front) && next < front[|front| - 1] + 256
  {
    var all := front + [next];
    if SlowerThanWrap(all) {
      assert all[|front|] < all[|front| - 1] + 256;
      forall i | 1 <= i < |front| ensures front[i] < front[i - 1] + 256 { assert all[i] < all[i - 1] + 256; }
    }
  }

  /** The reported gaps never exceed the frames really missed, and equal them exactly when the counter
      advanced by less than 256 between every two samples that carried it. */
  lemma {:induction false} GapsExactIff(counters: seq<nat>)
    requires Ascending(counters)
    ensures Gaps(Steps(Shown(counters))) <= |Missed(counters)|
    ensures Gaps(Steps(Shown(counters))) == |Missed(counters)| <==> SlowerThanWrap(counters)
  {
    if |counters| >= 2 {
      var n := |counters| - 1;
      var front, next := counters[..n], counters[n];
      hide Gaps, Steps, Shown, Missed, SlowerThanWrap, GapOf;
      assert counters == front + [next];
      GapsExactIff(front);
      MissedStep(front, next);
      ShownStep(front, next);
      WrapCost(front[n - 1], next);
      SlowerStep(front, next);
    } else {
      assert Missed(counters) == {};
    }
  }

  /** Between neighbouring samples the counter never advanced by a whole number of turns. */
  predicate NoWholeTurn(counters: seq<nat>) {
    forall i :: 1 <= i < |counters| ==> counters[i] == counters[i - 1] || counters[i] % 256 != counters[i - 1] % 256
  }

  /** The samples that show a device frame an earlier sample already showed. */
  function Repeats(counters: seq<nat>): int { |counters| - |Frames(counters)| }

  function Frames(counters: seq<nat>): set<nat> { set c | c in counters }

  lemma FramesSnoc(front: seq<nat>, next: nat)
    ensures Frames(front + [next]) == Frames(front) + {next}
  {
    var all := front + [next];
    forall c ensures c in all <==> c in front || c == next {
      if c in front { var i :| 0 <= i < |front| && front[i] == c; assert all[i] == c; }
      assert all[|front|] == next;
    }
  }

  lemma LastIsGreatest(front: seq<nat>, next: nat, c: nat)
    requires front != [] && Ascending(front + [next]) && c in front
    ensures c <= front[|front| - 1] <= next
  {
    var all := front + [next];
    var i :| 0 <= i < |front| && front[i] == c;
    assert all[i] == c && all[|front| - 1] == front[|front| - 1] && all[|front|] == next;
    if i < |front| - 1 { assert all[i] <= all[|front| - 1]; }
    assert all[|front| - 1] <= all[|front|];
  }

  lemma RepeatsStep(front: seq<nat>, next: nat)
    requires front != [] && Ascending(front + [next])
    ensures Repeats(front + [next]) == Repeats(front) + (if next == front[|front| - 1] then 1 else 0)
  {
    hide Ascending;
    FramesSnoc(front, next);
    var last, seen := front[|front| - 1], Frames(front);
    LastIsGreatest(front, next, last);
    if next == last {
      assert seen + {next} == seen;
    } else {
      if next in front { LastIsGreatest(front, next, next); }
      assert next !in seen && |seen + {next}| == |seen| + 1;
    }
  }

  lemma TurnStep(front: seq<nat>, next: nat)
    requires front != []
    ensures NoWholeTurn(front + [next])
      <==> NoWholeTurn(front) && (next == front[|front| - 1] || next % 256 != front[|front| - 1] % 256)
  {
    var all := front + [next];
    if NoWholeTurn(all) {
      assert all[|front|] == all[|front| - 1] || all[|front|] % 256 != all[|front| - 1] % 256;
      forall i | 1 <= i < |front| ensures front[i] == front[i - 1] || front[i] % 256 != front[i - 1] % 256 {
        assert all[i] == all[i - 1] || all[i] % 256 != all[i - 1] % 256;
      }
    }
  }

  lemma DuplicatesSnoc(deltas: seq<byte>, delta: byte)
    ensures Duplicates(deltas + [delta]) == Duplicates(deltas) + (if delta == 0 then 1 else 0)
  {
    assert (deltas + [delta])[..|deltas|] == deltas;
  }

  lemma DiffZero(a: byte, b: byte)
    ensures Diff(a, b) == 0 <==> a == b
  {
  }

  lemma DuplicatesStep(front: seq<nat>, next: nat)
    requires front != []
    ensures Duplicates(Steps(Shown(front + [next]))) ==
      Duplicates(Steps(Shown(front))) + (if next % 256 == front[|front| - 1] % 256 then 1 else 0)
  {
    hide Diff, Duplicates, Steps, Shown;
    var shown, was: byte := next % 256, front[|front| - 1] % 256;
    ShownSteps(front, next);
    DuplicatesSnoc(Steps(Shown(front)), Diff(shown, was));
    DiffZero(shown, was);
  }

  /** Reported duplicates are at least the repeated frames, and are exactly those unless some pair of
      samples is a whole number of turns apart. */
  lemma {:induction false} DuplicatesExactIff(counters: seq<nat>)
    requires Ascending(counters)
    ensures Duplicates(Steps(Shown(counters))) >= Repeats(counters)
    ensures Duplicates(Steps(Shown(counters))) == Repeats(counters) <==> NoWholeTurn(counters)
  {
    if |counters| >= 2 {
      var n := |counters| - 1;
      var front, next := counters[..n], counters[n];
      hide Duplicates, Steps, Shown, Repeats, NoWholeTurn;
      assert counters == front + [next];
      DuplicatesExactIff(front);
      RepeatsStep(front, next);
      DuplicatesStep(front, next);
      TurnStep(front, next);
    } else if |counters| == 1 {
      assert Frames(counters) == {counters[0]};
    } else {
      assert Frames(counters) == {};
    }
  }

  /** One more sample is one more step. */
  lemma ShownSteps(front: seq<nat>, next: nat)
    requires front != []
    ensures Steps(Shown(front + [next])) == Steps(Shown(front)) + [Diff(next % 256, front[|front| - 1] % 256)]
  {
    hide Diff;
    var all := Shown(front + [next]);
    assert all == Shown(front) + [next % 256];
    assert all[..|front|] == Shown(front);
  }

  lemma GapsSnoc(deltas: seq<byte>, delta: byte)
    ensures Gaps(deltas + [delta]) == Gaps(deltas) + GapOf(delta)
  {
    assert (deltas + [delta])[..|deltas|] == deltas;
  }

  lemma ShownStep(front: seq<nat>, next: nat)
    requires front != []
    ensures Gaps(Steps(Shown(front + [next]))) ==
      Gaps(Steps(Shown(front))) + (var delta := Diff(next % 256, front[|front| - 1] % 256); GapOf(delta))
  {
    hide Diff, Gaps, GapOf, Steps, Shown;
    ShownSteps(front, next);
    GapsSnoc(Steps(Shown(front)), Diff(next % 256, front[|front| - 1] % 256));
  }

  lemma WrapCost(last: nat, next: nat)
    requires last <= next
    ensures var delta := Diff(next % 256, last % 256);
      && delta == (next - last) % 256
      && GapOf(delta) <= GapOf(next - last)
      && (GapOf(delta) == GapOf(next - last) <==> next < last + 256)
  {
    Shift(next % 256 - last % 256, next / 256 - last / 256);
    assert Diff(next % 256, last % 256) == (next - last) % 256;
  }

  // ------------------------------------------------------------------ percentiles

  predicate Sorted(s: seq<real>) { forall i, j :: 0 <= i <= j < |s| ==> s[i] <= s[j] }

  function Insert(x: real, s: seq<real>): (r: seq<real>)
    ensures |r| == |s| + 1
  {
    if s == [] || x <= s[0] then [x] + s else [s[0]] + Insert(x, s[1..])
  }

  function SortedOf(values: seq<real>): (r: seq<real>)
    ensures |r| == |values|
  {
    if values == [] then [] else Insert(values[0], SortedOf(values[1..]))
  }

  lemma SortedAhead(x: real, s: seq<real>)
    requires Sorted(s) && forall y :: y in s ==> x <= y
    ensures Sorted([x] + s) && multiset([x] + s) == multiset(s) + multiset{x}
  {
    var all := [x] + s;
    forall i, j | 0 <= i <= j < |all| ensures all[i] <= all[j] {
      if i > 0 { assert all[i] == s[i - 1] && all[j] == s[j - 1]; } else if j > 0 { assert all[j] in s; }
    }
  }

  lemma HeadIsLeast(s: seq<real>, y: real)
    requires Sorted(s) && y in s
    ensures s[0] <= y
  {
  }

  lemma {:induction false} InsertSorts(x: real, s: seq<real>)
    requires Sorted(s)
    ensures Sorted(Insert(x, s)) && multiset(Insert(x, s)) == multiset(s) + multiset{x}
  {
    if s == [] || x <= s[0] {
      forall y | y in s ensures x <= y { HeadIsLeast(s, y); }
      SortedAhead(x, s);
    } else {
      Tail(s);
      InsertSorts(x, s[1..]);
      var rest := Insert(x, s[1..]);
      hide Insert;
      InsertedAbove(x, s, rest);
      hide Sorted;
      SortedAhead(s[0], rest);
    }
  }

  lemma InsertedAbove(x: real, s: seq<real>, rest: seq<real>)
    requires Sorted(s) && s != [] && s[0] <= x && multiset(rest) == multiset(s[1..]) + multiset{x}
    ensures forall y :: y in rest ==> s[0] <= y
  {
    forall y | y in rest ensures s[0] <= y {
      assert y in multiset(rest) && (y == x || y in multiset(s[1..]));
      if y in s { HeadIsLeast(s, y); }
    }
  }

  lemma {:induction false} SortSorts(values: seq<real>)
    ensures Sorted(SortedOf(values)) && multiset(SortedOf(values)) == multiset(values)
  {
    if values != [] {
      SortSorts(values[1..]);
      InsertSorts(values[0], SortedOf(values[1..]));
      assert values == [values[0]] + values[1..];
    }
  }

  /** Sorting forgets everything but the values. */
  lemma {:induction false} SortedUnique(a: seq<real>, b: seq<real>)
    requires Sorted(a) && Sorted(b) && multiset(a) == multiset(b)
    ensures a == b
  {
    assert |a| == |multiset(a)| && |b| == |multiset(b)|;
    if a != [] {
      LeastFirst(a, b);
      LeastFirst(b, a);
      Tail(a);
      Tail(b);
      hide Sorted;
      SortedUnique(a[1..], b[1..]);
    }
  }

  lemma LeastFirst(a: seq<real>, b: seq<real>)
    requires Sorted(a) && a != [] && b != [] && multiset(a) == multiset(b)
    ensures a[0] <= b[0]
  {
    assert b[0] in multiset(a);
  }

  lemma Tail(a: seq<real>)
    requires Sorted(a) && a != []
    ensures Sorted(a[1..]) && a == [a[0]] + a[1..] && multiset(a[1..]) == multiset(a) - multiset{a[0]}
  {
  }

  /** Between the two elements around `rank`, linearly. */
  function AtRank(s: seq<real>, rank: real): real
    requires s != [] && 0.0 <= rank <= (|s| - 1) as real
  {
    var lower := rank.Floor;
    var upper := -((-rank).Floor);
    if lower == upper then s[lower]
    else
      var weight := rank - lower as real;
      s[lower] * (1.0 - weight) + s[upper] * weight
  }

  /** `(n - 1) * (pct / 100)`: nothing but its range and its monotony is used below. */
  function Rank(n: nat, pct: real): (rank: real)
    requires n > 0 && 0.0 <= pct <= 100.0
    ensures 0.0 <= rank <= (n - 1) as real
    ensures pct == 0.0 ==> rank == 0.0
    ensures pct == 100.0 ==> rank == (n - 1) as real
  {
    ScaledBetween((n - 1) as real, pct / 100.0);
    Scaled((n - 1) as real, pct / 100.0)
  }

  function Scaled(m: real, v: real): real { m * v }

  lemma Product(m: real, d: real)
    requires 0.0 <= m && 0.0 <= d
    ensures 0.0 <= m * d
  {
  }

  lemma Distribute(m: real, v: real, w: real)
    ensures m * (w - v) == m * w - m * v
  {
  }

  lemma ScaledGrows(m: real, v: real, w: real)
    requires 0.0 <= m && v <= w
    ensures Scaled(m, v) <= Scaled(m, w)
  {
    Product(m, w - v);
    Distribute(m, v, w);
  }

  lemma ScaledEnds(m: real)
    ensures Scaled(m, 0.0) == 0.0 && Scaled(m, 1.0) == m
  {
  }

  lemma ScaledBetween(m: real, v: real)
    requires 0.0 <= m && 0.0 <= v <= 1.0
    ensures 0.0 <= Scaled(m, v) <= m
    ensures v == 0.0 ==> Scaled(m, v) == 0.0
    ensures v == 1.0 ==> Scaled(m, v) == m
  {
    ScaledGrows(m, 0.0, v);
    ScaledGrows(m, v, 1.0);
    ScaledEnds(m);
    hide Scaled;
  }

  lemma RankGrows(n: nat, p: real, q: real)
    requires n > 0 && 0.0 <= p <= q <= 100.0
    ensures Rank(n, p) <= Rank(n, q)
  {
    hide Scaled;
    ScaledGrows((n - 1) as real, p / 100.0, q / 100.0);
  }

  function Percentile(values: seq<real>, pct: real): real
    requires values != [] && 0.0 <= pct <= 100.0
  {
    var s := SortedOf(values);
    if |s| == 1 then s[0] else AtRank(s, Rank(|s|, pct))
  }

  /** On an order statistic the value is that statistic; between two it is on the line through them. */
  lemma LinearBetween(s: seq<real>, k: nat, w: real)
    requires k < |s| && 0.0 <= w < 1.0 && (w > 0.0 ==> k + 1 < |s|)
    ensures AtRank(s, k as real + w) == if w == 0.0 then s[k] else s[k] + (s[k + 1] - s[k]) * w
  {
    var rank := k as real + w;
    assert rank.Floor == k;
    if w > 0.0 {
      assert -((-rank).Floor) == k + 1;
      assert s[k] * (1.0 - w) + s[k + 1] * w == s[k] + (s[k + 1] - s[k]) * w;
    } else {
      assert -((-rank).Floor) == k;
    }
  }

  /** The percentile of the values in order: `n - 1` steps of equal width from the first to the last. */
  lemma PercentileIsLinear(values: seq<real>, sorted: seq<real>, pct: real, k: nat, w: real)
    requires values != [] && 0.0 <= pct <= 100.0
    requires Sorted(sorted) && multiset(sorted) == multiset(values)
    requires 0.0 <= w < 1.0 && k as real + w == (|values| - 1) as real * (pct / 100.0)
    ensures |sorted| == |values| && k < |sorted| && (w > 0.0 ==> k + 1 < |sorted|)
    ensures Percentile(values, pct) == if w == 0.0 then sorted[k] else sorted[k] + (sorted[k + 1] - sorted[k]) * w
  {
    hide SortedOf, AtRank, Sorted;
    SortSorts(values);
    SortedUnique(sorted, SortedOf(values));
    assert |sorted| == |multiset(sorted)| && |values| == |multiset(values)|;
    var rank := Rank(|values|, pct);
    assert rank == k as real + w;
    LinearBetween(sorted, k, w);
  }

  lemma Blend(a: real, b: real, v: real, w: real)
    requires a <= b && 0.0 <= v <= w <= 1.0
    ensures a <= a * (1.0 - v) + b * v <= a * (1.0 - w) + b * w <= b
  {
    assert a * (1.0 - v) + b * v == a + (b - a) * v;
    assert a * (1.0 - w) + b * w == a + (b - a) * w;
  }

  lemma RankNear(s: seq<real>, rank: real)
    requires s != [] && 0.0 <= rank <= (|s| - 1) as real
    requires rank > rank.Floor as real ==> s[rank.Floor] <= s[rank.Floor + 1]
    ensures if rank > rank.Floor as real then s[rank.Floor] <= AtRank(s, rank) <= s[rank.Floor + 1] else AtRank(s, rank) == s[rank.Floor]
  {
    var lower := rank.Floor;
    var w := rank - lower as real;
    LinearBetween(s, lower, w);
    assert lower as real + w == rank;
    hide AtRank;
    var at := AtRank(s, rank);
    if w > 0.0 {
      var a, b := s[lower], s[lower + 1];
      assert at == a + (b - a) * w;
      Part(a, b, w);
      assert a <= at <= b;
    } else {
      assert at == s[lower];
    }
  }

  lemma RankBetween(s: seq<real>, rank: real)
    requires Sorted(s) && s != [] && 0.0 <= rank <= (|s| - 1) as real
    ensures s[rank.Floor] <= AtRank(s, rank)
    ensures forall k :: rank <= k as real && k < |s| ==> AtRank(s, rank) <= s[k]
  {
    hide AtRank;
    RankNear(s, rank);
    forall k: nat | rank <= k as real && k < |s| ensures AtRank(s, rank) <= s[k] { CeilingBelow(rank, k); }
  }

  lemma Part(a: real, b: real, w: real)
    requires a <= b && 0.0 <= w <= 1.0
    ensures a <= a + (b - a) * w <= b
  {
    assert (b - a) - (b - a) * w == (b - a) * (1.0 - w);
    Product(b - a, w);
    Product(b - a, 1.0 - w);
  }

  lemma CeilingBelow(rank: real, k: int)
    requires rank <= k as real
    ensures rank.Floor <= k && (rank > rank.Floor as real ==> rank.Floor + 1 <= k)
  {
  }

  lemma RankMonotone(s: seq<real>, a: real, b: real)
    requires Sorted(s) && s != [] && 0.0 <= a <= b <= (|s| - 1) as real
    ensures AtRank(s, a) <= AtRank(s, b)
  {
    RankBetween(s, a);
    RankBetween(s, b);
    if a <= b.Floor as real {
      assert AtRank(s, a) <= s[b.Floor];
    } else {
      var lower := a.Floor;
      assert lower == b.Floor && -((-a).Floor) == lower + 1 == -((-b).Floor);
      Blend(s[lower], s[lower + 1], a - lower as real, b - lower as real);
    }
  }

  lemma PercentileMonotone(values: seq<real>, p: real, q: real)
    requires values != [] && 0.0 <= p <= q <= 100.0
    ensures Percentile(values, p) <= Percentile(values, q)
  {
    hide SortedOf, Rank, AtRank;
    SortSorts(values);
    RankGrows(|values|, p, q);
    RankMonotone(SortedOf(values), Rank(|values|, p), Rank(|values|, q));
  }

  /** Within the values, reaching the least at 0 and the greatest at 100. */
  lemma PercentileBounded(values: seq<real>, pct: real)
    requires values != [] && 0.0 <= pct <= 100.0
    ensures Percentile(values, 0.0) in values && Percentile(values, 100.0) in values
    ensures forall v :: v in values ==> Percentile(values, 0.0) <= v <= Percentile(values, 100.0)
    ensures Percentile(values, 0.0) <= Percentile(values, pct) <= Percentile(values, 100.0)
  {
    hide SortedOf, Rank;
    PercentileMonotone(values, 0.0, pct);
    PercentileMonotone(values, pct, 100.0);
    SortSorts(values);
    var s := SortedOf(values);
    forall v ensures v in values <==> v in s { assert v in values <==> v in multiset(values); assert v in s <==> v in multiset(s); }
    assert Percentile(values, 0.0) == s[0];
    assert Percentile(values, 100.0) == s[|s| - 1];
  }

  lemma PercentileIgnoresOrder(values: seq<real>, others: seq<real>, pct: real)
    requires values != [] && 0.0 <= pct <= 100.0 && multiset(values) == multiset(others)
    ensures others != [] && Percentile(values, pct) == Percentile(others, pct)
  {
    hide SortedOf, Rank, AtRank, Sorted;
    assert |values| == |multiset(values)| && |others| == |multiset(others)|;
    SortSorts(values);
    SortSorts(others);
    SortedUnique(SortedOf(values), SortedOf(others));
  }
}
