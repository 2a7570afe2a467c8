/** The result cache against a device whose configuration counter is one byte.

    A cached read is two exchanges: the counter (and the lookup, with nothing in between) and, on a
    miss, the value (and the store, with nothing in between). Other tasks and the device itself
    act between the two. A write or menu command and its invalidation are one step, because no
    exchange of another task fits between the reply and the invalidation. */
module ConfigCache {
  import opened Bytes
  import opened Session

  type TaskId = nat

  /** `bumps` is the true number of counter increments; the device reports it modulo 256. */
  datatype Device = Device(bumps: nat, values: map<Key, int>)

  /** A miss that has not fetched its value yet. */
  datatype Miss = Miss(key: Key, counter: byte, readAt: nat)

  /** `pins` remembers, for each entry, the true count at its counter read. */
  datatype World = World(device: Device, cache: Cache, pins: map<Key, nat>, misses: map<TaskId, Miss>)

  datatype Step =
    | DeviceChange(values: map<Key, int>, bumps: nat)
    | ReadCounter(t: TaskId, key: Key)
    | FetchAndStore(t: TaskId)
    | FetchFails(t: TaskId)
    | WriteParameter(key: Key, value: int, bumps: nat, acked: bool)
    | Menu(values: map<Key, int>, bumps: nat, acked: bool)

  function ValueAt(d: Device, key: Key): int { if key in d.values then d.values[key] else 0 }
  function CounterOf(d: Device): byte { d.bumps % 256 }

  function Advance(d: Device, values: map<Key, int>, bumps: nat): Device { Device(d.bumps + bumps, values) }

  predicate Enabled(w: World, step: Step) {
    (step.FetchAndStore? || step.FetchFails?) ==> step.t in w.misses
  }

  function Do(w: World, step: Step): World
    requires Enabled(w, step)
  {
    match step
    case DeviceChange(values, bumps) => w.(device := Advance(w.device, values, bumps))
    case ReadCounter(t, key) =>
      if Lookup(w.cache, key, CounterOf(w.device)).Some? then w
      else w.(misses := w.misses[t := Miss(key, CounterOf(w.device), w.device.bumps)])
    case FetchAndStore(t) =>
      var m := w.misses[t];
      w.(cache := w.cache[m.key := (m.counter, ValueAt(w.device, m.key))],
         pins := w.pins[m.key := m.readAt], misses := w.misses - {t})
    case FetchFails(t) => w.(misses := w.misses - {t})
    case WriteParameter(key, value, bumps, acked) =>
      w.(device := Advance(w.device, w.device.values[key := value], bumps),
         cache := if acked then w.cache - {key} else w.cache)
    case Menu(values, bumps, acked) =>
      w.(device := Advance(w.device, values, bumps), cache := if acked then map[] else w.cache)
  }

  /** Every change either bumps the counter or goes through a facade call that acked normally. */
  predicate Honest(step: Step) {
    match step
    case DeviceChange(_, bumps) => bumps > 0
    case WriteParameter(_, _, bumps, acked) => acked || bumps > 0
    case Menu(_, bumps, acked) => acked || bumps > 0
    case _ => true
  }

  predicate ValidRun(w: World, steps: seq<Step>)
    decreases |steps|
  {
    steps == [] || (Enabled(w, steps[0]) && ValidRun(Do(w, steps[0]), steps[1..]))
  }

  function Final(w: World, steps: seq<Step>): World
    requires ValidRun(w, steps)
    decreases |steps|
  {
    if steps == [] then w else Final(Do(w, steps[0]), steps[1..])
  }

  predicate Fresh(w: World) { w.cache == map[] && w.misses == map[] }

  ghost predicate Inv(w: World) {
    && (forall k :: k in w.cache ==> EntryInv(w, k))
    && (forall t :: t in w.misses ==> w.misses[t].readAt <= w.device.bumps && w.misses[t].counter == w.misses[t].readAt % 256)
  }

  predicate EntryInv(w: World, k: Key)
    requires k in w.cache
  {
    && k in w.pins && w.pins[k] <= w.device.bumps
    && w.cache[k].0 == w.pins[k] % 256
    && (w.pins[k] == w.device.bumps ==> w.cache[k].1 == ValueAt(w.device, k))
  }

  lemma InvKept(w: World, step: Step)
    requires Inv(w) && Enabled(w, step) && Honest(step)
    ensures Inv(Do(w, step))
  {
  }

  lemma {:induction false} InvAlways(w: World, steps: seq<Step>)
    requires Inv(w) && ValidRun(w, steps) && forall i :: 0 <= i < |steps| ==> Honest(steps[i])
    ensures Inv(Final(w, steps))
    decreases |steps|
  {
    if steps != [] {
      InvKept(w, steps[0]);
      InvAlways(Do(w, steps[0]), steps[1..]);
    }
  }

  /** Coherence: over any interleaving of honest steps, a hit answers with the value the device
      holds at the moment its counter is read, as long as the counter has not gone all the way
      round since the entry's own counter read. */
  lemma HitsAreCurrent(w: World, steps: seq<Step>, key: Key)
    requires Fresh(w) && ValidRun(w, steps) && forall i :: 0 <= i < |steps| ==> Honest(steps[i])
    ensures var last := Final(w, steps);
      var hit := Lookup(last.cache, key, CounterOf(last.device));
      hit.Some? ==>
        && key in last.pins && last.pins[key] <= last.device.bumps
        && (last.device.bumps - last.pins[key] < 256 ==> hit.value == ValueAt(last.device, key))
  {
    InvAlways(w, steps);
    var last := Final(w, steps);
    if Lookup(last.cache, key, CounterOf(last.device)).Some? {
      assert EntryInv(last, key);
      SameResidue(last.pins[key], last.device.bumps);
    }
  }

  lemma SameResidue(a: nat, b: nat)
    requires a <= b && a % 256 == b % 256
    ensures b - a < 256 ==> a == b
  {
  }

  // ------------------------------------------------------------------ where the hypotheses bite

  const P: Key := Parameter(13)

  /** A world in which parameter 13 was read and cached as 7. */
  function Cached(): World {
    World(Device(5, map[P := 7]), map[P := (5, 7)], map[P := 5], map[])
  }

  lemma CachedIsReachable()
    ensures var w := World(Device(5, map[P := 7]), map[], map[], map[]);
      var steps := [ReadCounter(0, P), FetchAndStore(0)];
      Fresh(w) && ValidRun(w, steps) && Final(w, steps) == Cached()
  {
    var w := World(Device(5, map[P := 7]), map[], map[], map[]);
    var steps := [ReadCounter(0, P), FetchAndStore(0)];
    var w1 := Do(w, ReadCounter(0, P));
    assert steps[1..] == [FetchAndStore(0)] && steps[1..][1..] == [];
    assert w1.misses == map[0 := Miss(P, 5, 5)];
    var w2 := Do(w1, FetchAndStore(0));
    assert w2.misses == map[] && w2 == Cached();
    assert ValidRun(w2, []) && Final(w2, []) == w2;
    assert Final(w1, steps[1..]) == Final(w2, []);
  }

  /** The entry of `key` answers for the present counter, with the present value. */
  predicate Current(w: World, key: Key) {
    key in w.cache && w.cache[key] == (CounterOf(w.device), ValueAt(w.device, key))
  }

  /** The next lookup of `key` hits, with a value the device no longer holds. */
  predicate Stale(w: World, key: Key) {
    var hit := Lookup(w.cache, key, CounterOf(w.device));
    hit.Some? && hit.value != ValueAt(w.device, key)
  }

  /** The step neither drops nor replaces the entry of `key`. */
  predicate Spares(w: World, step: Step, key: Key)
    requires Enabled(w, step)
  {
    match step
    case WriteParameter(k, _, _, acked) => !(acked && k == key)
    case Menu(_, _, acked) => !acked
    case FetchAndStore(t) => w.misses[t].key != key
    case _ => true
  }

  predicate RunSpares(w: World, steps: seq<Step>, key: Key)
    requires ValidRun(w, steps)
    decreases |steps|
  {
    steps == [] || (Spares(w, steps[0], key) && RunSpares(Do(w, steps[0]), steps[1..], key))
  }

  /** What one step must be to turn a current entry stale, for each kind of step. */
  predicate Hides(w: World, step: Step, key: Key) {
    match step
    case DeviceChange(values, bumps) => bumps % 256 == 0 && ValueAt(Device(0, values), key) != ValueAt(w.device, key)
    case WriteParameter(k, value, bumps, acked) => k == key && !acked && bumps % 256 == 0 && value != ValueAt(w.device, key)
    case Menu(values, bumps, acked) => !acked && bumps % 256 == 0 && ValueAt(Device(0, values), key) != ValueAt(w.device, key)
    case _ => false
  }

  lemma SameCounter(d: Device, values: map<Key, int>, bumps: nat)
    ensures CounterOf(Advance(d, values, bumps)) == CounterOf(d) <==> bumps % 256 == 0
  {
  }

  lemma StaleByDevice(w: World, values: map<Key, int>, bumps: nat, key: Key)
    requires Current(w, key)
    ensures Stale(Do(w, DeviceChange(values, bumps)), key) <==> Hides(w, DeviceChange(values, bumps), key)
  {
    hide CounterOf, Advance;
    SameCounter(w.device, values, bumps);
    AdvanceValues(w.device, values, bumps, key);
  }

  lemma AdvanceValues(d: Device, values: map<Key, int>, bumps: nat, key: Key)
    ensures ValueAt(Advance(d, values, bumps), key) == ValueAt(Device(0, values), key)
  {
  }

  lemma StaleByWrite(w: World, k: Key, value: int, bumps: nat, acked: bool, key: Key)
    requires Current(w, key)
    ensures Stale(Do(w, WriteParameter(k, value, bumps, acked)), key) <==> Hides(w, WriteParameter(k, value, bumps, acked), key)
  {
    hide CounterOf, Advance;
    SameCounter(w.device, w.device.values[k := value], bumps);
    AdvanceValues(w.device, w.device.values[k := value], bumps, key);
  }

  lemma StaleByMenu(w: World, values: map<Key, int>, bumps: nat, acked: bool, key: Key)
    requires Current(w, key)
    ensures Stale(Do(w, Menu(values, bumps, acked)), key) <==> Hides(w, Menu(values, bumps, acked), key)
  {
    hide CounterOf, Advance;
    SameCounter(w.device, values, bumps);
    AdvanceValues(w.device, values, bumps, key);
  }

  lemma FreshByRead(w: World, step: Step, key: Key)
    requires Current(w, key) && Enabled(w, step)
    requires step.ReadCounter? || step.FetchAndStore? || step.FetchFails?
    ensures !Stale(Do(w, step), key)
  {
    hide CounterOf, ValueAt;
  }

  /** A current entry goes stale in one step exactly when the value changes while the one-byte
      counter shows the same and no acknowledged call drops the entry. */
  lemma StaleIff(w: World, step: Step, key: Key)
    requires Current(w, key) && Enabled(w, step)
    ensures Stale(Do(w, step), key) <==> Hides(w, step, key)
  {
    match step
    case DeviceChange(values, bumps) => StaleByDevice(w, values, bumps, key);
    case WriteParameter(k, value, bumps, acked) => StaleByWrite(w, k, value, bumps, acked, key);
    case Menu(values, bumps, acked) => StaleByMenu(w, values, bumps, acked, key);
    case _ => FreshByRead(w, step, key);
    hide Do, Stale, Current;
  }

  /** Over any run, honest or not, that spares a current entry: the next lookup answers a wrong value
      exactly when the value changed and the counter moved by a multiple of 256. */
  lemma StaleAfterRunIff(w: World, steps: seq<Step>, key: Key)
    requires Current(w, key) && ValidRun(w, steps) && RunSpares(w, steps, key)
    ensures var last := Final(w, steps);
      && last.device.bumps >= w.device.bumps
      && (Stale(last, key) <==>
            (last.device.bumps - w.device.bumps) % 256 == 0 && ValueAt(last.device, key) != ValueAt(w.device, key))
  {
    SparedEntryStays(w, steps, key);
  }

  lemma {:induction false} SparedEntryStays(w: World, steps: seq<Step>, key: Key)
    requires key in w.cache && ValidRun(w, steps) && RunSpares(w, steps, key)
    ensures var last := Final(w, steps);
      key in last.cache && last.cache[key] == w.cache[key] && last.device.bumps >= w.device.bumps
    decreases |steps|
  {
    if steps != [] { SparedEntryStays(Do(w, steps[0]), steps[1..], key); }
  }

  /** Concrete inputs for the three ways: after a full turn of the counter, after a non-bumping write that
      did not return normally, and after a non-bumping change behind the facade's back, the next
      lookup hits and answers 7 although the device holds 8. */
  lemma StaleHits(step: Step)
    requires step in {DeviceChange(map[P := 8], 256), WriteParameter(P, 8, 0, false), DeviceChange(map[P := 8], 0)}
    ensures var w := Do(Cached(), step);
      Lookup(w.cache, P, CounterOf(w.device)) == Some(7) && ValueAt(w.device, P) == 8
  {
  }

  /** The write path the documentation worries about is fine: a write that acked normally is
      never answered from before it, whether or not it bumped the counter. */
  lemma WriteIsNotHidden(w: World, key: Key, value: int, bumps: nat)
    ensures var w' := Do(w, WriteParameter(key, value, bumps, true));
      Lookup(w'.cache, key, CounterOf(w'.device)).None? && ValueAt(w'.device, key) == value
  {
  }
}
