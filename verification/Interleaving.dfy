/** Caller tasks and protocol reconfiguration interleaving on one transport.

    Every client has its own lock. A caller captures the session's client when it passes the
    gates, waits for that client's lock, and only then checks whether the client was retired. A
    reconfiguration captures the old client, waits for its lock, reopens the transport, probes it
    through a new client under the new client's lock, and installs that client. */
module Interleaving {

  type TaskId = nat
  type ClientId = nat

  datatype Activity =
    | Idle
    | Queued(c: ClientId, gated: bool)   // waiting for the lock of the captured client
    | Entered(c: ClientId, gated: bool)  // holds it, has not looked at the disposal flag yet
    | Exchanging(c: ClientId)
    | ConfigQueued(c: ClientId)
    | Switching(c: ClientId)             // draining and reopening
    | Probing(c: ClientId, probe: ClientId)
    | RollingBack(c: ClientId)

  datatype Write = Write(task: TaskId, client: ClientId)

  /** `gated` calls go through `execute` and write; the others only listen. `tracked` says
      whether the session knows the framing to roll back to. */
  datatype System = System(
    tasks: map<TaskId, Activity>,
    locks: map<ClientId, TaskId>,
    disposed: set<ClientId>,
    current: ClientId,
    next: ClientId,
    broken: bool,
    open: bool,
    tracked: bool,
    sent: seq<Write>)

  datatype Step =
    | StartCall(t: TaskId, gated: bool)
    | Acquire(t: TaskId)
    | Proceed(t: TaskId)
    | Finish(t: TaskId)
    | StartConfig(t: TaskId)
    | Reopen(t: TaskId, ok: bool, probeWrites: bool)
    | Probe(t: TaskId, ok: bool)
    | RollBack(t: TaskId, ok: bool)

  predicate Enabled(s: System, step: Step) {
    step.t in s.tasks &&
    var a := s.tasks[step.t];
    match step
    case StartCall(_, gated) => a.Idle? && (gated ==> !s.broken)
    case Acquire(_) => (a.Queued? || a.ConfigQueued?) && a.c !in s.locks
    case Proceed(_) => a.Entered?
    case Finish(_) => a.Exchanging?
    case StartConfig(_) => a.Idle? && !s.broken
    case Reopen(_, _, _) => a.Switching?
    case Probe(_, _) => a.Probing?
    case RollBack(_, _) => a.RollingBack?
  }

  function Become(s: System, t: TaskId, a: Activity): System { s.(tasks := s.tasks[t := a]) }
  function Release(s: System, c: ClientId): System { s.(locks := s.locks - {c}) }

  function Do(s: System, step: Step): System
    requires Enabled(s, step)
  {
    var t := step.t;
    var a := s.tasks[t];
    match step
    case StartCall(_, gated) => Become(s, t, Queued(s.current, gated))
    case Acquire(_) =>
      Become(s, t, if a.Queued? then Entered(a.c, a.gated) else Switching(a.c)).(locks := s.locks[a.c := t])
    case Proceed(_) =>
      if a.c in s.disposed then Release(Become(s, t, Idle), a.c)
      else Become(s, t, Exchanging(a.c)).(sent := s.sent + (if a.gated && s.open then [Write(t, a.c)] else []))
    case Finish(_) => Release(Become(s, t, Idle), a.c)
    case StartConfig(_) => Become(s, t, ConfigQueued(s.current))
    case Reopen(_, ok, probeWrites) =>
      if ok then
        Become(s, t, Probing(a.c, s.next)).(
          open := true, next := s.next + 1, locks := s.locks[s.next := t],
          sent := s.sent + (if probeWrites then [Write(t, s.next)] else []))
      else Become(s, t, RollingBack(a.c)).(open := false)
    case Probe(_, ok) =>
      if ok then
        Release(Release(Become(s, t, Idle), a.c), a.probe).(current := a.probe, disposed := s.disposed + {a.c})
      else Release(Become(s, t, RollingBack(a.c)), a.probe)
    case RollBack(_, ok) =>
      var s' := Release(Become(s, t, Idle), a.c);
      if !s.tracked then s'.(broken := true)
      else if ok then s'.(open := true)
      else s'.(broken := true, open := false)
  }

  predicate Initial(s: System) {
    && (forall t :: t in s.tasks ==> s.tasks[t] == Idle)
    && s.locks == map[] && s.disposed == {} && s.current < s.next && !s.broken && s.open && s.sent == []
  }

  predicate InConfig(a: Activity) { a.ConfigQueued? || a.Switching? || a.Probing? || a.RollingBack? }

  predicate OneConfigAtMost(s: System) {
    forall t, u :: t in s.tasks && u in s.tasks && InConfig(s.tasks[t]) && InConfig(s.tasks[u]) ==> t == u
  }

  predicate UsesTransport(a: Activity) { a.Exchanging? || a.Switching? || a.Probing? || a.RollingBack? }

  predicate OneUserAtMost(s: System) {
    forall t, u :: t in s.tasks && u in s.tasks && UsesTransport(s.tasks[t]) && UsesTransport(s.tasks[u]) ==> t == u
  }

  /** `steps` can be taken from `s` in this order; with `single`, at most one reconfiguration is
      in flight after each of them. */
  predicate ValidRun(s: System, steps: seq<Step>, single: bool)
    decreases |steps|
  {
    steps == [] ||
    (Enabled(s, steps[0]) && (single ==> OneConfigAtMost(Do(s, steps[0]))) && ValidRun(Do(s, steps[0]), steps[1..], single))
  }

  function Final(s: System, steps: seq<Step>): System
    requires ValidRun(s, steps, false)
    decreases |steps|
  {
    if steps == [] then s else Final(Do(s, steps[0]), steps[1..])
  }

  // ------------------------------------------------------------------ the invariant

  predicate Holds(a: Activity, c: ClientId) {
    (a.Entered? || UsesTransport(a)) && (a.c == c || (a.Probing? && a.probe == c))
  }

  ghost predicate Inv(s: System) {
    Ids(s) && LocksSound(s) && LocksComplete(s) && TasksInv(s)
  }

  predicate Ids(s: System) {
    s.current < s.next && s.current !in s.disposed
    && (forall c :: c in s.disposed ==> c < s.next) && (forall c :: c in s.locks ==> c < s.next)
  }

  predicate LocksSound(s: System) {
    forall c :: c in s.locks ==> s.locks[c] in s.tasks && Holds(s.tasks[s.locks[c]], c)
  }

  /** Every lock a task needs to hold is recorded as its own. */
  predicate LocksComplete(s: System) {
    forall t :: t in s.tasks ==> Owns(s, t, s.tasks[t])
  }

  predicate Owns(s: System, t: TaskId, a: Activity) {
    (a.Entered? || UsesTransport(a) ==> a.c in s.locks && s.locks[a.c] == t)
    && (a.Probing? ==> a.probe in s.locks && s.locks[a.probe] == t)
  }

  predicate TasksInv(s: System) {
    forall t :: t in s.tasks ==> TaskInv(s, s.tasks[t])
  }

  predicate BrokenInv(s: System) {
    s.broken && s.tracked ==> !s.open && forall t :: t in s.tasks ==> !InConfig(s.tasks[t])
  }

  /** Who may be talking to which client. */
  predicate TaskInv(s: System, a: Activity) {
    match a
    case Idle => true
    case Queued(c, _) => c == s.current || c in s.disposed
    case Entered(c, _) => c == s.current || c in s.disposed
    case Exchanging(c) => c == s.current
    case ConfigQueued(c) => c == s.current || c in s.disposed
    case Switching(c) => c == s.current
    case Probing(c, probe) => c == s.current && probe < s.next && probe != c && probe !in s.disposed
    case RollingBack(c) => c == s.current
  }

  /** The missing guard: a reconfiguration takes the lock of a client that was retired while it waited. */
  predicate Late(s: System, step: Step) {
    step.Acquire? && step.t in s.tasks && s.tasks[step.t].ConfigQueued? && s.tasks[step.t].c in s.disposed
  }

  predicate NoLate(s: System, steps: seq<Step>)
    requires ValidRun(s, steps, false)
    decreases |steps|
  {
    steps == [] || (!Late(s, steps[0]) && NoLate(Do(s, steps[0]), steps[1..]))
  }

  /** What a step does to the locks: the acting task gains only free ones, loses only its own, and
      ends up with those it holds. */
  predicate LockMoves(s: System, t: TaskId, s': System, c: ClientId)
    requires t in s.tasks && t in s'.tasks
  {
    && (Holds(s'.tasks[t], c) ==> c in s'.locks && s'.locks[c] == t)
    && (Holds(s'.tasks[t], c) && !Holds(s.tasks[t], c) ==> c !in s.locks)
    && (Holds(s.tasks[t], c) && !Holds(s'.tasks[t], c) ==> c !in s'.locks)
    && (!Holds(s.tasks[t], c) && !Holds(s'.tasks[t], c) ==>
          (c in s'.locks <==> c in s.locks) && (c in s.locks ==> s'.locks[c] == s.locks[c]))
  }

  lemma CallMovesLocks(s: System, step: Step, c: ClientId)
    requires Enabled(s, step) && Owns(s, step.t, s.tasks[step.t]) && Ids(s)
    requires TaskInv(s, s.tasks[step.t])
    requires step.StartCall? || step.Acquire? || step.Proceed? || step.Finish?
    ensures LockMoves(s, step.t, Do(s, step), c)
  {
  }

  lemma SwitchMovesLocks(s: System, step: Step, c: ClientId)
    requires Enabled(s, step) && Owns(s, step.t, s.tasks[step.t]) && Ids(s)
    requires TaskInv(s, s.tasks[step.t])
    requires step.StartConfig? || step.Reopen?
    ensures LockMoves(s, step.t, Do(s, step), c)
  {
  }

  lemma ProbeMovesLocks(s: System, step: Step, c: ClientId)
    requires Enabled(s, step) && Owns(s, step.t, s.tasks[step.t]) && Ids(s)
    requires TaskInv(s, s.tasks[step.t])
    requires step.Probe? || step.RollBack?
    ensures LockMoves(s, step.t, Do(s, step), c)
  {
  }

  lemma LockEffect(s: System, step: Step, c: ClientId)
    requires Enabled(s, step) && Owns(s, step.t, s.tasks[step.t]) && Ids(s)
    requires TaskInv(s, s.tasks[step.t])
    ensures step.t in Do(s, step).tasks && LockMoves(s, step.t, Do(s, step), c)
  {
    hide LockMoves;
    if step.StartCall? || step.Acquire? || step.Proceed? || step.Finish? {
      CallMovesLocks(s, step, c);
    } else if step.StartConfig? || step.Reopen? {
      SwitchMovesLocks(s, step, c);
    } else {
      ProbeMovesLocks(s, step, c);
    }
  }

  lemma OthersUntouched(s: System, step: Step)
    requires Enabled(s, step)
    ensures Do(s, step).tasks.Keys == s.tasks.Keys
    ensures forall u :: u in s.tasks && u != step.t ==> Do(s, step).tasks[u] == s.tasks[u]
  {
  }

  lemma LocksStaySound(s: System, step: Step)
    requires Inv(s) && Enabled(s, step)
    ensures LocksSound(Do(s, step))
  {
    hide Do;
    var t, s' := step.t, Do(s, step);
    OthersUntouched(s, step);
    assert Owns(s, t, s.tasks[t]) && TaskInv(s, s.tasks[t]);
    forall c | c in s'.locks ensures s'.locks[c] in s'.tasks && Holds(s'.tasks[s'.locks[c]], c) {
      LockEffect(s, step, c);
    }
  }

  lemma LocksStayComplete(s: System, step: Step)
    requires Inv(s) && Enabled(s, step)
    ensures LocksComplete(Do(s, step))
  {
    hide Do;
    var t, s' := step.t, Do(s, step);
    OthersUntouched(s, step);
    assert Owns(s, t, s.tasks[t]) && TaskInv(s, s.tasks[t]);
    forall u | u in s'.tasks ensures Owns(s', u, s'.tasks[u]) {
      assert Owns(s, u, s.tasks[u]);
      var a := s'.tasks[u];
      if !a.Idle? { LockEffect(s, step, a.c); }
      if a.Probing? { LockEffect(s, step, a.probe); }
    }
  }

  lemma IdsStay(s: System, step: Step)
    requires Inv(s) && Enabled(s, step)
    ensures Ids(Do(s, step))
  {
    assert Owns(s, step.t, s.tasks[step.t]) && TaskInv(s, s.tasks[step.t]);
  }

  lemma OwnTaskKept(s: System, step: Step)
    requires Ids(s) && Enabled(s, step) && !Late(s, step) && Owns(s, step.t, s.tasks[step.t]) && TaskInv(s, s.tasks[step.t])
    ensures TaskInv(Do(s, step), Do(s, step).tasks[step.t])
  {
  }

  /** Nobody else's client changes standing unless a reconfiguration ends, and then no other is past
      the lock. */
  lemma OtherTaskKept(s: System, step: Step, a: Activity)
    requires Ids(s) && Enabled(s, step) && Owns(s, step.t, s.tasks[step.t]) && TaskInv(s, s.tasks[step.t])
    requires TaskInv(s, a) && (UsesTransport(a) && UsesTransport(s.tasks[step.t]) ==> a.c != s.tasks[step.t].c)
    ensures TaskInv(Do(s, step), a)
  {
  }

  lemma TasksKept(s: System, step: Step)
    requires Inv(s) && Enabled(s, step) && !Late(s, step)
    ensures TasksInv(Do(s, step))
  {
    hide Do, TaskInv, Ids;
    var t, s' := step.t, Do(s, step);
    OthersUntouched(s, step);
    assert Owns(s, t, s.tasks[t]) && TaskInv(s, s.tasks[t]);
    forall u | u in s'.tasks ensures TaskInv(s', s'.tasks[u]) {
      assert Owns(s, u, s.tasks[u]) && TaskInv(s, s.tasks[u]);
      if u == t { OwnTaskKept(s, step); } else { OtherTaskKept(s, step, s.tasks[u]); }
    }
  }

  lemma InvKept(s: System, step: Step)
    requires Inv(s) && Enabled(s, step) && !Late(s, step)
    ensures Inv(Do(s, step))
  {
    hide Do, Late;
    IdsStay(s, step);
    LocksStaySound(s, step);
    LocksStayComplete(s, step);
    TasksKept(s, step);
  }

  lemma {:induction false} InvAlways(s: System, steps: seq<Step>)
    requires Inv(s) && ValidRun(s, steps, false) && NoLate(s, steps)
    ensures Inv(Final(s, steps))
    decreases |steps|
  {
    hide Inv, Do, Late;
    if steps != [] {
      InvKept(s, steps[0]);
      InvAlways(Do(s, steps[0]), steps[1..]);
    }
  }

  // ------------------------------------------------------------------ without overlap

  /** At most one reconfiguration in flight: it waits for the client in use, and BROKEN ends it. */
  ghost predicate SingleInv(s: System) {
    Inv(s) && OneConfigAtMost(s) && WaitsForCurrent(s) && BrokenInv(s)
  }

  predicate WaitsForCurrent(s: System) {
    forall t :: t in s.tasks && s.tasks[t].ConfigQueued? ==> s.tasks[t].c == s.current
  }

  lemma SingleKept(s: System, step: Step)
    requires SingleInv(s) && Enabled(s, step) && OneConfigAtMost(Do(s, step))
    ensures !Late(s, step) && SingleInv(Do(s, step))
  {
    assert !Late(s, step);
    InvKept(s, step);
    WaitKept(s, step);
    BrokenKept(s, step);
  }

  lemma CurrentMoves(s: System, step: Step)
    requires Enabled(s, step)
    ensures Do(s, step).current != s.current ==> InConfig(s.tasks[step.t])
    ensures Do(s, step).tasks[step.t].ConfigQueued? ==> Do(s, step).tasks[step.t].c == Do(s, step).current
  {
  }

  lemma WaitKept(s: System, step: Step)
    requires OneConfigAtMost(s) && WaitsForCurrent(s) && Enabled(s, step)
    ensures WaitsForCurrent(Do(s, step))
  {
    hide Do;
    OthersUntouched(s, step);
    CurrentMoves(s, step);
  }

  lemma BrokenKept(s: System, step: Step)
    requires OneConfigAtMost(s) && BrokenInv(s) && Enabled(s, step)
    ensures BrokenInv(Do(s, step))
  {
    OthersUntouched(s, step);
  }

  lemma {:induction false} SingleAlways(s: System, steps: seq<Step>)
    requires SingleInv(s) && ValidRun(s, steps, true)
    ensures ValidRun(s, steps, false) && NoLate(s, steps) && SingleInv(Final(s, steps))
    decreases |steps|
  {
    hide SingleInv, Do, Late, OneConfigAtMost;
    if steps != [] {
      SingleKept(s, steps[0]);
      SingleAlways(Do(s, steps[0]), steps[1..]);
    }
  }

  // ------------------------------------------------------------------ safety

  lemma OneUser(s: System)
    requires Inv(s)
    ensures OneUserAtMost(s)
  {
    forall t, u | t in s.tasks && u in s.tasks && UsesTransport(s.tasks[t]) && UsesTransport(s.tasks[u]) ensures t == u {
      assert Owns(s, t, s.tasks[t]) && Owns(s, u, s.tasks[u]);
      assert TaskInv(s, s.tasks[t]) && TaskInv(s, s.tasks[u]);
    }
  }

  /** However many reconfigurations overlap: as long as none takes the lock of a client retired while
      it waited, at most one task is ever using the transport. */
  lemma ExclusiveUnlessLate(s: System, steps: seq<Step>)
    requires Initial(s) && ValidRun(s, steps, false) && NoLate(s, steps)
    ensures OneUserAtMost(Final(s, steps))
  {
    InvAlways(s, steps);
    OneUser(Final(s, steps));
  }

  /** Two locks or not: with at most one reconfiguration in flight, at most one task is ever using
      the transport. */
  lemma SingleInFlight(s: System, steps: seq<Step>)
    requires Initial(s) && ValidRun(s, steps, true)
    ensures ValidRun(s, steps, false) && NoLate(s, steps) && OneUserAtMost(Final(s, steps))
  {
    SingleAlways(s, steps);
    OneUser(Final(s, steps));
  }

  function WritesBy(sent: seq<Write>, c: ClientId): seq<Write> {
    if sent == [] then []
    else (if sent[0].client == c then [sent[0]] else []) + WritesBy(sent[1..], c)
  }

  lemma {:induction false} WritesByAppend(a: seq<Write>, b: seq<Write>, c: ClientId)
    ensures WritesBy(a + b, c) == WritesBy(a, c) + WritesBy(b, c)
  {
    if a == [] {
      assert a + b == b && [] + WritesBy(b, c) == WritesBy(b, c);
    } else {
      assert (a + b)[1..] == a[1..] + b && (a + b)[0] == a[0];
      WritesByAppend(a[1..], b, c);
      var first := if a[0].client == c then [a[0]] else [];
      assert first + (WritesBy(a[1..], c) + WritesBy(b, c)) == (first + WritesBy(a[1..], c)) + WritesBy(b, c);
    }
  }

  predicate FreshIds(s: System) {
    s.current < s.next && (forall c :: c in s.disposed ==> c < s.next)
    && forall t :: t in s.tasks ==> FreshTask(s.tasks[t], s.next)
  }

  predicate FreshTask(a: Activity, next: ClientId) { !a.Idle? ==> a.c < next && (a.Probing? ==> a.probe < next) }

  lemma OwnTaskFresh(s: System, step: Step)
    requires Enabled(s, step) && FreshTask(s.tasks[step.t], s.next) && s.current < s.next && (forall c :: c in s.disposed ==> c < s.next)
    ensures var s' := Do(s, step);
      && FreshTask(s'.tasks[step.t], s'.next) && s.next <= s'.next && s'.current < s'.next
      && (forall c :: c in s'.disposed ==> c < s'.next)
  {
  }

  lemma StepKeepsFresh(s: System, step: Step)
    requires FreshIds(s) && Enabled(s, step)
    ensures FreshIds(Do(s, step))
  {
    hide Do;
    OwnTaskFresh(s, step);
    OthersUntouched(s, step);
  }

  lemma StepKeepsRetired(s: System, step: Step, c: ClientId)
    requires FreshIds(s) && Enabled(s, step) && c in s.disposed
    ensures c in Do(s, step).disposed && WritesBy(Do(s, step).sent, c) == WritesBy(s.sent, c)
  {
    hide WritesBy;
    var s' := Do(s, step);
    if s'.sent != s.sent {
      var w := s'.sent[|s.sent|];
      assert s'.sent == s.sent + [w];
      WritesByAppend(s.sent, [w], c);
      assert w.client != c;
      OneWrite(w, c);
    }
  }

  lemma OneWrite(w: Write, c: ClientId)
    ensures WritesBy([w], c) == if w.client == c then [w] else []
  {
  }

  /** A retired client never writes again, whoever was already queued on its lock and however many
      reconfigurations overlap. */
  lemma {:induction false} RetiredNeverWrites(s: System, steps: seq<Step>, c: ClientId)
    requires FreshIds(s) && ValidRun(s, steps, false) && c in s.disposed
    ensures var last := Final(s, steps); c in last.disposed && WritesBy(last.sent, c) == WritesBy(s.sent, c)
    decreases |steps|
  {
    hide Do, FreshIds, WritesBy;
    if steps != [] {
      StepKeepsFresh(s, steps[0]);
      StepKeepsRetired(s, steps[0], c);
      RetiredNeverWrites(Do(s, steps[0]), steps[1..], c);
    }
  }

  /** From any reachable state: the same, stated from the start of the run. */
  lemma RetiredNeverWritesFromStart(s: System, before: seq<Step>, after: seq<Step>, c: ClientId)
    requires Initial(s) && ValidRun(s, before, false) && ValidRun(Final(s, before), after, false)
    requires c in Final(s, before).disposed
    ensures WritesBy(Final(Final(s, before), after).sent, c) == WritesBy(Final(s, before).sent, c)
  {
    FreshAlways(s, before);
    RetiredNeverWrites(Final(s, before), after, c);
  }

  lemma {:induction false} FreshAlways(s: System, steps: seq<Step>)
    requires FreshIds(s) && ValidRun(s, steps, false)
    ensures FreshIds(Final(s, steps))
    decreases |steps|
  {
    hide Do, FreshIds;
    if steps != [] {
      StepKeepsFresh(s, steps[0]);
      FreshAlways(Do(s, steps[0]), steps[1..]);
    }
  }

  /** Without overlap BROKEN is absorbing, and when the session knew the framing to roll back to, not
      one more byte goes out, not even for callers that were already past the gate. */
  lemma {:induction false} BrokenIsSilent(s: System, steps: seq<Step>)
    requires SingleInv(s) && s.broken && ValidRun(s, steps, true)
    ensures ValidRun(s, steps, false)
    ensures Final(s, steps).broken
    ensures s.tracked ==> Final(s, steps).sent == s.sent
    decreases |steps|
  {
    hide Inv, OneConfigAtMost;
    if steps != [] {
      SingleKept(s, steps[0]);
      BrokenIsSilent(Do(s, steps[0]), steps[1..]);
    }
  }

  // ------------------------------------------------------------------ where the hypotheses bite

  const TWO_TASKS := System(map[0 := Idle, 1 := Idle], map[], {}, 0, 1, false, true, true, [])

  lemma RunCons(s: System, step: Step, rest: seq<Step>, single: bool)
    requires Enabled(s, step) && (single ==> OneConfigAtMost(Do(s, step)))
    requires ValidRun(Do(s, step), rest, false) && ValidRun(Do(s, step), rest, single)
    ensures ValidRun(s, [step] + rest, single) && ValidRun(s, [step] + rest, false)
    ensures Final(s, [step] + rest) == Final(Do(s, step), rest)
  {
    assert ([step] + rest)[1..] == rest;
  }

  /** Two overlapping reconfigurations: both captured client 0; the second takes its lock after it
      was retired and reopens the transport under an exchange on client 1. */
  lemma OverlappingReconfigurationsCollide()
    ensures exists s, steps :: Initial(s) && ValidRun(s, steps, false) && !OneUserAtMost(Final(s, steps))
  {
    hide ValidRun, Final, OneUserAtMost;
    var s0 := TWO_TASKS.(tasks := map[0 := Idle, 1 := Idle, 2 := Idle]);
    var rest := SwitchUnderWaiter();
    assert Initial(s0);
    assert BOTH_CAPTURED == Do(Do(Do(s0, StartConfig(0)), StartConfig(1)), Acquire(0));
    rest := RunThree(s0, StartConfig(0), StartConfig(1), Acquire(0), rest, false);
  }

  const BOTH_CAPTURED := System(map[0 := Switching(0), 1 := ConfigQueued(0), 2 := Idle], map[0 := 0], {}, 0, 1, false, true, true, [])

  const ONE_SWITCHED := System(map[0 := Idle, 1 := ConfigQueued(0), 2 := Queued(1, true)], map[], {0}, 1, 2, false, true, true, [Write(0, 1)])

  lemma SwitchUnderWaiter() returns (rest: seq<Step>)
    ensures ValidRun(BOTH_CAPTURED, rest, false) && !OneUserAtMost(Final(BOTH_CAPTURED, rest))
  {
    hide ValidRun, Final, OneUserAtMost;
    rest := SecondSwitchCollides();
    var s := Do(Do(Do(BOTH_CAPTURED, Reopen(0, true, true)), Probe(0, true)), StartCall(2, true));
    assert s.locks == ONE_SWITCHED.locks && s.tasks == ONE_SWITCHED.tasks && s.disposed == {0};
    assert s.sent == ONE_SWITCHED.sent && s == ONE_SWITCHED;
    rest := RunThree(BOTH_CAPTURED, Reopen(0, true, true), Probe(0, true), StartCall(2, true), rest, false);
  }

  lemma SecondSwitchCollides() returns (rest: seq<Step>)
    ensures ValidRun(ONE_SWITCHED, rest, false) && !OneUserAtMost(Final(ONE_SWITCHED, rest))
  {
    hide ValidRun, Final;
    var s := Do(Do(Do(ONE_SWITCHED, Acquire(2)), Proceed(2)), Acquire(1));
    assert s.tasks[1] == Switching(0) && s.tasks[2] == Exchanging(1);
    NoSteps(s);
    rest := RunThree(ONE_SWITCHED, Acquire(2), Proceed(2), Acquire(1), [], false);
  }

  lemma RunThree(s: System, a: Step, b: Step, c: Step, rest: seq<Step>, single: bool) returns (steps: seq<Step>)
    requires Enabled(s, a) && Enabled(Do(s, a), b) && Enabled(Do(Do(s, a), b), c)
    requires single ==> OneConfigAtMost(Do(s, a)) && OneConfigAtMost(Do(Do(s, a), b)) && OneConfigAtMost(Do(Do(Do(s, a), b), c))
    requires var last := Do(Do(Do(s, a), b), c); ValidRun(last, rest, single) && ValidRun(last, rest, false)
    ensures ValidRun(s, steps, single) && ValidRun(s, steps, false)
    ensures Final(s, steps) == Final(Do(Do(Do(s, a), b), c), rest)
  {
    hide Do, Enabled, OneConfigAtMost;
    RunCons(Do(Do(s, a), b), c, rest, single);
    RunCons(Do(s, a), b, [c] + rest, single);
    RunCons(s, a, [b] + ([c] + rest), single);
    steps := [a] + ([b] + ([c] + rest));
  }

  lemma NoSteps(s: System)
    ensures ValidRun(s, [], true) && ValidRun(s, [], false) && Final(s, []) == s
  {
  }

  const WAITING := System(map[0 := Switching(0), 1 := Queued(0, true)], map[0 := 0], {}, 0, 1, false, true, false, [])

  const BROKEN_OPEN := System(map[0 := Idle, 1 := Queued(0, true)], map[], {}, 0, 2, true, true, false, [Write(0, 1)])

  /** Unknown framing: the rollback marks the session BROKEN and leaves the port open, so a caller
      queued before that still writes. */
  lemma UntrackedBrokenStillWrites() returns (s: System, before: seq<Step>, after: seq<Step>)
    ensures Initial(s) && !s.tracked && ValidRun(s, before, true) && ValidRun(s, before, false)
    ensures var broken := Final(s, before);
      broken.broken && ValidRun(broken, after, true) && ValidRun(broken, after, false)
      && Write(1, 0) !in broken.sent && Write(1, 0) in Final(broken, after).sent
  {
    hide ValidRun, Final;
    s := TWO_TASKS.(tracked := false);
    assert Initial(s);
    before := ProbeFails();
    assert Do(Do(Do(s, StartConfig(0)), Acquire(0)), StartCall(1, true)).tasks == WAITING.tasks;
    before := RunThree(s, StartConfig(0), Acquire(0), StartCall(1, true), before, true);
    after := WaiterWrites();
  }

  lemma ProbeFails() returns (rest: seq<Step>)
    ensures ValidRun(WAITING, rest, true) && ValidRun(WAITING, rest, false) && Final(WAITING, rest) == BROKEN_OPEN
  {
    hide ValidRun, Final;
    NoSteps(BROKEN_OPEN);
    var s := Do(Do(Do(WAITING, Reopen(0, true, true)), Probe(0, false)), RollBack(0, true));
    assert s.locks == BROKEN_OPEN.locks && s.tasks == BROKEN_OPEN.tasks;
    assert s.sent == BROKEN_OPEN.sent && s == BROKEN_OPEN;
    rest := RunThree(WAITING, Reopen(0, true, true), Probe(0, false), RollBack(0, true), [], true);
  }

  lemma WaiterWrites() returns (rest: seq<Step>)
    ensures ValidRun(BROKEN_OPEN, rest, true) && ValidRun(BROKEN_OPEN, rest, false)
    ensures Write(1, 0) in Final(BROKEN_OPEN, rest).sent
  {
    hide ValidRun, Final;
    var s := Do(Do(Do(BROKEN_OPEN, Acquire(1)), Proceed(1)), Finish(1));
    NoSteps(s);
    rest := RunThree(BROKEN_OPEN, Acquire(1), Proceed(1), Finish(1), [], true);
  }

  // ------------------------------------------------------------------ progress

  /** No deadlock: a busy task can move, or waits for a lock whose holder can. */
  lemma NeverStuck(s: System, t: TaskId) returns (step: Step)
    requires Inv(s) && t in s.tasks && s.tasks[t] != Idle
    ensures Enabled(s, step) && s.tasks[step.t] != Idle
    ensures s.tasks[t].Queued? || s.tasks[t].ConfigQueued? ==>
      step.t == t || (s.tasks[t].c in s.locks && s.locks[s.tasks[t].c] == step.t)
  {
    var a := s.tasks[t];
    if !a.Queued? && !a.ConfigQueued? {
      step := Onward(t, a);
    } else if a.c in s.locks {
      step := Onward(s.locks[a.c], s.tasks[s.locks[a.c]]);
    } else {
      step := Acquire(t);
    }
  }

  /** One way on for a task that holds its lock. */
  function Onward(t: TaskId, a: Activity): Step {
    match a
    case Exchanging(_) => Finish(t)
    case Switching(_) => Reopen(t, true, true)
    case Probing(_, _) => Probe(t, true)
    case RollingBack(_) => RollBack(t, true)
    case _ => Proceed(t)
  }

  /** The steps a task has at most before it is idle again. */
  function Ahead(a: Activity): nat {
    match a
    case Idle => 0
    case Queued(_, _) => 3
    case Entered(_, _) => 2
    case Exchanging(_) => 1
    case ConfigQueued(_) => 4
    case Switching(_) => 3
    case Probing(_, _) => 2
    case RollingBack(_) => 1
  }

  /** The same over the tasks below `n`. */
  function Load(tasks: map<TaskId, Activity>, n: nat): nat {
    if n == 0 then 0 else (if n - 1 in tasks then Ahead(tasks[n - 1]) else 0) + Load(tasks, n - 1)
  }

  lemma {:induction false} LoadDrops(tasks: map<TaskId, Activity>, tasks': map<TaskId, Activity>, t: TaskId, n: nat)
    requires tasks'.Keys == tasks.Keys && t in tasks && Ahead(tasks'[t]) < Ahead(tasks[t])
    requires forall u :: u in tasks && u != t ==> tasks'[u] == tasks[u]
    ensures if t < n then Load(tasks', n) < Load(tasks, n) else Load(tasks', n) == Load(tasks, n)
  {
    if n > 0 { LoadDrops(tasks, tasks', t, n - 1); }
  }

  lemma MovesOn(s: System, step: Step)
    requires Enabled(s, step) && s.tasks[step.t] != Idle
    ensures Ahead(Do(s, step).tasks[step.t]) < Ahead(s.tasks[step.t])
    ensures InConfig(Do(s, step).tasks[step.t]) ==> InConfig(s.tasks[step.t])
  {
  }

  /** Unless somebody starts anew, the steps still to come are bounded, whoever takes them. */
  lemma {:induction false} RunsEnd(s: System, steps: seq<Step>, n: nat)
    requires ValidRun(s, steps, false) && (forall t :: t in s.tasks ==> t < n)
    requires forall i :: 0 <= i < |steps| ==> !steps[i].StartCall? && !steps[i].StartConfig?
    ensures |steps| + Load(Final(s, steps).tasks, n) <= Load(s.tasks, n)
    decreases |steps|
  {
    hide Do, Load;
    if steps != [] {
      var next := Do(s, steps[0]);
      MovesOn(s, steps[0]);
      OthersUntouched(s, steps[0]);
      LoadDrops(s.tasks, next.tasks, steps[0].t, n);
      RunsEnd(next, steps[1..], n);
    }
  }

  predicate AllIdle(s: System) { forall t :: t in s.tasks ==> s.tasks[t] == Idle }

  /** With at most one reconfiguration in flight, a run can be carried on, without anything new, until
      everybody is idle and every lock is free. */
  lemma {:induction false} CanFinish(s: System, n: nat) returns (steps: seq<Step>)
    requires SingleInv(s) && forall t :: t in s.tasks ==> t < n
    ensures ValidRun(s, steps, true) && ValidRun(s, steps, false)
    ensures forall i :: 0 <= i < |steps| ==> !steps[i].StartCall? && !steps[i].StartConfig?
    ensures AllIdle(Final(s, steps)) && Final(s, steps).locks == map[]
    decreases Load(s.tasks, n)
  {
    if AllIdle(s) {
      NoSteps(s);
      return [];
    }
    hide Do, Load, SingleInv, Enabled, OneConfigAtMost;
    var step := NextMove(s, n);
    var rest := CanFinish(Do(s, step), n);
    RunCons(s, step, rest, true);
    steps := [step] + rest;
  }

  lemma NextMove(s: System, n: nat) returns (step: Step)
    requires SingleInv(s) && (forall t :: t in s.tasks ==> t < n) && !AllIdle(s)
    ensures Enabled(s, step) && !step.StartCall? && !step.StartConfig? && OneConfigAtMost(Do(s, step))
    ensures SingleInv(Do(s, step)) && Do(s, step).tasks.Keys == s.tasks.Keys
    ensures Load(Do(s, step).tasks, n) < Load(s.tasks, n)
  {
    hide Do, Load;
    var t :| t in s.tasks && s.tasks[t] != Idle;
    step := NeverStuck(s, t);
    MovesOn(s, step);
    OthersUntouched(s, step);
    LoadDrops(s.tasks, Do(s, step).tasks, step.t, n);
    SingleKept(s, step);
  }

  // ------------------------------------------------------------------ what each step changes

  /** Who writes, when the session breaks, and when a client is installed and its predecessor retired. */
  lemma StepEffects(s: System, step: Step)
    requires Enabled(s, step)
    ensures var a, s' := s.tasks[step.t], Do(s, step);
      var calls := step.Proceed? && a.gated && a.c !in s.disposed && s.open;
      var probes := step.Reopen? && step.ok && step.probeWrites;
      && s'.sent == s.sent + (if calls then [Write(step.t, a.c)] else if probes then [Write(step.t, s.next)] else [])
      && (s'.broken <==> s.broken || (step.RollBack? && (!s.tracked || !step.ok)))
      && s'.current == (if step.Probe? && step.ok then a.probe else s.current)
      && s'.disposed == s.disposed + (if step.Probe? && step.ok then {a.c} else {})
      && (s'.open != s.open ==> step.Reopen? || (step.RollBack? && s.tracked))
      && (step.Reopen? ==> s'.open == step.ok) && (step.RollBack? && s.tracked ==> s'.open == step.ok)
      && s'.tracked == s.tracked
  {
  }

  /** A run breaks the session exactly when some rollback in it fails, or has no framing to restore. */
  lemma {:induction false} BrokenIffRollBackFailed(s: System, steps: seq<Step>)
    requires ValidRun(s, steps, false)
    ensures Final(s, steps).tracked == s.tracked
    ensures Final(s, steps).broken <==>
      s.broken || exists i :: 0 <= i < |steps| && steps[i].RollBack? && (!s.tracked || !steps[i].ok)
    decreases |steps|
  {
    hide Do;
    if steps != [] {
      StepEffects(s, steps[0]);
      BrokenIffRollBackFailed(Do(s, steps[0]), steps[1..]);
      assert forall i :: 1 <= i < |steps| ==> steps[i] == steps[1..][i - 1];
      assert forall i :: 0 <= i < |steps| - 1 ==> steps[1..][i] == steps[i + 1];
    }
  }
}
