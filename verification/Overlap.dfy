/** What overlapping reconfigurations can come to, from any state in which none was late so far. */
module Overlap {
  import opened Bytes
  import opened Interleaving

  // ------------------------------------------------------------------ runs put together

  lemma {:induction false} RunAppend(s: System, a: seq<Step>, b: seq<Step>)
    requires ValidRun(s, a, false) && ValidRun(Final(s, a), b, false)
    ensures ValidRun(s, a + b, false) && Final(s, a + b) == Final(Final(s, a), b)
    decreases |a|
  {
    hide Do, Enabled;
    if a == [] {
      assert a + b == b;
    } else {
      RunAppend(Do(s, a[0]), a[1..], b);
      assert (a + b)[0] == a[0] && (a + b)[1..] == a[1..] + b;
    }
  }

  lemma {:induction false} TasksStay(s: System, steps: seq<Step>)
    requires ValidRun(s, steps, false)
    ensures Final(s, steps).tasks.Keys == s.tasks.Keys
    decreases |steps|
  {
    hide Do, Enabled;
    if steps != [] {
      OthersUntouched(s, steps[0]);
      TasksStay(Do(s, steps[0]), steps[1..]);
    }
  }

  /** A run with a late step has a first one. */
  lemma {:induction false} FirstLate(s: System, steps: seq<Step>) returns (before: seq<Step>, late: Step)
    requires ValidRun(s, steps, false) && !NoLate(s, steps)
    ensures ValidRun(s, before, false) && NoLate(s, before)
    ensures Enabled(Final(s, before), late) && Late(Final(s, before), late)
    decreases |steps|
  {
    hide Do, Enabled, Late;
    if Late(s, steps[0]) {
      before, late := [], steps[0];
    } else {
      var next := Do(s, steps[0]);
      var rest;
      rest, late := FirstLate(next, steps[1..]);
      before := [steps[0]] + rest;
      assert before[1..] == rest;
    }
  }

  // ------------------------------------------------------------------ a late step meets another task

  ghost predicate CanCollide(s: System) {
    exists steps :: ValidRun(s, steps, false) && !OneUserAtMost(Final(s, steps))
  }

  lemma CollidesNow(s: System)
    requires !OneUserAtMost(s)
    ensures CanCollide(s)
  {
    hide OneUserAtMost;
    NoSteps(s);
    assert ValidRun(s, [], false) && !OneUserAtMost(Final(s, []));
  }

  lemma CollidesAfter(s: System, step: Step)
    requires Enabled(s, step) && CanCollide(Do(s, step))
    ensures CanCollide(s)
  {
    hide ValidRun, Final, Do, Enabled, OneUserAtMost;
    var rest :| ValidRun(Do(s, step), rest, false) && !OneUserAtMost(Final(Do(s, step), rest));
    RunCons(s, step, rest, false);
    assert ValidRun(s, [step] + rest, false) && !OneUserAtMost(Final(s, [step] + rest));
  }

  /** Task `t` waits to reconfigure through a retired client whose lock is free. */
  predicate LateNow(s: System, t: TaskId) {
    t in s.tasks && s.tasks[t].ConfigQueued? && s.tasks[t].c in s.disposed && s.tasks[t].c !in s.locks
  }

  lemma LateMeetsUser(s: System, t: TaskId, u: TaskId)
    requires LateNow(s, t) && u in s.tasks && u != t && UsesTransport(s.tasks[u])
    ensures CanCollide(s)
  {
    var s' := Do(s, Acquire(t));
    assert UsesTransport(s'.tasks[t]) && UsesTransport(s'.tasks[u]);
    CollidesNow(s');
    CollidesAfter(s, Acquire(t));
  }

  /** A caller on the current client, holding its lock, becomes a user in one step. */
  lemma LateMeetsEntered(s: System, t: TaskId, u: TaskId)
    requires LateNow(s, t) && u in s.tasks && u != t && s.tasks[u].Entered? && s.tasks[u].c !in s.disposed
    ensures CanCollide(s)
  {
    LateMeetsUser(Do(s, Proceed(u)), t, u);
    CollidesAfter(s, Proceed(u));
  }

  lemma LateMeetsQueued(s: System, t: TaskId, u: TaskId)
    requires LateNow(s, t) && u in s.tasks && u != t && s.tasks[u].Queued? && s.tasks[u].c !in s.disposed
    requires s.tasks[u].c !in s.locks
    ensures CanCollide(s)
  {
    LateMeetsEntered(Do(s, Acquire(u)), t, u);
    CollidesAfter(s, Acquire(u));
  }

  lemma LateMeetsIdle(s: System, t: TaskId, u: TaskId)
    requires LateNow(s, t) && u in s.tasks && s.tasks[u].Idle?
    requires s.current !in s.disposed && s.current !in s.locks
    ensures CanCollide(s)
  {
    LateMeetsQueued(Do(s, StartCall(u, false)), t, u);
    CollidesAfter(s, StartCall(u, false));
  }

  /** A caller of a retired client finds out and leaves. */
  lemma LateMeetsRetired(s: System, t: TaskId, u: TaskId)
    requires LateNow(s, t) && u in s.tasks && u != t && s.tasks[u].Entered? && s.tasks[u].c in s.disposed
    requires s.current !in s.disposed && s.current !in s.locks
    ensures CanCollide(s)
  {
    LateMeetsIdle(Do(s, Proceed(u)), t, u);
    CollidesAfter(s, Proceed(u));
  }

  /** Who holds the lock of a retired client: a caller that has not looked yet. */
  lemma RetiredHolder(s: System, c: ClientId)
    requires Inv(s) && c in s.locks && c in s.disposed
    ensures s.locks[c] in s.tasks && s.tasks[s.locks[c]].Entered? && s.tasks[s.locks[c]].c == c
  {
    var x := s.locks[c];
    assert Holds(s.tasks[x], c) && TaskInv(s, s.tasks[x]);
  }

  /** Two late reconfigurations on one client: the first fails and goes idle. */
  lemma LateMeetsTwin(s: System, t: TaskId, u: TaskId)
    requires LateNow(s, t) && LateNow(s, u) && u != t
    requires s.current !in s.disposed && s.current !in s.locks
    ensures CanCollide(s)
  {
    var s1 := Do(s, Acquire(u));
    if s.tasks[u].c != s.tasks[t].c {
      LateMeetsUser(s1, t, u);
    } else {
      var s2 := Do(s1, Reopen(u, false, false));
      var s3 := Do(s2, RollBack(u, true));
      assert LateNow(s3, t);
      LateMeetsIdle(s3, t, u);
      CollidesAfter(s2, RollBack(u, true));
      CollidesAfter(s1, Reopen(u, false, false));
    }
    CollidesAfter(s, Acquire(u));
  }

  /** With any other task around, whatever it is doing, a late step can be made to collide. */
  lemma LateCollides(s: System, t: TaskId, other: TaskId)
    requires Inv(s) && LateNow(s, t) && other in s.tasks && other != t
    ensures CanCollide(s)
  {
    hide CanCollide, Do;
    if s.current in s.locks {
      var w := s.locks[s.current];
      assert Holds(s.tasks[w], s.current);
      if s.tasks[w].Entered? { LateMeetsEntered(s, t, w); } else { LateMeetsUser(s, t, w); }
    } else {
      LateMeetsAny(s, t, other);
    }
  }

  lemma LateMeetsAny(s: System, t: TaskId, u: TaskId)
    requires Inv(s) && LateNow(s, t) && u in s.tasks && u != t && s.current !in s.locks
    ensures CanCollide(s)
  {
    hide CanCollide, Do;
    var a := s.tasks[u];
    assert TaskInv(s, a) && Owns(s, u, a);
    match a
    case Idle => LateMeetsIdle(s, t, u);
    case Queued(c, _) =>
      if c in s.locks {
        RetiredHolder(s, c);
        LateMeetsRetired(s, t, s.locks[c]);
      } else if c in s.disposed {
        LateMeetsWaiter(s, t, u);
      } else {
        LateMeetsQueued(s, t, u);
      }
    case Entered(c, _) => LateMeetsRetired(s, t, u);
    case ConfigQueued(c) =>
      if c in s.locks {
        RetiredHolder(s, c);
        LateMeetsRetired(s, t, s.locks[c]);
      } else if c in s.disposed {
        LateMeetsTwin(s, t, u);
      } else {
        LateMeetsConfig(s, t, u);
      }
    case _ => LateMeetsUser(s, t, u);
  }

  lemma LateMeetsWaiter(s: System, t: TaskId, u: TaskId)
    requires LateNow(s, t) && u in s.tasks && u != t && s.tasks[u].Queued?
    requires s.tasks[u].c in s.disposed && s.tasks[u].c !in s.locks
    requires s.current !in s.disposed && s.current !in s.locks
    ensures CanCollide(s)
  {
    var s1 := Do(s, Acquire(u));
    var s2 := Do(s1, Proceed(u));
    assert LateNow(s2, t);
    LateMeetsIdle(s2, t, u);
    CollidesAfter(s1, Proceed(u));
    CollidesAfter(s, Acquire(u));
  }

  lemma LateMeetsConfig(s: System, t: TaskId, u: TaskId)
    requires LateNow(s, t) && u in s.tasks && u != t && s.tasks[u].ConfigQueued?
    requires s.tasks[u].c !in s.disposed && s.tasks[u].c !in s.locks
    ensures CanCollide(s)
  {
    LateMeetsUser(Do(s, Acquire(u)), t, u);
    CollidesAfter(s, Acquire(u));
  }

  // ------------------------------------------------------------------ mutual exclusion, exactly

  ghost predicate ExclusiveFrom(s: System) {
    forall steps :: ValidRun(s, steps, false) ==> OneUserAtMost(Final(s, steps))
  }

  /** No run gets to where a reconfiguration could take the lock of a client retired while it waited. */
  ghost predicate NeverLate(s: System) {
    forall steps, t :: ValidRun(s, steps, false) && NoLate(s, steps) ==> !LateNow(Final(s, steps), t)
  }

  /** From every state reached without a late step, with two tasks or more: mutual exclusion holds on all
      runs exactly when no run gets to a late step. */
  lemma ExclusionIff(s: System, t: TaskId, u: TaskId)
    requires Inv(s) && t in s.tasks && u in s.tasks && t != u
    ensures ExclusiveFrom(s) <==> NeverLate(s)
  {
    hide ValidRun, Final, NoLate, Inv, OneUserAtMost, LateNow, Do, Enabled, Late;
    if NeverLate(s) {
      forall steps | ValidRun(s, steps, false) ensures OneUserAtMost(Final(s, steps)) {
        if !NoLate(s, steps) {
          var before, late := FirstLate(s, steps);
          LateIsNow(Final(s, before), late);
          assert false;
        }
        InvAlways(s, steps);
        OneUser(Final(s, steps));
      }
    } else {
      var steps, v :| ValidRun(s, steps, false) && NoLate(s, steps) && LateNow(Final(s, steps), v);
      var last := Final(s, steps);
      InvAlways(s, steps);
      TasksStay(s, steps);
      LateCollides(last, v, if v == t then u else t);
      var more :| ValidRun(last, more, false) && !OneUserAtMost(Final(last, more));
      RunAppend(s, steps, more);
    }
  }

  lemma LateIsNow(s: System, step: Step)
    requires Enabled(s, step) && Late(s, step)
    ensures LateNow(s, step.t)
  {
  }

  // ------------------------------------------------------------------ silence after BROKEN, exactly

  ghost predicate SilentFrom(s: System) {
    forall steps :: ValidRun(s, steps, false) ==> Final(s, steps).sent == s.sent
  }

  /** Nobody waits to reconfigure, and if the port is still open nobody waits to write on the client in
      use. */
  predicate Settled(s: System) {
    forall t :: t in s.tasks ==> !s.tasks[t].ConfigQueued? && (s.open ==> s.tasks[t] != Queued(s.current, true))
  }

  predicate Quiet(s: System) {
    s.broken && forall t :: t in s.tasks ==> QuietTask(s, s.tasks[t])
  }

  predicate QuietTask(s: System, a: Activity) {
    !InConfig(a) && ((a.Queued? || a.Entered?) && a.gated && s.open ==> a.c in s.disposed)
  }

  lemma QuietStep(s: System, step: Step)
    requires Quiet(s) && Enabled(s, step)
    ensures Quiet(Do(s, step)) && Do(s, step).sent == s.sent
  {
    var s' := Do(s, step);
    assert QuietTask(s, s.tasks[step.t]);
    OthersUntouched(s, step);
    assert s'.open == s.open && s'.disposed == s.disposed && s'.broken;
    assert s'.sent == s.sent;
  }

  lemma {:induction false} QuietRun(s: System, steps: seq<Step>)
    requires Quiet(s) && ValidRun(s, steps, false)
    ensures Final(s, steps).sent == s.sent
    decreases |steps|
  {
    hide Quiet, Do, Enabled;
    if steps != [] {
      QuietStep(s, steps[0]);
      QuietRun(Do(s, steps[0]), steps[1..]);
    }
  }

  lemma SettledIsQuiet(s: System)
    requires Inv(s) && s.broken && s.current !in s.locks && Settled(s)
    ensures Quiet(s)
  {
    forall t | t in s.tasks ensures QuietTask(s, s.tasks[t]) {
      assert Owns(s, t, s.tasks[t]) && TaskInv(s, s.tasks[t]);
    }
  }

  lemma WritesNow(s: System, step: Step)
    requires Enabled(s, step) && Do(s, step).sent != s.sent
    ensures !SilentFrom(s)
  {
    hide Do, Enabled;
    NoSteps(Do(s, step));
    RunCons(s, step, [], false);
    assert Final(s, [step] + []).sent != s.sent;
  }

  lemma WritesAfter(s: System, step: Step)
    requires Enabled(s, step) && Do(s, step).sent == s.sent && !SilentFrom(Do(s, step))
    ensures !SilentFrom(s)
  {
    hide ValidRun, Final, Do, Enabled;
    var rest :| ValidRun(Do(s, step), rest, false) && Final(Do(s, step), rest).sent != Do(s, step).sent;
    RunCons(s, step, rest, false);
    assert Final(s, [step] + rest).sent != s.sent;
  }

  /** A reconfiguration that was waiting reopens the transport and writes its probe. */
  lemma WaitingConfigWrites(s: System, u: TaskId)
    requires u in s.tasks && s.tasks[u].ConfigQueued? && s.tasks[u].c !in s.locks
    ensures !SilentFrom(s)
  {
    var s1 := Do(s, Acquire(u));
    assert |Do(s1, Reopen(u, true, true)).sent| == |s1.sent| + 1;
    WritesNow(s1, Reopen(u, true, true));
    WritesAfter(s, Acquire(u));
  }

  lemma WaitingCallWrites(s: System, u: TaskId)
    requires u in s.tasks && s.tasks[u] == Queued(s.current, true) && s.open
    requires s.current !in s.locks && s.current !in s.disposed
    ensures !SilentFrom(s)
  {
    var s1 := Do(s, Acquire(u));
    assert |Do(s1, Proceed(u)).sent| == |s1.sent| + 1;
    WritesNow(s1, Proceed(u));
    WritesAfter(s, Acquire(u));
  }

  lemma UnsettledWrites(s: System, u: TaskId)
    requires Inv(s) && s.current !in s.locks && u in s.tasks
    requires s.tasks[u].ConfigQueued? || (s.open && s.tasks[u] == Queued(s.current, true))
    ensures !SilentFrom(s)
  {
    hide SilentFrom, Do;
    assert TaskInv(s, s.tasks[u]);
    if s.tasks[u].Queued? {
      WaitingCallWrites(s, u);
    } else if s.tasks[u].c !in s.locks {
      WaitingConfigWrites(s, u);
    } else {
      var x := s.locks[s.tasks[u].c];
      RetiredHolder(s, s.tasks[u].c);
      RetiredLeaves(s, x);
      WaitingConfigWrites(Do(s, Proceed(x)), u);
      WritesAfter(s, Proceed(x));
    }
  }

  lemma RetiredLeaves(s: System, x: TaskId)
    requires x in s.tasks && s.tasks[x].Entered? && s.tasks[x].c in s.disposed
    ensures Enabled(s, Proceed(x))
    ensures Do(s, Proceed(x)) == s.(tasks := s.tasks[x := Idle], locks := s.locks - {s.tasks[x].c})
  {
  }

  /** The rollback that breaks the session, overlapping reconfigurations or not, tracked framing or not:
      from then on nothing is written exactly when no other reconfiguration was waiting and, if the port
      stayed open, no call was waiting for the client in use. */
  lemma SilentIff(s: System, t: TaskId, ok: bool)
    requires Inv(s) && Enabled(s, RollBack(t, ok)) && Do(s, RollBack(t, ok)).broken
    ensures SilentFrom(Do(s, RollBack(t, ok))) <==> Settled(Do(s, RollBack(t, ok)))
  {
    var broken := Do(s, RollBack(t, ok));
    InvKept(s, RollBack(t, ok));
    assert Owns(s, t, s.tasks[t]) && TaskInv(s, s.tasks[t]);
    assert broken.current !in broken.locks;
    hide Do, Inv, SilentFrom, Quiet;
    if Settled(broken) {
      SettledIsQuiet(broken);
      SilentWhenQuiet(broken);
    } else {
      var u :| u in broken.tasks
        && (broken.tasks[u].ConfigQueued? || (broken.open && broken.tasks[u] == Queued(broken.current, true)));
      UnsettledWrites(broken, u);
    }
  }

  lemma SilentWhenQuiet(s: System)
    requires Quiet(s)
    ensures SilentFrom(s)
  {
    hide Quiet;
    forall steps | ValidRun(s, steps, false) ensures Final(s, steps).sent == s.sent { QuietRun(s, steps); }
  }
}
