/** `SartoriusManager._dispatch` and `execute`: port-aware concurrency and per-device requests. */
module Dispatch {
  import opened Bytes
  import opened Manager

  datatype Group = OnPort(key: Key) | Solo(name: string)

  function GroupOf(devices: seq<Device>, name: string): Group {
    match IndexOf(devices, name)
    case None => Solo(name)
    case Some(i) => (match devices[i].portKey case Some(key) => OnPort(key) case None => Solo(name))
  }

  /** The names that belong to `group`, in order. */
  function Members(devices: seq<Device>, names: seq<string>, group: Group): seq<string> {
    if names == [] then []
    else
      var last := names[|names| - 1];
      Members(devices, names[..|names| - 1], group) + (if GroupOf(devices, last) == group then [last] else [])
  }

  method Partition(devices: seq<Device>, names: seq<string>) returns (groups: map<Group, seq<string>>)
    ensures forall g :: g in groups <==> Members(devices, names, g) != []
    ensures forall g :: g in groups ==> groups[g] == Members(devices, names, g)
  {
    hide GroupOf;
    groups := map[];
    for i := 0 to |names|
      invariant forall g :: g in groups <==> Members(devices, names[..i], g) != []
      invariant forall g :: g in groups ==> groups[g] == Members(devices, names[..i], g)
    {
      assert names[..i + 1][..i] == names[..i];
      var g := GroupOf(devices, names[i]);
      groups := groups[g := (if g in groups then groups[g] else []) + [names[i]]];
    }
    assert names[..|names|] == names;
  }

  /** Where a name occurs there is one device it stands for. */
  lemma GroupFound(devices: seq<Device>, i: nat)
    requires DistinctNames(devices) && i < |devices|
    ensures GroupOf(devices, devices[i].name) ==
      match devices[i].portKey case Some(key) => OnPort(key) case None => Solo(devices[i].name)
  {
    var at := IndexOf(devices, devices[i].name);
    assert at.Some?;
  }

  lemma {:induction false} InMembers(devices: seq<Device>, names: seq<string>, group: Group, name: string)
    ensures name in Members(devices, names, group) <==> name in names && GroupOf(devices, name) == group
  {
    hide GroupOf;
    if names != [] {
      var front, last := names[..|names| - 1], names[|names| - 1];
      InMembers(devices, front, group, name);
      assert names == front + [last];
    }
  }

  /** Two requested devices run one after the other exactly when they are one and the same or are keyed
      to the same port. */
  lemma SameGroupIff(devices: seq<Device>, names: seq<string>, i: nat, j: nat)
    requires DistinctNames(devices) && i < |devices| && j < |devices|
    requires devices[i].name in names && devices[j].name in names
    ensures (exists g :: devices[i].name in Members(devices, names, g) && devices[j].name in Members(devices, names, g)) <==>
      i == j || (devices[i].portKey.Some? && devices[i].portKey == devices[j].portKey)
  {
    hide Members;
    var m, n := devices[i].name, devices[j].name;
    forall g ensures m in Members(devices, names, g) <==> GroupOf(devices, m) == g { InMembers(devices, names, g, m); }
    forall g ensures n in Members(devices, names, g) <==> GroupOf(devices, n) == g { InMembers(devices, names, g, n); }
    GroupFound(devices, i);
    GroupFound(devices, j);
    assert m in Members(devices, names, GroupOf(devices, m));
  }

  /** An order in which the operations may run: groups interleave freely, members of one group do not. */
  ghost predicate Schedule(devices: seq<Device>, names: seq<string>, order: seq<string>) {
    forall g :: Members(devices, order, g) == Members(devices, names, g)
  }

  lemma {:induction false} MembersCount(devices: seq<Device>, names: seq<string>, name: string)
    ensures multiset(Members(devices, names, GroupOf(devices, name)))[name] == multiset(names)[name]
  {
    if names != [] {
      var front, last := names[..|names| - 1], names[|names| - 1];
      MembersCount(devices, front, name);
      assert names == front + [last];
    }
  }

  /** Whatever the interleaving, every requested name runs exactly as often as it was requested. */
  lemma ScheduleRunsEachOnce(devices: seq<Device>, names: seq<string>, order: seq<string>)
    requires Schedule(devices, names, order)
    ensures multiset(order) == multiset(names)
  {
    forall name ensures multiset(order)[name] == multiset(names)[name] {
      MembersCount(devices, order, name);
      MembersCount(devices, names, name);
    }
  }

  datatype DeviceResult = Success(value: int) | Failure(error: int)

  /** How one operation ends. `Foreign` is an exception outside the library's hierarchy: nothing in the
      group catches it, the task group cancels the rest and raises. */
  datatype Ending = Answered(result: DeviceResult) | Foreign

  datatype Policy = Raise | Return

  datatype Reply = Escaped | Raised(errors: seq<int>) | Returned(results: map<string, DeviceResult>)

  /** `results[member] = …`, in the order the operations end. */
  function Collect(order: seq<string>, endings: seq<Ending>): (results: map<string, DeviceResult>)
    requires |order| == |endings| && forall i :: 0 <= i < |endings| ==> endings[i].Answered?
    ensures forall n :: n in results <==> n in order
  {
    if order == [] then map[]
    else
      var n := |order| - 1;
      assert order == order[..n] + [order[n]];
      Collect(order[..n], endings[..n])[order[n] := endings[n].result]
  }

  function Errors(endings: seq<Ending>): seq<int> {
    if endings == [] then []
    else
      var n := |endings| - 1;
      Errors(endings[..n]) + (if endings[n].Answered? && endings[n].result.Failure? then [endings[n].result.error] else [])
  }

  predicate SomeForeign(endings: seq<Ending>) { exists i :: 0 <= i < |endings| && endings[i].Foreign? }

  predicate SomeFailed(endings: seq<Ending>) {
    exists i :: 0 <= i < |endings| && endings[i].Answered? && endings[i].result.Failure?
  }

  function Finish(policy: Policy, order: seq<string>, endings: seq<Ending>): Reply
    requires |order| == |endings|
  {
    if SomeForeign(endings) then Escaped
    else if policy == Raise && Errors(endings) != [] then Raised(Errors(endings))
    else Returned(Collect(order, endings))
  }

  lemma {:induction false} ErrorsAre(endings: seq<Ending>)
    ensures Errors(endings) != [] <==> SomeFailed(endings)
  {
    if endings != [] {
      var front := endings[..|endings| - 1];
      ErrorsAre(front);
      assert forall i :: 0 <= i < |front| ==> front[i] == endings[i];
    }
  }

  lemma {:induction false} CollectKeeps(order: seq<string>, endings: seq<Ending>, i: nat)
    requires |order| == |endings| && i < |order| && forall j :: 0 <= j < |endings| ==> endings[j].Answered?
    requires forall j :: i < j < |order| ==> order[j] != order[i]
    ensures order[i] in Collect(order, endings) && Collect(order, endings)[order[i]] == endings[i].result
  {
    var n := |order| - 1;
    if i < n { CollectKeeps(order[..n], endings[..n], i); }
  }

  /** A failing balance never hides another: one entry a requested name, each the outcome of that name's
      own last operation, unless the policy raises and something failed. `order` is the whole schedule
      unless a foreign exception cut it short, and then the call raises whatever the policy. */
  lemma DispatchAnswersAll(devices: seq<Device>, names: seq<string>, order: seq<string>, endings: seq<Ending>, policy: Policy)
    requires |order| == |endings| && (SomeForeign(endings) || Schedule(devices, names, order))
    ensures var reply := Finish(policy, order, endings);
      && (reply.Escaped? <==> SomeForeign(endings))
      && (reply.Raised? <==> !SomeForeign(endings) && policy == Raise && SomeFailed(endings))
      && (reply.Returned? ==> forall n :: n in reply.results <==> n in names)
      && (reply.Returned? ==> forall i :: 0 <= i < |order| && (forall j :: i < j < |order| ==> order[j] != order[i]) ==>
            order[i] in reply.results && endings[i] == Answered(reply.results[order[i]]))
  {
    ErrorsAre(endings);
    if !SomeForeign(endings) {
      ScheduleRunsEachOnce(devices, names, order);
      forall n ensures n in order <==> n in names {
        assert n in order <==> n in multiset(order);
        assert n in names <==> n in multiset(names);
      }
      forall i | 0 <= i < |order| && (forall j :: i < j < |order| ==> order[j] != order[i])
        ensures order[i] in Collect(order, endings) && Collect(order, endings)[order[i]] == endings[i].result
      {
        CollectKeeps(order, endings, i);
      }
    }
  }

  // ------------------------------------------------------------------ execute

  /** The last name registered for a balance object. */
  function OwnerOf(devices: seq<Device>, id: nat): Option<string> {
    if devices == [] then None
    else if devices[|devices| - 1].balance.id == id then Some(devices[|devices| - 1].name)
    else OwnerOf(devices[..|devices| - 1], id)
  }

  method NameByBalanceId(devices: seq<Device>) returns (names: map<nat, string>)
    ensures forall id :: OwnerOf(devices, id) == if id in names then Some(names[id]) else None
  {
    names := map[];
    for i := 0 to |devices|
      invariant forall id :: OwnerOf(devices[..i], id) == if id in names then Some(names[id]) else None
    {
      assert devices[..i + 1][..i] == devices[..i];
      names := names[devices[i].balance.id := devices[i].name];
    }
    assert devices[..|devices|] == devices;
  }

  /** The request the balance of device `i` is sent; None is the KeyError of a name that was not asked for. */
  function Routed(devices: seq<Device>, requests: map<string, int>, i: nat): Option<int>
    requires i < |devices|
  {
    match OwnerOf(devices, devices[i].balance.id)
    case None => None
    case Some(name) => if name in requests then Some(requests[name]) else None
  }

  lemma {:induction false} OwnerIsLast(devices: seq<Device>, i: nat)
    requires i < |devices| && DistinctNames(devices)
    ensures OwnerOf(devices, devices[i].balance.id).Some?
    ensures OwnerOf(devices, devices[i].balance.id) == Some(devices[i].name)
      <==> forall j :: i < j < |devices| ==> devices[j].balance.id != devices[i].balance.id
  {
    var n := |devices| - 1;
    if i < n && devices[n].balance.id != devices[i].balance.id { OwnerIsLast(devices[..n], i); }
  }

  /** A device is sent its own request, whatever the requests are, exactly when its balance object is not
      registered again under a later name. */
  lemma RoutedRightIff(devices: seq<Device>, i: nat)
    requires i < |devices| && DistinctNames(devices)
    ensures (forall requests: map<string, int> :: devices[i].name in requests ==>
              Routed(devices, requests, i) == Some(requests[devices[i].name]))
      <==> forall j :: i < j < |devices| ==> devices[j].balance.id != devices[i].balance.id
  {
    OwnerIsLast(devices, i);
    var own := map[devices[i].name := 0];
    assert Routed(devices, own, i) == Some(own[devices[i].name]) <==> OwnerOf(devices, devices[i].balance.id) == Some(devices[i].name);
  }
}
