/** `SartoriusManager`: ref-counted ports under add, failed add, remove and close; dispatch. */
module Manager {
  import opened Bytes

  datatype Kind = Xbpi | Sbi | Auto

  /** A transport object: `Owned` ones the manager created for a path, the others the caller passed in. */
  datatype Transport = Owned(id: nat) | Callers(id: nat)

  datatype Key = PathKey(canonical: string) | TransportKey(id: nat)

  /** A balance object: its identity, and the identity and protocol of the client its session uses. */
  datatype Balance = Balance(id: nat, client: nat, protocol: Kind)

  datatype Device = Device(name: string, balance: Balance, portKey: Option<Key>)

  datatype Port = Port(transport: Transport, client: Option<nat>, protocol: Option<Kind>, refs: set<string>)

  datatype Source = Prebuilt(balance: Balance) | Path(canonical: string) | Given(id: nat)

  /** Which of the I/O steps an operation may come to would raise. */
  datatype Faults = Faults(open: bool, identify: bool, close: bool)

  datatype Outcome =
    | Added(balance: Balance)
    | ManagerClosed | NameTaken | SettingsRefused | AutoRefused | OpenFailed | MixedProtocols | IdentifyFailed

  datatype State = State(
    devices: seq<Device>,      // in insertion order
    ports: map<Key, Port>,
    closed: bool,
    open: set<Transport>,      // the transports now open
    leaked: set<Transport>,    // owned transports whose close raised
    transports: nat, clients: nat, balances: nat) // objects created so far

  const EMPTY := State([], map[], false, {}, {}, 0, 0, 0)

  // ------------------------------------------------------------------ the operations as functions

  function IndexOf(devices: seq<Device>, name: string): (at: Option<nat>)
    ensures at.Some? ==> at.value < |devices| && devices[at.value].name == name
    ensures at.None? <==> forall i :: 0 <= i < |devices| ==> devices[i].name != name
  {
    if devices == [] then None
    else if devices[0].name == name then Some(0)
    else
      assert forall i :: 0 <= i < |devices| - 1 ==> devices[1..][i] == devices[i + 1];
      match IndexOf(devices[1..], name) case None => None case Some(i) => Some(i + 1)
  }

  function TearDownPort(s: State, key: Key, closeFails: bool): State
    requires key in s.ports
  {
    var t := s.ports[key].transport;
    var rest := s.(ports := s.ports - {key});
    if t.Owned? && t in s.open then
      (if closeFails then rest.(leaked := s.leaked + {t}) else rest.(open := s.open - {t}))
    else rest
  }

  function ReleaseDevice(s: State, d: Device, closeFails: bool): State {
    if d.portKey.None? || d.portKey.value !in s.ports then s
    else
      var key := d.portKey.value;
      var port := s.ports[key].(refs := s.ports[key].refs - {d.name});
      var released := s.(ports := s.ports[key := port]);
      if port.refs == {} then TearDownPort(released, key, closeFails) else released
  }

  function NewPort(s: State, source: Source): Port
    requires !source.Prebuilt?
  {
    Port(if source.Path? then Owned(s.transports) else Callers(source.id), None, None, {})
  }

  function KeyOf(source: Source): Key
    requires !source.Prebuilt?
  {
    if source.Path? then PathKey(source.canonical) else TransportKey(source.id)
  }

  /** Builds a balance on the port's shared client. */
  function OpenOnPort(s: State, key: Key, kind: Kind, identify: bool, faults: Faults): (r: (Outcome, State))
    requires key in s.ports
    ensures key in r.1.ports && r.1.ports[key].refs == s.ports[key].refs
  {
    var port := s.ports[key];
    if kind == Auto then (AutoRefused, s)
    else if port.transport !in s.open && faults.open then (OpenFailed, s)
    else
      var s1 := s.(open := s.open + {port.transport});
      if port.protocol.Some? && port.protocol.value != kind then (MixedProtocols, s1)
      else
        var s2 := if port.client.Some? then s1
                  else s1.(ports := s1.ports[key := port.(client := Some(s1.clients), protocol := Some(kind))], clients := s1.clients + 1);
        var balance := Balance(s2.balances, s2.ports[key].client.value, kind);
        var s3 := s2.(balances := s2.balances + 1);
        if identify && faults.identify then (IdentifyFailed, s3) else (Added(balance), s3)
  }

  /** The port of a source, made on first use. */
  function WithPort(s: State, source: Source): State
    requires !source.Prebuilt?
  {
    if KeyOf(source) in s.ports then s
    else s.(ports := s.ports[KeyOf(source) := NewPort(s, source)],
            transports := if source.Path? then s.transports + 1 else s.transports)
  }

  function AddOn(s: State, name: string, source: Source, kind: Kind, settings: bool, identify: bool, faults: Faults): (Outcome, State) {
    if s.closed then (ManagerClosed, s)
    else if IndexOf(s.devices, name).Some? then (NameTaken, s)
    else if settings && !source.Path? then (SettingsRefused, s)
    else if source.Prebuilt? then (Added(source.balance), s.(devices := s.devices + [Device(name, source.balance, None)]))
    else
      var key := KeyOf(source);
      var (outcome, s1) := OpenOnPort(WithPort(s, source), key, kind, identify, faults);
      if outcome.Added? then
        var port := s1.ports[key].(refs := s1.ports[key].refs + {name});
        (outcome, s1.(devices := s1.devices + [Device(name, outcome.balance, Some(key))], ports := s1.ports[key := port]))
      else if key !in s.ports && s1.ports[key].refs == {} then (outcome, TearDownPort(s1, key, faults.close))
      else (outcome, s1)
  }

  function Without(devices: seq<Device>, i: nat): seq<Device>
    requires i < |devices|
  {
    devices[..i] + devices[i + 1..]
  }

  function Released(s: State, i: nat, closeFails: bool): State
    requires i < |s.devices|
  {
    ReleaseDevice(s.(devices := Without(s.devices, i)), s.devices[i], closeFails)
  }

  /** None: the manager is closed or has no such name. */
  function RemoveOn(s: State, name: string, closeFails: bool): Option<State> {
    var at := IndexOf(s.devices, name);
    if s.closed || at.None? then None
    else Some(Released(s, at.value, closeFails))
  }

  /** Last registered first. `closeFails[i]`: closing would raise with `i` devices left. */
  function ReleaseAll(s: State, closeFails: seq<bool>): (r: State)
    ensures r.devices == [] && r.closed == s.closed
    decreases |s.devices|
  {
    var n := |s.devices|;
    if n == 0 then s
    else
      var s1 := ReleaseDevice(s.(devices := s.devices[..n - 1]), s.devices[n - 1], n <= |closeFails| && closeFails[n - 1]);
      ReleaseAll(s1, closeFails)
  }

  function CloseOn(s: State, closeFails: seq<bool>): State {
    if s.closed then s else ReleaseAll(s, closeFails).(closed := true)
  }

  // ------------------------------------------------------------------ the invariant

  function RefsOf(devices: seq<Device>, key: Key): set<string> {
    set i | 0 <= i < |devices| && devices[i].portKey == Some(key) :: devices[i].name
  }

  predicate DistinctNames(devices: seq<Device>) {
    forall i, j :: 0 <= i < j < |devices| ==> devices[i].name != devices[j].name
  }

  /** The port serves exactly the devices keyed to it, through one client of its protocol. */
  predicate PortServes(s: State, key: Key) {
    key in s.ports ==>
      var port := s.ports[key];
      && port.refs == RefsOf(s.devices, key) && port.refs != {}
      && port.client.Some? && port.client.value < s.clients
      && port.protocol.Some? && port.protocol.value != Auto
      && (if key.PathKey? then port.transport.Owned? && port.transport.id < s.transports else port.transport == Callers(key.id))
      && port.transport !in s.leaked
  }

  predicate DeviceServed(s: State, d: Device) {
    d.portKey.Some? ==>
      && d.portKey.value in s.ports
      && s.ports[d.portKey.value].client == Some(d.balance.client)
      && s.ports[d.portKey.value].protocol == Some(d.balance.protocol)
  }

  /** Two ports never share a transport or a client. */
  predicate Apart(s: State, a: Key, b: Key) {
    a in s.ports && b in s.ports && a != b ==>
      s.ports[a].transport != s.ports[b].transport && s.ports[a].client != s.ports[b].client
  }

  /** An owned transport that is open belongs to a port, or is one whose close raised. */
  predicate Accounted(s: State, t: Transport) {
    t.Owned? && t in s.open ==> t in s.leaked || exists key :: key in s.ports && s.ports[key].transport == t
  }

  ghost predicate Inv(s: State) {
    && DistinctNames(s.devices)
    && (forall key :: PortServes(s, key))
    && (forall i :: 0 <= i < |s.devices| ==> DeviceServed(s, s.devices[i]))
    && (forall a, b :: Apart(s, a, b))
    && (forall t :: Accounted(s, t))
    && (forall t :: t in s.leaked ==> t.Owned? && t.id < s.transports)
    && (s.closed ==> s.devices == [])
  }

  lemma RefsWithout(devices: seq<Device>, i: nat, key: Key)
    requires DistinctNames(devices) && i < |devices|
    ensures DistinctNames(Without(devices, i))
    ensures RefsOf(Without(devices, i), key) ==
      if devices[i].portKey == Some(key) then RefsOf(devices, key) - {devices[i].name} else RefsOf(devices, key)
  {
    var rest := Without(devices, i);
    forall name | name in RefsOf(devices, key) && name != devices[i].name ensures name in RefsOf(rest, key) {
      var j :| 0 <= j < |devices| && devices[j].portKey == Some(key) && devices[j].name == name;
      var k := if j < i then j else j - 1;
      assert rest[k] == devices[j];
    }
    forall name | name in RefsOf(rest, key) ensures name in RefsOf(devices, key) && name != devices[i].name {
      var k :| 0 <= k < |rest| && rest[k].portKey == Some(key) && rest[k].name == name;
      assert rest[k] == devices[if k < i then k else k + 1];
    }
  }

  lemma RefsWith(devices: seq<Device>, d: Device, key: Key)
    ensures RefsOf(devices + [d], key) == RefsOf(devices, key) + (if d.portKey == Some(key) then {d.name} else {})
  {
    var more := devices + [d];
    forall name | name in RefsOf(devices, key) ensures name in RefsOf(more, key) {
      var j :| 0 <= j < |devices| && devices[j].portKey == Some(key) && devices[j].name == name;
      assert more[j] == devices[j];
    }
    assert more[|devices|] == d;
  }

  /** What releasing a device on `held` does to the ports. */
  lemma ReleasedPorts(s: State, i: nat, closeFails: bool, held: Key)
    requires i < |s.devices| && s.devices[i].portKey == Some(held) && held in s.ports
    ensures var s', left := Released(s, i, closeFails), s.ports[held].refs - {s.devices[i].name};
      && s'.devices == Without(s.devices, i) && s'.clients == s.clients && s'.transports == s.transports
      && s'.ports == (if left == {} then s.ports - {held} else s.ports[held := s.ports[held].(refs := left)])
      && s'.leaked <= s.leaked + (if left == {} then {s.ports[held].transport} else {})
  {
    hide Without;
    var left := s.ports[held].refs - {s.devices[i].name};
    if left == {} { assert s.ports[held := s.ports[held].(refs := left)] - {held} == s.ports - {held}; }
  }

  lemma ReleasedPortServes(s: State, i: nat, closeFails: bool, key: Key)
    requires i < |s.devices| && DistinctNames(s.devices) && DeviceServed(s, s.devices[i]) && PortServes(s, key)
    requires var held := s.devices[i].portKey; held.Some? ==> Apart(s, key, held.value)
    ensures PortServes(Released(s, i, closeFails), key)
  {
    RefsWithout(s.devices, i, key);
    if s.devices[i].portKey.Some? {
      ReleasedPorts(s, i, closeFails, s.devices[i].portKey.value);
      hide RefsOf, DistinctNames, Without, Released;
    } else {
      assert Released(s, i, closeFails) == s.(devices := Without(s.devices, i));
      hide RefsOf, DistinctNames, Without, Released;
    }
  }

  lemma ReleasedDeviceServed(s: State, i: nat, closeFails: bool, j: nat)
    requires i < |s.devices| && j < |s.devices| && s.devices[i].name != s.devices[j].name && DeviceServed(s, s.devices[j])
    requires var held := s.devices[j].portKey; held.Some? ==> PortServes(s, held.value)
    ensures DeviceServed(Released(s, i, closeFails), s.devices[j])
  {
    if s.devices[j].portKey.Some? {
      var key := s.devices[j].portKey.value;
      assert s.devices[j].name in RefsOf(s.devices, key);
      assert s.devices[j].name in s.ports[key].refs - {s.devices[i].name};
    }
  }

  lemma ReleasedAccounted(s: State, i: nat, closeFails: bool, t: Transport)
    requires Inv(s) && i < |s.devices|
    ensures Accounted(Released(s, i, closeFails), t)
  {
    var s' := Released(s, i, closeFails);
    assert Accounted(s, t);
    if t.Owned? && t in s'.open && t !in s'.leaked {
      var key :| key in s.ports && s.ports[key].transport == t;
      assert key in s'.ports && s'.ports[key].transport == t;
    }
  }

  lemma ReleasedApart(s: State, i: nat, closeFails: bool, a: Key, b: Key)
    requires Inv(s) && i < |s.devices|
    ensures Apart(Released(s, i, closeFails), a, b)
  {
    assert Apart(s, a, b);
  }

  lemma ReleasedLeaks(s: State, i: nat, closeFails: bool)
    requires Inv(s) && i < |s.devices|
    ensures var s' := Released(s, i, closeFails);
      s'.devices == Without(s.devices, i) && s'.closed == s.closed && forall t :: t in s'.leaked ==> t.Owned? && t.id < s'.transports
  {
    var d := s.devices[i];
    if d.portKey.Some? { assert DeviceServed(s, d) && PortServes(s, d.portKey.value); }
  }

  /** Releasing a device keeps the invariant, whether or not a close raises. */
  lemma ReleaseKeeps(s: State, i: nat, closeFails: bool)
    requires Inv(s) && i < |s.devices| && !s.closed
    ensures Inv(Released(s, i, closeFails))
  {
    var s' := Released(s, i, closeFails);
    ReleasedLeaks(s, i, closeFails);
    RefsWithout(s.devices, i, PathKey(""));
    forall key ensures PortServes(s', key) {
      assert DeviceServed(s, s.devices[i]) && PortServes(s, key);
      if s.devices[i].portKey.Some? { assert Apart(s, key, s.devices[i].portKey.value); }
      ReleasedPortServes(s, i, closeFails, key);
    }
    forall a, b ensures Apart(s', a, b) { ReleasedApart(s, i, closeFails, a, b); }
    forall t ensures Accounted(s', t) { ReleasedAccounted(s, i, closeFails, t); }
    hide Released, PortServes, Apart, Accounted, DeviceServed;
    forall k | 0 <= k < |s'.devices| ensures DeviceServed(s', s'.devices[k]) {
      var j := if k < i then k else k + 1;
      assert s'.devices[k] == s.devices[j] && DeviceServed(s, s.devices[j]);
      if s.devices[j].portKey.Some? { assert PortServes(s, s.devices[j].portKey.value); }
      ReleasedDeviceServed(s, i, closeFails, j);
    }
  }

  lemma OpenFailsInPlace(s: State, key: Key, kind: Kind, identify: bool, faults: Faults)
    requires key in s.ports && !OpenOnPort(s, key, kind, identify, faults).0.Added?
    ensures var s1 := OpenOnPort(s, key, kind, identify, faults).1;
      && s1.devices == s.devices && s1.closed == s.closed && s1.leaked == s.leaked && s1.transports == s.transports
      && s.clients <= s1.clients && s.open <= s1.open <= s.open + {s.ports[key].transport}
      && s1.ports - {key} == s.ports - {key}
      && key in s1.ports && s1.ports[key].transport == s.ports[key].transport && s1.ports[key].refs == s.ports[key].refs
      && (s.ports[key].client.Some? ==> s1.ports == s.ports)
  {
  }

  /** An add that fails at any step leaves the registry as it was. The one owned transport it may have
      made is open afterwards only if closing it raised too. */
  lemma FailedAddChangesNothing(s: State, name: string, source: Source, kind: Kind, settings: bool, identify: bool, faults: Faults)
    requires Inv(s)
    requires !AddOn(s, name, source, kind, settings, identify, faults).0.Added?
    ensures var (outcome, s') := AddOn(s, name, source, kind, settings, identify, faults);
      && s'.devices == s.devices && s'.ports == s.ports && s'.closed == s.closed
      && s.leaked <= s'.leaked <= s.leaked + (if faults.close then {Owned(s.transports)} else {})
      && s.transports <= s'.transports && s.clients <= s'.clients
      && (forall t :: t in s'.leaked ==> t in s.leaked || s'.transports > s.transports)
      && forall t: Transport :: t.Owned? && t in s'.open && t !in s.open ==>
           t in s'.leaked || exists key :: key in s.ports && s.ports[key].transport == t
  {
    hide OpenOnPort, Inv, IndexOf;
    if !s.closed && IndexOf(s.devices, name).None? && (settings ==> source.Path?) && !source.Prebuilt? {
      var key := KeyOf(source);
      if key in s.ports { PortReady(s, key); }
      OpenFailsInPlace(WithPort(s, source), key, kind, identify, faults);
      if key !in s.ports { assert WithPort(s, source).ports - {key} == s.ports; }
    }
  }

  lemma PortReady(s: State, key: Key)
    requires Inv(s) && key in s.ports
    ensures s.ports[key].client.Some? && s.ports[key].refs != {} && s.ports[key].transport !in s.leaked
  {
    assert PortServes(s, key);
  }

  lemma AddKeeps(s: State, name: string, source: Source, kind: Kind, settings: bool, identify: bool, faults: Faults)
    requires Inv(s)
    ensures Inv(AddOn(s, name, source, kind, settings, identify, faults).1)
  {
    var (outcome, s') := AddOn(s, name, source, kind, settings, identify, faults);
    if !outcome.Added? {
      FailedAddChangesNothing(s, name, source, kind, settings, identify, faults);
      FailedAddAccounts(s, s');
    } else {
      AddedKeeps(s, name, source, kind, settings, identify, faults);
    }
  }

  lemma FailedAddAccounts(s: State, s': State)
    requires Inv(s)
    requires s'.devices == s.devices && s'.ports == s.ports && s'.closed == s.closed
    requires s.leaked <= s'.leaked <= s.leaked + {Owned(s.transports)}
    requires s.transports <= s'.transports && s.clients <= s'.clients
    requires forall t :: t in s'.leaked ==> t in s.leaked || s'.transports > s.transports
    requires forall t: Transport :: t.Owned? && t in s'.open && t !in s.open ==>
      t in s'.leaked || exists key :: key in s.ports && s.ports[key].transport == t
    ensures Inv(s')
  {
    forall key ensures PortServes(s', key) { assert PortServes(s, key); }
    forall i | 0 <= i < |s'.devices| ensures DeviceServed(s', s'.devices[i]) { assert DeviceServed(s, s.devices[i]); }
    forall a, b ensures Apart(s', a, b) { assert Apart(s, a, b); }
    forall t ensures Accounted(s', t) { assert Accounted(s, t); }
  }

  lemma OpenSucceedsInPlace(s: State, key: Key, kind: Kind, identify: bool, faults: Faults)
    requires key in s.ports && OpenOnPort(s, key, kind, identify, faults).0.Added?
    requires s.ports[key].client.Some? <==> s.ports[key].protocol.Some?
    ensures var (outcome, s1) := OpenOnPort(s, key, kind, identify, faults);
      && s1.devices == s.devices && s1.closed == s.closed && s1.leaked == s.leaked && s1.transports == s.transports
      && s1.open == s.open + {s.ports[key].transport}
      && outcome.balance.protocol == kind != Auto
      && s1.ports == s.ports[key := s.ports[key].(client := Some(outcome.balance.client), protocol := Some(kind))]
      && (if s.ports[key].client.Some? then s.ports[key].client.value == outcome.balance.client && s1.clients == s.clients
                                              && s.ports[key].protocol.value == kind
          else outcome.balance.client == s.clients && s1.clients == s.clients + 1)
  {
  }

  lemma AddedKeeps(s: State, name: string, source: Source, kind: Kind, settings: bool, identify: bool, faults: Faults)
    requires Inv(s)
    requires AddOn(s, name, source, kind, settings, identify, faults).0.Added?
    ensures Inv(AddOn(s, name, source, kind, settings, identify, faults).1)
  {
    var (outcome, s') := AddOn(s, name, source, kind, settings, identify, faults);
    if source.Prebuilt? {
      RegisterKeeps(s, s', Device(name, source.balance, None), KeyOf(Path("")));
    } else {
      var key := KeyOf(source);
      assert PortServes(s, key);
      OpenSucceedsInPlace(WithPort(s, source), key, kind, identify, faults);
      hide OpenOnPort, DeviceServed, Apart, Accounted;
      RegisterKeeps(s, s', Device(name, outcome.balance, Some(key)), key);
    }
  }

  /** Registering a device on an existing port, on a new one, or on none. */
  lemma RegisterKeeps(s: State, s': State, d: Device, key: Key)
    requires Inv(s) && !s.closed && IndexOf(s.devices, d.name).None?
    requires s'.devices == s.devices + [d] && !s'.closed && s'.leaked == s.leaked
    requires s.transports <= s'.transports && s.clients <= s'.clients
    requires if d.portKey.None? then s'.ports == s.ports && s'.open == s.open else
      && d.portKey.value == key && d.balance.protocol != Auto && key in s'.ports
      && var port := s'.ports[key];
      && port.client == Some(d.balance.client) && port.protocol == Some(d.balance.protocol)
      && s'.open == s.open + {port.transport}
      && s'.ports == s.ports[key := port]
      && (if key in s.ports then port == s.ports[key].(refs := s.ports[key].refs + {d.name}) else
            && port.refs == {d.name} && d.balance.client == s.clients < s'.clients
            && (if key.PathKey? then port.transport == Owned(s.transports) && s.transports < s'.transports
                else port.transport == Callers(key.id)))
    ensures Inv(s')
  {
    forall key ensures PortServes(s', key) {
      assert PortServes(s, key);
      RefsWith(s.devices, d, key);
      if key !in s.ports { NoRefs(s, key); }
    }
    forall i | 0 <= i < |s'.devices| ensures DeviceServed(s', s'.devices[i]) {
      if i < |s.devices| { assert DeviceServed(s, s.devices[i]); }
    }
    forall a, b ensures Apart(s', a, b) {
      assert Apart(s, a, b) && PortServes(s, a) && PortServes(s, b);
    }
    forall t ensures Accounted(s', t) {
      assert Accounted(s, t);
      if t.Owned? && t in s.open && t !in s.leaked {
        var at :| at in s.ports && s.ports[at].transport == t;
        assert at in s'.ports && s'.ports[at].transport == t;
      }
    }
  }

  /** No device is keyed to a port that does not exist. */
  lemma NoRefs(s: State, key: Key)
    requires Inv(s) && key !in s.ports
    ensures RefsOf(s.devices, key) == {}
  {
  }

  lemma {:induction false} ReleaseAllKeeps(s: State, closeFails: seq<bool>)
    requires Inv(s) && !s.closed
    ensures Inv(ReleaseAll(s, closeFails))
    decreases |s.devices|
  {
    var n := |s.devices|;
    if n > 0 {
      assert Without(s.devices, n - 1) == s.devices[..n - 1];
      ReleaseKeeps(s, n - 1, n <= |closeFails| && closeFails[n - 1]);
      ReleaseAllKeeps(ReleaseDevice(s.(devices := s.devices[..n - 1]), s.devices[n - 1], n <= |closeFails| && closeFails[n - 1]), closeFails);
    }
  }

  lemma CloseKeeps(s: State, closeFails: seq<bool>)
    requires Inv(s)
    ensures Inv(CloseOn(s, closeFails))
  {
    if !s.closed {
      ReleaseAllKeeps(s, closeFails);
      var r := ReleaseAll(s, closeFails);
      Reclosed(r);
    }
  }

  lemma Reclosed(s: State)
    requires Inv(s) && s.devices == []
    ensures Inv(s.(closed := true))
  {
    var s' := s.(closed := true);
    forall key ensures PortServes(s', key) { assert PortServes(s, key); }
    forall a, b ensures Apart(s', a, b) { assert Apart(s, a, b); }
    forall t ensures Accounted(s', t) { assert Accounted(s, t); }
  }

  // ------------------------------------------------------------------ what one call does

  predicate Taken(s: State, name: string) { exists i :: 0 <= i < |s.devices| && s.devices[i].name == name }

  /** The key `source` is registered under. */
  predicate KeyedAs(source: Source, key: Key) {
    || (source.Path? && key == PathKey(source.canonical))
    || (source.Given? && key == TransportKey(source.id))
  }

  /** The transport behind `source` is open before the call: of a port that exists, or the caller's. */
  predicate OpenBefore(s: State, source: Source, key: Key) {
    if key in s.ports then s.ports[key].transport in s.open else source.Given? && Callers(source.id) in s.open
  }

  lemma NewOwnedIsNotOpen(s: State)
    requires Inv(s)
    ensures Owned(s.transports) !in s.open
  {
    var t := Owned(s.transports);
    assert Accounted(s, t);
    forall key | key in s.ports ensures s.ports[key].transport != t { assert PortServes(s, key); }
  }

  /** How an add ends, first adds included. */
  lemma AddAnswers(s: State, name: string, source: Source, key: Key, kind: Kind, settings: bool, identify: bool, faults: Faults)
    requires Inv(s) && (source.Prebuilt? || KeyedAs(source, key))
    ensures var outcome := AddOn(s, name, source, kind, settings, identify, faults).0;
      var admitted := !s.closed && !Taken(s, name) && !(settings && !source.Path?);
      var reached := OpenBefore(s, source, key) || !faults.open;
      var mixed := key in s.ports && s.ports[key].protocol != Some(kind);
      && (outcome == ManagerClosed <==> s.closed)
      && (outcome == NameTaken <==> !s.closed && Taken(s, name))
      && (outcome == SettingsRefused <==> !s.closed && !Taken(s, name) && settings && !source.Path?)
      && (outcome == AutoRefused <==> admitted && !source.Prebuilt? && kind == Auto)
      && (outcome == OpenFailed <==> admitted && !source.Prebuilt? && kind != Auto && !reached)
      && (outcome == MixedProtocols <==> admitted && !source.Prebuilt? && kind != Auto && reached && mixed)
      && (outcome == IdentifyFailed <==>
            admitted && !source.Prebuilt? && kind != Auto && reached && !mixed && identify && faults.identify)
      && (outcome.Added? <==>
            admitted && (source.Prebuilt? || (kind != Auto && reached && !mixed && !(identify && faults.identify))))
  {
    hide IndexOf;
    assert IndexOf(s.devices, name).Some? <==> Taken(s, name);
    if !source.Prebuilt? {
      NewOwnedIsNotOpen(s);
      assert PortServes(s, key);
      hide Inv;
    }
  }

  /** What a successful add leaves: the device at the end, on the port's client if there was one and on a
      new one otherwise; every other port as it was. */
  lemma AddedIs(s: State, name: string, source: Source, key: Key, kind: Kind, settings: bool, identify: bool, faults: Faults)
    requires Inv(s) && (source.Prebuilt? || KeyedAs(source, key))
    requires AddOn(s, name, source, kind, settings, identify, faults).0.Added?
    ensures var (outcome, s') := AddOn(s, name, source, kind, settings, identify, faults);
      var balance := outcome.balance;
      && s'.devices == s.devices + [Device(name, balance, if source.Prebuilt? then None else Some(key))]
      && !s'.closed && s'.leaked == s.leaked
      && (source.Prebuilt? ==> balance == source.balance && s'.ports == s.ports && s'.open == s.open)
      && (!source.Prebuilt? ==>
            && balance.protocol == kind && balance.id == s.balances && s'.balances == s.balances + 1
            && key in s'.ports
            && s'.ports == s.ports[key := s'.ports[key]]
            && s'.ports[key].client == Some(balance.client) && s'.ports[key].protocol == Some(kind)
            && s'.open == s.open + {s'.ports[key].transport})
      && (!source.Prebuilt? && key in s.ports ==>
            && s.ports[key].client == Some(balance.client)
            && s'.ports[key] == s.ports[key].(refs := s.ports[key].refs + {name}))
      && (!source.Prebuilt? && key !in s.ports ==>
            && balance.client == s.clients && s'.ports[key].refs == {name}
            && s'.ports[key].transport == (if source.Path? then Owned(s.transports) else Callers(source.id)))
  {
    hide IndexOf;
    if !source.Prebuilt? {
      assert PortServes(s, key);
      hide Inv;
    }
  }

  /** Removing takes the one device of that name away; its port loses the name, and goes with the last one.
      Nothing is removed from a closed manager or under a name nobody has. */
  lemma RemovedIs(s: State, name: string, closeFails: bool, i: nat, key: Key)
    requires Inv(s)
    ensures RemoveOn(s, name, closeFails).None? <==> s.closed || !Taken(s, name)
    ensures RemoveOn(s, name, closeFails).Some? && i < |s.devices| && s.devices[i].name == name ==>
      var d, s' := s.devices[i], RemoveOn(s, name, closeFails).value;
      && s'.devices == s.devices[..i] + s.devices[i + 1..] && s'.closed == s.closed
      && (key in s'.ports <==> key in s.ports && !(d.portKey == Some(key) && s.ports[key].refs == {name}))
      && (key in s'.ports ==>
            s'.ports[key] == if d.portKey == Some(key) then s.ports[key].(refs := s.ports[key].refs - {name}) else s.ports[key])
  {
    hide IndexOf;
    var at := IndexOf(s.devices, name);
    assert at.Some? <==> Taken(s, name);
    if !s.closed && at.Some? && i < |s.devices| && s.devices[i].name == name {
      assert at.value == i by { assert s.devices[at.value].name == name; }
      var d := s.devices[i];
      assert DeviceServed(s, d);
      if d.portKey.Some? {
        ReleasedPorts(s, i, closeFails, d.portKey.value);
        assert PortServes(s, d.portKey.value);
        assert name in RefsOf(s.devices, d.portKey.value);
      }
    }
  }

  // ------------------------------------------------------------------ every run

  datatype Op =
    | Add(name: string, source: Source, kind: Kind, settings: bool, identify: bool, faults: Faults)
    | Remove(name: string, closeFails: bool)
    | Close(fails: seq<bool>)

  function Apply(s: State, op: Op): State {
    match op
    case Add(name, source, kind, settings, identify, faults) => AddOn(s, name, source, kind, settings, identify, faults).1
    case Remove(name, closeFails) => (match RemoveOn(s, name, closeFails) case None => s case Some(s') => s')
    case Close(fails) => CloseOn(s, fails)
  }

  function Run(s: State, ops: seq<Op>): State
    decreases |ops|
  {
    if ops == [] then s else Run(Apply(s, ops[0]), ops[1..])
  }

  lemma InvKept(s: State, op: Op)
    requires Inv(s)
    ensures Inv(Apply(s, op))
  {
    match op
    case Add(name, source, kind, settings, identify, faults) => AddKeeps(s, name, source, kind, settings, identify, faults);
    case Remove(name, closeFails) =>
      var at := IndexOf(s.devices, name);
      if !s.closed && at.Some? { ReleaseKeeps(s, at.value, closeFails); }
    case Close(fails) => CloseKeeps(s, fails);
  }

  lemma {:induction false} InvAlways(s: State, ops: seq<Op>)
    requires Inv(s)
    ensures Inv(Run(s, ops))
    decreases |ops|
  {
    if ops != [] {
      InvKept(s, ops[0]);
      InvAlways(Apply(s, ops[0]), ops[1..]);
    }
  }

  /** From a new manager: a port exists exactly while some device is keyed to it, its refs are exactly
      those devices, and they all use the port's one client and protocol. */
  lemma PortsServeTheirDevices(ops: seq<Op>, key: Key)
    ensures var s := Run(EMPTY, ops);
      && (key in s.ports <==> RefsOf(s.devices, key) != {})
      && (key in s.ports ==> s.ports[key].refs == RefsOf(s.devices, key))
      && (forall i :: 0 <= i < |s.devices| && s.devices[i].portKey == Some(key) ==>
            key in s.ports && s.ports[key].client == Some(s.devices[i].balance.client) && s.ports[key].protocol == Some(s.devices[i].balance.protocol))
  {
    hide AddOn, CloseOn, RemoveOn;
    assert Inv(EMPTY);
    InvAlways(EMPTY, ops);
    var s := Run(EMPTY, ops);
    assert PortServes(s, key);
    if key !in s.ports { NoRefs(s, key); }
    forall i | 0 <= i < |s.devices| && s.devices[i].portKey == Some(key)
      ensures key in s.ports && s.ports[key].client == Some(s.devices[i].balance.client) && s.ports[key].protocol == Some(s.devices[i].balance.protocol)
    {
      assert DeviceServed(s, s.devices[i]);
    }
  }

  /** Removing `d` calls for closing `t`: the manager owns it and `d` was the last device on its port. */
  predicate LastOn(s: State, d: Device, t: Transport) {
    && t.Owned? && d.portKey.Some? && d.portKey.value in s.ports
    && s.ports[d.portKey.value].transport == t && s.ports[d.portKey.value].refs == {d.name}
  }

  /** Removing a device closes the transport of its port, if the manager owns it, exactly when the device
      was the last on that port; it stays open, and is recorded as leaked, exactly when that close
      raises. Every other transport is left alone, and the port is forgotten either way. */
  lemma ClosedWithLastRef(s: State, name: string, closeFails: bool, t: Transport)
    requires Inv(s) && RemoveOn(s, name, closeFails).Some?
    ensures var d, s' := s.devices[IndexOf(s.devices, name).value], RemoveOn(s, name, closeFails).value;
      && (t in s'.open <==> t in s.open && !(LastOn(s, d, t) && !closeFails))
      && (t in s'.leaked <==> t in s.leaked || (LastOn(s, d, t) && t in s.open && closeFails))
      && s'.ports.Keys == s.ports.Keys - (if d.portKey.Some? && s.ports[d.portKey.value].refs == {name} then {d.portKey.value} else {})
  {
    var d := s.devices[IndexOf(s.devices, name).value];
    assert DeviceServed(s, d);
    if d.portKey.Some? {
      assert PortServes(s, d.portKey.value);
      var port := s.ports[d.portKey.value];
      assert d.name in RefsOf(s.devices, d.portKey.value);
      assert port.refs - {name} == {} <==> port.refs == {name};
    }
  }

  /** After close nothing is registered and no owned transport is open, save where closing it raised. */
  lemma CloseReleasesAll(s: State, closeFails: seq<bool>)
    requires Inv(s)
    ensures var s' := CloseOn(s, closeFails);
      s'.closed && s'.devices == [] && s'.ports == map[] && forall t: Transport :: t.Owned? && t in s'.open ==> t in s'.leaked
  {
    CloseKeeps(s, closeFails);
    var s' := CloseOn(s, closeFails);
    forall key ensures key !in s'.ports { assert PortServes(s', key) && RefsOf([], key) == {}; }
    forall t: Transport | t.Owned? && t in s'.open ensures t in s'.leaked { assert Accounted(s', t); }
  }

  /** `configure_protocol` on a managed balance installs a client the manager does not hear of. */
  function Reconfigured(s: State, i: nat, kind: Kind): State
    requires i < |s.devices|
  {
    var d := s.devices[i];
    s.(devices := s.devices[i := d.(balance := d.balance.(client := s.clients, protocol := kind))], clients := s.clients + 1)
  }

  lemma ReconfiguredRefs(s: State, i: nat, kind: Kind, key: Key)
    requires i < |s.devices|
    ensures RefsOf(Reconfigured(s, i, kind).devices, key) == RefsOf(s.devices, key)
    ensures DistinctNames(s.devices) ==> DistinctNames(Reconfigured(s, i, kind).devices)
  {
    var devices, others := s.devices, Reconfigured(s, i, kind).devices;
    assert forall j :: 0 <= j < |devices| ==> others[j].name == devices[j].name && others[j].portKey == devices[j].portKey;
    forall name ensures name in RefsOf(others, key) <==> name in RefsOf(devices, key) {
      if j :| 0 <= j < |devices| && devices[j].portKey == Some(key) && devices[j].name == name {
        assert others[j].portKey == Some(key) && others[j].name == name;
      }
      if j :| 0 <= j < |others| && others[j].portKey == Some(key) && others[j].name == name {
        assert devices[j].portKey == Some(key) && devices[j].name == name;
      }
    }
  }

  lemma UnmanagedStaysServed(s: State, i: nat, kind: Kind)
    requires Inv(s) && i < |s.devices| && s.devices[i].portKey.None?
    ensures Inv(Reconfigured(s, i, kind))
  {
    var s' := Reconfigured(s, i, kind);
    ReconfiguredRefs(s, i, kind, PathKey(""));
    forall key ensures PortServes(s', key) { assert PortServes(s, key); ReconfiguredRefs(s, i, kind, key); }
    hide PortServes, RefsOf, DistinctNames;
    forall j | 0 <= j < |s'.devices| ensures DeviceServed(s', s'.devices[j]) { assert DeviceServed(s, s.devices[j]); }
    forall a, b ensures Apart(s', a, b) { assert Apart(s, a, b); }
    forall t ensures Accounted(s', t) { assert Accounted(s, t); }
  }

  /** Reconfiguring a balance keeps the port invariant exactly when it was registered pre-built: one on
      a managed port, opened by path or by transport, breaks it. */
  lemma ReconfiguringKeepsPortsIff(s: State, i: nat, kind: Kind)
    requires Inv(s) && i < |s.devices|
    ensures Inv(Reconfigured(s, i, kind)) <==> s.devices[i].portKey.None?
  {
    var d, s' := s.devices[i], Reconfigured(s, i, kind);
    if d.portKey.None? {
      UnmanagedStaysServed(s, i, kind);
    } else {
      assert DeviceServed(s, d) && PortServes(s, d.portKey.value);
      assert !DeviceServed(s', s'.devices[i]);
    }
  }

  /** From then on the port still asks for the old protocol and hands out its old client, retired by the
      switch, to every device added there, and admits no device that speaks the new protocol. */
  lemma RetiredClientIsShared(s: State, i: nat, kind: Kind, name: string, source: Source, asked: Kind,
                              settings: bool, identify: bool, faults: Faults)
    requires Inv(s) && i < |s.devices| && !source.Prebuilt? && s.devices[i].portKey == Some(KeyOf(source))
    ensures KeyOf(source) in s.ports
    ensures var was, s' := s.devices[i].balance, Reconfigured(s, i, kind);
      var (outcome, _) := AddOn(s', name, source, asked, settings, identify, faults);
      && (outcome.Added? ==> outcome.balance.client == was.client != s'.devices[i].balance.client)
      && (outcome.Added? <==>
            && IndexOf(s'.devices, name).None? && (settings ==> source.Path?) && asked == was.protocol
            && (s.ports[KeyOf(source)].transport in s.open || !faults.open) && !(identify && faults.identify))
  {
    hide IndexOf, RefsOf;
    assert DeviceServed(s, s.devices[i]) && PortServes(s, KeyOf(source));
  }

  // ------------------------------------------------------------------ the object

  class SartoriusManager {
    var devices: seq<Device>
    var ports: map<Key, Port>
    var closed: bool
    var open: set<Transport>
    var leaked: set<Transport>
    var transports: nat
    var clients: nat
    var balances: nat

    ghost function View(): State
      reads this
    {
      State(devices, ports, closed, open, leaked, transports, clients, balances)
    }

    constructor ()
      ensures View() == EMPTY && Inv(View())
    {
      devices, ports, closed, open, leaked := [], map[], false, {}, {};
      transports, clients, balances := 0, 0, 0;
    }

    method Add(name: string, source: Source, kind: Kind, settings: bool, identify: bool, faults: Faults) returns (outcome: Outcome)
      requires Inv(View())
      modifies this
      ensures (outcome, View()) == AddOn(old(View()), name, source, kind, settings, identify, faults)
      ensures Inv(View())
    {
      AddKeeps(View(), name, source, kind, settings, identify, faults);
      hide Inv;
      if closed { return ManagerClosed; }
      var taken := IndexOf(devices, name);
      if taken.Some? { return NameTaken; }
      if settings && !source.Path? { return SettingsRefused; }
      if source.Prebuilt? {
        devices := devices + [Device(name, source.balance, None)];
        return Added(source.balance);
      }
      var key := KeyOf(source);
      outcome := ResolveSource(source, key, kind, identify, faults);
      if !outcome.Added? { return; }
      devices := devices + [Device(name, outcome.balance, Some(key))];
      ports := ports[key := ports[key].(refs := ports[key].refs + {name})];
    }

    method ResolveSource(source: Source, key: Key, kind: Kind, identify: bool, faults: Faults) returns (outcome: Outcome)
      requires !source.Prebuilt? && key == KeyOf(source)
      modifies this
      ensures outcome == OpenOnPort(WithPort(old(View()), source), key, kind, identify, faults).0
      ensures var s1 := OpenOnPort(WithPort(old(View()), source), key, kind, identify, faults).1;
        View() == if !outcome.Added? && key !in old(ports) && s1.ports[key].refs == {} then TearDownPort(s1, key, faults.close) else s1
    {
      hide OpenOnPort, TearDownPort;
      var freshPort := key !in ports;
      if freshPort {
        var transport := if source.Path? then Owned(transports) else Callers(source.id);
        if source.Path? { transports := transports + 1; }
        ports := ports[key := Port(transport, None, None, {})];
      }
      outcome := OpenBalanceOnPort(key, kind, identify, faults);
      if !outcome.Added? && freshPort && ports[key].refs == {} { MaybeTeardownPort(key, faults.close); }
    }

    method OpenBalanceOnPort(key: Key, kind: Kind, identify: bool, faults: Faults) returns (outcome: Outcome)
      requires key in ports
      modifies this
      ensures (outcome, View()) == OpenOnPort(old(View()), key, kind, identify, faults)
    {
      if kind == Auto { return AutoRefused; }
      var transport := ports[key].transport;
      if transport !in open {
        if faults.open { return OpenFailed; }
        open := open + {transport};
      }
      assert open == old(open) + {transport};
      if ports[key].protocol.Some? && ports[key].protocol.value != kind { return MixedProtocols; }
      if ports[key].client.None? {
        ports := ports[key := ports[key].(client := Some(clients), protocol := Some(kind))];
        clients := clients + 1;
      }
      var balance := Balance(balances, ports[key].client.value, kind);
      balances := balances + 1;
      if identify && faults.identify { return IdentifyFailed; }
      outcome := Added(balance);
    }

    method MaybeTeardownPort(key: Key, closeFails: bool)
      requires key in ports
      modifies this
      ensures View() == TearDownPort(old(View()), key, closeFails)
    {
      var transport := ports[key].transport;
      if transport.Owned? && transport in open {
        // a close that raises is only logged
        if closeFails { leaked := leaked + {transport}; } else { open := open - {transport}; }
      }
      ports := ports - {key};
    }

    method TeardownDevice(entry: Device, closeFails: bool)
      modifies this
      ensures View() == ReleaseDevice(old(View()), entry, closeFails)
    {
      if entry.portKey.None? || entry.portKey.value !in ports { return; }
      var key := entry.portKey.value;
      ports := ports[key := ports[key].(refs := ports[key].refs - {entry.name})];
      if ports[key].refs == {} { MaybeTeardownPort(key, closeFails); }
    }

    method Remove(name: string, closeFails: bool) returns (ok: bool)
      requires Inv(View())
      modifies this
      ensures ok <==> RemoveOn(old(View()), name, closeFails).Some?
      ensures View() == if ok then RemoveOn(old(View()), name, closeFails).value else old(View())
      ensures Inv(View())
    {
      InvKept(View(), Op.Remove(name, closeFails));
      hide Inv;
      if closed { return false; }
      var at := IndexOf(devices, name);
      if at.None? { return false; }
      var entry := devices[at.value];
      devices := devices[..at.value] + devices[at.value + 1..];
      TeardownDevice(entry, closeFails);
      ok := true;
    }

    method Close(closeFails: seq<bool>)
      requires Inv(View())
      modifies this
      ensures View() == CloseOn(old(View()), closeFails) && Inv(View())
    {
      CloseKeeps(View(), closeFails);
      hide Inv;
      if closed { return; }
      while devices != []
        invariant !closed && ReleaseAll(View(), closeFails) == ReleaseAll(old(View()), closeFails)
        decreases |devices|
      {
        var n := |devices|;
        var entry := devices[n - 1];
        devices := devices[..n - 1];
        TeardownDevice(entry, n <= |closeFails| && closeFails[n - 1]);
      }
      closed := true;
    }
  }
}
