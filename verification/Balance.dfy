/** `Balance`: the writes that invalidate the cache, and `configure_protocol` as a transaction. */
module Balance {
  import opened Bytes
  import opened Settings
  import opened Line
  import opened Serial
  import opened Session
  import opened XbpiClient
  import opened SbiClient
  import opened Probes

  const READ_PARAMETER := Command("read_parameter", true, None, {}, {ParameterTable}, ReadOnly, true)
  const WRITE_PARAMETER := Command("write_parameter", true, None, {}, {ParameterTable}, Persistent, true)
  const SAVE_MENU := Command("save_menu", true, None, {}, {}, Persistent, false)
  const RELOAD_MENU := Command("reload_menu", true, None, {}, {}, Persistent, false)

  const MAX_SNIFF_LINES := 4

  datatype ConfigResult =
    | TargetIsAuto | Unconfirmed | AlreadyBroken // refused before any I/O
    | Unchanged                                  // same protocol, no framing override
    | Switched                                   // new clients installed
    | SwitchFailed                               // the switch error is raised again
    | RollbackFailed                             // SartoriusConnectionError from the failed rollback
    | CutShort                                   // cancelled on the way

  /** Where a cancellation finds the call. Probing drops some of what the probe would have read. */
  datatype CancelPoint = Waiting | Draining | Closing | Opening | Probing(consumed: nat)

  /** The probe that follows the reopen, as a fact about the freshly opened port: would the new
      client's identity exchange succeed (or, for SBI, would sniffing see autoprint output)? */
  function ProbeSucceeds(target: Protocol, port: OpenOutcome, looks: nat): bool {
    match port
    case Refuses(_) => false
    case Opens(events, writes) =>
      var line := View([], events);
      var canWrite := writes == [] || writes[0] == Sent;
      match target
      case Xbpi => canWrite && ExchangeOn(line).0.Delivered?
      case Sbi =>
        var (failure, seen, sniffed) := DetectOn(SbiClient.State([], line), MAX_SNIFF_LINES, looks);
        failure.None? && (seen || (canWrite && Answered(sniffed.line)))
  }

  /** The first write on the port, the probe's request, goes out. */
  predicate RequestGoesOut(writes: seq<WriteOutcome>) { writes == [] || writes[0] == Sent }

  /** What the next attempt to open must bring for the switch to succeed. xBPI: the buffered bytes start
      with a well-formed reply that is no error. SBI: one of the first four lines looks like autoprint
      output, or the line that follows those sniffed parses without a refusal. */
  ghost predicate Answers(target: Protocol, port: OpenOutcome, looks: nat) {
    port.Opens? &&
    match target
    case Xbpi => RequestGoesOut(port.writes) && XbpiAnswers(port.events)
    case Sbi =>
      || AutoprintAmong(Crlf(Leading(port.events)), Min(looks, 4))
      || (RequestGoesOut(port.writes) && SbiAnswers(port.events, Min(looks, 4)))
  }

  lemma ProbeSucceedsIff(target: Protocol, port: OpenOutcome, looks: nat)
    ensures ProbeSucceeds(target, port, looks) <==> Answers(target, port, looks)
  {
    match port
    case Refuses(_) =>
    case Opens(events, writes) =>
      hide XbpiAnswers, SbiAnswers, AutoprintAmong, ExchangeOn, DetectOn, Answered, View, Crlf, Leading;
      match target {
        case Xbpi => XbpiAnswersIff(events);
        case Sbi =>
          SbiProbeIff(events, MAX_SNIFF_LINES, looks);
          var (failure, seen, sniffed) := DetectOn(SbiClient.State([], View([], events)), MAX_SNIFF_LINES, looks);
          assert ProbeSucceeds(target, port, looks) <==>
            failure.None? && (seen || (RequestGoesOut(writes) && Answered(sniffed.line)));
      }
  }

  /** The new SBI client starts out knowing that the balance is printing by itself. */
  predicate SeesAutoprint(target: Protocol, port: OpenOutcome, looks: nat) {
    target == Sbi && port.Opens? && AutoprintAmong(Crlf(Leading(port.events)), Min(looks, 4))
  }

  /** The port refuses to open, or opens and never says anything. */
  predicate Speechless(port: OpenOutcome) {
    port.Opens? ==> forall i :: 0 <= i < |port.events| ==> port.events[i].Silence?
  }

  lemma SilenceAnswersNothing(target: Protocol, port: OpenOutcome, looks: nat)
    requires Speechless(port)
    ensures !Answers(target, port, looks)
  {
    hide Parse;
    if port.Opens? {
      assert Leading(port.events) == [] && AfterLeading(port.events) == port.events;
      assert Leading(port.events) + [] == [];
      NoLines();
      if port.events != [] { assert Leading(port.events[1..]) == []; }
    }
  }

  lemma NoLines()
    ensures Crlf([]) == []
  {
  }

  /** The next attempt to open the port, Refuses when there is none. */
  function NextOpen(attempts: seq<OpenOutcome>): OpenOutcome {
    if attempts == [] then Refuses(Gone) else attempts[0]
  }

  function Later(attempts: seq<OpenOutcome>): seq<OpenOutcome> {
    if attempts == [] then [] else attempts[1..]
  }

  class Balance {
    const session: Session
    const transport: SerialTransport

    constructor (session: Session, transport: SerialTransport)
      ensures this.session == session && this.transport == transport
    {
      this.session, this.transport := session, transport;
    }

    ghost predicate Valid()
      reads session, session.xbpi, session.sbi
    {
      && session.Wired()
      && (session.xbpi != null ==> session.xbpi.transport == transport)
      && (session.sbi != null ==> session.sbi.transport == transport)
    }

    method WriteParameter(index: nat, confirm: bool, wire: Wire) returns (r: Result)
      modifies session
      ensures (r, session.View()) == ExecuteOn(old(session.View()), WRITE_PARAMETER, confirm, wire)
      ensures session.resultCache == if r == Done then old(session.resultCache) - {Parameter(index)} else old(session.resultCache)
    {
      r := session.Execute(WRITE_PARAMETER, confirm, wire);
      if r == Done { session.InvalidateCache(Some(Parameter(index))); }
    }

    /** A parameter read through the cache; `counter` and `value` are what the device would answer. */
    method ReadParameter(index: nat, counterWire: Wire, counter: byte, valueWire: Wire, value: int)
      returns (r: Result, result: int, hit: bool)
      modifies session
      ensures hit ==> r == Done && Lookup(old(session.resultCache), Parameter(index), counter) == Some(result)
      ensures !hit && r == Done ==> result == value
      ensures forall key :: key != Parameter(index) ==>
        (key in session.resultCache <==> key in old(session.resultCache))
        && (key in session.resultCache ==> session.resultCache[key] == old(session.resultCache)[key])
      ensures ConfigCounter in old(session.capabilities) && r == Done ==>
        Parameter(index) in session.resultCache && session.resultCache[Parameter(index)] == (counter, result)
    {
      r, result, hit := session.CachedExecute(READ_PARAMETER, Parameter(index), false, counterWire, counter, valueWire, value);
    }

    method MenuCommand(cmd: Command, confirm: bool, wire: Wire) returns (r: Result)
      requires cmd == SAVE_MENU || cmd == RELOAD_MENU
      modifies session
      ensures (r, session.View()) == ExecuteOn(old(session.View()), cmd, confirm, wire)
      ensures session.resultCache == if r == Done then map[] else old(session.resultCache)
    {
      r := session.Execute(cmd, confirm, wire);
      if r == Done { session.InvalidateCache(None); }
    }

    /** Probes the reopened port through a new client; null when the probe raised. */
    method ProbeXbpi(request: bytes, arrived: nat) returns (client: XbpiProtocolClient?)
      requires transport.port != null && transport.pushback == []
      modifies transport`pushback, transport.port
      ensures client != null <==> ProbeSucceeds(Xbpi, Opens(old(transport.port.events), old(transport.port.writes)), 0)
      ensures client != null ==> fresh(client) && client.transport == transport && !client.disposed
    {
      client := new XbpiProtocolClient(transport);
      var r := client.ExecuteLocked(request, arrived);
      if !r.Delivered? { return null; }
    }

    method ProbeSbi(request: bytes, looks: nat, arrived: nat) returns (client: SbiProtocolClient?)
      requires transport.port != null && transport.pushback == []
      modifies transport`pushback, transport.port
      ensures client != null <==> ProbeSucceeds(Sbi, Opens(old(transport.port.events), old(transport.port.writes)), looks)
      ensures client != null ==> fresh(client) && client.transport == transport && !client.disposed
      ensures client != null ==>
        client.autoprintActive == AutoprintAmong(Crlf(Leading(old(transport.port.events))), Min(looks, 4))
    {
      hide AutoprintAmong;
      SbiProbeIff(transport.port.events, MAX_SNIFF_LINES, looks);
      hide ReadUntilOn, DetectOn, Parse;
      client := new SbiProtocolClient(transport);
      ghost var writes := transport.port.writes;
      ghost var start := client.Now();
      var sniffed := client.Sniff(MAX_SNIFF_LINES, looks, false);
      assert start == SbiClient.State([], View([], old(transport.port.events)));
      assert client.autoprintActive == DetectOn(start, MAX_SNIFF_LINES, looks).1;
      if sniffed.SniffFailed? { return null; }
      if client.autoprintActive { return; }
      var r := client.ExecuteLocked(request, 1, arrived);
      if !r.Lined? { return null; }
    }

    /** Reopens at the framing the session remembers, or marks the session BROKEN. */
    method RollBack(oldSettings: Option<SerialSettings>) returns (r: ConfigResult)
      modifies session`broken, transport
      ensures r == (if oldSettings.Some? && !NextOpen(old(transport.attempts)).Opens? then RollbackFailed else SwitchFailed)
      ensures session.broken <==> old(session.broken) || oldSettings.None? || r.RollbackFailed?
      ensures oldSettings.None? ==>
        transport.port == old(transport.port) && transport.settings == old(transport.settings)
      ensures oldSettings.Some? ==>
        && transport.settings == Overlay(old(transport.settings), FramingOf(oldSettings.value))
        && (transport.port != null <==> r == SwitchFailed)
    {
      if oldSettings.None? {
        session.MarkBroken();
        return SwitchFailed;
      }
      var o := transport.Reopen(FramingOf(oldSettings.value));
      if !o.Opened? {
        session.MarkBroken();
        return RollbackFailed;
      }
      r := SwitchFailed;
    }

    /** The call gets past its pre-I/O checks. */
    predicate Proceeds(target: Option<Protocol>, framing: Framing, confirm: bool)
      reads session
    {
      target.Some? && confirm && !session.broken && (target.value != session.active || framing != Framing(None, None, None))
    }

    /** A probe can only be cancelled on a port that opened. */
    predicate Strikes(cancel: Option<CancelPoint>)
      reads transport
    {
      cancel.Some? && (cancel.value.Probing? ==> NextOpen(transport.attempts).Opens?)
    }

    /** The switch as far as it gets before the cancellation. */
    method CancelSwitch(framing: Framing, arrived: nat, point: CancelPoint)
      requires point.Probing? ==> NextOpen(transport.attempts).Opens?
      modifies transport, if point.Waiting? then {} else {transport.port}
      ensures point.Waiting? ==> unchanged(transport)
      ensures point.Draining? ==> transport.port == old(transport.port) && transport.pushback == []
      ensures point.Closing? || point.Opening? ==> transport.port == null
      ensures point.Probing? ==> transport.port != null
      ensures transport.settings ==
        if point.Opening? || point.Probing? then Overlay(old(transport.settings), framing) else old(transport.settings)
    {
      if point.Waiting? { return; }
      transport.DrainInput(arrived);
      match point
      case Closing => transport.Close();
      case Opening =>
        transport.Close();
        transport.settings := Overlay(transport.settings, framing);
      case Probing(consumed) =>
        var o := transport.Reopen(framing);
        transport.DrainInput(consumed);
      case _ =>
    }

    /** Either the new protocol and framing are installed and the old clients retired, or the
        session is as it was with the port open at the framing it remembers, or it is BROKEN; and
        the environment alone decides which. Cancellation is no `Exception`: it skips the rollback
        and leaves the session as it was, not BROKEN, over a transport that is untouched before the
        reopen, closed during it, and open at the new framing after it. */
    method ConfigureProtocol(target: Option<Protocol>, framing: Framing, confirm: bool,
                             request: bytes, looks: nat, arrived: nat, cancel: Option<CancelPoint>)
      returns (r: ConfigResult)
      requires Valid()
      modifies session, transport, transport.port, session.xbpi, session.sbi
      ensures r == TargetIsAuto <==> target.None?
      ensures r == Unconfirmed <==> target.Some? && !confirm
      ensures r == AlreadyBroken <==> target.Some? && confirm && old(session.broken)
      ensures r == Unchanged <==>
        target == Some(old(session.active)) && confirm && !old(session.broken) && framing == Framing(None, None, None)
      ensures !old(Proceeds(target, framing, confirm)) ==>
        && r in {TargetIsAuto, Unconfirmed, AlreadyBroken, Unchanged}
        && SameSession() && session.broken == old(session.broken) && SameTransport()
      ensures old(Proceeds(target, framing, confirm)) && old(Strikes(cancel)) ==>
        && r == CutShort && SameSession() && !session.broken
        && (cancel.value.Waiting? ==> SameTransport())
        && (cancel.value.Draining? ==> transport.port == old(transport.port) && transport.pushback == [])
        && (cancel.value.Closing? || cancel.value.Opening? ==> transport.port == null)
        && (cancel.value.Probing? ==> transport.port != null)
        && transport.settings ==
             if cancel.value.Opening? || cancel.value.Probing? then Overlay(old(transport.settings), framing) else old(transport.settings)
      ensures old(Proceeds(target, framing, confirm)) && !old(Strikes(cancel)) ==>
        && (r == Switched <==> Answers(target.value, NextOpen(old(transport.attempts)), looks))
        && Outcome(r, target.value, framing)
      ensures Speechless(NextOpen(old(transport.attempts))) ==> r != Switched
      ensures r == Switched ==> session.autoprint == SeesAutoprint(target.value, NextOpen(old(transport.attempts)), looks)
      ensures r == Switched && old(session.xbpi) != null ==> old(session.xbpi).disposed
      ensures r == Switched && old(session.sbi) != null ==> old(session.sbi).disposed
    {
      hide ProbeSucceeds, Overlay, NextOpen, Later, FramingOf, Answers, Outcome, SeesAutoprint;
      if target.None? { return TargetIsAuto; }
      if !confirm { return Unconfirmed; }
      if session.broken { return AlreadyBroken; }
      if target.value == session.active && framing == Framing(None, None, None) { return Unchanged; }
      var strikes := cancel.Some? && (cancel.value.Probing? ==> NextOpen(transport.attempts).Opens?);
      if strikes {
        CancelSwitch(framing, arrived, cancel.value);
        return CutShort;
      }
      if Speechless(NextOpen(transport.attempts)) { SilenceAnswersNothing(target.value, NextOpen(transport.attempts), looks); }
      hide Speechless;
      r := SwitchOver(target.value, framing, request, looks, arrived);
    }

    /** What the locked section leaves: (a) installed, or (b) as it was, or (c) BROKEN. */
    twostate predicate Outcome(r: ConfigResult, target: Protocol, framing: Framing)
      reads session, session.xbpi, session.sbi, transport
    {
      && (r == Switched || r == SwitchFailed || r == RollbackFailed)
      && (r == Switched ==>
            && Valid() && session.active == target && !session.broken
            && (if session.active == Xbpi then session.sbi == null && fresh(session.xbpi) && !session.xbpi.disposed
                else session.xbpi == null && fresh(session.sbi) && !session.sbi.disposed)
            && session.availability == map[] && session.warnedPriors == {} && session.resultCache == map[]
            && transport.port != null && transport.settings == Overlay(old(transport.settings), framing)
            && session.serialSettings == (match old(session.serialSettings) case None => None case Some(s) => Some(Overlay(s, framing))))
      // (b) and (c): the session keeps its clients and everything it knew
      && (r == SwitchFailed || r == RollbackFailed ==>
            && SameSession()
            && (session.broken <==> session.serialSettings.None? || !NextOpen(Later(old(transport.attempts))).Opens?)
            && (r == RollbackFailed <==> session.broken && session.serialSettings.Some?)
            && (r == RollbackFailed ==> transport.port == null))
      && (r == SwitchFailed && !session.broken ==>
            && transport.port != null && FramingOf(transport.settings) == FramingOf(session.serialSettings.value)
            && (transport.settings == old(transport.settings) <==> FramingOf(old(transport.settings)) == FramingOf(session.serialSettings.value)))
    }

    /** The section under the old client's lock, uncancelled. */
    method SwitchOver(target: Protocol, framing: Framing, request: bytes, looks: nat, arrived: nat)
      returns (r: ConfigResult)
      requires Valid() && !session.broken
      modifies session, transport, transport.port, session.xbpi, session.sbi
      ensures r == Switched <==> Answers(target, NextOpen(old(transport.attempts)), looks)
      ensures r == Switched || r == SwitchFailed || r == RollbackFailed
      ensures r == Switched ==> session.autoprint == SeesAutoprint(target, NextOpen(old(transport.attempts)), looks)
      ensures Outcome(r, target, framing)
      ensures r == Switched && old(session.xbpi) != null ==> old(session.xbpi).disposed
      ensures r == Switched && old(session.sbi) != null ==> old(session.sbi).disposed
    {
      hide ProbeSucceeds, Overlay, NextOpen, Later, FramingOf, Answers, AutoprintAmong;
      var oldSettings := session.serialSettings;
      var newXbpi, newSbi := SwitchTransport(target, framing, request, looks, arrived);
      if newXbpi == null && newSbi == null {
        r := RollBack(oldSettings);
        if oldSettings.Some? { OverlayWhole(Overlay(old(transport.settings), framing), old(transport.settings), oldSettings); }
        return;
      }
      Install(target, framing, newXbpi, newSbi);
      r := Switched;
    }

    /** Drains, reopens and probes; both results are null when any of it raised. */
    method SwitchTransport(target: Protocol, framing: Framing, request: bytes, looks: nat, arrived: nat)
      returns (xbpi: XbpiProtocolClient?, sbi: SbiProtocolClient?)
      modifies transport, transport.port
      ensures xbpi != null || sbi != null <==> Answers(target, NextOpen(old(transport.attempts)), looks)
      ensures target == Xbpi ==> sbi == null
      ensures target == Sbi ==> xbpi == null
      ensures xbpi != null ==> fresh(xbpi) && xbpi.transport == transport && !xbpi.disposed
      ensures sbi != null ==> fresh(sbi) && sbi.transport == transport && !sbi.disposed
      ensures sbi != null ==> NextOpen(old(transport.attempts)).Opens?
      ensures sbi != null ==>
        sbi.autoprintActive == AutoprintAmong(Crlf(Leading(NextOpen(old(transport.attempts)).events)), Min(looks, 4))
      ensures xbpi != null || sbi != null ==> transport.port != null
      ensures transport.settings == Overlay(old(transport.settings), framing)
      ensures transport.attempts == Later(old(transport.attempts))
    {
      hide ProbeSucceeds, Answers, AutoprintAmong;
      ProbeSucceedsIff(target, NextOpen(transport.attempts), looks);
      xbpi, sbi := null, null;
      transport.DrainInput(arrived);
      var o := transport.Reopen(framing);
      RefusedProbeFails(target, looks);
      if !o.Opened? { return; }
      if target == Xbpi {
        xbpi := ProbeXbpi(request, arrived);
        LooksIrrelevant(NextOpen(old(transport.attempts)), looks);
      } else {
        sbi := ProbeSbi(request, looks, arrived);
      }
    }

    /** `replace_clients`, then retire the clients that were replaced. */
    method Install(target: Protocol, framing: Framing, xbpi: XbpiProtocolClient?, sbi: SbiProtocolClient?)
      requires if target == Xbpi then xbpi != null && sbi == null else sbi != null && xbpi == null
      requires xbpi != session.xbpi || xbpi == null
      requires sbi != session.sbi || sbi == null
      modifies session, session.xbpi, session.sbi
      ensures session.Wired() && session.xbpi == xbpi && session.sbi == sbi && session.active == target
      ensures session.broken == old(session.broken)
      ensures session.autoprint == (sbi != null && old(sbi.autoprintActive))
      ensures session.availability == map[] && session.warnedPriors == {} && session.resultCache == map[]
      ensures old(session.xbpi) != null ==> old(session.xbpi).disposed
      ensures old(session.sbi) != null ==> old(session.sbi).disposed
      ensures session.serialSettings == (match old(session.serialSettings) case None => None case Some(s) => Some(Overlay(s, framing)))
    {
      var oldXbpi, oldSbi := session.xbpi, session.sbi;
      var settings := match session.serialSettings case None => None case Some(s) => Some(Overlay(s, framing));
      var ok := session.ReplaceClients(xbpi, sbi, target, sbi != null && sbi.autoprintActive, settings);
      assert session.View().active == target && session.View().availability == map[];
      if oldXbpi != null { oldXbpi.Dispose(); }
      if oldSbi != null { oldSbi.Dispose(); }
    }

    twostate predicate SameSession()
      reads session, session.xbpi, session.sbi
    {
      && session.xbpi == old(session.xbpi) && session.sbi == old(session.sbi) && session.active == old(session.active)
      && session.availability == old(session.availability) && session.warnedPriors == old(session.warnedPriors)
      && session.resultCache == old(session.resultCache) && session.serialSettings == old(session.serialSettings)
      && session.capabilities == old(session.capabilities) && session.sent == old(session.sent)
      && (session.xbpi != null ==> session.xbpi.disposed == old(session.xbpi.disposed))
      && (session.sbi != null ==> session.sbi.disposed == old(session.sbi.disposed))
    }

    twostate predicate SameTransport()
      reads transport, transport.port
    {
      && unchanged(transport)
      && (transport.port != null ==> transport.port.events == old(transport.port.events) && transport.port.sent == old(transport.port.sent))
    }
  }

  /** Reopening at a remembered framing undoes an overlay exactly when it was the old framing. */
  lemma OverlayWhole(now: SerialSettings, was: SerialSettings, remembered: Option<SerialSettings>)
    requires now.port == was.port && remembered.Some?
    ensures var back := Overlay(now, FramingOf(remembered.value));
      && FramingOf(back) == FramingOf(remembered.value)
      && (back == was <==> FramingOf(was) == FramingOf(remembered.value))
  {
  }

  lemma RefusedProbeFails(target: Protocol, looks: nat)
    ensures forall fault :: !ProbeSucceeds(target, Refuses(fault), looks)
  {
  }

  lemma LooksIrrelevant(port: OpenOutcome, looks: nat)
    ensures ProbeSucceeds(Xbpi, port, looks) == ProbeSucceeds(Xbpi, port, 0)
  {
  }
}
