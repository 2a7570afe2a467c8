/** `Session`: the gates in front of every command, per-command availability, the result cache. */
module Session {
  import opened Bytes
  import opened Settings
  import Line
  import XbpiFraming
  import XbpiClient
  import SbiClient

  datatype Protocol = Xbpi | Sbi
  datatype Availability = Supported | Unsupported | Inapplicable
  datatype Tier = ReadOnly | Stateful | Persistent | Dangerous
  datatype Capability = ConfigCounter | ParameterTable | Other(id: nat)

  datatype SbiVariant = SbiVariant(expectLines: nat, isPrint: bool)

  datatype Command = Command(
    name: string,
    hasXbpi: bool,
    sbi: Option<SbiVariant>,
    familyHints: set<nat>,
    capabilityHints: set<Capability>,
    tier: Tier,
    parameterized: bool)

  const CONFIG_COUNTER := Command("config_counter", true, None, {}, {ConfigCounter}, ReadOnly, false)

  /** What becomes of the request: `EncodeFails` before the client is reached, the rest is what the
      client makes of the exchange. `surprise`: an SBI reply line looked like
      autoprint output. `decodes`: the variant could decode the reply. */
  datatype Wire =
    | EncodeFails
    | Replied(surprise: bool, decodes: bool)
    | Refused04
    | Refused06
    | WireError

  datatype Result =
    | Done
    // gate failures, raised before any byte is sent
    | BrokenSession | NeedsConfirmation | NoVariant | KnownUnsupported | PriorsMismatch | AutoprintActive
    // the request could not be built, after the gates and before any byte is sent
    | EncodeError
    // after the exchange
    | SurpriseAutoprint | UnsupportedCommand | IndexOutOfRange | NotApplicable | OtherError | DecodeError

  predicate GateFailure(r: Result) {
    r.BrokenSession? || r.NeedsConfirmation? || r.NoVariant? || r.KnownUnsupported? || r.PriorsMismatch? || r.AutoprintActive?
  }

  /** Raised before the client is reached. */
  predicate PreIO(r: Result) { GateFailure(r) || r.EncodeError? }

  datatype State = State(
    broken: bool,
    active: Protocol,
    family: nat,
    capabilities: set<Capability>,
    strict: bool,
    autoprint: bool,
    availability: map<string, Availability>,
    warned: set<string>,
    warnings: seq<string>, // every warning issued
    sent: seq<string>,     // the commands handed to the protocol client
    raws: nat)             // the raw calls handed to it

  predicate HasVariant(s: State, cmd: Command) {
    if s.active == Xbpi then cmd.hasXbpi else cmd.sbi.Some?
  }

  predicate PriorsHold(s: State, cmd: Command) {
    (cmd.familyHints == {} || s.family in cmd.familyHints) && cmd.capabilityHints <= s.capabilities
  }

  /** The first gate that refuses, in order; Done when none does. */
  function Gate(s: State, cmd: Command, confirm: bool): Result {
    if s.broken then BrokenSession
    else if (cmd.tier == Persistent || cmd.tier == Dangerous) && !confirm then NeedsConfirmation
    else if !HasVariant(s, cmd) then NoVariant
    else if cmd.name in s.availability && s.availability[cmd.name] == Unsupported then KnownUnsupported
    else if !PriorsHold(s, cmd) && s.strict then PriorsMismatch
    else Done
  }

  /** Without `strict` a mismatch warns, once per command. */
  function Warned(s: State, cmd: Command): State {
    if PriorsHold(s, cmd) || cmd.name in s.warned then s
    else s.(warned := s.warned + {cmd.name}, warnings := s.warnings + [cmd.name])
  }

  function Mark(s: State, name: string, a: Availability): State {
    s.(availability := s.availability[name := a])
  }

  function Dispatch(s: State, cmd: Command, wire: Wire): (Result, State) {
    if wire.EncodeFails? then (EncodeError, s)
    else if s.active == Sbi && s.autoprint && cmd.sbi.Some? && cmd.sbi.value.expectLines > 0 then (AutoprintActive, s)
    else
      var s1 := s.(sent := s.sent + [cmd.name]);
      match wire
      case Replied(surprise, decodes) =>
        if s.active == Sbi && surprise && !s.autoprint && cmd.sbi.Some? && !cmd.sbi.value.isPrint then
          (SurpriseAutoprint, s1.(autoprint := true))
        else (if decodes then Done else DecodeError, Mark(s1, cmd.name, Supported))
      case Refused04 =>
        // the 0x04 / 0x06 mapping belongs to the xBPI path; an SBI refusal is a plain error
        if s.active == Sbi then (OtherError, s1)
        else if cmd.parameterized then (IndexOutOfRange, s1)
        else (UnsupportedCommand, Mark(s1, cmd.name, Unsupported))
      case Refused06 =>
        if s.active == Sbi then (OtherError, s1) else (NotApplicable, Mark(s1, cmd.name, Inapplicable))
      case WireError => (OtherError, s1)
  }

  function ExecuteOn(s: State, cmd: Command, confirm: bool, wire: Wire): (Result, State) {
    var gate := Gate(s, cmd, confirm);
    if gate != Done then (gate, s) else Dispatch(Warned(s, cmd), cmd, wire)
  }

  /** A raw call: whether it is on the safe-list, and for SBI whether it expects lines and whether it
      is the print token. */
  datatype Raw = Raw(protocol: Protocol, safe: bool, expectsLines: bool, isPrint: bool)

  /** SBI normalizes the token before it consults the safe-list, xBPI builds the frame after. */
  function RawGate(s: State, raw: Raw, confirm: bool, encodes: bool): Result {
    if s.broken then BrokenSession
    else if s.active != raw.protocol then NoVariant
    else if raw.protocol == Sbi && !encodes then EncodeError
    else if !raw.safe && !confirm then NeedsConfirmation
    else if !encodes then EncodeError
    else if raw.protocol == Sbi && s.autoprint && raw.expectsLines then AutoprintActive
    else Done
  }

  /** Raw calls never touch the availability map. */
  function ExecuteRawOn(s: State, raw: Raw, confirm: bool, wire: Wire): (Result, State) {
    var gate := RawGate(s, raw, confirm, !wire.EncodeFails?);
    if gate != Done then (gate, s)
    else
      var s1 := s.(raws := s.raws + 1);
      match wire
      case Replied(surprise, _) =>
        if raw.protocol == Sbi && surprise && !s.autoprint && !raw.isPrint then (SurpriseAutoprint, s1.(autoprint := true))
        else (Done, s1)
      case Refused04 => (if raw.protocol == Xbpi then UnsupportedCommand else OtherError, s1)
      case Refused06 => (if raw.protocol == Xbpi then NotApplicable else OtherError, s1)
      case WireError => (OtherError, s1)
  }

  datatype Key = Parameter(index: nat) | Named(name: string)
  type Cache = map<Key, (byte, int)>

  function Lookup(cache: Cache, key: Key, counter: byte): Option<int> {
    if key in cache && cache[key].0 == counter then Some(cache[key].1) else None
  }

  class Session {
    var xbpi: XbpiClient.XbpiProtocolClient?
    var sbi: SbiClient.SbiProtocolClient?
    var active: Protocol
    var family: nat
    var capabilities: set<Capability>
    var strict: bool
    var autoprint: bool
    var availability: map<string, Availability>
    var warnedPriors: set<string>
    var resultCache: Cache
    var broken: bool
    var serialSettings: Option<SerialSettings>
    var warnings: seq<string>
    var sent: seq<string>
    var raws: nat

    constructor (xbpi: XbpiClient.XbpiProtocolClient?, sbi: SbiClient.SbiProtocolClient?, active: Protocol,
                 strict: bool, settings: Option<SerialSettings>)
      requires if active == Xbpi then xbpi != null else sbi != null
      ensures Wired() && View() == State(false, active, 0, {}, strict, false, map[], {}, [], [], 0)
      ensures this.xbpi == xbpi && this.sbi == sbi && serialSettings == settings && resultCache == map[]
    {
      this.xbpi, this.sbi, this.active, this.strict, serialSettings := xbpi, sbi, active, strict, settings;
      family, capabilities, autoprint, availability, warnedPriors := 0, {}, false, map[], {};
      resultCache, broken, warnings, sent, raws := map[], false, [], [], 0;
    }

    /** The client of the active protocol is there. */
    predicate Wired()
      reads this
    {
      if active == Xbpi then xbpi != null else sbi != null
    }

    function View(): State
      reads this
    {
      State(broken, active, family, capabilities, strict, autoprint, availability, warnedPriors, warnings, sent, raws)
    }

    /** The gates, in order; the prior gate may warn. */
    method PassGates(cmd: Command, confirm: bool) returns (r: Result)
      modifies this`warnedPriors, this`warnings
      ensures r == Gate(old(View()), cmd, confirm)
      ensures View() == if r == Done then Warned(old(View()), cmd) else old(View())
    {
      if broken { return BrokenSession; }
      if cmd.tier != ReadOnly && cmd.tier != Stateful && !confirm { return NeedsConfirmation; }
      if (active == Xbpi && !cmd.hasXbpi) || (active == Sbi && cmd.sbi.None?) { return NoVariant; }
      if cmd.name in availability && availability[cmd.name] == Unsupported { return KnownUnsupported; }
      var familyOk := cmd.familyHints == {} || family in cmd.familyHints;
      var capsOk := cmd.capabilityHints == {} || capabilities * cmd.capabilityHints == cmd.capabilityHints;
      assert capabilities * cmd.capabilityHints <= capabilities;
      if !(familyOk && capsOk) {
        if strict { return PriorsMismatch; }
        if cmd.name !in warnedPriors {
          warnedPriors := warnedPriors + {cmd.name};
          warnings := warnings + [cmd.name];
        }
      }
      r := Done;
    }

    method ExecuteXbpi(cmd: Command, wire: Wire) returns (r: Result)
      requires active == Xbpi
      modifies this`availability, this`sent
      ensures (r, View()) == Dispatch(old(View()), cmd, wire)
    {
      if wire.EncodeFails? { return EncodeError; }
      sent := sent + [cmd.name];
      match wire
      case Replied(_, decodes) =>
        availability := availability[cmd.name := Supported];
        r := if decodes then Done else DecodeError;
      case Refused04 =>
        if cmd.parameterized { return IndexOutOfRange; }
        availability := availability[cmd.name := Unsupported];
        r := UnsupportedCommand;
      case Refused06 =>
        availability := availability[cmd.name := Inapplicable];
        r := NotApplicable;
      case WireError =>
        r := OtherError;
    }

    method ExecuteSbi(cmd: Command, wire: Wire) returns (r: Result)
      requires active == Sbi && cmd.sbi.Some?
      modifies this`availability, this`sent, this`autoprint
      ensures (r, View()) == Dispatch(old(View()), cmd, wire)
    {
      if wire.EncodeFails? { return EncodeError; }
      var variant := cmd.sbi.value;
      if autoprint && variant.expectLines > 0 { return AutoprintActive; }
      sent := sent + [cmd.name];
      if !wire.Replied? { return OtherError; }
      if wire.surprise && !autoprint && !variant.isPrint {
        autoprint := true;
        return SurpriseAutoprint;
      }
      availability := availability[cmd.name := Supported];
      r := if wire.decodes then Done else DecodeError;
    }

    method Execute(cmd: Command, confirm: bool, wire: Wire) returns (r: Result)
      modifies this`availability, this`warnedPriors, this`warnings, this`sent, this`autoprint
      ensures (r, View()) == ExecuteOn(old(View()), cmd, confirm, wire)
    {
      hide Dispatch, Warned;
      r := PassGates(cmd, confirm);
      if r != Done { return; }
      if active == Xbpi {
        r := ExecuteXbpi(cmd, wire);
      } else {
        r := ExecuteSbi(cmd, wire);
      }
    }

    method ExecuteRawXbpi(raw: Raw, confirm: bool, wire: Wire) returns (r: Result)
      requires raw.protocol == Xbpi
      modifies this`raws
      ensures (r, View()) == ExecuteRawOn(old(View()), raw, confirm, wire)
    {
      if broken { return BrokenSession; }
      if active != Xbpi { return NoVariant; }
      if !raw.safe && !confirm { return NeedsConfirmation; }
      if wire.EncodeFails? { return EncodeError; }
      raws := raws + 1;
      match wire
      case Replied(_, _) => r := Done;
      case Refused04 => r := UnsupportedCommand;
      case Refused06 => r := NotApplicable;
      case WireError => r := OtherError;
    }

    method ExecuteRawSbi(raw: Raw, confirm: bool, wire: Wire) returns (r: Result)
      requires raw.protocol == Sbi
      modifies this`raws, this`autoprint
      ensures (r, View()) == ExecuteRawOn(old(View()), raw, confirm, wire)
    {
      if broken { return BrokenSession; }
      if active != Sbi { return NoVariant; }
      if wire.EncodeFails? { return EncodeError; }
      if !raw.safe && !confirm { return NeedsConfirmation; }
      if autoprint && raw.expectsLines { return AutoprintActive; }
      raws := raws + 1;
      if !wire.Replied? { return OtherError; }
      if wire.surprise && !autoprint && !raw.isPrint {
        autoprint := true;
        return SurpriseAutoprint;
      }
      r := Done;
    }

    /** Reads the counter, answers from the cache when it has not moved, and otherwise runs the
        command and pins its value to the counter read before it. */
    method CachedExecute(cmd: Command, key: Key, confirm: bool,
                         counterWire: Wire, counter: byte, valueWire: Wire, value: int)
      returns (r: Result, result: int, hit: bool)
      modifies this`availability, this`warnedPriors, this`warnings, this`sent, this`autoprint, this`resultCache
      ensures hit ==> r == Done && Lookup(old(resultCache), key, counter) == Some(result)
      ensures !hit && r == Done ==> result == value
      ensures ConfigCounter !in old(capabilities) ==>
        !hit && resultCache == old(resultCache) && (r, View()) == ExecuteOn(old(View()), cmd, confirm, valueWire)
      ensures ConfigCounter in old(capabilities) ==>
        var (c, s1) := ExecuteOn(old(View()), CONFIG_COUNTER, false, counterWire);
        var (v, s2) := ExecuteOn(s1, cmd, confirm, valueWire);
        && (c != Done ==> !hit && r == c && View() == s1 && resultCache == old(resultCache))
        && (c == Done ==>
              && (hit <==> Lookup(old(resultCache), key, counter).Some?)
              && (hit ==> View() == s1 && resultCache == old(resultCache))
              && (!hit ==> r == v && View() == s2)
              && (!hit ==> resultCache == if v == Done then old(resultCache)[key := (counter, value)] else old(resultCache)))
    {
      result, hit := 0, false;
      if ConfigCounter !in capabilities {
        r := Execute(cmd, confirm, valueWire);
        result := value;
        return;
      }
      r := Execute(CONFIG_COUNTER, false, counterWire);
      if r != Done { return; }
      if key in resultCache && resultCache[key].0 == counter {
        return Done, resultCache[key].1, true;
      }
      r := Execute(cmd, confirm, valueWire);
      if r != Done { return; }
      resultCache := resultCache[key := (counter, value)];
      result := value;
    }

    method InvalidateCache(key: Option<Key>)
      modifies this`resultCache
      ensures resultCache == if key.None? then map[] else old(resultCache) - {key.value}
    {
      resultCache := if key.None? then map[] else resultCache - {key.value};
    }

    method MarkBroken()
      modifies this`broken
      ensures broken
    {
      broken := true;
    }

    method ForgetProtocol()
      modifies this`availability, this`warnedPriors, this`resultCache
      ensures availability == map[] && warnedPriors == {} && resultCache == map[]
    {
      availability, warnedPriors, resultCache := map[], {}, map[];
    }

    /** Installs new clients and forgets everything learned about the old protocol. */
    method ReplaceClients(xbpi: XbpiClient.XbpiProtocolClient?, sbi: SbiClient.SbiProtocolClient?, active: Protocol,
                          autoprint: bool, settings: Option<SerialSettings>)
      returns (ok: bool)
      modifies this`xbpi, this`sbi, this`active, this`autoprint, this`serialSettings
      modifies this`availability, this`warnedPriors, this`resultCache
      ensures ok <==> (if active == Xbpi then xbpi != null else sbi != null)
      ensures ok ==> Wired() && this.xbpi == xbpi && this.sbi == sbi && resultCache == map[]
      ensures ok ==> View() == old(View()).(active := active, autoprint := autoprint, availability := map[], warned := {})
      ensures ok ==> serialSettings == if settings.Some? then settings else old(serialSettings)
      ensures !ok ==> View() == old(View()) && this.xbpi == old(this.xbpi) && this.sbi == old(this.sbi)
      ensures !ok ==> resultCache == old(resultCache) && serialSettings == old(serialSettings)
    {
      if (active == Xbpi && xbpi == null) || (active == Sbi && sbi == null) { return false; }
      this.xbpi, this.sbi, this.active, this.autoprint := xbpi, sbi, active, autoprint;
      if settings.Some? { serialSettings := settings; }
      ForgetProtocol();
      ok := true;
    }
  }

  // ------------------------------------------------------------------ one call, condition by condition

  /** What is asked of a call before its request goes out, each with the refusal it earns when it is the
      first to fail. The request is handed to the client, once, exactly when nothing fails. */
  lemma SentIff(s: State, cmd: Command, confirm: bool, wire: Wire)
    ensures var (r, s') := ExecuteOn(s, cmd, confirm, wire);
      var confirmed := cmd.tier == ReadOnly || cmd.tier == Stateful || confirm;
      var spoken := (s.active == Xbpi && cmd.hasXbpi) || (s.active == Sbi && cmd.sbi.Some?);
      var denied := cmd.name in s.availability && s.availability[cmd.name] == Unsupported;
      var fits := (cmd.familyHints == {} || s.family in cmd.familyHints) && forall c :: c in cmd.capabilityHints ==> c in s.capabilities;
      var gated := s.broken || !confirmed || !spoken || denied || (s.strict && !fits);
      var drowned := s.active == Sbi && s.autoprint && spoken && cmd.sbi.value.expectLines > 0;
      && (r == BrokenSession <==> s.broken)
      && (r == NeedsConfirmation <==> !s.broken && !confirmed)
      && (r == NoVariant <==> !s.broken && confirmed && !spoken)
      && (r == KnownUnsupported <==> !s.broken && confirmed && spoken && denied)
      && (r == PriorsMismatch <==> !s.broken && confirmed && spoken && !denied && s.strict && !fits)
      && (r == EncodeError <==> !gated && wire == EncodeFails)
      && (r == AutoprintActive <==> !gated && wire != EncodeFails && drowned)
      && s'.sent == s.sent + (if !gated && wire != EncodeFails && !drowned then [cmd.name] else [])
      && s'.warnings == s.warnings + (if !gated && !fits && cmd.name !in s.warned then [cmd.name] else [])
  {
    hide Dispatch, Gate, Warned, PriorsHold, HasVariant;
    GateIs(s, cmd, confirm);
    WarnedIs(s, cmd);
    DispatchSends(Warned(s, cmd), cmd, wire);
    assert s.sent + [] == s.sent && s.warnings + [] == s.warnings;
  }

  lemma GateIs(s: State, cmd: Command, confirm: bool)
    ensures var r := Gate(s, cmd, confirm);
      var confirmed := cmd.tier == ReadOnly || cmd.tier == Stateful || confirm;
      var spoken := (s.active == Xbpi && cmd.hasXbpi) || (s.active == Sbi && cmd.sbi.Some?);
      var denied := cmd.name in s.availability && s.availability[cmd.name] == Unsupported;
      var fits := (cmd.familyHints == {} || s.family in cmd.familyHints) && forall c :: c in cmd.capabilityHints ==> c in s.capabilities;
      && (r == BrokenSession <==> s.broken)
      && (r == NeedsConfirmation <==> !s.broken && !confirmed)
      && (r == NoVariant <==> !s.broken && confirmed && !spoken)
      && (r == KnownUnsupported <==> !s.broken && confirmed && spoken && denied)
      && (r == PriorsMismatch <==> !s.broken && confirmed && spoken && !denied && s.strict && !fits)
      && (r == Done <==> !s.broken && confirmed && spoken && !denied && !(s.strict && !fits))
  {
    assert cmd.capabilityHints <= s.capabilities <==> forall c :: c in cmd.capabilityHints ==> c in s.capabilities;
  }

  lemma WarnedIs(s: State, cmd: Command)
    ensures var w := Warned(s, cmd);
      var fits := (cmd.familyHints == {} || s.family in cmd.familyHints) && forall c :: c in cmd.capabilityHints ==> c in s.capabilities;
      && w.warnings == s.warnings + (if !fits && cmd.name !in s.warned then [cmd.name] else [])
      && w.(warnings := s.warnings, warned := s.warned) == s
  {
    assert cmd.capabilityHints <= s.capabilities <==> forall c :: c in cmd.capabilityHints ==> c in s.capabilities;
    assert s.warnings + [] == s.warnings;
  }

  lemma DispatchSends(s: State, cmd: Command, wire: Wire)
    ensures var (r, s') := Dispatch(s, cmd, wire);
      var drowned := s.active == Sbi && s.autoprint && cmd.sbi.Some? && cmd.sbi.value.expectLines > 0;
      && (r == EncodeError <==> wire == EncodeFails)
      && (r == AutoprintActive <==> wire != EncodeFails && drowned)
      && (GateFailure(r) ==> r == AutoprintActive)
      && s'.sent == s.sent + (if wire != EncodeFails && !drowned then [cmd.name] else [])
      && s'.warnings == s.warnings
  {
    assert s.sent + [] == s.sent;
  }

  /** What a call that was sent answers, and what is remembered of it. */
  lemma AnswerIs(s: State, cmd: Command, confirm: bool, wire: Wire)
    requires ExecuteOn(s, cmd, confirm, wire).1.sent == s.sent + [cmd.name]
    ensures var (r, s') := ExecuteOn(s, cmd, confirm, wire);
      var surprised := s.active == Sbi && wire.Replied? && wire.surprise && !s.autoprint && !cmd.sbi.value.isPrint;
      var kept := s'.availability == s.availability;
      var marked := cmd.name in s'.availability && s'.availability == s.availability[cmd.name := s'.availability[cmd.name]];
      && (r == SurpriseAutoprint <==> surprised)
      && (surprised ==> kept)
      && s'.autoprint == (s.autoprint || surprised)
      && (wire.Replied? && !surprised ==>
            r == (if wire.decodes then Done else DecodeError) && marked && s'.availability[cmd.name] == Supported)
      && (wire == Refused04 && s.active == Xbpi && cmd.parameterized ==> r == IndexOutOfRange && kept)
      && (wire == Refused04 && s.active == Xbpi && !cmd.parameterized ==>
            r == UnsupportedCommand && marked && s'.availability[cmd.name] == Unsupported)
      && (wire == Refused06 && s.active == Xbpi ==>
            r == NotApplicable && marked && s'.availability[cmd.name] == Inapplicable)
      && (wire == WireError || (s.active == Sbi && (wire == Refused04 || wire == Refused06)) ==> r == OtherError && kept)
  {
    SentIff(s, cmd, confirm, wire);
  }

  /** The same for a raw call: nothing is asked of a safe-listed one, anything else needs confirmation. */
  lemma RawSentIff(s: State, raw: Raw, confirm: bool, wire: Wire)
    ensures var (r, s') := ExecuteRawOn(s, raw, confirm, wire);
      var allowed := raw.safe || confirm;
      var encodes := wire != EncodeFails;
      var drowned := raw.protocol == Sbi && s.autoprint && raw.expectsLines;
      && (r == BrokenSession <==> s.broken)
      && (r == NoVariant <==> !s.broken && s.active != raw.protocol)
      && (r == NeedsConfirmation <==> !s.broken && s.active == raw.protocol && !allowed && (raw.protocol == Xbpi || encodes))
      && (r == EncodeError <==> !s.broken && s.active == raw.protocol && !encodes && (raw.protocol == Sbi || allowed))
      && (r == AutoprintActive <==> !s.broken && s.active == raw.protocol && encodes && allowed && drowned)
      && s'.raws == s.raws + (if !s.broken && s.active == raw.protocol && encodes && allowed && !drowned then 1 else 0)
      && s'.availability == s.availability && s'.warnings == s.warnings && s'.sent == s.sent
  {
  }

  lemma RawAnswerIs(s: State, raw: Raw, confirm: bool, wire: Wire)
    requires ExecuteRawOn(s, raw, confirm, wire).1.raws == s.raws + 1
    ensures var (r, s') := ExecuteRawOn(s, raw, confirm, wire);
      var surprised := raw.protocol == Sbi && wire.Replied? && wire.surprise && !s.autoprint && !raw.isPrint;
      && (r == SurpriseAutoprint <==> surprised)
      && s'.autoprint == (s.autoprint || surprised)
      && (r == Done <==> wire.Replied? && !surprised)
      && (r == UnsupportedCommand <==> wire == Refused04 && raw.protocol == Xbpi)
      && (r == NotApplicable <==> wire == Refused06 && raw.protocol == Xbpi)
      && (r == OtherError <==> wire == WireError || (raw.protocol == Sbi && (wire == Refused04 || wire == Refused06)))
  {
  }

  /** An entry answers exactly while the device shows the counter it was stored under, and storing or
      dropping one never changes what another answers. */
  lemma EntryAnswers(cache: Cache, key: Key, counter: byte, value: int, asked: Key, shown: byte)
    ensures Lookup(cache[key := (counter, value)], key, shown) == if shown == counter then Some(value) else None
    ensures Lookup(cache - {key}, key, shown).None?
    ensures asked != key ==>
      Lookup(cache[key := (counter, value)], asked, shown) == Lookup(cache, asked, shown) == Lookup(cache - {key}, asked, shown)
  {
  }

  // ------------------------------------------------------------------ from the wire to the session

  /** How an xBPI exchange reaches the session. */
  function WireOf(e: XbpiClient.Exchange, decodes: bool): Wire {
    match e
    case Delivered(_) => Replied(false, decodes)
    case Refusal(kind, _) =>
      if kind == XbpiClient.Unsupported then Refused04
      else if kind == XbpiClient.NotApplicable then Refused06
      else WireError
    case _ => WireError
  }

  /** Error code 0x04 is what can deny a command, 0x06 what makes it inapplicable, and a reply of any
      other subtype is an answer; byte for byte. */
  lemma CodesReachTheSession(subtype: byte, body: bytes, line: Line.Line, decodes: bool)
    requires |body| <= 252 && XbpiFraming.BuildReply(subtype, body).value <= line.ready
    ensures var wire := WireOf(XbpiClient.ExchangeOn(line).0, decodes);
      && (wire.Replied? <==> subtype != 0x01)
      && (wire == Refused04 <==> subtype == 0x01 && body == [0x04])
      && (wire == Refused06 <==> subtype == 0x01 && body == [0x06])
  {
    var raw := XbpiFraming.BuildReply(subtype, body).value;
    assert line.ready == raw + line.ready[|raw|..];
    XbpiClient.RepliesMean(subtype, body, line.ready[|raw|..], line);
    hide XbpiFraming.BuildReply, XbpiClient.ExchangeOn;
  }

  // ------------------------------------------------------------------ runs of calls

  datatype Op =
    | Exec(cmd: Command, confirm: bool, wire: Wire)
    | ExecRaw(raw: Raw, confirm: bool, wire: Wire)
    | Replace(active: Protocol, autoprint: bool)
    | Break

  function StepOn(s: State, op: Op): State {
    match op
    case Exec(cmd, confirm, wire) => ExecuteOn(s, cmd, confirm, wire).1
    case ExecRaw(raw, confirm, wire) => ExecuteRawOn(s, raw, confirm, wire).1
    case Replace(active, autoprint) => s.(active := active, autoprint := autoprint, availability := map[], warned := {})
    case Break => s.(broken := true)
  }

  function RunOn(s: State, ops: seq<Op>): State
    decreases |ops|
  {
    if ops == [] then s else RunOn(StepOn(s, ops[0]), ops[1..])
  }

  predicate NoReplace(ops: seq<Op>) { forall i :: 0 <= i < |ops| ==> !ops[i].Replace? }

  function Count(names: seq<string>, name: string): nat { multiset(names)[name] }

  predicate Denied(s: State, name: string) {
    name in s.availability && s.availability[name] == Unsupported
  }

  /** A gate failure, like a request that cannot be encoded, leaves no trace on the wire or in the
      availability map. */
  lemma GateFailureIsPreIO(s: State, cmd: Command, confirm: bool, wire: Wire)
    requires PreIO(ExecuteOn(s, cmd, confirm, wire).0)
    ensures var s' := ExecuteOn(s, cmd, confirm, wire).1;
      s'.sent == s.sent && s'.availability == s.availability && s'.autoprint == s.autoprint
  {
  }

  /** And everything else did reach the client, exactly once. */
  lemma OtherwiseSentOnce(s: State, cmd: Command, confirm: bool, wire: Wire)
    requires !PreIO(ExecuteOn(s, cmd, confirm, wire).0)
    ensures ExecuteOn(s, cmd, confirm, wire).1.sent == s.sent + [cmd.name]
  {
  }

  /** The same for raw calls, which besides leave everything learned about commands alone. */
  lemma RawIsGated(s: State, raw: Raw, confirm: bool, wire: Wire)
    ensures var (r, s') := ExecuteRawOn(s, raw, confirm, wire);
      && s'.raws == (if PreIO(r) then s.raws else s.raws + 1)
      && s'.(raws := s.raws, autoprint := s.autoprint) == s
      && (s'.autoprint != s.autoprint <==> r == SurpriseAutoprint)
  {
  }

  lemma DeniedIsGated(s: State, cmd: Command, confirm: bool, wire: Wire)
    requires Denied(s, cmd.name)
    ensures ExecuteOn(s, cmd, confirm, wire).1 == s
  {
  }

  lemma DispatchesOwn(s: State, cmd: Command, wire: Wire, name: string)
    requires name != cmd.name
    ensures var s' := Dispatch(s, cmd, wire).1;
      && (Denied(s', name) <==> Denied(s, name))
      && (s'.sent == s.sent || s'.sent == s.sent + [cmd.name])
  {
  }

  /** A call touches the availability and the traffic of its own command only. */
  lemma OwnCommandOnly(s: State, cmd: Command, confirm: bool, wire: Wire, name: string)
    requires name != cmd.name
    ensures var s' := ExecuteOn(s, cmd, confirm, wire).1;
      && (Denied(s', name) <==> Denied(s, name))
      && (s'.sent == s.sent || s'.sent == s.sent + [cmd.name])
  {
    hide Gate, Dispatch;
    DispatchesOwn(Warned(s, cmd), cmd, wire, name);
  }

  lemma CountSnoc(names: seq<string>, last: string, name: string)
    requires last != name
    ensures Count(names + [last], name) == Count(names, name)
  {
  }

  lemma StepSticky(s: State, op: Op, name: string)
    requires Denied(s, name) && !op.Replace?
    ensures Denied(StepOn(s, op), name) && Count(StepOn(s, op).sent, name) == Count(s.sent, name)
  {
    hide ExecuteOn, Count;
    if op.Exec? {
      if op.cmd.name == name {
        DeniedIsGated(s, op.cmd, op.confirm, op.wire);
      } else {
        OwnCommandOnly(s, op.cmd, op.confirm, op.wire, name);
        CountSnoc(s.sent, op.cmd.name, name);
      }
    }
  }

  /** UNSUPPORTED is sticky until the clients are replaced, and from then on the command sends
      nothing. */
  lemma {:induction false} UnsupportedIsSticky(s: State, ops: seq<Op>, name: string)
    requires Denied(s, name) && NoReplace(ops)
    ensures Denied(RunOn(s, ops), name) && Count(RunOn(s, ops).sent, name) == Count(s.sent, name)
    decreases |ops|
  {
    hide StepOn, Denied;
    if ops != [] {
      StepSticky(s, ops[0], name);
      UnsupportedIsSticky(StepOn(s, ops[0]), ops[1..], name);
    }
  }

  /** A name used only by parameterized commands never becomes UNSUPPORTED. */
  lemma {:induction false} ParameterizedNeverDenied(s: State, ops: seq<Op>, name: string)
    requires !Denied(s, name)
    requires forall i :: 0 <= i < |ops| && ops[i].Exec? && ops[i].cmd.name == name ==> ops[i].cmd.parameterized
    ensures !Denied(RunOn(s, ops), name)
    decreases |ops|
  {
    if ops != [] { ParameterizedNeverDenied(StepOn(s, ops[0]), ops[1..], name); }
  }

  /** Exactly what makes a command UNSUPPORTED: an ungated xBPI 0x04 on a plain command. */
  lemma DeniedIff(s: State, cmd: Command, confirm: bool, wire: Wire)
    requires !Denied(s, cmd.name)
    ensures Denied(ExecuteOn(s, cmd, confirm, wire).1, cmd.name)
      <==> Gate(s, cmd, confirm) == Done && s.active == Xbpi && wire == Refused04 && !cmd.parameterized
  {
  }

  lemma StepWarns(s: State, op: Op, name: string)
    ensures var s', n := StepOn(s, op), Count(s.warnings, name);
      && (Count(s'.warnings, name) == n || (Count(s'.warnings, name) == n + 1 && name !in s.warned && name in s'.warned))
      && (name in s.warned && !op.Replace? ==> name in s'.warned)
      && (op.Replace? ==> s'.warnings == s.warnings)
  {
    hide Dispatch;
    if op.Exec? {
      WarnedOnlyByGate(Warned(s, op.cmd), op.cmd, op.wire);
    }
  }

  lemma WarnedOnlyByGate(s: State, cmd: Command, wire: Wire)
    ensures Dispatch(s, cmd, wire).1.warned == s.warned && Dispatch(s, cmd, wire).1.warnings == s.warnings
  {
  }

  /** Between two replacements of the clients each command warns about its priors at most once. */
  lemma {:induction false} WarnsAtMostOnce(s: State, ops: seq<Op>, name: string)
    requires NoReplace(ops)
    ensures Count(s.warnings, name) <= Count(RunOn(s, ops).warnings, name)
    ensures Count(RunOn(s, ops).warnings, name) <= Count(s.warnings, name) + (if name in s.warned then 0 else 1)
    decreases |ops|
  {
    hide StepOn;
    if ops != [] {
      StepWarns(s, ops[0], name);
      WarnsAtMostOnce(StepOn(s, ops[0]), ops[1..], name);
    }
  }

  /** Over a whole session: at most one warning per command for each protocol installed. */
  lemma {:induction false} WarnsOncePerProtocol(s: State, ops: seq<Op>, name: string)
    ensures Count(RunOn(s, ops).warnings, name)
      <= Count(s.warnings, name) + Replacements(ops) + (if name in s.warned then 0 else 1)
    decreases |ops|
  {
    hide StepOn;
    if ops != [] {
      StepWarns(s, ops[0], name);
      WarnsOncePerProtocol(StepOn(s, ops[0]), ops[1..], name);
    }
  }

  function Replacements(ops: seq<Op>): nat
    decreases |ops|
  {
    if ops == [] then 0 else (if ops[0].Replace? then 1 else 0) + Replacements(ops[1..])
  }

  /** BROKEN is absorbing for every later `execute` and raw call: nothing is sent, nothing learned. */
  lemma {:induction false} BrokenSendsNothing(s: State, ops: seq<Op>)
    requires s.broken
    ensures var last := RunOn(s, ops);
      last.broken && last.sent == s.sent && last.raws == s.raws && last.warnings == s.warnings
    decreases |ops|
  {
    if ops != [] { BrokenSendsNothing(StepOn(s, ops[0]), ops[1..]); }
  }
}
