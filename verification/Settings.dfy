/** Serial framing and the override rule shared by `reopen` and `_overlay_settings`. */
module Settings {
  import opened Bytes

  datatype Parity = NoParity | Odd | Even | Mark | Space
  datatype StopBits = One | OnePointFive | Two

  datatype SerialSettings = SerialSettings(port: string, baudrate: int, parity: Parity, stopbits: StopBits)

  datatype Framing = Framing(baudrate: Option<int>, parity: Option<Parity>, stopbits: Option<StopBits>)

  function Overlay(base: SerialSettings, framing: Framing): (r: SerialSettings)
    ensures r.port == base.port
    ensures framing.baudrate.Some? ==> r.baudrate == framing.baudrate.value
    ensures framing.baudrate.None? ==> r.baudrate == base.baudrate
    ensures framing.parity == Some(r.parity) || (framing.parity.None? && r.parity == base.parity)
    ensures framing.stopbits == Some(r.stopbits) || (framing.stopbits.None? && r.stopbits == base.stopbits)
  {
    var s1 := if framing.baudrate.Some? then base.(baudrate := framing.baudrate.value) else base;
    var s2 := if framing.parity.Some? then s1.(parity := framing.parity.value) else s1;
    if framing.stopbits.Some? then s2.(stopbits := framing.stopbits.value) else s2
  }

  /** The framing part of `s`, as a full override. */
  function FramingOf(s: SerialSettings): Framing {
    Framing(Some(s.baudrate), Some(s.parity), Some(s.stopbits))
  }
}
