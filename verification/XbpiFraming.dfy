/** The xBPI frame codec: length byte, marker, subtype, body, sum-mod-256 checksum. */
module XbpiFraming {
  import opened Bytes

  const MIN_FRAME_SIZE := 4
  const RX_MARKER: byte := 0x41
  const MAX_LENGTH := 0xFF

  datatype XbpiFrame = XbpiFrame(length: byte, marker: byte, subtype: byte, body: bytes, checksum: byte, raw: bytes)

  /** TooShort is raised as a transient transport error, the others as frame errors. */
  datatype FrameError = TooShort | LengthMismatch | BadMarker | BadChecksum
  datatype Parsed = Frame(frame: XbpiFrame) | Malformed(error: FrameError)

  datatype Field = Opcode | SrcSbn | DstSbn
  datatype Built = Command(raw: bytes) | FieldOutOfRange(field: Field) | FrameTooLong

  function Sum(data: bytes): nat {
    if data == [] then 0 else data[0] + Sum(data[1..])
  }

  function Checksum(data: bytes): byte { Sum(data) % 256 }

  function ParseFrame(raw: bytes): Parsed {
    if |raw| < MIN_FRAME_SIZE then Malformed(TooShort)
    else if |raw| != raw[0] as int + 1 then Malformed(LengthMismatch)
    else if raw[1] != RX_MARKER then Malformed(BadMarker)
    else if raw[|raw| - 1] != Checksum(raw[..|raw| - 1]) then Malformed(BadChecksum)
    else Frame(XbpiFrame(raw[0], raw[1], raw[2], raw[3..|raw| - 1], raw[|raw| - 1], raw))
  }

  /** The reply builder: a body over 252 bytes does not fit the length byte. */
  function BuildReply(subtype: byte, body: bytes): (r: Option<bytes>)
    ensures r.Some? <==> |body| <= 252
  {
    var length := 1 + 1 + |body| + 1;
    if length > 255 then None
    else
      var pre: bytes := [length as byte, RX_MARKER, subtype] + body;
      Some(pre + [Checksum(pre)])
  }

  predicate IsByte(x: int) { 0 <= x <= 0xFF }

  function BuildCommand(opcode: int, args: bytes, src: int, dst: int): (r: Built) {
    if !IsByte(opcode) then FieldOutOfRange(Opcode)
    else if !IsByte(src) then FieldOutOfRange(SrcSbn)
    else if !IsByte(dst) then FieldOutOfRange(DstSbn)
    else
      var payload: bytes := [src as byte, dst as byte, opcode as byte] + args;
      var length := |payload| + 1;
      if length > MAX_LENGTH then FrameTooLong
      else
        var pre: bytes := [length as byte] + payload;
        Command(pre + [Checksum(pre)])
  }

  // ------------------------------------------------------------------ the codec inverts

  lemma ParseInvertsBuild(subtype: byte, body: bytes)
    requires |body| <= 252
    ensures var raw := BuildReply(subtype, body).value;
      ParseFrame(raw) == Frame(XbpiFrame(|body| + 3, RX_MARKER, subtype, body, raw[|raw| - 1], raw))
  {
  }

  /** Nothing else is accepted: an accepted frame is the reply built from its own fields. */
  lemma AcceptsOnlyBuilt(raw: bytes)
    requires ParseFrame(raw).Frame?
    ensures var f := ParseFrame(raw).frame;
      |f.body| <= 252 && BuildReply(f.subtype, f.body) == Some(raw)
  {
    var f := ParseFrame(raw).frame;
    var pre: bytes := [(|f.body| + 3) as byte, RX_MARKER, f.subtype] + f.body;
    assert pre == raw[..|raw| - 1];
    assert raw == pre + [raw[|raw| - 1]];
  }

  /** Commands have no reader here; what makes the encoding usable is that it is injective and
      carries its own length and checksum. */
  lemma CommandsAreFramed(opcode: int, args: bytes, src: int, dst: int)
    ensures var r := BuildCommand(opcode, args, src, dst);
      && (r.Command? <==> IsByte(opcode) && IsByte(src) && IsByte(dst) && |args| <= 251)
      && (r.Command? ==>
            && |r.raw| == r.raw[0] as int + 1 && |r.raw| == |args| + 5
            && r.raw[|r.raw| - 1] == Checksum(r.raw[..|r.raw| - 1])
            && r.raw[1..4] == [src, dst, opcode] && r.raw[4..|r.raw| - 1] == args)
  {
  }

  // ------------------------------------------------------------------ corruption is detected

  lemma {:induction false} SumUpdate(data: bytes, i: nat, b: byte)
    requires i < |data|
    ensures Sum(data[i := b]) == Sum(data) - data[i] + b
  {
    if i == 0 {
      assert data[i := b][1..] == data[1..];
    } else {
      SumUpdate(data[1..], i - 1, b);
      assert data[i := b][1..] == data[1..][i - 1 := b];
    }
  }

  lemma SingleByteCorruptionRejected(raw: bytes, i: nat, b: byte)
    requires ParseFrame(raw).Frame? && i < |raw| && b != raw[i]
    ensures ParseFrame(raw[i := b]).Malformed?
  {
    var bad := raw[i := b];
    var last := |raw| - 1;
    if i == last {
      assert bad[..last] == raw[..last];
    } else if i != 0 {
      assert bad[..last] == raw[..last][i := b];
      SumUpdate(raw[..last], i, b);
    }
  }

  /** The byte sum, with nothing taken from its definition: nothing for no bytes, and one byte more adds
      that byte, wherever it goes. */
  lemma {:induction false} SumAdds(a: bytes, b: byte, c: bytes)
    ensures Sum([]) == 0 && Sum(a + [b] + c) == Sum(a + c) + b
  {
    if a == [] {
      assert a + [b] + c == [b] + c && a + c == c && ([b] + c)[1..] == c;
    } else {
      assert (a + [b] + c)[1..] == a[1..] + [b] + c && (a + c)[1..] == a[1..] + c;
      SumAdds(a[1..], b, c);
    }
  }

  /** A reply on the wire, byte by byte. */
  lemma ReplyLayout(subtype: byte, body: bytes)
    requires |body| <= 252
    ensures var raw := BuildReply(subtype, body).value;
      && |raw| == |body| + 4 && raw[..3] == [|body| + 3, 0x41, subtype] && raw[3..|body| + 3] == body
      && raw[|body| + 3] == Sum(raw[..|body| + 3]) % 256
  {
    var raw := BuildReply(subtype, body).value;
    assert raw[..|body| + 3] == [(|body| + 3) as byte, RX_MARKER, subtype] + body;
  }

  /** No accepted frame is a proper prefix of another: truncating or extending one is caught. */
  lemma FramesArePrefixFree(raw: bytes, more: bytes)
    requires more != []
    ensures !(ParseFrame(raw).Frame? && ParseFrame(raw + more).Frame?)
  {
  }

  lemma ResizedFrameRejected(raw: bytes, k: nat, more: bytes)
    requires ParseFrame(raw).Frame? && k < |raw| && more != []
    ensures ParseFrame(raw[..k]).Malformed? && ParseFrame(raw + more).Malformed?
  {
  }
}
