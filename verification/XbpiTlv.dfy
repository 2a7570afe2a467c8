/** xBPI tag-length-value records. */
module XbpiTlv {
  import opened Bytes

  datatype TlvError = UnknownTag | NegativeValue | DoesNotFit | WrongSize | TruncatedAtTag | TruncatedValue
  datatype Result<+T> = Ok(value: T) | Err(error: TlvError)

  datatype Value = Number(n: int) | Raw(data: bytes)
  datatype Record = Record(tag: byte, data: bytes)

  /** Known tags and the size of their values. */
  function TagSize(tag: int): Option<nat> {
    if tag == 0x11 || tag == 0x21 then Some(1)
    else if tag == 0x12 || tag == 0x22 then Some(2)
    else if tag == 0x14 || tag == 0x24 then Some(4)
    else None
  }

  function Pow256(k: nat): nat { if k == 0 then 1 else 256 * Pow256(k - 1) }

  /** `value.to_bytes(size, "big")` */
  function ToBytes(n: nat, size: nat): (r: bytes)
    ensures |r| == size
  {
    if size == 0 then [] else ToBytes(n / 256, size - 1) + [(n % 256) as byte]
  }

  /** `int.from_bytes(value, "big")` */
  function FromBytes(data: bytes): nat {
    if data == [] then 0 else 256 * FromBytes(data[..|data| - 1]) + data[|data| - 1]
  }

  function Encode(tag: int, value: Value): Result<bytes> {
    match TagSize(tag)
    case None => Err(UnknownTag)
    case Some(size) =>
      match value
      case Number(n) =>
        if n < 0 then Err(NegativeValue)
        else if n >= Pow256(size) then Err(DoesNotFit)
        else Ok([tag as byte] + ToBytes(n, size))
      case Raw(data) =>
        if |data| != size then Err(WrongSize) else Ok([tag as byte] + data)
  }

  /** One record at `offset`, and where the next one starts. */
  function Decode(data: bytes, offset: nat): Result<(Record, nat)> {
    if offset >= |data| then Err(TruncatedAtTag)
    else match TagSize(data[offset])
      case None => Err(UnknownTag)
      case Some(size) =>
        var end := offset + 1 + size;
        if end > |data| then Err(TruncatedValue)
        else Ok((Record(data[offset], data[offset + 1..end]), end))
  }

  predicate WellFormed(r: Record) { TagSize(r.tag) == Some(|r.data|) }

  function EncodeAll(records: seq<Record>): bytes {
    if records == [] then [] else [records[0].tag] + records[0].data + EncodeAll(records[1..])
  }

  ghost predicate Encodes(records: seq<Record>, body: bytes) {
    EncodeAll(records) == body && forall i :: 0 <= i < |records| ==> WellFormed(records[i])
  }

  /** Walks `body` record by record: the result is the one list of records that encodes to
      `body`; an error means there is none, and is that of the first record that does not decode. */
  method ParseSequence(body: bytes) returns (r: Result<seq<Record>>)
    ensures r.Ok? ==> Encodes(r.value, body)
    ensures forall records :: Encodes(records, body) ==> r == Ok(records)
    ensures r.Err? ==> exists done, offset: nat ::
      offset <= |body| && Encodes(done, body[..offset]) && Decode(body, offset) == Err(r.error)
  {
    var out: seq<Record> := [];
    var offset := 0;
    while offset < |body|
      invariant offset <= |body| && EncodeAll(out) == body[..offset]
      invariant forall i :: 0 <= i < |out| ==> WellFormed(out[i])
      decreases |body| - offset
    {
      match Decode(body, offset)
      case Err(e) =>
        forall records | Encodes(records, body) ensures false {
          NextRecordDecodes(out, records, offset);
        }
        assert Encodes(out, body[..offset]) && Decode(body, offset) == Err(e);
        return Err(e);
      case Ok(step) =>
        EncodeAllAppend(out, [step.0]);
        assert EncodeAll([step.0]) == [step.0.tag] + step.0.data + EncodeAll([]);
        assert body[..step.1] == body[..offset] + body[offset..step.1];
        assert body[offset..step.1] == [step.0.tag] + step.0.data;
        out, offset := out + [step.0], step.1;
    }
    assert body[..offset] == body;
    forall records | Encodes(records, body) ensures records == out {
      UniqueDecoding(records, out);
    }
    r := Ok(out);
  }

  // ------------------------------------------------------------------ what is accepted

  predicate Known(tag: int) { tag in {0x11, 0x12, 0x14, 0x21, 0x22, 0x24} }

  lemma SizeIsLowNibble(tag: int)
    ensures TagSize(tag).Some? <==> Known(tag)
    ensures Known(tag) ==> TagSize(tag) == Some(tag % 16) && tag % 16 in {1, 2, 4}
    ensures Pow256(1) == 0x100 && Pow256(2) == 0x1_0000 && Pow256(4) == 0x1_0000_0000
  {
    assert Pow256(2) == 256 * Pow256(1) && Pow256(4) == 256 * Pow256(3) && Pow256(3) == 256 * Pow256(2);
  }

  /** Which values encode, and what every other one is refused with. */
  lemma EncodesIff(tag: int, value: Value)
    ensures var size, r := tag % 16, Encode(tag, value);
      var limit := if size == 1 then 0x100 else if size == 2 then 0x1_0000 else 0x1_0000_0000;
      && (r == Err(UnknownTag) <==> !Known(tag))
      && (r == Err(NegativeValue) <==> Known(tag) && value.Number? && value.n < 0)
      && (r == Err(DoesNotFit) <==> Known(tag) && value.Number? && value.n >= limit)
      && (r == Err(WrongSize) <==> Known(tag) && value.Raw? && |value.data| != size)
      && (r.Ok? <==> Known(tag) && (if value.Number? then 0 <= value.n < limit else |value.data| == size))
      && (r.Ok? ==> |r.value| == 1 + size && r.value[0] == tag)
  {
    hide Pow256;
    SizeIsLowNibble(tag);
  }

  /** Which bytes decode at an offset, and what every other one is refused with. */
  lemma DecodesIff(data: bytes, offset: nat)
    ensures var r := Decode(data, offset);
      && (r == Err(TruncatedAtTag) <==> offset >= |data|)
      && (r == Err(UnknownTag) <==> offset < |data| && !Known(data[offset]))
      && (r == Err(TruncatedValue) <==> offset < |data| && Known(data[offset]) && offset + 1 + data[offset] % 16 > |data|)
      && (r.Ok? <==> offset < |data| && Known(data[offset]) && offset + 1 + data[offset] % 16 <= |data|)
      && (r.Ok? ==>
            && r.value.1 == offset + 1 + data[offset] % 16
            && r.value.0 == Record(data[offset], data[offset + 1..r.value.1]))
  {
    if offset < |data| { SizeIsLowNibble(data[offset]); }
  }

  // ------------------------------------------------------------------ round trips

  lemma {:induction false} EncodeAllAppend(a: seq<Record>, b: seq<Record>)
    ensures EncodeAll(a + b) == EncodeAll(a) + EncodeAll(b)
  {
    if a == [] {
      assert a + b == b;
    } else {
      assert (a + b)[1..] == a[1..] + b;
      EncodeAllAppend(a[1..], b);
    }
  }

  /** Decoding is unique: two lists of records with the same encoding are the same list. */
  lemma {:induction false} UniqueDecoding(a: seq<Record>, b: seq<Record>)
    requires forall i :: 0 <= i < |a| ==> WellFormed(a[i])
    requires forall i :: 0 <= i < |b| ==> WellFormed(b[i])
    requires EncodeAll(a) == EncodeAll(b)
    ensures a == b
    decreases |a|
  {
    if a == [] || b == [] {
      assert |EncodeAll(a)| == |EncodeAll(b)|;
    } else {
      var all := EncodeAll(a);
      assert all[0] == a[0].tag && all[0] == b[0].tag;
      var n := 1 + |a[0].data|;
      assert all[1..n] == a[0].data && all[1..n] == b[0].data;
      assert all[n..] == EncodeAll(a[1..]) && all[n..] == EncodeAll(b[1..]);
      UniqueDecoding(a[1..], b[1..]);
      assert a == [a[0]] + a[1..] && b == [b[0]] + b[1..];
    }
  }

  /** If some list of records encodes to the whole body and `done` to its first `offset` bytes,
      the record at `offset` decodes. */
  lemma {:induction false} NextRecordDecodes(done: seq<Record>, records: seq<Record>, offset: nat)
    requires forall i :: 0 <= i < |done| ==> WellFormed(done[i])
    requires forall i :: 0 <= i < |records| ==> WellFormed(records[i])
    requires offset < |EncodeAll(records)| && EncodeAll(done) == EncodeAll(records)[..offset]
    ensures Decode(EncodeAll(records), offset).Ok?
    decreases |done|
  {
    var all := EncodeAll(records);
    var n := 1 + |records[0].data|;
    assert all == [records[0].tag] + records[0].data + EncodeAll(records[1..]);
    if done != [] {
      assert EncodeAll(done)[0] == done[0].tag;
      assert |EncodeAll(done)| >= 1 + |done[0].data|;
      assert EncodeAll(done)[n..] == EncodeAll(done[1..]);
      assert all[n..] == EncodeAll(records[1..]);
      assert all[..offset][n..] == all[n..][..offset - n];
      NextRecordDecodes(done[1..], records[1..], offset - n);
      assert all[offset] == EncodeAll(records[1..])[offset - n];
    }
  }

  /** Integers survive the wire whenever they fit, and the encoder accepts exactly those. */
  lemma {:induction false} NumberRoundTrip(n: nat, size: nat)
    requires n < Pow256(size)
    ensures FromBytes(ToBytes(n, size)) == n
  {
    if size > 0 {
      assert n / 256 < Pow256(size - 1);
      NumberRoundTrip(n / 256, size - 1);
      var r := ToBytes(n, size);
      assert r[..size - 1] == ToBytes(n / 256, size - 1);
    }
  }

  lemma {:induction false} BytesRoundTrip(data: bytes)
    ensures FromBytes(data) < Pow256(|data|) && ToBytes(FromBytes(data), |data|) == data
  {
    if data != [] {
      var head := data[..|data| - 1];
      BytesRoundTrip(head);
      assert FromBytes(data) / 256 == FromBytes(head) && FromBytes(data) % 256 == data[|data| - 1];
      assert data == head + [data[|data| - 1]];
    }
  }

  /** What one encoded value decodes to, whatever surrounds it. */
  lemma EncodeDecode(tag: int, value: Value, before: bytes, after: bytes)
    requires Encode(tag, value).Ok?
    ensures var rec := Encode(tag, value).value;
      && WellFormed(Record(tag, rec[1..]))
      && Decode(before + rec + after, |before|) == Ok((Record(tag, rec[1..]), |before| + |rec|))
      && (value.Number? ==> FromBytes(rec[1..]) == value.n)
      && (value.Raw? ==> rec[1..] == value.data)
  {
    var rec := Encode(tag, value).value;
    var all := before + rec + after;
    assert all[|before|] == rec[0];
    assert all[|before| + 1..|before| + |rec|] == rec[1..];
    if value.Number? {
      NumberRoundTrip(value.n, TagSize(tag).value);
      assert rec[1..] == ToBytes(value.n, TagSize(tag).value);
    } else {
      assert rec[1..] == value.data;
    }
  }
}
