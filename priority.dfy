/** The PRIORITY frame payload of priority.go (section 6.3 of RFC 7540). */
module PriorityFrame {
  import opened Outcomes
  import opened Bytes
  import opened Frames

  const FramePriority: Byte := 0x2

  /** The payload WriteFrame builds: the dependency's four big-endian bytes, then the weight. */
  function EncodePriority(stream: Uint32, weight: Byte): (p: seq<Byte>)
    ensures |p| == 5 && p[4] == weight
    ensures BytesToUint32(p) == stream
  {
    AppendUint32Bytes([], stream) + [weight]
  }

  /** The decoding ReadFrame performs: MissingBytes below five bytes, otherwise the first four
      bytes as the dependency with the reserved top bit (the exclusive flag E of section 6.3 of
      RFC 7540) cleared, and byte 4 as the weight. Later bytes are ignored. */
  function DecodePriority(payload: seq<Byte>): (r: Result<PriorityFields>)
    ensures r.Err? <==> |payload| < 5
    ensures r.Err? ==> r.error == MissingBytes
    ensures r.Ok? ==> r.value.weight == payload[4]
    ensures r.Ok? ==> BE32(r.value.stream)[0] == payload[0] % 0x80 && BE32(r.value.stream)[1..] == payload[1..4]
  {
    if |payload| < 5 then Err(MissingBytes)
    else
      var n := BytesToUint32(payload);
      MaskedBytes(n);
      Ok(PriorityFields(Mask31(n), payload[4]))
  }

  /** Clearing the top bit changes only the first byte, and only its top bit. */
  lemma MaskedBytes(n: Uint32)
    ensures BE32(Mask31(n))[0] == BE32(n)[0] % 0x80 && BE32(Mask31(n))[1..] == BE32(n)[1..]
  {
    var b := BE32(n);
    Uint32RoundTrip(n);
    var c := [b[0] % 0x80, b[1], b[2], b[3]];
    var k := BytesToUint32(c);
    assert n == (b[0] as int / 0x80) * 0x8000_0000 + k;
    assert k == Mask31(n);
  }

  /** Round trip: reading what WriteFrame writes gives the weight back and the dependency with
      its top bit cleared, which is the dependency itself when it is below 2^31. */
  lemma {:induction false} PriorityRoundTrip(stream: Uint32, weight: Byte)
    ensures DecodePriority(EncodePriority(stream, weight)) == Ok(PriorityFields(Mask31(stream), weight))
    ensures stream < 0x8000_0000 ==> DecodePriority(EncodePriority(stream, weight)) == Ok(PriorityFields(stream, weight))
  {
    var p := EncodePriority(stream, weight);
    assert BytesToUint32(p) == stream;
  }

  /** Stream dependency masking: 0xFFFFFFFF is read back as 0x7FFFFFFF. */
  lemma PriorityMasksReservedBit(weight: Byte)
    ensures DecodePriority(EncodePriority(0xFFFF_FFFF, weight)) == Ok(PriorityFields(0x7FFF_FFFF, weight))
  {
    PriorityRoundTrip(0xFFFF_FFFF, weight);
  }

  /** The exclusive bit E is discarded: payloads that differ only in it decode alike. */
  lemma {:induction false} PriorityIgnoresExclusiveBit(b0: Byte, rest: seq<Byte>)
    requires b0 < 0x80 && |rest| >= 4
    ensures DecodePriority([b0 + 0x80] + rest) == DecodePriority([b0] + rest)
  {
    var p, q := [b0 + 0x80] + rest, [b0] + rest;
    assert p[1..] == rest && q[1..] == rest;
    assert BytesToUint32(p) == BytesToUint32(q) + 0x8000_0000;
  }

  /** Bytes after index 4 play no part in the decoding. */
  lemma {:induction false} PriorityIgnoresTrailingBytes(payload: seq<Byte>, extra: seq<Byte>)
    requires |payload| >= 5
    ensures DecodePriority(payload + extra) == DecodePriority(payload)
  {
    var p := payload + extra;
    assert p[..5] == payload[..5];
    assert p[4] == payload[4];
    assert BytesToUint32(p) == BytesToUint32(payload) by {
      assert p[0] == payload[0] && p[1] == payload[1] && p[2] == payload[2] && p[3] == payload[3];
    }
  }

  /** Too short a payload: four bytes are refused. */
  lemma PriorityMissingBytesExample()
    ensures DecodePriority([0, 0, 0, 1]) == Err(MissingBytes)
  {
  }

  class Priority {
    var stream: Uint32    // the stream dependency
    var weight: Byte

    /** The dependency never has its reserved top bit set. */
    ghost predicate Valid()
      reads this
    {
      stream < 0x8000_0000
    }

    /** The zero value the pool's `New` hands out. */
    constructor ()
      ensures Valid() && stream == 0 && weight == 0
    {
      stream, weight := 0, 0;
    }

    method Reset()
      modifies this
      ensures Valid() && stream == 0 && weight == 0
    {
      stream := 0;
      weight := 0;
    }

    /** Copies both fields into `p`; this object is left as it was. */
    method CopyTo(p: Priority)
      requires Valid()
      modifies p
      ensures p.Valid() && p.stream == old(stream) && p.weight == old(weight)
      ensures unchanged(this)
    {
      p.stream := stream;
      p.weight := weight;
    }

    /** Stores the dependency with its top bit cleared. */
    method SetStream(value: Uint32)
      modifies this`stream
      ensures Valid() && stream == Mask31(value)
    {
      stream := Mask31(value);
    }

    method SetWeight(w: Byte)
      modifies this`weight
      ensures weight == w
    {
      weight := w;
    }

    /** Decodes the frame's payload into this object; with fewer than five bytes it reports
        MissingBytes and changes nothing. The frame is not changed. */
    method ReadFrame(fr: Frame) returns (err: Option<Error>)
      requires Valid()
      modifies this
      ensures Valid()
      ensures var d := DecodePriority(fr.payload);
        (d.Err? ==> err == Some(d.error) && stream == old(stream) && weight == old(weight)) &&
        (d.Ok? ==> err == None && stream == d.value.stream && weight == d.value.weight)
    {
      if |fr.payload| < 5 {
        err := Some(MissingBytes);
      } else {
        stream := Mask31(BytesToUint32(fr.payload));
        weight := fr.payload[4];
        err := None;
      }
    }

    /** Encodes this object into `fr`: type PRIORITY and a payload of exactly five bytes
        replacing the old one. The payload field is assigned directly, so the envelope's
        declared length and size check are bypassed. */
    method WriteFrame(fr: Frame)
      requires Valid()
      modifies fr`kind, fr`payload
      ensures fr.kind == FramePriority
      ensures fr.payload == EncodePriority(stream, weight)
      ensures DecodePriority(fr.payload) == Ok(PriorityFields(stream, weight))
    {
      fr.SetType(FramePriority);
      fr.payload := AppendUint32Bytes(fr.payload[..0], stream);
      fr.payload := fr.payload + [weight];
      PriorityRoundTrip(stream, weight);
    }
  }

  /** AcquirePriority: a recycled object as it was left (the source does not reset here), or a
      new zero one when the pool is empty. */
  method AcquirePriority(recycled: Priority?) returns (p: Priority)
    requires recycled != null ==> recycled.Valid()
    ensures p.Valid()
    ensures recycled != null ==> p == recycled
    ensures recycled == null ==> fresh(p) && p.stream == 0 && p.weight == 0
  {
    if recycled == null {
      p := new Priority();
    } else {
      p := recycled;
    }
  }

  /** ReleasePriority: resets the object before handing it to the pool. */
  method ReleasePriority(p: Priority)
    modifies p
    ensures p.Valid() && p.stream == 0 && p.weight == 0
  {
    p.Reset();
  }

  /** Writing a PRIORITY payload into a fresh frame and reading it back into a fresh object gives
      the weight and the dependency with its top bit cleared. */
  method PriorityWriteRead(stream: Uint32, weight: Byte) returns (gotStream: Uint32, gotWeight: Byte, err: Option<Error>)
    ensures err == None && gotStream == Mask31(stream) && gotWeight == weight
  {
    var src := new Priority();
    src.SetStream(stream);
    src.SetWeight(weight);
    var fr := new Frame(1, 0);
    src.WriteFrame(fr);
    var dst := new Priority();
    err := dst.ReadFrame(fr);
    gotStream, gotWeight := dst.stream, dst.weight;
  }
}
