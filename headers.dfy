/** The HEADERS frame payload of headers.go (section 6.2 of RFC 7540). */
module HeadersFrame {
  import opened Outcomes
  import opened Bytes
  import opened Padding
  import opened Frames

  const FrameHeaders: Byte := 0x1

  /** What a HEADERS payload carries once its padding is cut: the priority fields when the
      PRIORITY flag is set, and a fragment of the HPACK-encoded header block. */
  datatype HeadersContent = HeadersContent(priority: Option<PriorityFields>, fragment: seq<Byte>)

  /** The decoding ReadFrame performs on a frame's flags, payload and declared length. With
      PADDED the padding is cut first; with PRIORITY the first five remaining bytes are the
      stream dependency (reserved bit cleared) and the weight. The length check is made on the
      bytes left after the cut (see ReadPriorityAsWritten for the source's check). */
  function DecodeHeaders(flags: Flags, payload: seq<Byte>, length: nat): (r: Result<HeadersContent>)
    ensures r.Ok? ==> (r.value.priority.Some? <==> Has(flags, FlagPriority))
    ensures r.Ok? ==>
      (Has(flags, FlagPadded) ==> CutPadding(payload, length).Ok?) &&
      (var rest := if Has(flags, FlagPadded) then CutPadding(payload, length).value else payload;
       (Has(flags, FlagPriority) ==>
          |rest| >= 5 && r.value.priority == Some(PriorityFields(Mask31(BytesToUint32(rest)), rest[4])) &&
          r.value.fragment == rest[5..]) &&
       (!Has(flags, FlagPriority) ==> r.value.fragment == rest))
    ensures r == Err(MissingBytes) <==>
      Has(flags, FlagPriority) &&
      (if Has(flags, FlagPadded) then CutPadding(payload, length).Ok? && |CutPadding(payload, length).value| < 5
       else |payload| < 5)
    ensures r.Err? && r.error != MissingBytes ==>
      Has(flags, FlagPadded) && CutPadding(payload, length) == Err(r.error)
  {
    var cut := if Has(flags, FlagPadded) then CutPadding(payload, length) else Ok(payload);
    if cut.Err? then Err(cut.error)
    else
      var rest := cut.value;
      if Has(flags, FlagPriority) then
        if |rest| < 5 then Err(MissingBytes)
        else
          assert rest == rest[..5] + rest[5..];
          Ok(HeadersContent(Some(PriorityFields(Mask31(BytesToUint32(rest)), rest[4])), rest[5..]))
      else Ok(HeadersContent(None, rest))
  }

  /** The source's PRIORITY step as written: the length check reads the frame's raw payload
      (`len(fr.payload) < 5`), not the `payload` left after cutting the padding, so a padded
      payload that is long before the cut and short after it is indexed past its end. */
  function ReadPriorityAsWritten(rawLen: nat, payload: seq<Byte>): (r: GoOutcome<(PriorityFields, seq<Byte>)>)
    ensures r.Fails? <==> rawLen < 5
    ensures r.OutOfBounds? <==> rawLen >= 5 && |payload| < 5
  {
    if rawLen < 5 then Fails(MissingBytes)
    else if |payload| < 5 then OutOfBounds
    else Returns((PriorityFields(Mask31(BytesToUint32(payload)), payload[4]), payload[5..]))
  }

  /** A padded HEADERS payload of 7 bytes with pad length 3 leaves 3 bytes after the cut: the
      source's check passes on the 7 raw bytes and then reads 5 bytes from 3; the corrected
      decoding reports MissingBytes. */
  lemma ReadPriorityOverreadExample()
    ensures CutPadding([3, 9, 9, 9, 0, 0, 0], 7) == Ok([9, 9, 9])
    ensures ReadPriorityAsWritten(7, [9, 9, 9]) == OutOfBounds
    ensures DecodeHeaders({FlagPadded, FlagPriority}, [3, 9, 9, 9, 0, 0, 0], 7) == Err(MissingBytes)
  {
    var p: seq<Byte> := [3, 9, 9, 9, 0, 0, 0];
    assert p[1..4] == [9, 9, 9];
  }

  /** A payload of exactly five bytes under PRIORITY gives the priority fields (the first four
      bytes with the reserved bit cleared, then the weight) and an empty header block fragment. */
  lemma DecodeFiveBytePriority(p: seq<Byte>)
    requires |p| == 5
    ensures DecodeHeaders({FlagPriority}, p, 5) ==
      Ok(HeadersContent(Some(PriorityFields(Mask31(BytesToUint32(p)), p[4])), []))
  {
    assert p[5..] == [];
  }

  /** The source's in-place priority write as written: `fr.stream` (the frame's own stream, not
      the dependency) goes into `rawHeaders[1:5]` and the weight into `rawHeaders[5]`,
      overwriting header block bytes; a block shorter than 6 bytes is indexed past its end. */
  function WritePriorityAsWritten(raw: seq<Byte>, frStream: Uint32, weight: Byte): (r: GoOutcome<seq<Byte>>)
    ensures r.OutOfBounds? <==> |raw| < 6
    ensures r.Returns? ==>
      |r.value| == |raw| && r.value[0] == raw[0] && r.value[6..] == raw[6..] &&
      BytesToUint32(r.value[1..5]) == frStream && r.value[5] == weight
  {
    if |raw| < 6 then OutOfBounds
    else
      var r := raw[..1] + BE32(frStream) + [weight] + raw[6..];
      assert r[1..5] == BE32(frStream);
      Uint32RoundTrip(frStream);
      Returns(r)
  }

  /** The HEADERS payload the source evidently intends (section 6.2 of RFC 7540): the PRIORITY
      flag when both the dependency and the weight are non-zero, then a fresh
      `[4-byte dependency][weight]` prefix in front of the header block, then padding. The
      END_STREAM and END_HEADERS flags do not interact with the payload and are left out here. */
  function EncodeHeaders(stream: Uint32, weight: Byte, raw: seq<Byte>, hasPadding: bool,
                         spare: seq<Byte>, padLen: nat, filler: seq<Byte>): (r: (Flags, seq<Byte>))
    requires hasPadding ==> 9 <= padLen <= 255 && |filler| == padLen
    ensures Has(r.0, FlagPriority) <==> stream > 0 && weight > 0
    ensures Has(r.0, FlagPadded) <==> hasPadding
    ensures hasPadding ==> CutPadding(r.1, |r.1|).Ok? && r.1[0] == padLen && r.1[|r.1| - padLen..] == filler
    ensures var body := if hasPadding then CutPadding(r.1, |r.1|).value else r.1;
      (stream > 0 && weight > 0 ==>
         |body| == |raw| + 5 && body[..4] == BE32(stream) && body[4] == weight && body[5..] == raw) &&
      (!(stream > 0 && weight > 0) ==> body == raw)
  {
    var prio := stream > 0 && weight > 0;
    var body := if prio then AppendUint32Bytes([], stream) + [weight] + raw else raw;
    assert prio ==> body[..4] == BE32(stream) && body[4] == weight && body[5..] == raw;
    var flags := (if prio then {FlagPriority} else {}) + (if hasPadding then {FlagPadded} else {});
    if hasPadding then
      CutAddPadding(body, spare, padLen, filler);
      (flags, AddPadding(body, spare, padLen, filler))
    else (flags, body)
  }

  /** Decoding what EncodeHeaders produces gives back the header block and, when the PRIORITY
      flag was set, the weight and the dependency with its reserved bit cleared. */
  lemma {:induction false} HeadersRoundTrip(stream: Uint32, weight: Byte, raw: seq<Byte>, hasPadding: bool,
                                            spare: seq<Byte>, padLen: nat, filler: seq<Byte>)
    requires hasPadding ==> 9 <= padLen <= 255 && |filler| == padLen
    ensures var (flags, payload) := EncodeHeaders(stream, weight, raw, hasPadding, spare, padLen, filler);
      DecodeHeaders(flags, payload, |payload|) ==
        Ok(HeadersContent(if stream > 0 && weight > 0 then Some(PriorityFields(Mask31(stream), weight)) else None, raw))
  {
    var prio := stream > 0 && weight > 0;
    var body := if prio then AppendUint32Bytes([], stream) + [weight] + raw else raw;
    var (flags, payload) := EncodeHeaders(stream, weight, raw, hasPadding, spare, padLen, filler);
    if hasPadding {
      CutAddPadding(body, spare, padLen, filler);
    }
    if prio {
      assert body[..4] == BE32(stream);
      assert body[4] == weight && body[5..] == raw;
      Uint32RoundTrip(stream);
    }
  }

  /** Stream dependency masking: a dependency of 0xFFFFFFFF is read back as 0x7FFFFFFF. */
  lemma HeadersMasksReservedBit(weight: Byte, raw: seq<Byte>)
    requires weight > 0
    ensures var (flags, payload) := EncodeHeaders(0xFFFF_FFFF, weight, raw, false, [], 0, []);
      DecodeHeaders(flags, payload, |payload|) == Ok(HeadersContent(Some(PriorityFields(0x7FFF_FFFF, weight)), raw))
  {
    HeadersRoundTrip(0xFFFF_FFFF, weight, raw, false, [], 0, []);
  }

  /** The source's in-place write does not produce a payload that decodes back to the header
      block: with a 7-byte block, frame stream 1, dependency 1 and weight 16, reading the result
      under PRIORITY yields a different block and different priority fields, while the corrected
      encoding round-trips. */
  lemma WritePriorityAsWrittenBreaksRoundTrip()
    ensures var raw: seq<Byte> := [0x82, 0x86, 0x84, 0x41, 0x8a, 0x08, 0x9d];
      var w := WritePriorityAsWritten(raw, 1, 16);
      w.Returns? &&
      DecodeHeaders({FlagPriority}, w.value, |w.value|) != Ok(HeadersContent(Some(PriorityFields(1, 16)), raw))
  {
    var raw: seq<Byte> := [0x82, 0x86, 0x84, 0x41, 0x8a, 0x08, 0x9d];
    var w := WritePriorityAsWritten(raw, 1, 16);
    assert w.value[4] == 1;
  }

  /** Without a priority to write, the source's WriteFrame lays out the header block exactly as
      EncodeHeaders does, with the same PRIORITY and PADDED flags, so the round trip
      HeadersRoundTrip covers it. */
  lemma WriteFrameMatchesEncodeWithoutPriority(stream: Uint32, weight: Byte, raw: seq<Byte>, hasPadding: bool,
                                                spare: seq<Byte>, padLen: nat, filler: seq<Byte>)
    requires !(stream > 0 && weight > 0)
    requires hasPadding ==> 9 <= padLen <= 255 && |filler| == padLen
    ensures var (flags, payload) := EncodeHeaders(stream, weight, raw, hasPadding, spare, padLen, filler);
      payload == (if hasPadding then AddPadding(raw, spare, padLen, filler) else raw) &&
      flags == HeadersFlags(false, false, false, hasPadding)
  {
  }

  /** The flags WriteFrame adds to the envelope. */
  function HeadersFlags(endStream: bool, endHeaders: bool, priority: bool, padded: bool): Flags
  {
    (if endStream then {FlagEndStream} else {}) + (if endHeaders then {FlagEndHeaders} else {}) +
    (if priority then {FlagPriority} else {}) + (if padded then {FlagPadded} else {})
  }

  function AddIf(flags: Flags, c: bool, f: Flag): Flags { if c then flags + {f} else flags }

  /** Adding the flags one at a time, as WriteFrame does, adds HeadersFlags. */
  lemma HeadersFlagsInSteps(f0: Flags, endStream: bool, endHeaders: bool, priority: bool, padded: bool)
    ensures AddIf(AddIf(AddIf(AddIf(f0, endStream, FlagEndStream), endHeaders, FlagEndHeaders),
                        priority, FlagPriority), padded, FlagPadded)
            == f0 + HeadersFlags(endStream, endHeaders, priority, padded)
  {
  }

  /** The index-by-index writes of WriteFrame produce WritePriorityAsWritten's result. */
  lemma InPlacePriorityWrite(raw: seq<Byte>, frStream: Uint32, weight: Byte)
    requires |raw| >= 6
    ensures var be := BE32(frStream);
      raw[1 := be[0]][2 := be[1]][3 := be[2]][4 := be[3]][5 := weight] ==
        WritePriorityAsWritten(raw, frStream, weight).value
  {
    var be := BE32(frStream);
    var a := raw[1 := be[0]][2 := be[1]][3 := be[2]][4 := be[3]][5 := weight];
    var b := WritePriorityAsWritten(raw, frStream, weight).value;
    assert b == raw[..1] + be + [weight] + raw[6..];
    assert |a| == |b|;
    forall i | 0 <= i < |a| ensures a[i] == b[i] {
      if i >= 6 {
        assert b[i] == raw[6..][i - 6];
      }
    }
  }

  class Headers {
    var hasPadding: bool
    var stream: Uint32      // the stream dependency
    var weight: Byte
    var endStream: bool
    var endHeaders: bool
    var rawHeaders: seq<Byte>   // the header block bytes gathered so far

    /** The zero value the pool's `New` hands out. */
    constructor ()
      ensures !hasPadding && stream == 0 && weight == 0 && !endStream && !endHeaders && rawHeaders == []
    {
      hasPadding, stream, weight, endStream, endHeaders, rawHeaders := false, 0, 0, false, false, [];
    }

    method Reset()
      modifies this
      ensures !hasPadding && stream == 0 && weight == 0 && !endStream && !endHeaders && rawHeaders == []
    {
      hasPadding := false;
      stream := 0;
      weight := 0;
      endStream := false;
      endHeaders := false;
      rawHeaders := [];
    }

    /** Copies all six fields into `h2`; this object is left as it was. */
    method CopyTo(h2: Headers)
      modifies h2
      ensures h2.hasPadding == old(hasPadding) && h2.stream == old(stream) && h2.weight == old(weight)
      ensures h2.endStream == old(endStream) && h2.endHeaders == old(endHeaders)
      ensures h2.rawHeaders == old(rawHeaders)
      ensures unchanged(this)
    {
      h2.hasPadding := hasPadding;
      h2.stream := stream;
      h2.weight := weight;
      h2.endStream := endStream;
      h2.endHeaders := endHeaders;
      h2.rawHeaders := rawHeaders;
    }

    /** Replaces the header block with `b`. */
    method SetHeaders(b: seq<Byte>)
      modifies this`rawHeaders
      ensures rawHeaders == b
    {
      rawHeaders := [] + b;
    }

    /** Appends `b` to the header block. */
    method AppendRawHeaders(b: seq<Byte>)
      modifies this`rawHeaders
      ensures rawHeaders == old(rawHeaders) + b
    {
      rawHeaders := rawHeaders + b;
    }

    method SetEndStream(value: bool)
      modifies this`endStream
      ensures endStream == value
    {
      endStream := value;
    }

    method SetEndHeaders(value: bool)
      modifies this`endHeaders
      ensures endHeaders == value
    {
      endHeaders := value;
    }

    /** Stores the dependency as given: unlike Priority.SetStream, the top bit is not cleared. */
    method SetStream(value: Uint32)
      modifies this`stream
      ensures stream == value
    {
      stream := value;
    }

    method SetWeight(w: Byte)
      modifies this`weight
      ensures weight == w
    {
      weight := w;
    }

    method SetPadding(value: bool)
      modifies this`hasPadding
      ensures hasPadding == value
    {
      hasPadding := value;
    }

    /** Decodes `fr` into this object, appending the header block fragment to `rawHeaders`. On an
        error (the padding does not fit, or fewer than 5 bytes under PRIORITY) nothing changes.
        The source assigns CutPadding's two results to one variable, which does not compile; the
        model returns CutPadding's error. The PRIORITY length check is made after the cut. */
    method ReadFrame(fr: Frame) returns (err: Option<Error>)
      modifies this
      ensures var d := DecodeHeaders(fr.flags, fr.payload, fr.Len());
        (d.Err? ==> err == Some(d.error) && unchanged(this)) &&
        (d.Ok? ==>
           err == None && rawHeaders == old(rawHeaders) + d.value.fragment &&
           endStream == fr.HasFlag(FlagEndStream) && endHeaders == fr.HasFlag(FlagEndHeaders) &&
           hasPadding == old(hasPadding) &&
           (d.value.priority.Some? ==>
              stream == d.value.priority.value.stream && weight == d.value.priority.value.weight) &&
           (d.value.priority.None? ==> stream == old(stream) && weight == old(weight)))
    {
      var payload := fr.payload;
      if fr.HasFlag(FlagPadded) {
        var cut := CutPadding(payload, fr.Len());
        if cut.Err? {
          return Some(cut.error);
        }
        payload := cut.value;
      }
      if fr.HasFlag(FlagPriority) {
        if |payload| < 5 {
          return Some(MissingBytes);
        }
        stream := Mask31(BytesToUint32(payload));
        weight := payload[4];
        payload := payload[5..];
      }
      endStream := fr.HasFlag(FlagEndStream);
      endHeaders := fr.HasFlag(FlagEndHeaders);
      rawHeaders := rawHeaders + payload;
      return None;
    }

    /** The PRIORITY step of WriteFrame: adds the flag, then `Uint32ToBytes(rawHeaders[1:5],
        fr.stream)` and `rawHeaders[5] = weight`. */
    method WritePriorityInPlace(fr: Frame)
      requires |rawHeaders| >= 6
      modifies this`rawHeaders, fr`flags
      ensures fr.flags == old(fr.flags) + {FlagPriority}
      ensures rawHeaders == WritePriorityAsWritten(old(rawHeaders), fr.stream, weight).value
    {
      fr.AddFlag(FlagPriority);
      var be := BE32(fr.stream);
      ghost var raw0 := rawHeaders;
      rawHeaders := rawHeaders[1 := be[0]][2 := be[1]][3 := be[2]][4 := be[3]];
      rawHeaders := rawHeaders[5 := weight];
      InPlacePriorityWrite(raw0, fr.stream, weight);
    }

    /** The PADDED step of WriteFrame: adds the flag and pads the header block. */
    method PadInto(fr: Frame, spare: seq<Byte>, padLen: nat, filler: seq<Byte>)
      requires 9 <= padLen <= 255 && |filler| == padLen
      modifies this`rawHeaders, fr`flags
      ensures fr.flags == old(fr.flags) + {FlagPadded}
      ensures rawHeaders == AddPadding(old(rawHeaders), spare, padLen, filler)
    {
      fr.AddFlag(FlagPadded);
      rawHeaders := AddPadding(rawHeaders, spare, padLen, filler);
    }

    /** Encodes this object into `fr` as the source writes it: type HEADERS, END_STREAM and
        END_HEADERS from the fields, and when the dependency and the weight are both non-zero the
        PRIORITY flag with `fr.stream` written over `rawHeaders[1..5)` and the weight over
        `rawHeaders[5]` (the source panics on a shorter block); then, with `hasPadding`, PADDED
        and the block replaced by its padded form. The envelope's refusal is returned. */
    method WriteFrame(fr: Frame, spare: seq<Byte>, padLen: nat, filler: seq<Byte>) returns (err: Option<Error>)
      requires stream > 0 && weight > 0 ==> |rawHeaders| >= 6
      requires hasPadding ==> 9 <= padLen <= 255 && |filler| == padLen
      modifies this`rawHeaders, fr
      ensures fr.kind == FrameHeaders && fr.stream == old(fr.stream)
      ensures fr.flags == old(fr.flags) + HeadersFlags(endStream, endHeaders, stream > 0 && weight > 0, hasPadding)
      ensures var written :=
          if stream > 0 && weight > 0 then WritePriorityAsWritten(old(rawHeaders), old(fr.stream), weight).value
          else old(rawHeaders);
        rawHeaders == if hasPadding then AddPadding(written, spare, padLen, filler) else written
      ensures err == None <==> |rawHeaders| <= fr.maxPayload
      ensures err == None ==> fr.payload == rawHeaders && fr.Len() == |rawHeaders|
      ensures err != None ==>
                err == Some(PayloadTooLarge) && fr.payload == old(fr.payload) && fr.length == old(fr.length)
    {
      ghost var f0, es, eh, pad := fr.flags, endStream, endHeaders, hasPadding;
      ghost var priority := stream > 0 && weight > 0;
      fr.SetType(FrameHeaders);
      if endStream {
        fr.AddFlag(FlagEndStream);
      }
      if endHeaders {
        fr.AddFlag(FlagEndHeaders);
      }
      ghost var f2 := fr.flags;
      assert f2 == AddIf(AddIf(f0, es, FlagEndStream), eh, FlagEndHeaders);
      if stream > 0 && weight > 0 {
        WritePriorityInPlace(fr);
      }
      ghost var f3 := fr.flags;
      assert f3 == AddIf(f2, priority, FlagPriority);
      if hasPadding {
        PadInto(fr, spare, padLen, filler);
      }
      assert fr.flags == AddIf(f3, pad, FlagPadded);
      HeadersFlagsInSteps(f0, es, eh, priority, pad);
      err := fr.SetPayload(rawHeaders);
    }
  }

  /** Writing a header block with no priority into a fresh frame and reading it back into a fresh
      object gives the block and both END flags, padded or not. */
  method HeadersWriteRead(raw: seq<Byte>, endStream: bool, endHeaders: bool, hasPadding: bool,
                          spare: seq<Byte>, padLen: nat, filler: seq<Byte>)
    returns (got: seq<Byte>, gotEndStream: bool, gotEndHeaders: bool, err: Option<Error>)
    requires hasPadding ==> 9 <= padLen <= 255 && |filler| == padLen
    ensures err == None && got == raw && gotEndStream == endStream && gotEndHeaders == endHeaders
  {
    var src := new Headers();
    src.SetHeaders(raw);
    src.SetEndStream(endStream);
    src.SetEndHeaders(endHeaders);
    src.SetPadding(hasPadding);
    var fr := new Frame(1, |raw| + 256);
    var _ := src.WriteFrame(fr, spare, padLen, filler);
    if hasPadding {
      CutAddPadding(raw, spare, padLen, filler);
    }
    var dst := new Headers();
    err := dst.ReadFrame(fr);
    got, gotEndStream, gotEndHeaders := dst.rawHeaders, dst.endStream, dst.endHeaders;
  }

  /** AcquireHeaders: a recycled object, or a new zero one, reset before it is returned. */
  method AcquireHeaders(recycled: Headers?) returns (h: Headers)
    modifies recycled
    ensures recycled != null ==> h == recycled
    ensures recycled == null ==> fresh(h)
    ensures !h.hasPadding && h.stream == 0 && h.weight == 0 && !h.endStream && !h.endHeaders
    ensures h.rawHeaders == []
  {
    if recycled == null {
      h := new Headers();
    } else {
      h := recycled;
      h.Reset();
    }
  }
}
