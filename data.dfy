/** The DATA frame payload of data.go (section 6.1 of RFC 7540). */
module DataFrame {
  import opened Outcomes
  import opened Bytes
  import opened Padding
  import opened Frames

  const FrameData: Byte := 0x0

  class Data {
    var endStream: bool
    var hasPadding: bool
    var b: seq<Byte>      // the data bytes, owned by this object

    /** The zero value the pool's `New` hands out. */
    constructor ()
      ensures !endStream && !hasPadding && b == []
    {
      endStream, hasPadding, b := false, false, [];
    }

    method Reset()
      modifies this
      ensures !endStream && !hasPadding && b == []
    {
      endStream := false;
      hasPadding := false;
      b := [];
    }

    /** Copies every field into `d`; this object is left as it was (also when `d` is itself). */
    method CopyTo(d: Data)
      modifies d
      ensures d.hasPadding == old(hasPadding) && d.endStream == old(endStream) && d.b == old(b)
      ensures unchanged(this)
    {
      d.hasPadding := hasPadding;
      d.endStream := endStream;
      d.b := b;
    }

    method SetEndStream(value: bool)
      modifies this`endStream
      ensures endStream == value
    {
      endStream := value;
    }

    method SetPadding(value: bool)
      modifies this`hasPadding
      ensures hasPadding == value
    {
      hasPadding := value;
    }

    /** Replaces the data bytes with `bytes`. */
    method SetData(bytes: seq<Byte>)
      modifies this`b
      ensures b == bytes
    {
      b := [] + bytes;
    }

    /** Appends `bytes` to the data bytes. */
    method Append(bytes: seq<Byte>)
      modifies this`b
      ensures b == old(b) + bytes
    {
      b := b + bytes;
    }

    /** The `io.Writer` form of Append: reports every byte written and no error. */
    method Write(bytes: seq<Byte>) returns (n: nat, err: Option<Error>)
      modifies this`b
      ensures b == old(b) + bytes
      ensures n == |bytes| && err == None
    {
      n := |bytes|;
      Append(bytes);
      err := None;
    }

    /** The number of data bytes, converted to uint32 as the source does. */
    function Len(): (n: Uint32)
      reads this
      ensures n <= |b|
      ensures |b| < 0x1_0000_0000 ==> n == |b|
    {
      |b| % 0x1_0000_0000
    }

    /** Decodes `fr` into this object without changing `fr`. With PADDED the padding is cut using
        the frame's declared length; the source assigns CutPadding's two results to one variable,
        which does not compile, and the model returns CutPadding's error with this object left as
        it was. `hasPadding` is not touched. */
    method ReadFrame(fr: Frame) returns (err: Option<Error>)
      modifies this
      ensures !fr.HasFlag(FlagPadded) ==>
        err == None && b == fr.payload && endStream == fr.HasFlag(FlagEndStream)
      ensures fr.HasFlag(FlagPadded) ==>
        var cut := CutPadding(fr.payload, fr.Len());
        (cut.Err? ==> err == Some(cut.error) && b == old(b) && endStream == old(endStream)) &&
        (cut.Ok? ==> err == None && b == cut.value && endStream == fr.HasFlag(FlagEndStream))
      ensures hasPadding == old(hasPadding)
    {
      var payload := fr.payload;
      if fr.HasFlag(FlagPadded) {
        var cut := CutPadding(payload, fr.Len());
        if cut.Err? {
          return Some(cut.error);
        }
        payload := cut.value;
      }
      endStream := fr.HasFlag(FlagEndStream);
      b := [] + payload;
      return None;
    }

    /** Encodes this object into `fr`: type DATA, END_STREAM when `endStream`, and with
        `hasPadding` the PADDED flag and the data bytes replaced, in this object too, by their
        padded form. `spare` is the stale spare capacity of the byte buffer, `padLen` and `filler`
        the random pad length and padding bytes. The envelope's refusal of an oversized payload
        is ignored, as in the source. */
    method WriteFrame(fr: Frame, spare: seq<Byte>, padLen: nat, filler: seq<Byte>)
      requires hasPadding ==> 9 <= padLen <= 255 && |filler| == padLen
      modifies this`b, fr
      ensures fr.kind == FrameData && fr.stream == old(fr.stream)
      ensures fr.flags == old(fr.flags) + (if endStream then {FlagEndStream} else {})
                                       + (if hasPadding then {FlagPadded} else {})
      ensures !hasPadding ==> b == old(b)
      ensures hasPadding ==> b == AddPadding(old(b), spare, padLen, filler)
      ensures hasPadding ==> CutPadding(b, |b|) == Ok(old(b))
      ensures |b| <= fr.maxPayload ==> fr.payload == b && fr.Len() == |b|
      ensures |b| > fr.maxPayload ==> fr.payload == old(fr.payload) && fr.length == old(fr.length)
    {
      fr.SetType(FrameData);
      if endStream {
        fr.AddFlag(FlagEndStream);
      }
      if hasPadding {
        fr.AddFlag(FlagPadded);
        CutAddPadding(b, spare, padLen, filler);
        b := AddPadding(b, spare, padLen, filler);
      }
      var _ := fr.SetPayload(b);
    }
  }

  /** AcquireData: the pool hands out a recycled object, or a new zero one when it is empty, and
      the source resets it before returning it. */
  method AcquireData(recycled: Data?) returns (d: Data)
    modifies recycled
    ensures recycled != null ==> d == recycled
    ensures recycled == null ==> fresh(d)
    ensures !d.endStream && !d.hasPadding && d.b == []
  {
    if recycled == null {
      d := new Data();
    } else {
      d := recycled;
      d.Reset();
    }
  }

  /** Writing a DATA payload into a fresh frame and reading it back into a fresh object restores
      the data bytes and END_STREAM, with or without padding. */
  method DataRoundTrip(bytes: seq<Byte>, endStream: bool, hasPadding: bool,
                       spare: seq<Byte>, padLen: nat, filler: seq<Byte>)
    returns (got: seq<Byte>, gotEndStream: bool, err: Option<Error>)
    requires hasPadding ==> 9 <= padLen <= 255 && |filler| == padLen
    ensures err == None && got == bytes && gotEndStream == endStream
  {
    var src := new Data();
    src.SetData(bytes);
    src.SetEndStream(endStream);
    src.SetPadding(hasPadding);
    var fr := new Frame(1, |bytes| + 256);
    src.WriteFrame(fr, spare, padLen, filler);
    var dst := new Data();
    err := dst.ReadFrame(fr);
    got, gotEndStream := dst.b, dst.endStream;
  }
}
