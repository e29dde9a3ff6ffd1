/** The generic frame envelope the payload codecs read from and write to. Its implementation is
    not part of this model; the class keeps only what the codecs use. */
module Frames {
  import opened Outcomes
  import opened Bytes

  /** The frame-header flags the payload codecs read and set. */
  datatype Flag = FlagEndStream | FlagEndHeaders | FlagPadded | FlagPriority {
    /** The flag's bit in the frame header's flag byte (sections 6.1 to 6.3 of RFC 7540). */
    function Bit(): Byte
    {
      match this
      case FlagEndStream => 0x1
      case FlagEndHeaders => 0x4
      case FlagPadded => 0x8
      case FlagPriority => 0x20
    }
  }

  /** The flags set in a frame header; bits of other flags play no part here. */
  type Flags = set<Flag>

  predicate Has(flags: Flags, f: Flag) { f in flags }

  /** The flag byte of a frame header carrying `flags`: the sum of their distinct bits. A flag is
      carried exactly when its bit is set in the byte. */
  function FlagByte(flags: Flags): (r: Byte)
    ensures forall f: Flag :: f in flags <==> (r / f.Bit()) % 2 == 1
  {
    (if FlagEndStream in flags then 0x1 else 0) + (if FlagEndHeaders in flags then 0x4 else 0) +
    (if FlagPadded in flags then 0x8 else 0) + (if FlagPriority in flags then 0x20 else 0)
  }

  /** The four bits are distinct, so the flag byte determines the set of flags. */
  lemma FlagByteInjective(a: Flags, b: Flags)
    requires FlagByte(a) == FlagByte(b)
    ensures a == b
  {
    forall f: Flag
      ensures f in a <==> f in b
    {
      assert (FlagByte(a) / f.Bit()) % 2 == (FlagByte(b) / f.Bit()) % 2;
    }
  }

  /** The stream dependency (top bit already cleared) and weight carried by PRIORITY frames and
      by HEADERS frames with the PRIORITY flag. */
  datatype PriorityFields = PriorityFields(stream: Uint31, weight: Byte)

  class Frame {
    var kind: Byte          // the frame type byte
    var flags: Flags
    var stream: Uint32      // the frame's own stream identifier
    var payload: seq<Byte>
    var length: nat         // the declared payload length of the frame header
    const maxPayload: nat   // the largest payload SetPayload accepts

    constructor (stream: Uint32, maxPayload: nat)
      ensures this.stream == stream && this.maxPayload == maxPayload
      ensures kind == 0 && flags == {} && payload == [] && length == 0
    {
      this.stream := stream;
      this.maxPayload := maxPayload;
      kind, flags, payload, length := 0, {}, [], 0;
    }

    function Len(): nat
      reads this
    {
      length
    }

    predicate HasFlag(f: Flag)
      reads this
    {
      Has(flags, f)
    }

    method SetType(t: Byte)
      modifies this`kind
      ensures kind == t
    {
      kind := t;
    }

    method AddFlag(f: Flag)
      modifies this`flags
      ensures flags == old(flags) + {f}
    {
      flags := flags + {f};
    }

    /** Replaces the payload, or refuses one longer than the envelope allows and keeps the old. */
    method SetPayload(b: seq<Byte>) returns (err: Option<Error>)
      modifies this`payload, this`length
      ensures err == None <==> |b| <= maxPayload
      ensures err != None ==> err == Some(PayloadTooLarge)
      ensures err == None ==> payload == b && length == |b|
      ensures err != None ==> payload == old(payload) && length == old(length)
    {
      if |b| > maxPayload {
        return Some(PayloadTooLarge);
      }
      payload, length := b, |b|;
      return None;
    }
  }
}
