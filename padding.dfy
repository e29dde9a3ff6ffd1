/** The padding codec of http2utils/utils.go (section 6.1 of RFC 7540: a PADDED payload is a
    one-byte pad length, the content, then that many padding bytes). */
module Padding {
  import opened Outcomes
  import opened Bytes

  /** CutPadding with the guard it evidently intends. `length` is the frame's declared length.
      The first byte is the pad length `pad`; the content is `payload[1 .. length - pad)`.
      Deviation from the source: an empty payload, and a payload one byte too short for the
      slice, are rejected with OutOfRange instead of indexing past the slice (see
      CutPaddingAsWritten). */
  function CutPadding(payload: seq<Byte>, length: nat): (r: Result<seq<Byte>>)
    ensures r.Ok? <==> |payload| > 0 && 1 <= length - payload[0] <= |payload|
    ensures r.Err? ==> r.error == OutOfRange
    ensures r.Ok? ==> 1 + |r.value| + payload[0] == length && payload[1..1 + |r.value|] == r.value
  {
    if |payload| == 0 then Err(OutOfRange)
    else
      var pad := payload[0] as int;
      if |payload| < length - pad || length - pad < 1 then Err(OutOfRange)
      else Ok(payload[1..length - pad])
  }

  /** CutPadding as the source writes it: `payload[0]` is read without a length check, and the
      guard `len(payload) < length-pad-1` lets `len(payload) == length-pad-1` through, so the
      slice `payload[1:length-pad]` ends one byte past the payload. Both show as OutOfBounds. */
  function CutPaddingAsWritten(payload: seq<Byte>, length: nat): (r: GoOutcome<seq<Byte>>)
    ensures r.OutOfBounds? <==> |payload| == 0 || length - payload[0] == |payload| + 1
    ensures r.Fails? ==> r.error == OutOfRange
  {
    if |payload| == 0 then OutOfBounds
    else
      var pad := payload[0] as int;
      if |payload| < length - pad - 1 || length - pad < 1 then Fails(OutOfRange)
      else if length - pad > |payload| then OutOfBounds
      else Returns(payload[1..length - pad])
  }

  /** Away from the two defective inputs the source and the corrected guard agree. */
  lemma CutPaddingAgreesAwayFromDefect(payload: seq<Byte>, length: nat)
    requires !CutPaddingAsWritten(payload, length).OutOfBounds?
    ensures CutPadding(payload, length).Ok? <==> CutPaddingAsWritten(payload, length).Returns?
    ensures CutPadding(payload, length).Ok? ==>
      CutPadding(payload, length).value == CutPaddingAsWritten(payload, length).value
  {
  }

  /** A one-byte payload with pad length 0 and declared length 2 passes the source's guard and
      then slices past the payload; the corrected guard rejects it. */
  lemma CutPaddingOverreadExample()
    ensures CutPaddingAsWritten([0], 2) == OutOfBounds
    ensures CutPadding([0], 2) == Err(OutOfRange)
  {
  }

  /** AddPadding with the filler it evidently intends: all `n` padding bytes come from `filler`.
      The pad length `n` (drawn at random in [9, 255] by the source) and the filler (random
      bytes) are parameters. The steps follow the source: resize to `len(b)+n` (which brings
      back the stale `spare` capacity), shift right by one, store `n` in front, overwrite the
      padding. The result no longer depends on `spare`. */
  function AddPadding(b: seq<Byte>, spare: seq<Byte>, n: nat, filler: seq<Byte>): (r: seq<Byte>)
    requires 9 <= n <= 255 && |filler| == n
    ensures |r| == |b| + n + 1
    ensures r[0] == n && r[1..|b| + 1] == b
    ensures r[|b| + 1..] == filler
  {
    var nn := |b|;
    var grown := Resize(b, spare, nn + n);
    var shifted := grown[..1] + grown;
    var tagged := shifted[0 := n];
    assert tagged[1..nn + 1] == grown[..nn] == b;
    tagged[..nn + 1] + filler
  }

  /** AddPadding as the source writes it: `rand.Read(b[nn+1 : nn+n])` fills only `n - 1` of the
      `n` padding bytes, so the last padding byte is whatever Resize left there: a stale byte of
      the buffer's spare capacity, or 0. */
  function AddPaddingAsWritten(b: seq<Byte>, spare: seq<Byte>, n: nat, filler: seq<Byte>): (r: seq<Byte>)
    requires 9 <= n <= 255 && |filler| == n - 1
    ensures |r| == |b| + n + 1
    ensures r[0] == n && r[1..|b| + 1] == b
    ensures r[|b| + 1..|b| + n] == filler
    ensures r[|b| + n] == if n - 1 < |spare| then spare[n - 1] else 0
  {
    var nn := |b|;
    var grown := Resize(b, spare, nn + n);
    var shifted := grown[..1] + grown;
    var tagged := shifted[0 := n];
    assert tagged[1..nn + 1] == grown[..nn] == b;
    assert tagged[nn + n] == grown[nn + n - 1];
    var r := tagged[..nn + 1] + filler + tagged[nn + n..];
    assert r[1..nn + 1] == tagged[1..nn + 1];
    assert r[nn + 1..nn + n] == filler;
    r
  }

  /** The source's padding is the intended padding with a filler whose last byte is stale. */
  lemma AddPaddingAsWrittenIsStaleFiller(b: seq<Byte>, spare: seq<Byte>, n: nat, filler: seq<Byte>)
    requires 9 <= n <= 255 && |filler| == n - 1
    ensures AddPaddingAsWritten(b, spare, n, filler) ==
      AddPadding(b, spare, n, filler + [if n - 1 < |spare| then spare[n - 1] else 0])
  {
    var r := AddPaddingAsWritten(b, spare, n, filler);
    var last: Byte := if n - 1 < |spare| then spare[n - 1] else 0;
    var s := AddPadding(b, spare, n, filler + [last]);
    assert |r| == |s|;
    forall i | 0 <= i < |r| ensures r[i] == s[i] {
      if i == 0 {
      } else if i <= |b| {
        assert r[i] == r[1..|b| + 1][i - 1];
        assert s[i] == s[1..|b| + 1][i - 1];
      } else {
        assert s[i] == s[|b| + 1..][i - |b| - 1];
        if i < |b| + n {
          assert r[i] == r[|b| + 1..|b| + n][i - |b| - 1];
        }
      }
    }
  }

  /** Concrete case: a pooled buffer whose spare capacity still holds 0x41 bytes leaks one of
      them as the last padding byte, whatever the random filler is. */
  lemma AddPaddingLeaksStaleByte(filler: seq<Byte>)
    requires |filler| == 8
    ensures var r := AddPaddingAsWritten([], seq(9, _ => 0x41), 9, filler); r[9] == 0x41
  {
  }

  /** Padding round trip: cutting the padding of an AddPadding result, with the result's own
      length as the declared length, gives back exactly `b`, whatever the filler. */
  lemma {:induction false} CutAddPadding(b: seq<Byte>, spare: seq<Byte>, n: nat, filler: seq<Byte>)
    requires 9 <= n <= 255 && |filler| == n
    ensures var p := AddPadding(b, spare, n, filler); CutPadding(p, |p|) == Ok(b)
  {
    var p := AddPadding(b, spare, n, filler);
    assert p[0] == n;
    assert p[1..|p| - n] == p[1..|b| + 1];
  }

  /** The source's padding (with its stale last byte) also cuts back to `b`. */
  lemma CutAddPaddingAsWritten(b: seq<Byte>, spare: seq<Byte>, n: nat, filler: seq<Byte>)
    requires 9 <= n <= 255 && |filler| == n - 1
    ensures var p := AddPaddingAsWritten(b, spare, n, filler); CutPadding(p, |p|) == Ok(b)
  {
    AddPaddingAsWrittenIsStaleFiller(b, spare, n, filler);
    CutAddPadding(b, spare, n, filler + [if n - 1 < |spare| then spare[n - 1] else 0]);
  }
}
