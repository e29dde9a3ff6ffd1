/** Byte-order and buffer helpers of http2utils/utils.go. */
module Bytes {

  /** Go's `byte`. */
  type Byte = x: int | 0 <= x < 0x100

  /** Go's `uint32`. */
  type Uint32 = x: int | 0 <= x < 0x1_0000_0000

  /** A 32-bit value with its top (reserved) bit clear. */
  type Uint31 = x: int | 0 <= x < 0x8000_0000

  function Min(a: int, b: int): int { if a <= b then a else b }

  /** Go's conversion `byte(x)`: keeps the low eight bits. */
  function Low8(x: nat): Byte { x % 0x100 }

  /** The big-endian bytes of the low 24 bits of `n`, as Uint24ToBytes writes them. */
  function BE24(n: Uint32): seq<Byte>
  {
    [Low8(n / 0x1_0000), Low8(n / 0x100), Low8(n)]
  }

  /** The big-endian bytes of `n`, as Uint32ToBytes writes them. */
  function BE32(n: Uint32): seq<Byte>
  {
    [Low8(n / 0x100_0000), Low8(n / 0x1_0000), Low8(n / 0x100), Low8(n)]
  }

  /** Reads the first three bytes of `b` as a big-endian number. The shifted bytes of the source
      occupy disjoint bits, so its `|` is the sum written here. */
  function BytesToUint24(b: seq<Byte>): (n: nat)
    requires |b| >= 3
    ensures n < 0x100_0000
    ensures BE24(n) == b[..3]
  {
    var hi := b[0] as int * 0x100 + b[1];
    ShiftByte(hi, b[2]);
    ShiftByte(b[0], b[1]);
    assert (hi * 0x100 + b[2]) / 0x1_0000 == b[0];
    b[0] as int * 0x1_0000 + b[1] as int * 0x100 + b[2] as int
  }

  /** Reads the first four bytes of `b` as a big-endian number. */
  function BytesToUint32(b: seq<Byte>): (n: Uint32)
    requires |b| >= 4
    ensures BE32(n) == b[..4]
  {
    var hi := b[0] as int * 0x100 + b[1];
    var mid := hi * 0x100 + b[2];
    ShiftByte(hi, b[2]);
    ShiftByte(mid, b[3]);
    ShiftByte(b[0], b[1]);
    assert (mid * 0x100 + b[3]) / 0x1_0000 == hi;
    assert (mid * 0x100 + b[3]) / 0x100_0000 == b[0];
    b[0] as int * 0x100_0000 + b[1] as int * 0x1_0000 + b[2] as int * 0x100 + b[3] as int
  }

  /** Appending byte `r` below `q` can be undone by division and remainder by 0x100. */
  lemma ShiftByte(q: nat, r: Byte)
    ensures (q * 0x100 + r) / 0x100 == q && (q * 0x100 + r) % 0x100 == r
  {
  }

  /** Unpacking what was packed gives the number back, less the bits above 24. */
  lemma Uint24RoundTrip(n: Uint32)
    ensures BytesToUint24(BE24(n)) == n % 0x100_0000
  {
    var q := n / 0x100;
    assert n == q * 0x100 + Low8(n);
    assert q == (q / 0x100) * 0x100 + Low8(q);
    assert n / 0x1_0000 == q / 0x100;
    assert n % 0x100_0000 == Low8(n / 0x1_0000) * 0x1_0000 + Low8(q) * 0x100 + Low8(n);
  }

  /** Unpacking what was packed gives the number back. */
  lemma Uint32RoundTrip(n: Uint32)
    ensures BytesToUint32(BE32(n)) == n
  {
    var q := n / 0x100;
    var q2 := q / 0x100;
    assert n == q * 0x100 + Low8(n);
    assert q == q2 * 0x100 + Low8(q);
    assert q2 == (q2 / 0x100) * 0x100 + Low8(q2);
    assert n / 0x1_0000 == q2;
    assert n / 0x100_0000 == q2 / 0x100;
  }

  /** Writes the low 24 bits of `n` big-endian into `b[0..3)`; `b[3..]` is left alone. A shorter
      `b` makes the source panic, so callers must slice correctly. */
  method Uint24ToBytes(b: array<Byte>, n: Uint32)
    requires b.Length >= 3
    modifies b
    ensures b[..3] == BE24(n)
    ensures BytesToUint24(b[..]) == n % 0x100_0000
    ensures b[3..] == old(b[3..])
  {
    b[0] := Low8(n / 0x1_0000);
    b[1] := Low8(n / 0x100);
    b[2] := Low8(n);
    Uint24RoundTrip(n);
  }

  /** Writes `n` big-endian into `b[0..4)`; `b[4..]` is left alone. */
  method Uint32ToBytes(b: array<Byte>, n: Uint32)
    requires b.Length >= 4
    modifies b
    ensures b[..4] == BE32(n)
    ensures BytesToUint32(b[..]) == n
    ensures b[4..] == old(b[4..])
  {
    b[0] := Low8(n / 0x100_0000);
    b[1] := Low8(n / 0x1_0000);
    b[2] := Low8(n / 0x100);
    b[3] := Low8(n);
    Uint32RoundTrip(n);
  }

  /** Appends the four big-endian bytes of `n` to `dst`: the same bytes Uint32ToBytes writes, and
      they read back as `n`. */
  function AppendUint32Bytes(dst: seq<Byte>, n: Uint32): (r: seq<Byte>)
    ensures |r| == |dst| + 4 && r[..|dst|] == dst
    ensures r[|dst|..] == BE32(n)
    ensures BytesToUint32(r[|dst|..]) == n
  {
    Uint32RoundTrip(n);
    dst + [Low8(n / 0x100_0000), Low8(n / 0x1_0000), Low8(n / 0x100), Low8(n)]
  }

  /** `x | 0x20`: sets bit 5 (the bit worth 0x20 is set exactly when `x % 0x40 >= 0x20`), which
      maps an upper-case ASCII letter to its lower-case form. */
  function FoldCase(x: Byte): Byte
  {
    if x % 0x40 >= 0x20 then x else x + 0x20
  }

  /** Byte strings equal up to `FoldCase` at every position. */
  predicate FoldEqual(a: seq<Byte>, b: seq<Byte>)
  {
    |a| == |b| && forall i :: 0 <= i < |a| ==> FoldCase(a[i]) == FoldCase(b[i])
  }

  /** Case-insensitive ASCII comparison: false when the lengths differ, otherwise true exactly
      when every position agrees after OR-ing 0x20. */
  method EqualsFold(a: seq<Byte>, b: seq<Byte>) returns (eq: bool)
    ensures eq <==> FoldEqual(a, b)
  {
    var n := |a|;
    if n != |b| {
      return false;
    }
    var i := 0;
    while i < n
      invariant 0 <= i <= n
      invariant forall k :: 0 <= k < i ==> FoldCase(a[k]) == FoldCase(b[k])
    {
      if FoldCase(a[i]) != FoldCase(b[i]) {
        return false;
      }
      i := i + 1;
    }
    return true;
  }

  /** FoldEqual is an equivalence relation. */
  lemma FoldEqualIsEquivalence(a: seq<Byte>, b: seq<Byte>, c: seq<Byte>)
    ensures FoldEqual(a, a)
    ensures FoldEqual(a, b) ==> FoldEqual(b, a)
    ensures FoldEqual(a, b) && FoldEqual(b, c) ==> FoldEqual(a, c)
  {
  }

  /** On ASCII letters FoldCase is lower-casing: 'A'+k and 'a'+k both fold to 'a'+k. */
  lemma FoldCaseOfLetter(k: nat)
    requires k < 26
    ensures FoldCase(0x41 + k) == 0x61 + k
    ensures FoldCase(0x61 + k) == 0x61 + k
  {
  }

  /** Bytes that are not letters are conflated too: '^' (0x5E) and '~' (0x7E), both legal in a
      header-name token, compare equal. */
  lemma FoldCaseConflatesCaretAndTilde()
    ensures FoldEqual([0x5E], [0x7E])
  {
    assert FoldCase(0x5E) == 0x7E;
  }

  function Zeros(n: nat): (z: seq<Byte>)
    ensures |z| == n && forall i :: 0 <= i < n ==> z[i] == 0
  {
    seq(n, _ => 0)
  }

  /** Go's Resize. `spare` stands for the bytes between `len(b)` and `cap(b)`: the source first
      re-slices `b` to its capacity, so those stale bytes reappear, and only the part beyond the
      capacity is zero-filled. The result has exactly `neededLen` bytes and starts with `b`'s. */
  function Resize(b: seq<Byte>, spare: seq<Byte>, neededLen: nat): (r: seq<Byte>)
    ensures |r| == neededLen
    ensures r[..Min(|b|, neededLen)] == b[..Min(|b|, neededLen)]
    ensures forall i :: |b| <= i < Min(|b| + |spare|, neededLen) ==> r[i] == spare[i - |b|]
    ensures forall i :: |b| + |spare| <= i < neededLen ==> r[i] == 0
  {
    var full := b + spare;
    var grown := if neededLen - |full| > 0 then full + Zeros(neededLen - |full|) else full;
    grown[..neededLen]
  }

  /** Go's `n & (1<<31 - 1)`: clears the top bit and keeps the other 31. */
  function Mask31(n: Uint32): (r: Uint31)
    ensures r == n || r + 0x8000_0000 == n
    ensures n < 0x8000_0000 ==> r == n
  {
    n % 0x8000_0000
  }
}
