/** The byte encodings behind ByteArray's typed readers and writers. */
module Codec {
  import opened Bits
  import opened Blocks

  // ---------------------------------------------------------------- fixed width

  /** The memory image of a `w`-byte integer on the (little-endian) host. */
  function HostBytes(w: nat, v: nat): (b: seq<byte>)
    ensures |b| == w
  {
    if w == 0 then [] else [v % 256] + HostBytes(w - 1, v / 256)
  }

  function FromHost(b: seq<byte>): nat {
    if b == [] then 0 else b[0] + 256 * FromHost(b[1..])
  }

  function Reverse(b: seq<byte>): (r: seq<byte>)
    ensures |r| == |b|
  {
    if b == [] then [] else Reverse(b[1..]) + [b[0]]
  }

  /** bswap_16, bswap_32 and bswap_64. */
  function ByteSwap(w: nat, v: nat): nat {
    FromHost(Reverse(HostBytes(w, v)))
  }

  /** What a fixed-width writer puts into the buffer. */
  function FixedBytes(big: bool, w: nat, v: int): (b: seq<byte>)
    ensures |b| == w
  {
    var u := Wrap(8 * w, v);
    HostBytes(w, if big then ByteSwap(w, u) else u)
  }

  /** What a fixed-width reader makes of `w` bytes. */
  function FromFixed(big: bool, signed: bool, b: seq<byte>): (r: int)
    requires |b| > 0
    ensures !signed ==> r >= 0
  {
    var u := if big then ByteSwap(|b|, FromHost(b)) else FromHost(b);
    if signed then ToSigned(8 * |b|, u) else u
  }

  lemma Pow2Byte(n: nat)
    ensures Pow2(n + 8) == 256 * Pow2(n)
  {
    assert Pow2(n + 4) == 2 * Pow2(n + 3) == 4 * Pow2(n + 2) == 8 * Pow2(n + 1) == 16 * Pow2(n);
    assert Pow2(n + 8) == 2 * Pow2(n + 7) == 4 * Pow2(n + 6) == 8 * Pow2(n + 5) == 16 * Pow2(n + 4);
  }

  lemma {:induction false} HostRoundTrip(w: nat, v: nat)
    requires v < Pow2(8 * w)
    ensures FromHost(HostBytes(w, v)) == v
  {
    if w > 0 {
      Pow2Byte(8 * (w - 1));
      HostRoundTrip(w - 1, v / 256);
      assert HostBytes(w, v)[1..] == HostBytes(w - 1, v / 256);
    }
  }

  lemma {:induction false} HostBytesOf(b: seq<byte>)
    ensures HostBytes(|b|, FromHost(b)) == b
    ensures FromHost(b) < Pow2(8 * |b|)
  {
    if b != [] {
      HostBytesOf(b[1..]);
      Pow2Byte(8 * (|b| - 1));
      assert b == [b[0]] + b[1..];
    }
  }

  lemma {:induction false} ReverseAppend(b: seq<byte>, c: byte)
    ensures Reverse(b + [c]) == [c] + Reverse(b)
  {
    if b != [] {
      ReverseAppend(b[1..], c);
      assert (b + [c])[1..] == b[1..] + [c];
    }
  }

  lemma {:induction false} ReverseTwice(b: seq<byte>)
    ensures Reverse(Reverse(b)) == b
  {
    if b != [] {
      ReverseTwice(b[1..]);
      ReverseAppend(Reverse(b[1..]), b[0]);
    }
  }

  /** Swapping bytes reverses the memory image, so doing it twice changes nothing. */
  lemma ByteSwapReverses(w: nat, v: nat)
    requires v < Pow2(8 * w)
    ensures HostBytes(w, ByteSwap(w, v)) == Reverse(HostBytes(w, v))
    ensures ByteSwap(w, v) < Pow2(8 * w)
    ensures ByteSwap(w, ByteSwap(w, v)) == v
  {
    var b := HostBytes(w, v);
    HostBytesOf(Reverse(b));
    ReverseTwice(b);
    HostRoundTrip(w, v);
  }

  /** The values a `w`-byte integer type holds. */
  predicate InRange(w: nat, signed: bool, v: int)
    requires w > 0
  {
    if signed then -Pow2(8 * w - 1) <= v < Pow2(8 * w - 1) else 0 <= v < Pow2(8 * w)
  }

  lemma WrapToSigned(k: nat, v: int)
    requires k > 0 && -Pow2(k - 1) <= v < Pow2(k - 1)
    ensures Wrap(k, v) == if v < 0 then v + Pow2(k) else v
    ensures ToSigned(k, Wrap(k, v)) == v
  {
  }

  lemma FixedRoundTrip(big: bool, signed: bool, w: nat, v: int)
    requires w > 0 && InRange(w, signed, v)
    ensures FromFixed(big, signed, FixedBytes(big, w, v)) == v
  {
    var u := Wrap(8 * w, v);
    ByteSwapReverses(w, u);
    HostRoundTrip(w, u);
    HostRoundTrip(w, ByteSwap(w, u));
    if signed {
      WrapToSigned(8 * w, v);
    }
  }

  // ---------------------------------------------------------------- zigzag

  function EncodeZigzag(k: nat, v: int): (u: nat)
    ensures u < Pow2(k)
  {
    if v < 0 then Wrap(k, Wrap(k, -v) * 2 - 1) else Wrap(k, v * 2)
  }

  function DecodeZigzag(k: nat, u: nat): int
    requires k > 0
  {
    ToSigned(k, Xor(u / 2, Wrap(k, -(u % 2))))
  }

  /** The bits of (u >> 1) ^ -(u & 1). */
  lemma ZigzagBits(k: nat, u: nat)
    requires k > 0 && u < Pow2(k)
    ensures DecodeZigzag(k, u) == if u % 2 == 0 then u / 2 else -(u / 2) - 1
    ensures -Pow2(k - 1) <= DecodeZigzag(k, u) < Pow2(k - 1)
  {
    if u % 2 == 0 {
      XorZero(u / 2);
    } else {
      assert Wrap(k, -1) == Wrap(k, Pow2(k) - 1) == Pow2(k) - 1;
      XorOnes(k, u / 2);
    }
  }

  /** On the integers of k bits the encoder is v -> 2v, or -2v - 1 for negative v, even for
      the least integer, whose negation wraps around. */
  lemma ZigzagValue(k: nat, v: int)
    requires k > 0 && -Pow2(k - 1) <= v < Pow2(k - 1)
    ensures EncodeZigzag(k, v) == if v < 0 then -2 * v - 1 else 2 * v
  {
  }

  /** Zigzag is a bijection from [-2^(k-1), 2^(k-1)) to [0, 2^k). */
  lemma ZigzagRoundTrip(k: nat, v: int)
    requires k > 0 && -Pow2(k - 1) <= v < Pow2(k - 1)
    ensures DecodeZigzag(k, EncodeZigzag(k, v)) == v
  {
    ZigzagValue(k, v);
    ZigzagBits(k, EncodeZigzag(k, v));
  }

  lemma ZigzagOnto(k: nat, u: nat)
    requires k > 0 && u < Pow2(k)
    ensures -Pow2(k - 1) <= DecodeZigzag(k, u) < Pow2(k - 1)
    ensures EncodeZigzag(k, DecodeZigzag(k, u)) == u
  {
    ZigzagBits(k, u);
    ZigzagValue(k, DecodeZigzag(k, u));
  }

  // ---------------------------------------------------------------- varint

  lemma SevenBits(low: nat)
    requires low < 0x80
    ensures Or(low, 0x80) == low + 0x80
  {
    assert Pow2(7) == 0x80 && Shl(1, 7) == 0x80;
    OrShifted(low, 1, 7);
  }

  function VarintBytes(v: nat): (b: seq<byte>)
    ensures |b| > 0
  {
    if v < 0x80 then [v]
    else
      SevenBits(v % 0x80);
      [Or(v % 0x80, 0x80)] + VarintBytes(v / 0x80)
  }

  /** The reader's loop from shift `i` on, with `result` read so far: the value and how
      many bytes were taken, or nothing when the bytes run out. */
  datatype VarintResult = Value(value: nat, used: nat) | Short

  function FromVarint(k: nat, i: nat, result: nat, b: seq<byte>): (r: VarintResult)
    ensures r.Value? ==> r.used <= |b|
    decreases |b|
  {
    if i >= k then Value(result, 0)
    else if b == [] then Short
    else
      var result' := Or(result, Wrap(k, Shl(b[0] % 0x80, i)));
      if b[0] < 0x80 then Value(result', 1)
      else
        match FromVarint(k, i + 7, result', b[1..])
        case Value(v, n) => Value(v, n + 1)
        case Short => Short
  }

  lemma Shl7(v: nat, i: nat)
    ensures Shl(0x80 * v, i) == Shl(v, i + 7)
    ensures Pow2(i + 7) == Shl(0x80, i)
  {
    assert Shl(v, 4) == 2 * Shl(v, 3) == 4 * Shl(v, 2) == 8 * Shl(v, 1) == 16 * v;
    assert Shl(v, 7) == 2 * Shl(v, 6) == 4 * Shl(v, 5) == 8 * Shl(v, 4) == 0x80 * v;
    ShlShl(v, 7, i);
    assert Shl(1, 7) == 0x80;
    ShlShl(1, 7, i);
    ShlOne(i + 7);
  }

  /** The bytes fit the writer's buffer: at most ceil(k / 7). */
  lemma {:induction false} VarintLength(k: nat, v: nat)
    requires k > 0 && v < Pow2(k)
    ensures 7 * (|VarintBytes(v)| - 1) < k
  {
    if v >= 0x80 {
      assert Pow2(7) == 0x80;
      Pow2Monotonic(k, 7);
      VarintDivide(k, v);
      VarintLength(k - 7, v / 0x80);
    }
  }

  lemma VarintDivide(k: nat, v: nat)
    requires k >= 7 && v < Pow2(k)
    ensures v / 0x80 < Pow2(k - 7)
  {
    assert Pow2(k) == 2 * Pow2(k - 1) == 4 * Pow2(k - 2) == 8 * Pow2(k - 3) == 16 * Pow2(k - 4);
    assert Pow2(k - 4) == 2 * Pow2(k - 5) == 4 * Pow2(k - 6) == 8 * Pow2(k - 7);
  }

  /** A word shifted left is its low seven bits and the rest, each in place. */
  lemma SplitShift(v: nat, i: nat)
    ensures Shl(v, i) == Shl(v % 0x80, i) + Shl(v / 0x80, i + 7)
    ensures Shl(v % 0x80, i) + Pow2(i) <= Pow2(i + 7)
    ensures v >= 0x80 ==> Pow2(i + 7) <= Shl(v, i)
  {
    Shl7(v / 0x80, i);
    ShlAdd(v % 0x80, 0x80 * (v / 0x80), i);
    ShlOne(i);
    ShlAdd(v % 0x80, 1, i);
    ShlMonotonic(v % 0x80 + 1, 0x80, i);
    ShlMonotonic(0x80, v, i);
  }

  /** The arithmetic of one turn of the reader's loop. */
  lemma VarintTurn(k: nat, i: nat, result: nat, v: nat)
    requires i < k && result < Pow2(i) && Shl(v, i) < Pow2(k)
    ensures Or(result, Wrap(k, Shl(v % 0x80, i))) == result + Shl(v % 0x80, i) < Pow2(i + 7)
    ensures Shl(v, i) == Shl(v % 0x80, i) + Shl(v / 0x80, i + 7)
    ensures v >= 0x80 ==> i + 7 < k
  {
    SplitShift(v, i);
    OrShifted(result, v % 0x80, i);
    Pow2Monotonic(k, i + 7);
  }

  /** The bytes of a value of more than seven bits, with whatever follows them. */
  lemma VarintHead(v: nat, rest: seq<byte>)
    requires v >= 0x80
    ensures var b := VarintBytes(v) + rest;
      b[0] == v % 0x80 + 0x80 && b[0] % 0x80 == v % 0x80 && b[1..] == VarintBytes(v / 0x80) + rest
    ensures |VarintBytes(v)| == |VarintBytes(v / 0x80)| + 1
  {
    SevenBits(v % 0x80);
    LowBits(v);
    hide Or;
    HeadAndRest(v % 0x80 + 0x80, VarintBytes(v / 0x80), rest);
  }

  lemma LowBits(v: nat)
    ensures v % 0x80 + 0x80 < 256 && (v % 0x80 + 0x80) % 0x80 == v % 0x80
  {
  }

  lemma HeadAndRest(h: byte, t: seq<byte>, rest: seq<byte>)
    ensures ([h] + t + rest)[0] == h && ([h] + t + rest)[1..] == t + rest
  {
  }

  /** Reading back takes exactly the bytes written, whatever follows them. */
  lemma {:induction false} VarintRoundTrip(k: nat, i: nat, result: nat, v: nat, rest: seq<byte>)
    requires i < k && result < Pow2(i) && Shl(v, i) < Pow2(k)
    ensures FromVarint(k, i, result, VarintBytes(v) + rest) == Value(result + Shl(v, i), |VarintBytes(v)|)
    decreases v
  {
    hide Or, Shl, Wrap, Pow2;
    VarintTurn(k, i, result, v);
    if v < 0x80 {
      assert (VarintBytes(v) + rest)[0] == v;
      NoShift(i + 7);
    } else {
      VarintHead(v, rest);
      hide VarintBytes;
      VarintRoundTrip(k, i + 7, result + Shl(v % 0x80, i), v / 0x80, rest);
    }
  }

  lemma NoShift(i: nat)
    ensures Shl(0, i) == 0
  {
  }
}
