/** The address arithmetic of IPv4Address: masks, networks, and the bit count behind prefix
    lengths.  Addresses are stored in network order, so every mask is byte-swapped. */
module Ipv4 {
  import opened Arith
  import opened Bits
  import opened Blocks
  import opened Codec

  // ---------------------------------------------------------------- operators, a part at a time

  /** ~x on a word of k bits. */
  function Not(k: nat, x: nat): (r: nat)
    requires x < Pow2(k)
    ensures r < Pow2(k)
  {
    Pow2(k) - 1 - x
  }

  lemma AndHalves(x: nat, y: nat)
    ensures And(x, y) == (if x % 2 == 1 && y % 2 == 1 then 1 else 0) + 2 * And(x / 2, y / 2)
  {
  }

  lemma OrHalves(x: nat, y: nat)
    ensures Or(x, y) == (if x % 2 == 1 || y % 2 == 1 then 1 else 0) + 2 * Or(x / 2, y / 2)
  {
  }

  lemma AddHalf(l: nat, s: nat)
    ensures (l + 2 * s) / 2 == l / 2 + s && (l + 2 * s) % 2 == l % 2
  {
  }

  /** The low i bits and the rest are combined separately. */
  lemma {:induction false} AndSplit(a: nat, x: nat, b: nat, y: nat, i: nat)
    requires a < Pow2(i) && b < Pow2(i)
    ensures And(a + Shl(x, i), b + Shl(y, i)) == And(a, b) + Shl(And(x, y), i) && And(a, b) < Pow2(i)
    decreases i
  {
    hide And;
    AndHalves(a, b);
    if i > 0 {
      AndSplit(a / 2, x, b / 2, y, i - 1);
      AddHalf(a, Shl(x, i - 1));
      AddHalf(b, Shl(y, i - 1));
      AndHalves(a + Shl(x, i), b + Shl(y, i));
    } else {
      AndZero();
    }
  }

  lemma AndZero()
    ensures And(0, 0) == 0 && Or(0, 0) == 0
  {
  }

  lemma {:induction false} OrSplit(a: nat, x: nat, b: nat, y: nat, i: nat)
    requires a < Pow2(i) && b < Pow2(i)
    ensures Or(a + Shl(x, i), b + Shl(y, i)) == Or(a, b) + Shl(Or(x, y), i) && Or(a, b) < Pow2(i)
    decreases i
  {
    hide Or;
    OrHalves(a, b);
    if i > 0 {
      OrSplit(a / 2, x, b / 2, y, i - 1);
      AddHalf(a, Shl(x, i - 1));
      AddHalf(b, Shl(y, i - 1));
      OrHalves(a + Shl(x, i), b + Shl(y, i));
    } else {
      AndZero();
    }
  }

  lemma ShlByte(v: nat)
    ensures Shl(v, 8) == 256 * v && Pow2(8) == 256
  {
    assert Shl(v, 4) == 2 * Shl(v, 3) == 4 * Shl(v, 2) == 8 * Shl(v, 1) == 16 * v;
    assert Shl(v, 8) == 2 * Shl(v, 7) == 4 * Shl(v, 6) == 8 * Shl(v, 5) == 16 * Shl(v, 4);
    assert Pow2(4) == 16 && Pow2(8) == 16 * Pow2(4);
  }

  // ---------------------------------------------------------------- byte order does not matter

  function Zip(a: seq<byte>, b: seq<byte>, f: (byte, byte) -> byte): (c: seq<byte>)
    requires |a| == |b|
    ensures |c| == |a| && forall i :: 0 <= i < |a| ==> c[i] == f(a[i], b[i])
  {
    seq(|a|, i requires 0 <= i < |a| => f(a[i], b[i]))
  }

  function AndByte(x: byte, y: byte): byte {
    AndSplit(x, 0, y, 0, 8);
    ShlByte(0);
    And(x, y)
  }

  function OrByte(x: byte, y: byte): byte {
    OrSplit(x, 0, y, 0, 8);
    ShlByte(0);
    Or(x, y)
  }

  lemma {:induction false} HostAnd(w: nat, x: nat, y: nat)
    ensures HostBytes(w, And(x, y)) == Zip(HostBytes(w, x), HostBytes(w, y), AndByte)
  {
    if w > 0 {
      ShlByte(x / 256);
      ShlByte(y / 256);
      ShlByte(And(x / 256, y / 256));
      AndSplit(x % 256, x / 256, y % 256, y / 256, 8);
      HostAnd(w - 1, x / 256, y / 256);
      var l, h := And(x % 256, y % 256), And(x / 256, y / 256);
      assert And(x, y) == l + 256 * h && (l + 256 * h) / 256 == h && (l + 256 * h) % 256 == l;
    }
  }

  lemma {:induction false} HostOr(w: nat, x: nat, y: nat)
    ensures HostBytes(w, Or(x, y)) == Zip(HostBytes(w, x), HostBytes(w, y), OrByte)
  {
    if w > 0 {
      ShlByte(x / 256);
      ShlByte(y / 256);
      ShlByte(Or(x / 256, y / 256));
      OrSplit(x % 256, x / 256, y % 256, y / 256, 8);
      HostOr(w - 1, x / 256, y / 256);
      var l, h := Or(x % 256, y % 256), Or(x / 256, y / 256);
      assert Or(x, y) == l + 256 * h && (l + 256 * h) / 256 == h && (l + 256 * h) % 256 == l;
    }
  }

  function NotByte(x: byte, y: byte): byte {
    255 - x
  }

  lemma {:induction false} HostNot(w: nat, x: nat)
    requires x < Pow2(8 * w)
    ensures HostBytes(w, Not(8 * w, x)) == Zip(HostBytes(w, x), HostBytes(w, x), NotByte)
  {
    if w > 0 {
      var l, h, p := x % 256, x / 256, Pow2(8 * (w - 1));
      Pow2Byte(8 * (w - 1));
      HostNot(w - 1, h);
      var n := 255 - l + 256 * (p - 1 - h);
      assert Not(8 * w, x) == n && n / 256 == p - 1 - h && n % 256 == 255 - l;
    }
  }

  lemma {:induction false} ReverseAt(b: seq<byte>, i: nat)
    requires i < |b|
    ensures Reverse(b)[i] == b[|b| - 1 - i]
  {
    if i < |b| - 1 {
      ReverseAt(b[1..], i);
    }
  }

  lemma ReverseZip(a: seq<byte>, b: seq<byte>, f: (byte, byte) -> byte)
    requires |a| == |b|
    ensures Reverse(Zip(a, b, f)) == Zip(Reverse(a), Reverse(b), f)
  {
    hide Reverse, Zip;
    var x, y := Reverse(Zip(a, b, f)), Zip(Reverse(a), Reverse(b), f);
    forall i | 0 <= i < |a|
      ensures x[i] == y[i]
    {
      ReverseAt(a, i);
      ReverseAt(b, i);
      ReverseAt(Zip(a, b, f), i);
    }
    assert x == y;
  }

  lemma SameBytes(w: nat, x: nat, y: nat)
    requires x < Pow2(8 * w) && y < Pow2(8 * w) && HostBytes(w, x) == HostBytes(w, y)
    ensures x == y
  {
    HostRoundTrip(w, x);
    HostRoundTrip(w, y);
  }

  /** Swapping bytes commutes with the bitwise operators. */
  lemma SwapAnd(w: nat, x: nat, y: nat)
    requires x < Pow2(8 * w) && y < Pow2(8 * w)
    ensures And(x, y) < Pow2(8 * w) && ByteSwap(w, And(x, y)) == And(ByteSwap(w, x), ByteSwap(w, y))
  {
    hide And, HostBytes, Reverse, ByteSwap, Pow2;
    WordAnd(8 * w, x, y);
    ByteSwapReverses(w, x);
    ByteSwapReverses(w, y);
    ByteSwapReverses(w, And(x, y));
    WordAnd(8 * w, ByteSwap(w, x), ByteSwap(w, y));
    HostAnd(w, x, y);
    HostAnd(w, ByteSwap(w, x), ByteSwap(w, y));
    ReverseZip(HostBytes(w, x), HostBytes(w, y), AndByte);
    SameBytes(w, ByteSwap(w, And(x, y)), And(ByteSwap(w, x), ByteSwap(w, y)));
  }

  lemma SwapOr(w: nat, x: nat, y: nat)
    requires x < Pow2(8 * w) && y < Pow2(8 * w)
    ensures Or(x, y) < Pow2(8 * w) && ByteSwap(w, Or(x, y)) == Or(ByteSwap(w, x), ByteSwap(w, y))
  {
    hide Or, HostBytes, Reverse, ByteSwap, Pow2;
    WordOr(8 * w, x, y);
    ByteSwapReverses(w, x);
    ByteSwapReverses(w, y);
    ByteSwapReverses(w, Or(x, y));
    WordOr(8 * w, ByteSwap(w, x), ByteSwap(w, y));
    HostOr(w, x, y);
    HostOr(w, ByteSwap(w, x), ByteSwap(w, y));
    ReverseZip(HostBytes(w, x), HostBytes(w, y), OrByte);
    SameBytes(w, ByteSwap(w, Or(x, y)), Or(ByteSwap(w, x), ByteSwap(w, y)));
  }

  lemma SwapNot(w: nat, x: nat)
    requires x < Pow2(8 * w)
    ensures ByteSwap(w, x) < Pow2(8 * w) && ByteSwap(w, Not(8 * w, x)) == Not(8 * w, ByteSwap(w, x))
  {
    hide HostBytes, Reverse, ByteSwap, Pow2, Not;
    ByteSwapReverses(w, x);
    ByteSwapReverses(w, Not(8 * w, x));
    HostNot(w, x);
    HostNot(w, ByteSwap(w, x));
    ReverseZip(HostBytes(w, x), HostBytes(w, x), NotByte);
    SameBytes(w, ByteSwap(w, Not(8 * w, x)), Not(8 * w, ByteSwap(w, x)));
  }

  lemma WordAnd(k: nat, x: nat, y: nat)
    requires x < Pow2(k) && y < Pow2(k)
    ensures And(x, y) < Pow2(k)
  {
    AndSplit(x, 0, y, 0, k);
  }

  lemma WordOr(k: nat, x: nat, y: nat)
    requires x < Pow2(k) && y < Pow2(k)
    ensures Or(x, y) < Pow2(k)
  {
    OrSplit(x, 0, y, 0, k);
  }

  // ---------------------------------------------------------------- masks

  /** CreateMask<uint32_t>. */
  function CreateMask(bits: nat): (m: nat)
    requires 2 <= bits <= 32
  {
    Shl(1, 32 - bits) - 1
  }

  /** One bit more. */
  lemma MaskStep(h: nat, p: nat, q: nat)
    requires 0 < q <= p && And(h / 2, p - q) == h / 2 - h / 2 % q
    ensures And(h, 2 * p - 2 * q) == h - h % (2 * q)
  {
    hide And;
    EvenHalf(p - q);
    AndHalves(h, 2 * (p - q));
    ModHalf(h, q);
  }

  /** Keeping all but the low k bits rounds down, and setting them goes to the end. */
  lemma {:induction false} MaskRounds(n: nat, k: nat, h: nat)
    requires k <= n && h < Pow2(n)
    ensures Pow2(k) <= Pow2(n) && And(h, Not(n, Pow2(k) - 1)) == h - h % Pow2(k)
  {
    hide And;
    Pow2Monotonic(k, n);
    if k == 0 {
      AndOnes(n, h);
    } else {
      MaskRounds(n - 1, k - 1, h / 2);
      var p, q := Pow2(n - 1), Pow2(k - 1);
      assert Pow2(n) == 2 * p && Pow2(k) == 2 * q;
      hide Pow2;
      MaskStep(h, p, q);
    }
  }

  lemma {:induction false} MaskFills(k: nat, h: nat)
    ensures Or(h, Pow2(k) - 1) == h - h % Pow2(k) + Pow2(k) - 1
  {
    hide Or;
    if k == 0 {
      OrZero(h);
      OrSymmetric(h);
    } else {
      MaskFills(k - 1, h / 2);
      ModHalf(h, Pow2(k - 1));
      OrHalves(h, Pow2(k) - 1);
      OddHalf(Pow2(k - 1));
    }
  }

  lemma EvenHalf(p: int)
    ensures (2 * p) / 2 == p && (2 * p) % 2 == 0
  {
  }

  lemma OddHalf(p: int)
    ensures (2 * p - 1) / 2 == p - 1 && (2 * p - 1) % 2 == 1
  {
  }

  lemma ModHalf(h: nat, p: nat)
    requires p > 0
    ensures h % (2 * p) == 2 * (h / 2 % p) + h % 2
  {
    var q := h / 2 / p;
    assert h / 2 == q * p + h / 2 % p;
    assert q * (2 * p) == 2 * (q * p);
    DivUnique(h, 2 * p, q);
  }

  lemma {:induction false} AndOnes(n: nat, h: nat)
    requires h < Pow2(n)
    ensures And(h, Pow2(n) - 1) == h
  {
    AndHalves(h, Pow2(n) - 1);
    if n > 0 {
      AndOnes(n - 1, h / 2);
      OddHalf(Pow2(n - 1));
    } else {
      AndZero();
    }
  }

  lemma {:induction false} OrSymmetric(h: nat)
    ensures Or(h, 0) == Or(0, h)
  {
    OrHalves(h, 0);
    OrHalves(0, h);
    if h > 0 {
      OrSymmetric(h / 2);
    }
  }

  lemma MaskFits(bits: nat)
    requires 2 <= bits <= 32
    ensures CreateMask(bits) == Pow2(32 - bits) - 1 && 0 <= CreateMask(bits) < Pow2(32)
  {
    ShlOne(32 - bits);
    Pow2Monotonic(32 - bits, 32);
  }

  // ---------------------------------------------------------------- addresses

  /** The number an address in network order stands for. */
  function Host(s: nat): nat {
    ByteSwap(4, s)
  }

  /** In network order: the address with the low bits cleared, with them set, the mask alone. */
  function Network(s: nat, bits: nat): nat
    requires s < Pow2(32) && 2 <= bits <= 32
  {
    MaskFits(bits);
    ByteSwapReverses(4, CreateMask(bits));
    And(s, Not(32, ByteSwap(4, CreateMask(bits))))
  }

  function Broadcast(s: nat, bits: nat): nat
    requires s < Pow2(32) && 2 <= bits <= 32
  {
    Or(s, ByteSwap(4, CreateMask(bits)))
  }

  function Subnet(bits: nat): nat
    requires 2 <= bits <= 32
  {
    MaskFits(bits);
    ByteSwapReverses(4, CreateMask(bits));
    Not(32, ByteSwap(4, CreateMask(bits)))
  }

  /** The network address is the address rounded down to a multiple of 2^(32 - bits), and the
      broadcast address is the last one before the next multiple. */
  lemma NetworkRounds(s: nat, bits: nat)
    requires s < Pow2(32) && 2 <= bits <= 32
    ensures Host(Network(s, bits)) == Host(s) - Host(s) % Pow2(32 - bits)
    ensures Host(Broadcast(s, bits)) == Host(Network(s, bits)) + Pow2(32 - bits) - 1
    ensures Network(s, bits) < Pow2(32) && Broadcast(s, bits) < Pow2(32)
  {
    hide And, Or, Pow2, ByteSwap;
    var m := CreateMask(bits);
    MaskFits(bits);
    ByteSwapReverses(4, m);
    ByteSwapReverses(4, s);
    SwapNot(4, ByteSwap(4, m));
    SwapAnd(4, s, Not(32, ByteSwap(4, m)));
    SwapOr(4, s, ByteSwap(4, m));
    MaskRounds(32, 32 - bits, Host(s));
    MaskFills(32 - bits, Host(s));
  }

  /** Two addresses are in one network exactly when their top bits agree. */
  lemma SameNetwork(s: nat, t: nat, bits: nat)
    requires s < Pow2(32) && t < Pow2(32) && 2 <= bits <= 32
    ensures Network(s, bits) == Network(t, bits) <==> Host(s) / Pow2(32 - bits) == Host(t) / Pow2(32 - bits)
  {
    hide *;
    NetworkRounds(s, bits);
    NetworkRounds(t, bits);
    HostInjective(Network(s, bits), Network(t, bits));
    RoundedEqual(Host(s), Host(t), Pow2(32 - bits));
  }

  lemma HostInjective(s: nat, t: nat)
    requires s < Pow2(32) && t < Pow2(32)
    ensures Host(s) == Host(t) <==> s == t
  {
    hide ByteSwap;
    ByteSwapReverses(4, s);
    ByteSwapReverses(4, t);
  }

  lemma RoundedEqual(a: nat, b: nat, p: nat)
    requires p > 0
    ensures a - a % p == b - b % p <==> a / p == b / p
  {
    assert a - a % p == a / p * p && b - b % p == b / p * p;
    MulMonotonic(a / p, b / p, p);
    MulMonotonic(b / p, a / p, p);
  }

  // ---------------------------------------------------------------- counting bits

  function Ones(v: nat): nat {
    if v == 0 then 0 else v % 2 + Ones(v / 2)
  }

  lemma {:induction false} OnesSplit(l: nat, h: nat, i: nat)
    requires l < Pow2(i)
    ensures Ones(l + Shl(h, i)) == Ones(l) + Ones(h)
  {
    hide Ones;
    OnesHalves(l);
    if i > 0 {
      AddHalf(l, Shl(h, i - 1));
      OnesSplit(l / 2, h, i - 1);
      OnesHalves(l + Shl(h, i));
    } else {
      OnesHalves(0);
    }
  }

  lemma OnesHalves(v: nat)
    ensures Ones(v) == v % 2 + Ones(v / 2)
    ensures Ones(0) == 0
  {
  }

  /** Clearing the lowest bit that is set. */
  lemma {:induction false} ClearLowest(v: nat)
    requires v > 0
    ensures And(v, v - 1) < v && Ones(And(v, v - 1)) == Ones(v) - 1
  {
    AndHalves(v, v - 1);
    if v % 2 == 1 {
      assert (v - 1) / 2 == v / 2;
      AndSelf(v / 2);
    } else {
      assert (v - 1) / 2 == v / 2 - 1;
      ClearLowest(v / 2);
      var a := And(v / 2, v / 2 - 1);
      assert And(v, v - 1) == 2 * a && (2 * a) / 2 == a && (2 * a) % 2 == 0;
    }
  }

  lemma {:induction false} AndSelf(v: nat)
    ensures And(v, v) == v
  {
    if v > 0 {
      AndHalves(v, v);
      AndSelf(v / 2);
    }
  }

  /** CountBytes: each turn clears one bit. */
  method CountBytes(value: nat) returns (result: nat)
    ensures result == Ones(value)
  {
    result := 0;
    var v := value;
    while v != 0
      invariant result + Ones(v) == Ones(value)
      decreases v
    {
      ClearLowest(v);
      v := And(v, v - 1);
      result := result + 1;
    }
  }

  function SumOnes(b: seq<byte>): nat {
    if b == [] then 0 else Ones(b[0]) + SumOnes(b[1..])
  }

  lemma {:induction false} OnesOfBytes(w: nat, v: nat)
    requires v < Pow2(8 * w)
    ensures Ones(v) == SumOnes(HostBytes(w, v))
  {
    if w > 0 {
      Pow2Byte(8 * (w - 1));
      OnesOfBytes(w - 1, v / 256);
      ShlByte(v / 256);
      OnesSplit(v % 256, v / 256, 8);
      assert HostBytes(w, v)[1..] == HostBytes(w - 1, v / 256);
    }
  }

  lemma {:induction false} SumSnoc(b: seq<byte>, c: byte)
    ensures SumOnes(b + [c]) == SumOnes(b) + Ones(c)
  {
    hide Ones;
    if b == [] {
      assert b + [c] == [c];
    } else {
      SumSnoc(b[1..], c);
      assert (b + [c])[1..] == b[1..] + [c];
    }
  }

  lemma {:induction false} SumReverse(b: seq<byte>)
    ensures SumOnes(Reverse(b)) == SumOnes(b)
  {
    hide Ones;
    if b != [] {
      SumReverse(b[1..]);
      SumSnoc(Reverse(b[1..]), b[0]);
    }
  }

  lemma OnesSwap(w: nat, v: nat)
    requires v < Pow2(8 * w)
    ensures Ones(ByteSwap(w, v)) == Ones(v)
  {
    hide Ones, HostBytes, Reverse;
    ByteSwapReverses(w, v);
    OnesOfBytes(w, v);
    OnesOfBytes(w, ByteSwap(w, v));
    SumReverse(HostBytes(w, v));
  }

  lemma {:induction false} OnesNot(k: nat, x: nat)
    requires x < Pow2(k)
    ensures Ones(Not(k, x)) == k - Ones(x)
  {
    if k > 0 {
      OnesNot(k - 1, x / 2);
      var n := Not(k, x);
      assert n == 2 * Not(k - 1, x / 2) + (1 - x % 2);
      assert n / 2 == Not(k - 1, x / 2) && n % 2 == 1 - x % 2;
    }
  }

  lemma {:induction false} OnesMask(n: nat)
    ensures Ones(Pow2(n) - 1) == n
  {
    if n > 0 {
      OnesMask(n - 1);
      OddHalf(Pow2(n - 1));
    }
  }

  /** The prefix length can be read back from the subnet mask, in either byte order. */
  lemma SubnetCounts(bits: nat)
    requires 2 <= bits <= 32
    ensures Ones(Subnet(bits)) == bits && Ones(Host(Subnet(bits))) == bits
  {
    hide Pow2, ByteSwap, Ones;
    var m := CreateMask(bits);
    MaskFits(bits);
    ByteSwapReverses(4, m);
    OnesMask(32 - bits);
    OnesSwap(4, m);
    OnesNot(32, ByteSwap(4, m));
    OnesSwap(4, Subnet(bits));
  }

  // ---------------------------------------------------------------- the class

  class IPv4Address {
    const address: nat          // sin_addr.s_addr, in network order
    const port: nat             // sin_port, in network order

    constructor (address: nat, port: nat)
      ensures this.address == address && this.port == port
    {
      this.address, this.port := address, port;
    }

    /** No address for a prefix above 32.  Below 2 the shift in CreateMask is not defined. */
    method NetworkAddress(prefix: nat) returns (a: IPv4Address?)
      requires address < Pow2(32) && 2 <= prefix
      ensures a == null <==> prefix > 32
      ensures a != null ==>
        && fresh(a) && a.port == port
        && Host(a.address) == Host(address) - Host(address) % Pow2(32 - prefix)
    {
      if prefix > 32 {
        return null;
      }
      NetworkRounds(address, prefix);
      a := new IPv4Address(Network(address, prefix), port);
    }

    method BroadcastAddress(prefix: nat) returns (a: IPv4Address?)
      requires address < Pow2(32) && 2 <= prefix
      ensures a == null <==> prefix > 32
      ensures a != null ==>
        && fresh(a) && a.port == port
        && Host(a.address) == Host(address) - Host(address) % Pow2(32 - prefix) + Pow2(32 - prefix) - 1
    {
      if prefix > 32 {
        return null;
      }
      NetworkRounds(address, prefix);
      a := new IPv4Address(Broadcast(address, prefix), port);
    }

    method SubnetMask(prefix: nat) returns (a: IPv4Address)
      requires 2 <= prefix <= 32
      ensures fresh(a) && a.port == 0 && Ones(a.address) == prefix
      ensures Host(a.address) == Pow2(32) - Pow2(32 - prefix)
    {
      SubnetCounts(prefix);
      MaskFits(prefix);
      ByteSwapReverses(4, CreateMask(prefix));
      SwapNot(4, ByteSwap(4, CreateMask(prefix)));
      a := new IPv4Address(Subnet(prefix), 0);
    }
  }
}
