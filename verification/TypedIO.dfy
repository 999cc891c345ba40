/** ByteArray's typed writers and readers, and the round trip they are there for. */
module TypedIO {
  import opened Bits
  import opened Blocks
  import opened ByteArrays
  import opened Codec

  /** The families of writer/reader pairs: fixed-width integers of 1, 2, 4 or 8 bytes,
      varints of 32 or 64 bits (zigzag when signed), and strings behind a fixed-width
      length.  `big` is the byte order in force. */
  datatype Tag =
    | Fixed(big: bool, width: nat, signed: bool)
    | Varint(width: nat, signed: bool)
    | Text(big: bool, width: nat)
  {
    predicate Valid() {
      match this
      case Fixed(_, w, _) => w in {1, 2, 4, 8}
      case Varint(w, _) => w in {4, 8}
      case Text(_, w) => w in {2, 4, 8}
    }
  }

  datatype Item = Num(tag: Tag, n: int) | Str(tag: Tag, s: seq<byte>)
  {
    /** The value is one the writer's parameter type holds; a string fits its length. */
    predicate Valid() {
      && tag.Valid()
      && match this
         case Num(t, n) => !t.Text? && InRange(t.width, t.signed, n)
         case Str(t, s) => t.Text? && |s| < Pow2(8 * t.width)
    }
  }

  function Encode(x: Item): (b: seq<byte>)
    requires x.Valid()
    ensures b != []
  {
    match x
    case Num(Fixed(big, w, _), n) => FixedBytes(big, w, n)
    case Num(Varint(w, signed), n) => VarintBytes(if signed then EncodeZigzag(8 * w, n) else n)
    case Str(t, s) => FixedBytes(t.big, t.width, |s|) + s
  }

  function EncodeAll(xs: seq<Item>): seq<byte>
    requires forall x :: x in xs ==> x.Valid()
  {
    if xs == [] then [] else Encode(xs[0]) + EncodeAll(xs[1..])
  }

  function Tags(xs: seq<Item>): (t: seq<Tag>)
    ensures |t| == |xs| && forall i :: 0 <= i < |xs| ==> t[i] == xs[i].tag
  {
    if xs == [] then [] else [xs[0].tag] + Tags(xs[1..])
  }

  // ---------------------------------------------------------------- reading, as a function

  /** A reader's outcome and where the position is afterwards. */
  datatype Step<T> = Step(out: Outcome<T>, pos: nat)

  /** Reading `n` bytes at `p`; at the very end of the memory even no bytes cannot be read. */
  function Take(text: seq<byte>, cap: nat, p: nat, n: nat): Step<seq<byte>>
    requires p <= |text| <= cap
  {
    if n > |text| - p then Step(OutOfRange, p)
    else if n == 0 && p == cap then Step(Fault, p)
    else Step(Ok(text[p..p + n]), p + n)
  }

  function DecodeFixed(text: seq<byte>, cap: nat, p: nat, big: bool, w: nat, signed: bool): (r: Step<int>)
    requires p <= |text| <= cap && w > 0
    ensures p <= r.pos <= |text|
    ensures r.out.Ok? && !signed ==> r.out.value >= 0
  {
    var r := Take(text, cap, p, w);
    if r.out.Ok? then Step(Ok(FromFixed(big, signed, r.out.value)), r.pos) else Step(OutOfRange, p)
  }

  function Decode(text: seq<byte>, cap: nat, p: nat, tag: Tag): (r: Step<Item>)
    requires p <= |text| <= cap && tag.Valid()
    ensures p <= r.pos <= |text|
  {
    match tag
    case Fixed(big, w, signed) =>
      var r := DecodeFixed(text, cap, p, big, w, signed);
      if r.out.Ok? then Step(Ok(Num(tag, r.out.value)), r.pos) else Step(OutOfRange, p)
    case Varint(w, signed) =>
      (match FromVarint(8 * w, 0, 0, text[p..])
       case Value(v, used) => Step(Ok(Num(tag, if signed then DecodeZigzag(8 * w, v) else v)), p + used)
       case Short => Step(OutOfRange, |text|))
    case Text(big, w) =>
      var r := DecodeFixed(text, cap, p, big, w, false);
      if !r.out.Ok? then Step(OutOfRange, p)
      else
        var t := Take(text, cap, r.pos, r.out.value);
        match t.out
        case Ok(s) => Step(Ok(Str(tag, s)), t.pos)
        case OutOfRange => Step(OutOfRange, t.pos)
        case Fault => Step(Fault, t.pos)
  }

  function DecodeAll(text: seq<byte>, cap: nat, p: nat, tags: seq<Tag>): Step<seq<Item>>
    requires p <= |text| <= cap && forall t :: t in tags ==> t.Valid()
    decreases |tags|
  {
    if tags == [] then Step(Ok([]), p)
    else
      var r := Decode(text, cap, p, tags[0]);
      match r.out
      case OutOfRange => Step(OutOfRange, r.pos)
      case Fault => Step(Fault, r.pos)
      case Ok(x) =>
        var rest := DecodeAll(text, cap, r.pos, tags[1..]);
        if rest.out.Ok? then Step(Ok([x] + rest.out.value), rest.pos) else rest
  }

  // ---------------------------------------------------------------- round trips

  /** `b` is what the text holds at `p`. */
  predicate At(text: seq<byte>, p: nat, b: seq<byte>) {
    p + |b| <= |text| && text[p..p + |b|] == b
  }

  lemma AtSplit(text: seq<byte>, p: nat, a: seq<byte>, b: seq<byte>)
    requires At(text, p, a + b)
    ensures At(text, p, a) && At(text, p + |a|, b)
  {
    assert a == (a + b)[..|a|] == text[p..p + |a|];
    assert b == (a + b)[|a|..] == text[p + |a|..p + |a + b|];
  }

  lemma DecodeEncodeFixed(text: seq<byte>, p: nat, big: bool, signed: bool, w: nat, n: int, cap: nat)
    requires w > 0 && InRange(w, signed, n) && At(text, p, FixedBytes(big, w, n)) && |text| <= cap
    ensures DecodeFixed(text, cap, p, big, w, signed) == Step(Ok(n), p + w)
  {
    FixedRoundTrip(big, signed, w, n);
  }

  lemma DecodeEncodeVarint(text: seq<byte>, p: nat, w: nat, signed: bool, n: int, cap: nat)
    requires w in {4, 8} && InRange(w, signed, n) && |text| <= cap
    requires At(text, p, VarintBytes(if signed then EncodeZigzag(8 * w, n) else n))
    ensures Decode(text, cap, p, Varint(w, signed))
         == Step(Ok(Num(Varint(w, signed), n)), p + |VarintBytes(if signed then EncodeZigzag(8 * w, n) else n)|)
  {
    var v := if signed then EncodeZigzag(8 * w, n) else n;
    var b := VarintBytes(v);
    assert text[p..] == b + text[p + |b|..];
    VarintRoundTrip(8 * w, 0, 0, v, text[p + |b|..]);
    if signed {
      ZigzagRoundTrip(8 * w, n);
    }
  }

  lemma DecodeEncodeText(text: seq<byte>, p: nat, big: bool, w: nat, s: seq<byte>, cap: nat)
    requires w in {2, 4, 8} && |s| < Pow2(8 * w) && |text| <= cap
    requires At(text, p, FixedBytes(big, w, |s|) + s)
    ensures Decode(text, cap, p, Text(big, w))
         == Step(if s == [] && p + w == cap then Fault else Ok(Str(Text(big, w), s)), p + w + |s|)
  {
    hide FixedBytes, FromFixed, Pow2;
    AtSplit(text, p, FixedBytes(big, w, |s|), s);
    DecodeEncodeFixed(text, p, big, false, w, |s|, cap);
    assert Take(text, cap, p + w, |s|) == Step(if s == [] && p + w == cap then Fault else Ok(s), p + w + |s|);
  }

  /** Reading with the tag an item was written with gives the item back and takes exactly its
      bytes; only an empty string that ends at the capacity cannot be read. */
  lemma DecodeEncode(text: seq<byte>, p: nat, x: Item, cap: nat)
    requires x.Valid() && At(text, p, Encode(x)) && |text| <= cap
    ensures var end := p + |Encode(x)|;
            Decode(text, cap, p, x.tag) == Step(if x.Str? && x.s == [] && end == cap then Fault else Ok(x), end)
  {
    match x
    case Num(Fixed(big, w, signed), n) =>
      DecodeEncodeFixed(text, p, big, signed, w, n, cap);
    case Num(Varint(w, signed), n) =>
      DecodeEncodeVarint(text, p, w, signed, n, cap);
    case Str(Text(big, w), s) =>
      DecodeEncodeText(text, p, big, w, s, cap);
  }

  predicate EndsInEmptyString(xs: seq<Item>) {
    xs != [] && xs[|xs| - 1].Str? && xs[|xs| - 1].s == []
  }

  lemma EncodeNotEmpty(xs: seq<Item>)
    requires forall x :: x in xs ==> x.Valid()
    ensures xs != [] ==> |EncodeAll(xs)| > 0
  {
    if xs != [] {
      assert xs[0] in xs && |Encode(xs[0])| > 0;
    }
  }

  lemma DecodeAllStep(text: seq<byte>, cap: nat, p: nat, tag: Tag, tags: seq<Tag>, r: Step<Item>)
    requires p <= |text| <= cap && tag.Valid() && (forall t :: t in tags ==> t.Valid())
    requires r == Decode(text, cap, p, tag)
    ensures r.out.Fault? ==> DecodeAll(text, cap, p, [tag] + tags) == Step(Fault, r.pos)
    ensures r.out.Ok? ==>
      var rest := DecodeAll(text, cap, r.pos, tags);
      DecodeAll(text, cap, p, [tag] + tags)
        == if rest.out.Ok? then Step(Ok([r.out.value] + rest.out.value), rest.pos) else rest
  {
    assert ([tag] + tags)[1..] == tags;
  }

  lemma TagsValid(xs: seq<Item>)
    requires forall x :: x in xs ==> x.Valid()
    ensures forall t :: t in Tags(xs) ==> t.Valid()
  {
    var ts := Tags(xs);
    forall i | 0 <= i < |ts|
      ensures ts[i].Valid()
    {
      assert xs[i] in xs;
    }
  }

  lemma HeadAndTail(xs: seq<Item>)
    requires xs != []
    ensures xs == [xs[0]] + xs[1..] && xs[0] in xs && forall x :: x in xs[1..] ==> x in xs
  {
  }

  lemma TagsHead(xs: seq<Item>)
    requires xs != []
    ensures Tags(xs) == [xs[0].tag] + Tags(xs[1..])
  {
  }

  lemma LastItem(xs: seq<Item>)
    requires xs != []
    ensures EndsInEmptyString(xs) <==> if xs[1..] == [] then xs[0].Str? && xs[0].s == [] else EndsInEmptyString(xs[1..])
  {
    var ys := xs[1..];
    if ys != [] {
      assert ys[|ys| - 1] == xs[|xs| - 1];
    }
  }

  lemma EncodeAllHead(xs: seq<Item>)
    requires xs != [] && forall x :: x in xs ==> x.Valid()
    ensures EncodeAll(xs) == Encode(xs[0]) + EncodeAll(xs[1..])
  {
    hide Encode;
  }

  /** The same for the items from offset `p` to the end of the text. */
  lemma {:induction false} DecodeEncodeAll(text: seq<byte>, p: nat, xs: seq<Item>, cap: nat)
    requires (forall x :: x in xs ==> x.Valid()) && p <= |text| <= cap && text[p..] == EncodeAll(xs)
    ensures forall t :: t in Tags(xs) ==> t.Valid()
    ensures DecodeAll(text, cap, p, Tags(xs))
         == Step(if EndsInEmptyString(xs) && |text| == cap then Fault else Ok(xs), |text|)
    decreases |xs|
  {
    TagsValid(xs);
    if xs != [] {
      hide *;
      HeadAndTail(xs);
      TagsHead(xs);
      LastItem(xs);
      EncodeAllHead(xs);
      TagsValid(xs[1..]);
      var x, ys := xs[0], xs[1..];
      var end := DecodeFirst(text, p, x, ys, cap);
      DecodeEncodeAll(text, end, ys, cap);
      var r := Step(if x.Str? && x.s == [] && end == cap then Fault else Ok(x), end);
      ItemTag(x);
      DecodeAllStep(text, cap, p, x.tag, Tags(ys), r);
    }
  }

  lemma ItemTag(x: Item)
    requires x.Valid()
    ensures x.tag.Valid()
  {
  }

  /** The first of a list of items, and where the others are. */
  lemma DecodeFirst(text: seq<byte>, p: nat, x: Item, ys: seq<Item>, cap: nat) returns (end: nat)
    requires x.Valid() && (forall y :: y in ys ==> y.Valid())
    requires p <= |text| <= cap && text[p..] == Encode(x) + EncodeAll(ys)
    ensures p <= end <= |text| && text[end..] == EncodeAll(ys) && (end == |text| <==> ys == [])
    ensures Decode(text, cap, p, x.tag) == Step(if x.Str? && x.s == [] && end == cap then Fault else Ok(x), end)
  {
    FromHere(text, p, Encode(x), EncodeAll(ys));
    DecodeEncode(text, p, x, cap);
    EncodeNotEmpty(ys);
    end := p + |Encode(x)|;
    hide *;
  }

  /** What the text holds from `p` to its end. */
  lemma FromHere(text: seq<byte>, p: nat, a: seq<byte>, b: seq<byte>)
    requires p <= |text| && text[p..] == a + b
    ensures At(text, p, a) && p + |a| <= |text| && text[p + |a|..] == b
    ensures p + |a| == |text| <==> b == []
  {
    assert text[p..p + |a|] == text[p..][..|a|] && text[p + |a|..] == text[p..][|a|..];
  }

  // ---------------------------------------------------------------- the writers and readers

  method WriteFixed(b: ByteArray, w: nat, v: int)
    requires b.Valid()
    modifies b.Repr
    ensures b.Valid() && fresh(b.Repr - old(b.Repr))
    ensures b.position == old(b.position) + w && b.bigEndian == old(b.bigEndian)
    ensures b.Text() == Overwrite(old(b.Text()), old(b.position), FixedBytes(b.bigEndian, w, v))
    ensures b.capacity == GrownCapacity(b.basesize, old(b.capacity), b.position)
  {
    var u := Wrap(8 * w, v);
    if b.bigEndian {
      u := ByteSwap(w, u);
    }
    b.Write(HostBytes(w, u));
  }

  method WriteVarint(b: ByteArray, w: nat, v: nat)
    requires b.Valid() && w in {4, 8} && v < Pow2(8 * w)
    modifies b.Repr
    ensures b.Valid() && fresh(b.Repr - old(b.Repr))
    ensures b.position == old(b.position) + |VarintBytes(v)| && b.bigEndian == old(b.bigEndian)
    ensures b.Text() == Overwrite(old(b.Text()), old(b.position), VarintBytes(v))
    ensures b.capacity == GrownCapacity(b.basesize, old(b.capacity), b.position)
  {
    var tmp := VarintBuffer(w, v);
    b.Write(tmp);
  }

  /** The writer's loop fills its 5- or 10-byte buffer, and never past its end. */
  method VarintBuffer(w: nat, v: nat) returns (b: seq<byte>)
    requires w in {4, 8} && v < Pow2(8 * w)
    ensures b == VarintBytes(v) && |b| <= if w == 4 then 5 else 10
  {
    var tmp := new byte[if w == 4 then 5 else 10];
    var i: nat, value: nat := 0, v;
    ghost var all := VarintBytes(v);
    VarintLength(8 * w, v);
    while value >= 0x80
      invariant i < |all| <= tmp.Length && all[i..] == VarintBytes(value)
      invariant forall j :: 0 <= j < i ==> tmp[j] == all[j]
      decreases value
    {
      SevenBits(value % 0x80);
      assert all[i..][0] == Or(value % 0x80, 0x80) && all[i..][1..] == VarintBytes(value / 0x80);
      assert all[i..][1..] == all[i + 1..];
      tmp[i] := Or(value % 0x80, 0x80);
      value := value / 0x80;
      i := i + 1;
    }
    assert all[i..][0] == value;
    tmp[i] := value;
    i := i + 1;
    b := tmp[..i];
  }

  method ReadFixed(b: ByteArray, w: nat, signed: bool) returns (r: Outcome<int>)
    requires b.Valid() && w > 0
    modifies b`position, b`cur, b`index
    ensures b.Valid()
    ensures Step(r, b.position) == DecodeFixed(b.Text(), b.capacity, old(b.position), b.bigEndian, w, signed)
  {
    var bytes := b.Read(w);
    if !bytes.Ok? {
      return OutOfRange;
    }
    var u := FromHost(bytes.value);
    if b.bigEndian {
      u := ByteSwap(w, u);
    }
    r := Ok(if signed then ToSigned(8 * w, u) else u);
  }

  function Skip(r: VarintResult, n: nat): VarintResult {
    match r
    case Value(v, used) => Value(v, used + n)
    case Short => Short
  }

  method ReadByte(b: ByteArray) returns (r: Outcome<byte>)
    requires b.Valid()
    modifies b`position, b`cur, b`index
    ensures b.Valid()
    ensures r == if old(b.position) < b.size then Ok(b.Text()[old(b.position)]) else OutOfRange
    ensures b.position == if r.Ok? then old(b.position) + 1 else old(b.position)
  {
    var one := b.Read(1);
    r := if one.Ok? then Ok(one.value[0]) else OutOfRange;
  }

  method ReadVarint(b: ByteArray, w: nat) returns (r: Outcome<nat>)
    requires b.Valid() && w in {4, 8}
    modifies b`position, b`cur, b`index
    ensures b.Valid()
    ensures match FromVarint(8 * w, 0, 0, b.Text()[old(b.position)..])
            case Value(v, used) => r == Ok(v) && b.position == old(b.position) + used
            case Short => r == OutOfRange && b.position == b.size
  {
    hide Or, Wrap, Shl, Chain;
    var result: nat, i: nat := 0, 0;
    ghost var text, p := b.Text(), b.position;
    while i < 8 * w
      invariant b.Valid() && p <= b.position
      invariant FromVarint(8 * w, 0, 0, text[p..])
             == Skip(FromVarint(8 * w, i, result, text[b.position..]), b.position - p)
    {
      ghost var q := b.position;
      var c := ReadByte(b);
      if !c.Ok? {
        return OutOfRange;
      }
      assert text[q..] == [c.value] + text[q + 1..];
      if c.value < 0x80 {
        result := Or(result, Wrap(8 * w, Shl(c.value, i)));
        return Ok(result);
      }
      result := Or(result, Wrap(8 * w, Shl(c.value % 0x80, i)));
      i := i + 7;
    }
    r := Ok(result);
  }

  lemma BlockNotEmpty(b: ByteArray)
    requires b.Valid()
    ensures b.basesize > 0
  {
  }

  method WriteText(b: ByteArray, w: nat, s: seq<byte>)
    requires b.Valid()
    modifies b.Repr
    ensures b.Valid() && fresh(b.Repr - old(b.Repr))
    ensures b.position == old(b.position) + w + |s| && b.bigEndian == old(b.bigEndian)
    ensures b.Text() == Overwrite(old(b.Text()), old(b.position), FixedBytes(b.bigEndian, w, |s|) + s)
    ensures b.capacity == GrownCapacity(b.basesize, old(b.capacity), b.position)
  {
    BlockNotEmpty(b);
    hide Chain, Overwrite, GrownCapacity, FixedBytes, Wrap;
    ghost var was, cap, at, bytes := b.Text(), b.capacity, b.position, FixedBytes(b.bigEndian, w, |s|);
    WriteFixed(b, w, |s|);
    ghost var between := b.Text();
    b.Write(s);
    WrittenTwice(was, at, bytes, between, s, b.Text());
    GrowTwice(b.basesize, cap, at + w, at + w + |s|);
  }

  lemma WrittenTwice(was: seq<byte>, at: nat, a: seq<byte>, between: seq<byte>, b: seq<byte>, now: seq<byte>)
    requires at <= |was| && between == Overwrite(was, at, a) && now == Overwrite(between, at + |a|, b)
    ensures now == Overwrite(was, at, a + b)
  {
    OverwriteTwice(was, at, a, b);
  }

  method ReadText(b: ByteArray, w: nat) returns (r: Outcome<seq<byte>>)
    requires b.Valid() && w in {2, 4, 8}
    modifies b`position, b`cur, b`index
    ensures b.Valid()
    ensures var want := Decode(b.Text(), b.capacity, old(b.position), Text(b.bigEndian, w));
            && b.position == want.pos
            && match r
               case Ok(s) => want.out == Ok(Str(Text(b.bigEndian, w), s))
               case OutOfRange => want.out.OutOfRange?
               case Fault => want.out.Fault?
  {
    hide FromFixed, Chain;
    var len := ReadFixed(b, w, false);
    if !len.Ok? {
      return OutOfRange;
    }
    r := b.Read(len.value);
  }

  method WriteItem(b: ByteArray, x: Item)
    requires b.Valid() && x.Valid()
    modifies b.Repr
    ensures b.Valid() && fresh(b.Repr - old(b.Repr))
    ensures b.position == old(b.position) + |Encode(x)|
    ensures b.Text() == Overwrite(old(b.Text()), old(b.position), Encode(x))
    ensures b.capacity == GrownCapacity(b.basesize, old(b.capacity), b.position)
  {
    hide Chain, Overwrite, GrownCapacity, FixedBytes, VarintBytes, EncodeZigzag;
    match x
    case Num(Fixed(big, w, _), n) =>
      b.SetIsLittleEndian(!big);
      WriteFixed(b, w, n);
    case Num(Varint(w, signed), n) =>
      WriteVarint(b, w, if signed then EncodeZigzag(8 * w, n) else n);
    case Str(t, s) =>
      b.SetIsLittleEndian(!t.big);
      WriteText(b, t.width, s);
  }

  method ReadItem(b: ByteArray, tag: Tag) returns (r: Outcome<Item>)
    requires b.Valid() && tag.Valid()
    modifies b`position, b`cur, b`index, b`bigEndian
    ensures b.Valid()
    ensures Step(r, b.position) == Decode(b.Text(), b.capacity, old(b.position), tag)
  {
    hide Chain, FromVarint, DecodeZigzag;
    match tag
    case Fixed(big, w, signed) =>
      b.SetIsLittleEndian(!big);
      var n := ReadFixed(b, w, signed);
      r := if n.Ok? then Ok(Num(tag, n.value)) else OutOfRange;
    case Varint(w, signed) =>
      var v := ReadVarint(b, w);
      r := if v.Ok? then Ok(Num(tag, if signed then DecodeZigzag(8 * w, v.value) else v.value)) else OutOfRange;
    case Text(big, w) =>
      b.SetIsLittleEndian(!big);
      var s := ReadText(b, w);
      match s {
        case Ok(value) => r := Ok(Str(tag, value));
        case OutOfRange => r := OutOfRange;
        case Fault => r := Fault;
      }
  }

  // ---------------------------------------------------------------- the round trip

  /** One more item at the end of what was written into an array that had `cap` bytes. */
  method WriteNext(b: ByteArray, x: Item, ghost cap: nat)
    requires b.Valid() && x.Valid() && b.position == b.size && b.capacity == GrownCapacity(b.basesize, cap, b.size)
    modifies b.Repr
    ensures b.Valid() && fresh(b.Repr - old(b.Repr)) && b.position == b.size
    ensures b.Text() == old(b.Text()) + Encode(x)
    ensures b.capacity == GrownCapacity(b.basesize, cap, b.size)
  {
    BlockNotEmpty(b);
    hide Chain, Overwrite, GrownCapacity, Encode;
    GrowTwice(b.basesize, cap, b.size, b.size + |Encode(x)|);
    OverwriteAtEnd(b.Text(), Encode(x));
    WriteItem(b, x);
  }

  lemma Concat3(a: seq<byte>, b: seq<byte>, c: seq<byte>)
    ensures (a + b) + c == a + (b + c)
  {
  }

  method WriteAll(b: ByteArray, xs: seq<Item>, ghost cap: nat)
    requires b.Valid() && b.position == b.size && b.capacity == GrownCapacity(b.basesize, cap, b.size)
    requires forall x :: x in xs ==> x.Valid()
    modifies b.Repr
    ensures b.Valid() && fresh(b.Repr - old(b.Repr)) && b.position == b.size
    ensures b.Text() == old(b.Text()) + EncodeAll(xs)
    ensures b.capacity == GrownCapacity(b.basesize, cap, b.size)
    decreases |xs|
  {
    if xs != [] {
      Concat3(b.Text(), Encode(xs[0]), EncodeAll(xs[1..]));
      WriteNext(b, xs[0], cap);
      WriteAll(b, xs[1..], cap);
    }
  }

  method ReadAll(b: ByteArray, tags: seq<Tag>) returns (r: Outcome<seq<Item>>)
    requires b.Valid() && forall t :: t in tags ==> t.Valid()
    modifies b`position, b`cur, b`index, b`bigEndian
    ensures b.Valid()
    ensures Step(r, b.position) == DecodeAll(b.Text(), b.capacity, old(b.position), tags)
    decreases |tags|
  {
    if tags == [] {
      return Ok([]);
    }
    var x := ReadItem(b, tags[0]);
    match x {
      case OutOfRange => return OutOfRange;
      case Fault => return Fault;
      case Ok(first) =>
        r := ReadAll(b, tags[1..]);
        if r.Ok? {
          r := Ok([first] + r.value);
        }
    }
  }

  /** The one way a round trip fails: the last value is an empty string and the bytes fill
      whole blocks, so that nothing follows its length. */
  predicate Unreadable(bs: nat, xs: seq<Item>)
    requires bs >= 1 && forall x :: x in xs ==> x.Valid()
  {
    EndsInEmptyString(xs) && |EncodeAll(xs)| % bs == 0
  }

  lemma UnreadableAtCapacity(bs: nat, xs: seq<Item>)
    requires bs >= 1 && forall x :: x in xs ==> x.Valid()
    ensures Unreadable(bs, xs)
       <==> EndsInEmptyString(xs) && GrownCapacity(bs, bs, |EncodeAll(xs)|) == |EncodeAll(xs)|
  {
    FullAtWholeBlocks(bs, 1, |EncodeAll(xs)|);
    EncodeNotEmpty(xs);
  }

  /** Writing any values, going back to the start and reading with the same tags gives the
      values back and leaves nothing to read, whatever the block size, unless they are
      unreadable. */
  method RoundTrip(bs: nat, xs: seq<Item>) returns (r: Outcome<seq<Item>>, left: nat)
    requires bs >= 1 && forall x :: x in xs ==> x.Valid()
    ensures r == if Unreadable(bs, xs) then Fault else Ok(xs)
    ensures left == 0
  {
    var b := new ByteArray(bs);
    WriteAll(b, xs, bs);
    UnreadableAtCapacity(bs, xs);
    var ok := b.SetPosition(0);
    ghost var text := b.Text();
    hide Chain, EncodeAll, DecodeAll, EndsInEmptyString, GrownCapacity;
    assert text[0..] == text;
    DecodeEncodeAll(text, 0, xs, b.capacity);
    r := ReadAll(b, Tags(xs));
    left := b.size - b.position;
  }
}
