/** When the positional reads of a ByteArray answer what was asked for. */
module PositionalReads {
  import opened Arith
  import opened Blocks
  import opened ByteArrays
  import opened Iovecs

  /** What a caller means: `n` bytes of the text from `pos` on. */
  ghost predicate Asked(b: ByteArray, n: nat, pos: nat)
    requires b.Valid()
    reads b, b.Repr
  {
    pos + n <= b.size
  }

  /** The positional read starts at `pos` exactly when that is in the block of the current
      position. */
  lemma StartsWhereAsked(b: ByteArray, pos: nat)
    requires b.Valid() && b.cur != null
    ensures b.cur.start + pos % b.basesize == pos <==> pos / b.basesize == b.position / b.basesize
  {
    b.CurrentBlock();
    var bs := b.basesize;
    assert pos == pos / bs * bs + pos % bs;
    assert b.position == b.position / bs * bs + b.position % bs;
    SameMultiple(pos / bs, b.position / bs, bs);
  }

  lemma Divided(a: nat, b: nat)
    requires b > 0
    ensures a == a / b * b + a % b
  {
  }

  lemma SameMultiple(p: nat, q: nat, d: nat)
    requires d > 0
    ensures p * d == q * d <==> p == q
  {
    MulMonotonic(p, q, d);
    MulMonotonic(q, p, d);
  }

  /** A read of bytes that are there: right when the position asked for is in the current
      block, the null pointer at the capacity, and otherwise the bytes at another offset. */
  method ReadAsked(b: ByteArray, n: nat, pos: nat) returns (r: Outcome<seq<byte>>)
    requires b.Valid() && Asked(b, n, pos)
    ensures b.position == b.capacity ==> r == Fault
    ensures b.position < b.capacity && pos / b.basesize == b.position / b.basesize ==> r == Ok(b.Text()[pos..pos + n])
    ensures b.position < b.capacity && pos / b.basesize != b.position / b.basesize ==>
      var from := b.position / b.basesize * b.basesize + pos % b.basesize;
      from != pos && r == if from + n <= b.capacity then Ok(b.flat[from..from + n]) else Fault
  {
    hide Chain;
    r := b.ReadAt(n, pos);
    b.CurrentBlock();
    if b.cur != null {
      StartsWhereAsked(b, pos);
      Divided(b.position, b.basesize);
      SliceOfPrefix(b.flat, b.size, pos, pos + n);
    }
  }

  /** Two bytes in two blocks: asked for the second while at the first, it gives the first. */
  method ReadsTheWrongBlock(x: byte, y: byte) returns (got: Outcome<seq<byte>>, want: seq<byte>)
    ensures got == Ok([x]) && want == [y]
  {
    var b := new ByteArray(1);
    b.Write([x, y]);
    ghost var text := b.Text();
    var ok := b.SetPosition(0);
    assert b.Text() == text == [x, y];
    got := ReadAsked(b, 1, 1);
    assert b.flat[..2][0..1] == b.flat[0..1] == [x];
    want := [y];
  }

  /** One byte that fills its block: asked for it while at the end, it follows a null pointer. */
  method ReadsThroughNull(x: byte) returns (got: Outcome<seq<byte>>)
    ensures got == Fault
  {
    var b := new ByteArray(1);
    b.Write([x]);
    got := ReadAsked(b, 1, 0);
  }

  // ---------------------------------------------------------------- the positional getReadBuffers

  function Min(a: nat, b: nat): (m: nat)
    ensures m <= a && m <= b && (m == a || m == b)
  {
    if a < b then a else b
  }

  /** The bound the code takes from the current position is the one for `pos` exactly when
      `len` fits both, or both leave the same. */
  lemma BoundIsAsked(b: ByteArray, len: nat, pos: nat)
    requires b.Valid() && pos <= b.size
    ensures Min(len, b.size - b.position) == Min(len, b.size - pos)
       <==> pos == b.position || (len <= b.size - b.position && len <= b.size - pos)
  {
  }

  /** Buffers for bytes that are there: right when the bound is; too short, or past the size,
      or off the list, otherwise. */
  method BuffersAsked(b: ByteArray, len: nat, pos: nat) returns (r: Outcome<seq<Iovec>>)
    requires b.Valid() && pos <= b.size
    ensures var n := Min(len, b.size - b.position);
      && (r.Fault? <==> n > 0 && pos + n > b.capacity)
      && !r.OutOfRange?
      && (r.Ok? ==>
        && (forall i :: 0 <= i < |r.value| ==> r.value[i].off + r.value[i].len <= r.value[i].block.Length)
        && (n > 0 ==> Gather(r.value) == b.flat[pos..pos + n])
        && (n == 0 ==> r.value == []))
    ensures pos == b.position || (len <= b.size - b.position && len <= b.size - pos) ==>
      && r.Ok?
      && (forall i :: 0 <= i < |r.value| ==> r.value[i].off + r.value[i].len <= r.value[i].block.Length)
      && Gather(r.value) == b.Text()[pos..pos + Min(len, b.size - pos)]
  {
    hide Gather, Chain;
    r := b.GetReadBuffersAt(len, pos);
    BoundIsAsked(b, len, pos);
    var n := Min(len, b.size - b.position);
    hide Min;
    if pos + n <= b.size {
      SliceOfPrefix(b.flat, b.size, pos, pos + n);
      if n == 0 {
        GatherNothing(r.value);
        assert b.Text()[pos..pos + n] == [];
      }
    }
  }

  lemma GatherNothing(iovs: seq<Iovec>)
    requires iovs == []
    ensures Gather(iovs) == []
  {
  }

  /** One byte, read to its end: asked for it again from the start, it gives nothing. */
  method BuffersTooShort(x: byte) returns (got: Outcome<seq<Iovec>>, want: seq<byte>)
    ensures got == Ok([]) && want == [x]
  {
    var b := new ByteArray(1);
    b.Write([x]);
    got := BuffersAsked(b, 1, 0);
    want := [x];
  }

  /** One byte in a block of two, not yet read: asked for a byte from the end on, it gives the
      byte behind the size, where there is nothing to read. */
  method BuffersPastSize(x: byte) returns (got: Outcome<seq<Iovec>>)
    ensures got.Ok? && (forall i :: 0 <= i < |got.value| ==> got.value[i].off + got.value[i].len <= got.value[i].block.Length)
    ensures got.Ok? ==> |Gather(got.value)| == 1
  {
    var b := new ByteArray(2);
    b.Write([x]);
    var ok := b.SetPosition(0);
    got := BuffersAsked(b, 1, 1);
  }

  /** The same in a block of one: it runs off the list. */
  method BuffersOffTheList(x: byte) returns (got: Outcome<seq<Iovec>>)
    ensures got == Fault
  {
    var b := new ByteArray(1);
    b.Write([x]);
    var ok := b.SetPosition(0);
    got := BuffersAsked(b, 1, 1);
  }
}
