/** ByteArray: a growing byte buffer kept as a linked list of equal blocks.

    The methods work on the list, with a cached current block, as the original does.
    `flat` is the ghost view they are proved against: the bytes of all blocks, in
    order.  `Text()`, the bytes below `size`, is what a caller can observe. */
module ByteArrays {
  import opened Blocks
  import opened Iovecs
  import opened Arith

  /** What a call does: it returns, it throws std::out_of_range, or it follows a null
      pointer. */
  datatype Outcome<T> = Ok(value: T) | OutOfRange | Fault

  /** size_t arithmetic wraps around at this value. */
  const SIZE_T := 0x1_0000_0000_0000_0000

  /** `s` with `b` written over it from `at` on; it grows when `b` runs past the end. */
  function Overwrite(s: seq<byte>, at: nat, b: seq<byte>): (r: seq<byte>)
    requires at <= |s|
    ensures |r| == if at + |b| <= |s| then |s| else at + |b|
  {
    s[..at] + b + (if at + |b| <= |s| then s[at + |b|..] else [])
  }

  /** The capacity after room was made up to offset `end`: whole blocks are added until
      they reach it. */
  function GrownCapacity(bs: nat, capacity: nat, end: nat): (r: nat)
    requires bs > 0
    ensures capacity <= r && end <= r
    decreases end - capacity
  {
    if end <= capacity then capacity else GrownCapacity(bs, capacity + bs, end)
  }

  /** Adding the number of blocks that `ceil` gives is the same. */
  lemma CeilGrows(bs: nat, capacity: nat, end: nat, count: nat)
    requires bs > 0 && capacity < end && count == CeilDiv(end - capacity, bs)
    ensures count > 0 && GrownCapacity(bs, capacity, end) == capacity + bs * count
  {
    CeilCovers(end - capacity, bs);
    MulMonotonic(count, 0, bs);
    GrowsBy(bs, capacity, end, count);
  }

  lemma {:induction false} GrowsBy(bs: nat, capacity: nat, end: nat, count: nat)
    requires bs > 0 && end <= capacity + bs * count < end + bs
    ensures GrownCapacity(bs, capacity, end) == capacity + bs * count
    decreases count
  {
    if count > 0 {
      Distribute(count - 1, 1, bs);
      MulMonotonic(0, count - 1, bs);
      GrowsBy(bs, capacity + bs, end, count - 1);
    }
  }

  /** Making room in two steps is making room at once. */
  lemma {:induction false} GrowTwice(bs: nat, capacity: nat, m: nat, n: nat)
    requires bs > 0 && m <= n
    ensures GrownCapacity(bs, GrownCapacity(bs, capacity, m), n) == GrownCapacity(bs, capacity, n)
    decreases m - capacity
  {
    if m > capacity {
      GrowTwice(bs, capacity + bs, m, n);
    }
  }

  /** A fresh array that was filled with `n` bytes is full exactly at whole blocks. */
  lemma {:induction false} FullAtWholeBlocks(bs: nat, k: nat, n: nat)
    requires bs > 0 && k > 0 && (k == 1 || (k - 1) * bs < n)
    ensures GrownCapacity(bs, k * bs, n) == n <==> n > 0 && n % bs == 0
    decreases n - k * bs
  {
    MulMonotonic(1, k, bs);
    Distribute(k - 1, 1, bs);
    if n > k * bs {
      Distribute(k, 1, bs);
      FullAtWholeBlocks(bs, k + 1, n);
    } else if n == k * bs {
      DivUnique(n, bs, k);
    } else {
      assert k == 1 ==> (k - 1) * bs == 0;
      DivUnique(n, bs, k - 1);
    }
  }

  lemma OverwriteTwice(s: seq<byte>, at: nat, a: seq<byte>, b: seq<byte>)
    requires at <= |s|
    ensures Overwrite(Overwrite(s, at, a), at + |a|, b) == Overwrite(s, at, a + b)
  {
  }

  lemma OverwriteNothing(s: seq<byte>, at: nat)
    requires at <= |s|
    ensures Overwrite(s, at, []) == s
  {
  }

  lemma OverwriteAtEnd(s: seq<byte>, b: seq<byte>)
    ensures Overwrite(s, |s|, b) == s + b
  {
  }

  /** Pasting `b` into a grown buffer is overwriting the text below `size`. */
  lemma PastedText(s: seq<byte>, grown: seq<byte>, size: nat, at: nat, b: seq<byte>, t: seq<byte>)
    requires at <= size <= |s| && s <= grown && Pasted(grown, at, b, 0, |b|, t)
    ensures t[..if at + |b| > size then at + |b| else size] == Overwrite(s[..size], at, b)
    ensures forall i :: 0 <= i < |s| && !(at <= i < at + |b|) ==> t[i] == s[i]
  {
  }

  lemma SliceOfPrefix(s: seq<byte>, n: nat, from: nat, to: nat)
    requires from <= to <= n <= |s|
    ensures s[..n][from..to] == s[from..to]
  {
  }

  lemma Joined(s: seq<byte>, from: nat, at: nat, to: nat)
    requires from <= at <= to <= |s|
    ensures s[from..at] + s[at..to] == s[from..to]
  {
  }

  lemma OneBlock(n: Node, bs: nat, flat: seq<byte>)
    requires Chain([n], bs, map[n.data := 0], flat)
    ensures |flat| == bs >= 1 && n.start == 0
  {
    assert [n][0] == n;
  }

  class ByteArray {
    const basesize: nat
    var position: nat
    var capacity: nat
    var size: nat
    var bigEndian: bool
    var root: Node
    var cur: Node?

    ghost var nodes: seq<Node>                // the blocks, in list order
    ghost var owner: map<array<byte>, nat>    // which block a piece of memory belongs to
    ghost var flat: seq<byte>                 // the bytes of all blocks
    ghost var index: nat                      // the number of the current block
    ghost var Repr: set<object>

    /** The list is well formed and `flat` is what it holds. */
    ghost predicate Shape()
      reads this`nodes, this`owner, this`flat, this`root, this`capacity, this`Repr, Repr - {this}
    {
      && this in Repr
      && (forall k :: 0 <= k < |nodes| ==> nodes[k] in Repr && nodes[k].data in Repr)
      && Chain(nodes, basesize, owner, flat)
      && root == nodes[0]
      && capacity == |flat|
    }

    /** Block `i` is the one that holds offset `p`; past the last block it is null. */
    ghost predicate Holds(i: nat, node: Node?, p: nat)
      requires Shape()
      reads this, Repr
    {
      if i < |nodes| then node == nodes[i] && nodes[i].start <= p < nodes[i].start + basesize
      else i == |nodes| && node == null && p == capacity
    }

    ghost predicate Cursor()
      reads this, Repr
      ensures Cursor() ==> this in Repr
    {
      Shape() && Holds(index, cur, position)
    }

    ghost predicate Valid()
      reads this, Repr
      ensures Valid() ==> this in Repr
    {
      Cursor() && position <= size <= capacity
    }

    ghost function Text(): (r: seq<byte>)
      requires Shape() && size <= capacity
      reads this, Repr
    {
      flat[..size]
    }

    constructor (bs: nat)
      requires bs >= 1
      ensures Valid() && fresh(Repr)
      ensures basesize == bs && capacity == bs && position == size == 0 && bigEndian
    {
      basesize := bs;
      position, capacity, size, bigEndian := 0, bs, 0, true;
      var n := new Node(bs, 0);
      root, cur, index := n, n, 0;
      nodes, flat, owner := [n], n.data[..], map[n.data := 0];
      Repr := {this, n, n.data};
    }

    method SetIsLittleEndian(little: bool)
      requires Valid()
      modifies this`bigEndian
      ensures Valid() && bigEndian == !little
    {
      bigEndian := !little;
    }

    // ---------------------------------------------------------------- the list

    lemma CapacityIsMultiple()
      requires Shape()
      ensures capacity == |nodes| * basesize
    {
      StartIsMultiple(nodes, basesize, owner, capacity, |nodes| - 1);
    }

    /** The current block is number position / basesize, and null exactly at the capacity. */
    lemma CurrentBlock()
      requires Cursor()
      ensures position == capacity <==> cur == null
      ensures index == position / basesize && index <= |nodes|
      ensures cur != null ==> cur == nodes[index] && position == cur.start + position % basesize
    {
      CapacityIsMultiple();
      if index < |nodes| {
        StartIsMultiple(nodes, basesize, owner, capacity, index);
      }
      DivUnique(position, basesize, index);
    }

    lemma BlockSize()
      requires Cursor()
      ensures cur != null ==> cur.size == basesize
    {
    }

    /** What follows block `i`: the next block, or the end of the memory. */
    lemma NextHolds(i: nat)
      requires Shape() && i < |nodes|
      ensures nodes[i].next != null <==> nodes[i].start + basesize < capacity
      ensures nodes[i].next != null ==> i + 1 < |nodes| && nodes[i].next == nodes[i + 1]
                                        && nodes[i + 1].start == nodes[i].start + basesize
      ensures nodes[i].next == null ==> i + 1 == |nodes| && nodes[i].start + basesize == capacity
    {
    }

    /** One turn of the loop in `AddCapacity`. */
    method AppendNode(last: Node)
      requires Shape() && last == nodes[|nodes| - 1]
      modifies this`nodes, this`flat, this`owner, this`Repr, this`capacity, last`next
      ensures Shape() && fresh(Repr - old(Repr))
      ensures |nodes| == |old(nodes)| + 1 && old(nodes) <= nodes && old(flat) <= flat
      ensures last.next == nodes[|nodes| - 1] && nodes[|nodes| - 1].start == old(capacity)
    {
      ghost var owner', flat';
      var node;
      node, owner', flat' := Append(last, basesize, capacity, nodes, owner, flat);
      nodes, owner, flat := nodes + [node], owner', flat';
      Repr := Repr + {node, node.data};
      capacity := capacity + basesize;
    }

    method AppendNodes(count: nat) returns (first: Node?)
      requires Shape()
      modifies Repr
      ensures Shape() && fresh(Repr - old(Repr))
      ensures unchanged(this`position, this`size, this`bigEndian, this`cur, this`index)
      ensures |nodes| == |old(nodes)| + count && old(flat) <= flat && old(nodes) <= nodes
      ensures count > 0 ==> first == nodes[|old(nodes)|] && nodes[|old(nodes)|].start == old(capacity)
    {
      var tmp := LastNode(root, nodes, basesize, owner, capacity);
      hide Chain, Linked;
      first := null;
      var i := 0;
      while i < count
        invariant Shape() && fresh(Repr - old(Repr))
        invariant i <= count
        invariant tmp == nodes[|nodes| - 1]
        invariant unchanged(this`position, this`size, this`bigEndian, this`cur, this`index)
        invariant old(flat) <= flat && old(nodes) <= nodes
        invariant |nodes| == |old(nodes)| + i && (i > 0 ==> nodes[|old(nodes)|].start == old(capacity))
        invariant first == if i == 0 then null else nodes[|old(nodes)|]
      {
        AppendNode(tmp);
        if first == null {
          first := tmp.next;
        }
        tmp := tmp.next;
        i := i + 1;
      }
    }

    method AddCapacity(n: nat)
      requires Valid()
      modifies Repr
      ensures Valid() && fresh(Repr - old(Repr))
      ensures unchanged(this`position, this`size, this`bigEndian)
      ensures capacity == GrownCapacity(basesize, old(capacity), position + n)
      ensures old(flat) <= flat
    {
      if n == 0 {
        return;
      }
      var oldCap := capacity - position;
      if oldCap >= n {
        return;
      }
      var need := n - oldCap;
      var count := CeilDiv(need, basesize);
      CeilGrows(basesize, capacity, position + n, count);
      CapacityIsMultiple();
      var first := AppendNodes(count);
      CapacityIsMultiple();
      Distribute(|old(nodes)|, count, basesize);
      if oldCap == 0 {
        cur := first;
      }
    }

    /** m_position % m_basesize is the offset into the current block. */
    method Offset() returns (npos: nat)
      requires Cursor() && cur != null
      ensures position == cur.start + npos && npos < cur.size
    {
      CurrentBlock();
      npos := position % basesize;
    }

    // ---------------------------------------------------------------- write

    /** The memcpy of one turn of the loop in `Write`, and the step past it. */
    method PutChunk(npos: nat, buf: seq<byte>, bpos: nat, n: nat)
      requires Cursor() && cur != null && position == cur.start + npos
      requires npos + n <= basesize && bpos + n <= |buf|
      modifies this`flat, this`position, this`cur, this`index, cur.data
      ensures Cursor()
      ensures position == old(position) + n
      ensures cur != null ==> position == cur.start + if npos + n < basesize then npos + n else 0
      ensures Pasted(old(flat), old(position), buf, bpos, n, flat)
    {
      flat := Put(nodes, basesize, owner, flat, index, cur.data, npos, buf, bpos, n);
      if cur.size == npos + n {
        cur := cur.next;
        index := index + 1;
      }
      position := position + n;
    }

    /** The loop of `Write`, once there is room. */
    method WriteLoop(buf: seq<byte>)
      requires Cursor() && |buf| > 0 && position + |buf| <= capacity
      modifies Repr
      ensures Cursor() && unchanged(this`Repr, this`size, this`bigEndian, this`capacity)
      ensures position == old(position) + |buf|
      ensures Pasted(old(flat), old(position), buf, 0, |buf|, flat)
    {
      hide Chain;
      BlockSize();
      var npos := Offset();
      var ncap := cur.size - npos;
      var bpos: nat, left: nat := 0, |buf|;
      while left > 0
        invariant Cursor() && unchanged(this`Repr, this`size, this`bigEndian, this`capacity)
        invariant bpos + left == |buf|
        invariant position == old(position) + bpos && position + left <= capacity
        invariant Pasted(old(flat), old(position), buf, 0, bpos, flat)
        invariant left > 0 ==> cur != null && position == cur.start + npos && ncap == basesize - npos
      {
        if ncap >= left {
          PutChunk(npos, buf, bpos, left);
          bpos := bpos + left;
          left := 0;
        } else {
          PutChunk(npos, buf, bpos, ncap);
          bpos := bpos + ncap;
          left := left - ncap;
          BlockSize();
          ncap := cur.size;
          npos := 0;
        }
      }
    }

    method Write(buf: seq<byte>)
      requires Valid()
      modifies Repr
      ensures Valid() && fresh(Repr - old(Repr))
      ensures position == old(position) + |buf| && bigEndian == old(bigEndian)
      ensures Text() == Overwrite(old(Text()), old(position), buf)
      ensures capacity == GrownCapacity(basesize, old(capacity), old(position) + |buf|)
      ensures forall i :: 0 <= i < old(capacity) && !(old(position) <= i < position) ==> flat[i] == old(flat)[i]
    {
      hide Overwrite, Chain;
      if |buf| == 0 {
        OverwriteNothing(Text(), position);
        return;
      }
      AddCapacity(|buf|);
      ghost var grown := flat;
      WriteLoop(buf);
      PastedText(old(flat), grown, size, old(position), buf, flat);
      if position > size {
        size := position;
      }
    }

    // ---------------------------------------------------------------- read

    /** The memcpy of one turn of the loop in `Read`, and the step past it. */
    method TakeChunk(npos: nat, n: nat) returns (chunk: seq<byte>)
      requires Cursor() && cur != null && position == cur.start + npos
      requires npos + n <= basesize
      modifies this`position, this`cur, this`index
      ensures Cursor()
      ensures position == old(position) + n
      ensures cur != null ==> position == cur.start + if npos + n < basesize then npos + n else 0
      ensures chunk == flat[old(position)..position]
    {
      Piece(nodes, basesize, owner, flat, index, npos, n);
      NextHolds(index);
      chunk := cur.data[npos..npos + n];
      if cur.size == npos + n {
        cur := cur.next;
        index := index + 1;
      }
      position := position + n;
    }

    method Read(n: nat) returns (r: Outcome<seq<byte>>)
      requires Valid()
      modifies this`position, this`cur, this`index
      ensures Valid()
      ensures r == if n > size - old(position) then OutOfRange
                   else if n == 0 && old(position) == capacity then Fault
                   else Ok(Text()[old(position)..old(position) + n])
      ensures position == if r.Ok? then old(position) + n else old(position)
    {
      CurrentBlock();
      hide Chain;
      if n > size - position {
        return OutOfRange;
      }
      if cur == null {
        return Fault;
      }
      BlockSize();
      var npos := Offset();
      var ncap := cur.size - npos;
      var buf: seq<byte>, left: nat := [], n;
      while left > 0
        invariant Cursor()
        invariant |buf| + left == n
        invariant position == old(position) + |buf| && position + left <= size
        invariant buf == flat[old(position)..position]
        invariant left > 0 ==> cur != null && position == cur.start + npos && ncap == basesize - npos
      {
        var chunk;
        if ncap >= left {
          chunk := TakeChunk(npos, left);
          left := 0;
        } else {
          chunk := TakeChunk(npos, ncap);
          left := left - ncap;
          BlockSize();
          ncap := cur.size;
          npos := 0;
        }
        buf := buf + chunk;
      }
      SliceOfPrefix(flat, size, old(position), position);
      r := Ok(buf);
    }

    method SetPosition(v: nat) returns (ok: bool)
      requires Valid()
      modifies this`position, this`size, this`cur, this`index
      ensures Valid()
      ensures ok <==> v <= capacity
      ensures position == if ok then v else old(position)
      ensures size == if ok && v > old(size) then v else old(size)
    {
      if v > capacity {
        return false;
      }
      position := v;
      if position > size {
        size := position;
      }
      cur, index := Seek(root, v, nodes, basesize, owner, capacity);
      ok := true;
    }

    method Clear()
      requires Valid()
      modifies Repr
      ensures Valid() && Repr <= old(Repr)
      ensures position == size == 0 && capacity == basesize && bigEndian == old(bigEndian)
    {
      cur := Truncate(root, nodes, basesize, owner, flat);
      Rewind(flat[..basesize]);
    }

    /** An array of one block, with nothing in it. */
    method Rewind(ghost block: seq<byte>)
      requires Chain([root], basesize, map[root.data := 0], block)
      modifies this
      ensures Valid() && Repr == {this, root, root.data} && root == old(root)
      ensures position == size == 0 && capacity == basesize && bigEndian == old(bigEndian)
    {
      OneBlock(root, basesize, block);
      hide Chain, Linked;
      position, size, capacity, cur, index := 0, 0, basesize, root, 0;
      nodes, flat, owner, Repr := [root], block, map[root.data := 0], {this, root, root.data};
      assert Chain(nodes, basesize, owner, flat);
      hide *;
      IsOneBlock();
    }

    lemma IsOneBlock()
      requires nodes == [root] && Chain(nodes, basesize, owner, flat) && |flat| == basesize == capacity && root.start == 0
      requires {this, root, root.data} <= Repr && cur == root && index == position == size == 0 && basesize > 0
      ensures Valid()
    {
      hide Chain;
    }

    /** The positional read starts in the current block, whatever block holds `pos`. */
    method ReadAt(n: nat, pos: nat) returns (r: Outcome<seq<byte>>)
      requires Valid()
      ensures r == if n > (if pos <= size then size - pos else size - pos + SIZE_T) then OutOfRange
                   else if cur == null then Fault
                   else
                     var from := cur.start + pos % basesize;
                     if from + n <= capacity then Ok(flat[from..from + n]) else Fault
    {
      if n > (if pos <= size then size - pos else size - pos + SIZE_T) {
        return OutOfRange;
      }
      if cur == null {
        return Fault;
      }
      r := ReadFrom(n, pos % basesize);
    }

    /** The loop of `ReadAt`. */
    method ReadFrom(n: nat, offset: nat) returns (r: Outcome<seq<byte>>)
      requires Valid() && cur != null && offset < basesize
      ensures r == var from := cur.start + offset;
                   if from + n <= capacity then Ok(flat[from..from + n]) else Fault
    {
      ghost var from: nat := cur.start + offset;
      var npos: nat := offset;
      var ncap: nat := cur.size - npos;
      var node := cur;
      ghost var c: nat := index;
      var buf: seq<byte>, left: nat := [], n;
      while left > 0
        invariant |buf| + left == n
        invariant from + |buf| <= capacity && buf == flat[from..from + |buf|]
        invariant left > 0 ==> c < |nodes| && node == nodes[c] && npos < basesize
                               && from + |buf| == node.start + npos && ncap == basesize - npos
      {
        NextHolds(c);
        ghost var to := from + |buf| + if ncap >= left then left else ncap;
        Piece(nodes, basesize, owner, flat, c, npos, to - from - |buf|);
        Joined(flat, from, from + |buf|, to);
        if ncap >= left {
          buf := buf + node.data[npos..npos + left];
          left := 0;
        } else {
          buf := buf + node.data[npos..npos + ncap];
          left := left - ncap;
          if node.next == null {
            return Fault;
          }
          node := node.next;
          c := c + 1;
          ncap := node.size;
          npos := 0;
        }
      }
      r := Ok(buf);
    }

    method ToString() returns (r: Outcome<seq<byte>>)
      requires Valid()
      ensures r == Ok(Text()[position..size])
    {
      SliceOfPrefix(flat, size, position, size);
      if size - position == 0 {
        return Ok([]);
      }
      CurrentBlock();
      r := ReadAt(size - position, position);
      assert cur.start + position % basesize == position;
    }

    // ---------------------------------------------------------------- scatter/gather

    /** The list, without what it holds. */
    lemma Blocks()
      requires Shape()
      ensures Linked(nodes, basesize, owner, capacity) && root == nodes[0]
    {
    }

    method GetReadBuffers(len: nat) returns (iovs: seq<Iovec>, n: nat)
      requires Valid()
      ensures n == if len > size - position then size - position else len
      ensures Window(nodes, basesize, owner, iovs, position) && Total(iovs) == n
      ensures (forall i :: 0 <= i < |iovs| ==> iovs[i].off + iovs[i].len <= iovs[i].block.Length)
              && Gather(iovs) == Text()[position..position + n]
    {
      Blocks();
      CurrentBlock();
      hide Linked, Gather, Window, Total;
      n := if len > size - position then size - position else len;
      if n == 0 {
        return [], 0;
      }
      var npos := Offset();
      var ok;
      iovs, ok := Collect(nodes, basesize, owner, capacity, index, cur, npos, n);
      GatherWindow(nodes, basesize, owner, flat, iovs, position);
      SliceOfPrefix(flat, size, position, position + n);
    }

    /** The positional overload walks from the root, but bounds `len` by what is readable at
        the current position, not at `pos`. */
    method GetReadBuffersAt(len: nat, pos: nat) returns (r: Outcome<seq<Iovec>>)
      requires Valid()
      ensures var n := if len > size - position then size - position else len;
              if n == 0 then r == Ok([])
              else if pos + n > capacity then r == Fault
              else
                && r.Ok?
                && (forall i :: 0 <= i < |r.value| ==> r.value[i].off + r.value[i].len <= r.value[i].block.Length)
                && Gather(r.value) == flat[pos..pos + n]
    {
      hide Gather, Window, Total;
      var n := if len > size - position then size - position else len;
      if n == 0 {
        return Ok([]);
      }
      var node, npos, i := BlockOf(pos);
      if node == null {
        return Fault;
      }
      var iovs, ok := Collect(nodes, basesize, owner, capacity, i, node, npos, n);
      if !ok {
        return Fault;
      }
      GatherWindow(nodes, basesize, owner, flat, iovs, pos);
      r := Ok(iovs);
    }

    /** The walk from the root to block pos / basesize; null when it runs off the list. */
    method BlockOf(pos: nat) returns (node: Node?, npos: nat, ghost i: nat)
      requires Valid()
      ensures npos < basesize && (node == null <==> pos >= capacity)
      ensures node != null ==> i < |nodes| && node == nodes[i] && node.start + npos == pos
    {
      npos := pos % basesize;
      var count: nat := pos / basesize;
      node, i := root, 0;
      while count > 0
        invariant i < |nodes| && node == nodes[i] && i + count == pos / basesize
      {
        NextHolds(i);
        if node.next == null {
          PastTheEnd(pos, i);
          return null, npos, i;
        }
        node := node.next;
        i := i + 1;
        count := count - 1;
      }
      StartIsMultiple(nodes, basesize, owner, capacity, i);
    }

    lemma PastTheEnd(pos: nat, i: nat)
      requires Shape() && i + 1 == |nodes| && i < pos / basesize
      ensures pos >= capacity
    {
      CapacityIsMultiple();
      MulMonotonic(|nodes|, pos / basesize, basesize);
    }

    method GetWriteBuffers(len: nat) returns (iovs: seq<Iovec>, n: nat)
      requires Valid()
      modifies Repr
      ensures Valid() && fresh(Repr - old(Repr))
      ensures unchanged(this`position, this`size, this`bigEndian) && n == len
      ensures capacity == GrownCapacity(basesize, old(capacity), position + len) && old(flat) <= flat
      ensures Window(nodes, basesize, owner, iovs, position) && Total(iovs) == len
    {
      n := len;
      if len == 0 {
        return [], 0;
      }
      AddCapacity(len);
      Blocks();
      CurrentBlock();
      hide Chain, Linked, GrownCapacity;
      var npos := Offset();
      var ok;
      iovs, ok := Collect(nodes, basesize, owner, capacity, index, cur, npos, len);
    }

    /** What the kernel does with a scatter list: `data` fills the entries in order. */
    method Scatter(iovs: seq<Iovec>, data: seq<byte>, ghost at: nat)
      requires Cursor() && Window(nodes, basesize, owner, iovs, at) && at <= capacity && |data| <= Total(iovs)
      modifies this`flat, Repr - {this}
      ensures Cursor() && Pasted(old(flat), at, data, 0, |data|, flat)
    {
      hide Chain;
      var i: nat, done: nat := 0, 0;
      while done < |data|
        invariant Cursor() && i <= |iovs| && done <= |data|
        invariant done < |data| ==> Window(nodes, basesize, owner, iovs[i..], at + done) && |data| - done <= Total(iovs[i..])
        invariant at + done <= capacity && Pasted(old(flat), at, data, 0, done, flat)
        decreases |iovs| - i
      {
        var v := iovs[i];
        assert iovs[i..][0] == v && iovs[i..][1..] == iovs[i + 1..];
        var m: nat := if |data| - done < v.len then |data| - done else v.len;
        PutEntry(v, data, done, m, at + done);
        done := done + m;
        i := i + 1;
      }
    }

    method PutEntry(v: Iovec, data: seq<byte>, done: nat, m: nat, ghost at: nat)
      requires Cursor() && Window(nodes, basesize, owner, [v], at) && m <= v.len && done + m <= |data|
      modifies this`flat, v.block
      ensures Cursor() && Pasted(old(flat), at, data, done, m, flat)
    {
      flat := Put(nodes, basesize, owner, flat, owner[v.block], v.block, v.off, data, done, m);
    }

    /** `SocketStream::read` into a byte array: `arrived` is what the socket delivers. */
    method Receive(len: nat, arrived: seq<byte>)
      requires Valid() && |arrived| <= len
      modifies Repr
      ensures Valid() && fresh(Repr - old(Repr))
      ensures position == old(position) + |arrived| && bigEndian == old(bigEndian)
      ensures Text() == Overwrite(old(Text()), old(position), arrived)
      ensures capacity == GrownCapacity(basesize, old(capacity), old(position) + len)
    {
      hide Overwrite, GrownCapacity, Chain, Window, Total;
      var iovs, n := GetWriteBuffers(len);
      ghost var grown := flat;
      Scatter(iovs, arrived, position);
      PastedText(old(flat), grown, size, position, arrived, flat);
      if |arrived| > 0 {
        var ok := SetPosition(position + |arrived|);
      }
    }
  }
}
