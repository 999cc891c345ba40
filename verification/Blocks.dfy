/** The memory blocks of a ByteArray. */
module Blocks {

  type byte = x: int | 0 <= x < 256

  /** A block of memory and the link to the next one.  The block and its size never
      change after construction.  `start` is ghost: the offset of the first byte of
      the block in the whole array. */
  class Node {
    const size: nat
    const data: array<byte>
    var next: Node?
    ghost const start: nat

    /** The block is left uninitialised, so nothing is said about its bytes. */
    constructor (s: nat, ghost offset: nat)
      ensures size == s && data.Length == s && fresh(data)
      ensures next == null && start == offset
    {
      size := s;
      data := new byte[s];
      next := null;
      start := offset;
    }
  }

  /** The blocks in `nodes` have size `bs`, follow each other from offset 0 on up to
      `total`, are linked in that order, and share no memory: `owner` names the block a
      piece of memory belongs to. */
  ghost predicate Linked(nodes: seq<Node>, bs: nat, owner: map<array<byte>, nat>, total: nat)
    reads nodes
  {
    && |nodes| >= 1 && bs >= 1
    && (forall k :: 0 <= k < |nodes| ==> nodes[k].size == nodes[k].data.Length == bs)
    && (forall k :: 0 <= k < |nodes| ==> nodes[k].data in owner && owner[nodes[k].data] == k)
    && (forall k :: 0 <= k < |nodes| ==> nodes[k].start + bs <= total)
    && (forall k {:trigger nodes[k].next} :: 0 <= k < |nodes| - 1 ==>
          nodes[k].next == nodes[k + 1] && nodes[k + 1].start == nodes[k].start + bs)
    && nodes[0].start == 0
    && nodes[|nodes| - 1].next == null
    && nodes[|nodes| - 1].start + bs == total
  }

  /** A linked list of blocks read as one stretch of memory, `flat`. */
  ghost predicate Chain(nodes: seq<Node>, bs: nat, owner: map<array<byte>, nat>, flat: seq<byte>)
    reads nodes, set n | n in nodes :: n.data
  {
    && Linked(nodes, bs, owner, |flat|)
    && (forall k, j :: 0 <= k < |nodes| && 0 <= j < bs ==> nodes[k].data[j] == flat[nodes[k].start + j])
  }

  /** Block k starts at k * bs. */
  lemma StartIsMultiple(nodes: seq<Node>, bs: nat, owner: map<array<byte>, nat>, total: nat, k: nat)
    requires Linked(nodes, bs, owner, total) && k < |nodes|
    ensures nodes[k].start == k * bs
  {
    if k > 0 {
      StartIsMultiple(nodes, bs, owner, total, k - 1);
      assert nodes[k - 1].next == nodes[k];
      assert k * bs == (k - 1) * bs + bs;
    }
  }

  lemma StartsIncrease(nodes: seq<Node>, bs: nat, owner: map<array<byte>, nat>, total: nat, j: nat, k: nat)
    requires Linked(nodes, bs, owner, total) && j < k < |nodes|
    ensures nodes[j].start + bs <= nodes[k].start
  {
    assert nodes[k - 1].next == nodes[k];
    if j < k - 1 {
      StartsIncrease(nodes, bs, owner, total, j, k - 1);
    }
  }

  /** A piece of block c is the corresponding piece of the whole. */
  lemma Piece(nodes: seq<Node>, bs: nat, owner: map<array<byte>, nat>, flat: seq<byte>, c: nat, npos: nat, n: nat)
    requires Chain(nodes, bs, owner, flat) && c < |nodes| && npos + n <= bs
    ensures nodes[c].start + npos + n <= |flat|
    ensures nodes[c].data[npos..npos + n] == flat[nodes[c].start + npos..nodes[c].start + npos + n]
  {
  }

  /** `t` is `s` with the `n` bytes of `b` from `from` on copied to `at`. */
  ghost predicate Pasted(s: seq<byte>, at: nat, b: seq<byte>, from: nat, n: nat, t: seq<byte>)
    requires from + n <= |b|
  {
    && |t| == |s|
    && at + n <= |s|
    && forall i :: 0 <= i < |s| ==> t[i] == if at <= i < at + n then b[from + (i - at)] else s[i]
  }

  /** memcpy. */
  method CopyBlock(dst: array<byte>, at: nat, src: seq<byte>, from: nat, n: nat)
    requires at + n <= dst.Length && from + n <= |src|
    modifies dst
    ensures Pasted(old(dst[..]), at, src, from, n, dst[..])
  {
    var i := 0;
    while i < n
      invariant i <= n
      invariant forall j :: 0 <= j < dst.Length ==>
        dst[j] == if at <= j < at + i then src[from + (j - at)] else old(dst[j])
    {
      dst[at + i] := src[from + i];
      i := i + 1;
    }
  }

  /** A memcpy into block c is one into the whole stretch. */
  method Put(ghost nodes: seq<Node>, ghost bs: nat, ghost owner: map<array<byte>, nat>, ghost flat: seq<byte>,
             ghost c: nat, block: array<byte>, npos: nat, buf: seq<byte>, bpos: nat, n: nat)
    returns (ghost flat': seq<byte>)
    requires Chain(nodes, bs, owner, flat) && c < |nodes| && block == nodes[c].data
    requires npos + n <= bs && bpos + n <= |buf|
    modifies block
    ensures Chain(nodes, bs, owner, flat')
    ensures Pasted(flat, nodes[c].start + npos, buf, bpos, n, flat')
  {
    ghost var at := nodes[c].start + npos;
    flat' := seq(|flat|, i requires 0 <= i < |flat| =>
      if at <= i < at + n then buf[bpos + (i - at)] else flat[i]);
    CopyBlock(block, npos, buf, bpos, n);
    forall k, j | 0 <= k < |nodes| && 0 <= j < bs
      ensures nodes[k].data[j] == flat'[nodes[k].start + j]
    {
      if k < c {
        StartsIncrease(nodes, bs, owner, |flat|, k, c);
      } else if c < k {
        StartsIncrease(nodes, bs, owner, |flat|, c, k);
      } else {
        assert nodes[k].data[j] == block[..][j];
      }
    }
  }

  /** The last block, found by walking the list. */
  method LastNode(root: Node, ghost nodes: seq<Node>, ghost bs: nat, ghost owner: map<array<byte>, nat>, ghost total: nat)
    returns (last: Node)
    requires Linked(nodes, bs, owner, total) && root == nodes[0]
    ensures last == nodes[|nodes| - 1]
  {
    last := root;
    ghost var t := 0;
    while last.next != null
      invariant t < |nodes| && last == nodes[t]
      decreases |nodes| - t
    {
      t := t + 1;
      last := last.next;
    }
  }

  /** The block that holds offset `v`, found by walking the list; null at the very end. */
  method Seek(root: Node, v: nat, ghost nodes: seq<Node>, ghost bs: nat, ghost owner: map<array<byte>, nat>, ghost total: nat)
    returns (node: Node?, ghost i: nat)
    requires Linked(nodes, bs, owner, total) && root == nodes[0] && v <= total
    ensures i < |nodes| ==> node == nodes[i] && nodes[i].start <= v < nodes[i].start + bs
    ensures i >= |nodes| ==> i == |nodes| && node == null && v == total
  {
    node, i := root, 0;
    var left: nat := v;
    while left > node.size
      invariant i < |nodes| && node == nodes[i]
      invariant left + nodes[i].start == v
      decreases left
    {
      left := left - node.size;
      assert i < |nodes| - 1 ==> nodes[i].next == nodes[i + 1];
      node := node.next;
      i := i + 1;
    }
    if left == node.size {
      assert i < |nodes| - 1 ==> nodes[i].next == nodes[i + 1];
      node := node.next;
      i := i + 1;
    }
  }

  /** Cut the list behind its first block. */
  method Truncate(root: Node, ghost nodes: seq<Node>, ghost bs: nat, ghost owner: map<array<byte>, nat>, ghost flat: seq<byte>)
    returns (last: Node)
    requires Chain(nodes, bs, owner, flat) && root == nodes[0]
    modifies root`next
    ensures Chain([root], bs, map[root.data := 0], flat[..bs])
  {
    last := root;
    var tmp := root.next;
    ghost var t := 0;
    while tmp != null
      invariant t < |nodes| && tmp == nodes[t].next
      decreases |nodes| - t
    {
      last := tmp;
      t := t + 1;
      tmp := tmp.next;
    }
    root.next := null;
  }

  /** A new block linked behind the last one. */
  method Append(last: Node, bs: nat, offset: nat, ghost nodes: seq<Node>, ghost owner: map<array<byte>, nat>, ghost flat: seq<byte>)
    returns (node: Node, ghost owner': map<array<byte>, nat>, ghost flat': seq<byte>)
    requires Chain(nodes, bs, owner, flat) && last == nodes[|nodes| - 1] && offset == |flat|
    modifies last`next
    ensures fresh(node) && fresh(node.data) && last.next == node && node.start == |flat|
    ensures Chain(nodes + [node], bs, owner', flat')
    ensures |flat'| == |flat| + bs && flat <= flat'
  {
    node := new Node(bs, offset);
    last.next := node;
    owner' := owner[node.data := |nodes|];
    flat' := flat + node.data[..];
    ghost var nodes' := nodes + [node];
    forall k {:trigger nodes'[k].next} | 0 <= k < |nodes'| - 1
      ensures nodes'[k].next == nodes'[k + 1] && nodes'[k + 1].start == nodes'[k].start + bs
    {
      assert k < |nodes| - 1 ==> nodes[k].next == old(nodes[k].next);
    }
    assert Linked(nodes', bs, owner', |flat'|);
    forall k, j | 0 <= k < |nodes'| && 0 <= j < bs
      ensures nodes'[k].data[j] == flat'[nodes'[k].start + j]
    {
      if k < |nodes| {
        assert old(nodes[k].data[j] == flat[nodes[k].start + j]);
      }
    }
  }
}
