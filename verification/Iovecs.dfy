/** Scatter/gather lists over the blocks of a ByteArray. */
module Iovecs {
  import opened Blocks

  /** `len` bytes of `block` from `off` on. */
  datatype Iovec = Iovec(block: array<byte>, off: nat, len: nat)

  function Total(iovs: seq<Iovec>): nat {
    if iovs == [] then 0 else iovs[0].len + Total(iovs[1..])
  }

  /** The entries are, one after the other, the `Total(iovs)` bytes from offset `at` on. */
  ghost predicate Window(nodes: seq<Node>, bs: nat, owner: map<array<byte>, nat>, iovs: seq<Iovec>, at: nat) {
    iovs == [] ||
    var v := iovs[0];
    && v.block in owner && owner[v.block] < |nodes|
    && v.block == nodes[owner[v.block]].data
    && v.off + v.len <= bs
    && nodes[owner[v.block]].start + v.off == at
    && Window(nodes, bs, owner, iovs[1..], at + v.len)
  }

  /** The bytes a gathering write sends: the contents of the entries, in order. */
  function Gather(iovs: seq<Iovec>): seq<byte>
    requires forall i :: 0 <= i < |iovs| ==> iovs[i].off + iovs[i].len <= iovs[i].block.Length
    reads set v | v in iovs :: v.block
  {
    if iovs == [] then [] else iovs[0].block[iovs[0].off..iovs[0].off + iovs[0].len] + Gather(iovs[1..])
  }

  lemma {:induction false} WindowAppend(nodes: seq<Node>, bs: nat, owner: map<array<byte>, nat>,
                                        iovs: seq<Iovec>, at: nat, v: Iovec)
    requires Window(nodes, bs, owner, iovs, at)
    requires Window(nodes, bs, owner, [v], at + Total(iovs))
    ensures Window(nodes, bs, owner, iovs + [v], at)
    ensures Total(iovs + [v]) == Total(iovs) + v.len
  {
    if iovs == [] {
      assert iovs + [v] == [v];
    } else {
      assert (iovs + [v])[1..] == iovs[1..] + [v];
      WindowAppend(nodes, bs, owner, iovs[1..], at + iovs[0].len, v);
    }
  }

  lemma {:induction false} WindowInBlocks(nodes: seq<Node>, bs: nat, owner: map<array<byte>, nat>, total: nat,
                                          iovs: seq<Iovec>, at: nat)
    requires Linked(nodes, bs, owner, total) && Window(nodes, bs, owner, iovs, at)
    ensures forall i :: 0 <= i < |iovs| ==> iovs[i].off + iovs[i].len <= iovs[i].block.Length
  {
    if iovs != [] {
      WindowInBlocks(nodes, bs, owner, total, iovs[1..], at + iovs[0].len);
    }
  }

  /** A window at `at` gathers to the bytes from `at` on. */
  lemma {:induction false} GatherWindow(nodes: seq<Node>, bs: nat, owner: map<array<byte>, nat>, flat: seq<byte>,
                                        iovs: seq<Iovec>, at: nat)
    requires Chain(nodes, bs, owner, flat) && Window(nodes, bs, owner, iovs, at)
    requires at <= |flat|
    ensures forall i :: 0 <= i < |iovs| ==> iovs[i].off + iovs[i].len <= iovs[i].block.Length
    ensures at + Total(iovs) <= |flat|
    ensures Gather(iovs) == flat[at..at + Total(iovs)]
  {
    WindowInBlocks(nodes, bs, owner, |flat|, iovs, at);
    if iovs != [] {
      var v := iovs[0];
      Piece(nodes, bs, owner, flat, owner[v.block], v.off, v.len);
      GatherWindow(nodes, bs, owner, flat, iovs[1..], at + v.len);
    }
  }

  /** The walk all three buffer getters share: entries for `n` bytes from offset `npos`
      of block c on.  It runs off the list exactly when the blocks hold fewer bytes. */
  method Collect(ghost nodes: seq<Node>, bs: nat, ghost owner: map<array<byte>, nat>, ghost total: nat,
                 ghost c: nat, node: Node, npos: nat, n: nat)
    returns (iovs: seq<Iovec>, ok: bool)
    requires Linked(nodes, bs, owner, total) && c < |nodes| && node == nodes[c] && npos < bs
    ensures ok <==> node.start + npos + n <= total
    ensures ok ==> Window(nodes, bs, owner, iovs, node.start + npos) && Total(iovs) == n
  {
    ghost var at: nat, i: nat := node.start + npos, c;
    var cur, off: nat, left: nat := node, npos, n;
    var ncap: nat := cur.size - npos;
    iovs := [];
    while left > 0
      invariant Window(nodes, bs, owner, iovs, at) && Total(iovs) + left == n
      invariant at + Total(iovs) <= total
      invariant left > 0 ==> i < |nodes| && cur == nodes[i] && off < bs && ncap == bs - off
                             && at + Total(iovs) == cur.start + off
    {
      assert i < |nodes| - 1 ==> nodes[i].next == nodes[i + 1];
      var iov := Iovec(cur.data, off, if ncap >= left then left else ncap);
      assert Window(nodes, bs, owner, [iov], at + Total(iovs));
      WindowAppend(nodes, bs, owner, iovs, at, iov);
      if ncap >= left {
        left := 0;
      } else {
        left := left - ncap;
        if cur.next == null {
          return [], false;
        }
        cur := cur.next;
        i := i + 1;
        ncap := cur.size;
        off := 0;
      }
      iovs := iovs + [iov];
    }
    ok := true;
  }
}
