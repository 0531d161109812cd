/** What chained packets cost the receive path: the write callback drops them without giving their
    pbufs back (lwip-1.3.1/port/tftpserver.c:314-317), so the pool of received frames runs dry. */
module PoolLoss {
  import opened Bytes
  import opened Pbufs
  import opened TftpUpload

  /** PBUF_POOL_SIZE (lwip-1.3.1/port/lwipopts.h:72). */
  const POOL_SIZE := 10

  /** The buffers free after a frame of this length for a write connection: one the pool cannot hold is
      not received, one in a single buffer is given back, a chained one is not. */
  function FreeAfter(free: nat, length: nat): nat {
    var k := PoolBuffers(Raw, length);
    if k > free || k == 1 then free else free - k
  }

  /** The whole way of a frame: buffers from the pool, headers taken off, the callback, buffers back. */
  method Receive(c: WriteConnection, length: nat, writeOk: bool, free: nat) returns (left: nat)
    requires length >= HEADERS
    modifies c
    ensures left == FreeAfter(free, length)
  {
    var p, rest, chain, lens, mem := AllocPool(Raw, length, free);
    if p == null {
      return rest;
    }
    assert mem[0] == p.payload && lens[0] == p.len;
    var packet := Datagram(p.payload[HEADERS..], p.len - HEADERS, p.totLen - HEADERS);
    var sent, freed := c.RecvCallback(packet, writeOk);
    left := if freed then free else rest;
  }

  /** A series of frames, all for the connection. */
  function FreeAfterAll(free: nat, lengths: seq<nat>): nat
    decreases |lengths|
  {
    if lengths == [] then free else FreeAfterAll(FreeAfter(free, lengths[0]), lengths[1..])
  }

  lemma {:induction false} NeverMore(free: nat, lengths: seq<nat>)
    ensures FreeAfterAll(free, lengths) <= free
    decreases |lengths|
  {
    if lengths != [] {
      NeverMore(FreeAfter(free, lengths[0]), lengths[1..]);
    }
  }

  /** A frame that was received as a chain. */
  predicate Costs(free: nat, length: nat) {
    1 < PoolBuffers(Raw, length) <= free
  }

  /** The pool is whole after a series of frames if and only if none of them needed more than one buffer,
      unless more than there are. */
  lemma {:induction false} PoolWhole(free: nat, lengths: seq<nat>)
    ensures FreeAfterAll(free, lengths) == free <==> forall i :: 0 <= i < |lengths| ==> !Costs(free, lengths[i])
    decreases |lengths|
  {
    if lengths != [] {
      var left := FreeAfter(free, lengths[0]);
      if Costs(free, lengths[0]) {
        NeverMore(left, lengths[1..]);
      } else {
        PoolWhole(free, lengths[1..]);
        assert forall i :: 0 < i < |lengths| ==> lengths[i] == lengths[1..][i - 1];
      }
    }
  }

  /** What the pool cannot hold now it can never hold again. */
  lemma Starved(free: nat, lengths: seq<nat>, length: nat)
    requires PoolBuffers(Raw, length) > free
    ensures PoolBuffers(Raw, length) > FreeAfterAll(free, lengths)
  {
    NeverMore(free, lengths);
  }

  function Same(length: nat, m: nat): (lengths: seq<nat>)
    ensures |lengths| == m && forall i :: 0 <= i < m ==> lengths[i] == length
  {
    seq(m, _ => length)
  }

  /** The frame of a full data block takes three buffers. */
  lemma FullBlock()
    ensures PoolBuffers(Raw, HEADERS + 516) == 3
  {
    assert Lens(POOL_BUFSIZE, 558) == [POOL_BUFSIZE] + Lens(POOL_BUFSIZE, 302);
    assert Lens(POOL_BUFSIZE, 302) == [POOL_BUFSIZE] + Lens(POOL_BUFSIZE, 46);
  }

  lemma {:induction false} FullBlocks(free: nat, m: nat)
    requires 3 * m <= free
    ensures FreeAfterAll(free, Same(HEADERS + 516, m)) == free - 3 * m
    decreases m
  {
    FullBlock();
    if m > 0 {
      assert Same(HEADERS + 516, m)[1..] == Same(HEADERS + 516, m - 1);
      FullBlocks(free - 3, m - 1);
    }
  }

  lemma {:induction false} Append(free: nat, a: seq<nat>, b: seq<nat>)
    ensures FreeAfterAll(free, a + b) == FreeAfterAll(FreeAfterAll(free, a), b)
    decreases |a|
  {
    if a == [] {
      assert a + b == b;
    } else {
      assert (a + b)[1..] == a[1..] + b;
      Append(FreeAfter(free, a[0]), a[1..], b);
    }
  }

  /** Three full blocks of an upload, and whatever comes after them no frame of more than 256 bytes is
      received any more. */
  lemma ThreeBlocksStarve(later: seq<nat>, length: nat)
    requires length > POOL_BUFSIZE
    ensures PoolBuffers(Raw, length) > FreeAfterAll(POOL_SIZE, Same(HEADERS + 516, 3) + later) && POOL_SIZE == 10
  {
    FullBlocks(POOL_SIZE, 3);
    Append(POOL_SIZE, Same(HEADERS + 516, 3), later);
    Starved(1, later, length);
  }
}
