/** How the TFTP server sends what it has built, lwip-1.3.1/port/tftpserver.c:70-94: the message is
    copied in one piece to the start of a chain of pool buffers, whose first one may be too small. */
module TftpSend {
  import opened Bytes
  import opened Pbufs
  import opened TftpCodec

  /** What a message leaves as when the first pbuf has room for r bytes: behind them come whatever
      bytes the other pbufs of the chain hold. */
  predicate LeavesAs(r: nat, msg: seq<byte>, wire: seq<byte>) {
    |wire| == |msg| && wire[..Min(r, |msg|)] == msg[..Min(r, |msg|)]
  }

  /** Whatever those are, the message leaves as it was built. */
  ghost predicate Intact(r: nat, msg: seq<byte>) {
    forall wire :: LeavesAs(r, msg, wire) ==> wire == msg
  }

  /** The message with its last byte changed. */
  function Spoilt(msg: seq<byte>): (wire: seq<byte>)
    requires msg != []
    ensures |wire| == |msg| && wire != msg
  {
    var last := msg[|msg| - 1];
    var other: byte := if last == 0 then 1 else 0;
    var wire := msg[|msg| - 1 := other];
    assert wire[|msg| - 1] != last;
    wire
  }

  lemma SpoiltLeaves(r: nat, msg: seq<byte>)
    requires r < |msg|
    ensures LeavesAs(r, msg, Spoilt(msg))
  {
  }

  lemma IntactExact(r: nat, msg: seq<byte>)
    ensures Intact(r, msg) <==> |msg| <= r
  {
    if |msg| <= r {
      forall wire | LeavesAs(r, msg, wire) ensures wire == msg {
        assert wire[..|msg|] == wire && msg[..|msg|] == msg;
      }
    } else {
      SpoiltLeaves(r, msg);
    }
  }

  /** The bytes the first pbuf of an outgoing message can take in this configuration. */
  const SEND_ROOM: nat := Room(Transport)

  lemma SendRoom()
    ensures SEND_ROOM == 200
  {
  }

  /** The bytes UDP is handed: every pbuf of the chain in turn. */
  method ChainBytes(p: Pbuf, ghost chain: seq<Pbuf>, ghost lens: seq<nat>, ghost mem: seq<array<byte>>)
    returns (data: seq<byte>, count: nat)
    requires IsChain(p, chain) && LaidOut(chain, lens, mem)
    ensures |data| == Sum(lens) && count == |chain|
    ensures p.len <= |data| && p.len <= p.payload.Length && data[..p.len] == p.payload[..p.len]
  {
    data, count := p.payload[..p.len], 1;
    var q := p.next;
    SumSnoc([], lens[0]);
    assert lens[..1] == [] + [lens[0]];
    while q != null
      invariant 1 <= count <= |chain| && q == (if count < |chain| then chain[count] else null)
      invariant |data| == Sum(lens[..count]) && p.len <= |data| && data[..p.len] == p.payload[..p.len]
      decreases |chain| - count
    {
      SumSnoc(lens[..count], lens[count]);
      assert lens[..count + 1] == lens[..count] + [lens[count]];
      data := data + q.payload[..q.len];
      q := q.next;
      count := count + 1;
    }
    assert lens[..count] == lens;
  }

  /** tftp_send_message: nothing is sent when the pool is short; otherwise the chain carries a message of
      the right length, of which the bytes beyond the first pbuf are not the message's but what that
      memory held. The pool gets back all it gave. */
  method SendMessage(msg: seq<byte>, free: nat) returns (wire: Option<seq<byte>>, left: nat)
    ensures wire.Some? <==> PoolBuffers(Transport, |msg|) <= free
    ensures wire.Some? ==> LeavesAs(SEND_ROOM, msg, wire.value)
    ensures wire.Some? <==> free > 0 && |msg| <= 256 * free - 56
    ensures wire.Some? ==> |wire.value| == |msg| && wire.value[..Min(200, |msg|)] == msg[..Min(200, |msg|)]
    ensures left == free
  {
    var p, rest, chain, lens, mem := AllocPool(Transport, |msg|, free);
    if p == null {
      return None, rest;
    }
    assert p == chain[0] && mem[0] == p.payload && lens[0] == p.len;
    var n := Min(|msg|, p.payload.Length);
    forall i | 0 <= i < n { p.payload[i] := msg[i]; }
    var data, count := ChainBytes(p, chain, lens, mem);
    assert data[..n] == p.payload[..n] == msg[..n];
    wire, left := Some(data), rest + count;
  }

  /** The replies of the server that are no DATA always fit. */
  lemma RepliesFit(block: nat, e: ErrorCode)
    requires block <= 0xFFFF
    ensures Intact(SEND_ROOM, AckPacket(block)) && Intact(SEND_ROOM, ErrorPacket(e))
  {
    SendRoom();
    IntactExact(SEND_ROOM, AckPacket(block));
    IntactExact(SEND_ROOM, ErrorPacket(e));
  }
}
