/** The write (upload) side of the TFTP server, lwip-1.3.1/port/tftpserver.c:309-417: the callback
    as an object that mutates its connection record, and the same callback inside a network that
    loses, duplicates and reorders packets, opposite a lock-step sender (RFC 1350, sections 2, 6). */
module TftpUpload {
  import opened Bytes
  import opened Pbufs
  import opened TftpCodec

  /** A received pbuf: its buffer memory (at least a header long), the bytes of the packet held in
      the first pbuf, and the bytes of the whole chain. */
  datatype Datagram = Datagram(payload: seq<byte>, len: nat, totLen: nat) {
    predicate Valid() {
      |payload| >= 4 && len <= |payload|
    }

    function Data(): seq<byte>
      requires Valid()
    {
      if len > DATA_PKT_HDR_LEN then payload[DATA_PKT_HDR_LEN..len] else []
    }
  }

  /** The connection record, the file behind it, and how often tftp_cleanup_wr has run. */
  datatype Wrq = Wrq(block: int, totBytes: int, file: seq<byte>, cleanups: nat)

  const START := Wrq(0, 0, [], 0)

  // ----- What one callback does -----

  predicate InOrder(s: Wrq, p: Datagram)
    requires p.Valid()
  {
    ExtractBlock(p.payload) == s.block + 1
  }

  /** A write is attempted only for an in-order packet with data; it is lost when the file system
      refuses it. */
  predicate WriteLost(s: Wrq, p: Datagram, writeOk: bool)
    requires p.Valid()
  {
    p.len == p.totLen && InOrder(s, p) && p.Data() != [] && !writeOk
  }

  function WrqStep(s: Wrq, p: Datagram, writeOk: bool): Wrq
    requires p.Valid()
  {
    if p.len != p.totLen then s else
      var lost := WriteLost(s, p, writeOk);
      var closing := (if lost then 1 else 0) + (if p.len < DATA_PKT_LEN_MAX then 1 else 0);
      if InOrder(s, p) then
        Wrq(s.block + 1, s.totBytes + |p.Data()|, if lost then s.file else s.file + p.Data(), s.cleanups + closing)
      else
        s.(cleanups := s.cleanups + closing)
  }

  function WrqReplies(s: Wrq, p: Datagram, writeOk: bool): seq<seq<byte>>
    requires p.Valid()
  {
    if p.len != p.totLen then [] else
      (if WriteLost(s, p, writeOk) then [ErrorPacket(FileNotFound)] else [])
      + [AckPacket(U16(WrqStep(s, p, writeOk).block))]
  }

  class WriteConnection {
    var block: int
    var totBytes: int
    var file: seq<byte>
    var cleanups: nat

    ghost function State(): Wrq
      reads this
    {
      Wrq(block, totBytes, file, cleanups)
    }

    constructor ()
      ensures State() == START == Wrq(0, 0, [], 0)
    {
      block, totBytes, file, cleanups := 0, 0, [], 0;
    }

    method Cleanup()
      modifies this`cleanups
      ensures cleanups == old(cleanups) + 1
    {
      cleanups := cleanups + 1;
    }

    /** wrq_recv_callback; freed says whether it gave the packet's pbufs back. A chained packet does
        nothing. Any other is answered with exactly one ACK, of the last block taken, behind an error
        message when its data could not be written. */
    method RecvCallback(p: Datagram, writeOk: bool) returns (sent: seq<seq<byte>>, freed: bool)
      requires p.Valid()
      modifies this
      ensures p.len != p.totLen ==> unchanged(this) && sent == [] && !freed
      ensures p.len == p.totLen ==>
                var next := p.payload[2] as int * 256 + p.payload[3] as int == old(block) + 1;
                var data := if next && p.len > 4 then p.payload[4..p.len] else [];
                && block == old(block) + (if next then 1 else 0) && totBytes == old(totBytes) + |data|
                && file == old(file) + (if writeOk then data else [])
                && cleanups == old(cleanups) + (if p.len < 516 then 1 else 0) + (if data != [] && !writeOk then 1 else 0)
                && sent == (if data != [] && !writeOk then [[0, 5, 0, 1] + Ascii("file not found") + [0]] else [])
                           + [[0, 4, block / 256 % 256, block % 256]]
      ensures State() == WrqStep(old(State()), p, writeOk)
      ensures sent == WrqReplies(old(State()), p, writeOk)
      ensures freed <==> p.len == p.totLen
    {
      sent, freed := [], false;
      if p.len != p.totLen {
        return;
      }
      if p.len > DATA_PKT_HDR_LEN && ExtractBlock(p.payload) == block + 1 {
        if writeOk {
          file := file + p.payload[DATA_PKT_HDR_LEN..p.len];
        } else {
          var error := ErrorReply(FileNotFound);
          NotFoundOnTheWire();
          sent := sent + [error];
          Cleanup();
        }
        block := block + 1;
        totBytes := totBytes + (p.len - DATA_PKT_HDR_LEN);
      } else if ExtractBlock(p.payload) == block + 1 {
        block := block + 1;
      }
      var ack := BuildAck(block);
      sent := sent + [ack];
      if p.len < DATA_PKT_LEN_MAX {
        Cleanup();
      }
      freed := true;
    }
  }

  lemma NotFoundOnTheWire()
    ensures ErrorPacket(FileNotFound) == [0, 5, 0, 1] + Ascii("file not found") + [0]
  {
    OnTheWire(0, []);
  }

  /** tftp_process_write: the file is opened, the record allocated, and the positive response to a
      write request is always ACK 0. */
  method ProcessWrite(openOk: bool, allocOk: bool) returns (c: WriteConnection?, sent: seq<byte>)
    ensures c != null <==> openOk && allocOk
    ensures c != null ==> fresh(c) && c.State() == START == Wrq(0, 0, [], 0) && sent == [0, 4, 0, 0]
    ensures c == null && !openOk ==> sent == [0, 5, 0, 6] + Ascii("file already exists") + [0]
    ensures c == null && openOk ==> sent == [0, 5, 0, 0] + Ascii("not defined") + [0]
  {
    OnTheWire(0, []);
    c := null;
    if !openOk {
      sent := ErrorReply(FileAlreadyExists);
    } else if !allocOk {
      sent := ErrorReply(NotDefined);
    } else {
      c := new WriteConnection();
      sent := BuildAck(c.block);
    }
  }

  // ----- Accounting over every packet sequence -----

  predicate AllValid(ps: seq<Datagram>) {
    forall i :: 0 <= i < |ps| ==> ps[i].Valid()
  }

  /** The connection fed packet after packet, until it closes; every write succeeds. */
  function WrqRun(s: Wrq, ps: seq<Datagram>): Wrq
    requires AllValid(ps)
    decreases |ps|
  {
    if ps == [] || s.cleanups > 0 then s else WrqRun(WrqStep(s, ps[0], true), ps[1..])
  }

  /** The packets sent meanwhile. */
  function WrqSent(s: Wrq, ps: seq<Datagram>): seq<seq<byte>>
    requires AllValid(ps)
    decreases |ps|
  {
    if ps == [] || s.cleanups > 0 then [] else
      WrqReplies(s, ps[0], true) + WrqSent(WrqStep(s, ps[0], true), ps[1..])
  }

  /** Reference reading of a packet sequence, with no connection state but the last block number:
      the payloads of the packets taken in order, up to the first packet shorter than 516 bytes. */
  function InOrderPayloads(last: int, ps: seq<Datagram>): seq<seq<byte>>
    requires AllValid(ps)
    decreases |ps|
  {
    if ps == [] then []
    else if ps[0].len != ps[0].totLen then InOrderPayloads(last, ps[1..])
    else
      var taken := ExtractBlock(ps[0].payload) == last + 1;
      (if taken then [ps[0].Data()] else [])
      + (if ps[0].len < DATA_PKT_LEN_MAX then []
         else InOrderPayloads(if taken then last + 1 else last, ps[1..]))
  }

  /** The packets are ACKs whose numbers start at from or one above, end at to, and rise by at most
      one from each to the next. */
  predicate AcksClimb(acks: seq<seq<byte>>, from: int, to: int)
    decreases |acks|
  {
    if acks == [] then from == to else
      || (0 <= from <= 0xFFFF && acks[0] == AckPacket(from) && AcksClimb(acks[1..], from, to))
      || (0 <= from + 1 <= 0xFFFF && acks[0] == AckPacket(from + 1) && AcksClimb(acks[1..], from + 1, to))
  }

  /** How many packets the callback hears in one pbuf, up to and including the first one shorter than
      516 bytes. */
  function HeardWhole(ps: seq<Datagram>): nat
    decreases |ps|
  {
    if ps == [] then 0
    else if ps[0].len != ps[0].totLen then HeardWhole(ps[1..])
    else 1 + if ps[0].len < 516 then 0 else HeardWhole(ps[1..])
  }

  lemma {:induction false} OneAckEach(s: Wrq, ps: seq<Datagram>)
    requires AllValid(ps) && s.cleanups == 0
    ensures |WrqSent(s, ps)| == HeardWhole(ps)
    decreases |ps|
  {
    if ps != [] {
      var s1 := WrqStep(s, ps[0], true);
      if s1.cleanups == 0 {
        OneAckEach(s1, ps[1..]);
      }
    }
  }

  /** Whatever packets arrive: the file is the in-order payloads, the block number counts them and
      fits 16 bits, the byte total is the file length, the connection is cleaned up at most once,
      there is one ACK for each packet that comes in one pbuf, and the ACKs rise by at most one per
      packet and never fall. */
  lemma UploadAccounting(ps: seq<Datagram>)
    requires AllValid(ps)
    ensures var s := WrqRun(START, ps);
            && s.file == Flatten(InOrderPayloads(0, ps))
            && s.block == |InOrderPayloads(0, ps)| <= 0xFFFF
            && s.totBytes == |s.file|
            && s.cleanups <= 1
            && AcksClimb(WrqSent(START, ps), 0, s.block)
            && |WrqSent(START, ps)| == HeardWhole(ps)
  {
    OneAckEach(START, ps);
    AccountingFrom(START, ps);
    AcksFrom(START, ps);
    assert [] + Flatten(InOrderPayloads(0, ps)) == Flatten(InOrderPayloads(0, ps));
  }

  ghost predicate InBalance(s: Wrq) {
    0 <= s.block <= 0xFFFF && s.totBytes == |s.file|
  }

  lemma {:induction false} AccountingFrom(s: Wrq, ps: seq<Datagram>)
    requires AllValid(ps) && InBalance(s) && s.cleanups == 0
    ensures var s', taken := WrqRun(s, ps), InOrderPayloads(s.block, ps);
            && s'.file == s.file + Flatten(taken)
            && s'.block == s.block + |taken|
            && InBalance(s') && s'.cleanups <= 1
    decreases |ps|
  {
    if ps != [] {
      var p, s1, taken := ps[0], WrqStep(s, ps[0], true), InOrderPayloads(s.block, ps);
      assert WrqRun(s, ps) == WrqRun(s1, ps[1..]);
      assert s1.cleanups <= 1 && InBalance(s1);
      if s1.cleanups > 0 {
        assert taken == if InOrder(s, p) then [p.Data()] else [];
        FlattenSnoc([], p.Data());
      } else {
        AccountingFrom(s1, ps[1..]);
        var rest := InOrderPayloads(s1.block, ps[1..]);
        if p.len == p.totLen && InOrder(s, p) {
          assert taken == [p.Data()] + rest;
          assert taken[1..] == rest;
        } else {
          assert taken == rest;
        }
      }
    }
  }

  lemma OneAckMore(acks: seq<seq<byte>>, from: int, k: int, to: int)
    requires AcksClimb(acks, k, to) && (k == from || k == from + 1) && 0 <= k <= 0xFFFF
    ensures AcksClimb([AckPacket(k)] + acks, from, to)
  {
    assert ([AckPacket(k)] + acks)[1..] == acks;
  }

  lemma {:induction false} AcksFrom(s: Wrq, ps: seq<Datagram>)
    requires AllValid(ps) && InBalance(s) && s.cleanups == 0
    ensures AcksClimb(WrqSent(s, ps), s.block, WrqRun(s, ps).block)
    decreases |ps|
  {
    if ps != [] {
      var p, s1 := ps[0], WrqStep(s, ps[0], true);
      var rest := WrqSent(s1, ps[1..]);
      if s1.cleanups == 0 {
        AcksFrom(s1, ps[1..]);
      }
      assert AcksClimb(rest, s1.block, WrqRun(s, ps).block);
      if p.len == p.totLen {
        assert WrqSent(s, ps) == [AckPacket(s1.block)] + rest;
        OneAckMore(rest, s.block, s1.block, WrqRun(s, ps).block);
      } else {
        assert WrqSent(s, ps) == rest;
      }
    }
  }

  /** A refused write is the one event that breaks the accounting: the block is acknowledged and
      counted though the file did not grow, and if the packet was short the connection is cleaned
      up twice. */
  lemma WriteFailureExact(s: Wrq, p: Datagram, writeOk: bool)
    requires p.Valid() && s.totBytes == |s.file| && s.cleanups == 0
    ensures var s' := WrqStep(s, p, writeOk);
            && (s'.totBytes == |s'.file| <==> !WriteLost(s, p, writeOk))
            && (s'.cleanups <= 1 <==> !(WriteLost(s, p, writeOk) && p.len < DATA_PKT_LEN_MAX))
            && (WriteLost(s, p, writeOk) ==>
                  s'.file == s.file && WrqReplies(s, p, writeOk)[1..] == [AckPacket(U16(s.block + 1))])
  {
  }

  // ----- End to end, over a network -----

  function NumBlocks(source: seq<byte>): nat {
    |source| / DATA_LEN_MAX + 1
  }

  function Prefix(source: seq<byte>, blocks: nat): seq<byte> {
    source[..Min(DATA_LEN_MAX * blocks, |source|)]
  }

  /** Block i of the sender's file: 512 bytes, and fewer exactly for the last block. */
  function Chunk(source: seq<byte>, i: nat): (r: seq<byte>)
    requires 1 <= i <= NumBlocks(source)
    ensures |r| <= DATA_LEN_MAX
    ensures |r| < DATA_LEN_MAX <==> i == NumBlocks(source)
    ensures Prefix(source, i) == Prefix(source, i - 1) + r
  {
    var lo, hi := DATA_LEN_MAX * (i - 1), Min(DATA_LEN_MAX * i, |source|);
    assert source[..hi] == source[..lo] + source[lo..hi];
    source[lo..hi]
  }

  /** Block numbers travel in 16 bits. */
  function BlockPacket(source: seq<byte>, i: nat): seq<byte>
    requires 1 <= i <= NumBlocks(source)
  {
    DataPacket(U16(i), Chunk(source, i))
  }

  /** The sender waits for the ACK of block cur (0 is its write request). The network remembers
      every packet ever sent, and may deliver any of them at any time, any number of times. An ERROR
      packet leaves the sender as it is: one that gives up on it takes no further events. */
  datatype Sys = Sys(source: seq<byte>, cur: nat, done: bool, server: Wrq, data: set<seq<byte>>, acks: set<seq<byte>>)

  datatype Action =
    | SenderHears(p: seq<byte>)
    | SenderTimesOut
    | ServerHears(p: seq<byte>, writeOk: bool)
    | ServerHearsChained(p: seq<byte>, firstLen: nat)

  function Init(source: seq<byte>): Sys {
    Sys(source, 0, false, START, {}, {AckPacket(0)})
  }

  function Transmit(s: Sys): Sys {
    if s.cur == 0 || s.cur > NumBlocks(s.source) then s else s.(data := s.data + {BlockPacket(s.source, s.cur)})
  }

  function Deliver(s: Sys, p: Datagram, writeOk: bool): Sys
    requires p.Valid()
  {
    s.(server := WrqStep(s.server, p, writeOk), acks := s.acks + (set a | a in WrqReplies(s.server, p, writeOk)))
  }

  /** One event; one that is not enabled changes nothing. The file system grants or refuses each write. */
  function Step(s: Sys, a: Action): Sys
  {
    match a
    case SenderHears(p) =>
      if p !in s.acks || |p| < 4 || s.done || !IsCorrectAck(p, U16(s.cur)) then s
      else if s.cur == NumBlocks(s.source) then s.(done := true)
      else Transmit(s.(cur := s.cur + 1))
    case SenderTimesOut =>
      if s.done then s else Transmit(s)
    case ServerHears(p, writeOk) =>
      if p !in s.data || |p| < 4 || s.server.cleanups > 0 then s else Deliver(s, Datagram(p, |p|, |p|), writeOk)
    case ServerHearsChained(p, firstLen) =>
      if p !in s.data || |p| < 4 || s.server.cleanups > 0 || firstLen >= |p| then s
      else Deliver(s, Datagram(p, firstLen, |p|), true)
  }

  /** The last block number that fits in 16 bits, and so the most blocks the server can take. */
  const MAX_BLOCK := 0xFFFF

  ghost predicate IsBlock(source: seq<byte>, p: seq<byte>, i: nat) {
    1 <= i <= NumBlocks(source) && p == BlockPacket(source, i)
  }

  ghost predicate IsAck(p: seq<byte>, k: nat) {
    k <= MAX_BLOCK && p == AckPacket(k)
  }

  /** The event is a write that the file system refuses. */
  predicate Refused(s: Sys, a: Action) {
    && a.ServerHears? && a.p in s.data && |a.p| >= 4 && s.server.cleanups == 0
    && WriteLost(s.server, Datagram(a.p, |a.p|, |a.p|), a.writeOk)
  }

  /** Where the server stands when the sender waits for the ACK of block cur. A refused write closes the
      connection and leaves its block out of the file, though it is counted. */
  ghost predicate InStep(source: seq<byte>, cur: nat, srv: Wrq, lost: bool) {
    var n := NumBlocks(source);
    && 0 <= srv.block <= MAX_BLOCK
    && srv.block <= cur <= n
    && (srv.block < MAX_BLOCK ==> cur <= srv.block + 1)
    && srv.totBytes == |Prefix(source, srv.block)|
    && (if lost then
          srv.cleanups > 0 && srv.block > 0 && Chunk(source, srv.block) != [] && srv.file == Prefix(source, srv.block - 1)
        else
          && srv.file == Prefix(source, srv.block)
          && (if srv.cleanups == 0 then srv.block < n else srv.block == Min(n, MAX_BLOCK)))
  }

  ghost predicate DataKnown(source: seq<byte>, cur: nat, data: set<seq<byte>>) {
    forall p :: p in data ==> exists i: nat :: i <= cur && IsBlock(source, p, i)
  }

  ghost predicate IsReply(p: seq<byte>, block: int) {
    p == ErrorPacket(FileNotFound) || exists k: nat :: k <= block && IsAck(p, k)
  }

  ghost predicate AcksKnown(acks: set<seq<byte>>, block: int) {
    forall p :: p in acks ==> IsReply(p, block)
  }

  /** The state after a run in which a write has been refused (lost), or in which none has. */
  ghost predicate Inv(s: Sys, lost: bool) {
    && InStep(s.source, s.cur, s.server, lost)
    && (s.done ==> s.server.block == Min(NumBlocks(s.source), MAX_BLOCK))
    && DataKnown(s.source, s.cur, s.data)
    && AcksKnown(s.acks, s.server.block)
  }

  lemma InvInit(source: seq<byte>)
    ensures Inv(Init(source), false)
  {
    assert IsAck(AckPacket(0), 0);
  }

  lemma StepKeepsInv(s: Sys, a: Action, lost: bool)
    requires Inv(s, lost)
    ensures Inv(Step(s, a), lost || Refused(s, a)) && Step(s, a).source == s.source
  {
    match a
    case SenderHears(p) =>
      if p in s.acks && |p| >= 4 && !s.done && IsCorrectAck(p, U16(s.cur)) { SenderAdvances(s, p, lost); }
    case SenderTimesOut => SenderResends(s, lost);
    case ServerHears(p, writeOk) =>
      if p in s.data && s.server.cleanups == 0 { ServerTakes(s, p, writeOk); }
    case ServerHearsChained(p, firstLen) => ChainedIgnored(s, p, firstLen);
  }

  lemma ErrorIsNoAck(e: ErrorCode, block: int)
    ensures |ErrorPacket(e)| >= 4 && !IsCorrectAck(ErrorPacket(e), block)
  {
    ErrorRoundTrip(e, block);
  }

  lemma SenderResends(s: Sys, lost: bool)
    requires Inv(s, lost)
    ensures Inv(Step(s, SenderTimesOut), lost)
  {
    if !s.done && s.cur > 0 {
      assert IsBlock(s.source, BlockPacket(s.source, s.cur), s.cur);
    }
  }

  /** An ACK that matches modulo 2^16 is for the current block, unless the server is already at its
      last representable block. */
  lemma CurrentAcked(s: Sys, p: seq<byte>, lost: bool)
    requires Inv(s, lost) && p in s.acks && |p| >= 4 && IsCorrectAck(p, U16(s.cur))
    ensures s.server.block < MAX_BLOCK ==> s.server.block == s.cur
  {
    ErrorIsNoAck(FileNotFound, U16(s.cur));
    assert IsReply(p, s.server.block);
    var k: nat :| k <= s.server.block && IsAck(p, k);
    assert ExtractBlock(p) == k;
  }

  lemma SenderAdvances(s: Sys, p: seq<byte>, lost: bool)
    requires Inv(s, lost) && p in s.acks && !s.done && |p| >= 4 && IsCorrectAck(p, U16(s.cur))
    ensures Inv(Step(s, SenderHears(p)), lost)
  {
    CurrentAcked(s, p, lost);
    if s.cur < NumBlocks(s.source) {
      OneMoreBlock(s.source, s.cur, s.data);
    }
  }

  lemma OneMoreBlock(source: seq<byte>, cur: nat, data: set<seq<byte>>)
    requires DataKnown(source, cur, data) && cur < NumBlocks(source)
    ensures DataKnown(source, cur + 1, data + {BlockPacket(source, cur + 1)})
  {
    var data' := data + {BlockPacket(source, cur + 1)};
    forall q | q in data' ensures exists i: nat :: i <= cur + 1 && IsBlock(source, q, i) {
      if q in data {
        var i: nat :| i <= cur && IsBlock(source, q, i);
        assert i <= cur + 1 && IsBlock(source, q, i);
      } else {
        assert cur + 1 <= cur + 1 && IsBlock(source, q, cur + 1);
      }
    }
  }

  /** What the server reads in the sender's block i: its number, its bytes, and whether it is the last. */
  lemma BlockRead(source: seq<byte>, p: seq<byte>, i: nat)
    requires IsBlock(source, p, i)
    ensures |p| >= 4 && ExtractBlock(p) == U16(i) && Datagram(p, |p|, |p|).Data() == Chunk(source, i)
    ensures |p| < DATA_PKT_LEN_MAX <==> i == NumBlocks(source)
  {
  }

  /** A packet the server takes as in order is the sender's next block; a short packet closes the
      connection only once every block the server can number has been stored, and a refused write
      closes it with that block missing. */
  lemma ServerMoves(source: seq<byte>, cur: nat, srv: Wrq, p: seq<byte>, i: nat, writeOk: bool)
    requires InStep(source, cur, srv, false) && srv.cleanups == 0 && i <= cur && IsBlock(source, p, i)
    ensures var d := Datagram(p, |p|, |p|);
            && |p| >= 4 && InStep(source, cur, WrqStep(srv, d, writeOk), WriteLost(srv, d, writeOk))
            && WrqStep(srv, d, writeOk).block >= srv.block
  {
    BlockRead(source, p, i);
    if InOrder(srv, Datagram(p, |p|, |p|)) {
      assert U16(i) == srv.block + 1 && i == srv.block + 1;
    }
  }

  lemma OneMoreAck(acks: set<seq<byte>>, block: int, k: nat)
    requires AcksKnown(acks, block) && block <= k <= MAX_BLOCK
    ensures AcksKnown(acks + {AckPacket(k)}, k) && AcksKnown(acks + {ErrorPacket(FileNotFound), AckPacket(k)}, k)
  {
    assert IsAck(AckPacket(k), k);
    forall q | q in acks ensures IsReply(q, k) {
      assert IsReply(q, block);
    }
  }

  lemma ServerTakes(s: Sys, p: seq<byte>, writeOk: bool)
    requires Inv(s, false) && p in s.data && s.server.cleanups == 0
    ensures Inv(Step(s, ServerHears(p, writeOk)), Refused(s, ServerHears(p, writeOk)))
  {
    var i: nat :| i <= s.cur && IsBlock(s.source, p, i);
    ServerMoves(s.source, s.cur, s.server, p, i, writeOk);
    var d := Datagram(p, |p|, |p|);
    var k := WrqStep(s.server, d, writeOk).block;
    OneMoreAck(s.acks, s.server.block, k);
    Replied(s, p, writeOk, k);
  }

  lemma Replied(s: Sys, p: seq<byte>, writeOk: bool, k: nat)
    requires |p| >= 4 && p in s.data && s.server.cleanups == 0 && k <= MAX_BLOCK
    requires k == WrqStep(s.server, Datagram(p, |p|, |p|), writeOk).block
    ensures Step(s, ServerHears(p, writeOk)).acks ==
            s.acks + if Refused(s, ServerHears(p, writeOk)) then {ErrorPacket(FileNotFound), AckPacket(k)} else {AckPacket(k)}
  {
    var replies := WrqReplies(s.server, Datagram(p, |p|, |p|), writeOk);
    if Refused(s, ServerHears(p, writeOk)) {
      assert replies == [ErrorPacket(FileNotFound), AckPacket(k)];
    } else {
      assert replies == [AckPacket(k)];
    }
  }

  function Run(s: Sys, acts: seq<Action>): Sys
    decreases |acts|
  {
    if acts == [] then s else Run(Step(s, acts[0]), acts[1..])
  }

  /** No write of the run is refused. */
  predicate NeverRefused(s: Sys, acts: seq<Action>)
    decreases |acts|
  {
    acts == [] || (!Refused(s, acts[0]) && NeverRefused(Step(s, acts[0]), acts[1..]))
  }

  lemma {:induction false} RunKeepsInv(s: Sys, acts: seq<Action>, lost: bool)
    requires Inv(s, lost)
    ensures Inv(Run(s, acts), lost || !NeverRefused(s, acts)) && Run(s, acts).source == s.source
    decreases |acts|
  {
    if acts != [] {
      StepKeepsInv(s, acts[0], lost);
      RunKeepsInv(Step(s, acts[0]), acts[1..], lost || Refused(s, acts[0]));
    }
  }

  /** What the invariant says of the file. */
  lemma FileExact(s: Sys, lost: bool)
    requires Inv(s, lost)
    ensures s.server.file <= s.source
    ensures s.server.totBytes == |s.server.file| <==> !lost
    ensures lost ==> s.server.cleanups > 0 && s.server.file == Prefix(s.source, s.server.block - 1) != s.source
    ensures !lost && (s.server.cleanups > 0 || s.done) ==>
              && (s.server.file == s.source <==> |s.source| <= DATA_LEN_MAX * MAX_BLOCK)
              && s.server.file == Prefix(s.source, MAX_BLOCK)
  {
    var b := s.server.block;
    if lost {
      assert Prefix(s.source, b) == Prefix(s.source, b - 1) + Chunk(s.source, b);
    } else if NumBlocks(s.source) <= MAX_BLOCK {
      assert Prefix(s.source, NumBlocks(s.source)) == s.source;
    }
  }

  /** At every moment of every run the server's file is a prefix of the sender's, and as long as the
      server counts if and only if no write has been refused. When the server cleans up the transfer (or
      the sender believes it done), the two files are equal if and only if no write was refused and the
      file is at most 65535 blocks of 512 bytes long; a longer one is cut exactly there, and after a
      refused write the file ends in front of the block refused. */
  lemma UploadEndToEnd(source: seq<byte>, acts: seq<Action>)
    ensures var s := Run(Init(source), acts);
            var ok := NeverRefused(Init(source), acts);
            && s.server.file <= source
            && (s.server.totBytes == |s.server.file| <==> ok)
            && (s.server.cleanups > 0 || s.done ==>
                  && (s.server.file == source <==> |source| <= DATA_LEN_MAX * MAX_BLOCK && ok)
                  && (ok ==> s.server.file == Prefix(source, MAX_BLOCK)))
            && (!ok ==> s.server.cleanups > 0 && s.server.block > 0 && s.server.file == Prefix(source, s.server.block - 1))
  {
    InvInit(source);
    RunKeepsInv(Init(source), acts, false);
    FileExact(Run(Init(source), acts), !NeverRefused(Init(source), acts));
  }

  /** A short file whose one write is refused: the server closes and the sender finishes, and nothing
      has been stored. */
  lemma RefusedWitness(source: seq<byte>) returns (acts: seq<Action>)
    requires 0 < |source| < DATA_LEN_MAX
    ensures var s := Run(Init(source), acts); s.done && s.server.cleanups > 0 && s.server.file == []
  {
    var s := Init(source);
    SenderSends(s, 1);
    var s1 := Step(s, SenderHears(AckPacket(0)));
    var p := BlockPacket(source, 1);
    BlockRead(source, p, 1);
    Replied(s1, p, false, 1);
    var s2 := Step(s1, ServerHears(p, false));
    assert IsCorrectAck(AckPacket(1), 1);
    acts := [];
    RunTwoMore(s, acts, SenderHears(AckPacket(0)), ServerHears(p, false));
    acts := acts + [SenderHears(AckPacket(0)), ServerHears(p, false)];
    RunTwoMore(s, acts, SenderHears(AckPacket(1)), SenderTimesOut);
    acts := acts + [SenderHears(AckPacket(1)), SenderTimesOut];
  }

  // ----- A run that completes -----

  function LosslessActs(source: seq<byte>, k: nat): seq<Action>
    requires k <= NumBlocks(source)
  {
    if k == 0 then [] else
      LosslessActs(source, k - 1) + [SenderHears(AckPacket(U16(k - 1))), ServerHears(BlockPacket(source, k), true)]
  }

  lemma {:induction false} RunAppend(s: Sys, a: seq<Action>, b: seq<Action>)
    ensures Run(s, a + b) == Run(Run(s, a), b)
    decreases |a|
  {
    if a == [] {
      assert a + b == b;
    } else {
      RunAppend(Step(s, a[0]), a[1..], b);
      assert (a + b)[1..] == a[1..] + b;
    }
  }

  lemma RunTwoMore(s: Sys, acts: seq<Action>, a: Action, b: Action)
    ensures Run(s, acts + [a, b]) == Step(Step(Run(s, acts), a), b)
  {
    RunAppend(s, acts, [a, b]);
    var s1 := Run(s, acts);
    assert [a, b][1..] == [b] && [b][1..] == [];
    assert Run(s1, [a, b]) == Run(Step(s1, a), [b]) == Run(Step(Step(s1, a), b), []);
  }

  ghost predicate Agreed(s: Sys, source: seq<byte>, k: nat) {
    && s.source == source && s.cur == k && s.server.block == k && !s.done
    && k <= MAX_BLOCK && AckPacket(k) in s.acks
    && (s.server.cleanups > 0 <==> k == NumBlocks(source))
  }

  lemma LosslessSplit(source: seq<byte>, k: nat)
    requires 0 < k <= NumBlocks(source) && k <= MAX_BLOCK
    ensures Run(Init(source), LosslessActs(source, k)) ==
            Step(Step(Run(Init(source), LosslessActs(source, k - 1)), SenderHears(AckPacket(k - 1))),
                 ServerHears(BlockPacket(source, k), true))
  {
    RunTwoMore(Init(source), LosslessActs(source, k - 1), SenderHears(AckPacket(k - 1)), ServerHears(BlockPacket(source, k), true));
  }

  /** After k lossless exchanges (any k up to the 16-bit limit) sender and server agree on k. */
  lemma {:induction false} LosslessRun(source: seq<byte>, k: nat)
    requires k <= NumBlocks(source) && k <= MAX_BLOCK
    ensures Agreed(Run(Init(source), LosslessActs(source, k)), source, k)
  {
    if k > 0 {
      LosslessRun(source, k - 1);
      LosslessSplit(source, k);
      LosslessStep(Run(Init(source), LosslessActs(source, k - 1)), k);
    }
  }

  lemma LosslessStep(s: Sys, k: nat)
    requires 1 <= k <= NumBlocks(s.source) && k <= MAX_BLOCK && s.cur == k - 1 && !s.done && AckPacket(k - 1) in s.acks
    requires s.server.block == k - 1 && s.server.cleanups == 0
    ensures var s' := Step(Step(s, SenderHears(AckPacket(k - 1))), ServerHears(BlockPacket(s.source, k), true));
            && s'.source == s.source && s'.cur == s'.server.block == k && !s'.done && AckPacket(k) in s'.acks
            && (s'.server.cleanups > 0 <==> k == NumBlocks(s.source))
  {
    SenderSends(s, k);
    DeliverBlock(Step(s, SenderHears(AckPacket(k - 1))), k);
  }

  lemma SenderSends(s: Sys, k: nat)
    requires 1 <= k <= NumBlocks(s.source) && k <= MAX_BLOCK + 1 && s.cur == k - 1 && !s.done && AckPacket(k - 1) in s.acks
    ensures Step(s, SenderHears(AckPacket(k - 1))) == s.(cur := k, data := s.data + {BlockPacket(s.source, k)})
  {
    assert IsCorrectAck(AckPacket(k - 1), U16(s.cur));
  }

  lemma DeliverBlock(s: Sys, k: nat)
    requires 1 <= k <= NumBlocks(s.source) && s.server.block >= 0 && s.server.cleanups == 0 && BlockPacket(s.source, k) in s.data
    ensures var s' := Step(s, ServerHears(BlockPacket(s.source, k), true));
            && s'.source == s.source && s'.cur == s.cur && s'.done == s.done
            && s'.server.block == (if U16(k) == s.server.block + 1 then s.server.block + 1 else s.server.block)
            && AckPacket(U16(s'.server.block)) in s'.acks
            && (s'.server.cleanups > 0 <==> k == NumBlocks(s.source))
  {
  }

  // ----- Which uploads can complete at all -----

  /** Packets longer than r bytes reach the server as chains, the others in one pbuf. */
  predicate Within(r: nat, acts: seq<Action>) {
    forall i :: 0 <= i < |acts| ==> Arrives(r, acts[i])
  }

  predicate Arrives(r: nat, a: Action) {
    match a
    case ServerHears(p, _) => |p| <= r
    case ServerHearsChained(p, _) => |p| > r
    case _ => true
  }

  /** The server has closed and holds the sender's file. */
  ghost predicate Completes(source: seq<byte>, acts: seq<Action>) {
    var s := Run(Init(source), acts);
    s.server.cleanups > 0 && s.server.file == source
  }

  lemma BlockLength(source: seq<byte>, i: nat)
    requires 1 <= i <= NumBlocks(source)
    ensures |BlockPacket(source, i)| <= DATA_PKT_LEN_MAX
    ensures i == 1 ==> |BlockPacket(source, i)| == 4 + Min(DATA_LEN_MAX, |source|)
  {
  }

  lemma {:induction false} LosslessWithin(source: seq<byte>, k: nat, r: nat)
    requires k <= NumBlocks(source) && (r >= DATA_PKT_LEN_MAX || (k <= 1 && |source| + 4 <= r))
    ensures Within(r, LosslessActs(source, k))
  {
    if k > 0 {
      LosslessWithin(source, k - 1, r);
      BlockLength(source, k);
    }
  }

  /** Every write that is asked for is granted. */
  predicate WritesOk(acts: seq<Action>) {
    forall i :: 0 <= i < |acts| && acts[i].ServerHears? ==> acts[i].writeOk
  }

  lemma {:induction false} OkIsNeverRefused(s: Sys, acts: seq<Action>)
    requires WritesOk(acts)
    ensures NeverRefused(s, acts)
    decreases |acts|
  {
    if acts != [] {
      assert forall i :: 0 <= i < |acts| - 1 ==> acts[1..][i] == acts[i + 1];
      OkIsNeverRefused(Step(s, acts[0]), acts[1..]);
    }
  }

  lemma {:induction false} LosslessWritesOk(source: seq<byte>, k: nat)
    requires k <= NumBlocks(source)
    ensures WritesOk(LosslessActs(source, k))
  {
    if k > 0 {
      LosslessWritesOk(source, k - 1);
    }
  }

  /** Every file the server can hold has a lossless run that completes; one of exactly 65535 full blocks
      closes on an empty block that travels as number 0. */
  lemma LosslessCompletes(source: seq<byte>, r: nat)
    requires |source| <= DATA_LEN_MAX * MAX_BLOCK && (r >= DATA_PKT_LEN_MAX || |source| + 4 <= r)
    ensures exists acts :: Within(r, acts) && Completes(source, acts)
  {
    var n := NumBlocks(source);
    if n <= MAX_BLOCK {
      LosslessRun(source, n);
      LosslessWithin(source, n, r);
      LosslessWritesOk(source, n);
      OkIsNeverRefused(Init(source), LosslessActs(source, n));
      UploadEndToEnd(source, LosslessActs(source, n));
      assert Within(r, LosslessActs(source, n)) && Completes(source, LosslessActs(source, n));
    } else {
      var acts := ClosingActs(source);
      OneMore(source);
      LosslessWithin(source, MAX_BLOCK, r);
      BlockLength(source, n);
      LosslessWritesOk(source, MAX_BLOCK);
      OkIsNeverRefused(Init(source), acts);
      UploadEndToEnd(source, acts);
      assert Within(r, acts) && Completes(source, acts);
    }
  }

  /** 65535 lossless exchanges and the block after them. */
  function ClosingActs(source: seq<byte>): seq<Action>
    requires NumBlocks(source) == MAX_BLOCK + 1
  {
    LosslessActs(source, MAX_BLOCK)
    + [SenderHears(AckPacket(MAX_BLOCK)), ServerHears(BlockPacket(source, MAX_BLOCK + 1), true)]
  }

  lemma OneMore(source: seq<byte>)
    requires NumBlocks(source) == MAX_BLOCK + 1
    ensures Run(Init(source), ClosingActs(source)).server.cleanups > 0
  {
    var n := MAX_BLOCK;
    LosslessRun(source, n);
    var s := Run(Init(source), LosslessActs(source, n));
    RunTwoMore(Init(source), LosslessActs(source, n), SenderHears(AckPacket(n)), ServerHears(BlockPacket(source, n + 1), true));
    SenderSends(s, n + 1);
    DeliverBlock(Step(s, SenderHears(AckPacket(n))), n + 1);
  }

  /** The server has not moved, and all that travels is the first block, too long for one pbuf. */
  ghost predicate Stuck(s: Sys, r: nat) {
    && s.server == START && s.cur <= 1 && !s.done
    && s.acks == {AckPacket(0)}
    && forall p :: p in s.data ==> |p| > r
  }

  lemma ZeroIsNotOne()
    ensures IsCorrectAck(AckPacket(0), 0) && !IsCorrectAck(AckPacket(0), 1)
  {
    assert ExtractBlock(AckPacket(0)) == 0;
  }

  lemma StuckSender(s: Sys, p: seq<byte>, r: nat)
    requires Stuck(s, r) && 4 + Min(DATA_LEN_MAX, |s.source|) > r
    ensures Stuck(Step(s, SenderHears(p)), r) && Step(s, SenderHears(p)).source == s.source
  {
    if p in s.acks {
      ZeroIsNotOne();
      assert p == AckPacket(0);
      if s.cur == 0 {
        BlockLength(s.source, 1);
        SenderSends(s, 1);
      }
    }
  }

  lemma StuckResends(s: Sys, r: nat)
    requires Stuck(s, r) && 4 + Min(DATA_LEN_MAX, |s.source|) > r
    ensures Stuck(Step(s, SenderTimesOut), r) && Step(s, SenderTimesOut).source == s.source
  {
    if s.cur == 1 {
      BlockLength(s.source, 1);
      assert Step(s, SenderTimesOut) == s.(data := s.data + {BlockPacket(s.source, 1)});
    } else {
      assert Step(s, SenderTimesOut) == s;
    }
  }

  lemma StuckStays(s: Sys, a: Action, r: nat)
    requires Stuck(s, r) && Arrives(r, a) && 4 + Min(DATA_LEN_MAX, |s.source|) > r
    ensures Stuck(Step(s, a), r) && Step(s, a).source == s.source
  {
    match a
    case SenderHears(p) => StuckSender(s, p, r);
    case SenderTimesOut => StuckResends(s, r);
    case ServerHears(p, writeOk) =>
      assert p !in s.data;
      assert Step(s, a) == s;
    case ServerHearsChained(p, firstLen) => ChainedIgnored(s, p, firstLen);
  }

  /** A chained packet changes nothing. */
  lemma ChainedIgnored(s: Sys, p: seq<byte>, firstLen: nat)
    ensures Step(s, ServerHearsChained(p, firstLen)) == s
  {
    if p in s.data && 4 <= |p| && s.server.cleanups == 0 && firstLen < |p| {
      var d := Datagram(p, firstLen, |p|);
      assert WrqReplies(s.server, d, true) == [];
      assert (set a | a in WrqReplies(s.server, d, true)) == {};
    }
  }

  /** If even the first block arrives as a chain, the server never leaves its first state: the callback
      drops chained packets, and the sender repeats that block for ever. */
  lemma {:induction false} UploadStuck(s: Sys, acts: seq<Action>, r: nat)
    requires Stuck(s, r) && Within(r, acts) && 4 + Min(DATA_LEN_MAX, |s.source|) > r
    ensures Run(s, acts).server == START
    decreases |acts|
  {
    if acts != [] {
      StuckStays(s, acts[0], r);
      UploadStuck(Step(s, acts[0]), acts[1..], r);
    }
  }

  /** Some run completes the upload if and only if the file fits 16-bit block numbers and each of its
      packets, or at least the only one, fits a single pbuf. */
  lemma UploadCanComplete(source: seq<byte>, r: nat)
    ensures (exists acts :: Within(r, acts) && Completes(source, acts))
            <==> if r >= DATA_PKT_LEN_MAX then |source| <= DATA_LEN_MAX * MAX_BLOCK else |source| + 4 <= r
  {
    if if r >= DATA_PKT_LEN_MAX then |source| <= DATA_LEN_MAX * MAX_BLOCK else |source| + 4 <= r {
      LosslessCompletes(source, r);
    } else if acts :| Within(r, acts) && Completes(source, acts) {
      UploadEndToEnd(source, acts);
      if r < DATA_PKT_LEN_MAX {
        UploadStuck(Init(source), acts, r);
        assert false;
      }
    }
  }

  /** Ethernet, IP and UDP headers in front of a TFTP packet. */
  const HEADERS := 42

  /** Whether a TFTP packet of this length is received into a single pool buffer, and so with the length
      of its first pbuf equal to the total (Pbufs.AllocPool). */
  predicate InOnePbuf(len: nat) {
    PoolBuffers(Raw, HEADERS + len) == 1
  }

  /** In this configuration a pool buffer holds 256 bytes of the frame; so a packet of more than 214
      bytes is a chain, and only files of at most 210 bytes can be uploaded. */
  lemma UploadHere(source: seq<byte>)
    ensures forall len: nat :: InOnePbuf(len) <==> len <= 214
    ensures (exists acts :: Within(214, acts) && Completes(source, acts)) <==> |source| <= 210
  {
    UploadCanComplete(source, 214);
  }

  /** A file of 65535 * 512 + 1 bytes does not survive even a lossless network: its last block
      travels as number 0, closes the connection, and its byte is never stored. */
  lemma UploadTruncates(source: seq<byte>)
    requires |source| == DATA_LEN_MAX * MAX_BLOCK + 1
    ensures exists acts :: var s := Run(Init(source), acts);
              s.server.cleanups > 0 && s.server.file == source[..DATA_LEN_MAX * MAX_BLOCK]
  {
    assert NumBlocks(source) == MAX_BLOCK + 1;
    OneMore(source);
    LosslessWritesOk(source, MAX_BLOCK);
    OkIsNeverRefused(Init(source), ClosingActs(source));
    UploadEndToEnd(source, ClosingActs(source));
    assert Prefix(source, MAX_BLOCK) == source[..DATA_LEN_MAX * MAX_BLOCK];
  }
}
