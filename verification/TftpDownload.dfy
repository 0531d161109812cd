/** The read (download) side of the TFTP server, lwip-1.3.1/port/tftpserver.c:199-307: what the
    callbacks send for every sequence of received packets, and what a client following RFC 1350
    makes of it. */
module TftpDownload {
  import opened Bytes
  import opened TftpCodec
  import opened TftpSend

  /** The connection record, the file and its cursor, and every message built and sent so far. */
  datatype Rrq = Rrq(block: int, dataLen: int, file: seq<byte>, pos: nat, open: bool, sent: seq<seq<byte>>)

  predicate Valid(s: Rrq) {
    s.pos <= |s.file|
  }

  /** file_read fills 512 bytes or what is left; the DATA packet goes out even when that is none. */
  function SendNext(s: Rrq): (r: Rrq)
    requires Valid(s)
    ensures Valid(r)
  {
    var n := Min(DATA_LEN_MAX, |s.file| - s.pos);
    s.(dataLen := n, pos := s.pos + n, sent := s.sent + [DataPacket(U16(s.block), s.file[s.pos..s.pos + n])])
  }

  function Start(file: seq<byte>): (r: Rrq)
    ensures Valid(r)
  {
    SendNext(Rrq(1, 0, file, 0, true, []))
  }

  function RrqStep(s: Rrq, p: seq<byte>): (r: Rrq)
    requires Valid(s) && |p| >= 4
    ensures Valid(r)
  {
    var s1 := if IsCorrectAck(p, s.block) then s.(block := s.block + 1) else s;
    if s1.dataLen < DATA_LEN_MAX then s1.(open := false) else SendNext(s1)
  }

  class ReadConnection {
    var block: int
    var dataLen: int
    const data: array<byte>
    const file: seq<byte>
    var pos: nat
    var open: bool
    var sent: seq<seq<byte>>

    ghost predicate Ok()
      reads this
    {
      data.Length == DATA_PKT_LEN_MAX && pos <= |file|
    }

    ghost function State(): Rrq
      reads this
    {
      Rrq(block, dataLen, file, pos, open, sent)
    }

    /** tftp_process_read once the file is open: block numbers start at 1 and the first block goes
        out at once. */
    constructor (file: seq<byte>)
      ensures Ok() && fresh(data) && State() == Start(file)
      ensures this.file == file && block == 1 && open && dataLen == pos == Min(512, |file|)
      ensures sent == [[0, 3, 0, 1] + file[..pos]]
    {
      block, dataLen, pos, open, sent := 1, 0, 0, true, [];
      data := new byte[DATA_PKT_LEN_MAX];
      this.file := file;
      new;
      SendNextBlock();
    }

    method FileRead(size: nat) returns (n: nat)
      requires Ok() && size <= data.Length
      modifies this`pos, data
      ensures Ok() && n == Min(size, |file| - old(pos)) && pos == old(pos) + n
      ensures data[..n] == file[old(pos)..pos]
    {
      n := if size <= |file| - pos then size else |file| - pos;
      forall i | 0 <= i < n { data[i] := file[pos + i]; }
      pos := pos + n;
    }

    method SendNextBlock()
      requires Ok()
      modifies this, data
      ensures Ok() && State() == SendNext(old(State()))
      ensures block == old(block) && open == old(open)
      ensures dataLen == Min(512, |file| - old(pos)) && pos == old(pos) + dataLen
      ensures sent == old(sent) + [[0, 3, block / 256 % 256, block % 256] + file[old(pos)..pos]]
    {
      dataLen := FileRead(DATA_LEN_MAX);
      var msg := BuildData(block, data[..dataLen]);
      sent := sent + [msg];
    }

    /** rrq_recv_callback on the memory of the received pbuf, whose buffer is at least a header long
        however short the packet in it. */
    method RecvCallback(p: seq<byte>)
      requires Ok() && |p| >= 4
      modifies this, data
      ensures Ok() && State() == RrqStep(old(State()), p)
      ensures block == old(block) + if p[1] == 4 && p[2] as int * 256 + p[3] as int == old(block) then 1 else 0
      ensures old(dataLen) < 512 ==> !open && dataLen == old(dataLen) && pos == old(pos) && sent == old(sent)
      ensures old(dataLen) >= 512 ==>
                && open == old(open) && dataLen == Min(512, |file| - old(pos)) && pos == old(pos) + dataLen
                && sent == old(sent) + [[0, 3, block / 256 % 256, block % 256] + file[old(pos)..pos]]
    {
      if IsCorrectAck(p, block) {
        block := block + 1;
      }
      if dataLen < DATA_LEN_MAX {
        open := false;
        return;
      }
      SendNextBlock();
    }
  }

  /** tftp_process_read: the three outcomes of a read request. */
  method ProcessRead(file: Option<seq<byte>>, allocOk: bool) returns (c: ReadConnection?, reply: seq<byte>)
    ensures c != null <==> file.Some? && allocOk
    ensures c != null ==> fresh(c) && c.Ok() && c.State() == Start(file.value) && c.sent == [reply]
    ensures c != null ==> reply == [0, 3, 0, 1] + file.value[..Min(512, |file.value|)]
    ensures c == null && file.None? ==> reply == [0, 5, 0, 1] + Ascii("file not found") + [0]
    ensures c == null && file.Some? ==> reply == [0, 5, 0, 0] + Ascii("not defined") + [0]
  {
    OnTheWire(0, []);
    c := null;
    if file.None? {
      reply := ErrorReply(FileNotFound);
    } else if !allocOk {
      reply := ErrorReply(NotDefined);
    } else {
      c := new ReadConnection(file.value);
      reply := c.sent[0];
    }
  }

  // ----- Runs -----

  predicate Acks(ps: seq<seq<byte>>) {
    forall i :: 0 <= i < |ps| ==> |ps[i]| >= 4
  }

  /** The connection after the given packets; a closed one no longer listens. */
  function Run(file: seq<byte>, ps: seq<seq<byte>>): (r: Rrq)
    requires Acks(ps)
    ensures Valid(r)
    decreases |ps|
  {
    if ps == [] then Start(file) else
      var s := Run(file, ps[..|ps| - 1]);
      if s.open then RrqStep(s, ps[|ps| - 1]) else s
  }

  /** Packet i is the ACK a client owes for the data last labelled, judged from the packets alone:
      one more than the number of such ACKs before it. */
  predicate Expected(ps: seq<seq<byte>>, i: nat)
    requires Acks(ps) && i < |ps|
    decreases i, 2
  {
    IsCorrectAck(ps[i], 1 + Matches(ps, i))
  }

  function Matches(ps: seq<seq<byte>>, i: nat): (n: nat)
    requires Acks(ps) && i <= |ps|
    ensures n <= i && n <= 0xFFFF
    decreases i, 1
  {
    if i == 0 then 0 else
      Matches(ps, i - 1) + if Expected(ps, i - 1) then 1 else 0
  }

  /** The end of slice c of the file. */
  function Reach(file: seq<byte>, c: nat): (r: nat)
    ensures r <= |file|
  {
    Min(|file|, DATA_LEN_MAX * (c + 1))
  }

  function Slice(file: seq<byte>, c: nat): (r: seq<byte>)
    requires c <= |file| / DATA_LEN_MAX
    ensures |r| == Reach(file, c) - DATA_LEN_MAX * c
    ensures |r| < DATA_LEN_MAX <==> c == |file| / DATA_LEN_MAX
  {
    file[DATA_LEN_MAX * c..Reach(file, c)]
  }

  lemma SliceExtends(file: seq<byte>, c: nat)
    requires c <= |file| / DATA_LEN_MAX
    ensures file[..Reach(file, c)] == file[..DATA_LEN_MAX * c] + Slice(file, c)
  {
  }

  /** The DATA packet of slice c, labelled by the expected ACKs among the first c packets. */
  function SlicePacket(file: seq<byte>, ps: seq<seq<byte>>, c: nat): seq<byte>
    requires Acks(ps) && c <= |ps| && c <= |file| / DATA_LEN_MAX
  {
    DataPacket(U16(1 + Matches(ps, c)), Slice(file, c))
  }

  lemma {:induction false} MatchesPrefix(ps: seq<seq<byte>>, n: nat, i: nat)
    requires Acks(ps) && i <= n <= |ps|
    ensures Acks(ps[..n]) && Matches(ps[..n], i) == Matches(ps, i)
    decreases i
  {
    if i > 0 {
      MatchesPrefix(ps, n, i - 1);
    }
  }

  /** The record of an open connection after c callbacks that brought a expected ACKs. */
  predicate OpenAt(s: Rrq, file: seq<byte>, c: nat, a: nat) {
    s.open && s.file == file && c <= |file| / DATA_LEN_MAX && s.block == 1 + a
    && s.pos == Reach(file, c) && s.dataLen == s.pos - DATA_LEN_MAX * c && |s.sent| == c + 1
  }

  lemma StartAt(file: seq<byte>)
    ensures OpenAt(Start(file), file, 0, 0) && Start(file).sent == [DataPacket(1, Slice(file, 0))]
  {
  }

  lemma StepFrom(s: Rrq, file: seq<byte>, c: nat, a: nat, p: seq<byte>)
    requires OpenAt(s, file, c, a) && |p| >= 4
    ensures var s' := RrqStep(s, p);
            var a' := a + if IsCorrectAck(p, 1 + a) then 1 else 0;
            if c == |file| / DATA_LEN_MAX then !s'.open && s'.file == file && s'.sent == s.sent
            else OpenAt(s', file, c + 1, a') && s'.sent == s.sent + [DataPacket(U16(1 + a'), Slice(file, c + 1))]
  {
  }

  ghost predicate SentLabelled(file: seq<byte>, ps: seq<seq<byte>>, sent: seq<seq<byte>>)
    requires Acks(ps)
  {
    |sent| == Min(|ps|, |file| / DATA_LEN_MAX) + 1
    && forall c :: 0 <= c < |sent| ==> sent[c] == SlicePacket(file, ps, c)
  }

  lemma SentLabelledStep(file: seq<byte>, ps: seq<seq<byte>>, n: nat, sent: seq<seq<byte>>, sent': seq<seq<byte>>)
    requires Acks(ps) && |ps| == n + 1 && SentLabelled(file, ps[..n], sent)
    requires if n < |file| / DATA_LEN_MAX then sent' == sent + [SlicePacket(file, ps, n + 1)] else sent' == sent
    ensures SentLabelled(file, ps, sent')
  {
    forall c | 0 <= c < |sent'| ensures sent'[c] == SlicePacket(file, ps, c) {
      if c < |sent| { MatchesPrefix(ps, n, c); }
    }
  }

  ghost predicate LabelsRight(s: Rrq, file: seq<byte>, ps: seq<seq<byte>>)
    requires Acks(ps)
  {
    var c := |ps|;
    && s.file == file
    && (s.open <==> c <= |file| / DATA_LEN_MAX)
    && (s.open ==> OpenAt(s, file, c, Matches(ps, c)))
    && SentLabelled(file, ps, s.sent)
  }

  lemma LabelsNext(s: Rrq, file: seq<byte>, ps: seq<seq<byte>>, n: nat)
    requires Acks(ps) && |ps| == n + 1 && Valid(s) && LabelsRight(s, file, ps[..n])
    ensures LabelsRight(if s.open then RrqStep(s, ps[n]) else s, file, ps)
  {
    MatchesPrefix(ps, n, n);
    var s' := if s.open then RrqStep(s, ps[n]) else s;
    if s.open {
      StepFrom(s, file, n, Matches(ps, n), ps[n]);
      assert Matches(ps, n + 1) == Matches(ps, n) + if IsCorrectAck(ps[n], 1 + Matches(ps, n)) then 1 else 0;
    }
    SentLabelledStep(file, ps, n, s.sent, s'.sent);
  }

  /** While the connection is open after c callbacks, of which a brought the expected ACK, the last
      DATA is the c-th 512-byte slice of the file under the label 1 + a: the label lags the slice by
      exactly the unexpected ACKs. The connection closes at callback number |file| / 512 + 1,
      whatever the packets contain. */
  lemma {:induction false} DownloadLabels(file: seq<byte>, ps: seq<seq<byte>>)
    requires Acks(ps)
    ensures LabelsRight(Run(file, ps), file, ps)
    decreases |ps|
  {
    if ps == [] {
      StartAt(file);
    } else {
      var n := |ps| - 1;
      DownloadLabels(file, ps[..n]);
      LabelsNext(Run(file, ps[..n]), file, ps, n);
    }
  }

  // ----- The client -----

  /** A client under RFC 1350: it takes the DATA packet whose number is next (modulo 2^16), ignores
      the others, and is finished by a packet shorter than 516 bytes. */
  datatype Client = Client(next: nat, got: seq<byte>, finished: bool)

  function ClientStep(k: Client, p: seq<byte>): Client {
    if |p| < 4 || k.finished || DecodeOp(p) != OP_DATA || ExtractBlock(p) != U16(k.next) then k
    else Client(k.next + 1, k.got + p[DATA_PKT_HDR_LEN..], |p| < DATA_PKT_LEN_MAX)
  }

  /** The client after every datagram the server sent, in order. */
  function ClientRun(sent: seq<seq<byte>>): Client {
    ClientAfter(sent, |sent|)
  }

  /** After the first n of them. */
  function ClientAfter(sent: seq<seq<byte>>, n: nat): Client
    requires n <= |sent|
  {
    if n == 0 then Client(1, [], false) else ClientStep(ClientAfter(sent, n - 1), sent[n - 1])
  }

  /** The first n packets were all expected. */
  predicate AllExpected(ps: seq<seq<byte>>, n: nat)
    requires Acks(ps) && n <= |ps|
  {
    forall i :: 0 <= i < n ==> Expected(ps, i)
  }

  /** No slice with bytes in it, among those up to c, was sent on an unexpected ACK. */
  predicate NoByteMissed(file: seq<byte>, ps: seq<seq<byte>>, c: nat)
    requires Acks(ps) && c <= |ps|
  {
    forall i :: 0 <= i < c && DATA_LEN_MAX * (i + 1) < |file| ==> Expected(ps, i)
  }

  lemma NoByteMissedStep(file: seq<byte>, ps: seq<seq<byte>>, c: nat)
    requires Acks(ps) && 0 < c <= |ps|
    ensures NoByteMissed(file, ps, c) <==>
            NoByteMissed(file, ps, c - 1) && (DATA_LEN_MAX * c < |file| ==> Expected(ps, c - 1))
  {
  }

  /** A client one number behind or level with the label: it takes the packet only when level. */
  lemma ClientTakes(k: Client, number: nat, slice: seq<byte>)
    requires !k.finished && (k.next == number || k.next == number + 1)
    ensures ClientStep(k, DataPacket(U16(number), slice)) ==
            if k.next == number then Client(number + 1, k.got + slice, |slice| < DATA_LEN_MAX) else k
  {
    DataRoundTrip(U16(number), slice, 0, []);
  }

  /** After the packets 0..c the client waits for number 2 + Matches(c): it took slice c exactly when
      the ACK before it was expected, and a slice it misses is lost for good. */
  ghost predicate ClientAt(k: Client, file: seq<byte>, ps: seq<seq<byte>>, c: nat)
    requires Acks(ps) && c <= |ps|
  {
    && k.next == 2 + Matches(ps, c)
    && |k.got| <= Reach(file, c)
    && (|k.got| == Reach(file, c) <==> NoByteMissed(file, ps, c))
    && (|k.got| == Reach(file, c) ==> k.got == file[..Reach(file, c)])
    && (k.finished <==> c == |file| / DATA_LEN_MAX && (c == 0 || Expected(ps, c - 1)))
  }

  lemma ClientAtStart(file: seq<byte>, ps: seq<seq<byte>>)
    requires Acks(ps)
    ensures ClientAt(ClientStep(Client(1, [], false), SlicePacket(file, ps, 0)), file, ps, 0)
  {
    ClientTakes(Client(1, [], false), 1, Slice(file, 0));
    SliceExtends(file, 0);
  }

  lemma ClientAtStep(k: Client, file: seq<byte>, ps: seq<seq<byte>>, c: nat)
    requires Acks(ps) && 0 < c <= |ps| && c <= |file| / DATA_LEN_MAX && ClientAt(k, file, ps, c - 1)
    ensures ClientAt(ClientStep(k, SlicePacket(file, ps, c)), file, ps, c)
  {
    ClientTakes(k, 1 + Matches(ps, c), Slice(file, c));
    NoByteMissedStep(file, ps, c);
    SliceExtends(file, c);
  }

  lemma {:induction false} ClientFollows(file: seq<byte>, ps: seq<seq<byte>>, sent: seq<seq<byte>>, c: nat)
    requires Acks(ps) && SentLabelled(file, ps, sent) && c < |sent|
    ensures ClientAt(ClientAfter(sent, c + 1), file, ps, c)
    decreases c
  {
    assert sent[c] == SlicePacket(file, ps, c);
    if c == 0 {
      assert ClientAfter(sent, 0) == Client(1, [], false);
      ClientAtStart(file, ps);
    } else {
      ClientFollows(file, ps, sent, c - 1);
      ClientAtStep(ClientAfter(sent, c), file, ps, c);
    }
  }

  lemma NoneMissed(file: seq<byte>, ps: seq<seq<byte>>, n: nat)
    requires Acks(ps) && n == |file| / DATA_LEN_MAX <= |ps|
    ensures NoByteMissed(file, ps, n) && (n == 0 || Expected(ps, n - 1)) <==> AllExpected(ps, n)
  {
    if NoByteMissed(file, ps, n) && (n == 0 || Expected(ps, n - 1)) {
      forall i | 0 <= i < n ensures Expected(ps, i) {
        assert i < n - 1 ==> DATA_LEN_MAX * (i + 1) < |file|;
      }
    }
  }

  /** The client was told that it has the whole file, and does have it. */
  ghost predicate Holds(k: Client, file: seq<byte>) {
    k.got == file && k.finished
  }

  lemma AtTheEnd(k: Client, file: seq<byte>, ps: seq<seq<byte>>)
    requires Acks(ps) && |file| / DATA_LEN_MAX <= |ps| && ClientAt(k, file, ps, |file| / DATA_LEN_MAX)
    ensures var n := |file| / DATA_LEN_MAX;
            && (k.got == file <==> NoByteMissed(file, ps, n))
            && (Holds(k, file) <==> AllExpected(ps, n))
  {
    var n := |file| / DATA_LEN_MAX;
    assert Reach(file, n) == |file| && file[..|file|] == file;
    NoneMissed(file, ps, n);
  }

  /** When everything has been sent, what a strict client holds is the file if and only if every
      unexpected ACK came when no byte was left to send; and the client is also told that the file
      is complete if and only if there was no unexpected ACK before the last callback at all. */
  lemma SentExact(file: seq<byte>, ps: seq<seq<byte>>, sent: seq<seq<byte>>)
    requires Acks(ps) && |file| / DATA_LEN_MAX < |ps| && SentLabelled(file, ps, sent)
    ensures ClientRun(sent).got == file <==> NoByteMissed(file, ps, |file| / DATA_LEN_MAX)
    ensures Holds(ClientRun(sent), file) <==> AllExpected(ps, |file| / DATA_LEN_MAX)
  {
    var n := |file| / DATA_LEN_MAX;
    ClientFollows(file, ps, sent, n);
    AtTheEnd(ClientAfter(sent, n + 1), file, ps);
  }

  /** So it is for every connection that has closed. */
  lemma DownloadExact(file: seq<byte>, ps: seq<seq<byte>>)
    requires Acks(ps) && !Run(file, ps).open
    ensures |file| / DATA_LEN_MAX < |ps|
    ensures ClientRun(Run(file, ps).sent).got == file <==> NoByteMissed(file, ps, |file| / DATA_LEN_MAX)
    ensures Holds(ClientRun(Run(file, ps).sent), file) <==> AllExpected(ps, |file| / DATA_LEN_MAX)
  {
    DownloadLabels(file, ps);
    SentExact(file, ps, Run(file, ps).sent);
  }

  lemma SentOnStaleAck(file: seq<byte>, ps: seq<seq<byte>>)
    requires DATA_LEN_MAX < |file| < 2 * DATA_LEN_MAX && Acks(ps) && |ps| == 2 && ps[0] == AckPacket(0)
    ensures var s := Run(file, ps);
            !s.open && |s.sent| == 2 && s.sent[0] == DataPacket(1, Slice(file, 0)) && s.sent[1] == DataPacket(1, Slice(file, 1))
  {
    DownloadLabels(file, ps);
    assert |file| / DATA_LEN_MAX == 1;
    assert Matches(ps, 0) == 0 && !Expected(ps, 0);
    assert Matches(ps, 1) == 0;
    var sent := Run(file, ps).sent;
    assert sent[0] == SlicePacket(file, ps, 0) && sent[1] == SlicePacket(file, ps, 1);
  }

  lemma ClientOnStaleAck(file: seq<byte>, sent: seq<seq<byte>>)
    requires DATA_LEN_MAX < |file| < 2 * DATA_LEN_MAX
    requires |sent| == 2 && sent[0] == DataPacket(1, Slice(file, 0)) && sent[1] == DataPacket(1, Slice(file, 1))
    ensures ClientRun(sent) == Client(2, Slice(file, 0), false)
  {
    var k := ClientAfter(sent, 0);
    ClientTakes(k, 1, Slice(file, 0));
    assert ClientAfter(sent, 1) == ClientStep(k, sent[0]) == Client(2, Slice(file, 0), false);
    ClientTakes(Client(2, Slice(file, 0), false), 1, Slice(file, 1));
  }

  /** A repeated ACK of the request in place of the first one, and the second half of a two-slice file
      is lost, whatever comes next. */
  lemma StaleAckWitness(file: seq<byte>, ps: seq<seq<byte>>)
    requires DATA_LEN_MAX < |file| < 2 * DATA_LEN_MAX && Acks(ps) && |ps| == 2 && ps[0] == AckPacket(0)
    ensures !Run(file, ps).open && ClientRun(Run(file, ps).sent) == Client(2, file[..DATA_LEN_MAX], false)
  {
    SentOnStaleAck(file, ps);
    ClientOnStaleAck(file, Run(file, ps).sent);
  }

  // ----- Which downloads can complete at all -----

  /** What the client may get of the messages sent when the first pbuf of each has room for r bytes. */
  predicate Arrives(r: nat, sent: seq<seq<byte>>, got: seq<seq<byte>>) {
    |got| == |sent| && forall i :: 0 <= i < |sent| ==> LeavesAs(r, sent[i], got[i])
  }

  /** The server closed and the client finished holding the whole file, whatever the pool memory held. */
  ghost predicate Downloaded(file: seq<byte>, ps: seq<seq<byte>>, r: nat) {
    && Acks(ps) && !Run(file, ps).open
    && forall got :: Arrives(r, Run(file, ps).sent, got) ==> Holds(ClientRun(got), file)
  }

  /** Every message a connection ever sends fits the first pbuf. */
  ghost predicate MessagesFit(file: seq<byte>, r: nat) {
    forall ps, i {:trigger Run(file, ps).sent[i]} :: Acks(ps) && 0 <= i < |Run(file, ps).sent| ==> |Run(file, ps).sent[i]| <= r
  }

  /** The longest message of a download is its first. */
  function Longest(file: seq<byte>): nat {
    4 + Min(DATA_LEN_MAX, |file|)
  }

  lemma MessageLength(file: seq<byte>, ps: seq<seq<byte>>, i: nat)
    requires Acks(ps) && i < |Run(file, ps).sent|
    ensures |Run(file, ps).sent[i]| <= Longest(file)
    ensures i == 0 ==> Run(file, ps).sent[0] == DataPacket(1, Slice(file, 0)) && |Run(file, ps).sent[0]| == Longest(file)
  {
    DownloadLabels(file, ps);
    assert Run(file, ps).sent[i] == SlicePacket(file, ps, i);
  }

  lemma MessagesFitExact(file: seq<byte>, r: nat)
    ensures MessagesFit(file, r) <==> Longest(file) <= r
  {
    forall ps: seq<seq<byte>>, i | Acks(ps) && 0 <= i < |Run(file, ps).sent|
      ensures |Run(file, ps).sent[i]| <= Longest(file)
    {
      MessageLength(file, ps, i);
    }
    StartAt(file);
    MessageLength(file, [], 0);
  }

  lemma ArrivesIntact(r: nat, sent: seq<seq<byte>>, got: seq<seq<byte>>)
    requires Arrives(r, sent, got) && forall i :: 0 <= i < |sent| ==> |sent[i]| <= r
    ensures got == sent
  {
    forall i | 0 <= i < |sent| ensures got[i] == sent[i] {
      assert LeavesAs(r, sent[i], got[i]);
      IntactExact(r, sent[i]);
    }
  }

  /** With every message intact, a client is served exactly by the expected ACKs. */
  lemma DownloadedWhole(file: seq<byte>, ps: seq<seq<byte>>, r: nat)
    requires Acks(ps) && !Run(file, ps).open && Longest(file) <= r
    requires |file| / DATA_LEN_MAX <= |ps| && AllExpected(ps, |file| / DATA_LEN_MAX)
    ensures Downloaded(file, ps, r)
  {
    var sent := Run(file, ps).sent;
    DownloadExact(file, ps);
    forall got | Arrives(r, sent, got) ensures Holds(ClientRun(got), file) {
      forall i | 0 <= i < |sent| ensures |sent[i]| <= r { MessageLength(file, ps, i); }
      ArrivesIntact(r, sent, got);
    }
  }

  lemma {:induction false} ClientKeeps(got: seq<seq<byte>>, m: nat, n: nat)
    requires m <= n <= |got|
    ensures ClientAfter(got, m).got <= ClientAfter(got, n).got
    decreases n
  {
    if m < n {
      ClientKeeps(got, m, n - 1);
    }
  }

  /** The first message, its last byte changed, is no packet a client could end well on. */
  lemma SpoiltFirst(file: seq<byte>)
    ensures var k := ClientStep(Client(1, [], false), Spoilt(DataPacket(1, Slice(file, 0))));
            if file == [] then !k.finished else |k.got| == |Slice(file, 0)| && k.got != Slice(file, 0)
  {
    var slice := Slice(file, 0);
    var p := DataPacket(1, slice);
    var wire := Spoilt(p);
    if file == [] {
      assert ExtractBlock(wire) != 1;
    } else {
      assert p == DataPacket(1, slice) && wire[..4] == p[..4];
      assert p[4..] == slice;
      assert wire[|p| - 1] != p[|p| - 1];
      assert wire[4..][|slice| - 1] != slice[|slice| - 1];
    }
  }

  lemma Unserved(file: seq<byte>, ps: seq<seq<byte>>, r: nat)
    requires Acks(ps) && !Run(file, ps).open && r < Longest(file)
    ensures !Downloaded(file, ps, r)
  {
    var sent := Run(file, ps).sent;
    DownloadLabels(file, ps);
    MessageLength(file, ps, 0);
    var got := sent[0 := Spoilt(sent[0])];
    SpoiltLeaves(r, sent[0]);
    forall i | 0 <= i < |sent| ensures LeavesAs(r, sent[i], got[i]) { }
    assert Arrives(r, sent, got);
    SpoiltFirst(file);
    assert ClientAfter(got, 0) == Client(1, [], false);
    var k := ClientAfter(got, 1);
    assert k == ClientStep(Client(1, [], false), got[0]);
    if file == [] {
      assert |got| == 1;
    } else {
      ClientKeeps(got, 1, |got|);
      assert Slice(file, 0) == file[..|Slice(file, 0)|];
    }
    assert !Holds(ClientRun(got), file);
  }

  /** Some reply sequence lets a client finish with the whole file, whatever the pool memory holds, if and
      only if the first message fits the first pbuf and the file has at most 65536 blocks: block 65536
      itself still travels, as number 0, but its ACK is never recognised because the server compares an
      int with 16 bits. */
  lemma DownloadLimit(file: seq<byte>, r: nat)
    ensures (exists ps :: Downloaded(file, ps, r))
            <==> if r >= DATA_PKT_LEN_MAX then |file| < DATA_LEN_MAX * 0x1_0000 else |file| + 4 <= r
  {
    if |file| < DATA_LEN_MAX * 0x1_0000 && Longest(file) <= r {
      ServedByGoodAcks(file, r);
    } else if ps :| Downloaded(file, ps, r) {
      if r < Longest(file) {
        Unserved(file, ps, r);
      }
      BlocksCounted(file, ps, r);
    }
  }

  lemma ServedByGoodAcks(file: seq<byte>, r: nat)
    requires |file| < DATA_LEN_MAX * 0x1_0000 && Longest(file) <= r
    ensures exists ps :: Downloaded(file, ps, r)
  {
    var n := |file| / DATA_LEN_MAX;
    var ps := GoodAcks(n) + [AckPacket(0)];
    GoodAcksExpected(ps, n, n);
    DownloadLabels(file, ps);
    DownloadedWhole(file, ps, r);
  }

  lemma BlocksCounted(file: seq<byte>, ps: seq<seq<byte>>, r: nat)
    requires Downloaded(file, ps, r)
    ensures |file| < DATA_LEN_MAX * 0x1_0000
  {
    var n := |file| / DATA_LEN_MAX;
    var sent := Run(file, ps).sent;
    assert Arrives(r, sent, sent);
    assert Holds(ClientRun(sent), file);
    DownloadExact(file, ps);
    AllExpectedCounts(ps, n);
  }

  /** In this configuration the first pbuf takes 200 bytes, and so exactly the files of at most 196 bytes
      can be downloaded; of a longer one at least the first message does not fit. */
  lemma DownloadHere(file: seq<byte>)
    ensures (exists ps :: Downloaded(file, ps, SEND_ROOM)) <==> |file| <= 196
    ensures MessagesFit(file, SEND_ROOM) <==> |file| <= 196
  {
    SendRoom();
    DownloadLimit(file, SEND_ROOM);
    MessagesFitExact(file, SEND_ROOM);
  }

  function GoodAcks(n: nat): (ps: seq<seq<byte>>)
    requires n <= 0xFFFF
    ensures |ps| == n && Acks(ps)
  {
    seq(n, i requires 0 <= i < n => AckPacket(i + 1))
  }

  lemma {:induction false} GoodAcksExpected(ps: seq<seq<byte>>, n: nat, i: nat)
    requires Acks(ps) && i <= n <= 0xFFFF && n <= |ps| && ps[..n] == GoodAcks(n)
    ensures Matches(ps, i) == i && AllExpected(ps, i)
    decreases i
  {
    if i > 0 {
      GoodAcksExpected(ps, n, i - 1);
      assert ps[i - 1] == ps[..n][i - 1] == AckPacket(i);
      assert IsCorrectAck(ps[i - 1], i);
    }
  }

  lemma {:induction false} AllExpectedCounts(ps: seq<seq<byte>>, n: nat)
    requires Acks(ps) && n <= |ps| && AllExpected(ps, n)
    ensures Matches(ps, n) == n
    decreases n
  {
    if n > 0 {
      AllExpectedCounts(ps, n - 1);
      assert Expected(ps, n - 1);
    }
  }
}
