/** The transmit driver over real descriptors, buffers and pbufs: lwip-1.3.1/port/ethernetif.c:202-218,
    429-478. The DMA engine sends frames at every pause between two CPU statements, as often as its
    tape says; every execution of the methods is a run of TxRing. */
module EthTx {
  import opened Bytes
  import opened RingIndex
  import opened TxRing
  import opened Pbufs

  datatype Status = Status(own: bool, size: nat)

  lemma RunSnoc(s: Tx, acts: seq<Action>, a: Action)
    requires Shape(s)
    ensures Run(s, acts + [a]) == Step(Run(s, acts), a)
    ensures Disciplined(s, acts + [a]) <==> Disciplined(s, acts) && (a.Begin? ==> !Run(s, acts).desc[Run(s, acts).cursor].own)
  {
  }

  lemma PrefixFits(segs: seq<seq<byte>>, k: nat)
    requires k < |segs|
    ensures Flatten(segs[..k + 1]) == Flatten(segs[..k]) + segs[k]
    ensures |Flatten(segs[..k + 1])| <= |Flatten(segs)|
  {
    FlattenNext(segs, k);
    FlattenAppend(segs[..k + 1], segs[k + 1..]);
    assert segs == segs[..k + 1] + segs[k + 1..];
  }

  class TxDriver {
    const status: array<Status>
    const txBuff: seq<array<byte>>
    var cursor: nat
    var dma: nat
    var tape: seq<nat>
    ghost var sys: Tx
    ghost var trace: seq<Action>

    ghost predicate Valid()
      reads this, status, txBuff
    {
      && 0 < status.Length == |txBuff| == |sys.desc|
      && sys == Run(Init(status.Length), trace)
      && (forall i, j :: 0 <= i < j < |txBuff| ==> txBuff[i] != txBuff[j])
      && (forall i :: 0 <= i < |txBuff| ==>
            txBuff[i].Length == BUF_SIZE && sys.desc[i] == Desc(status[i].own, status[i].size, txBuff[i][..]))
      && sys.cursor == cursor && sys.dma == dma
    }

    /** Whether every output so far started on a descriptor of the CPU's. */
    ghost predicate Orderly()
      requires Valid()
      reads this, status, txBuff
    {
      Disciplined(Init(status.Length), trace)
    }

    /** ETH_DMATxDescChainInit: every descriptor starts out with the CPU, both cursors at the first. */
    constructor (n: nat, tape: seq<nat>)
      requires n > 0
      ensures Valid() && Orderly() && sys == Init(n) && this.tape == tape
      ensures fresh(status) && fresh(txBuff)
      ensures cursor == 0 && dma == 0 && status.Length == |txBuff| == n
      ensures forall i :: 0 <= i < n ==> !status[i].own && txBuff[i].Length == 1520
    {
      var buffers := NewBuffers(n);
      status := new Status[n](_ => Status(false, 0));
      txBuff := buffers;
      cursor, dma := 0, 0;
      this.tape := tape;
      sys, trace := Init(n), [];
    }

    static method NewBuffers(n: nat) returns (buffers: seq<array<byte>>)
      ensures |buffers| == n && fresh(buffers)
      ensures forall i, j :: 0 <= i < j < n ==> buffers[i] != buffers[j]
      ensures forall i :: 0 <= i < n ==> buffers[i].Length == BUF_SIZE && buffers[i][..] == seq(BUF_SIZE, _ => 0)
    {
      buffers := [];
      for i := 0 to n
        invariant |buffers| == i && forall k :: 0 <= k < i ==> fresh(buffers[k])
        invariant forall k, j :: 0 <= k < j < i ==> buffers[k] != buffers[j]
        invariant forall k :: 0 <= k < i ==> buffers[k].Length == BUF_SIZE && buffers[k][..] == seq(BUF_SIZE, _ => 0)
      {
        var b := new byte[BUF_SIZE](_ => 0);
        assert b[..] == seq(BUF_SIZE, _ => 0);
        buffers := buffers + [b];
      }
    }

    lemma OrderlyIsUndamaged()
      requires Valid() && Orderly()
      ensures Undamaged(Init(status.Length), trace)
    {
      DisciplinedIsUndamaged(Init(status.Length), trace);
    }

    /** Unless a write damaged a pending frame, what the DMA sent and still holds is, in order, what was
        gathered. */
    lemma QueueIsSentAndPending()
      requires Valid() && Undamaged(Init(status.Length), trace)
      ensures sys.queued == sys.sent + Pending(sys, 0)
      ensures cursor < status.Length && (|Pending(sys, 0)| == status.Length <==> status[cursor].own)
    {
      TxFifo(status.Length, trace);
    }

    ghost method Record(a: Action)
      requires status.Length > 0 && sys == Run(Init(status.Length), trace)
      modifies this`sys, this`trace
      ensures sys == Step(old(sys), a) && trace == old(trace) + [a] && sys == Run(Init(status.Length), trace)
      ensures Disciplined(Init(status.Length), trace) <==>
                Disciplined(Init(status.Length), old(trace)) && (a.Begin? ==> !old(sys).desc[old(sys).cursor].own)
    {
      RunSnoc(Init(status.Length), trace, a);
      sys := Step(sys, a);
      trace := trace + [a];
    }

    /** The DMA engine sends the frame at its cursor, if it owns one. */
    method DmaSend()
      requires Valid()
      modifies status, this`dma, this`sys, this`trace
      ensures Valid() && sys == Step(old(sys), Transmit) && (Orderly() <==> old(Orderly()))
      ensures if !old(status[dma].own) then sys.sent == old(sys.sent) && dma == old(dma) else
                && !status[old(dma)].own && dma == (if old(dma) + 1 < status.Length then old(dma) + 1 else 0)
                && |sys.sent| == old(|sys.sent|) + 1 && sys.sent[..old(|sys.sent|)] == old(sys.sent)
                && var n := old(status[dma]).size; n <= 1520 && sys.sent[old(|sys.sent|)] == txBuff[old(dma)][..n]
    {
      if status[dma].own {
        status[dma] := Status(false, status[dma].size);
        dma := Next(dma, status.Length);
      }
      Record(Transmit);
    }

    /** A pause of the CPU: it may give the CPU descriptors back, and changes nothing else. */
    method Pause()
      requires Valid()
      modifies status, this`dma, this`tape, this`sys, this`trace
      ensures Valid() && (Orderly() <==> old(Orderly()))
      ensures sys.cpu == old(sys.cpu) && sys.queued == old(sys.queued) && old(sys.sent) <= sys.sent
      ensures forall i :: 0 <= i < status.Length && !old(status[i].own) ==> !status[i].own
    {
      if tape == [] {
        return;
      }
      var n := tape[0];
      tape := tape[1..];
      for k := 0 to n
        invariant Valid() && (Orderly() <==> old(Orderly()))
        invariant sys.cpu == old(sys.cpu) && sys.queued == old(sys.queued) && old(sys.sent) <= sys.sent
        invariant forall i :: 0 <= i < status.Length && !old(status[i].own) ==> !status[i].own
      {
        DmaSend();
      }
    }

    /** ETH_TxPkt_ChainMode: fails exactly when the DMA owns the descriptor, and then changes nothing;
        otherwise the frame gathered so far is queued and the cursor moves on. */
    method TxPktChainMode(frameLength: int) returns (success: bool)
      requires Valid() && sys.cpu.Writing? && frameLength == |sys.cpu.w|
      modifies status, this`cursor, this`sys, this`trace
      ensures Valid() && sys == Step(old(sys), Commit) && (Orderly() <==> old(Orderly()))
      ensures success <==> !old(status[cursor].own)
      ensures !success ==> status[..] == old(status[..]) && cursor == old(cursor) && sys.queued == old(sys.queued)
      ensures success ==> sys.queued == old(sys.queued) + [old(sys.cpu).w] && status[old(cursor)] == Status(true, frameLength)
      ensures forall i :: 0 <= i < status.Length && i != old(cursor) ==> status[i] == old(status[i])
      ensures success ==> cursor == if old(cursor) + 1 < status.Length then old(cursor) + 1 else 0
    {
      if status[cursor].own {
        success := false;
      } else {
        status[cursor] := Status(true, U16(frameLength) % 0x2000);
        cursor := Next(cursor, status.Length);
        success := true;
      }
      Record(Commit);
    }

    /** memcpy of one segment into the buffer at the CPU cursor. */
    method MemCpyOut(l: nat, payload: array<byte>, len: nat)
      requires Valid() && sys.cpu.Writing? && l == |sys.cpu.w| && l + len <= BUF_SIZE
      requires len <= payload.Length && payload !in txBuff
      modifies txBuff[cursor], this`sys, this`trace
      ensures Valid() && (Orderly() <==> old(Orderly()))
      ensures sys.cpu == Writing(old(sys.cpu).w + payload[..len])
      ensures sys.queued == old(sys.queued) && sys.sent == old(sys.sent)
      ensures txBuff[cursor].Length == BUF_SIZE
      ensures txBuff[cursor][..] == old(txBuff[cursor][..l]) + payload[..len] + old(txBuff[cursor][l + len..])
    {
      var buffer := txBuff[cursor];
      ghost var before := buffer[..];
      forall x | 0 <= x < len { buffer[l + x] := payload[x]; }
      assert buffer[..] == Overlay(before, l, payload[..len]);
      Record(Write(payload[..len]));
    }

    /** The buffer at the CPU cursor starts with these bytes. */
    ghost predicate Buffered(w: seq<byte>)
      reads this`cursor, txBuff
    {
      cursor < |txBuff| && |w| <= txBuff[cursor].Length && txBuff[cursor][..|w|] == w
    }

    ghost method RecordBegin()
      requires Valid() && sys.cpu.Idle?
      modifies this`sys, this`trace
      ensures Valid() && sys == old(sys).(cpu := Writing([]))
      ensures Orderly() <==> old(Orderly()) && !status[cursor].own
    {
      Record(Begin);
    }

    /** low_level_output: gathers the chain into the buffer at the cursor and hands it over. Started
        on a descriptor of the CPU's, it queues exactly the chain's bytes, whatever the DMA sends
        meanwhile: the descriptor is the DMA's, says how many they are and its buffer starts with them,
        and the cursor has moved on. It reports success in every case. */
    method LowLevelOutput(p: Pbuf?, ghost chain: seq<Pbuf>, ghost lens: seq<nat>, ghost mem: seq<array<byte>>,
                          ghost segs: seq<seq<byte>>)
      requires Valid() && sys.cpu.Idle?
      requires Carries(p, chain, lens, mem, segs) && |Flatten(segs)| <= BUF_SIZE
      requires forall i :: 0 <= i < |mem| ==> mem[i] !in txBuff
      modifies this, status, txBuff
      ensures Valid() && sys.cpu.Idle?
      ensures Orderly() <==> old(Orderly() && !status[cursor].own)
      ensures !old(status[cursor].own) ==> sys.queued == old(sys.queued) + [Flatten(segs)]
      ensures sys.queued == old(sys.queued) || sys.queued == old(sys.queued) + [Flatten(segs)]
      ensures old(sys.sent) <= sys.sent
      ensures var i, f := old(cursor), Flatten(segs);
              !old(status[i].own) ==>
                && status[i] == Status(true, |f|) && |f| <= txBuff[i].Length && txBuff[i][..|f|] == f
                && cursor == if i + 1 < status.Length then i + 1 else 0
    {
      RecordBegin();
      var l := Gather(p, chain, lens, mem, segs);
      var success := TxPktChainMode(l);
    }

    /** The gathering loop with k segments behind it, q in front of it and l bytes gathered. */
    ghost predicate Gathering(p: Pbuf?, q: Pbuf?, l: nat, chain: seq<Pbuf>, lens: seq<nat>, mem: seq<array<byte>>,
                              segs: seq<seq<byte>>, k: nat)
      reads this`sys, this`cursor, chain, mem, txBuff
    {
      && Carries(p, chain, lens, mem, segs) && k <= |chain| && q == (if k < |chain| then chain[k] else null)
      && sys.cpu == Writing(Flatten(segs[..k])) && l == |Flatten(segs[..k])| && Buffered(Flatten(segs[..k]))
    }

    /** One turn of the gathering loop: a pause, a memcpy, and on to the next segment. */
    method GatherNext(ghost p: Pbuf?, q: Pbuf, l: nat, ghost chain: seq<Pbuf>, ghost lens: seq<nat>,
                      ghost mem: seq<array<byte>>, ghost segs: seq<seq<byte>>, ghost k: nat)
      returns (q': Pbuf?, l': nat)
      requires Valid() && Gathering(p, q, l, chain, lens, mem, segs, k) && |Flatten(segs)| <= BUF_SIZE
      requires forall i :: 0 <= i < |mem| ==> mem[i] !in txBuff
      modifies status, txBuff[cursor], this`dma, this`tape, this`sys, this`trace
      ensures Valid() && Gathering(p, q', l', chain, lens, mem, segs, k + 1)
      ensures (Orderly() <==> old(Orderly())) && cursor == old(cursor)
      ensures sys.queued == old(sys.queued) && old(sys.sent) <= sys.sent
      ensures !old(status[cursor].own) ==> !status[cursor].own
    {
      PrefixFits(segs, k);
      q' := q.next;
      Pause();
      MemCpyOut(l, q.payload, q.len);
      l' := l + q.len;
    }

    /** The gathering loop, with a pause before each memcpy. */
    method Gather(p: Pbuf?, ghost chain: seq<Pbuf>, ghost lens: seq<nat>, ghost mem: seq<array<byte>>,
                  ghost segs: seq<seq<byte>>) returns (l: nat)
      requires Valid() && Gathering(p, p, 0, chain, lens, mem, segs, 0) && |Flatten(segs)| <= BUF_SIZE
      requires forall i :: 0 <= i < |mem| ==> mem[i] !in txBuff
      modifies status, txBuff, this`dma, this`tape, this`sys, this`trace
      ensures Valid() && Gathering(p, null, l, chain, lens, mem, segs, |segs|)
      ensures sys.cpu == Writing(Flatten(segs)) && l == |Flatten(segs)| && Buffered(Flatten(segs))
      ensures (Orderly() <==> old(Orderly())) && cursor == old(cursor)
      ensures sys.queued == old(sys.queued) && old(sys.sent) <= sys.sent
      ensures !old(status[cursor].own) ==> !status[cursor].own
    {
      var q := p;
      l := 0;
      ghost var k := 0;
      while q != null
        invariant Valid() && Gathering(p, q, l, chain, lens, mem, segs, k)
        invariant (Orderly() <==> old(Orderly())) && cursor == old(cursor)
        invariant sys.queued == old(sys.queued) && old(sys.sent) <= sys.sent
        invariant !old(status[cursor].own) ==> !status[cursor].own
        decreases |chain| - k
      {
        q, l := GatherNext(p, q, l, chain, lens, mem, segs, k);
        k := k + 1;
      }
      Gathered(p, l, chain, lens, mem, segs);
    }

    lemma Gathered(p: Pbuf?, l: nat, chain: seq<Pbuf>, lens: seq<nat>, mem: seq<array<byte>>, segs: seq<seq<byte>>)
      requires Gathering(p, null, l, chain, lens, mem, segs, |segs|)
      ensures sys.cpu == Writing(Flatten(segs)) && l == |Flatten(segs)| && Buffered(Flatten(segs))
    {
      assert segs[..|segs|] == segs;
    }
  }
}

/** Scatter, then gather: a frame received into a chain and put out again comes back byte for byte. */
module EthRoundTrip {
  import opened Bytes
  import R = RxRing
  import opened EthRx
  import opened EthTx
  import opened Pbufs

  method Forward(rx: RxDriver, tx: TxDriver, free: nat) returns (forwarded: bool)
    requires rx.Valid() && rx.sys.cpu.Idle? && !rx.desc[rx.get].own
    requires tx.Valid() && tx.sys.cpu.Idle? && !tx.status[tx.cursor].own
    modifies rx, rx.desc, tx, tx.status, tx.txBuff
    ensures rx.Valid() && tx.Valid()
    ensures R.FromDma(old(rx.desc[rx.get]))
    ensures forwarded <==> PoolBuffers(Raw, R.FrameLen(old(rx.desc[rx.get]))) <= free
    ensures forwarded ==> tx.sys.queued == old(tx.sys.queued) + [R.Payload(old(rx.desc[rx.get]))]
    ensures var d := old(rx.desc[rx.get]);
            forwarded && !d.es && d.fs && d.ls ==> tx.sys.queued == old(tx.sys.queued) + [d.buf[..d.fl - 4]]
  {
    var p, chain, lens, mem, got := rx.LowLevelInput(free);
    forwarded := p != null;
    if forwarded {
      tx.LowLevelOutput(p, chain, lens, mem, got);
    }
  }
}
