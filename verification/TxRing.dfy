/** The transmit descriptor ring shared by CPU and DMA, as a transition system: every interleaving of
    the DMA engine with the output path (lwip-1.3.1/port/ethernetif.c:202-218, 429-478). */
module TxRing {
  import opened Bytes
  import opened RingIndex

  /** OWN bit, transmit buffer size and the buffer itself. */
  datatype Desc = Desc(own: bool, size: nat, buf: seq<byte>)

  /** Between frames, or writing one into the buffer at the CPU cursor; w is what the output path has
      gathered so far. */
  datatype Cpu = Idle | Writing(w: seq<byte>)

  /** The ring, both cursors, the output path, the frames handed to the DMA and the frames it sent. */
  datatype Tx = Tx(desc: seq<Desc>, cursor: nat, dma: nat, cpu: Cpu, queued: seq<seq<byte>>, sent: seq<seq<byte>>)

  datatype Action = Begin | Write(seg: seq<byte>) | Commit | Transmit

  function Init(n: nat): Tx {
    Tx(seq(n, _ => Desc(false, 0, seq(BUF_SIZE, _ => 0))), 0, 0, Idle, [], [])
  }

  predicate Shape(s: Tx) {
    s.cursor < |s.desc| && s.dma < |s.desc| && (s.cpu.Writing? ==> |s.cpu.w| <= BUF_SIZE)
    && forall i :: 0 <= i < |s.desc| ==> |s.desc[i].buf| == BUF_SIZE && s.desc[i].size <= BUF_SIZE
  }

  /** memcpy of seg to offset l. */
  function Overlay(buf: seq<byte>, l: nat, seg: seq<byte>): (r: seq<byte>)
    requires l + |seg| <= |buf|
    ensures |r| == |buf|
  {
    buf[..l] + seg + buf[l + |seg|..]
  }

  /** FrameLength is a u16, of which the descriptor keeps 13 bits. */
  function SizeField(l: nat): nat {
    U16(l) % 0x2000
  }

  /** One step of either party, exactly as the code takes it: the buffer is written whoever owns it,
      and only Commit (ETH_TxPkt_ChainMode) looks at the OWN bit. */
  function Step(s: Tx, a: Action): (r: Tx)
    requires Shape(s)
    ensures Shape(r) && |r.desc| == |s.desc|
  {
    var n, d := |s.desc|, s.desc[s.cursor];
    match a
    case Begin =>
      if s.cpu.Idle? then s.(cpu := Writing([])) else s
    case Write(seg) =>
      if s.cpu.Idle? || |s.cpu.w| + |seg| > BUF_SIZE then s else
        s.(desc := s.desc[s.cursor := d.(buf := Overlay(d.buf, |s.cpu.w|, seg))], cpu := Writing(s.cpu.w + seg))
    case Commit =>
      if s.cpu.Idle? then s
      else if d.own then s.(cpu := Idle)
      else
        s.(desc := s.desc[s.cursor := Desc(true, SizeField(|s.cpu.w|), d.buf)], cursor := Next(s.cursor, n),
           cpu := Idle, queued := s.queued + [s.cpu.w])
    case Transmit =>
      var e := s.desc[s.dma];
      if !e.own then s else
        s.(desc := s.desc[s.dma := e.(own := false)], dma := Next(s.dma, n), sent := s.sent + [e.buf[..e.size]])
  }

  function Run(s: Tx, acts: seq<Action>): (r: Tx)
    requires Shape(s)
    ensures Shape(r) && |r.desc| == |s.desc|
    decreases |acts|
  {
    if acts == [] then s else Step(Run(s, acts[..|acts| - 1]), acts[|acts| - 1])
  }

  /** Every output started when the CPU owned the descriptor at its cursor. */
  predicate Disciplined(s: Tx, acts: seq<Action>)
    requires Shape(s)
    decreases |acts|
  {
    acts == [] ||
    var before := acts[..|acts| - 1];
    Disciplined(s, before)
    && (acts[|acts| - 1].Begin? ==> !Run(s, before).desc[Run(s, before).cursor].own)
  }

  // ----- The invariant -----

  function Waiting(s: Tx): int {
    |s.queued| - |s.sent|
  }

  /** Descriptor i is the DMA's exactly when it is among those waiting, and then it holds the frame
      queued for it. */
  ghost predicate SlotRight(s: Tx, i: nat)
    requires Shape(s) && i < |s.desc|
  {
    var d, k := s.desc[i], Off(s.dma, i, |s.desc|);
    && (d.own <==> k < Waiting(s))
    && (d.own ==> d.buf[..d.size] == s.queued[|s.sent| + k])
  }

  /** Descriptors owned by the DMA lie in one circular run that starts at its cursor and ends just
      before the CPU's, and each holds the frame queued for it. */
  ghost predicate Ring(s: Tx)
    requires Shape(s)
  {
    var n, r, t := |s.desc|, Waiting(s), |s.sent|;
    && 0 <= r <= n
    && s.cursor == At(s.dma, r, n)
    && s.sent == s.queued[..t]
    && forall i :: 0 <= i < n ==> SlotRight(s, i)
  }

  /** The buffer at the CPU cursor starts with what was gathered so far. */
  ghost predicate Partial(s: Tx)
    requires Shape(s)
  {
    s.cpu.Writing? ==> s.desc[s.cursor].buf[..|s.cpu.w|] == s.cpu.w
  }

  ghost predicate Inv(s: Tx) {
    Shape(s) && Ring(s) && Partial(s)
  }

  /** The step changes bytes of a frame that the DMA still has to send: a write, not into a buffer of
      the CPU's, that differs from what is there. */
  predicate Damages(s: Tx, a: Action)
    requires Shape(s)
  {
    var d := s.desc[s.cursor];
    && a.Write? && s.cpu.Writing? && |s.cpu.w| + |a.seg| <= BUF_SIZE
    && d.own && Overlay(d.buf, |s.cpu.w|, a.seg)[..d.size] != d.buf[..d.size]
  }

  lemma TransmitKeeps(s: Tx)
    requires Inv(s)
    ensures Inv(Step(s, Transmit))
  {
    var s', n := Step(s, Transmit), |s.desc|;
    assert SlotRight(s, s.dma) && Off(s.dma, s.dma, n) == 0;
    if s.desc[s.dma].own {
      forall i | 0 <= i < n ensures SlotRight(s', i) {
        assert SlotRight(s, i);
        assert i != s.dma ==> Off(s'.dma, i, n) == Off(s.dma, i, n) - 1;
      }
      assert s'.sent == s.queued[..|s.sent| + 1];
    }
  }

  lemma WriteKeeps(s: Tx, seg: seq<byte>)
    requires Inv(s) && !Damages(s, Write(seg))
    ensures Inv(Step(s, Write(seg)))
  {
    var s' := Step(s, Write(seg));
    forall i | 0 <= i < |s.desc| ensures SlotRight(s', i) {
      assert SlotRight(s, i);
    }
  }

  lemma CommitKeeps(s: Tx)
    requires Inv(s)
    ensures Inv(Step(s, Commit))
    ensures s.cpu.Writing? ==>
              Step(s, Commit).queued == if s.desc[s.cursor].own then s.queued else s.queued + [s.cpu.w]
  {
    var s', n := Step(s, Commit), |s.desc|;
    assert SlotRight(s, s.cursor);
    forall i | 0 <= i < n ensures SlotRight(s', i) {
      assert SlotRight(s, i);
      if i == s.cursor && s.cpu.Writing? && !s.desc[i].own {
        assert Off(s.dma, i, n) == Waiting(s);
        assert s'.desc[i].buf[..s'.desc[i].size] == s.cpu.w;
      }
    }
  }

  lemma BeginKeeps(s: Tx)
    requires Inv(s)
    ensures Inv(Step(s, Begin))
  {
    var s' := Step(s, Begin);
    forall i | 0 <= i < |s.desc| ensures SlotRight(s', i) {
      assert SlotRight(s, i);
    }
  }

  lemma StepKeepsInv(s: Tx, a: Action)
    requires Inv(s) && !Damages(s, a)
    ensures Inv(Step(s, a))
  {
    match a
    case Begin => BeginKeeps(s);
    case Write(seg) => WriteKeeps(s, seg);
    case Commit => CommitKeeps(s);
    case Transmit => TransmitKeeps(s);
  }

  /** No step of the run damages a pending frame. */
  predicate Undamaged(s: Tx, acts: seq<Action>)
    requires Shape(s)
    decreases |acts|
  {
    acts == [] ||
    var before := acts[..|acts| - 1];
    Undamaged(s, before) && !Damages(Run(s, before), acts[|acts| - 1])
  }

  lemma {:induction false} RunKeepsInv(n: nat, acts: seq<Action>)
    requires n > 0 && Undamaged(Init(n), acts)
    ensures Inv(Run(Init(n), acts))
    decreases |acts|
  {
    if acts != [] {
      RunKeepsInv(n, acts[..|acts| - 1]);
      StepKeepsInv(Run(Init(n), acts[..|acts| - 1]), acts[|acts| - 1]);
    }
  }

  /** Outputs that start on a descriptor of the CPU's damage nothing: it stays the CPU's until the
      frame is handed over. */
  lemma {:induction false} DisciplinedIsUndamaged(s: Tx, acts: seq<Action>)
    requires Shape(s) && (s.cpu.Writing? ==> !s.desc[s.cursor].own) && Disciplined(s, acts)
    ensures Undamaged(s, acts)
    ensures var r := Run(s, acts); r.cpu.Writing? ==> !r.desc[r.cursor].own
    decreases |acts|
  {
    if acts != [] {
      DisciplinedIsUndamaged(s, acts[..|acts| - 1]);
    }
  }

  // ----- What runs guarantee -----

  /** The frames waiting to be sent, read off the descriptors from the DMA cursor on. */
  function Pending(s: Tx, k: nat): seq<seq<byte>>
    requires Shape(s)
    decreases |s.desc| - k
  {
    var n := |s.desc|;
    if k >= n || !s.desc[At(s.dma, k, n)].own then [] else
      var d := s.desc[At(s.dma, k, n)];
      [d.buf[..d.size]] + Pending(s, k + 1)
  }

  lemma PendingSlot(s: Tx, k: nat)
    requires Shape(s) && Ring(s) && k < |s.desc|
    ensures var d := s.desc[At(s.dma, k, |s.desc|)];
            && (d.own <==> k < Waiting(s))
            && (d.own ==> d.buf[..d.size] == s.queued[|s.sent| + k])
  {
    var i := At(s.dma, k, |s.desc|);
    assert SlotRight(s, i) && Off(s.dma, i, |s.desc|) == k;
  }

  lemma TailSplits(q: seq<seq<byte>>, k: nat)
    requires k < |q|
    ensures q[k..] == [q[k]] + q[k + 1..]
  {
  }

  lemma {:induction false} PendingIsTail(s: Tx, k: nat)
    requires Shape(s) && Ring(s) && k <= Waiting(s)
    ensures Pending(s, k) == s.queued[|s.sent| + k..]
    decreases Waiting(s) - k
  {
    if k < |s.desc| {
      PendingSlot(s, k);
    }
    if k < Waiting(s) {
      PendingIsTail(s, k + 1);
      TailSplits(s.queued, |s.sent| + k);
    }
  }

  /** The frames handed over are, in order, those the DMA sent followed by those still pending. */
  ghost predicate FifoHolds(s: Tx)
    requires Shape(s)
  {
    s.queued == s.sent + Pending(s, 0)
  }

  /** In a run that damages no frame the queue is a FIFO bounded by the ring, which is full exactly when
      the CPU's own descriptor is the DMA's. */
  lemma TxFifo(n: nat, acts: seq<Action>)
    requires n > 0 && Undamaged(Init(n), acts)
    ensures var s := Run(Init(n), acts);
            && FifoHolds(s)
            && |Pending(s, 0)| <= n
            && (|Pending(s, 0)| == n <==> s.desc[s.cursor].own)
  {
    RunKeepsInv(n, acts);
    QueueSplits(Run(Init(n), acts));
  }

  /** Now and at every earlier moment of the run. */
  ghost predicate AlwaysFifo(n: nat, acts: seq<Action>)
    requires n > 0
    decreases |acts|
  {
    FifoHolds(Run(Init(n), acts)) && (acts == [] || AlwaysFifo(n, acts[..|acts| - 1]))
  }

  /** At every moment of a run, however outputs and the DMA interleave, the frames sent and pending are
      the frames handed over, if and only if no write has changed a frame the DMA still had to send. */
  lemma {:induction false} TxFifoExact(n: nat, acts: seq<Action>)
    requires n > 0
    ensures AlwaysFifo(n, acts) <==> Undamaged(Init(n), acts)
    decreases |acts|
  {
    if acts == [] {
      TxFifo(n, acts);
    } else {
      var before, a := acts[..|acts| - 1], acts[|acts| - 1];
      TxFifoExact(n, before);
      if Undamaged(Init(n), acts) {
        TxFifo(n, acts);
      } else if Undamaged(Init(n), before) {
        RunKeepsInv(n, before);
        DamageBreaksFifo(Run(Init(n), before), a);
      }
    }
  }

  lemma DamageBreaksFifo(s: Tx, a: Action)
    requires Inv(s) && Damages(s, a)
    ensures !FifoHolds(Step(s, a))
  {
    var s' := Step(s, a);
    FullRingAtCursor(s);
    QueueSplits(s);
    assert Pending(s, 0)[0] == s.desc[s.dma].buf[..s.desc[s.dma].size];
    assert Pending(s', 0)[0] == s'.desc[s.dma].buf[..s.desc[s.dma].size] != Pending(s, 0)[0];
    assert (s.sent + Pending(s, 0))[|s.sent|] != (s.sent + Pending(s', 0))[|s.sent|];
  }

  lemma QueueSplits(s: Tx)
    requires Inv(s)
    ensures s.queued == s.sent + Pending(s, 0) && |Pending(s, 0)| <= |s.desc|
    ensures |Pending(s, 0)| == |s.desc| <==> s.desc[s.cursor].own
  {
    PendingIsTail(s, 0);
    assert s.queued == s.queued[..|s.sent|] + s.queued[|s.sent|..];
    if Waiting(s) < |s.desc| {
      PendingSlot(s, Waiting(s));
    } else {
      PendingSlot(s, 0);
    }
  }

  // ----- One whole output -----

  /** low_level_output of a chain of segments, with no DMA step in between. */
  function Writes(s: Tx, segs: seq<seq<byte>>): (r: Tx)
    requires Shape(s)
    ensures Shape(r) && |r.desc| == |s.desc|
    decreases |segs|
  {
    if segs == [] then s else Step(Writes(s, segs[..|segs| - 1]), Write(segs[|segs| - 1]))
  }

  function Output(s: Tx, segs: seq<seq<byte>>): (r: Tx)
    requires Shape(s)
    ensures Shape(r) && |r.desc| == |s.desc|
  {
    Step(Writes(Step(s, Begin), segs), Commit)
  }

  lemma {:induction false} WritesEffect(s: Tx, segs: seq<seq<byte>>)
    requires Shape(s) && s.cpu == Writing([]) && |Flatten(segs)| <= BUF_SIZE
    ensures var d := s.desc[s.cursor];
            Writes(s, segs) == s.(desc := s.desc[s.cursor := d.(buf := Overlay(d.buf, 0, Flatten(segs)))],
                                  cpu := Writing(Flatten(segs)))
    decreases |segs|
  {
    var d := s.desc[s.cursor];
    if segs == [] {
      assert Overlay(d.buf, 0, []) == d.buf;
      assert s.desc[s.cursor := d] == s.desc;
    } else {
      var init, last := segs[..|segs| - 1], segs[|segs| - 1];
      assert segs == init + [last];
      FlattenSnoc(init, last);
      WritesEffect(s, init);
      OverlayTwice(d.buf, Flatten(init), last);
    }
  }

  lemma OverlayTwice(buf: seq<byte>, a: seq<byte>, b: seq<byte>)
    requires |a| + |b| <= |buf|
    ensures Overlay(Overlay(buf, 0, a), |a|, b) == Overlay(buf, 0, a + b)
  {
  }

  /** An output that fits a buffer queues exactly its gathered bytes behind what was pending if and
      only if the ring was not full. On a full ring nothing is queued, and the oldest pending frame
      has lost its first bytes to the new one. */
  lemma OutputExact(s: Tx, segs: seq<seq<byte>>)
    requires Inv(s) && s.cpu.Idle? && |Flatten(segs)| <= BUF_SIZE
    ensures var s', f := Output(s, segs), Flatten(segs); var full := s.desc[s.cursor].own;
            && (full <==> |Pending(s, 0)| == |s.desc|)
            && (Pending(s', 0) == Pending(s, 0) + [f] <==> !full)
            && (!full ==> Inv(s') && s'.queued == s.queued + [f])
            && (full ==>
                  && s'.queued == s.queued && s'.cursor == s.cursor && Pending(s, 0) != []
                  && var d := s.desc[s.cursor];
                     Pending(s', 0) == [Overlay(d.buf, 0, f)[..d.size]] + Pending(s, 0)[1..])
  {
    var s1, f := Step(s, Begin), Flatten(segs);
    WritesEffect(s1, segs);
    QueueSplits(s);
    if !s.desc[s.cursor].own {
      StepKeepsInv(s, Begin);
      OutputKeepsInv(s1, segs);
      PendingGrows(s, Output(s, segs), f);
    } else {
      FullRingAtCursor(s);
      var s' := Output(s, segs);
      PendingTailSame(s, s', 1);
    }
  }

  lemma FullRingAtCursor(s: Tx)
    requires Inv(s) && s.desc[s.cursor].own
    ensures Waiting(s) == |s.desc| && s.dma == s.cursor
  {
    assert SlotRight(s, s.cursor);
  }

  lemma {:induction false} OutputKeepsInv(s: Tx, segs: seq<seq<byte>>)
    requires Inv(s) && s.cpu == Writing([]) && !s.desc[s.cursor].own && |Flatten(segs)| <= BUF_SIZE
    ensures Inv(Writes(s, segs)) && Inv(Step(Writes(s, segs), Commit))
    ensures Step(Writes(s, segs), Commit).queued == s.queued + [Flatten(segs)]
    ensures Step(Writes(s, segs), Commit).sent == s.sent
    decreases |segs|
  {
    WritesKeepInv(s, segs);
    WritesEffect(s, segs);
    CommitKeeps(Writes(s, segs));
  }

  lemma {:induction false} WritesKeepInv(s: Tx, segs: seq<seq<byte>>)
    requires Inv(s) && !s.desc[s.cursor].own
    ensures Inv(Writes(s, segs)) && !Writes(s, segs).desc[Writes(s, segs).cursor].own
    decreases |segs|
  {
    if segs != [] {
      WritesKeepInv(s, segs[..|segs| - 1]);
      WriteKeeps(Writes(s, segs[..|segs| - 1]), segs[|segs| - 1]);
    }
  }

  lemma PendingGrows(s: Tx, s': Tx, f: seq<byte>)
    requires Inv(s) && Inv(s') && s'.queued == s.queued + [f] && s'.sent == s.sent
    ensures Pending(s', 0) == Pending(s, 0) + [f]
  {
    PendingIsTail(s, 0);
    PendingIsTail(s', 0);
  }

  /** Pending reads only the descriptors from the k-th on. */
  lemma {:induction false} PendingTailSame(s: Tx, s': Tx, k: nat)
    requires Shape(s) && Shape(s') && |s'.desc| == |s.desc| && s'.dma == s.dma
    requires forall i :: 0 <= i < |s.desc| && i != s.dma ==> s'.desc[i] == s.desc[i]
    requires k > 0
    ensures Pending(s', k) == Pending(s, k)
    decreases |s.desc| - k
  {
    if k < |s.desc| {
      assert At(s.dma, k, |s.desc|) != s.dma;
      PendingTailSame(s, s', k + 1);
    }
  }

  lemma OneByte(a: seq<byte>)
    ensures Flatten([a]) == a
  {
    FlattenSnoc([], a);
    assert [] + [a] == [a];
  }

  lemma FullOutput(s: Tx, c: seq<byte>)
    requires Inv(s) && s.cpu.Idle? && s.desc[s.cursor].own && |c| == 1
    requires Pending(s, 0) != [] ==> |Pending(s, 0)[0]| == 1
    ensures var s' := Output(s, [c]);
            && s'.queued == s.queued && s'.sent == s.sent && Pending(s, 0) != []
            && Pending(s', 0) == [c] + Pending(s, 0)[1..]
            && Step(s', Transmit).sent == s.sent + [c]
  {
    OneByte(c);
    FullRingAtCursor(s);
    OutputExact(s, [c]);
    WritesEffect(Step(s, Begin), [c]);
  }

  /** On a ring of two, a third output before the DMA has sent anything: the third frame is sent in place
      of the first, though it was never queued. */
  lemma FullRingWitness(a: seq<byte>, b: seq<byte>, c: seq<byte>)
    requires |a| == |b| == |c| == 1 && a != c
    ensures var s := Output(Output(Output(Init(2), [a]), [b]), [c]);
            && s.queued == [a, b] && Pending(s, 0) == [c, b]
            && Step(s, Transmit).sent == [c]
  {
    var s2 := TwoOutputs(a, b);
    FullOutput(s2, c);
  }

  lemma TwoOutputs(a: seq<byte>, b: seq<byte>) returns (s: Tx)
    requires |a| == |b| == 1
    ensures s == Output(Output(Init(2), [a]), [b]) && Inv(s) && s.cpu.Idle? && s.desc[s.cursor].own
    ensures s.queued == Pending(s, 0) == [a, b] && s.sent == []
  {
    var s1 := Output(Init(2), [a]);
    s := Output(s1, [b]);
    FirstOutput(Init(2), a, []);
    FirstOutput(s1, b, [a]);
    assert [] + [a] + [b] == [a, b];
  }

  lemma FirstOutput(s: Tx, a: seq<byte>, pending: seq<seq<byte>>)
    requires Inv(s) && s.cpu.Idle? && |s.desc| == 2 && |a| == 1 && s.queued == pending == Pending(s, 0) && |pending| < 2
    ensures var s' := Output(s, [a]);
            && Inv(s') && s'.cpu.Idle? && s'.queued == s.queued + [a] && s'.sent == s.sent == []
            && Pending(s', 0) == pending + [a] && (|pending| == 1 ==> s'.desc[s'.cursor].own)
  {
    OneByte(a);
    QueueSplits(s);
    assert s.queued == s.sent + s.queued;
    OutputExact(s, [a]);
    WritesEffect(Step(s, Begin), [a]);
    QueueSplits(Output(s, [a]));
  }
}
