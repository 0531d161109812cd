/** The receive driver over real descriptors and pbufs: lwip-1.3.1/port/ethernetif.c:228-272, 369-419
    and the drain loop of usr/stm32f10x_it.c:169-182. The DMA engine acts at every pause between two
    CPU statements, as often as its tape says; every execution of the methods is a run of RxRing. */
module EthRx {
  import opened Bytes
  import opened RingIndex
  import opened RxRing
  import opened Pbufs

  datatype Frame = Frame(length: nat, descriptor: Option<nat>)

  /** What the DMA still has to do. */
  function Total(tape: seq<seq<Desc>>): nat {
    if tape == [] then 0 else |tape[0]| + Total(tape[1..])
  }

  lemma Reachable(n: nat, acts: seq<Action>)
    requires n > 0
    ensures Inv(Run(Init(n), acts))
  {
    InvInit(n);
    RunKeepsInv(Init(n), acts);
  }

  /** The CPU holds descriptor i with frame d in it and has copied the segments got. */
  predicate HoldsFrame(s: Rx, i: nat, d: Desc, lens: seq<nat>, got: seq<seq<byte>>) {
    && i < |s.desc| && s.desc[i] == d && FromDma(d)
    && Sum(lens) == FrameLen(d) && |got| <= |lens|
    && s.cpu == Filling(i, FrameLen(d), Some(lens), got)
  }

  lemma SegmentFits(d: Desc, lens: seq<nat>, got: seq<seq<byte>>)
    requires FromDma(d) && Sum(lens) == FrameLen(d) && |got| < |lens|
    ensures Sum(lens[..|got|]) + lens[|got|] == Sum(lens[..|got| + 1]) <= |d.buf|
  {
    SumPrefix(lens, |got| + 1);
    assert lens[..|got| + 1][..|got|] == lens[..|got|];
  }

  lemma CopyStep(s: Rx, i: nat, d: Desc, lens: seq<nat>, got: seq<seq<byte>>, l: nat)
    requires Shape(s) && HoldsFrame(s, i, d, lens, got) && |got| < |lens| && l == Sum(lens[..|got|])
    ensures l + lens[|got|] <= |d.buf|
    ensures Step(s, Copy) == s.(cpu := Filling(i, FrameLen(d), Some(lens), got + [d.buf[l..l + lens[|got|]]]))
  {
    SegmentFits(d, lens, got);
  }

  lemma DeliveredWhole(s: Rx, d: Desc)
    requires Inv(s) && CanRelease(s) && s.desc[s.cpu.d] == d
    ensures FromDma(d) && (s.cpu.lens.Some? ==> Flatten(s.cpu.got) == Payload(d))
  {
    if s.cpu.lens.Some? {
      assert s.cpu.lens.value[..|s.cpu.got|] == s.cpu.lens.value;
      assert Payload(d)[..s.cpu.len] == Payload(d);
    }
  }

  /** What the stack gets of a frame when so many pool buffers are free: all of it or nothing. */
  function Delivery(d: Desc, free: nat): Option<seq<byte>>
    requires FromDma(d)
  {
    if PoolBuffers(Raw, FrameLen(d)) <= free then Some(Payload(d)) else None
  }

  /** A series of calls took these frames, one each, and delivered each as its own free count allowed. */
  predicate Series(frames: seq<Desc>, deliveries: seq<Option<seq<byte>>>, pool: nat -> nat) {
    && |frames| == |deliveries|
    && forall j :: 0 <= j < |frames| ==> Good(frames[j]) && FromDma(frames[j]) && deliveries[j] == Delivery(frames[j], pool(j))
  }

  lemma SeriesSnoc(taken: seq<Desc>, delivered: seq<Option<seq<byte>>>, frames: seq<Desc>,
                   deliveries: seq<Option<seq<byte>>>, pool: nat -> nat, d: Desc)
    requires Series(frames, deliveries, pool) && Good(d) && FromDma(d)
    ensures var x := Delivery(d, pool(|frames|));
            && Series(frames + [d], deliveries + [x], pool)
            && taken + (frames + [d]) == (taken + frames) + [d] && delivered + (deliveries + [x]) == (delivered + deliveries) + [x]
    ensures AllGood(taken + frames) ==> AllGood(taken + (frames + [d]))
  {
  }

  class RxDriver {
    const desc: array<Desc>
    var get: nat
    var dma: nat
    var tape: seq<seq<Desc>>
    ghost var sys: Rx
    ghost var trace: seq<Action>

    ghost predicate Valid()
      reads this, desc
    {
      && desc.Length > 0
      && sys == Run(Init(desc.Length), trace)
      && sys.desc == desc[..] && sys.get == get && sys.dma == dma
    }

    /** ETH_DMARxDescChainInit: every descriptor starts out with the DMA, both cursors at the first. */
    constructor (n: nat, tape: seq<seq<Desc>>)
      requires n > 0
      ensures Valid() && fresh(desc) && desc.Length == n && this.tape == tape && trace == []
      ensures get == 0 && dma == 0 && forall i :: 0 <= i < n ==> desc[i].own
    {
      desc := new Desc[n];
      get, dma := 0, 0;
      this.tape := tape;
      sys, trace := Init(n), [];
      new;
      for i := 0 to n
        invariant forall k :: 0 <= k < i ==> desc[k] == FREE
        invariant get == 0 && dma == 0 && sys == Init(n) && trace == [] && this.tape == tape
      {
        desc[i] := FREE;
      }
    }

    /** The frames the DMA has completed and those it still may. */
    ghost function Ahead(): nat
      reads this`tape, this`sys
    {
      Total(tape) + |sys.completed|
    }

    /** Every frame the DMA completed was taken in order or still waits on a descriptor. */
    lemma FramesKept()
      requires Valid()
      ensures sys.completed == sys.taken + Unread(sys, 0)
    {
      RxFifo(desc.Length, trace);
    }

    ghost method Record(a: Action)
      requires desc.Length > 0 && sys == Run(Init(desc.Length), trace)
      modifies this`sys, this`trace
      ensures sys == Step(old(sys), a) && trace == old(trace) + [a]
      ensures sys == Run(Init(desc.Length), trace)
    {
      RunSnoc(Init(desc.Length), trace, a);
      sys := Step(sys, a);
      trace := trace + [a];
    }

    /** The DMA engine stores one frame if it owns the descriptor at its cursor. */
    method DmaStore(d: Desc)
      requires Valid()
      modifies desc, this`dma, this`sys, this`trace
      ensures Valid() && sys == Step(old(sys), Dma(d))
      ensures FromDma(d) && old(desc[dma].own) ==>
                && desc[old(dma)] == d && sys.completed == old(sys.completed) + [d]
                && dma == if old(dma) + 1 < desc.Length then old(dma) + 1 else 0
    {
      if FromDma(d) && desc[dma].own {
        desc[dma] := d;
        dma := Next(dma, desc.Length);
      }
      Record(Dma(d));
    }

    /** A pause of the CPU: the DMA works through the next entry of its tape. It leaves alone what the
        CPU owns. */
    method Pause()
      requires Valid()
      modifies desc, this`dma, this`tape, this`sys, this`trace
      ensures Valid()
      ensures sys.cpu == old(sys.cpu) && sys.taken == old(sys.taken) && sys.delivered == old(sys.delivered)
      ensures forall i :: 0 <= i < desc.Length && !old(desc[i].own) ==> desc[i] == old(desc[i])
      ensures Ahead() <= old(Ahead())
    {
      if tape == [] {
        return;
      }
      var frames := tape[0];
      tape := tape[1..];
      for k := 0 to |frames|
        invariant Valid() && tape == old(tape)[1..]
        invariant sys.cpu == old(sys.cpu) && sys.taken == old(sys.taken) && sys.delivered == old(sys.delivered)
        invariant forall i :: 0 <= i < desc.Length && !old(desc[i].own) ==> desc[i] == old(desc[i])
        invariant |sys.completed| <= old(|sys.completed|) + k
      {
        DmaStore(frames[k]);
      }
    }

    /** ETH_RxPkt_ChainMode: nothing while the DMA owns the descriptor; otherwise the frame, and the
        cursor moves on although the descriptor is still to be read. */
    method RxPktChainMode() returns (frame: Frame)
      requires Valid() && sys.cpu.Idle?
      modifies this`get, this`sys, this`trace
      ensures Valid() && sys == Step(old(sys), Take)
      ensures old(desc[get].own) ==> frame == Frame(0, None) && sys == old(sys)
      ensures !old(desc[get].own) ==>
                frame == Frame(FrameLen(desc[old(get)]), Some(old(get))) && sys.cpu == Taken(old(get), frame.length)
      ensures frame.descriptor == if old(desc[get].own) then None else Some(old(get))
      ensures get == if old(desc[get].own) then old(get) else if old(get) + 1 < desc.Length then old(get) + 1 else 0
      ensures var d := old(desc[get]);
              if !d.own && !d.es && d.fs && d.ls then frame.length + 4 == d.fl else frame.length == 0
    {
      HeadIsDma();
      if desc[get].own {
        frame := Frame(0, None);
      } else {
        var length := if !desc[get].es && desc[get].ls && desc[get].fs then U16(desc[get].fl - 4) else 0;
        frame := Frame(length, Some(get));
        get := Next(get, desc.Length);
      }
      Record(Take);
    }

    ghost method RecordAlloc(i: nat, d: Desc, lens: Option<seq<nat>>)
      requires Valid() && i < desc.Length && desc[i] == d && FromDma(d) && sys.cpu == Taken(i, FrameLen(d))
      requires lens.Some? ==> Sum(lens.value) == FrameLen(d)
      modifies this`sys, this`trace
      ensures Valid() && sys == old(sys).(cpu := Filling(i, FrameLen(d), lens, []))
    {
      Record(Alloc(lens));
    }

    /** Status = OWN: the descriptor goes back to the DMA, and the frame has been delivered. */
    method GiveBack(i: nat, ghost d: Desc, ghost lens: Option<seq<nat>>, ghost got: seq<seq<byte>>)
      requires Valid() && i < desc.Length && desc[i] == d && FromDma(d)
      requires sys.cpu == Filling(i, FrameLen(d), lens, got) && (lens.Some? ==> |got| == |lens.value|)
      modifies desc, this`sys, this`trace
      ensures Valid() && sys.cpu.Idle? && sys.taken == old(sys.taken) && sys.completed == old(sys.completed)
      ensures lens.None? ==> sys.delivered == old(sys.delivered) + [None]
      ensures lens.Some? ==>
                Flatten(got) == Payload(d) && sys.delivered == old(sys.delivered) + [Some(Payload(d))]
      ensures desc[i].own && forall j :: 0 <= j < desc.Length && j != i ==> desc[j] == old(desc[j])
    {
      Reachable(desc.Length, trace);
      DeliveredWhole(sys, d);
      desc[i] := FREE.(buf := desc[i].buf);
      Record(Release);
    }

    ghost method RecordCopy(i: nat, d: Desc, lens: seq<nat>, got: seq<seq<byte>>, l: nat, got': seq<seq<byte>>)
      requires Valid() && HoldsFrame(sys, i, d, lens, got) && |got| < |lens| && l == Sum(lens[..|got|])
      requires l + lens[|got|] <= |d.buf| && got' == got + [d.buf[l..l + lens[|got|]]]
      modifies this`sys, this`trace
      ensures Valid() && HoldsFrame(sys, i, d, lens, got') && sys.taken == old(sys.taken)
      ensures sys.delivered == old(sys.delivered) && sys.completed == old(sys.completed)
    {
      CopyStep(sys, i, d, lens, got, l);
      Record(Copy);
    }

    /** The copy loop with the segments got behind it, q in front of it and l bytes copied. */
    ghost predicate Copying(p: Pbuf?, q: Pbuf?, l: nat, i: nat, d: Desc, chain: seq<Pbuf>, lens: seq<nat>,
                            mem: seq<array<byte>>, got: seq<seq<byte>>)
      reads this`sys, chain, mem
    {
      && HoldsFrame(sys, i, d, lens, got) && IsChain(p, chain) && LaidOut(chain, lens, mem) && Holds(mem, lens, got)
      && |got| <= |chain| && q == (if |got| < |chain| then chain[|got|] else null) && l == Sum(lens[..|got|])
    }

    /** The memcpy of one segment. */
    method CopySegment(ghost p: Pbuf?, q: Pbuf, l: nat, i: nat, ghost d: Desc, ghost chain: seq<Pbuf>, ghost lens: seq<nat>,
                       ghost mem: seq<array<byte>>, ghost got: seq<seq<byte>>)
      returns (ghost got': seq<seq<byte>>)
      requires Valid() && Copying(p, q, l, i, d, chain, lens, mem, got)
      modifies this`sys, this`trace, mem
      ensures Valid() && Copying(p, q.next, l + q.len, i, d, chain, lens, mem, got') && |got'| == |got| + 1
      ensures sys.taken == old(sys.taken) && sys.delivered == old(sys.delivered) && sys.completed == old(sys.completed)
    {
      SegmentFits(d, lens, got);
      MemCpyIn(q, chain, lens, mem, desc[i].buf, l, got);
      got' := got + [d.buf[l..l + lens[|got|]]];
      RecordCopy(i, d, lens, got, l, got');
    }

    /** One turn of the copy loop: a pause, a memcpy, and on to the next segment. */
    method CopyNext(ghost p: Pbuf?, q: Pbuf, l: nat, i: nat, ghost d: Desc, ghost chain: seq<Pbuf>,
                    ghost lens: seq<nat>, ghost mem: seq<array<byte>>, ghost got: seq<seq<byte>>)
      returns (q': Pbuf?, l': nat, ghost got': seq<seq<byte>>)
      requires Valid() && Copying(p, q, l, i, d, chain, lens, mem, got)
      modifies desc, this`dma, this`tape, this`sys, this`trace, mem
      ensures Valid() && Copying(p, q', l', i, d, chain, lens, mem, got') && |got'| == |got| + 1
      ensures sys.taken == old(sys.taken) && sys.delivered == old(sys.delivered)
      ensures Ahead() <= old(Ahead())
    {
      Pause();
      got' := CopySegment(p, q, l, i, d, chain, lens, mem, got);
      l', q' := l + q.len, q.next;
    }

    /** The copy loop of low_level_input: one memcpy per segment, each preceded by a pause. */
    method CopySegments(p: Pbuf?, i: nat, ghost d: Desc,
                        ghost chain: seq<Pbuf>, ghost lens: seq<nat>, ghost mem: seq<array<byte>>)
      returns (ghost got: seq<seq<byte>>)
      requires Valid() && Copying(p, p, 0, i, d, chain, lens, mem, [])
      modifies desc, this`dma, this`tape, this`sys, this`trace, mem
      ensures Valid() && HoldsFrame(sys, i, d, lens, got) && Carries(p, chain, lens, mem, got)
      ensures sys.taken == old(sys.taken) && sys.delivered == old(sys.delivered)
      ensures Ahead() <= old(Ahead())
    {
      var q, l := p, 0;
      got := [];
      while q != null
        invariant Valid() && Copying(p, q, l, i, d, chain, lens, mem, got)
        invariant sys.taken == old(sys.taken) && sys.delivered == old(sys.delivered)
        invariant Ahead() <= old(Ahead())
        decreases |chain| - |got|
      {
        q, l, got := CopyNext(p, q, l, i, d, chain, lens, mem, got);
      }
    }

    /** The same once a chain holds the frame: the chain is left alone. */
    method GiveBackFull(ghost p: Pbuf?, i: nat, ghost d: Desc, ghost chain: seq<Pbuf>, ghost lens: seq<nat>,
                        ghost mem: seq<array<byte>>, ghost got: seq<seq<byte>>)
      requires Valid() && HoldsFrame(sys, i, d, lens, got) && Carries(p, chain, lens, mem, got)
      modifies desc, this`sys, this`trace
      ensures Valid() && sys.cpu.Idle? && sys.taken == old(sys.taken) && sys.completed == old(sys.completed)
      ensures Carries(p, chain, lens, mem, got) && Flatten(got) == Payload(d)
      ensures sys.delivered == old(sys.delivered) + [Some(Payload(d))] && desc[i].own
    {
      GiveBack(i, d, Some(lens), got);
    }

    /** The second half of low_level_input, when there is a chain to fill. */
    method CopyFrame(p: Pbuf?, i: nat, ghost d: Desc,
                     ghost chain: seq<Pbuf>, ghost lens: seq<nat>, ghost mem: seq<array<byte>>)
      returns (ghost got: seq<seq<byte>>)
      requires Valid() && Copying(p, p, 0, i, d, chain, lens, mem, [])
      modifies desc, this`dma, this`tape, this`sys, this`trace, mem
      ensures Valid() && sys.cpu.Idle?
      ensures Carries(p, chain, lens, mem, got) && Flatten(got) == Payload(d)
      ensures sys.taken == old(sys.taken) && sys.delivered == old(sys.delivered) + [Some(Payload(d))]
      ensures Ahead() <= old(Ahead()) && desc[i].own
    {
      got := CopySegments(p, i, d, chain, lens, mem);
      GiveBackFull(p, i, d, chain, lens, mem, got);
    }

    /** The frame at the cursor is taken, and then comes a pause. */
    method Fetch() returns (frame: Frame)
      requires Valid() && sys.cpu.Idle? && !desc[get].own
      modifies this, desc
      ensures var i, d := old(get), old(desc[get]);
              && Valid() && FromDma(d) && i < desc.Length && desc[i] == d
              && frame == Frame(FrameLen(d), Some(i)) && sys.cpu == Taken(i, FrameLen(d))
              && sys.taken == old(sys.taken) + [d] && sys.delivered == old(sys.delivered)
      ensures get == if old(get) + 1 < desc.Length then old(get) + 1 else 0
      ensures Ahead() <= old(Ahead())
    {
      HeadIsDma();
      frame := RxPktChainMode();
      Pause();
    }

    /** A chain is asked for, as long as the frame. */
    method Ask(i: nat, length: nat, ghost d: Desc, free: nat)
      returns (p: Pbuf?, ghost chain: seq<Pbuf>, ghost lens: seq<nat>, ghost mem: seq<array<byte>>)
      requires Valid() && i < desc.Length && desc[i] == d && FromDma(d) && sys.cpu == Taken(i, length) && length == FrameLen(d)
      modifies this`sys, this`trace
      ensures Valid() && sys.taken == old(sys.taken) && sys.delivered == old(sys.delivered) && sys.completed == old(sys.completed)
      ensures p != null <==> PoolBuffers(Raw, length) <= free
      ensures p == null ==> sys.cpu == Filling(i, length, None, [])
      ensures p != null ==> Copying(p, p, 0, i, d, chain, lens, mem, []) && fresh(mem) && fresh(chain)
    {
      var left;
      p, left, chain, lens, mem := AllocPool(Raw, length, free);
      RecordAlloc(i, d, if p == null then None else Some(lens));
    }

    /** The first half of low_level_input: the frame is taken and a chain asked for. */
    method TakeFrame(free: nat)
      returns (p: Pbuf?, ghost chain: seq<Pbuf>, ghost lens: seq<nat>, ghost mem: seq<array<byte>>)
      requires Valid() && sys.cpu.Idle? && !desc[get].own
      modifies this, desc
      ensures var i, d := old(get), old(desc[get]);
              && Valid() && FromDma(d) && desc[i] == d
              && sys.taken == old(sys.taken) + [d] && sys.delivered == old(sys.delivered)
              && (p != null <==> PoolBuffers(Raw, FrameLen(d)) <= free)
              && (p == null ==> sys.cpu == Filling(i, FrameLen(d), None, []))
              && (p != null ==>
                    && Copying(p, p, 0, i, d, chain, lens, mem, [])
                    && fresh(mem) && fresh(chain))
      ensures get == if old(get) + 1 < desc.Length then old(get) + 1 else 0
      ensures Ahead() <= old(Ahead())
    {
      ghost var d := desc[get];
      var frame := Fetch();
      p, chain, lens, mem := Ask(frame.descriptor.value, frame.length, d, free);
      Pause();
    }

    /** low_level_input: take the frame, copy it segment by segment into a pool chain, give the
        descriptor back. However the DMA interleaves, the chain ends up holding exactly the frame that
        waited first, less its four CRC bytes, or nothing of it when it was not good. */
    method LowLevelInput(free: nat)
      returns (p: Pbuf?, ghost chain: seq<Pbuf>, ghost lens: seq<nat>, ghost mem: seq<array<byte>>, ghost got: seq<seq<byte>>)
      requires Valid() && sys.cpu.Idle? && !desc[get].own
      modifies this, desc
      ensures Valid() && sys.cpu.Idle?
      ensures FromDma(old(desc[get])) && sys.taken == old(sys.taken) + [old(desc[get])]
      ensures p != null <==> PoolBuffers(Raw, FrameLen(old(desc[get]))) <= free
      ensures p != null ==>
                Carries(p, chain, lens, mem, got) && Flatten(got) == Payload(old(desc[get])) && fresh(mem)
      ensures var d := old(desc[get]);
              p != null <==> free > 0 && (!d.es && d.fs && d.ls ==> d.fl - 4 <= 256 * free)
      ensures sys.delivered ==
              old(sys.delivered) + [if p == null then None else Some(Payload(old(desc[get])))]
      ensures var d := old(desc[get]);
              p != null ==> Flatten(got) == if !d.es && d.fs && d.ls then d.buf[..d.fl - 4] else []
      ensures desc[old(get)].own && get == if old(get) + 1 < desc.Length then old(get) + 1 else 0
      ensures Ahead() <= old(Ahead())
    {
      ghost var d := desc[get];
      var i := get;
      p, chain, lens, mem := TakeFrame(free);
      GrantedExact(Raw, FrameLen(d), free);
      if p == null {
        got := [];
        GiveBack(i, d, None, got);
      } else {
        got := CopyFrame(p, i, d, chain, lens, mem);
      }
    }

    lemma HeadIsDma()
      requires Valid() && sys.cpu.Idle?
      ensures get < desc.Length && (!desc[get].own ==> FromDma(desc[get]))
    {
      Reachable(desc.Length, trace);
      WaitingSlot(sys, 0);
    }

    /** ETH_GetRxPktSize (Libraries/STM32_ETH_Driver/src/stm32_eth.c:652-666). */
    function RxPktSize(): nat
      requires get < desc.Length
      reads this`get, desc
    {
      if !desc[get].own && Good(desc[get]) then desc[get].fl else 0
    }

    lemma SizeSaysGood()
      requires Valid() && sys.cpu.Idle?
      ensures get < desc.Length && RxPktSize() == PktSize(sys)
      ensures RxPktSize() == 0 <==> Unread(sys, 0) == [] || !Good(Unread(sys, 0)[0])
      ensures var d := desc[get]; RxPktSize() == if !d.own && !d.es && d.fs && d.ls then d.fl else 0
    {
      Reachable(desc.Length, trace);
      SizeExact(sys);
    }

    /** A bad frame is at the cursor. */
    predicate Blocked()
      reads this`get, desc
    {
      get < desc.Length && !desc[get].own && !Good(desc[get])
    }

    lemma BlockedExact()
      requires Valid() && sys.cpu.Idle?
      ensures Blocked() <==> Unread(sys, 0) != [] && !Good(Unread(sys, 0)[0])
      ensures Blocked() ==> RxPktSize() == 0 && BadHead(sys, desc[get])
    {
      Reachable(desc.Length, trace);
      WaitingSlot(sys, 0);
    }

    /** ETH_IRQHandler: drains the ring. It terminates on any tape, hands only good frames to the
        stack, and stops exactly when nothing waits or the first waiting frame is a bad one; then every
        frame completed has been taken if and only if all were good. Called with a bad frame in front,
        it does nothing, and the frame is still in front. */
    method EthIrqHandler(pool: nat -> nat) returns (ghost frames: seq<Desc>, ghost deliveries: seq<Option<seq<byte>>>)
      requires Valid() && sys.cpu.Idle? && AllGood(sys.taken)
      modifies this, desc
      ensures Valid() && sys.cpu.Idle? && AllGood(sys.taken)
      ensures Series(frames, deliveries, pool)
      ensures sys.taken == old(sys.taken) + frames && sys.delivered == old(sys.delivered) + deliveries
      ensures Unread(sys, 0) == [] || !Good(Unread(sys, 0)[0])
      ensures sys.taken == sys.completed <==> AllGood(sys.completed)
      ensures old(Blocked()) ==> Blocked() && sys.taken == old(sys.taken) && desc[get] == old(desc[get])
    {
      Pause();
      SizeSaysGood();
      var calls := 0;
      frames, deliveries := [], [];
      while RxPktSize() != 0
        invariant Valid() && sys.cpu.Idle? && get < desc.Length && AllGood(sys.taken)
        invariant Series(frames, deliveries, pool) && |frames| == calls
        invariant sys.taken == old(sys.taken) + frames && sys.delivered == old(sys.delivered) + deliveries
        invariant old(Blocked()) ==> Blocked() && sys.taken == old(sys.taken) && desc[get] == old(desc[get])
        decreases Total(tape) + Waiting(sys)
      {
        ghost var d := InputOne(pool(calls));
        SeriesSnoc(old(sys.taken), old(sys.delivered), frames, deliveries, pool, d);
        frames, deliveries := frames + [d], deliveries + [Delivery(d, pool(calls))];
        calls := calls + 1;
      }
      SizeSaysGood();
      FramesKept();
      RestOrStuck(sys.taken, Unread(sys, 0));
    }

    method InputOne(free: nat) returns (ghost d: Desc)
      requires Valid() && sys.cpu.Idle? && !desc[get].own && Good(desc[get])
      modifies this, desc
      ensures Valid() && sys.cpu.Idle? && get < desc.Length
      ensures Good(d) && FromDma(d) && sys.taken == old(sys.taken) + [d]
      ensures sys.delivered == old(sys.delivered) + [Delivery(d, free)]
      ensures Total(tape) + Waiting(sys) < old(Total(tape) + Waiting(sys)) && 0 <= Waiting(sys)
    {
      Pause();
      d := desc[get];
      var p, chain, lens, mem, got := LowLevelInput(free);
      Pause();
      Reachable(desc.Length, trace);
    }
  }
}
